/** L16: linear 16-bit samples in network byte order (src/codec/l16.rs, section 4.5.11 of RFC 3551). */
module L16 {
  import opened Bits

  function HighByte(sample: i16): u8 {
    (sample % 0x1_0000) / 0x100
  }

  function LowByte(sample: i16): u8 {
    sample % 0x100
  }

  /** `i16::from_be_bytes`. */
  function FromBytes(high: int, low: int): i16 {
    ToI16(0x100 * high + low)
  }

  /** Complete pairs of bytes only: a trailing odd byte is dropped. */
  function Decode(payload: seq<u8>): seq<i16> {
    seq(|payload| / 2,
        i requires 0 <= i < |payload| / 2 => FromBytes(payload[2 * i], payload[2 * i + 1]))
  }

  function Encode(samples: seq<i16>): seq<u8> {
    seq(2 * |samples|,
        i requires 0 <= i < 2 * |samples| =>
          if i % 2 == 0 then HighByte(samples[i / 2]) else LowByte(samples[i / 2]))
  }

  lemma BytesOfSample(sample: i16)
    ensures FromBytes(HighByte(sample), LowByte(sample)) == sample
  {
    assert sample % 0x1_0000 == 0x100 * HighByte(sample) + LowByte(sample);
  }

  lemma SampleOfBytes(high: u8, low: u8)
    ensures HighByte(FromBytes(high, low)) == high
    ensures LowByte(FromBytes(high, low)) == low
  {
    assert FromBytes(high, low) % 0x1_0000 == 0x100 * high + low;
  }

  /** Two bytes and a sample as numbers from 0 to 65535. */
  function Word(high: int, low: int): int {
    0x100 * high + low
  }

  function Unsigned(sample: int): int {
    if sample < 0 then sample + 0x1_0000 else sample
  }

  /** Network byte order: the first byte of each pair is the high one of the two's complement. */
  lemma BigEndian(samples: seq<i16>)
    ensures |Encode(samples)| == 2 * |samples|
    ensures forall i :: 0 <= i < |samples| ==>
              Word(Encode(samples)[2 * i], Encode(samples)[2 * i + 1]) == Unsigned(samples[i])
  {
    forall i | 0 <= i < |samples|
      ensures Word(Encode(samples)[2 * i], Encode(samples)[2 * i + 1]) == Unsigned(samples[i])
    {
      assert Encode(samples)[2 * i] == HighByte(samples[i]) && Encode(samples)[2 * i + 1] == LowByte(samples[i]);
      TwosComplement(samples[i]);
    }
  }

  lemma TwosComplement(sample: i16)
    ensures Word(HighByte(sample), LowByte(sample)) == Unsigned(sample)
  {
    assert sample % 0x1_0000 == if sample < 0 then sample + 0x1_0000 else sample;
  }

  /** Frames survive the wire unchanged. */
  lemma DecodeInvertsEncode(samples: seq<i16>)
    ensures Decode(Encode(samples)) == samples
  {
    hide HighByte;
    hide LowByte;
    hide FromBytes;
    var payload := Encode(samples);
    forall i | 0 <= i < |samples|
      ensures Decode(payload)[i] == samples[i]
    {
      assert payload[2 * i] == HighByte(samples[i]) && payload[2 * i + 1] == LowByte(samples[i]);
      BytesOfSample(samples[i]);
    }
  }

  /** Payloads survive linear audio unchanged, but for a trailing odd byte. */
  lemma EncodeInvertsDecode(payload: seq<u8>)
    ensures Encode(Decode(payload)) == payload[..|payload| - |payload| % 2]
  {
    hide HighByte;
    hide LowByte;
    hide FromBytes;
    var samples := Decode(payload);
    forall i | 0 <= i < 2 * |samples|
      ensures Encode(samples)[i] == payload[i]
    {
      var j := i / 2;
      assert samples[j] == FromBytes(payload[2 * j], payload[2 * j + 1]);
      SampleOfBytes(payload[2 * j], payload[2 * j + 1]);
    }
  }
}
