/** The codecs implemented in the repository itself, behind the `Codec` trait (src/codec/mod.rs). */
module Wire {
  import opened Bits
  import G711
  import L16
  import Negotiation

  type Payload = seq<u8>
  type Samples = seq<i16>

  datatype Codec = Linear | Companded(law: G711.Law)

  function Decode(c: Codec, payload: Payload): Samples {
    match c
    case Linear => L16.Decode(payload)
    case Companded(law) => G711.Decode(law, payload)
  }

  function Encode(c: Codec, samples: Samples): Payload {
    match c
    case Linear => L16.Encode(samples)
    case Companded(law) => G711.Encode(law, samples)
  }

  /** What a payload looks like after a trip through linear audio. */
  function Canonical(c: Codec, payload: Payload): Payload {
    match c
    case Linear => payload[..|payload| - |payload| % 2]
    case Companded(law) => G711.CanonicalPayload(law, payload)
  }

  function Kind(c: Codec): Negotiation.CodecKind {
    match c
    case Linear => Negotiation.L16
    case Companded(ALaw) => Negotiation.Pcma
    case Companded(MuLaw) => Negotiation.Pcmu
  }

  lemma EncodeInvertsDecode(c: Codec, payload: Payload)
    ensures Encode(c, Decode(c, payload)) == Canonical(c, payload)
  {
    match c
    case Linear => L16.EncodeInvertsDecode(payload);
    case Companded(law) => G711.EncodeInvertsDecode(law, payload);
  }

  /** Samples of a 20 ms frame, at 16 kHz. */
  const SAMPLES_PER_FRAME := 320

  /** A frame keeps its length over the wire, and its packet lasts as long as the timestamp of its kind
      says: one tick for each sample sent, two bytes a sample for L16 and one for the others. The kind
      names the law its bytes follow. */
  lemma FramesOnWire(c: Codec, frame: Samples)
    requires |frame| == SAMPLES_PER_FRAME
    ensures |Decode(c, Encode(c, frame))| == SAMPLES_PER_FRAME
    ensures |Encode(c, frame)| == Negotiation.TimestampIncrement(Kind(c)) * (if Kind(c) == Negotiation.L16 then 2 else 1)
    ensures match Kind(c)
            case L16 => Encode(c, frame) == L16.Encode(frame)
            case Pcma => Encode(c, frame) == G711.Encode(G711.ALaw, frame)
            case Pcmu => Encode(c, frame) == G711.Encode(G711.MuLaw, frame)
            case _ => false
  {
    hide G711.EncodeSample;
    hide G711.DecodeSample;
  }
}
