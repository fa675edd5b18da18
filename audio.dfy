/** Decoded sample buffers. Samples are reals (the codec hands out float64
    values); the codec itself is outside the model, so a recording is what
    `sf.read` returns together with what `sf.info` reports. */
module Audio {

  /** The tolerance of every silence and equality test in the scripts (1e-10). */
  const Tolerance: real := 0.0000000001

  /** A frames-by-channels buffer with its sample rate and the codec's subtype
      tag (bit depth and format), which every write copies through unchanged. */
  datatype Recording = Recording(channels: nat, frames: seq<seq<real>>, rate: int, subtype: string)

  /** A regular file: audio the codec can decode, or anything else. */
  datatype Entry = Audio(rec: Recording) | Other

  /** Every frame holds one sample per channel, as a decoded array does. */
  predicate WellFormed(r: Recording)
  {
    forall i | 0 <= i < |r.frames| :: |r.frames[i]| == r.channels
  }

  function Abs(x: real): real
  {
    if x < 0.0 then -x else x
  }

  /** Sample `c` of a frame (0.0 past the end, which no well-formed frame reaches). */
  function Sample(frame: seq<real>, c: nat): real
  {
    if c < |frame| then frame[c] else 0.0
  }

  /** `np.all(np.abs(data[:, c]) < 1e-10)`; true of an empty buffer. */
  predicate Silent(frames: seq<seq<real>>, c: nat)
  {
    forall i | 0 <= i < |frames| :: Abs(Sample(frames[i], c)) < Tolerance
  }

  /** `np.all(np.abs(data[:, 0] - data[:, 1]) < 1e-10)`. */
  predicate ChannelsEqual(frames: seq<seq<real>>)
  {
    forall i | 0 <= i < |frames| :: Abs(Sample(frames[i], 0) - Sample(frames[i], 1)) < Tolerance
  }

  /** `data[:, c]` written back as a one-channel file with the same rate and subtype. */
  function Channel(r: Recording, c: nat): (m: Recording)
    ensures m.channels == 1 && |m.frames| == |r.frames|
    ensures m.rate == r.rate && m.subtype == r.subtype
    ensures WellFormed(m)
    ensures forall i | 0 <= i < |r.frames| :: m.frames[i] == [Sample(r.frames[i], c)]
  {
    Recording(1, seq(|r.frames|, i requires 0 <= i < |r.frames| => [Sample(r.frames[i], c)]), r.rate, r.subtype)
  }
}
