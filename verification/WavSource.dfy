/** Frames of a mono recording (desktop/wav_audio_source.py): full frames, then one padded
    with zeros, then StopIteration. Opening the file is not modelled. */
module WavSource {
  import opened Words
  import opened Pcm

  function Zeros(n: nat): seq<Sample> {
    seq(n, _ => 0)
  }

  /** The recording with its last frame filled up: always at least one zero is added, and a
      whole frame of them if the length is already a multiple of the frame size. */
  function Padded(samples: seq<Sample>, frameSize: nat): (s: seq<Sample>)
    requires frameSize >= 1
    ensures |samples| < |s| <= |samples| + frameSize
    ensures samples <= s && forall i :: |samples| <= i < |s| ==> s[i] == 0
  {
    samples + Zeros(frameSize - |samples| % frameSize)
  }

  lemma PaddedLength(samples: seq<Sample>, frameSize: nat)
    requires frameSize >= 1
    ensures |Padded(samples, frameSize)| == (|samples| / frameSize + 1) * frameSize
    ensures |Padded(samples, frameSize)| % frameSize == 0
  {
    var q := |samples| / frameSize;
    assert |samples| == frameSize * q + |samples| % frameSize;
    assert (q + 1) * frameSize == frameSize * q + frameSize;
    DivUnique((q + 1) * frameSize, frameSize, q + 1, 0);
  }

  /** Dropping a full frame from the front leaves the padding as it was. */
  lemma PaddedDrop(samples: seq<Sample>, frameSize: nat)
    requires 1 <= frameSize <= |samples|
    ensures Padded(samples[frameSize..], frameSize) == Padded(samples, frameSize)[frameSize..]
  {
    var n := |samples| - frameSize;
    var q, r := n / frameSize, n % frameSize;
    assert |samples| == frameSize * (q + 1) + r by { assert frameSize * (q + 1) == frameSize * q + frameSize; }
    DivUnique(|samples|, frameSize, q + 1, r);
  }

  lemma SmallMod(x: nat, m: nat)
    requires x < m
    ensures x % m == x
  {
    DivUnique(x, m, 0, x);
  }

  class WavAudioSource {
    const samples: seq<Sample>
    var position: nat
    var exhausted: bool

    constructor (samples: seq<Sample>)
      ensures this.samples == samples && Valid()
      ensures position == 0 && !exhausted
    {
      this.samples := samples;
      position, exhausted := 0, false;
    }

    ghost predicate Valid()
      reads this
    {
      position <= |samples|
    }

    /** What reads of this frame size are still to give, joined. */
    ghost function Rest(frameSize: nat): seq<Sample>
      requires Valid() && frameSize >= 1
      reads this
    {
      if exhausted then [] else Padded(samples[position..], frameSize)
    }

    /** read(): None is StopIteration. */
    method Read(frameSize: nat) returns (frame: Option<seq<Sample>>)
      requires Valid() && frameSize >= 1
      modifies this
      ensures Valid()
      ensures frame.None? <==> old(Rest(frameSize)) == []
      ensures frame.Some? ==> |frame.value| == frameSize
      ensures old(Rest(frameSize)) ==
              (if frame.Some? then frame.value else []) + Rest(frameSize)
    {
      if exhausted {
        return None;
      }
      var end := position + frameSize;
      var chunk := samples[position..Min(end, |samples|)];
      ghost var rest := samples[position..];
      if |chunk| < frameSize {
        SmallMod(|rest|, frameSize);
        chunk := chunk + Zeros(frameSize - |chunk|);
        exhausted := true;
      } else {
        PaddedDrop(rest, frameSize);
        assert rest[frameSize..] == samples[end..];
        assert chunk == Padded(rest, frameSize)[..frameSize];
      }
      position := Min(end, |samples|);
      return Some(chunk);
    }
  }
}
