/** The desktop client's ring buffer (desktop/desktop_kws_client.py): the most recent samples,
    for the pre-roll. */
module DesktopRing {
  import opened Words
  import opened Pcm
  import opened Circular

  /** Going back over the filled cells and forward again ends where it began. */
  lemma RoundTrip(writePos: nat, filled: nat, capacity: nat)
    requires writePos < capacity && filled <= capacity
    ensures Wrap(Wrap(writePos, capacity - filled, capacity), filled, capacity) == writePos
  {
  }

  /** The oldest sample after a push of n, counted from the old and the new write position. */
  lemma PushStart(writePos: nat, filled: nat, n: nat, capacity: nat)
    requires writePos < capacity && filled <= capacity && n <= capacity
    ensures var drop := Max(0, filled + n - capacity);
            Wrap(Wrap(writePos, capacity - filled, capacity), drop, capacity) ==
            Wrap(Wrap(writePos, n, capacity), capacity - Min(capacity, filled + n), capacity)
  {
  }

  class RingBuffer {
    const buffer: array<Sample>
    var writePos: nat
    var filled: nat

    constructor (capacity: nat)
      requires capacity > 0
      ensures fresh(buffer) && buffer.Length == capacity
      ensures Valid() && Recent() == []
    {
      buffer := new Sample[capacity](_ => 0);
      writePos, filled := 0, 0;
    }

    ghost predicate Valid()
      reads this
    {
      filled <= buffer.Length && writePos < buffer.Length
    }

    /** The last filled samples pushed, oldest first. */
    ghost function Recent(): (s: seq<Sample>)
      requires Valid()
      reads this, buffer
      ensures |s| == filled
    {
      WrapInside(writePos, buffer.Length - filled, buffer.Length);
      Unwrap(buffer[..], Wrap(writePos, buffer.Length - filled, buffer.Length), filled)
    }

    /** push(): the newest samples are kept, up to the capacity. */
    method Push(frame: seq<Sample>)
      requires Valid()
      modifies this, buffer
      ensures Valid()
      ensures Recent() == LastOf(old(Recent()) + frame, buffer.Length)
    {
      hide Wrap, Overwritten, Unwrap, LastOf;
      var capacity := buffer.Length;
      ghost var oldest := Wrap(writePos, capacity - filled, capacity);
      WrapInside(writePos, capacity - filled, capacity);
      RoundTrip(writePos, filled, capacity);
      PushCells(buffer[..], oldest, filled, frame);
      var kept := LastOf(frame, capacity);
      var n := |kept|;
      LastOfLength(frame, capacity);
      ghost var start := Wrap(Wrap(writePos, n, capacity), capacity - Min(capacity, filled + n), capacity);
      Store(kept);
      PushStart(writePos, filled, n, capacity);
      writePos := Advance(writePos, n, capacity);
      filled := Min(capacity, filled + n);
    }

    /** The one or two slice assignments of a push. */
    method Store(frame: seq<Sample>)
      requires Valid() && |frame| <= buffer.Length
      modifies buffer
      ensures buffer[..] == Overwritten(old(buffer[..]), writePos, frame)
    {
      var capacity := buffer.Length;
      var n, end := |frame|, writePos + |frame|;
      if end <= capacity {
        forall i | 0 <= i < n { buffer[writePos + i] := frame[i]; }
      } else {
        var first := capacity - writePos;
        forall i | 0 <= i < first { buffer[writePos + i] := frame[i]; }
        forall i | 0 <= i < n - first { buffer[i] := frame[first + i]; }
      }
    }

    /** get_last(): the most recent samples, as many as asked for or as there are. */
    method GetLast(samples: nat) returns (last: seq<Sample>)
      requires Valid()
      ensures last == LastOf(Recent(), samples)
    {
      hide Wrap, Unwrap;
      var capacity := buffer.Length;
      var n := Min(samples, filled);
      LastStart(buffer[..], writePos, filled, n);
      var start := Advance(writePos, capacity - n, capacity);
      TwoSlices(buffer[..], start, n);
      if start + n <= capacity {
        last := buffer[start..start + n];
      } else {
        var first := capacity - start;
        last := buffer[start..] + buffer[..n - first];
      }
    }
  }

  /** The constructor's check, as the source raises ValueError. */
  method NewRingBuffer(capacity: int) returns (ring: RingBuffer?)
    ensures ring == null <==> capacity <= 0
    ensures ring != null ==> && fresh(ring) && fresh(ring.buffer) && ring.Valid()
                             && ring.buffer.Length == capacity && ring.Recent() == []
  {
    if capacity <= 0 {
      return null;
    }
    ring := new RingBuffer(capacity);
  }
}
