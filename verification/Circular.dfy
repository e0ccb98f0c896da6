/** Circular storage as a sequence: where positions wrap, what a run of cells stands for, and
    what writing over the end does to it. Both ring buffers are built on it. */
module Circular {
  import opened Words
  import opened Pcm

  /** Cell i positions after start, going round once at most. */
  function Wrap(start: nat, i: nat, capacity: nat): nat {
    if start + i < capacity then start + i else start + i - capacity
  }

  lemma ModOnce(x: nat, m: nat)
    requires x < m
    ensures (m + x) % m == x
  {
    assert (m + x) / m == 1 by { DivUnique(m + x, m, 1, x); }
  }

  lemma WrapIsMod(start: nat, i: nat, capacity: nat)
    requires start < capacity && i <= capacity
    ensures (start + i) % capacity == Wrap(start, i, capacity) < capacity
  {
    if start + i >= capacity {
      assert (start + i) == capacity + (start + i - capacity);
      ModOnce(start + i - capacity, capacity);
    }
  }

  /** The len samples from start, read off circular storage. */
  ghost function Unwrap(cells: seq<Sample>, start: nat, len: nat): (s: seq<Sample>)
    requires |cells| == 0 ==> start == len == 0
    requires |cells| > 0 ==> start < |cells| && len <= |cells|
    ensures |s| == len
  {
    seq(len, i requires 0 <= i < len => cells[Wrap(start, i, |cells|)])
  }

  /** The last n samples, or all of them if there are fewer. */
  function LastOf<T>(s: seq<T>, n: nat): seq<T> {
    if n >= |s| then s else s[|s| - n..]
  }

  /** What LastOf leaves out is what comes before it. */
  lemma LastOfIs<T>(s: seq<T>, n: nat)
    ensures LastOf(s, n) == s[(if |s| < n then 0 else |s| - n)..]
  {
  }

  lemma LastOfLength<T>(s: seq<T>, n: nat)
    ensures |LastOf(s, n)| == Min(|s|, n)
  {
  }

  /** The modulo that moves a position round the ring. */
  method Advance(position: nat, steps: nat, capacity: nat) returns (next: nat)
    requires position < capacity && steps <= capacity
    ensures next == Wrap(position, steps, capacity) < capacity
  {
    WrapIsMod(position, steps, capacity);
    next := (position + steps) % capacity;
  }

  /** The storage after the samples are written from w on, going round at the end. */
  ghost function Overwritten(cells: seq<Sample>, w: nat, s: seq<Sample>): (r: seq<Sample>)
    requires w < |cells| && |s| <= |cells|
    ensures |r| == |cells|
  {
    seq(|cells|, k requires 0 <= k < |cells| =>
      var i := if k >= w then k - w else k + |cells| - w;
      if i < |s| then s[i] else cells[k])
  }

  /** Where the j-th sample after a write of k samples lies, and who put it there. */
  lemma RingIndex(capacity: nat, readPos: nat, filled: nat, k: nat, j: nat)
    requires readPos < capacity && filled <= capacity && k <= capacity
    requires j < Min(filled + k, capacity)
    ensures var drop := Max(0, filled + k - capacity);
            var w, p := Wrap(readPos, filled, capacity), Wrap(Wrap(readPos, drop, capacity), j, capacity);
            var i := if p >= w then p - w else p + capacity - w;
            && p < capacity
            && if j + drop < filled then p == Wrap(readPos, j + drop, capacity) && i >= k
               else i == j + drop - filled
  {
  }

  /** The last n of the filled cells start n cells before the write position. */
  lemma LastStart(cells: seq<Sample>, writePos: nat, filled: nat, n: nat)
    requires writePos < |cells| && n <= filled <= |cells|
    ensures Wrap(writePos, |cells| - filled, |cells|) < |cells|
    ensures Wrap(writePos, |cells| - n, |cells|) < |cells|
    ensures LastOf(Unwrap(cells, Wrap(writePos, |cells| - filled, |cells|), filled), n) ==
            Unwrap(cells, Wrap(writePos, |cells| - n, |cells|), n)
  {
  }

  /** A run of cells is one slice, or two when it goes round the end. */
  lemma TwoSlices(cells: seq<Sample>, start: nat, n: nat)
    requires start < |cells| && n <= |cells|
    ensures Unwrap(cells, start, n) ==
            if start + n <= |cells| then cells[start..start + n]
            else cells[start..] + cells[..n - (|cells| - start)]
  {
  }

  /** Going back from the write position over the filled cells reaches the oldest one. */
  lemma BackToOldest(oldest: nat, filled: nat, capacity: nat)
    requires oldest < capacity && filled <= capacity
    ensures Wrap(Wrap(oldest, filled, capacity), capacity - filled, capacity) == oldest
  {
  }

  lemma LastOfTrim(u: seq<Sample>, s: seq<Sample>, n: nat)
    requires |u| <= n
    ensures LastOf(u + s, n) == (u + LastOf(s, n))[Max(0, |u| + |LastOf(s, n)| - n)..]
  {
  }

  lemma WrapInside(readPos: nat, i: nat, capacity: nat)
    requires readPos < capacity && i <= capacity
    ensures Wrap(readPos, i, capacity) < capacity
  {
  }

  lemma PushKept(cells: seq<Sample>, readPos: nat, filled: nat, kept: seq<Sample>)
    requires readPos < |cells| && filled <= |cells| && |kept| <= |cells|
    ensures var capacity := |cells|;
            var w := Wrap(readPos, filled, capacity);
            var drop := Max(0, filled + |kept| - capacity);
            && w < capacity && Wrap(readPos, drop, capacity) < capacity
            && Unwrap(Overwritten(cells, w, kept), Wrap(readPos, drop, capacity), filled + |kept| - drop)
               == (Unwrap(cells, readPos, filled) + kept)[drop..]
  {
    hide Wrap;
    var capacity := |cells|;
    var drop := Max(0, filled + |kept| - capacity);
    WrapInside(readPos, filled, capacity);
    WrapInside(readPos, drop, capacity);
    var after := Unwrap(Overwritten(cells, Wrap(readPos, filled, capacity), kept),
                        Wrap(readPos, drop, capacity), filled + |kept| - drop);
    forall j | 0 <= j < |after|
      ensures after[j] == (Unwrap(cells, readPos, filled) + kept)[j + drop]
    {
      RingIndex(capacity, readPos, filled, |kept|, j);
    }
  }

  lemma KeptIsLast(pushed: seq<Sample>, kept: seq<Sample>, skip: nat, capacity: nat)
    requires skip <= |pushed| && kept == pushed[skip..] && skip == Max(0, |pushed| - capacity)
    ensures kept == LastOf(pushed, capacity)
  {
  }

  /** The write position follows the last sample, before and after a push. */
  lemma WrapAgain(readPos: nat, filled: nat, n: nat, capacity: nat)
    requires readPos < capacity && filled <= capacity && n <= capacity
    ensures var drop := Max(0, filled + n - capacity);
            Wrap(Wrap(readPos, filled, capacity), n, capacity) ==
            Wrap(Wrap(readPos, drop, capacity), filled + n - drop, capacity)
    ensures Wrap(readPos, 0, capacity) == readPos
  {
  }

  /** What the circular write does to the sequence it stands for. */
  lemma PushCells(cells: seq<Sample>, readPos: nat, filled: nat, s: seq<Sample>)
    requires readPos < |cells| && filled <= |cells|
    ensures var capacity := |cells|;
            var kept := LastOf(s, capacity);
            var w := Wrap(readPos, filled, capacity);
            var drop := Max(0, filled + |kept| - capacity);
            && w < capacity && Wrap(readPos, drop, capacity) < capacity
            && Unwrap(Overwritten(cells, w, kept), Wrap(readPos, drop, capacity), filled + |kept| - drop)
               == LastOf(Unwrap(cells, readPos, filled) + s, capacity)
  {
    hide Wrap, Overwritten, Unwrap;
    PushKept(cells, readPos, filled, LastOf(s, |cells|));
    LastOfTrim(Unwrap(cells, readPos, filled), s, |cells|);
  }
}
