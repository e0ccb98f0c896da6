/** The firmware's ring buffer (ring_buffer.cpp): caller-supplied circular storage, a write
    and a read position, and a mutex that may not be taken in time. */
module FirmwareRing {
  import opened Words
  import opened Pcm
  import opened Circular

  /** What callers do: push, look back, or read, each with the mutex taken in time or not. */
  datatype Op =
    | PushOp(samples: seq<Sample>, taken: bool)
    | LastOp(count: nat, taken: bool)
    | ReadOp(count: nat, taken: bool)

  /** The ring's unread samples together with the history of the calls: all samples
      accepted, all samples handed out by reads, and how many were overwritten. */
  datatype History = History(
    unread: seq<Sample>,
    accepted: seq<Sample>,
    delivered: seq<Sample>,
    overwritten: nat)

  function Apply(capacity: nat, h: History, op: Op): History {
    match op
    case PushOp(samples, taken) =>
      if taken && samples != [] && capacity > 0 then
        var all := h.unread + samples;
        h.(unread := LastOf(all, capacity), accepted := h.accepted + samples,
           overwritten := h.overwritten + Max(0, |all| - capacity))
      else h
    case LastOp(_, _) => h
    case ReadOp(count, taken) =>
      var got := if taken then Min(count, |h.unread|) else 0;
      h.(unread := h.unread[got..], delivered := h.delivered + h.unread[..got])
  }

  /** memcpy of count samples. */
  method MemCpy(dst: array<Sample>, dstAt: nat, src: array<Sample>, srcAt: nat, count: nat)
    requires dst != src
    requires dstAt + count <= dst.Length && srcAt + count <= src.Length
    modifies dst
    ensures forall k :: 0 <= k < dst.Length ==>
      dst[k] == if dstAt <= k < dstAt + count then src[srcAt + (k - dstAt)] else old(dst[k])
  {
    forall i | 0 <= i < count {
      dst[dstAt + i] := src[srcAt + i];
    }
  }

  lemma PushApplied(capacity: nat, h: History, samples: seq<Sample>)
    requires capacity > 0 && samples != []
    ensures Apply(capacity, h, PushOp(samples, true)).unread == LastOf(h.unread + samples, capacity)
  {
  }

  lemma PushRefused(capacity: nat, h: History, samples: seq<Sample>, taken: bool)
    requires capacity == 0 || samples == [] || !taken
    ensures Apply(capacity, h, PushOp(samples, taken)) == h
  {
  }

  class RingBuffer {
    const storage: array<Sample>
    var writePos: nat
    var readPos: nat
    var filled: nat
    ghost var history: History  // all the calls so far, on the abstract ring

    constructor (storage: array<Sample>)
      ensures this.storage == storage
      ensures Valid() && Unread() == [] && history == History([], [], [], 0)
    {
      this.storage := storage;
      writePos, readPos, filled := 0, 0, 0;
      history := History([], [], [], 0);
    }

    ghost predicate Valid()
      reads this, storage
    {
      && filled <= storage.Length
      && (storage.Length == 0 ==> readPos == 0)
      && (storage.Length > 0 ==>
          readPos < storage.Length && writePos == Wrap(readPos, filled, storage.Length))
      && history.unread == Unwrap(storage[..], readPos, filled)
    }

    /** The samples pushed and neither read nor overwritten, oldest first. */
    ghost function Unread(): (s: seq<Sample>)
      requires Valid()
      reads this, storage
      ensures |s| == filled
    {
      Unwrap(storage[..], readPos, filled)
    }

    /** Push: refused for a null or empty input, no capacity, or a mutex not taken in time;
        otherwise the newest samples are kept up to the capacity, the oldest dropped. */
    method Push(samples: array?<Sample>, count: nat, taken: bool) returns (ok: bool)
      requires Valid()
      requires samples != null ==> samples != storage && count <= samples.Length
      modifies this, storage
      ensures Valid()
      ensures ok <==> samples != null && count > 0 && storage.Length > 0 && taken
      ensures Unread() == if ok then LastOf(old(Unread()) + samples[..count], storage.Length)
                          else old(Unread())
      ensures history == if samples == null then old(history)
                         else Apply(storage.Length, old(history), PushOp(samples[..count], taken))
    {
      hide Wrap, Overwritten, Unwrap, LastOf, Apply;
      if samples == null || count == 0 || storage.Length == 0 {
        PushRefused(storage.Length, history, if samples == null then [] else samples[..count], taken);
        return false;
      }
      if !taken {
        PushRefused(storage.Length, history, samples[..count], taken);
        return false;
      }
      var capacity := storage.Length;
      var skip, n := 0, count;
      if n > capacity {
        skip := n - capacity;
        n := capacity;
      }
      ghost var pushed, kept := samples[..count], samples[skip..skip + n];
      KeptIsLast(pushed, kept, skip, capacity);
      ghost var cells := storage[..];
      PushCells(cells, readPos, filled, pushed);
      CopyIn(samples, skip, n);
      WrapAgain(readPos, filled, n, capacity);
      writePos := Advance(writePos, n, capacity);
      if filled + n > capacity {
        var overflow := filled + n - capacity;
        readPos := Advance(readPos, overflow, capacity);
        filled := capacity;
      } else {
        filled := filled + n;
      }
      PushApplied(capacity, history, pushed);
      history := Apply(capacity, history, PushOp(pushed, true));
      return true;
    }

    /** The one or two memcpy calls that write n samples at the write position. */
    method CopyIn(samples: array<Sample>, skip: nat, n: nat)
      requires samples != storage && skip + n <= samples.Length
      requires writePos < storage.Length && n <= storage.Length
      modifies storage
      ensures storage[..] == Overwritten(old(storage[..]), writePos, samples[skip..skip + n])
    {
      var capacity := storage.Length;
      if writePos + n <= capacity {
        MemCpy(storage, writePos, samples, skip, n);
      } else {
        var firstPart := capacity - writePos;
        MemCpy(storage, writePos, samples, skip, firstPart);
        MemCpy(storage, 0, samples, skip + firstPart, n - firstPart);
      }
    }

    /** GetLast: copies out the newest samples and consumes nothing. */
    method GetLast(out: array?<Sample>, count: nat, taken: bool) returns (got: nat)
      requires Valid()
      requires out != null ==> out != storage && count <= out.Length
      modifies if out == null then {} else {out}
      ensures Valid() && Unread() == old(Unread()) && history == old(history)
      ensures history == Apply(storage.Length, old(history), LastOp(count, taken))
      ensures got == if out == null || !taken then 0 else Min(count, |Unread()|)
      ensures out != null ==> out[..] == LastOf(Unread(), got) + old(out[got..])
    {
      hide Wrap, Unwrap;
      if out == null || count == 0 || storage.Length == 0 {
        return 0;
      }
      if !taken {
        return 0;
      }
      var capacity := storage.Length;
      var n := Min(count, filled);
      if n == 0 {
        return 0;
      }
      WrapInside(readPos, filled, capacity);
      BackToOldest(readPos, filled, capacity);
      LastStart(storage[..], writePos, filled, n);
      var start := Advance(writePos, capacity - n, capacity);
      CopyOut(out, start, n);
      return n;
    }

    /** Read: copies out the oldest samples and removes them. */
    method Read(out: array?<Sample>, count: nat, taken: bool) returns (got: nat)
      requires Valid()
      requires out != null ==> out != storage && count <= out.Length
      modifies this, if out == null then {} else {out}
      ensures Valid() && storage[..] == old(storage[..])
      ensures got == if out == null || !taken then 0 else Min(count, |old(Unread())|)
      ensures Unread() == old(Unread())[got..]
      ensures history == if out == null then old(history)
                         else Apply(storage.Length, old(history), ReadOp(count, taken))
      ensures out != null ==> out[..] == old(Unread())[..got] + old(out[got..])
    {
      if out == null || count == 0 || storage.Length == 0 {
        return 0;
      }
      if !taken {
        return 0;
      }
      var capacity := storage.Length;
      var n := Min(count, filled);
      if n == 0 {
        return 0;
      }
      CopyOut(out, readPos, n);
      readPos := Advance(readPos, n, capacity);
      filled := filled - n;
      history := Apply(capacity, history, ReadOp(n, true));
      return n;
    }

    /** The one or two memcpy calls that read n samples off the ring. */
    method CopyOut(out: array<Sample>, start: nat, n: nat)
      requires out != storage && start < storage.Length && n <= storage.Length && n <= out.Length
      modifies out
      ensures out[..] == Unwrap(storage[..], start, n) + old(out[n..])
    {
      var capacity := storage.Length;
      if start + n <= capacity {
        MemCpy(out, 0, storage, start, n);
      } else {
        var firstPart := capacity - start;
        MemCpy(out, 0, storage, start, firstPart);
        MemCpy(out, firstPart, storage, 0, n - firstPart);
      }
    }
  }

  // -------------------------------------------------------------- whole runs

  function Replay(capacity: nat, ops: seq<Op>): History {
    if ops == [] then History([], [], [], 0)
    else Apply(capacity, Replay(capacity, ops[..|ops| - 1]), ops[|ops| - 1])
  }

  /** at gives, for each element of part, a strictly later place of it in whole. */
  ghost predicate Embeds(part: seq<Sample>, whole: seq<Sample>, at: seq<nat>) {
    && |at| == |part|
    && (forall i :: 0 <= i < |at| ==> at[i] < |whole| && whole[at[i]] == part[i])
    && (forall i, j :: 0 <= i < j < |at| ==> at[i] < at[j])
  }

  ghost predicate Accounted(capacity: nat, h: History, at: seq<nat>) {
    var head := |h.accepted| - |h.unread|;
    && |h.unread| <= capacity && head >= 0
    && |h.accepted| == |h.delivered| + h.overwritten + |h.unread|
    && h.unread == h.accepted[head..]
    && Embeds(h.delivered, h.accepted[..head], at)
    && (h.overwritten == 0 ==> h.delivered == h.accepted[..head])
  }

  lemma EmbedsLonger(part: seq<Sample>, whole: seq<Sample>, at: seq<nat>, longer: seq<Sample>)
    requires Embeds(part, whole, at) && whole <= longer
    ensures Embeds(part, longer, at)
  {
  }

  /** The n places from start on. */
  function Places(start: nat, n: nat): seq<nat> {
    seq(n, i requires 0 <= i < n => start + i)
  }

  lemma EmbedsExtend(part: seq<Sample>, whole: seq<Sample>, at: seq<nat>, more: seq<Sample>)
    requires Embeds(part, whole, at)
    ensures Embeds(part + more, whole + more, at + Places(|whole|, |more|))
  {
    var at' := at + Places(|whole|, |more|);
    forall i | 0 <= i < |at'|
      ensures at'[i] < |whole + more| && (whole + more)[at'[i]] == (part + more)[i]
    {
      if i < |at| { assert whole[at[i]] == part[i]; }
    }
    forall i, j | 0 <= i < j < |at'| ensures at'[i] < at'[j] {
      if i < |at| { assert at[i] < |whole|; }
    }
  }

  lemma AccountedPush(capacity: nat, h: History, at: seq<nat>, samples: seq<Sample>)
    requires Accounted(capacity, h, at) && samples != [] && capacity > 0
    ensures Accounted(capacity, Apply(capacity, h, PushOp(samples, true)), at)
  {
    hide Embeds;
    var h' := Apply(capacity, h, PushOp(samples, true));
    var head, head' := |h.accepted| - |h.unread|, |h'.accepted| - |h'.unread|;
    assert h'.accepted[head..] == h.unread + samples;
    assert h'.unread == h'.accepted[head'..];
    assert h.accepted[..head] <= h'.accepted[..head'];
    EmbedsLonger(h.delivered, h.accepted[..head], at, h'.accepted[..head']);
    if h'.overwritten == 0 { assert head' == head; }
  }

  lemma AccountedRead(capacity: nat, h: History, at: seq<nat>, count: nat)
    requires Accounted(capacity, h, at)
    ensures Accounted(capacity, Apply(capacity, h, ReadOp(count, true)),
                      at + Places(|h.accepted| - |h.unread|, Min(count, |h.unread|)))
  {
    hide Embeds;
    var head, got := |h.accepted| - |h.unread|, Min(count, |h.unread|);
    EmbedsExtend(h.delivered, h.accepted[..head], at, h.unread[..got]);
    assert h.accepted[..head + got] == h.accepted[..head] + h.unread[..got];
    assert h.unread[got..] == h.accepted[head + got..];
  }

  lemma AccountedStep(capacity: nat, h: History, at: seq<nat>, op: Op) returns (at': seq<nat>)
    requires Accounted(capacity, h, at)
    ensures Accounted(capacity, Apply(capacity, h, op), at')
  {
    hide Embeds;
    at' := at;
    match op
    case PushOp(samples, taken) =>
      if taken && samples != [] && capacity > 0 { AccountedPush(capacity, h, at, samples); }
    case LastOp(_, _) =>
    case ReadOp(count, taken) =>
      if taken {
        AccountedRead(capacity, h, at, count);
        at' := at + Places(|h.accepted| - |h.unread|, Min(count, |h.unread|));
      } else {
        assert h.unread[0..] == h.unread && h.delivered + h.unread[..0] == h.delivered;
      }
  }

  /** Over every run: what was accepted was read, overwritten or is still unread; what is
      unread is the newest of what was accepted; and the reads, joined, are an in-order
      subsequence of it, all of it up to the unread part when nothing was overwritten. */
  lemma {:induction false} RunAccounting(capacity: nat, ops: seq<Op>) returns (at: seq<nat>)
    ensures Accounted(capacity, Replay(capacity, ops), at)
  {
    if ops == [] {
      at := [];
    } else {
      var before := RunAccounting(capacity, ops[..|ops| - 1]);
      at := AccountedStep(capacity, Replay(capacity, ops[..|ops| - 1]), before, ops[|ops| - 1]);
    }
  }
}
