/** Reassembly of a session's audio (server/audio_buffer.py): chunks keyed by sequence
    number, bounded in bytes, joined in sequence order. */
module AudioBuffers {
  import opened Words

  datatype SequenceStats = SequenceStats(
    expectedNext: nat,
    received: nat,
    duplicates: nat,
    outOfOrder: nat,
    droppedEstimate: nat)

  const NO_STATS := SequenceStats(0, 0, 0, 0, 0)

  datatype Buffer = Buffer(
    maxBytes: nat,
    chunks: map<nat, Bytes>,
    totalBytes: nat,
    stats: SequenceStats)

  datatype AppendError = EmptyPayload | NegativeSequence | Overflow

  /** One chunk as it arrives: its sequence number and its payload. */
  datatype Arrival = Arrival(sequence: nat, payload: Bytes)

  function Empty(maxBytes: nat): Buffer {
    Buffer(maxBytes, map[], 0, NO_STATS)
  }

  function Reject(b: Buffer, sequence: int, payload: Bytes): Option<AppendError> {
    if payload == [] then Some(EmptyPayload)
    else if sequence < 0 then Some(NegativeSequence)
    else if sequence !in b.chunks && b.totalBytes + |payload| > b.maxBytes then Some(Overflow)
    else None
  }

  function Store(b: Buffer, sequence: nat, payload: Bytes): Buffer
    requires sequence !in b.chunks
  {
    var s := b.stats;
    b.(chunks := b.chunks[sequence := payload],
       totalBytes := b.totalBytes + |payload|,
       stats := s.(
         received := s.received + 1,
         expectedNext := Max(s.expectedNext, sequence + 1),
         outOfOrder := s.outOfOrder + if sequence < s.expectedNext then 1 else 0,
         droppedEstimate := s.droppedEstimate + Max(0, sequence - s.expectedNext)))
  }

  function Appended(b: Buffer, sequence: int, payload: Bytes): Buffer {
    if Reject(b, sequence, payload).Some? then b
    else if sequence in b.chunks then b.(stats := b.stats.(duplicates := b.stats.duplicates + 1))
    else Store(b, sequence, payload)
  }

  /** A run of appends, oldest first. */
  function AppendRun(b: Buffer, arrivals: seq<Arrival>): Buffer {
    if arrivals == [] then b
    else
      var last := arrivals[|arrivals| - 1];
      Appended(AppendRun(b, arrivals[..|arrivals| - 1]), last.sequence, last.payload)
  }

  /** The chunks below n, joined in increasing sequence order. */
  function JoinBelow(chunks: map<nat, Bytes>, n: nat): Bytes {
    if n == 0 then []
    else JoinBelow(chunks, n - 1) + if n - 1 in chunks then chunks[n - 1] else []
  }

  function LengthBelow(chunks: map<nat, Bytes>, n: nat): nat {
    if n == 0 then 0
    else LengthBelow(chunks, n - 1) + if n - 1 in chunks then |chunks[n - 1]| else 0
  }

  ghost predicate Bounds(chunks: map<nat, Bytes>, n: nat) {
    forall k :: k in chunks ==> k < n
  }

  /** What every buffer built by appends satisfies. */
  ghost predicate Inv(b: Buffer) {
    && Bounds(b.chunks, b.stats.expectedNext)
    && (b.stats.expectedNext > 0 ==> b.stats.expectedNext - 1 in b.chunks)
    && (forall k :: k in b.chunks ==> b.chunks[k] != [])
    && b.totalBytes == LengthBelow(b.chunks, b.stats.expectedNext)
    && b.totalBytes <= b.maxBytes
    && b.stats.received == |b.chunks|
    && b.stats.expectedNext + b.stats.outOfOrder == b.stats.received + b.stats.droppedEstimate
  }

  /** reconstruct() as a value: all the stored bytes in sequence order. */
  function Reconstruction(b: Buffer): Bytes {
    JoinBelow(b.chunks, b.stats.expectedNext)
  }

  lemma {:induction false} JoinLength(chunks: map<nat, Bytes>, n: nat)
    ensures |JoinBelow(chunks, n)| == LengthBelow(chunks, n)
  {
    if n > 0 { JoinLength(chunks, n - 1); }
  }

  /** Nothing above the largest key contributes. */
  lemma {:induction false} BoundIrrelevant(chunks: map<nat, Bytes>, m: nat, n: nat)
    requires Bounds(chunks, m) && m <= n
    ensures JoinBelow(chunks, n) == JoinBelow(chunks, m)
    ensures LengthBelow(chunks, n) == LengthBelow(chunks, m)
    decreases n
  {
    if m < n { BoundIrrelevant(chunks, m, n - 1); }
  }

  lemma {:induction false} StoreLength(chunks: map<nat, Bytes>, k: nat, p: Bytes, n: nat)
    requires k !in chunks
    ensures LengthBelow(chunks[k := p], n) == LengthBelow(chunks, n) + if k < n then |p| else 0
  {
    if n > 0 { StoreLength(chunks, k, p, n - 1); }
  }

  ghost predicate Submap(small: map<nat, Bytes>, large: map<nat, Bytes>) {
    forall k :: k in small ==> k in large && small[k] == large[k]
  }

  lemma {:induction false} SubmapLength(small: map<nat, Bytes>, large: map<nat, Bytes>, n: nat)
    requires Submap(small, large)
    ensures LengthBelow(small, n) <= LengthBelow(large, n)
  {
    if n > 0 { SubmapLength(small, large, n - 1); }
  }

  /** Every append, accepted or not, keeps the invariant and the limit; a refused one
      changes nothing and a duplicate changes only its own counter. */
  lemma AppendKeepsInv(b: Buffer, sequence: int, payload: Bytes)
    requires Inv(b)
    ensures var b' := Appended(b, sequence, payload);
            && Inv(b') && b'.maxBytes == b.maxBytes
            && (Reject(b, sequence, payload).Some? ==> b' == b)
            && (sequence >= 0 && sequence in b.chunks ==>
                b'.chunks == b.chunks && b'.totalBytes == b.totalBytes
                && b'.stats.(duplicates := b.stats.duplicates) == b.stats)
  {
    if Reject(b, sequence, payload).None? && sequence !in b.chunks {
      var b' := Appended(b, sequence, payload);
      var e, e' := b.stats.expectedNext, b'.stats.expectedNext;
      BoundIrrelevant(b.chunks, e, e');
      StoreLength(b.chunks, sequence, payload, e');
      assert b'.chunks.Keys == b.chunks.Keys + {sequence};
    }
  }

  lemma {:induction false} AppendRunKeepsInv(b: Buffer, arrivals: seq<Arrival>)
    requires Inv(b)
    ensures Inv(AppendRun(b, arrivals)) && AppendRun(b, arrivals).maxBytes == b.maxBytes
  {
    if arrivals != [] {
      var init, last := arrivals[..|arrivals| - 1], arrivals[|arrivals| - 1];
      AppendRunKeepsInv(b, init);
      AppendKeepsInv(AppendRun(b, init), last.sequence, last.payload);
    }
  }

  /** Sequence numbers below the expected next one that never arrived. */
  function Missing(b: Buffer): set<nat> {
    set k: nat | k < b.stats.expectedNext && k !in b.chunks
  }

  function Below(n: nat): (s: set<nat>)
    ensures |s| == n
    ensures forall k :: k in s <==> 0 <= k < n
  {
    if n == 0 then {} else Below(n - 1) + {n - 1}
  }

  /** Loss accounting over any run: the estimate less the late arrivals is exactly the
      number of missing sequence numbers, and the byte count is that of what is rebuilt. */
  lemma LossAccounting(maxBytes: nat, arrivals: seq<Arrival>)
    ensures var b := AppendRun(Empty(maxBytes), arrivals);
            && b.stats.expectedNext + b.stats.outOfOrder ==
               b.stats.received + b.stats.droppedEstimate
            && b.stats.droppedEstimate - b.stats.outOfOrder == |Missing(b)|
            && b.stats.received == |b.chunks|
            && b.totalBytes == |Reconstruction(b)| <= maxBytes
  {
    var b := AppendRun(Empty(maxBytes), arrivals);
    AppendRunKeepsInv(Empty(maxBytes), arrivals);
    JoinLength(b.chunks, b.stats.expectedNext);
    assert Below(b.stats.expectedNext) == Missing(b) + b.chunks.Keys;
    assert Missing(b) !! b.chunks.Keys;
  }

  /** Arrival i of the run was stored or counted as a duplicate. */
  ghost predicate AcceptedAt(b: Buffer, arrivals: seq<Arrival>, i: nat)
    requires i < |arrivals|
  {
    Reject(AppendRun(b, arrivals[..i]), arrivals[i].sequence, arrivals[i].payload).None?
  }

  ghost predicate AllAccepted(b: Buffer, arrivals: seq<Arrival>) {
    forall i :: 0 <= i < |arrivals| ==> AcceptedAt(b, arrivals, i)
  }

  ghost predicate IsFirst(b: Buffer, arrivals: seq<Arrival>, i: int, k: nat) {
    && 0 <= i < |arrivals| && AcceptedAt(b, arrivals, i) && arrivals[i].sequence == k
    && forall j :: 0 <= j < i && AcceptedAt(b, arrivals, j) ==> arrivals[j].sequence != k
  }

  /** chunks holds, for each sequence number with an accepted arrival, the payload of the
      first accepted one, and nothing else. */
  ghost predicate IsFirstWins(b: Buffer, arrivals: seq<Arrival>, chunks: map<nat, Bytes>) {
    && (forall i :: 0 <= i < |arrivals| && AcceptedAt(b, arrivals, i) ==> arrivals[i].sequence in chunks)
    && (forall k :: k in chunks ==>
        exists i :: IsFirst(b, arrivals, i, k) && arrivals[i].payload == chunks[k])
  }

  lemma AcceptedPrefix(b: Buffer, arrivals: seq<Arrival>, n: nat, i: nat)
    requires i < n <= |arrivals|
    ensures AcceptedAt(b, arrivals[..n], i) <==> AcceptedAt(b, arrivals, i)
  {
    assert arrivals[..n][..i] == arrivals[..i];
  }

  /** What the last arrival of a run does to the chunks. */
  lemma StepStores(b: Buffer, arrivals: seq<Arrival>)
    requires arrivals != []
    ensures var n := |arrivals| - 1;
            var before, last := AppendRun(b, arrivals[..n]).chunks, arrivals[n];
            AppendRun(b, arrivals).chunks ==
            if AcceptedAt(b, arrivals, n) && last.sequence !in before
            then before[last.sequence := last.payload] else before
  {
  }

  lemma FirstWinsStep(b: Buffer, arrivals: seq<Arrival>)
    requires arrivals != []
    requires var init := arrivals[..|arrivals| - 1]; IsFirstWins(b, init, AppendRun(b, init).chunks)
    ensures IsFirstWins(b, arrivals, AppendRun(b, arrivals).chunks)
  {
    hide AcceptedAt;
    var n := |arrivals| - 1;
    var init, last := arrivals[..n], arrivals[n];
    var before, after := AppendRun(b, init).chunks, AppendRun(b, arrivals).chunks;
    forall i | 0 <= i < n ensures AcceptedAt(b, init, i) <==> AcceptedAt(b, arrivals, i) {
      AcceptedPrefix(b, arrivals, n, i);
    }
    StepStores(b, arrivals);
    forall k | k in after
      ensures exists i :: IsFirst(b, arrivals, i, k) && arrivals[i].payload == after[k]
    {
      if k in before {
        var i :| IsFirst(b, init, i, k) && init[i].payload == before[k];
        assert IsFirst(b, arrivals, i, k);
      } else {
        forall j | 0 <= j < n && AcceptedAt(b, arrivals, j) ensures arrivals[j].sequence != k {
          assert AcceptedAt(b, init, j) && init[j].sequence == arrivals[j].sequence;
        }
        assert IsFirst(b, arrivals, n, k);
      }
    }
  }

  /** Over any run, refused arrivals included: each sequence number keeps the payload of the
      first arrival with it that was accepted. */
  lemma {:induction false} FirstWins(maxBytes: nat, arrivals: seq<Arrival>)
    ensures IsFirstWins(Empty(maxBytes), arrivals, AppendRun(Empty(maxBytes), arrivals).chunks)
  {
    if arrivals != [] {
      FirstWins(maxBytes, arrivals[..|arrivals| - 1]);
      FirstWinsStep(Empty(maxBytes), arrivals);
    }
  }

  /** The run carries the map: every arrival is one of its entries and every entry arrives,
      in whatever order and however often. */
  ghost predicate Carries(arrivals: seq<Arrival>, m: map<nat, Bytes>) {
    && (forall a :: a in arrivals ==> a.sequence in m && a.payload == m[a.sequence])
    && (forall k :: k in m ==> exists a :: a in arrivals && a.sequence == k)
  }

  lemma CarriedMapIsStored(b: Buffer, arrivals: seq<Arrival>, m: map<nat, Bytes>,
                           chunks: map<nat, Bytes>)
    requires Carries(arrivals, m) && AllAccepted(b, arrivals) && IsFirstWins(b, arrivals, chunks)
    ensures chunks == m
  {
    hide AcceptedAt;
    forall k | k in m ensures k in chunks {
      var a :| a in arrivals && a.sequence == k;
      var i :| 0 <= i < |arrivals| && arrivals[i] == a;
      assert AcceptedAt(b, arrivals, i);
    }
    forall k | k in chunks ensures k in m && chunks[k] == m[k] {
      var i :| IsFirst(b, arrivals, i, k) && arrivals[i].payload == chunks[k];
      assert arrivals[i] in arrivals;
    }
  }

  /** A buffer holding part of a map that fits has room for any further entry of it. */
  lemma FittingStep(b: Buffer, k: nat, m: map<nat, Bytes>, n: nat)
    requires Inv(b) && Submap(b.chunks, m) && Bounds(m, n) && LengthBelow(m, n) <= b.maxBytes
    requires k in m && m[k] != []
    ensures Reject(b, k, m[k]).None? && Submap(Appended(b, k, m[k]).chunks, m)
  {
    if k !in b.chunks {
      StoreLength(b.chunks, k, m[k], n);
      SubmapLength(b.chunks[k := m[k]], m, n);
      assert b.stats.expectedNext <= n;
      BoundIrrelevant(b.chunks, b.stats.expectedNext, n);
    }
  }

  lemma AcceptedExtend(b: Buffer, arrivals: seq<Arrival>)
    requires arrivals != []
    requires var l := |arrivals| - 1;
             && AllAccepted(b, arrivals[..l])
             && AcceptedAt(b, arrivals, l)
    ensures AllAccepted(b, arrivals)
  {
    hide AcceptedAt;
    var l := |arrivals| - 1;
    forall i | 0 <= i < l ensures AcceptedAt(b, arrivals, i) { AcceptedPrefix(b, arrivals, l, i); }
  }

  lemma {:induction false} FittingRunAccepted(maxBytes: nat, arrivals: seq<Arrival>,
                                              m: map<nat, Bytes>, n: nat)
    requires forall a :: a in arrivals ==> a.sequence in m && a.payload == m[a.sequence]
    requires Bounds(m, n) && LengthBelow(m, n) <= maxBytes
    requires forall k :: k in m ==> m[k] != []
    ensures AllAccepted(Empty(maxBytes), arrivals)
    ensures Submap(AppendRun(Empty(maxBytes), arrivals).chunks, m)
  {
    if arrivals != [] {
      var l := |arrivals| - 1;
      var init, last := arrivals[..l], arrivals[l];
      assert last in arrivals;
      FittingRunAccepted(maxBytes, init, m, n);
      AppendRunKeepsInv(Empty(maxBytes), init);
      FittingStep(AppendRun(Empty(maxBytes), init), last.sequence, m, n);
      AcceptedExtend(Empty(maxBytes), arrivals);
    }
  }

  /** Reassembly does not depend on order or duplication: a run carrying m is accepted
      throughout if and only if m fits the limit, and then m is what is rebuilt. */
  lemma ReassemblyIndependent(maxBytes: nat, arrivals: seq<Arrival>, m: map<nat, Bytes>, n: nat)
    requires Carries(arrivals, m) && Bounds(m, n)
    requires forall k :: k in m ==> m[k] != []
    ensures AllAccepted(Empty(maxBytes), arrivals) <==> LengthBelow(m, n) <= maxBytes
    ensures LengthBelow(m, n) <= maxBytes ==>
              && AppendRun(Empty(maxBytes), arrivals).chunks == m
              && Reconstruction(AppendRun(Empty(maxBytes), arrivals)) == JoinBelow(m, n)
  {
    hide AllAccepted, AppendRun, IsFirstWins;
    var b := AppendRun(Empty(maxBytes), arrivals);
    AppendRunKeepsInv(Empty(maxBytes), arrivals);
    if LengthBelow(m, n) <= maxBytes {
      FittingRunAccepted(maxBytes, arrivals, m, n);
    }
    if AllAccepted(Empty(maxBytes), arrivals) {
      FirstWins(maxBytes, arrivals);
      CarriedMapIsStored(Empty(maxBytes), arrivals, m, b.chunks);
      assert b.stats.expectedNext <= n;
      BoundIrrelevant(m, b.stats.expectedNext, n);
    }
  }

  lemma {:induction false} GapContributesNothing(chunks: map<nat, Bytes>, m: nat, n: nat)
    requires m <= n
    requires forall k :: m <= k < n ==> k !in chunks
    ensures JoinBelow(chunks, n) == JoinBelow(chunks, m)
    decreases n
  {
    if m < n { GapContributesNothing(chunks, m, n - 1); }
  }

  /** An increasing listing of a set of sequence numbers. */
  ghost predicate IsSorted(keys: seq<nat>) {
    forall i, j :: 0 <= i < j < |keys| ==> keys[i] < keys[j]
  }

  /** The buffer object. */
  class AudioBuffer {
    const maxBytes: nat
    var chunks: map<nat, Bytes>
    var stats: SequenceStats
    var totalBytes: nat

    constructor (maxBytes: nat)
      ensures Value() == Empty(maxBytes)
    {
      this.maxBytes := maxBytes;
      chunks := map[];
      stats := NO_STATS;
      totalBytes := 0;
    }

    ghost function Value(): Buffer
      reads this
    {
      Buffer(maxBytes, chunks, totalBytes, stats)
    }

    method Append(sequenceNumber: int, payload: Bytes) returns (error: Option<AppendError>)
      modifies this
      ensures error == Reject(old(Value()), sequenceNumber, payload)
      ensures Value() == Appended(old(Value()), sequenceNumber, payload)
      ensures error == if payload == [] then Some(EmptyPayload)
                       else if sequenceNumber < 0 then Some(NegativeSequence)
                       else if sequenceNumber !in old(chunks) && old(totalBytes) + |payload| > maxBytes
                       then Some(Overflow)
                       else None
      ensures error.Some? ==>
                chunks == old(chunks) && totalBytes == old(totalBytes) && stats == old(stats)
      ensures error.None? && sequenceNumber in old(chunks) ==>
                && chunks == old(chunks) && totalBytes == old(totalBytes)
                && stats == old(stats).(duplicates := old(stats).duplicates + 1)
      ensures error.None? && sequenceNumber !in old(chunks) ==>
                && chunks == old(chunks)[sequenceNumber := payload]
                && totalBytes == old(totalBytes) + |payload|
                && stats.received == old(stats).received + 1
                && stats.duplicates == old(stats).duplicates
                && stats.expectedNext ==
                   (if sequenceNumber < old(stats).expectedNext then old(stats).expectedNext
                    else sequenceNumber + 1)
                && stats.outOfOrder == old(stats).outOfOrder
                   + (if sequenceNumber < old(stats).expectedNext then 1 else 0)
                && stats.droppedEstimate == old(stats).droppedEstimate
                   + (if sequenceNumber > old(stats).expectedNext
                      then sequenceNumber - old(stats).expectedNext else 0)
    {
      if payload == [] {
        return Some(EmptyPayload);
      }
      if sequenceNumber < 0 {
        return Some(NegativeSequence);
      }
      if sequenceNumber in chunks {
        stats := stats.(duplicates := stats.duplicates + 1);
        return None;
      }
      if totalBytes + |payload| > maxBytes {
        return Some(Overflow);
      }
      if sequenceNumber < stats.expectedNext {
        stats := stats.(outOfOrder := stats.outOfOrder + 1);
      } else if sequenceNumber > stats.expectedNext {
        stats := stats.(droppedEstimate :=
          stats.droppedEstimate + (sequenceNumber - stats.expectedNext));
      }
      chunks := chunks[sequenceNumber := payload];
      totalBytes := totalBytes + |payload|;
      stats := stats.(received := stats.received + 1);
      stats := stats.(expectedNext := Max(stats.expectedNext, sequenceNumber + 1));
      return None;
    }

    /** sorted(self._chunks), by repeated extraction of the smallest key. */
    method SortedKeys() returns (keys: seq<nat>)
      ensures IsSorted(keys)
      ensures forall k :: k in keys <==> k in chunks
    {
      keys := [];
      var rest := chunks.Keys;
      while rest != {}
        invariant IsSorted(keys)
        invariant forall k :: k in chunks <==> k in keys || k in rest
        invariant forall i, k :: 0 <= i < |keys| && k in rest ==> keys[i] < k
        decreases rest
      {
        var least: nat :| least in rest;
        var others := rest - {least};
        while others != {}
          invariant least in rest && others <= rest
          invariant forall k :: k in rest && k !in others ==> least <= k
          decreases others
        {
          var k :| k in others;
          if k < least { least := k; }
          others := others - {k};
        }
        keys, rest := keys + [least], rest - {least};
      }
    }

    method Reconstruct() returns (audio: Bytes)
      requires Inv(Value())
      ensures audio == Reconstruction(Value())
    {
      var keys := SortedKeys();
      audio := [];
      ghost var n: nat := 0;
      for i := 0 to |keys|
        invariant n == if i == 0 then 0 else keys[i - 1] + 1
        invariant audio == JoinBelow(chunks, n)
      {
        GapContributesNothing(chunks, n, keys[i]);
        audio := audio + chunks[keys[i]];
        n := keys[i] + 1;
      }
      assert Bounds(chunks, n);
      BoundIrrelevant(chunks, n, stats.expectedNext);
    }

    method Clear()
      modifies this
      ensures Value() == Empty(maxBytes)
      ensures chunks == map[] && totalBytes == 0 && stats == SequenceStats(0, 0, 0, 0, 0)
    {
      chunks := map[];
      totalBytes := 0;
      stats := NO_STATS;
    }
  }

  /** Construction with the source's own check: a limit that is not positive is refused. */
  method NewAudioBuffer(maxBytes: int) returns (buffer: Option<AudioBuffer>)
    ensures buffer.Some? <==> maxBytes > 0
    ensures buffer.Some? ==> fresh(buffer.value) && buffer.value.Value() == Empty(maxBytes)
  {
    if maxBytes <= 0 {
      return None;
    }
    var b := new AudioBuffer(maxBytes);
    return Some(b);
  }
}
