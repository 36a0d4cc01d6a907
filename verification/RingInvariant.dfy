/** The invariant of the byte ring and what each ring operation does to it. */
module RingInvariant {
  import opened Words
  import opened RingLog
  import opened InprocPipe

  /** The absolute position of record boundary `i`. */
  function At(r: Ring, i: nat): nat
    requires r.cap > 0 && i <= |r.log|
  {
    Boundary(r.cap, r.log, i)
  }

  function End(r: Ring): nat
    requires r.cap > 0
  {
    At(r, |r.log|)
  }

  /** Every cursor is the wrapped position of a record boundary, in order around the ring,
      and the log never runs further ahead of the producer's view of the consumer than the
      capacity less one header. */
  predicate Shape(r: Ring)
    ensures Shape(r) ==> Usable(r)
    ensures Shape(r) ==> r.cachedHeadIdx <= r.released <= r.passed <= r.cachedTailIdx <= r.published <= |r.log|
  {
    && Usable(r) && IsCapacity(r.cap)
    && Chained(r.cap, r.log)
    && r.cachedHeadIdx <= r.released <= r.passed <= r.cachedTailIdx <= r.published <= |r.log|
    && r.pTail == End(r) % TWO_64
    && r.tail == At(r, r.published) % TWO_64
    && r.head == At(r, r.released) % TWO_64
    && r.cHead == At(r, r.passed) % TWO_64
    && r.cCachedTail == At(r, r.cachedTailIdx) % TWO_64
    && r.pCachedHead == At(r, r.cachedHeadIdx) % TWO_64
    && (r.cachedHeadIdx < |r.log| ==> End(r) + HEADER_SIZE <= At(r, r.cachedHeadIdx) + r.cap)
  }

  predicate EntryAfter(log: seq<Record>, i: nat)
    requires i < |log| - 1
  {
    log[i].Wrap? ==> log[i + 1].Entry?
  }

  /** The record before boundary `i`, if any, is an entry. */
  predicate EndsInEntry(log: seq<Record>, i: nat) {
    0 < i <= |log| ==> log[i - 1].Entry?
  }

  /** A wrap record is followed by an entry and is never the last one published. */
  predicate Sentinels(log: seq<Record>, published: nat, cachedTailIdx: nat) {
    && (forall i {:trigger EntryAfter(log, i)} :: 0 <= i < |log| - 1 ==> EntryAfter(log, i))
    && EndsInEntry(log, published)
    && EndsInEntry(log, cachedTailIdx)
  }

  /** Every record the consumer has not released is in the buffer, byte for byte. */
  predicate Stored(cap: nat, buf: Bytes, log: seq<Record>, released: nat)
    requires cap > 0 && |buf| == cap && Chained(cap, log)
  {
    forall i :: released <= i < |log| ==> Intact(cap, buf, log[i])
  }

  predicate Histories(log: seq<Record>, published: nat, passed: nat,
                      taken: seq<Bytes>, pushed: seq<Bytes>, flushed: nat)
    requires passed <= published <= |log|
  {
    && pushed == Payloads(log)
    && flushed <= |pushed|
    && pushed[..flushed] == Payloads(log[..published])
    && taken == Payloads(log[..passed])
  }

  predicate Sound(r: Ring)
    ensures Sound(r) ==> Shape(r)
  {
    && Shape(r)
    && Sentinels(r.log, r.published, r.cachedTailIdx)
    && Stored(r.cap, r.buf, r.log, r.released)
    && Histories(r.log, r.published, r.passed, r.taken, r.pushed, r.flushed)
  }

  // ---- Cursor arithmetic under the invariant ----

  lemma Spread(r: Ring, i: nat, j: nat)
    requires Shape(r) && r.cachedHeadIdx <= i <= j <= |r.log|
    ensures 0 <= At(r, j) - At(r, i) < r.cap
    ensures i < j ==> At(r, i) + 4 <= At(r, j)
  {
    BoundaryMonotone(r.cap, r.log, r.cachedHeadIdx, i);
    BoundaryMonotone(r.cap, r.log, i, j);
    BoundaryMonotone(r.cap, r.log, j, |r.log|);
  }

  /** Comparing wrapped cursors compares record indices. */
  lemma CursorEquality(r: Ring, i: nat, j: nat)
    requires Shape(r) && r.cachedHeadIdx <= i <= j <= |r.log|
    ensures At(r, i) % TWO_64 == At(r, j) % TWO_64 <==> i == j
  {
    Spread(r, i, j);
    WrappedEquality(At(r, i), At(r, j));
  }

  /** A wrapped cursor has the offset of the boundary it stands for, and leaves room for
      a header. */
  lemma BoundaryOffset(r: Ring, i: nat)
    requires Shape(r) && i <= |r.log|
    ensures Offset(At(r, i) % TWO_64, r.cap) == Offset(At(r, i), r.cap)
    ensures At(r, i) % 4 == 0
    ensures r.cap >= 4 ==> Offset(At(r, i), r.cap) + 4 <= r.cap
  {
    hide PowerOfTwo, Offset, Boundary, Chained;
    CursorOffset(At(r, i), r.cap);
    BoundaryAligned(r.cap, r.log, i);
    if r.cap >= 4 {
      CapacityAligned(r.cap);
      AlignedOffset(At(r, i), r.cap);
    }
  }

  /** The wrapped space computation gives the true free space. */
  lemma FreeIsTrue(r: Ring, i: nat)
    requires Shape(r) && r.cachedHeadIdx <= i <= |r.log|
    ensures FreeSpace(r.cap, r.pTail, At(r, i) % TWO_64) == r.cap - (End(r) - At(r, i))
  {
    Spread(r, i, |r.log|);
    WrappedDifference(End(r), At(r, i));
  }

  // ---- Producer operations ----

  lemma ReloadHeadKeeps(r: Ring)
    requires Sound(r)
    ensures Sound(ReloadHead(r))
  {
    hide PowerOfTwo, Offset, Sentinels, Stored, Histories, Boundary;
    BoundaryMonotone(r.cap, r.log, r.cachedHeadIdx, r.released);
  }

  /** A store inside the reserved space leaves every unreleased record alone. */
  lemma StoreByteKeeps(r: Ring, i: nat, b: byte)
    requires Sound(r)
    requires Offset(r.pTail, r.cap) + i < r.cap
    requires End(r) + i < At(r, r.cachedHeadIdx) + r.cap
    ensures Sound(StoreByte(r, i, b))
  {
    hide PowerOfTwo, Offset, Sentinels, Histories, AlignedEntrySize, Intact, Boundary, WellPlaced;
    BoundaryOffset(r, |r.log|);
    OffsetAdd(End(r), i, r.cap);
    var r' := StoreByte(r, i, b);
    forall j | r.released <= j < |r.log|
      ensures Intact(r.cap, r'.buf, r.log[j])
    {
      StoreMissesRecord(r, i, b, j);
    }
  }

  lemma StoreMissesRecord(r: Ring, i: nat, b: byte, j: nat)
    requires Sound(r) && r.released <= j < |r.log|
    requires Offset(r.pTail, r.cap) + i < r.cap
    requires Offset(r.pTail, r.cap) + i == Offset(End(r) + i, r.cap)
    requires End(r) + i < At(r, r.cachedHeadIdx) + r.cap
    ensures Intact(r.cap, StoreByte(r, i, b).buf, r.log[j])
  {
    hide PowerOfTwo, Offset, Sentinels, Histories, AlignedEntrySize, Intact, Boundary;
    BoundaryMonotone(r.cap, r.log, r.cachedHeadIdx, j);
    BoundaryMonotone(r.cap, r.log, j + 1, |r.log|);
    BoundaryStep(r.cap, r.log, j);
    assert r.log[j].pos == At(r, j);
    StoreMisses(r.cap, r.buf, r.log[j], End(r) + i, b);
  }

  /** The ring after record `x` is appended at the producer's position. */
  function Append(r: Ring, x: Record): Ring
    requires r.cap > 0
  {
    r.(pTail := WrappingAdd(r.pTail, SizeOf(r.cap, x)), log := r.log + [x])
  }

  /** Appending a record that fits keeps the geometry and moves no older boundary. */
  lemma AppendKeepsShape(r: Ring, x: Record)
    requires Shape(r) && WellPlaced(r.cap, x) && x.pos == End(r)
    requires End(r) + SizeOf(r.cap, x) + HEADER_SIZE <= At(r, r.cachedHeadIdx) + r.cap
    ensures Shape(Append(r, x))
    ensures End(Append(r, x)) == End(r) + SizeOf(r.cap, x)
    ensures At(Append(r, x), r.cachedHeadIdx) == At(r, r.cachedHeadIdx)
  {
    hide PowerOfTwo, Offset, SizeOf, WellPlaced;
    ChainedAppend(r.cap, r.log, x);
    WrappedSum(End(r), SizeOf(r.cap, x));
    BoundaryAppend(r.cap, r.log, x, r.published);
    BoundaryAppend(r.cap, r.log, x, r.released);
    BoundaryAppend(r.cap, r.log, x, r.passed);
    BoundaryAppend(r.cap, r.log, x, r.cachedTailIdx);
    BoundaryAppend(r.cap, r.log, x, r.cachedHeadIdx);
  }

  lemma AppendKeepsStored(cap: nat, buf: Bytes, log: seq<Record>, released: nat, x: Record)
    requires cap > 0 && |buf| == cap && Chained(cap, log) && Chained(cap, log + [x])
    requires Stored(cap, buf, log, released) && WellPlaced(cap, x) && Intact(cap, buf, x)
    ensures Stored(cap, buf, log + [x], released)
  {
    hide Intact, WellPlaced;
    var log' := log + [x];
    forall i | released <= i < |log'| ensures Intact(cap, buf, log'[i]) {
      if i < |log| {
        assert log'[i] == log[i];
      } else {
        assert log'[i] == x;
      }
    }
  }

  lemma AppendKeepsSentinels(log: seq<Record>, published: nat, cachedTailIdx: nat, x: Record)
    requires Sentinels(log, published, cachedTailIdx) && cachedTailIdx <= published <= |log|
    requires x.Wrap? ==> EndsInEntry(log, |log|)
    ensures Sentinels(log + [x], published, cachedTailIdx)
  {
    var log' := log + [x];
    forall i {:trigger EntryAfter(log', i)} | 0 <= i < |log'| - 1 ensures EntryAfter(log', i) {
      if i < |log| - 1 {
        assert EntryAfter(log, i);
      }
    }
  }

  lemma AppendKeepsHistories(log: seq<Record>, published: nat, passed: nat,
                             taken: seq<Bytes>, pushed: seq<Bytes>, flushed: nat, x: Record)
    requires passed <= published <= |log|
    requires Histories(log, published, passed, taken, pushed, flushed)
    ensures Histories(log + [x], published, passed, taken,
                      if x.Entry? then pushed + [x.payload] else pushed, flushed)
  {
    PayloadsSnoc(log, x);
    assert (log + [x])[..published] == log[..published];
    assert (log + [x])[..passed] == log[..passed];
    if x.Entry? {
      assert (pushed + [x.payload])[..flushed] == pushed[..flushed];
    }
  }

  /** A finished sentinel: the rest of the buffer becomes a wrap record. */
  lemma FinishWrapKeeps(r: Ring)
    requires Sound(r) && EndsInEntry(r.log, |r.log|)
    requires Offset(r.pTail, r.cap) + HEADER_SIZE <= r.cap
    requires End(r) + Contiguous(r) + HEADER_SIZE <= At(r, r.cachedHeadIdx) + r.cap
    requires r.buf[Offset(r.pTail, r.cap)..Offset(r.pTail, r.cap) + HEADER_SIZE] == Sentinel()
    ensures Sound(FinishWrap(r))
    ensures End(FinishWrap(r)) == End(r) + Contiguous(r)
    ensures At(FinishWrap(r), r.cachedHeadIdx) == At(r, r.cachedHeadIdx)
    ensures Offset(FinishWrap(r).pTail, r.cap) == 0
  {
    hide PowerOfTwo, Offset, Stored, Histories, Sentinels, EndsInEntry, Chained;
    var x := Wrap(End(r));
    BoundaryOffset(r, |r.log|);
    AppendKeepsShape(r, x);
    assert FinishWrap(r) == Append(r, x);
    AppendKeepsStored(r.cap, r.buf, r.log, r.released, x);
    AppendKeepsSentinels(r.log, r.published, r.cachedTailIdx, x);
    AppendKeepsHistories(r.log, r.published, r.passed, r.taken, r.pushed, r.flushed, x);
    BoundaryOffset(FinishWrap(r), |r.log| + 1);
    OffsetWrap(End(r), r.cap);
  }

  /** A finished entry becomes an entry record. */
  lemma FinishEntryKeeps(r: Ring, data: Bytes)
    requires Sound(r) && |data| < WRAP_SENTINEL
    requires AlignedEntrySize(|data|) <= Contiguous(r)
    requires End(r) + AlignedEntrySize(|data|) + HEADER_SIZE <= At(r, r.cachedHeadIdx) + r.cap
    requires Offset(r.pTail, r.cap) + |EntryImage(data)| <= r.cap
    requires r.buf[Offset(r.pTail, r.cap)..Offset(r.pTail, r.cap) + |EntryImage(data)|] == EntryImage(data)
    ensures Sound(FinishEntry(r, data))
    ensures EndsInEntry(FinishEntry(r, data).log, |FinishEntry(r, data).log|)
    ensures At(FinishEntry(r, data), r.cachedHeadIdx) == At(r, r.cachedHeadIdx)
  {
    hide PowerOfTwo, Offset, Stored, Histories, Sentinels, Chained, AlignedEntrySize, Le32, Boundary;
    var x := Entry(End(r), data);
    BoundaryOffset(r, |r.log|);
    AppendKeepsShape(r, x);
    assert FinishEntry(r, data) == Append(r, x).(pushed := r.pushed + [data]);
    assert Image(x) == EntryImage(data);
    AppendKeepsStored(r.cap, r.buf, r.log, r.released, x);
    AppendKeepsSentinels(r.log, r.published, r.cachedTailIdx, x);
    AppendKeepsHistories(r.log, r.published, r.passed, r.taken, r.pushed, r.flushed, x);
  }

  lemma PublishKeeps(r: Ring)
    requires Sound(r) && EndsInEntry(r.log, |r.log|)
    ensures Sound(Publish(r))
  {
    hide PowerOfTwo, Offset, Stored, Chained, Payloads;
    assert r.log[..|r.log|] == r.log;
    assert r.pushed[..|r.pushed|] == r.pushed;
  }

  // ---- Consumer operations ----

  lemma ReloadTailKeeps(r: Ring)
    requires Sound(r)
    ensures Sound(ReloadTail(r))
    ensures r.cHead == r.tail <==> r.passed == r.published
  {
    hide PowerOfTwo, Offset, Stored, Chained, Payloads, Boundary;
    CursorEquality(r, r.passed, r.published);
  }

  lemma HeaderDecodes(x: Record)
    requires x.Entry? ==> |x.payload| < WRAP_SENTINEL
    ensures FromLe32(Image(x)[..4]) == if x.Entry? then |x.payload| else WRAP_SENTINEL
  {
    if x.Entry? {
      assert Image(x)[..4] == Le32(|x.payload|);
      Le32RoundTrip(|x.payload|);
    } else {
      assert Image(x)[..4] == Sentinel();
    }
  }

  /** What a read at the consumer's position returns. */
  lemma ReadsImage(r: Ring, k: nat)
    requires Sound(r) && r.passed < |r.log| && k < |Image(r.log[r.passed])|
    ensures Offset(r.cHead, r.cap) == Offset(r.log[r.passed].pos, r.cap)
    ensures Offset(r.cHead, r.cap) + SizeOf(r.cap, r.log[r.passed]) <= r.cap
    ensures Offset(r.cHead, r.cap) + k < r.cap
    ensures r.buf[Offset(r.cHead, r.cap) + k] == Image(r.log[r.passed])[k]
  {
    hide Le32, PowerOfTwo, Offset, AlignedEntrySize, Histories, Sentinels, Intact, Image;
    var x := r.log[r.passed];
    BoundaryOffset(r, r.passed);
    assert x.pos == At(r, r.passed);
    IntactByte(r.cap, r.buf, x, k);
  }

  /** Moving past a wrap record lands on the entry after it, inside the known region. */
  lemma PassWrapKeeps(r: Ring)
    requires Sound(r) && r.passed < r.cachedTailIdx && r.log[r.passed].Wrap?
    ensures Sound(PassWrap(r))
    ensures r.passed + 1 < r.cachedTailIdx
    ensures r.log[r.passed + 1].Entry?
    ensures PassWrap(r).cHead != r.cCachedTail
  {
    hide PowerOfTwo, Offset, Stored, Payloads, AlignedEntrySize, Boundary;
    BoundaryOffset(r, r.passed);
    assert r.log[r.passed].pos == At(r, r.passed);
    BoundaryStep(r.cap, r.log, r.passed);
    WrappedSum(At(r, r.passed), r.cap - Offset(r.cHead, r.cap));
    assert EntryAfter(r.log, r.passed);
    CursorEquality(r, r.passed + 1, r.cachedTailIdx);
    assert r.log[..r.passed + 1] == r.log[..r.passed] + [r.log[r.passed]];
    PayloadsSnoc(r.log[..r.passed], r.log[r.passed]);
  }

  lemma ReleaseKeeps(r: Ring)
    requires Sound(r) && r.passed < r.cachedTailIdx && r.log[r.passed].Entry?
    ensures Sound(Release(r, r.log[r.passed].payload))
  {
    hide PowerOfTwo, Offset, Intact, Payloads, AlignedEntrySize, Chained, Boundary;
    var x := r.log[r.passed];
    BoundaryStep(r.cap, r.log, r.passed);
    WrappedSum(At(r, r.passed), AlignedEntrySize(|x.payload|));
    assert r.log[..r.passed + 1] == r.log[..r.passed] + [x];
    PayloadsSnoc(r.log[..r.passed], x);
  }
}
