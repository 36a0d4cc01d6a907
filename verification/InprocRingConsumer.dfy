/** The reading half of the byte ring as the object it is in the source. `TryPeek` is proved
    against a function of the old cursors and the buffer, and that function is proved to
    find the oldest unread payload of every sound ring. */
module InprocRingConsumer {
  import opened Words
  import opened RingLog
  import opened InprocPipe
  import opened RingInvariant
  import opened InprocPipeInvariant
  import opened InprocPipeTheorems
  import opened InprocRing

  /** What `try_peek` returns: nothing, a slice of the buffer, or the panic of a checked
      index one past the end of the buffer. */
  datatype Peek = Nothing | Slice(offset: nat, len: nat) | IndexPanic

  datatype ConsumerMemory = ConsumerMemory(head: nat, cachedTail: nat)

  function SliceAfterHeader(cap: nat, offset: nat, len: nat): Peek {
    if offset + HEADER_SIZE >= cap then IndexPanic else Slice(offset + HEADER_SIZE, len)
  }

  /** A cursor from which a header can be read. */
  predicate Readable(cap: nat, head: nat) {
    IsCapacity(cap) && cap >= HEADER_SIZE && head < TWO_64 && head % 4 == 0
  }

  function HeaderAt(buf: Bytes, offset: nat): nat
    requires offset + HEADER_SIZE <= |buf|
  {
    FromLe32(buf[offset..offset + HEADER_SIZE])
  }

  /** `try_peek` when something is known to be unread. */
  function PeekRecord(buf: Bytes, m: ConsumerMemory, tailAfterWrap: nat): (Peek, ConsumerMemory)
    requires Readable(|buf|, m.head)
  {
    RoomForHeader(m.head, |buf|);
    WrapsToStart(m.head, |buf|);
    var cap, offset := |buf|, Offset(m.head, |buf|);
    var len := HeaderAt(buf, offset);
    if len == WRAP_SENTINEL then
      var head' := WrappingAdd(m.head, ToWrap(cap, m.head));
      var tail' := if head' == m.cachedTail then tailAfterWrap else m.cachedTail;
      var m' := ConsumerMemory(head', tail');
      if head' == tail' then (Nothing, m')
      else (SliceAfterHeader(cap, Offset(head', cap), HeaderAt(buf, Offset(head', cap))), m')
    else (SliceAfterHeader(cap, offset, len), m)
  }

  /** One `try_peek`: `tailFirst` and `tailAfterWrap` are the tails loaded if the consumer's
      own view of the ring is exhausted at the start and after a wrap. */
  function TryPeekResult(buf: Bytes, m: ConsumerMemory, tailFirst: nat, tailAfterWrap: nat): (Peek, ConsumerMemory)
    requires m.head != m.cachedTail || m.head != tailFirst ==> Readable(|buf|, m.head)
  {
    if m.head == m.cachedTail then
      var m' := m.(cachedTail := tailFirst);
      if m'.head == m'.cachedTail then (Nothing, m') else PeekRecord(buf, m', tailAfterWrap)
    else PeekRecord(buf, m, tailAfterWrap)
  }

  class RingConsumer {
    const buf: array<byte>
    var head: nat
    var cachedTail: nat

    constructor (shared: array<byte>)
      ensures buf == shared && head == 0 && cachedTail == 0
    {
      buf, head, cachedTail := shared, 0, 0;
    }

    ghost function Memory(): ConsumerMemory
      reads this
    {
      ConsumerMemory(head, cachedTail)
    }

    method ReadHeader(offset: nat) returns (len: nat)
      requires offset + HEADER_SIZE <= buf.Length
      ensures len == HeaderAt(buf[..], offset)
    {
      var bytes: Bytes := [];
      for i := 0 to HEADER_SIZE
        invariant bytes == buf[..][offset..offset + i]
      {
        bytes := bytes + [buf[offset + i]];
      }
      len := FromLe32(bytes);
    }

    method TryPeek(tailFirst: nat, tailAfterWrap: nat) returns (p: Peek)
      requires head != cachedTail || head != tailFirst ==> Readable(buf.Length, head)
      modifies this
      ensures (p, Memory()) == TryPeekResult(buf[..], old(Memory()), tailFirst, tailAfterWrap)
    {
      hide Offset, PowerOfTwo, FromLe32, WrappingAdd;
      if head == cachedTail {
        cachedTail := tailFirst;
        if head == cachedTail {
          return Nothing;
        }
      }
      RoomForHeader(head, buf.Length);
      WrapsToStart(head, buf.Length);
      var cap, offset := buf.Length, Offset(head, buf.Length);
      var len := ReadHeader(offset);
      if len == WRAP_SENTINEL {
        head := WrappingAdd(head, cap - offset);
        var newOffset := Offset(head, cap);
        if head == cachedTail {
          cachedTail := tailAfterWrap;
          if head == cachedTail {
            return Nothing;
          }
        }
        var actualLen := ReadHeader(newOffset);
        return SliceAfterHeader(cap, newOffset, actualLen);
      }
      return SliceAfterHeader(cap, offset, len);
    }

    /** Returns the head to publish. */
    method AdvanceAndRelease(len: nat) returns (released: nat)
      modifies `head
      ensures head == released == WrappingAdd(old(head), AlignedEntrySize(len))
    {
      head := WrappingAdd(head, AlignedEntrySize(len));
      released := head;
    }
  }

  // ---- What a peek finds ----

  function ViewOf(r: Ring): ConsumerMemory {
    ConsumerMemory(r.cHead, r.cCachedTail)
  }

  lemma FacingReadable(r: Ring)
    requires Sound(r) && r.passed < |r.log|
    ensures Readable(r.cap, r.cHead)
  {
    hide Offset, PowerOfTwo, Boundary, Chained, Stored, Histories, Sentinels, Image, AlignedEntrySize;
    CursorAligned(r, r.passed);
    ReadsImage(r, HEADER_SIZE - 1);
  }

  lemma HeaderFound(r: Ring)
    requires Sound(r) && r.passed < |r.log|
    ensures Offset(r.cHead, r.cap) + HEADER_SIZE <= r.cap
    ensures var x := r.log[r.passed];
            HeaderAt(r.buf, Offset(r.cHead, r.cap)) == if x.Entry? then |x.payload| else WRAP_SENTINEL
  {
    hide Offset, Shape, Stored, Histories, Sentinels, Image, FromLe32;
    PlacedAt(r);
    var x, off := r.log[r.passed], Offset(r.cHead, r.cap);
    ReadsImage(r, 3);
    forall k | 0 <= k < 4 ensures r.buf[off + k] == Image(x)[k] {
      ReadsImage(r, k);
    }
    assert r.buf[off..off + 4] == Image(x)[..4];
    HeaderDecodes(x);
  }

  lemma PlacedAt(r: Ring)
    requires Shape(r) && r.passed < |r.log|
    ensures WellPlaced(r.cap, r.log[r.passed])
  {
  }

  /** The payload of the entry at the consumer's cursor is in the buffer after its header. */
  lemma PayloadFound(r: Ring)
    requires Sound(r) && r.passed < |r.log| && r.log[r.passed].Entry?
    ensures var off, n := Offset(r.cHead, r.cap) + HEADER_SIZE, |r.log[r.passed].payload|;
            off + n <= r.cap && r.buf[off..off + n] == r.log[r.passed].payload
  {
    hide Offset, Shape, Stored, Histories, Sentinels, AlignedEntrySize, Le32;
    PlacedAt(r);
    var x, off := r.log[r.passed], Offset(r.cHead, r.cap) + HEADER_SIZE;
    var n := |x.payload|;
    EntrySizeCovers(n);
    ReadsImage(r, 0);
    forall k | 0 <= k < n ensures r.buf[off + k] == x.payload[k] {
      ReadsImage(r, HEADER_SIZE + k);
    }
    assert r.buf[off..off + n] == x.payload;
  }

  /** What `try_peek` must answer, given the oldest unread payload `x`. */
  predicate Shows(buf: Bytes, p: Peek, x: Bytes) {
    match p
    case Nothing => false
    case Slice(off, len) => off + len <= |buf| && buf[off..off + len] == x
    case IndexPanic => x == []
  }

  lemma EntryShown(r: Ring)
    requires Sound(r) && Facing(r) && r.log[r.passed].Entry?
    ensures Readable(r.cap, r.cHead)
    ensures var (p, m) := PeekRecord(r.buf, ViewOf(r), r.tail);
            && Shows(r.buf, p, r.log[r.passed].payload)
            && m == ViewOf(r)
            && (p.IndexPanic? <==> FacesEmptyAtEnd(r))
            && (p.Slice? ==> p.offset == Offset(r.cHead, r.cap) + HEADER_SIZE)
  {
    hide Offset, Shape, Stored, Histories, Sentinels, AlignedEntrySize, HeaderAt, PowerOfTwo;
    PlacedAt(r);
    FacingReadable(r);
    HeaderFound(r);
    PayloadFound(r);
    ReadsImage(r, 0);
  }

  lemma WrapThenEntryShown(r: Ring)
    requires Sound(r) && Facing(r) && r.log[r.passed].Wrap?
    ensures Sound(PassWrap(r)) && Facing(PassWrap(r)) && PassWrap(r).log[r.passed + 1].Entry?
    ensures Readable(r.cap, r.cHead) && Readable(r.cap, PassWrap(r).cHead)
    ensures PeekRecord(r.buf, ViewOf(r), r.tail) == PeekRecord(r.buf, ViewOf(PassWrap(r)), r.tail)
  {
    hide Offset, Shape, Stored, Histories, Sentinels, AlignedEntrySize, HeaderAt, PowerOfTwo, WrappingAdd;
    FacingReadable(r);
    HeaderFound(r);
    PassWrapKeeps(r);
    var r' := PassWrap(r);
    FacingReadable(r');
    PlacedAt(r');
    HeaderFound(r');
  }

  /** The ring after the loads and the wrap of a `try_peek` that finds something. */
  function Settled(r: Ring): Ring
    requires r.cap > 0
  {
    var r1 := if r.cHead == r.cCachedTail then ReloadTail(r) else r;
    if r1.passed < r1.cachedTailIdx && r1.passed < |r1.log| && r1.log[r1.passed].Wrap? then PassWrap(r1) else r1
  }

  lemma ReloadSettles(r: Ring)
    requires Sound(r)
    ensures r.cHead == r.cCachedTail <==> r.passed == r.cachedTailIdx
    ensures r.cHead == r.cCachedTail ==> (r.cHead == r.tail <==> r.passed == r.published)
    ensures Sound(ReloadTail(r))
  {
    hide Offset, Stored, Histories, Sentinels, AlignedEntrySize, PowerOfTwo, Chained, Boundary;
    CursorEquality(r, r.passed, r.cachedTailIdx);
    CursorEquality(r, r.passed, r.published);
    ReloadTailKeeps(r);
  }

  /** On every sound ring, `try_peek` returns nothing exactly when everything published has
      been passed. Otherwise it hands out the payload that follows those already taken,
      except that it panics exactly when that payload is empty and ends the buffer. */
  lemma PeekFindsNext(r: Ring)
    requires Sound(r)
    ensures r.cHead != r.cCachedTail || r.cHead != r.tail ==> Readable(r.cap, r.cHead)
    ensures Sound(Settled(r))
    ensures var (p, m) := TryPeekResult(r.buf, ViewOf(r), r.tail, r.tail);
            && m == ViewOf(Settled(r))
            && (p.Nothing? <==> r.passed == r.published)
            && (!p.Nothing? ==> |r.taken| < |r.pushed| && Shows(r.buf, p, r.pushed[|r.taken|]))
            && (p.IndexPanic? <==> r.passed != r.published && FacesEmptyAtEnd(Settled(r)))
  {
    hide Offset, Shape, Stored, Histories, Sentinels, AlignedEntrySize, HeaderAt, PowerOfTwo, WrappingAdd,
         PeekRecord, PassWrap, FacesEmptyAtEnd;
    ReloadSettles(r);
    var r1 := if r.cHead == r.cCachedTail then ReloadTail(r) else r;
    if r.passed != r.published {
      FacingReadable(r1);
      FindsRecord(r1);
    }
  }

  lemma FindsRecord(r: Ring)
    requires Sound(r) && Facing(r)
    ensures Readable(r.cap, r.cHead)
    ensures var r' := if r.log[r.passed].Wrap? then PassWrap(r) else r;
            var (p, m) := PeekRecord(r.buf, ViewOf(r), r.tail);
            && Sound(r') && m == ViewOf(r')
            && !p.Nothing? && |r.taken| < |r.pushed| && Shows(r.buf, p, r.pushed[|r.taken|])
            && (p.IndexPanic? <==> FacesEmptyAtEnd(r'))
  {
    hide Offset, Shape, Stored, Histories, Sentinels, AlignedEntrySize, HeaderAt, PowerOfTwo, WrappingAdd,
         PeekRecord, FacesEmptyAtEnd;
    if r.log[r.passed].Wrap? {
      WrapThenEntryShown(r);
      EntryShown(PassWrap(r));
      TakenIsPrefix(PassWrap(r));
    } else {
      EntryShown(r);
      TakenIsPrefix(r);
    }
  }

  /** A release after a peek takes exactly the payload the peek showed: the head published is
      that of the step system's release, the taken payloads become one more of those pushed,
      and the producer finds free everything up to the record after it. */
  lemma ReleaseAfterPeek(r: Ring)
    requires Sound(r)
    ensures r.cHead != r.cCachedTail || r.cHead != r.tail ==> Readable(r.cap, r.cHead)
    ensures var (p, m) := TryPeekResult(r.buf, ViewOf(r), r.tail, r.tail);
            p.Slice? ==>
              var head := WrappingAdd(m.head, AlignedEntrySize(p.len));
              && |r.taken| < |r.pushed|
              && var s := Settled(r);
                 var r' := Release(s, r.pushed[|r.taken|]);
                 && Sound(r') && r'.head == head && ViewOf(r') == ConsumerMemory(head, m.cachedTail)
                 && r'.taken == r.pushed[..|r.taken| + 1]
                 && s.passed < |s.log| && s.log[s.passed] == Entry(At(s, s.passed), r.pushed[|r.taken|])
                 && FreeSpace(r.cap, r.pTail, head) == r.cap - (End(s) - At(s, s.passed + 1))
  {
    hide Offset, Shape, Stored, Histories, Sentinels, AlignedEntrySize, HeaderAt, PowerOfTwo, WrappingAdd,
         PeekRecord, PassWrap, FacesEmptyAtEnd, FreeSpace, Boundary, Chained;
    PeekFindsNext(r);
    var (p, m) := TryPeekResult(r.buf, ViewOf(r), r.tail, r.tail);
    if p.Slice? {
      SettledFaces(r);
      ReleaseTakesNext(Settled(r));
    }
  }

  /** After a peek that found something the consumer faces the entry it found. */
  lemma SettledFaces(r: Ring)
    requires Sound(r) && r.passed != r.published
    ensures var s := Settled(r);
            && Sound(s) && Facing(s) && s.log[s.passed].Entry?
            && s.taken == r.taken && s.pushed == r.pushed && s.cap == r.cap && s.pTail == r.pTail
  {
    hide Offset, Shape, Stored, Histories, Sentinels, AlignedEntrySize, HeaderAt, PowerOfTwo, WrappingAdd,
         PeekRecord, FacesEmptyAtEnd, FreeSpace, Boundary, Chained;
    ReloadSettles(r);
    var r1 := if r.cHead == r.cCachedTail then ReloadTail(r) else r;
    if r1.log[r1.passed].Wrap? {
      WrapThenEntryShown(r1);
    }
  }

  lemma ReleaseTakesNext(r: Ring)
    requires Sound(r) && Facing(r) && r.log[r.passed].Entry?
    ensures |r.taken| < |r.pushed|
    ensures var x := r.pushed[|r.taken|];
            var r' := Release(r, x);
            && Sound(r') && r'.taken == r.pushed[..|r.taken| + 1]
            && r.log[r.passed] == Entry(At(r, r.passed), x)
            && FreeSpace(r.cap, r.pTail, r'.head) == r.cap - (End(r) - At(r, r.passed + 1))
  {
    hide Offset, Stored, Histories, Sentinels, AlignedEntrySize, PowerOfTwo, WrappingAdd, FreeSpace, Boundary;
    TakenIsPrefix(r);
    ReleaseKeeps(r);
    var r' := Release(r, r.log[r.passed].payload);
    FreeIsTrue(r', r'.released);
  }
}
