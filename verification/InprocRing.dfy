/** The two halves of the byte ring as the objects they are in the source: cursors updated
    in place over one shared array. Values loaded from the other half's atomic cursor are
    parameters. Each method is proved against a function of the old state, and that function
    against an uninterrupted run of the thread's steps. */
module InprocRing {
  import opened Words
  import opened RingLog
  import opened InprocPipe
  import opened RingInvariant
  import opened InprocPipeInvariant
  import opened InprocPipeTheorems

  // ---- Producer ----

  /** Everything the producer writes before it publishes. */
  datatype ProducerMemory = ProducerMemory(buf: Bytes, tail: nat, cachedHead: nat)

  function ToWrap(cap: nat, tail: nat): nat
    requires cap > 0
  {
    cap - Offset(tail, cap)
  }

  function WriteEntryResult(m: ProducerMemory, data: Bytes): ProducerMemory
    requires |m.buf| > 0 && Offset(m.tail, |m.buf|) + HEADER_SIZE + |data| <= |m.buf|
  {
    ProducerMemory(Splice(m.buf, Offset(m.tail, |m.buf|), EntryImage(data)),
                   WrappingAdd(m.tail, AlignedEntrySize(|data|)), m.cachedHead)
  }

  function WriteWrapResult(m: ProducerMemory): ProducerMemory
    requires |m.buf| > 0 && Offset(m.tail, |m.buf|) + HEADER_SIZE <= |m.buf|
  {
    ProducerMemory(Splice(m.buf, Offset(m.tail, |m.buf|), Sentinel()),
                   WrappingAdd(m.tail, ToWrap(|m.buf|, m.tail)), m.cachedHead)
  }

  predicate HeaderRoom(m: ProducerMemory) {
    |m.buf| > 0 && Offset(m.tail, |m.buf|) + HEADER_SIZE <= |m.buf|
  }

  /** A cursor the ring can be at: aligned, with the capacity a power of two. */
  predicate Sane(m: ProducerMemory) {
    IsCapacity(|m.buf|) && m.tail < TWO_64 && m.tail % 4 == 0
  }

  /** Moving a cursor past the rest of the lap brings it to the start of the buffer. */
  lemma WrapsToStart(tail: nat, cap: nat)
    requires IsCapacity(cap) && tail < TWO_64
    ensures cap > 0 && Offset(WrappingAdd(tail, ToWrap(cap, tail)), cap) == 0
  {
    hide Offset, PowerOfTwo;
    CapacityDivides(cap);
    OffsetWrap(tail, cap);
    CursorOffset(tail + ToWrap(cap, tail), cap);
  }

  lemma RoomForHeader(tail: nat, cap: nat)
    requires IsCapacity(cap) && cap >= 4 && tail % 4 == 0
    ensures Offset(tail, cap) + HEADER_SIZE <= cap
  {
    hide Offset, PowerOfTwo;
    CapacityAligned(cap);
    AlignedOffset(tail, cap);
  }

  lemma SaneFacts(m: ProducerMemory)
    requires Sane(m)
    ensures |m.buf| > 0
    ensures |m.buf| >= 4 ==> HeaderRoom(m)
    ensures Offset(WrappingAdd(m.tail, ToWrap(|m.buf|, m.tail)), |m.buf|) == 0
  {
    hide Offset, PowerOfTwo, WrappingAdd, ToWrap;
    WrapsToStart(m.tail, |m.buf|);
    if |m.buf| >= 4 {
      RoomForHeader(m.tail, |m.buf|);
    }
  }

  /** `try_push` once the first space check has passed with `free` bytes. */
  function PlaceResult(m: ProducerMemory, data: Bytes, free: nat, headForWrap: nat): (bool, ProducerMemory)
    requires Sane(m) && AlignedEntrySize(|data|) + HEADER_SIZE <= free <= |m.buf|
  {
    hide Offset, AlignedEntrySize, PowerOfTwo;
    SaneFacts(m);
    EntrySizeCovers(|data|);
    var cap, size := |m.buf|, AlignedEntrySize(|data|);
    var contiguous := ToWrap(cap, m.tail);
    if contiguous < size then
      var m' := if free < contiguous + size + HEADER_SIZE then m.(cachedHead := headForWrap) else m;
      var free' := if free < contiguous + size + HEADER_SIZE then FreeSpace(cap, m.tail, headForWrap) else free;
      if free' < contiguous + size + HEADER_SIZE then (false, m')
      else (true, WriteEntryResult(WriteWrapResult(m'), data))
    else (true, WriteEntryResult(m, data))
  }

  /** One `try_push`: whether it succeeds, and what the producer has written. `headFirst` and
      `headForWrap` are the heads loaded if the first and the second space check need one. */
  function TryPushResult(m: ProducerMemory, data: Bytes, headFirst: nat, headForWrap: nat): (bool, ProducerMemory)
    requires Sane(m)
  {
    var size := AlignedEntrySize(|data|);
    var free := FreeSpace(|m.buf|, m.tail, m.cachedHead);
    if |data| >= WRAP_SENTINEL then (false, m)
    else if size + HEADER_SIZE <= free then PlaceResult(m, data, free, headForWrap)
    else
      var m' := m.(cachedHead := headFirst);
      var free' := FreeSpace(|m.buf|, m.tail, headFirst);
      if free' < size + HEADER_SIZE then (false, m') else PlaceResult(m', data, free', headForWrap)
  }

  lemma SpliceTwice(buf: Bytes, offset: nat, a: Bytes, b: Bytes)
    requires offset + |a| + |b| <= |buf|
    ensures |Splice(buf, offset, a)| == |buf|
    ensures Splice(Splice(buf, offset, a), offset + |a|, b) == Splice(buf, offset, a + b)
  {
  }

  // ---- What an empty ring accepts ----

  /** With the head loaded equal to the tail, an entry of at most half the capacity finds
      room at every cursor, whatever head was cached before. */
  lemma UpToHalfAccepted(m: ProducerMemory, data: Bytes)
    requires Sane(m) && |data| < WRAP_SENTINEL && AlignedEntrySize(|data|) <= |m.buf| / 2
    ensures TryPushResult(m, data, m.tail, m.tail).0
  {
    hide Offset, AlignedEntrySize, PowerOfTwo, WrappingSub, WriteEntryResult, WriteWrapResult;
    EntrySizeAligned(|data|);
    EntrySizeCovers(|data|);
    CapacityAligned(|m.buf|);
    AlignedOffset(m.tail, |m.buf|);
    NothingUsed(|m.buf|, m.tail);
  }

  lemma NothingUsed(cap: nat, tail: nat)
    requires cap > 0
    ensures FreeSpace(cap, tail, tail) == cap
  {
  }

  /** A cursor that leaves four bytes less than the entry needs before the end, if the entry
      can be in the buffer at all. */
  function TightCursor(cap: nat, size: nat): nat {
    if size + HEADER_SIZE > cap then 0 else cap - size + HEADER_SIZE
  }

  lemma TightCursorIsTight(cap: nat, size: nat)
    requires cap > 0 && cap / 2 < size && size % 4 == 0 && (cap >= 4 ==> cap % 4 == 0)
    ensures TightCursor(cap, size) < cap && TightCursor(cap, size) % 4 == 0
    ensures size + HEADER_SIZE <= cap ==>
              var contiguous := cap - TightCursor(cap, size);
              contiguous < size && contiguous + size + HEADER_SIZE > cap
  {
  }

  /** There an entry of more than half the capacity is refused, whatever heads are loaded. */
  lemma MoreThanHalfRefused(m: ProducerMemory, data: Bytes, headFirst: nat, headForWrap: nat)
    requires Sane(m) && AlignedEntrySize(|data|) > |m.buf| / 2
    requires m.tail == TightCursor(|m.buf|, AlignedEntrySize(|data|))
    ensures !TryPushResult(m, data, headFirst, headForWrap).0
  {
    hide AlignedEntrySize, PowerOfTwo, WrappingSub, WriteEntryResult, WriteWrapResult, TightCursor;
    EntrySizeAligned(|data|);
    EntrySizeCovers(|data|);
    CapacityDivides(|m.buf|);
    if |m.buf| >= 4 {
      CapacityAligned(|m.buf|);
    }
    TightCursorIsTight(|m.buf|, AlignedEntrySize(|data|));
  }

  /** The capacity the ring promises: exactly the payloads below the sentinel length whose
      aligned entry takes at most half the buffer are accepted by an empty ring wherever its
      cursors stand. */
  lemma HalfTheCapacityExactly(cap: nat, data: Bytes)
    requires IsCapacity(cap)
    ensures (forall m :: Sane(m) && |m.buf| == cap ==> TryPushResult(m, data, m.tail, m.tail).0)
              <==> |data| < WRAP_SENTINEL && AlignedEntrySize(|data|) <= cap / 2
  {
    hide Offset, AlignedEntrySize, PowerOfTwo, TryPushResult, TightCursor;
    if |data| < WRAP_SENTINEL && AlignedEntrySize(|data|) <= cap / 2 {
      forall m | Sane(m) && |m.buf| == cap ensures TryPushResult(m, data, m.tail, m.tail).0 {
        UpToHalfAccepted(m, data);
      }
    } else {
      var m := RefusingMemory(cap, data);
      assert Sane(m) && !TryPushResult(m, data, m.tail, m.tail).0;
    }
  }

  lemma RefusingMemory(cap: nat, data: Bytes) returns (m: ProducerMemory)
    requires IsCapacity(cap) && (|data| >= WRAP_SENTINEL || AlignedEntrySize(|data|) > cap / 2)
    ensures Sane(m) && |m.buf| == cap && !TryPushResult(m, data, m.tail, m.tail).0
  {
    hide Offset, AlignedEntrySize, PowerOfTwo, TightCursor;
    var empty := seq(cap, i => 0);
    if |data| >= WRAP_SENTINEL {
      m := ProducerMemory(empty, 0, 0);
    } else {
      EntrySizeAligned(|data|);
      CapacityDivides(cap);
      if cap >= 4 {
        CapacityAligned(cap);
      }
      var tail := TightCursor(cap, AlignedEntrySize(|data|));
      m := ProducerMemory(empty, tail, tail);
      TightCursorIsTight(cap, AlignedEntrySize(|data|));
      MoreThanHalfRefused(m, data, tail, tail);
    }
  }

  class RingProducer {
    const buf: array<byte>
    var tail: nat
    var cachedHead: nat

    ghost function Memory(): ProducerMemory
      reads this, buf
    {
      ProducerMemory(buf[..], tail, cachedHead)
    }

    constructor (shared: array<byte>)
      ensures buf == shared && tail == 0 && cachedHead == 0
    {
      buf, tail, cachedHead := shared, 0, 0;
    }

    method CopyIn(offset: nat, bytes: Bytes)
      requires offset + |bytes| <= buf.Length
      modifies buf
      ensures buf[..] == Splice(old(buf[..]), offset, bytes)
    {
      ghost var before := buf[..];
      for i := 0 to |bytes|
        invariant buf[..] == Splice(before, offset, bytes[..i])
      {
        buf[offset + i] := bytes[i];
        assert bytes[..i + 1] == bytes[..i] + [bytes[i]];
      }
      assert bytes[..|bytes|] == bytes;
    }

    method WriteEntry(data: Bytes)
      requires buf.Length > 0 && Offset(tail, buf.Length) + HEADER_SIZE + |data| <= buf.Length
      modifies `tail, buf
      ensures Memory() == WriteEntryResult(old(Memory()), data)
    {
      hide Offset, AlignedEntrySize, Le32, Splice;
      var offset := Offset(tail, buf.Length);
      CopyIn(offset, Le32(|data| % TWO_32));
      CopyIn(offset + HEADER_SIZE, data);
      SpliceTwice(old(buf[..]), offset, Le32(|data| % TWO_32), data);
      tail := WrappingAdd(tail, AlignedEntrySize(|data|));
    }

    method WriteWrap()
      requires HeaderRoom(Memory())
      modifies `tail, buf
      ensures Memory() == WriteWrapResult(old(Memory()))
    {
      hide Offset;
      var offset := Offset(tail, buf.Length);
      CopyIn(offset, Sentinel());
      tail := WrappingAdd(tail, buf.Length - offset);
    }

    method TryPush(data: Bytes, headFirst: nat, headForWrap: nat) returns (ok: bool)
      requires Sane(Memory())
      modifies this, buf
      ensures (ok, Memory()) == TryPushResult(old(Memory()), data, headFirst, headForWrap)
    {
      hide Offset, AlignedEntrySize, PowerOfTwo, FreeSpace, WriteEntryResult, WriteWrapResult, EntryImage;
      if |data| >= WRAP_SENTINEL {
        return false;
      }
      var size := AlignedEntrySize(|data|);
      EntrySizeCovers(|data|);
      SaneFacts(Memory());
      var cap := buf.Length;
      var tailOffset := Offset(tail, cap);
      var free := FreeSpace(cap, tail, cachedHead);
      FreeBound(cap, tail, cachedHead);
      if free < size + HEADER_SIZE {
        cachedHead := headFirst;
        free := FreeSpace(cap, tail, cachedHead);
        FreeBound(cap, tail, cachedHead);
        if free < size + HEADER_SIZE {
          return false;
        }
      }
      var contiguous := cap - tailOffset;
      if contiguous < size {
        if free < contiguous + size + HEADER_SIZE {
          cachedHead := headForWrap;
          free := FreeSpace(cap, tail, cachedHead);
          FreeBound(cap, tail, cachedHead);
          if free < contiguous + size + HEADER_SIZE {
            return false;
          }
        }
        WrapFields(Memory());
        WriteWrap();
        WriteEntry(data);
      } else {
        WriteEntry(data);
      }
      return true;
    }
  }

  lemma FreeBound(cap: nat, tail: nat, head: nat)
    ensures FreeSpace(cap, tail, head) <= cap
  {
  }

  lemma WrapFields(m: ProducerMemory)
    requires HeaderRoom(m)
    ensures |WriteWrapResult(m).buf| == |m.buf|
    ensures WriteWrapResult(m).tail == WrappingAdd(m.tail, ToWrap(|m.buf|, m.tail))
  {
  }

  // ---- The method is what the producer's steps do ----

  function MemoryOf(r: Ring): ProducerMemory {
    ProducerMemory(r.buf, r.pTail, r.pCachedHead)
  }

  predicate InTryPush(pc: ProducerPc) {
    pc.Reserve? || pc.LoadHead? || pc.LoadHeadForWrap? || pc.WriteWrap? || pc.WriteEntry?
  }

  function Rank(pc: ProducerPc): nat {
    match pc
    case Reserve(_, _) => 5
    case LoadHead(_, _) => 4
    case LoadHeadForWrap(_, _) => 3
    case WriteWrap(_, _, _) => 2
    case WriteEntry(_, _, _) => 1
    case _ => 0
  }

  function Remaining(pc: ProducerPc): nat {
    if pc.WriteWrap? && pc.i < HEADER_SIZE then HEADER_SIZE - pc.i
    else if pc.WriteEntry? && pc.i < HEADER_SIZE + |pc.data| then HEADER_SIZE + |pc.data| - pc.i
    else 0
  }

  /** The producer running alone until `try_push` returns. */
  function Solo(s: State): State
    requires Usable(s.ring)
    decreases Rank(s.pPc), Remaining(s.pPc), InTryPush(s.pPc)
  {
    hide Offset, FreeSpace, AlignedEntrySize, Contiguous, Boundary, EntryImage;
    if InTryPush(s.pPc) then Solo(ProducerStep(s)) else s
  }

  lemma {:induction false} SoloEntry(s: State)
    requires Inv(s) && s.pPc.WriteEntry?
    ensures Offset(s.ring.pTail, s.ring.cap) + HEADER_SIZE + |s.pPc.data| <= s.ring.cap
    ensures Solo(s).pPc == PushDone(s.pPc.call)
    ensures MemoryOf(Solo(s).ring) == WriteEntryResult(MemoryOf(s.ring), s.pPc.data)
    decreases Remaining(s.pPc)
  {
    hide Offset, Sound, Boundary, AlignedEntrySize, EntryImage, Reading;
    var call, data, i := s.pPc.call, s.pPc.data, s.pPc.i;
    WriteEntryKeeps(s, call, data, i);
    var s' := ProducerStep(s);
    if s'.pPc.WriteEntry? {
      SoloEntry(s');
    } else {
      LastByte(s.ring, EntryImage(data), i);
    }
    SpliceOver(s.ring.buf, Offset(s.ring.pTail, s.ring.cap), EntryImage(data), i);
  }

  /** The last byte of a copy completes the splice. */
  lemma LastByte(r: Ring, image: Bytes, i: nat)
    requires Usable(r) && Written(r, image, i) && i + 1 == |image|
    ensures StoreByte(r, i, image[i]).buf == Splice(r.buf, Offset(r.pTail, r.cap), image)
  {
    hide Offset;
    var off := Offset(r.pTail, r.cap);
    StoreByteExtends(r, image, i);
    var buf' := StoreByte(r, i, image[i]).buf;
    assert image[..|image|] == image;
    SpliceSame(buf', off, image);
    SpliceOver(r.buf, off, image, i);
  }

  /** What a push that wraps first leaves behind. */
  predicate WrappedThenWrote(s: State, s': State)
    requires Usable(s.ring) && s.pPc.WriteWrap?
  {
    && HeaderRoom(MemoryOf(s.ring))
    && var m := WriteWrapResult(MemoryOf(s.ring));
    && Offset(m.tail, |m.buf|) + HEADER_SIZE + |s.pPc.data| <= |m.buf|
    && s'.pPc == PushDone(s.pPc.call)
    && MemoryOf(s'.ring) == WriteEntryResult(m, s.pPc.data)
  }

  /** The step that completes the wrap marker. */
  lemma WrapMarkerDone(s: State)
    requires Inv(s) && s.pPc.WriteWrap? && s.pPc.i + 1 == HEADER_SIZE
    ensures HeaderRoom(MemoryOf(s.ring))
    ensures var s' := ProducerStep(s);
            && Inv(s') && s'.pPc == WriteEntry(s.pPc.call, s.pPc.data, 0)
            && MemoryOf(s'.ring) == WriteWrapResult(MemoryOf(s.ring))
  {
    hide Offset, Sound, Boundary, AlignedEntrySize, EntryImage, Reading, Splice;
    WriteWrapKeeps(s, s.pPc.call, s.pPc.data, s.pPc.i);
    LastByte(s.ring, Sentinel(), s.pPc.i);
  }

  lemma SoloWrapLast(s: State)
    requires Inv(s) && s.pPc.WriteWrap? && s.pPc.i + 1 == HEADER_SIZE
    ensures WrappedThenWrote(s, Solo(s))
  {
    hide Offset, Sound, Writing, Reading, WriteEntryResult, WriteWrapResult, PushDone, ProducerStep, HeaderRoom;
    WrapMarkerDone(s);
    SoloEntry(ProducerStep(s));
    assert Solo(s) == Solo(ProducerStep(s));
  }

  lemma {:induction false} SoloWrap(s: State)
    requires Inv(s) && s.pPc.WriteWrap?
    ensures WrappedThenWrote(s, Solo(s))
    decreases Remaining(s.pPc)
  {
    hide Offset, Sound, Boundary, AlignedEntrySize, EntryImage, Reading, WriteEntryResult, Splice, PushDone;
    var call, data, i := s.pPc.call, s.pPc.data, s.pPc.i;
    if i + 1 == HEADER_SIZE {
      SoloWrapLast(s);
    } else {
      WriteWrapKeeps(s, call, data, i);
      var s' := ProducerStep(s);
      SoloWrap(s');
      SpliceOver(s.ring.buf, Offset(s.ring.pTail, s.ring.cap), Sentinel(), i);
    }
  }

  lemma SaneRing(r: Ring)
    requires Sound(r)
    ensures Sane(MemoryOf(r))
  {
    hide Offset, Boundary, Chained, Stored, Histories, Sentinels, PowerOfTwo;
    CursorAligned(r, |r.log|);
  }

  /** What the rest of a push must come to, from a state that has just chosen a place. */
  predicate Placed(s: State, s': State, call: Call, data: Bytes, free: nat)
    requires Sane(MemoryOf(s.ring)) && AlignedEntrySize(|data|) + HEADER_SIZE <= free <= s.ring.cap == |s.ring.buf|
  {
    var (ok, m) := PlaceResult(MemoryOf(s.ring), data, free, s.ring.head);
    && s'.pPc == (if ok then PushDone(call) else PushFailed(call, data))
    && MemoryOf(s'.ring) == m
  }

  /** The placement that has to look at the head once more before wrapping. */
  lemma SoloPlaceReload(s: State, call: Call, data: Bytes, free: nat)
    requires Inv(s) && |data| < WRAP_SENTINEL && s.pPc == ChoosePlacement(s.ring, call, data, free)
    requires s.pPc.LoadHeadForWrap?
    requires AlignedEntrySize(|data|) + HEADER_SIZE <= free <= s.ring.cap
    ensures Sane(MemoryOf(s.ring)) && Placed(s, Solo(s), call, data, free)
  {
    hide Offset, Sound, Boundary, AlignedEntrySize, EntryImage, Reading, FreeSpace, PowerOfTwo,
         WriteEntryResult, WriteWrapResult;
    SaneRing(s.ring);
    RingProducerKeeps(s);
    var s' := ProducerStep(s);
    if s'.pPc.WriteWrap? {
      SoloWrap(s');
    }
  }

  lemma SoloPlace(s: State, call: Call, data: Bytes, free: nat)
    requires Inv(s) && |data| < WRAP_SENTINEL && s.pPc == ChoosePlacement(s.ring, call, data, free)
    requires AlignedEntrySize(|data|) + HEADER_SIZE <= free <= s.ring.cap
    ensures Sane(MemoryOf(s.ring)) && Placed(s, Solo(s), call, data, free)
  {
    hide Offset, Sound, Boundary, AlignedEntrySize, EntryImage, Reading, FreeSpace, PowerOfTwo,
         WriteEntryResult, WriteWrapResult, Solo;
    SaneRing(s.ring);
    match s.pPc {
      case WriteWrap(_, _, _) => SoloWrap(s);
      case WriteEntry(_, _, _) => SoloEntry(s);
      case LoadHeadForWrap(_, _) => SoloPlaceReload(s, call, data, free);
    }
  }

  /** A `try_push` that the receiver does not interrupt does exactly what the method does. */
  lemma SoloIsTryPush(s: State)
    requires Inv(s) && s.pPc.Reserve?
    ensures Sane(MemoryOf(s.ring))
    ensures var (ok, m) := TryPushResult(MemoryOf(s.ring), s.pPc.data, s.ring.head, s.ring.head);
            && Solo(s).pPc == (if ok then PushDone(s.pPc.call) else PushFailed(s.pPc.call, s.pPc.data))
            && MemoryOf(Solo(s).ring) == m
  {
    hide Offset, Sound, Boundary, AlignedEntrySize, EntryImage, Reading, FreeSpace, PowerOfTwo,
         ChoosePlacement, PlaceResult, Writing;
    SaneRing(s.ring);
    var r, call, data := s.ring, s.pPc.call, s.pPc.data;
    FreeBound(r.cap, r.pTail, r.pCachedHead);
    FreeBound(r.cap, r.pTail, r.head);
    PipeProducerKeeps(s);
    var s1 := ProducerStep(s);
    if |data| < WRAP_SENTINEL {
      var size := AlignedEntrySize(|data|);
      if size + HEADER_SIZE <= FreeSpace(r.cap, r.pTail, r.pCachedHead) {
        SoloPlace(s1, call, data, FreeSpace(r.cap, r.pTail, r.pCachedHead));
      } else {
        RingProducerKeeps(s1);
        var s2 := ProducerStep(s1);
        if size + HEADER_SIZE <= FreeSpace(r.cap, r.pTail, r.head) {
          SoloPlace(s2, call, data, FreeSpace(r.cap, r.pTail, r.head));
        } else {
          assert Solo(s2) == s2;
        }
        assert Solo(s1) == Solo(s2);
      }
    }
  }
}
