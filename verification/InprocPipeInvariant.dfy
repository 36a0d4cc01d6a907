/** The inductive invariant of the inproc bypass: what each program counter of the two
    threads guarantees about the ring, and that every step keeps it. */
module InprocPipeInvariant {
  import opened Words
  import opened RingLog
  import opened InprocPipe
  import opened RingInvariant

  /** `image[..i]` is already at the producer's position and the rest of it fits. */
  predicate Written(r: Ring, image: Bytes, i: nat)
    requires Usable(r)
  {
    && i < |image|
    && Offset(r.pTail, r.cap) + |image| <= r.cap
    && r.buf[Offset(r.pTail, r.cap)..Offset(r.pTail, r.cap) + i] == image[..i]
  }

  /** The space the producer has reserved ends before the oldest record it may not touch. */
  predicate Reserved(r: Ring, n: nat)
    requires Shape(r)
  {
    End(r) + n + HEADER_SIZE <= At(r, r.cachedHeadIdx) + r.cap
  }

  predicate Writing(r: Ring, pc: ProducerPc)
    requires Shape(r)
  {
    match pc
    case LoadHead(_, data) => |data| < WRAP_SENTINEL && EndsInEntry(r.log, |r.log|)
    case LoadHeadForWrap(_, data) =>
      && |data| < WRAP_SENTINEL && EndsInEntry(r.log, |r.log|)
      && Contiguous(r) < AlignedEntrySize(|data|)
    case WriteWrap(_, data, i) =>
      && |data| < WRAP_SENTINEL && EndsInEntry(r.log, |r.log|)
      && Contiguous(r) < AlignedEntrySize(|data|)
      && Reserved(r, Contiguous(r) + AlignedEntrySize(|data|))
      && Written(r, Sentinel(), i)
    case WriteEntry(_, data, i) =>
      && |data| < WRAP_SENTINEL
      && AlignedEntrySize(|data|) <= Contiguous(r)
      && Reserved(r, AlignedEntrySize(|data|))
      && Written(r, EntryImage(data), i)
    case ProducerFault => false
    case _ => EndsInEntry(r.log, |r.log|)
  }

  /** The record under the consumer's eyes. */
  predicate Facing(r: Ring)
    requires Shape(r)
  {
    r.passed < r.cachedTailIdx
  }

  predicate Reading(r: Ring, pc: ConsumerPc)
    requires Shape(r)
  {
    match pc
    case LoadTail => r.passed == r.cachedTailIdx
    case ReadHeader(got) =>
      Facing(r) && |got| < 4 && got == Image(r.log[r.passed])[..|got|]
    case ReadWrappedHeader(got) =>
      Facing(r) && |got| < 4 && got == Image(r.log[r.passed])[..|got|] && r.log[r.passed].Entry?
    case Peeked(len, got) =>
      && Facing(r) && r.log[r.passed].Entry?
      && len == |r.log[r.passed].payload|
      && |got| <= len && got == r.log[r.passed].payload[..|got|]
    case Panicked =>
      && Facing(r) && r.log[r.passed].Entry? && r.log[r.passed].payload == []
      && Offset(r.cHead, r.cap) + HEADER_SIZE == r.cap
    case WrapLoadTail => false
    case ConsumerFault => false
    case _ => true
  }

  predicate Inv(s: State) {
    && Sound(s.ring)
    && Writing(s.ring, s.pPc)
    && Reading(s.ring, s.cPc)
  }

  lemma InitInv(cap: nat)
    requires IsCapacity(cap)
    ensures Inv(Init(cap))
  {
    CapacityDivides(cap);
  }

  // ---- Steps of one thread do not disturb the other ----

  /** The consumer's view survives any ring change that keeps the records and its cursors. */
  lemma ReadingFrame(r: Ring, r': Ring, pc: ConsumerPc)
    requires Shape(r) && Shape(r') && Reading(r, pc)
    requires r.log <= r'.log && r'.cap == r.cap
    requires r'.passed == r.passed && r'.cachedTailIdx == r.cachedTailIdx && r'.cHead == r.cHead
    ensures Reading(r', pc)
  {
    hide Shape, Offset, Image;
    if r.passed < |r.log| {
      assert r'.log[r.passed] == r.log[r.passed];
    }
  }

  /** The producer's view survives any consumer operation. */
  lemma WritingFrame(r: Ring, r': Ring, pc: ProducerPc)
    requires Shape(r) && Shape(r') && Writing(r, pc)
    requires r'.log == r.log && r'.cap == r.cap && r'.buf == r.buf
    requires r'.pTail == r.pTail && r'.cachedHeadIdx == r.cachedHeadIdx
    ensures Writing(r', pc)
  {
    hide Shape, Offset, Boundary, AlignedEntrySize, EntryImage, Sentinel;
  }

  // ---- Producer steps ----

  lemma ChoosePlacementFits(r: Ring, call: Call, data: Bytes, free: nat)
    requires Shape(r) && |data| < WRAP_SENTINEL && EndsInEntry(r.log, |r.log|)
    requires free == r.cap - (End(r) - At(r, r.cachedHeadIdx))
    requires AlignedEntrySize(|data|) + HEADER_SIZE <= free
    ensures Writing(r, ChoosePlacement(r, call, data, free))
  {
    hide PowerOfTwo, Offset, Chained, Boundary;
    Spread(r, r.cachedHeadIdx, |r.log|);
    BoundaryOffset(r, |r.log|);
  }

  lemma ReserveKeeps(r: Ring, call: Call, data: Bytes)
    requires Shape(r) && EndsInEntry(r.log, |r.log|)
    ensures Writing(r, ReserveNext(r, call, data))
  {
    hide PowerOfTwo, Offset, Chained, Boundary, FreeSpace, AlignedEntrySize, ChoosePlacement;
    FreeIsTrue(r, r.cachedHeadIdx);
    var free := FreeSpace(r.cap, r.pTail, r.pCachedHead);
    if |data| < WRAP_SENTINEL && AlignedEntrySize(|data|) + HEADER_SIZE <= free {
      ChoosePlacementFits(r, call, data, free);
    }
  }

  lemma LoadHeadKeeps(r: Ring, call: Call, data: Bytes)
    requires Shape(r) && EndsInEntry(r.log, |r.log|) && |data| < WRAP_SENTINEL
    ensures Writing(r, LoadHeadNext(r, call, data))
  {
    hide PowerOfTwo, Offset, Chained, Boundary, FreeSpace, AlignedEntrySize, ChoosePlacement;
    FreeIsTrue(r, r.cachedHeadIdx);
    var free := FreeSpace(r.cap, r.pTail, r.pCachedHead);
    if AlignedEntrySize(|data|) + HEADER_SIZE <= free {
      ChoosePlacementFits(r, call, data, free);
    }
  }

  lemma LoadHeadForWrapKeeps(r: Ring, call: Call, data: Bytes)
    requires Shape(r) && EndsInEntry(r.log, |r.log|) && |data| < WRAP_SENTINEL
    requires Contiguous(r) < AlignedEntrySize(|data|)
    ensures Writing(r, LoadHeadForWrapNext(r, call, data))
  {
    hide PowerOfTwo, Offset, Chained, Boundary, FreeSpace;
    FreeIsTrue(r, r.cachedHeadIdx);
    Spread(r, r.cachedHeadIdx, |r.log|);
    BoundaryOffset(r, |r.log|);
  }

  /** One more byte of the image is in place. */
  lemma StoreByteExtends(r: Ring, image: Bytes, i: nat)
    requires Usable(r) && Written(r, image, i)
    ensures var r' := StoreByte(r, i, image[i]);
            r'.buf[Offset(r.pTail, r.cap)..Offset(r.pTail, r.cap) + i + 1] == image[..i + 1]
  {
    hide Offset;
    var off := Offset(r.pTail, r.cap);
    var r' := StoreByte(r, i, image[i]);
    assert r'.buf[off..off + i + 1] == r.buf[off..off + i] + [image[i]];
    assert image[..i + 1] == image[..i] + [image[i]];
  }

  lemma WriteWrapKeeps(s: State, call: Call, data: Bytes, i: nat)
    requires Inv(s) && s.pPc == WriteWrap(call, data, i)
    ensures Inv(WriteWrapStep(s, call, data, i))
  {
    hide Shape, Offset, Boundary, EntryImage, Stored, Sentinels, Histories, Reading, AlignedEntrySize;
    EntrySizeCovers(|data|);
    var r := s.ring;
    var r1 := StoreByte(r, i, 255);
    StoreByteKeeps(r, i, 255);
    StoreByteExtends(r, Sentinel(), i);
    ReadingFrame(r, r1, s.cPc);
    if i + 1 == HEADER_SIZE {
      assert Sentinel()[..4] == Sentinel();
      FinishWrapKeeps(r1);
      ReadingFrame(r1, FinishWrap(r1), s.cPc);
      ReservedFits(r1, Contiguous(r1) + AlignedEntrySize(|data|));
    }
  }

  lemma ReservedFits(r: Ring, n: nat)
    requires Shape(r) && Reserved(r, n)
    ensures n + HEADER_SIZE <= r.cap
  {
    hide PowerOfTwo, Offset, Chained, Boundary;
    Spread(r, r.cachedHeadIdx, |r.log|);
  }

  /** Storing the next byte of the entry. */
  lemma WriteEntryStores(s: State, data: Bytes, i: nat)
    requires Inv(s) && s.pPc.WriteEntry? && s.pPc.data == data && s.pPc.i == i
    ensures Offset(s.ring.pTail, s.ring.cap) + |EntryImage(data)| <= s.ring.cap
    ensures var r := StoreByte(s.ring, i, EntryImage(data)[i]);
            && Sound(r) && Reading(r, s.cPc)
            && Reserved(r, AlignedEntrySize(|data|)) && AlignedEntrySize(|data|) <= Contiguous(r)
            && r.buf[Offset(r.pTail, r.cap)..Offset(r.pTail, r.cap) + i + 1] == EntryImage(data)[..i + 1]
  {
    hide Shape, Offset, Boundary, EntryImage, Stored, Sentinels, Histories, Reading, AlignedEntrySize;
    EntrySizeCovers(|data|);
    var r := s.ring;
    var image := EntryImage(data);
    StoreByteKeeps(r, i, image[i]);
    StoreByteExtends(r, image, i);
    ReadingFrame(r, StoreByte(r, i, image[i]), s.cPc);
  }

  lemma WriteEntryKeeps(s: State, call: Call, data: Bytes, i: nat)
    requires Inv(s) && s.pPc == WriteEntry(call, data, i)
    ensures Inv(WriteEntryStep(s, call, data, i))
  {
    hide Shape, Offset, Boundary, EntryImage, Stored, Sentinels, Histories, Reading, AlignedEntrySize,
         StoreByte, Contiguous;
    var image := EntryImage(data);
    WriteEntryStores(s, data, i);
    var r1 := StoreByte(s.ring, i, image[i]);
    assert r1 == s.ring.(buf := r1.buf) by { StoreByteFields(s.ring, i, image[i]); }
    if i + 1 == |image| {
      assert image[..|image|] == image;
      FinishEntryKeeps(r1, data);
      ReadingFrame(r1, FinishEntry(r1, data), s.cPc);
    }
  }

  lemma StoreByteFields(r: Ring, i: nat, b: byte)
    requires Usable(r) && Offset(r.pTail, r.cap) + i < r.cap
    ensures StoreByte(r, i, b) == r.(buf := StoreByte(r, i, b).buf)
  {
  }

  lemma RingProducerKeeps(s: State)
    requires Inv(s) && TouchesRing(s.pPc)
    ensures Inv(RingProducerStep(s))
  {
    hide Shape, Stored, Sentinels, Histories, Reading, EndsInEntry,
         LoadHeadNext, LoadHeadForWrapNext, WriteWrapStep, WriteEntryStep;
    var r := s.ring;
    match s.pPc {
      case LoadHead(call, data) =>
        ReloadHeadKeeps(r);
        LoadHeadKeeps(ReloadHead(r), call, data);
        ReadingFrame(r, ReloadHead(r), s.cPc);
      case LoadHeadForWrap(call, data) =>
        ReloadHeadKeeps(r);
        LoadHeadForWrapKeeps(ReloadHead(r), call, data);
        ReadingFrame(r, ReloadHead(r), s.cPc);
      case WriteWrap(call, data, i) => WriteWrapKeeps(s, call, data, i);
      case WriteEntry(call, data, i) => WriteEntryKeeps(s, call, data, i);
      case FlushStore(final, prevTail, seenHead) =>
        PublishKeeps(r);
        ReadingFrame(r, Publish(r), s.cPc);
    }
  }

  lemma PipeProducerKeeps(s: State)
    requires Inv(s) && ProducerEnabled(s) && !TouchesRing(s.pPc)
    ensures Inv(PipeProducerStep(s))
  {
    hide Sound, Reading, EndsInEntry, ReserveNext;
    assert Shape(s.ring);
    if s.pPc.Reserve? {
      ReserveKeeps(s.ring, s.pPc.call, s.pPc.data);
    }
  }

  // ---- Consumer steps ----

  lemma HandOutKeeps(r: Ring, len: nat)
    requires Sound(r) && Facing(r) && r.log[r.passed].Entry? && len == |r.log[r.passed].payload|
    ensures Reading(r, HandOut(r.cap, Offset(r.cHead, r.cap), len))
  {
    hide Stored, Sentinels, Histories, Offset, Boundary;
    ReadsImage(r, 0);
  }

  lemma ReadHeaderKeeps(s: State, got: Bytes, wrapped: bool)
    requires Inv(s)
    requires s.cPc == if wrapped then ReadWrappedHeader(got) else ReadHeader(got)
    ensures Inv(ReadHeaderStep(s, got, wrapped))
  {
    hide Shape, Stored, Sentinels, Histories, Writing, Offset, Image, HandOut, FromLe32;
    var r := s.ring;
    assert r.passed < |r.log| && WellPlaced(r.cap, r.log[r.passed]) by { FacingPlaced(r); }
    var x := r.log[r.passed];
    ReadsImage(r, |got|);
    var got' := got + [r.buf[Offset(r.cHead, r.cap) + |got|]];
    assert got' == Image(x)[..|got| + 1];
    if |got'| == 4 {
      HeaderDecodes(x);
      if x.Wrap? {
        PassWrapKeeps(r);
        WritingFrame(r, PassWrap(r), s.pPc);
      } else {
        HandOutKeeps(r, |x.payload|);
      }
    }
  }

  lemma FacingPlaced(r: Ring)
    requires Shape(r) && Facing(r)
    ensures r.passed < |r.log| && WellPlaced(r.cap, r.log[r.passed])
  {
  }

  lemma PeekedKeeps(s: State, len: nat, got: Bytes)
    requires Inv(s) && s.cPc == Peeked(len, got)
    ensures Inv(PeekedStep(s, len, got))
  {
    hide Shape, Stored, Sentinels, Histories, Writing, Offset, Le32, AlignedEntrySize;
    var r := s.ring;
    FacingPlaced(r);
    var x := r.log[r.passed];
    if |got| < len {
      ReadsImage(r, HEADER_SIZE + |got|);
      assert Image(x)[HEADER_SIZE + |got|] == x.payload[|got|];
      assert x.payload[..|got| + 1] == x.payload[..|got|] + [x.payload[|got|]];
    } else {
      assert got == x.payload;
      ReleaseKeeps(r);
      WritingFrame(r, Release(r, got), s.pPc);
    }
  }

  lemma LoadTailKeeps(s: State)
    requires Inv(s) && s.cPc == LoadTail
    ensures Inv(ConsumerStep(s))
  {
    hide Stored, Sentinels, Histories, Writing, Offset, Boundary, PowerOfTwo, Chained;
    ReloadTailKeeps(s.ring);
    WritingFrame(s.ring, ReloadTail(s.ring), s.pPc);
  }

  lemma ConsumerKeeps(s: State)
    requires Inv(s) && ConsumerEnabled(s)
    ensures Inv(ConsumerStep(s))
  {
    hide Sound, Writing, ReadHeaderStep, PeekedStep;
    assert Shape(s.ring);
    match s.cPc {
      case LoadTail => LoadTailKeeps(s);
      case ReadHeader(got) => ReadHeaderKeeps(s, got, false);
      case ReadWrappedHeader(got) => ReadHeaderKeeps(s, got, true);
      case Peeked(len, got) => PeekedKeeps(s, len, got);
      case _ =>
    }
  }

  lemma CallPeekKeeps(s: State)
    requires Inv(s) && s.cPc.Idle?
    ensures Inv(Apply(s, CallPeek))
  {
    hide Stored, Sentinels, Histories, Writing, Offset, Boundary, PowerOfTwo, Chained;
    CursorEquality(s.ring, s.ring.passed, s.ring.cachedTailIdx);
  }

  /** Every step of either thread keeps the invariant. */
  lemma StepKeepsInv(s: State, step: Step)
    requires Inv(s) && Enabled(s, step)
    ensures Inv(Apply(s, step))
  {
    hide Sound, ConsumerStep, RingProducerStep, PipeProducerStep;
    assert Shape(s.ring);
    match step {
      case Producer =>
        if TouchesRing(s.pPc) { RingProducerKeeps(s); } else { PipeProducerKeeps(s); }
      case Consumer => ConsumerKeeps(s);
      case CallPeek => CallPeekKeeps(s);
      case _ =>
    }
  }

  /** The invariant holds in every state of every run. */
  lemma {:induction false} RunKeepsInv(cap: nat, states: seq<State>, steps: seq<Step>, i: nat)
    requires IsCapacity(cap) && IsRun(cap, states, steps) && i < |states|
    ensures Inv(states[i])
  {
    hide Inv, Apply;
    if i == 0 {
      InitInv(cap);
    } else {
      RunKeepsInv(cap, states, steps, i - 1);
      assert Next(states[i - 1], steps[i - 1], states[i]);
      StepKeepsInv(states[i - 1], steps[i - 1]);
    }
  }
}
