/** What the byte ring guarantees in every state of every interleaving. */
module InprocPipeTheorems {
  import opened Words
  import opened RingLog
  import opened InprocPipe
  import opened RingInvariant
  import opened InprocPipeInvariant

  // ---- Refinement of a FIFO of byte strings ----

  /** The abstract queue: everything ever pushed, how much of it is published, and what the
      receiver has taken. */
  datatype Fifo = Fifo(pushed: seq<Bytes>, flushed: nat, taken: seq<Bytes>)

  function View(s: State): Fifo {
    Fifo(s.ring.pushed, s.ring.flushed, s.ring.taken)
  }

  predicate Enqueues(q: Fifo, q': Fifo) {
    |q'.pushed| == |q.pushed| + 1 && q'.pushed[..|q.pushed|] == q.pushed
    && q'.flushed == q.flushed && q'.taken == q.taken
  }

  predicate Publishes(q: Fifo, q': Fifo) {
    q' == q.(flushed := |q.pushed|)
  }

  /** The receiver takes the oldest published string it has not taken yet. */
  predicate Dequeues(q: Fifo, q': Fifo) {
    |q.taken| < q.flushed <= |q.pushed| && q' == q.(taken := q.taken + [q.pushed[|q.taken|]])
  }

  predicate FifoNext(q: Fifo, q': Fifo) {
    q' == q || Enqueues(q, q') || Publishes(q, q') || Dequeues(q, q')
  }

  lemma TakenIsPrefix(r: Ring)
    requires Sound(r)
    ensures r.flushed <= |r.pushed| && r.taken <= r.pushed[..r.flushed]
    ensures Facing(r) && r.log[r.passed].Entry? ==>
              |r.taken| < r.flushed && r.pushed[|r.taken|] == r.log[r.passed].payload
  {
    hide Chained, Boundary, Stored, Sentinels, Payloads, PowerOfTwo;
    PayloadsPrefix(r.log, r.passed, r.published);
    if Facing(r) && r.log[r.passed].Entry? {
      PayloadsPrefix(r.log, r.passed + 1, r.published);
      assert r.log[..r.passed + 1] == r.log[..r.passed] + [r.log[r.passed]];
      PayloadsSnoc(r.log[..r.passed], r.log[r.passed]);
      assert r.pushed[..r.flushed][|r.taken|] == r.pushed[|r.taken|];
    }
  }

  /** Every step of the byte ring is a step of the FIFO or invisible to it. */
  lemma StepRefinesFifo(s: State, step: Step)
    requires Inv(s) && Enabled(s, step)
    ensures FifoNext(View(s), View(Apply(s, step)))
  {
    hide Sound, Shape, Offset, ReserveNext, LoadHeadNext, LoadHeadForWrapNext, EntryImage, FromLe32, HandOut;
    match step {
      case Producer =>
        if s.pPc.WriteEntry? {
          var data := s.pPc.data;
          assert (s.ring.pushed + [data])[..|s.ring.pushed|] == s.ring.pushed;
        }
      case Consumer =>
        if s.cPc.Peeked? && |s.cPc.got| == s.cPc.len {
          TakenIsPrefix(s.ring);
          assert s.cPc.got == s.ring.log[s.ring.passed].payload;
        }
      case _ =>
    }
  }

  /** Under every interleaving, what the receiver has taken is a prefix of what was flushed,
      which is a prefix of what was pushed, byte for byte and in order. */
  lemma DeliveredInOrder(cap: nat, states: seq<State>, steps: seq<Step>, i: nat)
    requires IsCapacity(cap) && IsRun(cap, states, steps) && i < |states|
    ensures var r := states[i].ring; r.flushed <= |r.pushed| && r.taken <= r.pushed[..r.flushed] <= r.pushed
  {
    RunKeepsInv(cap, states, steps, i);
    TakenIsPrefix(states[i].ring);
  }

  /** `try_peek` reports an empty ring only when everything flushed has been taken. */
  lemma EmptyPeekMeansDrained(s: State)
    requires Inv(s) && (s.cPc.LoadTail? || s.cPc.WrapLoadTail?)
    ensures ConsumerStep(s).cPc.Idle? <==> s.ring.passed == s.ring.published
    ensures ConsumerStep(s).cPc.Idle? ==> s.ring.taken == s.ring.pushed[..s.ring.flushed]
  {
    hide Chained, Boundary, Stored, Sentinels, Payloads, PowerOfTwo;
    ReloadTailKeeps(s.ring);
  }

  // ---- Space ----

  /** The published tail, the producer's tail and the consumer's head, as the 64-bit words
      the implementation keeps: always aligned, never more than the capacity less one
      header apart, and the producer's stale copy of the head only underestimates space. */
  lemma CursorsStayClose(cap: nat, states: seq<State>, steps: seq<Step>, i: nat)
    requires IsCapacity(cap) && cap >= 4 && IsRun(cap, states, steps) && i < |states|
    ensures var r := states[i].ring;
            && WrappingSub(r.tail, r.head) <= WrappingSub(r.pTail, r.head) <= cap - HEADER_SIZE
            && r.tail % 4 == 0 && r.pTail % 4 == 0 && r.head % 4 == 0 && r.cHead % 4 == 0
            && FreeSpace(cap, r.pTail, r.pCachedHead) <= FreeSpace(cap, r.pTail, r.head)
  {
    RunKeepsInv(cap, states, steps, i);
    RunKeepsCap(cap, states, steps, i);
    RingCursors(states[i].ring);
  }

  lemma {:induction false} RunKeepsCap(cap: nat, states: seq<State>, steps: seq<Step>, i: nat)
    requires IsRun(cap, states, steps) && i < |states|
    ensures states[i].ring.cap == cap
  {
    hide Offset, ReserveNext, LoadHeadNext, LoadHeadForWrapNext, EntryImage, FromLe32, HandOut, Boundary;
    if i > 0 {
      RunKeepsCap(cap, states, steps, i - 1);
      assert Next(states[i - 1], steps[i - 1], states[i]);
    }
  }

  lemma RingCursors(r: Ring)
    requires Sound(r) && r.cap >= 4
    ensures WrappingSub(r.tail, r.head) <= WrappingSub(r.pTail, r.head) <= r.cap - HEADER_SIZE
    ensures r.tail % 4 == 0 && r.pTail % 4 == 0 && r.head % 4 == 0 && r.cHead % 4 == 0
    ensures FreeSpace(r.cap, r.pTail, r.pCachedHead) <= FreeSpace(r.cap, r.pTail, r.head)
  {
    hide Chained, Boundary, Stored, Sentinels, Histories, PowerOfTwo, FreeSpace, Offset, WrappingSub;
    Spread(r, r.released, r.published);
    Spread(r, r.released, |r.log|);
    Spread(r, r.published, |r.log|);
    Spread(r, r.cachedHeadIdx, r.released);
    WrappedDifference(At(r, r.published), At(r, r.released));
    WrappedDifference(End(r), At(r, r.released));
    FreeIsTrue(r, r.cachedHeadIdx);
    FreeIsTrue(r, r.released);
    CursorAligned(r, r.published);
    CursorAligned(r, |r.log|);
    CursorAligned(r, r.released);
    CursorAligned(r, r.passed);
  }

  lemma CursorAligned(r: Ring, i: nat)
    requires Shape(r) && i <= |r.log|
    ensures At(r, i) % TWO_64 % 4 == 0
  {
    hide Chained, Boundary, PowerOfTwo, Offset;
    BoundaryOffset(r, i);
    WrappedAligned(At(r, i));
  }

  /** The byte the producer is about to write, if any. */
  function StoreTarget(s: State): int
    requires s.ring.cap > 0
  {
    if s.pPc.WriteWrap? || s.pPc.WriteEntry? then Offset(s.ring.pTail, s.ring.cap) + s.pPc.i else -1
  }

  /** No store of the producer lands in the space of a record the consumer has not released,
      published or not: no unread byte is ever overwritten, and no byte is written while the
      consumer may be reading it. */
  lemma StoresMissUnread(s: State, j: nat)
    requires Inv(s) && s.ring.released <= j < |s.ring.log|
    ensures var x := s.ring.log[j];
            !(Offset(x.pos, s.ring.cap) <= StoreTarget(s) < Offset(x.pos, s.ring.cap) + SizeOf(s.ring.cap, x))
    ensures StoreTarget(s) < s.ring.cap
  {
    if s.pPc.WriteWrap? || s.pPc.WriteEntry? {
      StoreIsReserved(s);
      MissesRecord(s.ring, s.pPc.i, j);
    }
  }

  lemma StoreIsReserved(s: State)
    requires Inv(s) && (s.pPc.WriteWrap? || s.pPc.WriteEntry?)
    ensures Offset(s.ring.pTail, s.ring.cap) + s.pPc.i < s.ring.cap
    ensures End(s.ring) + s.pPc.i < At(s.ring, s.ring.cachedHeadIdx) + s.ring.cap
  {
    hide Shape, Offset, Boundary, EntryImage, Stored, Sentinels, Histories, Reading, AlignedEntrySize;
    EntrySizeCovers(|s.pPc.data|);
  }

  lemma MissesRecord(r: Ring, i: nat, j: nat)
    requires Sound(r) && r.released <= j < |r.log|
    requires Offset(r.pTail, r.cap) + i < r.cap
    requires End(r) + i < At(r, r.cachedHeadIdx) + r.cap
    ensures var x := r.log[j]; var at := Offset(r.pTail, r.cap) + i;
            !(Offset(x.pos, r.cap) <= at < Offset(x.pos, r.cap) + SizeOf(r.cap, x))
  {
    hide PowerOfTwo, Offset, Sentinels, Histories, AlignedEntrySize, Intact, Boundary, Stored;
    var x := r.log[j];
    var at, off := Offset(r.pTail, r.cap) + i, Offset(x.pos, r.cap);
    assert x.pos == At(r, j);
    BoundaryOffset(r, |r.log|);
    OffsetAdd(End(r), i, r.cap);
    BoundaryMonotone(r.cap, r.log, r.cachedHeadIdx, j);
    BoundaryMonotone(r.cap, r.log, j + 1, |r.log|);
    BoundaryStep(r.cap, r.log, j);
    if off <= at < off + SizeOf(r.cap, x) {
      OffsetAdd(x.pos, at - off, r.cap);
      DistinctSlots(x.pos + (at - off), End(r) + i, r.cap);
    }
  }

  // ---- When try_push succeeds ----

  /** Whether a payload of `n` bytes fits when `used` bytes are taken and the producer stands
      at offset `off`: the entry and a spare header, or, if it does not fit before the end of
      the buffer, also the skipped tail of the buffer. */
  predicate Fits(cap: nat, off: nat, used: nat, n: nat) {
    var size := AlignedEntrySize(n);
    && used + size + HEADER_SIZE <= cap
    && (off + size <= cap || used + (cap - off) + size + HEADER_SIZE <= cap)
  }

  /** Room for the payload given the consumer's position at record boundary `i`. */
  predicate RoomAt(r: Ring, i: nat, n: nat)
    requires Shape(r) && r.cachedHeadIdx <= i <= |r.log|
  {
    BoundaryMonotone(r.cap, r.log, i, |r.log|);
    Fits(r.cap, Offset(End(r), r.cap), End(r) - At(r, i), n)
  }

  predicate StartsWriting(pc: ProducerPc) {
    (pc.WriteWrap? || pc.WriteEntry?) && pc.i == 0
  }

  /** Stale cursors never cost correctness: a push is refused only if the head just loaded
      leaves no room, and it starts writing only if the current head leaves room. */
  lemma PushDecidedBySpace(s: State)
    requires Inv(s) && (s.pPc.Reserve? || s.pPc.LoadHead? || s.pPc.LoadHeadForWrap?)
    requires |s.pPc.data| < WRAP_SENTINEL
    ensures ProducerStep(s).pPc == PushFailed(s.pPc.call, s.pPc.data) ==>
              !RoomAt(s.ring, s.ring.released, |s.pPc.data|)
    ensures StartsWriting(ProducerStep(s).pPc) ==> RoomAt(s.ring, s.ring.released, |s.pPc.data|)
  {
    hide Chained, Boundary, Stored, Sentinels, Histories, PowerOfTwo, FreeSpace, Offset, AlignedEntrySize, Reading;
    var r := s.ring;
    FreeIsTrue(r, r.cachedHeadIdx);
    FreeIsTrue(r, r.released);
    Spread(r, r.cachedHeadIdx, r.released);
    Spread(r, r.released, |r.log|);
    BoundaryOffset(r, |r.log|);
  }

  // ---- The one index that can leave the buffer ----

  /** An entry without payload in the last four bytes of the buffer. */
  predicate EmptyAtEnd(cap: nat, x: Record)
    requires cap > 0
  {
    x.Entry? && x.payload == [] && Offset(x.pos, cap) + HEADER_SIZE == cap
  }

  predicate FacesEmptyAtEnd(r: Ring) {
    r.cap > 0 && r.passed < |r.log| && EmptyAtEnd(r.cap, r.log[r.passed])
  }

  /** Reading the last header byte of an entry panics exactly when the entry is empty and
      sits in the last four bytes. */
  lemma PeekPanicsExactlyAtEnd(s: State)
    requires Inv(s) && (s.cPc.ReadHeader? || s.cPc.ReadWrappedHeader?) && |s.cPc.got| == 3
    ensures ConsumerStep(s).cPc.Panicked? <==> FacesEmptyAtEnd(s.ring)
  {
    hide Shape, Stored, Sentinels, Histories, Writing, Offset, Image, FromLe32, AlignedEntrySize;
    var r := s.ring;
    FacingPlaced(r);
    var x := r.log[r.passed];
    ReadsImage(r, 3);
    assert s.cPc.got + [r.buf[Offset(r.cHead, r.cap) + 3]] == Image(x)[..4];
    HeaderDecodes(x);
    if x.Entry? {
      EntrySizeCovers(|x.payload|);
    }
  }

  /** No other step panics, and no step ever leaves the buffer through a raw pointer. */
  lemma NothingElseFaults(s: State, step: Step)
    requires Inv(s) && Enabled(s, step)
    ensures var s' := Apply(s, step);
            && !s'.pPc.ProducerFault? && !s'.cPc.ConsumerFault?
            && (s'.cPc.Panicked? ==>
                  || s.cPc.Panicked?
                  || (step.Consumer? && (s.cPc.ReadHeader? || s.cPc.ReadWrappedHeader?) && |s.cPc.got| == 3))
  {
    hide Sound, Shape, Offset, ReserveNext, LoadHeadNext, LoadHeadForWrapNext, EntryImage, FromLe32, Boundary,
         AlignedEntrySize;
    StepKeepsInv(s, step);
  }

  predicate NoEmptyPush(steps: seq<Step>) {
    forall i :: 0 <= i < |steps| && (steps[i].CallPush? || steps[i].CallPushBlocking?) ==> steps[i].data != []
  }

  /** A sender that never sends an empty message never crashes its receiver. */
  lemma NonEmptyNeverPanics(cap: nat, states: seq<State>, steps: seq<Step>, i: nat)
    requires IsCapacity(cap) && IsRun(cap, states, steps) && i < |states| && NoEmptyPush(steps)
    ensures !states[i].cPc.Panicked?
  {
    RunKeepsInv(cap, states, steps, i);
    NoEmptyEntries(cap, states, steps, i);
    PanickedOnEmpty(states[i]);
  }

  lemma PanickedOnEmpty(s: State)
    requires Inv(s)
    ensures s.cPc.Panicked? ==>
              exists j :: 0 <= j < |s.ring.log| && s.ring.log[j].Entry? && s.ring.log[j].payload == []
  {
    hide Shape, Sound;
    if s.cPc.Panicked? {
      assert s.ring.log[s.ring.passed].Entry? && s.ring.log[s.ring.passed].payload == [];
    }
  }

  predicate CarriesNonEmpty(s: State) {
    && (forall j :: 0 <= j < |s.ring.log| && s.ring.log[j].Entry? ==> s.ring.log[j].payload != [])
    && (match s.pPc
        case CheckOpen(_, d) => d != []
        case Reserve(_, d) => d != []
        case LoadHead(_, d) => d != []
        case LoadHeadForWrap(_, d) => d != []
        case WriteWrap(_, d, _) => d != []
        case WriteEntry(_, d, _) => d != []
        case CheckOpenAgain(_, d) => d != []
        case LoopTop(d) => d != []
        case Register(d) => d != []
        case SetWaiting(d) => d != []
        case CheckClosed(d) => d != []
        case Park(d) => d != []
        case ClearAndLoop(d) => d != []
        case _ => true)
  }

  lemma {:induction false} NoEmptyEntries(cap: nat, states: seq<State>, steps: seq<Step>, i: nat)
    requires IsRun(cap, states, steps) && i < |states| && NoEmptyPush(steps)
    ensures CarriesNonEmpty(states[i])
  {
    hide Offset, FreeSpace, Contiguous, EntryImage, FromLe32, HandOut, Boundary, AlignedEntrySize;
    if i > 0 {
      NoEmptyEntries(cap, states, steps, i - 1);
      assert Next(states[i - 1], steps[i - 1], states[i]);
    }
  }
}
