/** When a flush signals the receiver. The decision is made on a head loaded before the tail
    is stored, so a receiver that drains the ring in between is not signalled. */
module InprocPipeSignal {
  import opened Words
  import opened RingLog
  import opened InprocPipe
  import opened RingInvariant
  import opened InprocPipeInvariant
  import opened InprocPipeTheorems
  import opened InprocPipeCrash

  /** Only the sender stores the tail, so during a flush it is what the flush loaded. */
  predicate FlushSawTail(s: State) {
    && (s.pPc.FlushLoadHead? ==> s.pPc.prevTail == s.ring.tail)
    && (s.pPc.FlushStore? ==> s.pPc.prevTail == s.ring.tail)
  }

  lemma StepKeepsTailSeen(s: State, step: Step)
    requires FlushSawTail(s) && Usable(s.ring) && Enabled(s, step)
    ensures FlushSawTail(Apply(s, step))
  {
    hide Offset, AlignedEntrySize, EntryImage, FreeSpace, Boundary, FromLe32, Contiguous;
  }

  lemma {:induction false} RunKeepsTailSeen(cap: nat, states: seq<State>, steps: seq<Step>, i: nat)
    requires IsRun(cap, states, steps) && i < |states|
    ensures FlushSawTail(states[i])
  {
    hide FlushSawTail, Apply, Enabled;
    if i == 0 {
      InitTailSeen(cap);
    } else {
      RunKeepsTailSeen(cap, states, steps, i - 1);
      assert Next(states[i - 1], steps[i - 1], states[i]);
      StepKeepsTailSeen(states[i - 1], steps[i - 1]);
    }
  }

  lemma InitTailSeen(cap: nat)
    ensures FlushSawTail(Init(cap))
  {
  }

  /** In every run, a flush that loads the head decides to signal exactly when the receiver
      has at that moment released everything published so far. */
  lemma SignalDecidedAtLoad(cap: nat, states: seq<State>, steps: seq<Step>, i: nat)
    requires IsCapacity(cap) && IsRun(cap, states, steps) && i < |states| && states[i].pPc.FlushLoadHead?
    ensures var s := states[i];
            var r := s.ring;
            FlushNext(false, s.pPc.prevTail, r.head).Signal? <==> r.released == r.published
  {
    hide Stored, Sentinels, Histories, Writing, Reading, Boundary, Chained, PowerOfTwo, IsRun;
    RunKeepsTailSeen(cap, states, steps, i);
    RunKeepsInv(cap, states, steps, i);
    var r := states[i].ring;
    CursorEquality(r, r.released, r.published);
  }

  // ---- A run in which the signal is missing ----

  /** A ring that can hold two messages, and a position for one of them. */
  predicate RoomForTwo(cap: nat, pos: nat) {
    IsCapacity(cap) && cap >= 16 && (pos == 0 || pos == 4)
  }

  lemma FirstTwo(cap: nat, pos: nat)
    requires RoomForTwo(cap, pos)
    ensures Offset(pos, cap) == pos && WrappingAdd(pos, 4) == pos + 4
    ensures AlignedEntrySize(0) == 4 && FreeSpace(cap, pos, 0) == cap - pos
  {
    hide PowerOfTwo;
  }

  /** The sender has chosen a place for an empty message. */
  lemma PlaceEmpty(cap: nat, s: State, pos: nat) returns (t: State)
    requires RoomForTwo(cap, pos) && Reachable(cap, s) && s.ring.cap == cap == |s.ring.buf|
    requires s.pPc.Ready? && !s.flags.closed && s.ring.pTail == pos && s.ring.pCachedHead == 0
    ensures Reachable(cap, t) && t == s.(pPc := WriteEntry(NonBlocking, [], 0))
  {
    hide Reachable, PowerOfTwo, Offset, AlignedEntrySize, FreeSpace;
    FirstTwo(cap, pos);
    ReachStep(cap, s, CallPush([]));
    var s1 := Apply(s, CallPush([]));
    ReachStep(cap, s1, Producer);
    var s2 := Apply(s1, Producer);
    ReachStep(cap, s2, Producer);
    t := Apply(s2, Producer);
  }

  lemma WriteEmpty(cap: nat, s: State, pos: nat) returns (t: State)
    requires RoomForTwo(cap, pos) && Reachable(cap, s) && s.pPc.Ready? && !s.flags.closed
    requires s.ring.pTail == pos && s.ring.pCachedHead == 0
    ensures Reachable(cap, t) && t.pPc == FlushLoadTail(false) && t.flags == s.flags && t.cPc == s.cPc
    ensures s.ring.cap == cap > 0 && t.ring == FinishEntry(s.ring, []).(buf := t.ring.buf)
    ensures Usable(t.ring) && t.ring.pTail == pos + 4
  {
    hide Boundary, ProducerStep, Inv, EntryImage, Offset, Reachable, PowerOfTwo, AlignedEntrySize, WrappingAdd;
    FirstTwo(cap, pos);
    ReachableUsable(cap, s);
    var s1 := PlaceEmpty(cap, s, pos);
    assert |EntryImage([])| == 4;
    t := WriteOut(cap, s1);
    ReachableUsable(cap, t);
  }

  /** The sender has loaded tail and head and is about to store the tail. */
  lemma LoadForFlush(cap: nat, s: State) returns (t: State)
    requires Reachable(cap, s) && Usable(s.ring) && s.pPc == FlushLoadTail(false)
    ensures Reachable(cap, t) && t == s.(pPc := FlushStore(false, s.ring.tail, s.ring.head))
  {
    hide Reachable;
    ReachStep(cap, s, Producer);
    var s1 := Apply(s, Producer);
    ReachStep(cap, s1, Producer);
    t := Apply(s1, Producer);
  }

  /** The receiver takes the entry it has looked at, finds the ring drained, clears its event
      and goes back to rest. */
  lemma DrainAndRest(cap: nat, s: State) returns (t: State)
    requires Reachable(cap, s) && Usable(s.ring) && s.cPc == Peeked(0, []) && !s.flags.waiting
    requires WrappingAdd(s.ring.cHead, AlignedEntrySize(0)) == s.ring.tail
    ensures Reachable(cap, t) && t.pPc == s.pPc && t.cPc.Idle? && !t.flags.notified && Usable(t.ring)
    ensures t.ring == Release(s.ring, [])
  {
    hide Offset, AlignedEntrySize, WrappingAdd, Reachable;
    ReachStep(cap, s, Consumer);
    var s1 := Apply(s, Consumer);
    ReachStep(cap, s1, Consumer);
    var s2 := Apply(s1, Consumer);
    ReachStep(cap, s2, Consumer);
    var s3 := Apply(s2, Consumer);
    ReachStep(cap, s3, Consumer);
    t := Apply(s3, Consumer);
  }

  /** The receiver starts to look at the first entry. */
  lemma StartPeek(cap: nat, s: State) returns (t: State)
    requires Reachable(cap, s) && Usable(s.ring) && s.cPc.Idle?
    requires s.ring.cHead == s.ring.cCachedTail != s.ring.tail
    ensures Reachable(cap, t) && t == s.(ring := ReloadTail(s.ring), cPc := ReadHeader([]))
  {
    hide Reachable;
    ReachStep(cap, s, CallPeek);
    var s1 := Apply(s, CallPeek);
    ReachStep(cap, s1, Consumer);
    t := Apply(s1, Consumer);
  }

  /** One message published and the flush of a second one past its loads. */
  predicate MidFlush(s: State) {
    && s.pPc == FlushStore(false, 4, 0) && s.cPc.Idle? && !s.flags.waiting && !s.flags.closed
    && s.ring.tail == 4 && s.ring.cHead == s.ring.cCachedTail == s.ring.passed == s.ring.released == 0
    && s.ring.published == 1 && |s.ring.log| == 2 && s.ring.log[0] == Entry(0, [])
  }

  lemma PublishOne(cap: nat) returns (t: State)
    requires RoomForTwo(cap, 0)
    ensures Reachable(cap, t) && t.pPc == Ready(Sent) && t.cPc.Idle?
    ensures !t.flags.waiting && !t.flags.closed && Usable(t.ring)
    ensures t.ring == Publish(FinishEntry(Init(cap).ring, [])).(buf := t.ring.buf) && t.ring.pTail == 4
  {
    hide Boundary, ProducerStep, Inv, EntryImage, Offset, FinishEntry, Reachable, PowerOfTwo;
    ReachInit(cap);
    var a := WriteEmpty(cap, Init(cap), 0);
    FinishFields(Init(cap).ring);
    t := FlushOut(cap, a);
    ReachableUsable(cap, t);
  }

  lemma ReachMidFlush(cap: nat) returns (t: State)
    requires RoomForTwo(cap, 0)
    ensures Reachable(cap, t) && Usable(t.ring) && MidFlush(t)
  {
    hide ProducerStep, Inv, EntryImage, Offset, FinishEntry, WrappingAdd, Reachable, PowerOfTwo;
    var b := PublishOne(cap);
    FinishFields(Init(cap).ring);
    FinishFields(b.ring);
    var c := WriteEmpty(cap, b, 4);
    t := LoadForFlush(cap, c);
  }

  /** On every ring that can hold two messages: a state of some run in which the receiver
      rests, its event is clear, the sender has returned, and yet a published message waits. */
  lemma SignalCanBeMissing(cap: nat) returns (s: State)
    requires IsCapacity(cap) && cap >= 16
    ensures Reachable(cap, s) && s.pPc == Ready(Sent) && s.cPc.Idle? && !s.flags.notified
    ensures s.ring.released < s.ring.published
  {
    hide Boundary, ProducerStep, Inv, EntryImage, Offset, FinishEntry, FromLe32, Reachable, PowerOfTwo;
    var d := ReachMidFlush(cap);
    var e := StartPeek(cap, d);
    ReachableUsable(cap, e);
    FirstIsEmpty(e.ring);
    var f := ReadOut(cap, e);
    assert AlignedEntrySize(0) == 4;
    var g := DrainAndRest(cap, f);
    s := StoreTail(cap, g);
  }

  lemma StoreTail(cap: nat, s: State) returns (t: State)
    requires Reachable(cap, s) && Usable(s.ring) && s.pPc == FlushStore(false, 4, 0)
    ensures Reachable(cap, t) && t == s.(ring := Publish(s.ring), pPc := Ready(Sent))
  {
    ReachStep(cap, s, Producer);
    t := Apply(s, Producer);
  }

  lemma FinishFields(r: Ring)
    requires r.cap > 0
    ensures var r' := FinishEntry(r, []);
            && r'.log == r.log + [Entry(Boundary(r.cap, r.log, |r.log|), [])]
            && r' == r.(pTail := r'.pTail, log := r'.log, pushed := r'.pushed)
  {
  }

  lemma FirstIsEmpty(r: Ring)
    requires |r.log| == 2 && r.cap >= 16 && r.passed == 0 && r.log[0] == Entry(0, [])
    ensures !FacesEmptyAtEnd(r)
  {
  }
}
