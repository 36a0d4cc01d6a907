/** Runs in which an empty message crashes the receiver, on every ring that accepts messages at
    all, so the condition in `PeekPanicsExactlyAtEnd` can be met on all of them. */
module InprocPipeCrash {
  import opened Words
  import opened RingLog
  import opened InprocPipe
  import opened RingInvariant
  import opened InprocPipeInvariant
  import opened InprocPipeTheorems

  ghost predicate Reachable(cap: nat, s: State) {
    exists states: seq<State>, steps: seq<Step> :: IsRun(cap, states, steps) && states[|steps|] == s
  }

  lemma ReachInit(cap: nat)
    ensures Reachable(cap, Init(cap))
  {
    assert IsRun(cap, [Init(cap)], []);
  }

  lemma ReachStep(cap: nat, s: State, step: Step)
    requires Reachable(cap, s) && Usable(s.ring) && Enabled(s, step)
    ensures Reachable(cap, Apply(s, step))
  {
    hide Apply, Enabled;
    var states: seq<State>, steps: seq<Step> :| IsRun(cap, states, steps) && states[|steps|] == s;
    var states', steps' := states + [Apply(s, step)], steps + [step];
    forall i | 0 <= i < |steps'| ensures Next(states'[i], steps'[i], states'[i + 1]) {
      if i < |steps| {
        assert Next(states[i], steps[i], states[i + 1]);
      }
    }
    assert IsRun(cap, states', steps');
  }

  lemma ReachableInv(cap: nat, s: State)
    requires IsCapacity(cap) && Reachable(cap, s)
    ensures Inv(s) && s.ring.cap == cap
  {
    var states: seq<State>, steps: seq<Step> :| IsRun(cap, states, steps) && states[|steps|] == s;
    RunKeepsInv(cap, states, steps, |steps|);
    RunKeepsCap(cap, states, steps, |steps|);
  }

  /** A sender left alone finishes the entry it is writing. */
  lemma {:induction false} WriteOut(cap: nat, s: State) returns (t: State)
    requires IsCapacity(cap) && Reachable(cap, s) && s.pPc.WriteEntry? && s.ring.cap > 0
    requires s.pPc.i <= |EntryImage(s.pPc.data)|
    ensures Reachable(cap, t) && t.pPc == PushDone(s.pPc.call)
    ensures t.flags == s.flags && t.cPc == s.cPc
    ensures t.ring == FinishEntry(s.ring, s.pPc.data).(buf := t.ring.buf)
    decreases |EntryImage(s.pPc.data)| - s.pPc.i
  {
    hide Sound, Shape, Reading, Writing, EntryImage, AlignedEntrySize, Boundary, Offset;
    ReachableInv(cap, s);
    StoreIsReserved(s);
    WritePosition(s);
    ReachStep(cap, s, Producer);
    t := Apply(s, Producer);
    if s.pPc.i + 1 < |EntryImage(s.pPc.data)| {
      t := WriteOut(cap, t);
    }
  }

  lemma WritePosition(s: State)
    requires Inv(s) && s.pPc.WriteEntry?
    ensures s.pPc.i < |EntryImage(s.pPc.data)|
  {
    hide Sound, Shape, EntryImage;
  }

  /** The sender publishes what it has written. */
  lemma FlushOut(cap: nat, s: State) returns (t: State)
    requires IsCapacity(cap) && Reachable(cap, s) && s.pPc == FlushLoadTail(false) && Usable(s.ring)
    ensures Reachable(cap, t) && t.pPc == Ready(Sent)
    ensures t.cPc == s.cPc && t.flags == s.flags.(notified := t.flags.notified)
    ensures t.ring == Publish(s.ring)
  {
    ReachStep(cap, s, Producer);
    var s1 := Apply(s, Producer);
    ReachStep(cap, s1, Producer);
    var s2 := Apply(s1, Producer);
    ReachStep(cap, s2, Producer);
    t := Apply(s2, Producer);
    if t.pPc.Signal? {
      ReachStep(cap, t, Producer);
      t := Apply(t, Producer);
    }
  }

  /** The receiver, left alone, reads the header of the entry in front of it. */
  lemma {:induction false} ReadOut(cap: nat, s: State) returns (t: State)
    requires IsCapacity(cap) && Reachable(cap, s) && s.cPc.ReadHeader? && |s.cPc.got| < 4
    requires s.ring.passed < |s.ring.log| && s.ring.log[s.ring.passed].Entry?
    ensures Reachable(cap, t) && t.pPc == s.pPc && t.flags == s.flags && t.ring == s.ring
    ensures if FacesEmptyAtEnd(s.ring) then t.cPc.Panicked?
            else t.cPc == Peeked(|s.ring.log[s.ring.passed].payload|, [])
    decreases 4 - |s.cPc.got|
  {
    hide Sound, Shape, Writing, Offset, Image, AlignedEntrySize;
    ReachableInv(cap, s);
    var r := s.ring;
    FacingPlaced(r);
    var x := r.log[r.passed];
    ReadsImage(r, |s.cPc.got|);
    assert s.cPc.got + [r.buf[Offset(r.cHead, r.cap) + |s.cPc.got|]] == Image(x)[..|s.cPc.got| + 1];
    ReachStep(cap, s, Consumer);
    t := Apply(s, Consumer);
    if |s.cPc.got| == 3 {
      PeekPanicsExactlyAtEnd(s);
      HeaderDecodes(x);
    } else {
      t := ReadOut(cap, t);
    }
  }

  /** Both threads rest at position `pos` of the first lap and everything has been consumed. */
  predicate Resting(cap: nat, s: State, pos: nat) {
    && cap > 0 && s.ring.cap == cap == |s.ring.buf| && s.pPc.Ready? && s.cPc.Idle? && !s.flags.closed
    && s.ring.pTail == s.ring.tail == s.ring.head == s.ring.cHead == s.ring.cCachedTail == pos
    && s.ring.passed == |s.ring.log|
    && Boundary(cap, s.ring.log, |s.ring.log|) == pos
  }

  /** A position of the first lap at which an entry without payload fits. */
  predicate OnFirstLap(cap: nat, pos: nat) {
    IsCapacity(cap) && cap >= 8 && pos + 4 <= cap
  }

  lemma FirstLap(cap: nat, pos: nat)
    requires OnFirstLap(cap, pos)
    ensures Offset(pos, cap) == pos && WrappingAdd(pos, 4) == pos + 4
    ensures AlignedEntrySize(0) == 4 && FreeSpace(cap, pos, pos) == cap
  {
    hide PowerOfTwo;
  }

  /** An empty message has room at every such position, whatever head was cached. */
  lemma StartEmpty(cap: nat, s: State, pos: nat) returns (t: State)
    requires OnFirstLap(cap, pos) && Reachable(cap, s) && Resting(cap, s, pos)
    ensures Reachable(cap, t) && t.pPc == WriteEntry(NonBlocking, [], 0) && t.cPc.Idle? && t.flags == s.flags
    ensures t.ring == s.ring || t.ring == ReloadHead(s.ring)
  {
    hide Boundary, PowerOfTwo, Reachable, Offset, AlignedEntrySize, FreeSpace;
    FirstLap(cap, pos);
    ReachStep(cap, s, CallPush([]));
    var s1 := Apply(s, CallPush([]));
    ReachStep(cap, s1, Producer);
    var s2 := Apply(s1, Producer);
    ReachStep(cap, s2, Producer);
    t := Apply(s2, Producer);
    if t.pPc.LoadHead? {
      ReachStep(cap, t, Producer);
      t := Apply(t, Producer);
    }
  }

  /** Sending an empty message and looking at it. */
  lemma SendEmpty(cap: nat, s: State, pos: nat) returns (t: State)
    requires OnFirstLap(cap, pos) && Reachable(cap, s) && Resting(cap, s, pos)
    ensures Reachable(cap, t) && t.pPc.Ready? && t.cPc == ReadHeader([]) && !t.flags.closed
    ensures t.ring.cap == cap == |t.ring.buf|
    ensures t.ring.log == s.ring.log + [Entry(pos, [])] && t.ring.passed == |s.ring.log|
    ensures t.ring.pTail == t.ring.tail == t.ring.cCachedTail == pos + 4
    ensures t.ring.head == t.ring.cHead == pos
  {
    hide Boundary, ProducerStep, Inv, EntryImage, Reachable, PowerOfTwo, Offset, AlignedEntrySize, FreeSpace,
         WrappingAdd;
    FirstLap(cap, pos);
    var s1 := StartEmpty(cap, s, pos);
    assert |EntryImage([])| == 4;
    var s2 := WriteOut(cap, s1);
    ReachableUsable(cap, s2);
    var s3 := FlushOut(cap, s2);
    ReachableUsable(cap, s3);
    ReachStep(cap, s3, CallPeek);
    var s4 := Apply(s3, CallPeek);
    ReachStep(cap, s4, Consumer);
    t := Apply(s4, Consumer);
  }

  lemma ReachableUsable(cap: nat, s: State)
    requires IsCapacity(cap) && Reachable(cap, s)
    ensures s.ring.cap == cap && Usable(s.ring)
  {
    hide Shape, Writing, Reading;
    ReachableInv(cap, s);
  }

  /** The receiver consumes the message it has looked at and goes back to rest. */
  lemma ConsumeEmpty(cap: nat, s: State, pos: nat) returns (t: State)
    requires OnFirstLap(cap, pos) && Reachable(cap, s) && s.ring.cap == cap == |s.ring.buf|
    requires s.pPc.Ready? && s.cPc == Peeked(0, []) && !s.flags.closed
    requires s.ring.passed + 1 == |s.ring.log| && s.ring.log[s.ring.passed] == Entry(pos, [])
    requires s.ring.pTail == s.ring.tail == s.ring.cCachedTail == pos + 4 && s.ring.head == s.ring.cHead == pos
    ensures Reachable(cap, t) && Resting(cap, t, pos + 4)
  {
    hide PowerOfTwo, Reachable, Offset, AlignedEntrySize, WrappingAdd;
    FirstLap(cap, pos);
    ReachStep(cap, s, Consumer);
    var s1 := Apply(s, Consumer);
    ReachStep(cap, s1, Consumer);
    var s2 := Apply(s1, Consumer);
    if s2.cPc.Unpark? {
      ReachStep(cap, s2, Consumer);
      s2 := Apply(s2, Consumer);
    }
    ReachStep(cap, s2, Consumer);
    var s3 := Apply(s2, Consumer);
    ReachStep(cap, s3, Consumer);
    t := Apply(s3, Consumer);
  }

  lemma RestingInit(cap: nat)
    requires IsCapacity(cap)
    ensures Reachable(cap, Init(cap)) && Resting(cap, Init(cap), 0)
  {
    CapacityDivides(cap);
    ReachInit(cap);
  }

  lemma EndExactly(cap: nat, r: Ring, pos: nat)
    requires OnFirstLap(cap, pos) && r.cap == cap
    requires r.passed < |r.log| && r.log[r.passed] == Entry(pos, [])
    ensures FacesEmptyAtEnd(r) <==> pos + 4 == cap
  {
    FirstLap(cap, pos);
  }

  /** Empty messages, each consumed before the next, bring both threads to every position. */
  lemma {:induction false} RestAt(cap: nat, pos: nat) returns (s: State)
    requires OnFirstLap(cap, pos) && pos % 4 == 0
    ensures Reachable(cap, s) && Resting(cap, s, pos)
    decreases pos
  {
    hide Boundary, PowerOfTwo, Reachable, Init, FacesEmptyAtEnd;
    if pos == 0 {
      RestingInit(cap);
      s := Init(cap);
    } else {
      var a := RestAt(cap, pos - 4);
      var b := SendEmpty(cap, a, pos - 4);
      EndExactly(cap, b.ring, pos - 4);
      var c := ReadOut(cap, b);
      s := ConsumeEmpty(cap, c, pos - 4);
    }
  }

  /** On every ring of at least eight bytes, an empty message can land in the last four bytes,
      and then the receiver's checked index leaves the buffer. */
  lemma EmptyMessageCrashesReceiver(cap: nat) returns (states: seq<State>, steps: seq<Step>)
    requires IsCapacity(cap) && cap >= 8
    ensures IsRun(cap, states, steps) && states[|steps|].cPc.Panicked?
  {
    hide Boundary, PowerOfTwo, FacesEmptyAtEnd;
    CapacityAligned(cap);
    var a := RestAt(cap, cap - 4);
    var b := SendEmpty(cap, a, cap - 4);
    EndExactly(cap, b.ring, cap - 4);
    var c := ReadOut(cap, b);
    states, steps :| IsRun(cap, states, steps) && states[|steps|] == c;
  }

  /** Only a ring of at least eight bytes ever holds an unread message. */
  lemma UnreadNeedsEight(r: Ring)
    requires Shape(r) && r.passed < |r.log|
    ensures r.cap >= 8
  {
    hide Boundary, Chained, PowerOfTwo;
    Spread(r, r.passed, |r.log|);
    BoundaryMonotone(r.cap, r.log, r.cachedHeadIdx, r.passed);
  }

  lemma PanickedOnUnread(s: State)
    requires Inv(s) && s.cPc.Panicked?
    ensures s.ring.passed < |s.ring.log|
  {
    hide Shape, Sound;
  }

  /** A receiver can be crashed exactly on the rings that can hold a message. */
  lemma CrashPossibleExactly(cap: nat)
    requires IsCapacity(cap)
    ensures (exists s :: Reachable(cap, s) && s.cPc.Panicked?) <==> cap >= 8
  {
    hide PowerOfTwo, Inv, Next;
    if cap >= 8 {
      var states, steps := EmptyMessageCrashesReceiver(cap);
      var s := states[|steps|];
      assert Reachable(cap, s) && s.cPc.Panicked?;
    } else {
      forall s | Reachable(cap, s) ensures !s.cPc.Panicked? {
        ReachableInv(cap, s);
        if s.cPc.Panicked? {
          PanickedOnUnread(s);
          assert Shape(s.ring) by { InvShape(s); }
          UnreadNeedsEight(s.ring);
        }
      }
    }
  }

  lemma InvShape(s: State)
    requires Inv(s)
    ensures Shape(s.ring)
  {
    hide Shape;
  }
}
