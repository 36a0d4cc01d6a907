/** The park/unpark handshake of a blocked sender: no wakeup is lost. */
module InprocPipeWakeup {
  import opened Words
  import opened RingLog
  import opened InprocPipe
  import opened RingInvariant
  import opened InprocPipeInvariant
  import opened InprocPipeTheorems

  /** The sender is inside one round of the `push_blocking` loop with the flag raised. */
  predicate FlagRaised(pc: ProducerPc) {
    || pc.CheckClosed? || pc.Park? || pc.ClearAndFail? || pc.ClearAndLoop? || pc.ClearAndFlush?
    || Armed(pc)
  }

  /** ... and has already seen the pipe open in this round. */
  predicate Armed(pc: ProducerPc) {
    || pc.Park?
    || ((pc.Reserve? || pc.LoadHead? || pc.LoadHeadForWrap? || pc.WriteWrap? || pc.WriteEntry?) && pc.call == Retry)
  }

  /** The receiver has published a new head, or closed the pipe, and will now look at the
      sender's flag. */
  predicate WakePending(pc: ConsumerPc) {
    pc.LoadWaiting? || pc.Unpark?
  }

  predicate WakeInv(s: State)
    requires Shape(s.ring)
  {
    var r, f := s.ring, s.flags;
    && (f.waiting <==> FlagRaised(s.pPc))
    && (s.pPc.CheckOpen? || s.pPc.CheckOpenAgain? ==> s.pPc.call != Retry)
    && (FlagRaised(s.pPc) || s.pPc.SetWaiting? ==> f.registered)
    && (s.pPc.Park? && |s.pPc.data| < WRAP_SENTINEL ==>
          && !RoomAt(r, r.cachedHeadIdx, |s.pPc.data|)
          && (r.released != r.cachedHeadIdx ==> f.token || WakePending(s.cPc)))
    && (Armed(s.pPc) && f.closed ==> f.token || (WakePending(s.cPc) && s.cPc.closing))
  }

  lemma InitWakeInv(cap: nat)
    requires IsCapacity(cap)
    ensures Inv(Init(cap)) && WakeInv(Init(cap))
  {
    InitInv(cap);
  }

  /** Steps that leave the ring alone. */
  lemma PipeProducerKeepsWake(s: State)
    requires Inv(s) && WakeInv(s) && ProducerEnabled(s) && !TouchesRing(s.pPc)
    ensures WakeInv(PipeProducerStep(s))
  {
    hide Sound, Shape, Reading, Writing, RoomAt, FreeSpace, Contiguous, AlignedEntrySize;
  }

  /** Ring steps of the sender keep the flags and stay within the round. */
  lemma RingProducerEffect(s: State)
    requires Usable(s.ring) && TouchesRing(s.pPc)
    ensures var s' := RingProducerStep(s);
            && s'.flags == s.flags && s'.cPc == s.cPc
            && (FlagRaised(s'.pPc) == FlagRaised(s.pPc) || s'.pPc.ProducerFault?)
            && (Armed(s'.pPc) ==> Armed(s.pPc))
            && !s'.pPc.CheckOpen? && !s'.pPc.SetWaiting?
            && (s'.pPc.CheckOpenAgain? ==> s'.pPc.call != Retry)
  {
    hide FreeSpace, Contiguous, AlignedEntrySize, Offset, EntryImage, Boundary;
  }

  lemma NeverFaults(s: State)
    requires Inv(s)
    ensures !s.pPc.ProducerFault?
  {
    hide Sound, Shape;
  }

  /** A refused push parks the sender only with a fresh view of the head. */
  lemma RingProducerKeepsWake(s: State)
    requires Inv(s) && WakeInv(s) && TouchesRing(s.pPc)
    ensures Inv(RingProducerStep(s)) && WakeInv(RingProducerStep(s))
  {
    hide Sound, Shape, Reading, Writing, RoomAt, RingProducerStep, FlagRaised, Armed;
    RingProducerKeeps(s);
    assert !RingProducerStep(s).pPc.ProducerFault? by { NeverFaults(RingProducerStep(s)); }
    RingProducerEffect(s);
    RefusedWithoutRoom(s);
  }

  lemma RefusedWithoutRoom(s: State)
    requires Inv(s) && TouchesRing(s.pPc) && Inv(RingProducerStep(s))
    ensures var s' := RingProducerStep(s);
            s'.pPc.Park? && |s'.pPc.data| < WRAP_SENTINEL ==>
              s'.ring.cachedHeadIdx == s'.ring.released && !RoomAt(s'.ring, s'.ring.cachedHeadIdx, |s'.pPc.data|)
  {
    hide Sound, Reading, RoomAt, FreeSpace, Contiguous, AlignedEntrySize, Offset, EntryImage, Boundary;
    if s.pPc.LoadHead? || s.pPc.LoadHeadForWrap? {
      PushDecidedBySpace(s);
      RoomFrame(s.ring, |s.pPc.data|);
    }
  }

  lemma RoomFrame(r: Ring, n: nat)
    requires Shape(r) && Shape(ReloadHead(r))
    ensures RoomAt(ReloadHead(r), r.released, n) == RoomAt(r, r.released, n)
  {
  }

  /** What a step of the receiver can do to the handshake. */
  lemma ConsumerEffect(s: State)
    requires Usable(s.ring) && ConsumerEnabled(s)
    ensures var s' := ConsumerStep(s);
            && s'.pPc == s.pPc
            && s'.flags.waiting == s.flags.waiting && s'.flags.registered == s.flags.registered
            && (s.flags.token ==> s'.flags.token)
            && (s'.flags.closed != s.flags.closed ==> s'.cPc == LoadWaiting(true))
            && (s'.ring.released != s.ring.released ==> s'.cPc == LoadWaiting(false))
            && (WakePending(s.cPc) && s.flags.waiting && s.flags.registered ==>
                  s'.flags.token || (WakePending(s'.cPc) && s'.cPc.closing == s.cPc.closing))
  {
    hide AlignedEntrySize, Offset, FromLe32, HandOut, Boundary;
  }

  lemma ConsumerKeepsWake(s: State)
    requires Inv(s) && WakeInv(s) && ConsumerEnabled(s)
    ensures Inv(ConsumerStep(s)) && WakeInv(ConsumerStep(s))
  {
    hide Sound, Shape, Reading, Writing, RoomAt, ConsumerStep;
    ConsumerKeeps(s);
    ConsumerEffect(s);
    ConsumerKeepsRoom(s);
  }

  /** The receiver's steps do not change what the sender last saw. */
  lemma ConsumerKeepsRoom(s: State)
    requires Inv(s) && ConsumerEnabled(s) && Shape(ConsumerStep(s).ring)
    ensures var r, r' := s.ring, ConsumerStep(s).ring;
            && r'.cachedHeadIdx == r.cachedHeadIdx
            && forall n: nat :: RoomAt(r', r.cachedHeadIdx, n) == RoomAt(r, r.cachedHeadIdx, n)
  {
    hide Sound, Shape, Fits, FreeSpace, AlignedEntrySize, Offset, FromLe32, HandOut, Boundary;
  }

  lemma CallKeepsWake(s: State, step: Step)
    requires Inv(s) && WakeInv(s) && Enabled(s, step) && !step.Producer? && !step.Consumer?
    requires Shape(Apply(s, step).ring)
    ensures WakeInv(Apply(s, step))
  {
    hide Sound, Shape, Reading, Writing, RoomAt, ConsumerStep, ProducerStep;
  }

  lemma StepKeepsWake(s: State, step: Step)
    requires Inv(s) && WakeInv(s) && Enabled(s, step)
    ensures Inv(Apply(s, step)) && WakeInv(Apply(s, step))
  {
    hide Sound, Shape, Reading, Writing, RoomAt, WakeInv, ConsumerStep, RingProducerStep, PipeProducerStep;
    StepKeepsInv(s, step);
    match step {
      case Producer =>
        if TouchesRing(s.pPc) { RingProducerKeepsWake(s); } else { PipeProducerKeepsWake(s); }
      case Consumer => ConsumerKeepsWake(s);
      case _ => CallKeepsWake(s, step);
    }
  }

  lemma {:induction false} RunKeepsWake(cap: nat, states: seq<State>, steps: seq<Step>, i: nat)
    requires IsCapacity(cap) && IsRun(cap, states, steps) && i < |states|
    ensures Inv(states[i]) && WakeInv(states[i])
  {
    hide Apply;
    if i == 0 {
      InitWakeInv(cap);
    } else {
      RunKeepsWake(cap, states, steps, i - 1);
      assert Next(states[i - 1], steps[i - 1], states[i]);
      StepKeepsWake(states[i - 1], steps[i - 1]);
    }
  }

  /** No lost wakeup: in every state of every run, a sender parked without a token on an
      open pipe either still has no room at the receiver's current position, or the
      receiver is on its way to unpark it. */
  lemma NoLostWakeup(cap: nat, states: seq<State>, steps: seq<Step>, i: nat)
    requires IsCapacity(cap) && IsRun(cap, states, steps) && i < |states|
    requires states[i].pPc.Park? && !states[i].flags.token && !states[i].flags.closed
    requires |states[i].pPc.data| < WRAP_SENTINEL
    ensures Shape(states[i].ring)
    ensures !RoomAt(states[i].ring, states[i].ring.released, |states[i].pPc.data|) || WakePending(states[i].cPc)
  {
    RunKeepsWake(cap, states, steps, i);
  }

  /** Closing always wakes the sender: parked on a closed pipe, it holds a token or the
      closing thread is on its way to hand it one. */
  lemma ClosingWakes(cap: nat, states: seq<State>, steps: seq<Step>, i: nat)
    requires IsCapacity(cap) && IsRun(cap, states, steps) && i < |states|
    requires states[i].pPc.Park? && states[i].flags.closed
    ensures states[i].flags.token || (WakePending(states[i].cPc) && states[i].cPc.closing)
  {
    RunKeepsWake(cap, states, steps, i);
  }

  function ReceiverSteps(steps: seq<Step>): nat {
    if steps == [] then 0
    else ReceiverSteps(steps[..|steps| - 1]) + if steps[|steps| - 1].Consumer? then 1 else 0
  }

  /** How far a pending wakeup is after `n` steps of the receiver. */
  predicate Waking(s: State, n: nat) {
    s.flags.token || (WakePending(s.cPc) && (n == 0 || (n == 1 && s.cPc.Unpark?)))
  }

  lemma WakingStep(s: State, step: Step, n: nat)
    requires Inv(s) && WakeInv(s) && s.pPc.Park? && Waking(s, n) && Enabled(s, step)
    ensures var s' := Apply(s, step);
            s'.pPc.Park? ==> Waking(s', n + if step.Consumer? then 1 else 0)
  {
    hide Sound, Shape, Reading, Writing, RoomAt, Offset, FromLe32, HandOut, Boundary, AlignedEntrySize;
  }

  lemma {:induction false} WakingRun(cap: nat, states: seq<State>, steps: seq<Step>, i: nat, j: nat)
    requires IsCapacity(cap) && IsRun(cap, states, steps) && i <= j < |states|
    requires forall k :: i <= k <= j ==> states[k].pPc.Park?
    requires WakePending(states[i].cPc)
    ensures Waking(states[j], ReceiverSteps(steps[i..j]))
  {
    hide Apply, Inv, WakeInv, Waking, Enabled, WakePending;
    if i == j {
      StillWaking(states[i]);
    } else {
      WakingRun(cap, states, steps, i, j - 1);
      RunKeepsWake(cap, states, steps, j - 1);
      assert Next(states[j - 1], steps[j - 1], states[j]);
      WakingStep(states[j - 1], steps[j - 1], ReceiverSteps(steps[i..j - 1]));
      assert steps[i..j][..j - 1 - i] == steps[i..j - 1];
    }
  }

  lemma StillWaking(s: State)
    requires WakePending(s.cPc)
    ensures Waking(s, 0)
  {
  }

  /** A pending wakeup is delivered by the receiver's next two steps, whatever else happens in
      between: in every run, once the receiver has taken two steps, the sender holds the token
      or has left the park on its own. */
  lemma PendingWakeDelivers(cap: nat, states: seq<State>, steps: seq<Step>, i: nat, j: nat)
    requires IsCapacity(cap) && IsRun(cap, states, steps) && i <= j < |states|
    requires states[i].pPc.Park? && WakePending(states[i].cPc) && ReceiverSteps(steps[i..j]) >= 2
    ensures states[j].flags.token || exists k :: i <= k <= j && !states[k].pPc.Park?
  {
    if forall k :: i <= k <= j ==> states[k].pPc.Park? {
      WakingRun(cap, states, steps, i, j);
    }
  }

  /** The rounds of a woken sender on a closed pipe. */
  predicate Returning(pc: ProducerPc) {
    pc.ClearAndLoop? || pc.LoopTop? || pc == Ready(Eterm)
  }

  lemma ReceiverSparesSender(s: State)
    requires Inv(s) && ConsumerEnabled(s)
    ensures var s' := ConsumerStep(s);
            s'.pPc == s.pPc && s'.ring.pushed == s.ring.pushed && (s.flags.closed ==> s'.flags.closed)
  {
    hide Sound, Shape, Reading, Writing, Offset, FromLe32, HandOut, Boundary, AlignedEntrySize;
  }

  lemma SenderReturns(s: State)
    requires Inv(s) && s.flags.closed && Returning(s.pPc) && ProducerEnabled(s)
    ensures var s' := ProducerStep(s);
            && s'.flags.closed && s'.ring.pushed == s.ring.pushed
            && (s.pPc.ClearAndLoop? ==> s'.pPc.LoopTop?)
            && (s.pPc.LoopTop? ==> s'.pPc == Ready(Eterm))
            && !s.pPc.Ready?
  {
    hide Sound, Shape, Reading, Writing, RingProducerStep;
  }

  /** Once woken on a closed pipe the sender returns ETERM: no step of the receiver moves it
      off that path, each of its own steps goes one station further, and it never writes. */
  lemma ClosedReturnsEterm(s: State, step: Step)
    requires Inv(s) && s.flags.closed && Returning(s.pPc) && Enabled(s, step)
    requires s.pPc.Ready? ==> !step.CallPush? && !step.CallPushBlocking? && !step.CallDrop?
    ensures var s' := Apply(s, step);
            && s'.flags.closed && Returning(s'.pPc)
            && s'.ring.pushed == s.ring.pushed
            && (step.Producer? && s.pPc.ClearAndLoop? ==> s'.pPc.LoopTop?)
            && (step.Producer? && s.pPc.LoopTop? ==> s'.pPc == Ready(Eterm))
            && (!step.Producer? ==> s'.pPc == s.pPc)
  {
    hide Sound, Shape, Reading, Writing, ConsumerStep, ProducerStep;
    match step {
      case Producer => SenderReturns(s);
      case Consumer => ReceiverSparesSender(s);
      case _ =>
    }
  }
}
