/** What the sender's calls return: the meaning of every outcome, in every run, and when the
    receiver is signalled. */
module InprocPipeOutcomes {
  import opened Words
  import opened RingLog
  import opened InprocPipe
  import opened RingInvariant
  import opened InprocPipeInvariant
  import opened InprocPipeTheorems
  import opened InprocPipeWakeup
  import opened InprocPipeSignal

  predicate AllPublished(r: Ring) {
    r.published == |r.log| && r.flushed == |r.pushed|
  }

  /** The pcs at which something may be written and not yet published. */
  predicate MidPush(pc: ProducerPc) {
    pc.WriteEntry? || pc.ClearAndFlush? || pc.FlushLoadTail? || pc.FlushLoadHead? || pc.FlushStore?
  }

  predicate Dropping(pc: ProducerPc) {
    || pc.DropLoadWaiting? || pc.DropUnpark? || pc.Gone?
    || (pc.FlushLoadTail? && pc.final) || (pc.FlushLoadHead? && pc.final) || (pc.FlushStore? && pc.final)
  }

  predicate Closing(pc: ConsumerPc) {
    pc.Closed? || (pc.LoadWaiting? && pc.closing) || (pc.Unpark? && pc.closing)
  }

  /** Between calls everything is published, and closing either half closes the pipe. */
  predicate Tidy(s: State) {
    && (!MidPush(s.pPc) && !s.pPc.ProducerFault? ==> AllPublished(s.ring))
    && (Dropping(s.pPc) || Closing(s.cPc) ==> s.flags.closed)
  }

  lemma ProducerKeepsTidy(s: State)
    requires Usable(s.ring) && ProducerEnabled(s) && Tidy(s)
    ensures Tidy(ProducerStep(s))
  {
    hide Offset, AlignedEntrySize, EntryImage, FreeSpace, Boundary, Contiguous;
  }

  lemma ConsumerKeepsTidy(s: State)
    requires Usable(s.ring) && ConsumerEnabled(s) && Tidy(s)
    ensures Tidy(ConsumerStep(s))
  {
    hide Offset, AlignedEntrySize, FromLe32, Boundary;
  }

  lemma StepKeepsTidy(s: State, step: Step)
    requires Usable(s.ring) && Enabled(s, step) && Tidy(s)
    ensures Tidy(Apply(s, step))
  {
    hide ProducerStep, ConsumerStep;
    match step {
      case Producer => ProducerKeepsTidy(s);
      case Consumer => ConsumerKeepsTidy(s);
      case _ =>
    }
  }

  lemma {:induction false} RunKeepsTidy(cap: nat, states: seq<State>, steps: seq<Step>, i: nat)
    requires IsRun(cap, states, steps) && i < |states|
    ensures Tidy(states[i])
  {
    hide Tidy, Apply, Enabled;
    if i == 0 {
      InitTidy(cap);
    } else {
      RunKeepsTidy(cap, states, steps, i - 1);
      assert Next(states[i - 1], steps[i - 1], states[i]);
      StepKeepsTidy(states[i - 1], steps[i - 1]);
    }
  }

  lemma InitTidy(cap: nat)
    ensures Tidy(Init(cap))
  {
  }

  // ---- One call of the sender ----

  predicate SenderCalls(step: Step) {
    step.CallPush? || step.CallPushBlocking? || step.CallDrop?
  }

  /** A push as it began: `push` or `push_blocking`, its payload, whether the pipe was closed,
      and what had been pushed before. */
  datatype Begun = Begun(blocking: bool, data: Bytes, closed: bool, before: seq<Bytes>)

  predicate Runs(b: Begun, call: Call, data: Bytes) {
    data == b.data && if b.blocking then !call.NonBlocking? else call.NonBlocking?
  }

  /** What is known while the call runs, and of its outcome. */
  predicate During(s: State, b: Begun) {
    var pushed := s.ring.pushed;
    && (b.closed ==> s.flags.closed && (s.pPc.CheckOpen? || s.pPc == Ready(Eterm)))
    && match s.pPc
       case CheckOpen(call, data) => Runs(b, call, data) && !call.Retry? && pushed == b.before
       case Reserve(call, data) => Runs(b, call, data) && pushed == b.before
       case LoadHead(call, data) => Runs(b, call, data) && pushed == b.before
       case LoadHeadForWrap(call, data) => Runs(b, call, data) && pushed == b.before
       case WriteWrap(call, data, _) => Runs(b, call, data) && pushed == b.before
       case WriteEntry(call, data, _) => Runs(b, call, data) && pushed == b.before
       case CheckOpenAgain(call, data) => Runs(b, call, data) && pushed == b.before
       case LoopTop(data) => b.blocking && data == b.data && pushed == b.before
       case Register(data) => b.blocking && data == b.data && pushed == b.before
       case SetWaiting(data) => b.blocking && data == b.data && pushed == b.before
       case CheckClosed(data) => b.blocking && data == b.data && pushed == b.before
       case Park(data) => b.blocking && data == b.data && pushed == b.before
       case ClearAndLoop(data) => b.blocking && data == b.data && pushed == b.before
       case ClearAndFail => b.blocking && s.flags.closed && pushed == b.before
       case ClearAndFlush => b.blocking && pushed == b.before + [b.data]
       case FlushLoadTail(final) => !final && pushed == b.before + [b.data]
       case FlushLoadHead(final, _) => !final && pushed == b.before + [b.data]
       case FlushStore(final, _, _) => !final && pushed == b.before + [b.data]
       case Signal => pushed == b.before + [b.data]
       case Ready(Sent) => pushed == b.before + [b.data]
       case Ready(Eagain) => !b.blocking && pushed == b.before
       case Ready(Eterm) => s.flags.closed && pushed == b.before
       case ProducerFault => true
       case _ => false
  }

  lemma CallBegins(s: State, step: Step)
    requires Usable(s.ring) && Enabled(s, step) && (step.CallPush? || step.CallPushBlocking?)
    ensures During(Apply(s, step), Begun(step.CallPushBlocking?, step.data, s.flags.closed, s.ring.pushed))
  {
  }

  lemma RingStepKeepsDuring(s: State, b: Begun)
    requires Usable(s.ring) && TouchesRing(s.pPc) && During(s, b)
    ensures During(RingProducerStep(s), b)
  {
    hide Offset, AlignedEntrySize, EntryImage, FreeSpace, Boundary, Contiguous;
  }

  lemma PipeStepKeepsDuring(s: State, b: Begun)
    requires Usable(s.ring) && ProducerEnabled(s) && !TouchesRing(s.pPc) && During(s, b)
    requires s.pPc.CheckOpenAgain? ==> !s.pPc.call.Retry?
    ensures During(PipeProducerStep(s), b)
  {
    hide AlignedEntrySize, FreeSpace, Contiguous;
  }

  lemma ConsumerKeepsDuring(s: State, b: Begun)
    requires Usable(s.ring) && ConsumerEnabled(s) && During(s, b)
    ensures During(ConsumerStep(s), b)
  {
    hide During, Offset, AlignedEntrySize, FromLe32, HandOut, Boundary;
    var s' := ConsumerStep(s);
    assert s'.pPc == s.pPc && s'.ring.pushed == s.ring.pushed && (s.flags.closed ==> s'.flags.closed);
    SameDuring(s, s', b);
  }

  lemma SameDuring(s: State, s': State, b: Begun)
    requires s'.pPc == s.pPc && s'.ring.pushed == s.ring.pushed && (s.flags.closed ==> s'.flags.closed)
    requires During(s, b)
    ensures During(s', b)
  {
  }

  lemma StepKeepsDuring(s: State, step: Step, b: Begun)
    requires Inv(s) && WakeInv(s) && Enabled(s, step) && During(s, b) && !SenderCalls(step)
    ensures During(Apply(s, step), b)
  {
    hide Sound, Shape, Reading, Writing, RoomAt, During, ConsumerStep, RingProducerStep, PipeProducerStep;
    match step {
      case Producer =>
        if TouchesRing(s.pPc) { RingStepKeepsDuring(s, b); } else { PipeStepKeepsDuring(s, b); }
      case Consumer => ConsumerKeepsDuring(s, b);
      case SpuriousWake => WakeKeepsDuring(s, b);
      case CallPeek => SameDuring(s, Apply(s, step), b);
      case CallClose => SameDuring(s, Apply(s, step), b);
      case _ =>
    }
  }

  lemma WakeKeepsDuring(s: State, b: Begun)
    requires During(s, b) && s.pPc.Park?
    ensures During(s.(pPc := ClearAndLoop(s.pPc.data)), b)
  {
  }

  lemma {:induction false} RunKeepsDuring(cap: nat, states: seq<State>, steps: seq<Step>, j: nat, i: nat)
    requires IsCapacity(cap) && IsRun(cap, states, steps) && j < i < |states|
    requires steps[j].CallPush? || steps[j].CallPushBlocking?
    requires forall k :: j < k < i ==> !SenderCalls(steps[k])
    ensures var b := Begun(steps[j].CallPushBlocking?, steps[j].data, states[j].flags.closed, states[j].ring.pushed);
            During(states[i], b)
  {
    hide During, Apply, Enabled, Inv, WakeInv, SenderCalls;
    var b := Begun(steps[j].CallPushBlocking?, steps[j].data, states[j].flags.closed, states[j].ring.pushed);
    assert Next(states[i - 1], steps[i - 1], states[i]);
    if i == j + 1 {
      CallBegins(states[j], steps[j]);
    } else {
      RunKeepsDuring(cap, states, steps, j, i - 1);
      RunKeepsWake(cap, states, steps, i - 1);
      StepKeepsDuring(states[i - 1], steps[i - 1], b);
    }
  }

  /** What a push means, in every run. While it runs `push` never parks. Once it has returned,
      everything pushed is published. Success means that its payload, and nothing else, was
      pushed. ETERM means that the pipe is closed and EAGAIN, which only `push` returns, that
      nothing was pushed; a call on a closed pipe returns ETERM. */
  lemma PushMeans(cap: nat, states: seq<State>, steps: seq<Step>, j: nat, i: nat)
    requires IsCapacity(cap) && IsRun(cap, states, steps) && j < i < |states|
    requires steps[j].CallPush? || steps[j].CallPushBlocking?
    requires forall k :: j < k < i ==> !SenderCalls(steps[k])
    ensures steps[j].CallPush? ==> !states[i].pPc.Park?
    ensures states[i].pPc.Ready? ==>
              var before, r, last := states[j].ring.pushed, states[i].ring, states[i].pPc.last;
              && r.published == |r.log| && r.flushed == |r.pushed|
              && (last == Sent || last == Eagain || last == Eterm)
              && r.pushed == (if last == Sent then before + [steps[j].data] else before)
              && (last == Eagain ==> steps[j].CallPush?)
              && (last == Eterm ==> states[i].flags.closed)
              && (states[j].flags.closed ==> last == Eterm)
  {
    hide Inv;
    RunKeepsDuring(cap, states, steps, j, i);
    RunKeepsTidy(cap, states, steps, i);
  }

  /** In every run, a half that is gone has closed the pipe, and a sender that is gone has
      published everything it pushed. */
  lemma GoneMeans(cap: nat, states: seq<State>, steps: seq<Step>, i: nat)
    requires IsRun(cap, states, steps) && i < |states|
    ensures states[i].pPc.Gone? ==> states[i].flags.closed && states[i].ring.flushed == |states[i].ring.pushed|
    ensures states[i].cPc.Closed? ==> states[i].flags.closed
  {
    RunKeepsTidy(cap, states, steps, i);
  }

  /** A sender that is dropped looks for a waiting thread to unpark, flushes, and only then is
      gone. */
  lemma DropFlushes(s: State)
    requires Usable(s.ring) && ProducerEnabled(s)
    ensures ProducerStep(s).pPc.Gone? ==> s.pPc.FlushStore? && s.pPc.final
    ensures s.pPc.DropLoadWaiting? ==>
              ProducerStep(s).pPc == if s.flags.waiting then DropUnpark else FlushLoadTail(true)
    ensures s.pPc.DropUnpark? ==>
              ProducerStep(s).pPc == FlushLoadTail(true) && (s.flags.registered ==> ProducerStep(s).flags.token)
  {
    hide Offset, AlignedEntrySize, EntryImage, FreeSpace, Boundary, Contiguous;
  }

  /** Whichever half closes the pipe first raises the receiver's event. */
  lemma ClosingNotifies(s: State)
    requires Usable(s.ring)
    ensures s.pPc.DropClose? ==>
              var f := ProducerStep(s).flags; f.closed && (s.flags.closed || f.notified)
    ensures s.cPc.CloseSwap? ==>
              var f := ConsumerStep(s).flags; f.closed && (s.flags.closed || f.notified)
  {
  }

  // ---- The signal ----

  /** Without a step of its own a sender in the middle of a call stays where it is. */
  lemma {:induction false} SenderWaits(cap: nat, states: seq<State>, steps: seq<Step>, i: nat, k: nat)
    requires IsRun(cap, states, steps) && i <= k < |states|
    requires !states[i].pPc.Ready? && !states[i].pPc.Park?
    requires forall n :: i <= n < k ==> !steps[n].Producer?
    ensures states[k].pPc == states[i].pPc
    decreases k
  {
    hide Offset, AlignedEntrySize, FromLe32, HandOut, Boundary, ProducerStep;
    if i < k {
      SenderWaits(cap, states, steps, i, k - 1);
      assert Next(states[k - 1], steps[k - 1], states[k]);
    }
  }

  /** In every run: let the sender's load of the head during a flush be step `i`, its next own
      step `k` and the one after that `m`. Step `k` publishes. It goes on to signal exactly when
      at step `i` the receiver had released everything published before, and then step `m`
      raises the receiver's event and the call returns. */
  lemma SignalledExactly(cap: nat, states: seq<State>, steps: seq<Step>, i: nat, k: nat, m: nat)
    requires IsCapacity(cap) && IsRun(cap, states, steps) && i < k < m < |steps|
    requires states[i].pPc.FlushLoadHead? && !states[i].pPc.final
    requires steps[i].Producer? && steps[k].Producer? && steps[m].Producer?
    requires forall n :: i < n < m && n != k ==> !steps[n].Producer?
    ensures states[k + 1].ring.published == |states[k + 1].ring.log|
    ensures states[i].ring.released == states[i].ring.published ==>
              states[k + 1].pPc.Signal? && states[m + 1].flags.notified && states[m + 1].pPc == Ready(Sent)
    ensures states[i].ring.released != states[i].ring.published ==> states[k + 1].pPc == Ready(Sent)
  {
    hide Inv, ConsumerStep;
    SignalDecidedAtLoad(cap, states, steps, i);
    assert Next(states[i], steps[i], states[i + 1]);
    assert Next(states[k], steps[k], states[k + 1]);
    assert Next(states[m], steps[m], states[m + 1]);
    SenderWaits(cap, states, steps, i + 1, k);
    if states[k + 1].pPc.Signal? {
      SenderWaits(cap, states, steps, k + 1, m);
    }
  }

  /** The event is cleared only after the receiver has found everything published released. */
  lemma ClearedOnlyWhenDrained(s: State)
    requires Inv(s) && s.cPc.CheckEmpty?
    ensures ConsumerStep(s).cPc == if s.ring.passed == s.ring.published then DrainNotify else Idle
  {
    hide Stored, Sentinels, Histories, Writing, Reading, Boundary, Chained, PowerOfTwo;
    CursorEquality(s.ring, s.ring.passed, s.ring.published);
  }
}
