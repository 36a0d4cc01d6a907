/** What the Go side's calls return: the meaning of every outcome, in every run, and exactly
    which bodies `trySend` accepts. */
module SendRingOutcomes {
  import opened Words
  import opened Options
  import opened SendRing
  import opened SendRingInvariant
  import opened GoSendRing

  // ---- Room for a body ----

  /** Where a body of the given length would end: after the last one, with padding if it does
      not fit before the end of the payload ring. */
  function NextEnd(r: Ring, length: nat): nat
    requires r.pcap > 0
  {
    var last := EndAt(r.sent, |r.sent|);
    var off := Offset(last, r.pcap);
    last + length + if off + length > r.pcap then r.pcap - off else 0
  }

  /** Whether the body fits behind everything released so far. */
  predicate HasRoom(r: Ring, length: nat)
    requires r.pcap > 0 && r.headIdx <= |r.sent|
  {
    NextEnd(r, length) <= EndAt(r.sent, r.headIdx) + r.pcap
  }

  /** A reservation is refused exactly when it would end more than a ring beyond the reclaimed
      position. */
  lemma ReserveExactly(r: Ring, lock: LockPc, body: Bytes)
    requires Sound(r, lock) && Settled(r) && |body| < r.pcap
    ensures ReservePayload(r.p, r.pcap, |body|).None? <==> NextEnd(r, |body|) > PayloadHead(r) + r.pcap
  {
    hide Offset, PowerOfTwo, DescsHold, BodiesHold, FlagsHold, SlicesHold, EndAt, Capacities;
    EndMonotone(r.pcap, r.sent, r.reclaimedIdx, |r.sent|);
    if body != [] {
      hide ReservePayload;
      ReserveIsTrue(r, body);
    }
  }

  /** A reservation made after reclaiming is refused exactly when the body has no room. */
  lemma ReclaimedExactly(r: Ring, lock: LockPc, body: Bytes)
    requires Sound(r, lock) && Settled(r) && |r.sent| < r.headIdx + r.dcap && |body| < r.pcap
    requires r.headIdx - r.reclaimedIdx < TWO_64
    ensures ReservePayload(ReclaimConsumed(r).p, r.pcap, |body|).None? <==> !HasRoom(r, |body|)
  {
    hide Offset, PowerOfTwo, DescsHold, BodiesHold, FlagsHold, SlicesHold, EndAt, Capacities, ReservePayload, Reclaim;
    ReclaimKeeps(r, lock);
    ReclaimedHead(r, lock);
    ReserveExactly(ReclaimConsumed(r), lock, body);
  }

  lemma ReclaimFacts(s: State)
    requires Inv(s) && (s.pc.Reserve? || s.pc.ReclaimForSend?)
    ensures Sound(s.ring, s.lock) && Settled(s.ring) && |s.pc.body| < s.ring.pcap
    ensures |s.ring.sent| < s.ring.headIdx + s.ring.dcap
  {
    hide Offset, Sound, EndAt;
  }

  /** The first refusal is never final, and the second one means that at the head just loaded
      there is no room for the body; with room the send goes on. */
  lemma RefusedExactly(s: State)
    requires Inv(s) && (s.pc.Reserve? || s.pc.ReclaimForSend?)
    requires s.ring.headIdx - s.ring.reclaimedIdx < TWO_64
    ensures s.pc.Reserve? ==> !GoStep(s).pc.Ready?
    ensures s.pc.ReclaimForSend? ==>
              && (GoStep(s).pc == Ready(Again) <==> !HasRoom(s.ring, |s.pc.body|))
              && (!GoStep(s).pc.Ready? <==> HasRoom(s.ring, |s.pc.body|))
  {
    hide Offset, Sound, EndAt, ReservePayload, HasRoom;
    ReclaimFacts(s);
    if s.pc.ReclaimForSend? {
      ReclaimedExactly(s.ring, s.lock, s.pc.body);
    }
  }

  /** In every run, a `trySend` gives up for lack of payload room only if its body, padding
      included, would end more than a ring beyond what is released at that very step. */
  lemma AgainOnlyWithoutRoom(dcap: nat, pcap: nat, states: seq<State>, steps: seq<Step>, i: nat)
    requires Capacities(dcap, pcap) && IsRun(dcap, pcap, states, steps) && i < |steps| && steps[i].Go?
    requires states[i].pc.Reserve? || states[i].pc.ReclaimForSend?
    requires states[i + 1].pc == Ready(Again) && states[i].ring.headIdx - states[i].ring.reclaimedIdx < TWO_64
    ensures var r := states[i].ring;
            && r.pcap > 0 && r.headIdx <= |r.sent|
            && NextEnd(r, |states[i].pc.body|) > EndAt(r.sent, r.headIdx) + r.pcap
  {
    hide Sound, Producing, Attended, Capacities, NextEnd, EndAt, GoStep;
    assert Next(states[i], steps[i], states[i + 1]);
    RunKeepsInv(dcap, pcap, states, steps, i);
    RefusedExactly(states[i]);
  }

  /** A reservation that succeeds before reclaiming succeeds within the released room. */
  lemma RoomBeforeReclaim(r: Ring, lock: LockPc, body: Bytes)
    requires Sound(r, lock) && Settled(r) && |body| < r.pcap
    ensures ReservePayload(r.p, r.pcap, |body|).Some? ==> HasRoom(r, |body|)
  {
    hide Offset, PowerOfTwo, DescsHold, BodiesHold, FlagsHold, SlicesHold, EndAt, Capacities, ReservePayload;
    ReserveExactly(r, lock, body);
    EndMonotone(r.pcap, r.sent, r.reclaimedIdx, r.headIdx);
  }

  lemma SoloReserveExactly(s: State)
    requires Inv(s) && s.pc.Reserve? && s.ring.headIdx - s.ring.reclaimedIdx < TWO_64
    ensures Solo(s).pc == Ready(if HasRoom(s.ring, |s.pc.body|) then Accepted else Again)
  {
    hide Offset, Sound, EndAt, ReservePayload, HasRoom, Commit, Solo, Reclaim;
    ReclaimFacts(s);
    SoloReserve(s);
    RoomBeforeReclaim(s.ring, s.lock, s.pc.body);
    ReclaimedExactly(s.ring, s.lock, s.pc.body);
  }

  /** A `trySend` that no other thread interrupts, on an open ring: it is accepted exactly when
      a slot is free and the body has room behind everything released, reclaimed or not. */
  lemma AcceptedExactly(s: State)
    requires Inv(s) && s.pc.CheckClosed? && s.ring.headIdx - s.ring.reclaimedIdx < TWO_64
    ensures Solo(s).pc ==
              if s.closed then Ready(ClosedError)
              else if |s.ring.sent| < s.ring.headIdx + s.ring.dcap && HasRoom(s.ring, |s.pc.body|) then Ready(Accepted)
              else Ready(Again)
  {
    hide Offset, Sound, EndAt, HasRoom, AfterReserve, CopyStep, ReclaimConsumed, StartOf, LooksFull;
    var s1 := GoStep(s);
    GoKeeps(s);
    if s1.pc.LoadHeadWhenFull? {
      var s2 := GoStep(s1);
      GoKeeps(s1);
      ReloadKeeps(s1.ring, s1.lock);
      assert Solo(s) == Solo(s1) == Solo(s2);
      if s2.pc.Reserve? {
        SoloReserveExactly(s2);
        SameRoom(s.ring, s2.ring, |s.pc.body|);
      }
    } else if s1.pc.Reserve? {
      ReclaimFacts(s1);
      SoloReserveExactly(s1);
      assert Solo(s) == Solo(s1);
    }
  }

  lemma SameRoom(r: Ring, r': Ring, length: nat)
    requires r.pcap == r'.pcap > 0 && r.sent == r'.sent && r.headIdx == r'.headIdx <= |r.sent|
    ensures HasRoom(r, length) == HasRoom(r', length)
  {
  }

  /** Once everything sent has been released, every body of at most half the payload ring is
      accepted, whatever has been reclaimed. */
  lemma HalfAcceptedWhenReleased(s: State)
    requires Inv(s) && s.pc.CheckClosed? && !s.closed && s.ring.headIdx - s.ring.reclaimedIdx < TWO_64
    requires s.ring.headIdx == |s.ring.sent| && |s.pc.body| <= s.ring.pcap / 2
    ensures Solo(s).pc == Ready(Accepted)
  {
    hide Offset, Sound, EndAt, Solo, Producing;
    AcceptedExactly(s);
  }

  // ---- One call of the Go side ----

  /** Between calls everything sent is published. */
  predicate Tidy(s: State) {
    !s.pc.StoreTail? && !s.pc.GoFault? ==> s.ring.published == |s.ring.sent|
  }

  lemma {:induction false} RunKeepsTidy(dcap: nat, pcap: nat, states: seq<State>, steps: seq<Step>, i: nat)
    requires IsRun(dcap, pcap, states, steps) && i < |states|
    ensures Tidy(states[i])
  {
    hide Offset, ReservePayload, ReclaimLoop, LooksFull, StartOf;
    if i > 0 {
      RunKeepsTidy(dcap, pcap, states, steps, i - 1);
      assert Next(states[i - 1], steps[i - 1], states[i]);
    }
  }

  predicate GoCalls(step: Step) {
    step.CallTrySend? || step.CallDrain?
  }

  /** A `trySend` as it began. */
  datatype Begun = Begun(body: Bytes, closed: bool, before: seq<Sent>)

  predicate Grown(before: seq<Sent>, sent: seq<Sent>, body: Bytes) {
    |sent| == |before| + 1 && sent[..|before|] == before && sent[|before|].body == body
  }

  /** What is known while the call runs, and of its outcome. */
  predicate During(s: State, b: Begun) {
    var sent, fits := s.ring.sent, |b.body| < s.ring.pcap;
    && (b.closed ==> s.closed && (fits ==> s.pc.CheckClosed? || s.pc == Ready(ClosedError)))
    && match s.pc
       case CheckClosed(body) => fits && body == b.body && sent == b.before
       case LoadHeadWhenFull(body) => fits && body == b.body && sent == b.before
       case Reserve(body) => fits && body == b.body && sent == b.before
       case ReclaimForSend(body) => fits && body == b.body && sent == b.before
       case Copy(body, _, _) => fits && body == b.body && sent == b.before
       case WriteDesc(body, _) => fits && body == b.body && sent == b.before
       case StoreTail => fits && Grown(b.before, sent, b.body)
       case DrainLoad(after) => !fits && after == NotHandled && sent == b.before
       case DrainCheckClosed(after) => !fits && after == NotHandled && sent == b.before
       case ReclaimAfterDrain(after) => !fits && after == NotHandled && sent == b.before
       case Ready(Accepted) => fits && Grown(b.before, sent, b.body)
       case Ready(Again) => fits && sent == b.before
       case Ready(ClosedError) => s.closed && sent == b.before
       case Ready(NotHandled) => !fits && sent == b.before && s.ring.headIdx == |sent|
       case GoFault => true
       case _ => false
  }

  lemma CallBegins(s: State, step: Step)
    requires Usable(s.ring) && Enabled(s, step) && step.CallTrySend?
    ensures During(Apply(s, step), Begun(step.body, s.closed, s.ring.sent))
  {
  }

  lemma GoStepKeepsDuring(s: State, b: Begun)
    requires Usable(s.ring) && GoEnabled(s) && During(s, b)
    requires s.pc.ReclaimAfterDrain? ==> s.ring.headIdx == |s.ring.sent|
    ensures During(GoStep(s), b)
  {
    hide Offset, ReservePayload, ReclaimLoop, LooksFull, StartOf;
  }

  /** Steps of the other threads: the history of sends stays, and the head does not go back. */
  lemma OthersKeepDuring(s: State, step: Step, b: Begun)
    requires Inv(s) && Enabled(s, step) && Inv(Apply(s, step)) && During(s, b)
    requires !step.Go? && !GoCalls(step) && !step.DrainTimeout?
    ensures During(Apply(s, step), b)
  {
    hide Offset, Sound, Producing, Attended, Grown;
  }

  lemma StepKeepsDuring(s: State, step: Step, b: Begun)
    requires Inv(s) && Enabled(s, step) && During(s, b) && !GoCalls(step)
    ensures During(Apply(s, step), b)
  {
    StepKeepsInv(s, step);
    hide Offset, Sound, During, Attended, GoStep, Settled, Reserved, RoomForOne, HasBody;
    match step {
      case Go => GoStepKeepsDuring(s, b);
      case DrainTimeout => NoTimeout(s, b);
      case _ => OthersKeepDuring(s, step, b);
    }
  }

  /** Only an explicit drain has a timeout. */
  lemma NoTimeout(s: State, b: Begun)
    requires During(s, b)
    ensures !Enabled(s, DrainTimeout)
  {
  }

  lemma {:induction false} RunKeepsDuring(dcap: nat, pcap: nat, states: seq<State>, steps: seq<Step>, j: nat, i: nat)
    requires Capacities(dcap, pcap) && IsRun(dcap, pcap, states, steps) && j < i < |states|
    requires steps[j].CallTrySend? && forall k :: j < k < i ==> !GoCalls(steps[k])
    ensures During(states[i], Begun(steps[j].body, states[j].closed, states[j].ring.sent))
  {
    hide During, Apply, Enabled, Inv, GoCalls, Capacities;
    assert Next(states[i - 1], steps[i - 1], states[i]);
    if i == j + 1 {
      CallBegins(states[j], steps[j]);
    } else {
      RunKeepsDuring(dcap, pcap, states, steps, j, i - 1);
      RunKeepsInv(dcap, pcap, states, steps, i - 1);
      StepKeepsDuring(states[i - 1], steps[i - 1], Begun(steps[j].body, states[j].closed, states[j].ring.sent));
    }
  }

  /** What a `trySend` means, in every run. Once it has returned, everything sent is published.
      It was accepted exactly when its body, and nothing else, was sent. It is not handled only
      if the body is as long as the payload ring, and then everything sent has been released.
      An error means that the ring is closed, and a call on a closed ring sends nothing. */
  lemma TrySendMeans(dcap: nat, pcap: nat, states: seq<State>, steps: seq<Step>, j: nat, i: nat)
    requires Capacities(dcap, pcap) && IsRun(dcap, pcap, states, steps) && j < i < |states|
    requires steps[j].CallTrySend? && forall k :: j < k < i ==> !GoCalls(steps[k])
    requires states[i].pc.Ready?
    ensures var before, r, last := states[j].ring.sent, states[i].ring, states[i].pc.last;
            && r.published == |r.sent|
            && (last == Accepted || last == Again || last == ClosedError || last == NotHandled)
            && (if last == Accepted then Grown(before, r.sent, steps[j].body) else r.sent == before)
            && (last == Accepted || last == Again ==> |steps[j].body| < r.pcap)
            && (last == NotHandled ==> |steps[j].body| >= r.pcap && r.headIdx == |r.sent|)
            && (last == ClosedError ==> states[i].closed)
            && (states[j].closed ==> last == ClosedError || last == NotHandled)
  {
    hide Inv, Capacities;
    RunKeepsDuring(dcap, pcap, states, steps, j, i);
    RunKeepsTidy(dcap, pcap, states, steps, i);
  }

  /** A drain ends once everything sent has been released, or with an error if the ring is found
      closed before that; otherwise it looks again. */
  lemma DrainedMeans(s: State)
    requires Inv(s)
    ensures s.pc.DrainLoad? ==>
              var pc := GoStep(s).pc;
              && (pc.ReclaimAfterDrain? <==> s.ring.headIdx == |s.ring.sent|)
              && (pc.ReclaimAfterDrain? || pc.DrainCheckClosed?) && pc.after == s.pc.after
    ensures s.pc.DrainCheckClosed? ==> GoStep(s).pc == if s.closed then Ready(ClosedError) else DrainLoad(s.pc.after)
    ensures s.pc.ReclaimAfterDrain? ==> GoStep(s).pc == Ready(s.pc.after)
  {
    hide Offset, DescsHold, BodiesHold, FlagsHold, SlicesHold, EndAt, Placement, Attended, Settled;
    CompareCursors(s.ring, s.ring.headIdx, |s.ring.sent|);
  }

  /** A ring once closed stays closed, in every run. */
  lemma {:induction false} ClosedStays(dcap: nat, pcap: nat, states: seq<State>, steps: seq<Step>, j: nat, i: nat)
    requires IsRun(dcap, pcap, states, steps) && j < i < |states| && steps[j].Close?
    ensures states[i].closed
    decreases i
  {
    hide Offset, ReservePayload, ReclaimLoop, LooksFull, StartOf;
    assert Next(states[i - 1], steps[i - 1], states[i]);
    if j + 1 < i {
      ClosedStays(dcap, pcap, states, steps, j, i - 1);
    }
  }
}
