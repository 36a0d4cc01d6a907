/** When `zmq_ctx_term` can sleep for ever: exactly when, at the call, some socket is still
    open, being opened or being closed, or some linger is outstanding. */
module ContextHang {
  import opened ContextTerm

  /** `t` is where `steps` lead from `s`. */
  predicate Follows(s: State, steps: seq<Step>, t: State)
    decreases |steps|
  {
    if steps == [] then t == s
    else Enabled(s, steps[0]) && Follows(Apply(s, steps[0]), steps[1..], t)
  }

  ghost predicate CanReach(s: State, t: State) {
    exists steps: seq<Step> :: Follows(s, steps, t)
  }

  lemma ReachSelf(s: State)
    ensures CanReach(s, s)
  {
    assert Follows(s, [], s);
  }

  lemma StepThenReach(s: State, step: Step, t: State)
    requires Enabled(s, step) && CanReach(Apply(s, step), t)
    ensures CanReach(s, t)
  {
    hide Apply, Enabled;
    var steps :| Follows(Apply(s, step), steps, t);
    assert ([step] + steps)[1..] == steps;
    assert Follows(s, [step] + steps, t);
  }

  lemma {:induction false} FollowsTogether(s: State, a: seq<Step>, t: State, b: seq<Step>, u: State)
    requires Follows(s, a, t) && Follows(t, b, u)
    ensures Follows(s, a + b, u)
    decreases |a|
  {
    hide Apply, Enabled;
    if a == [] {
      assert a + b == b;
    } else {
      FollowsTogether(Apply(s, a[0]), a[1..], t, b, u);
      assert (a + b)[1..] == a[1..] + b;
    }
  }

  lemma ReachTogether(s: State, t: State, u: State)
    requires CanReach(s, t) && CanReach(t, u)
    ensures CanReach(s, u)
  {
    var a :| Follows(s, a, t);
    var b :| Follows(t, b, u);
    FollowsTogether(s, a, t, b, u);
  }

  // ---- Hanging ----

  /** Asleep with nothing open and nothing lingering, and no step of any thread is possible
      but another shutdown call. */
  ghost predicate Hung(s: State) {
    && s.term.Asleep? && s.socketCount == 0 && s.lingerCount == 0
    && forall step :: Enabled(s, step) ==> step.Shutdown?
  }

  ghost predicate CanHang(s: State) {
    exists t :: CanReach(s, t) && Hung(t)
  }

  predicate BusySock(x: Sock) {
    x.closer.Opening? || Counted(x) || x.task.Running?
  }

  /** Some socket is open, being opened or not yet lowered by its close, or lingers. */
  predicate Busy(s: State) {
    exists k :: k in s.socks && BusySock(s.socks[k])
  }

  /** Shut down, nothing busy, and the waiter not on its way to sleep. */
  predicate Quiet(s: State) {
    s.terminated && !Busy(s) && !s.term.GoToSleep? && !s.term.Asleep?
  }

  lemma NothingCounted(s: State)
    requires CountsRight(s) && !Busy(s)
    ensures s.socketCount == 0 && s.lingerCount == 0
  {
    forall k ensures k !in CountedIn(s.socks) && k !in LingeringIn(s.socks) {
      CountMember(s.socks, k);
      assert k in s.socks ==> !BusySock(s.socks[k]);
    }
    assert CountedIn(s.socks) == {} && LingeringIn(s.socks) == {};
  }

  lemma QuietStep(s: State, step: Step)
    requires Inv(s) && Quiet(s) && Enabled(s, step)
    ensures Quiet(Apply(s, step))
  {
    hide CountsRight, SocksOk, SocketsGone, LingersGone;
    NothingCounted(s);
    var s' := Apply(s, step);
    forall k | k in s'.socks ensures !BusySock(s'.socks[k]) {
      assert k in s.socks && !BusySock(s.socks[k]);
    }
  }

  /** With nothing busy at the call, no continuation ever puts the waiter to sleep. */
  lemma {:induction false} NeverSleeps(s: State, steps: seq<Step>, t: State)
    requires Inv(s) && Quiet(s) && Follows(s, steps, t)
    ensures Inv(t) && Quiet(t)
    decreases |steps|
  {
    hide Inv, Quiet, Apply, Enabled;
    if steps != [] {
      StepKeepsInv(s, steps[0]);
      QuietStep(s, steps[0]);
      NeverSleeps(Apply(s, steps[0]), steps[1..], t);
    }
  }

  // ---- Driving every socket out while the waiter is between check and sleep ----

  function Rank(x: Sock): nat {
    3 * (match x.closer
         case Opening => 6
         case Open => 5
         case ReadHandle => 4
         case Raise => 3
         case Lower => 2
         case Notify => 1
         case Done => 0)
    + match x.task
      case Running => 2
      case Notifying => 1
      case _ => 0
  }

  /** A step that brings socket `k` closer to being gone. */
  function Onward(k: nat, x: Sock): Step
    requires Rank(x) > 0
  {
    match x.closer
    case Opening => FinishSocket(k)
    case Open => BeginClose(k)
    case ReadHandle => DecideLinger(k, false)
    case Raise => RaiseLinger(k)
    case Lower => LowerCount(k)
    case Notify => NotifyClosed(k)
    case Done => if x.task.Running? then FinishLinger(k) else NotifyLingered(k)
  }

  lemma OnwardStep(s: State, k: nat)
    requires Inv(s) && s.term.GoToSleep? && k in s.socks && Rank(s.socks[k]) > 0
    ensures var step := Onward(k, s.socks[k]);
            && Enabled(s, step)
            && var s' := Apply(s, step);
               && s'.term.GoToSleep? && s'.terminated == s.terminated && s'.socks.Keys == s.socks.Keys
               && Rank(s'.socks[k]) < Rank(s.socks[k])
               && forall j :: j in s.socks && j != k ==> s'.socks[j] == s.socks[j]
  {
    hide CountsRight, SocketsGone, LingersGone;
    assert SockOk(s, k);
  }

  lemma {:induction false} RetireOne(s: State, k: nat) returns (t: State)
    requires Inv(s) && s.term.GoToSleep? && s.terminated && k in s.socks
    ensures CanReach(s, t) && Inv(t) && t.term.GoToSleep? && t.terminated
    ensures t.socks.Keys == s.socks.Keys && Rank(t.socks[k]) == 0
    ensures forall j :: j in s.socks && j != k ==> t.socks[j] == s.socks[j]
    decreases Rank(s.socks[k])
  {
    hide Inv, Apply, Rank, Onward;
    if Rank(s.socks[k]) == 0 {
      ReachSelf(s);
      return s;
    }
    var step := Onward(k, s.socks[k]);
    OnwardStep(s, k);
    StepKeepsInv(s, step);
    t := RetireOne(Apply(s, step), k);
    StepThenReach(s, step, t);
  }

  function Left(socks: map<nat, Sock>): set<nat> {
    set k | k in socks && Rank(socks[k]) > 0
  }

  lemma {:induction false} RetireAll(s: State) returns (t: State)
    requires Inv(s) && s.term.GoToSleep? && s.terminated
    ensures CanReach(s, t) && Inv(t) && t.term.GoToSleep? && t.terminated
    ensures forall k :: k in t.socks ==> Rank(t.socks[k]) == 0
    decreases |Left(s.socks)|
  {
    hide Inv, Rank;
    if Left(s.socks) == {} {
      ReachSelf(s);
      forall k | k in s.socks ensures Rank(s.socks[k]) == 0 {
        assert k !in Left(s.socks);
      }
      return s;
    }
    var k :| k in Left(s.socks);
    var s' := RetireOne(s, k);
    assert Left(s'.socks) == Left(s.socks) - {k};
    t := RetireAll(s');
    ReachTogether(s, s', t);
  }

  /** From between check and sleep, everything can go away unnoticed. */
  lemma SleepsForEver(s: State) returns (t: State)
    requires Inv(s) && s.term.GoToSleep? && s.terminated
    ensures CanReach(s, t) && Hung(t)
  {
    var u := RetireAll(s);
    t := Apply(u, Sleep);
    ReachSelf(t);
    StepThenReach(u, Sleep, t);
    ReachTogether(s, u, t);
    assert !Busy(u);
    NothingCounted(u);
  }

  lemma CountedPositive(s: State, k: nat)
    requires CountsRight(s) && k in s.socks
    ensures Counted(s.socks[k]) ==> s.socketCount > 0
    ensures s.socks[k].task.Running? ==> s.lingerCount > 0
  {
    CountMember(s.socks, k);
    assert k in CountedIn(s.socks) ==> |CountedIn(s.socks)| > 0;
    assert k in LingeringIn(s.socks) ==> |LingeringIn(s.socks)| > 0;
  }

  /** With something busy, the waiter about to load can come to the gap before its sleep. */
  lemma BusyGoesToSleep(s: State, k: nat) returns (t: State)
    requires Inv(s) && s.term.LoadSockets? && k in s.socks && BusySock(s.socks[k])
    ensures CanReach(s, t) && Inv(t) && t.term.GoToSleep? && t.terminated
  {
    hide CountsRight, SocksOk, SocketsGone, LingersGone;
    var s1 := s;
    ReachSelf(s);
    if s.socks[k].closer.Opening? {
      s1 := Apply(s, FinishSocket(k));
      StepKeepsInv(s, FinishSocket(k));
      ReachSelf(s1);
      StepThenReach(s, FinishSocket(k), s1);
    }
    CountedPositive(s1, k);
    var s2 := Apply(s1, Load);
    StepKeepsInv(s1, Load);
    ReachSelf(s2);
    StepThenReach(s1, Load, s2);
    ReachTogether(s, s1, s2);
    t := s2;
    if !s2.term.GoToSleep? {
      t := Apply(s2, Load);
      StepKeepsInv(s2, Load);
      ReachSelf(t);
      StepThenReach(s2, Load, t);
      ReachTogether(s, s2, t);
    }
  }

  lemma BusyHangs(s: State)
    requires Inv(s) && s.terminated && (s.term.NotCalled? || s.term.LoadSockets?) && Busy(s)
    ensures CanHang(s)
  {
    hide Inv, Hung;
    var s1 := s;
    ReachSelf(s);
    if s.term.NotCalled? {
      s1 := Apply(s, CallTerm);
      StepKeepsInv(s, CallTerm);
      ReachSelf(s1);
      StepThenReach(s, CallTerm, s1);
    }
    var k :| k in s.socks && BusySock(s.socks[k]);
    var t := BusyGoesToSleep(s1, k);
    var u := SleepsForEver(t);
    ReachTogether(s, s1, t);
    ReachTogether(s, t, u);
  }

  /** From every reachable state in which the context is shut down and term is about to be
      called or about to look, it can sleep for ever if and only if something is busy. */
  lemma HangsExactlyWhenBusy(states: seq<State>, steps: seq<Step>, i: nat)
    requires IsRun(states, steps) && i < |states|
    requires states[i].terminated && (states[i].term.NotCalled? || states[i].term.LoadSockets?)
    ensures CanHang(states[i]) <==> Busy(states[i])
  {
    hide Inv, Busy, Follows;
    var s := states[i];
    RunKeepsInv(states, steps, i);
    if Busy(s) {
      BusyHangs(s);
    } else {
      forall t | CanReach(s, t) ensures !Hung(t) {
        var path :| Follows(s, path, t);
        NeverSleeps(s, path, t);
      }
    }
  }
}
