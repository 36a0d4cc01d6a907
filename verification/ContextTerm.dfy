/** Closing sockets against terminating their context, as a system of atomic steps: any
    number of sockets being opened, closed and lingering while `zmq_ctx_term` reads the two
    counters one after the other. */
module ContextTerm {

  /** The thread that opens and closes a socket. `Opening` has passed the check of the
      terminated flag but is not counted yet; the last two states follow the decrement. */
  datatype Closer = Opening | Open | ReadHandle | Raise | Lower | Notify | Done

  /** The asynchronous close that a lingering socket leaves behind. */
  datatype Task = NoTask | Running | Notifying | Finished

  datatype Sock = Sock(closer: Closer, task: Task)

  /** `GoToSleep` has found a counter above zero but does not yet wait on the condition
      variable. */
  datatype TermPc = NotCalled | LoadSockets | LoadLingers | GoToSleep | Asleep | Passed

  /** `straddlers` is history: the sockets being opened when the context was shut down.
      `missed` is history: a notification found the waiter on its way to sleep. */
  datatype State = State(terminated: bool, socketCount: int, lingerCount: int,
                         socks: map<nat, Sock>, term: TermPc,
                         straddlers: set<nat>, missed: bool)

  function Init(): State {
    State(false, 0, 0, map[], NotCalled, {}, false)
  }

  datatype Step =
    | BeginSocket(k: nat)
    | FinishSocket(k: nat)
    | BeginClose(k: nat)
    | DecideLinger(k: nat, linger: bool)
    | RaiseLinger(k: nat)
    | LowerCount(k: nat)
    | NotifyClosed(k: nat)
    | FinishLinger(k: nat)
    | NotifyLingered(k: nat)
    | Shutdown
    | CallTerm
    | Load
    | Sleep

  predicate HasCloser(s: State, k: nat, c: Closer) {
    k in s.socks && s.socks[k].closer == c
  }

  predicate HasTask(s: State, k: nat, t: Task) {
    k in s.socks && s.socks[k].task == t
  }

  predicate Enabled(s: State, step: Step) {
    match step
    case BeginSocket(k) => k !in s.socks && !s.terminated
    case FinishSocket(k) => HasCloser(s, k, Opening)
    case BeginClose(k) => HasCloser(s, k, Open)
    case DecideLinger(k, linger) => HasCloser(s, k, ReadHandle) && (linger ==> !s.terminated)
    case RaiseLinger(k) => HasCloser(s, k, Raise)
    case LowerCount(k) => HasCloser(s, k, Lower)
    case NotifyClosed(k) => HasCloser(s, k, Notify)
    case FinishLinger(k) => HasTask(s, k, Running)
    case NotifyLingered(k) => HasTask(s, k, Notifying)
    case Shutdown => true
    case CallTerm => s.term.NotCalled? && s.terminated
    case Load => s.term.LoadSockets? || s.term.LoadLingers?
    case Sleep => s.term.GoToSleep?
  }

  function SetCloser(s: State, k: nat, c: Closer): State
    requires k in s.socks
  {
    s.(socks := s.socks[k := s.socks[k].(closer := c)])
  }

  function SetTask(s: State, k: nat, t: Task): State
    requires k in s.socks
  {
    s.(socks := s.socks[k := s.socks[k].(task := t)])
  }

  /** `notify_all`: a sleeping waiter evaluates its condition again. */
  function NotifyAll(s: State): State {
    if s.term.Asleep? then s.(term := LoadSockets)
    else s.(missed := s.missed || s.term.GoToSleep?)
  }

  function Apply(s: State, step: Step): State
    requires Enabled(s, step)
  {
    match step
    case BeginSocket(k) => s.(socks := s.socks[k := Sock(Opening, NoTask)])
    case FinishSocket(k) => SetCloser(s, k, Open).(socketCount := s.socketCount + 1)
    case BeginClose(k) => SetCloser(s, k, ReadHandle)
    case DecideLinger(k, linger) => SetCloser(s, k, if linger then Raise else Lower)
    case RaiseLinger(k) => SetTask(SetCloser(s, k, Lower), k, Running).(lingerCount := s.lingerCount + 1)
    case LowerCount(k) =>
      SetCloser(s, k, if s.socketCount == 1 then Notify else Done).(socketCount := s.socketCount - 1)
    case NotifyClosed(k) => NotifyAll(SetCloser(s, k, Done))
    case FinishLinger(k) =>
      SetTask(s, k, if s.lingerCount == 1 then Notifying else Finished).(lingerCount := s.lingerCount - 1)
    case NotifyLingered(k) => NotifyAll(SetTask(s, k, Finished))
    case Shutdown =>
      var s' := if s.terminated then s else s.(straddlers := set k | k in s.socks && s.socks[k].closer.Opening?);
      NotifyAll(s'.(terminated := true))
    case CallTerm => s.(term := LoadSockets)
    case Load =>
      if s.term.LoadSockets? then s.(term := if s.socketCount > 0 then GoToSleep else LoadLingers)
      else s.(term := if s.lingerCount > 0 then GoToSleep else Passed)
    case Sleep => s.(term := Asleep)
  }

  predicate Next(s: State, step: Step, s': State) {
    Enabled(s, step) && s' == Apply(s, step)
  }

  predicate IsRun(states: seq<State>, steps: seq<Step>) {
    && |states| == |steps| + 1
    && states[0] == Init()
    && forall i :: 0 <= i < |steps| ==> Next(states[i], steps[i], states[i + 1])
  }

  // ---- The invariant ----

  predicate Counted(x: Sock) {
    !x.closer.Opening? && !x.closer.Notify? && !x.closer.Done?
  }

  function CountedIn(socks: map<nat, Sock>): set<nat> {
    set k | k in socks && Counted(socks[k])
  }

  function LingeringIn(socks: map<nat, Sock>): set<nat> {
    set k | k in socks && socks[k].task.Running?
  }

  predicate CountsRight(s: State) {
    s.socketCount == |CountedIn(s.socks)| && s.lingerCount == |LingeringIn(s.socks)|
  }

  /** After shutdown only straddlers are still being opened, and they never linger. */
  predicate SockOk(s: State, k: nat)
    requires k in s.socks
  {
    var x := s.socks[k];
    && (s.terminated && x.closer.Opening? ==> k in s.straddlers)
    && (k in s.straddlers ==> x.task.NoTask? && !x.closer.Raise?)
    && (x.closer.Opening? || x.closer.Open? || x.closer.ReadHandle? || x.closer.Raise? ==> x.task.NoTask?)
  }

  predicate SocksOk(s: State) {
    forall k :: k in s.socks ==> SockOk(s, k)
  }

  /** Once the waiter has seen no socket, every socket but the straddlers is closed. */
  predicate SocketsGone(s: State) {
    forall k :: k in s.socks && k !in s.straddlers ==> !s.socks[k].closer.Opening? && !Counted(s.socks[k])
  }

  predicate LingersGone(s: State) {
    forall k :: k in s.socks ==> !s.socks[k].task.Running?
  }

  predicate Inv(s: State) {
    && CountsRight(s)
    && SocksOk(s)
    && (!s.term.NotCalled? ==> s.terminated)
    && (!s.terminated ==> s.straddlers == {})
    && (s.term.LoadLingers? || s.term.Passed? ==> SocketsGone(s))
    && (s.term.Passed? ==> LingersGone(s))
  }

  function One(b: bool): int {
    if b then 1 else 0
  }

  lemma SizeAfter(a: set<nat>, b: set<nat>, k: nat, joins: bool)
    requires b == if joins then a + {k} else a - {k}
    ensures |b| == |a| + One(joins) - One(k in a)
  {
    if joins && k in a {
      assert b == a;
    } else if !joins && k !in a {
      assert b == a;
    }
  }

  /** Changing one socket changes the counts by what that socket contributes. */
  lemma CountAfter(socks: map<nat, Sock>, k: nat, x: Sock)
    ensures |CountedIn(socks[k := x])| ==
              |CountedIn(socks)| + One(Counted(x)) - One(k in socks && Counted(socks[k]))
  {
    var a, b := CountedIn(socks), CountedIn(socks[k := x]);
    assert b == if Counted(x) then a + {k} else a - {k};
    SizeAfter(a, b, k, Counted(x));
  }

  lemma LingeringAfter(socks: map<nat, Sock>, k: nat, x: Sock)
    ensures |LingeringIn(socks[k := x])| ==
              |LingeringIn(socks)| + One(x.task.Running?) - One(k in socks && socks[k].task.Running?)
  {
    var a, b := LingeringIn(socks), LingeringIn(socks[k := x]);
    assert b == if x.task.Running? then a + {k} else a - {k};
    SizeAfter(a, b, k, x.task.Running?);
  }

  lemma CountMember(socks: map<nat, Sock>, k: nat)
    ensures k in CountedIn(socks) <==> k in socks && Counted(socks[k])
    ensures k in LingeringIn(socks) <==> k in socks && socks[k].task.Running?
  {
  }

  predicate TouchesSocket(step: Step) {
    !step.Shutdown? && !step.CallTerm? && !step.Load? && !step.Sleep?
  }

  lemma CountsKept(s: State, step: Step)
    requires CountsRight(s) && SocksOk(s) && Enabled(s, step)
    ensures CountsRight(Apply(s, step))
  {
    hide CountedIn, LingeringIn, SocksOk;
    var s' := Apply(s, step);
    if TouchesSocket(step) {
      var k := step.k;
      assert k in s.socks ==> SockOk(s, k) by { OneOk(s, k); }
      CountAfter(s.socks, k, s'.socks[k]);
      LingeringAfter(s.socks, k, s'.socks[k]);
      assert s'.socks == s.socks[k := s'.socks[k]];
    } else {
      assert s'.socks == s.socks;
    }
  }

  lemma OneOk(s: State, k: nat)
    requires SocksOk(s)
    ensures k in s.socks ==> SockOk(s, k)
  {
  }

  lemma SocksKept(s: State, step: Step)
    requires Inv(s) && Enabled(s, step)
    ensures SocksOk(Apply(s, step))
  {
    hide CountsRight, SocketsGone, LingersGone;
    var s' := Apply(s, step);
    forall k | k in s'.socks ensures SockOk(s', k) {
      if k in s.socks {
        assert SockOk(s, k);
      }
    }
  }

  lemma NoneCounted(s: State)
    requires CountsRight(s) && SocksOk(s)
    ensures s.terminated && s.socketCount <= 0 ==> SocketsGone(s)
    ensures s.lingerCount <= 0 ==> LingersGone(s)
  {
    forall k | k in s.socks
      ensures s.terminated && s.socketCount <= 0 && k !in s.straddlers ==>
                !s.socks[k].closer.Opening? && !Counted(s.socks[k])
      ensures s.lingerCount <= 0 ==> !s.socks[k].task.Running?
    {
      assert SockOk(s, k);
      CountMember(s.socks, k);
    }
  }

  /** Nothing that was gone comes back: after shutdown no socket starts to be opened, and
      only an open socket can start to linger. */
  lemma GoneStaysGone(s: State, step: Step)
    requires Inv(s) && Enabled(s, step)
    ensures SocketsGone(s) && s.terminated ==> SocketsGone(Apply(s, step))
    ensures SocketsGone(s) && LingersGone(s) && s.terminated ==> LingersGone(Apply(s, step))
  {
    hide CountsRight;
    var s' := Apply(s, step);
    assert step.RaiseLinger? ==> SockOk(s, step.k);
  }

  lemma StepKeepsInv(s: State, step: Step)
    requires Inv(s) && Enabled(s, step)
    ensures Inv(Apply(s, step))
  {
    CountsKept(s, step);
    SocksKept(s, step);
    NoneCounted(s);
    GoneStaysGone(s, step);
    hide CountsRight, SocksOk, SocketsGone, LingersGone;
    FlagsKept(s, step);
  }

  lemma FlagsKept(s: State, step: Step)
    requires Inv(s) && Enabled(s, step)
    ensures var s' := Apply(s, step);
            && (!s'.term.NotCalled? ==> s'.terminated)
            && (!s'.terminated ==> s'.straddlers == {})
            && (s'.term.LoadLingers? && !s.term.LoadLingers? ==>
                  s.terminated && s.socketCount <= 0 && s'.socks == s.socks && s'.straddlers == s.straddlers)
            && (s'.term.Passed? && !s.term.Passed? ==>
                  s.term.LoadLingers? && s.lingerCount <= 0 && s'.socks == s.socks && s'.straddlers == s.straddlers)
  {
    hide CountsRight, SocksOk, SocketsGone, LingersGone;
  }

  lemma {:induction false} RunKeepsInv(states: seq<State>, steps: seq<Step>, i: nat)
    requires IsRun(states, steps) && i < |states|
    ensures Inv(states[i])
  {
    hide Inv, Apply;
    if i == 0 {
      InitInv();
    } else {
      RunKeepsInv(states, steps, i - 1);
      assert Next(states[i - 1], steps[i - 1], states[i]);
      StepKeepsInv(states[i - 1], steps[i - 1]);
    }
  }

  lemma InitInv()
    ensures Inv(Init())
  {
  }

  // ---- Theorems ----

  /** A close that is about to be counted as lingering, or has been. */
  predicate Lingers(s: State, k: nat) {
    k in s.socks && (s.socks[k].closer.Raise? || !s.socks[k].task.NoTask?)
  }

  lemma StepKeepsLingers(s: State, step: Step, k: nat)
    requires Enabled(s, step) && (Lingers(s, k) || step == DecideLinger(k, true))
    ensures Lingers(Apply(s, step), k)
  {
  }

  /** A close that decides to linger is counted as lingering before it gives up its place in
      the socket count, in every run. */
  lemma {:induction false} LingerOverlaps(states: seq<State>, steps: seq<Step>, j: nat, i: nat, k: nat)
    requires IsRun(states, steps) && j < i < |states| && steps[j] == DecideLinger(k, true)
    ensures Lingers(states[i], k)
    ensures i < |steps| && steps[i] == LowerCount(k) ==> !states[i].socks[k].task.NoTask?
    decreases i
  {
    hide Apply;
    assert Next(states[i - 1], steps[i - 1], states[i]);
    if j + 1 < i {
      LingerOverlaps(states, steps, j, i - 1, k);
    }
    StepKeepsLingers(states[i - 1], steps[i - 1], k);
    if i < |steps| {
      assert Next(states[i], steps[i], states[i + 1]);
    }
  }

  /** Shutting down marks the context and makes a sleeping waiter look again. */
  lemma ShutdownWakes(s: State)
    ensures var s' := Apply(s, Shutdown);
            s'.terminated && s'.socks == s.socks && (s.term.Asleep? ==> s'.term.LoadSockets?)
  {
  }

  /** A socket that has been opened and not closed. */
  predicate IsOpen(s: State, k: nat) {
    k in s.socks && Counted(s.socks[k])
  }

  predicate IsLingering(s: State, k: nat) {
    k in s.socks && s.socks[k].task.Running?
  }

  /** In every run, once term has passed its wait no linger is outstanding and every open
      socket straddled the shutdown; from then on none can be. */
  lemma TermWaitsForAll(states: seq<State>, steps: seq<Step>, i: nat, k: nat)
    requires IsRun(states, steps) && i < |states| && states[i].term.Passed?
    ensures !IsLingering(states[i], k)
    ensures IsOpen(states[i], k) ==> k in states[i].straddlers
  {
    hide CountsRight, SocksOk;
    RunKeepsInv(states, steps, i);
  }

  /** The remaining case is real: a socket call that checked the terminated flag before the
      shutdown can leave an open socket behind after term has passed. */
  lemma StraddlerOutlivesTerm() returns (states: seq<State>, steps: seq<Step>)
    ensures IsRun(states, steps)
    ensures states[|steps|].term.Passed? && IsOpen(states[|steps|], 0)
  {
    states, steps := [Init()], [];
    states, steps := Extend(states, steps, BeginSocket(0));
    states, steps := Extend(states, steps, Shutdown);
    states, steps := Extend(states, steps, CallTerm);
    states, steps := Extend(states, steps, Load);
    states, steps := Extend(states, steps, Load);
    assert states[|steps|].term == Passed && states[|steps|].socks == map[0 := Sock(Opening, NoTask)];
    states, steps := Extend(states, steps, FinishSocket(0));
  }

  // ---- The wait itself ----

  predicate WakePendingAt(x: Sock) {
    x.closer.Notify? || x.task.Notifying?
  }

  /** Somebody has brought a counter to zero and is about to notify. */
  predicate WakePending(s: State) {
    exists k :: k in s.socks && WakePendingAt(s.socks[k])
  }

  /** Going to sleep with nothing left to wait for takes a missed notification. */
  predicate WakeInv(s: State) {
    s.term.GoToSleep? || s.term.Asleep? ==>
      s.socketCount > 0 || s.lingerCount > 0 || WakePending(s) || s.missed
  }

  lemma WakeKept(s: State, step: Step)
    requires WakeInv(s) && SocksOk(s) && Enabled(s, step)
    ensures WakeInv(Apply(s, step))
  {
    var s' := Apply(s, step);
    if (step.LowerCount? && s.socketCount == 1) || (step.FinishLinger? && s.lingerCount == 1) {
      assert WakePendingAt(s'.socks[step.k]);
    } else if WakePending(s) {
      var k :| k in s.socks && WakePendingAt(s.socks[k]);
      assert SockOk(s, k);
      assert s'.socks[k] == s.socks[k] || s'.term != s.term || WakePendingAt(s'.socks[k]) || s'.missed
             || (!s.term.GoToSleep? && !s.term.Asleep?);
    }
  }

  /** In every run: a waiter asleep although no socket is open, no linger is outstanding and
      no notification is on its way has missed one between its check and its sleep. */
  lemma {:induction false} SleepsOnlyIfMissed(states: seq<State>, steps: seq<Step>, i: nat)
    requires IsRun(states, steps) && i < |states|
    ensures WakeInv(states[i])
  {
    hide WakeInv, Apply, SocksOk, CountsRight;
    if i == 0 {
      InitWake();
    } else {
      SleepsOnlyIfMissed(states, steps, i - 1);
      RunKeepsInv(states, steps, i - 1);
      assert Next(states[i - 1], steps[i - 1], states[i]);
      WakeKept(states[i - 1], steps[i - 1]);
    }
  }

  lemma InitWake()
    ensures WakeInv(Init())
  {
  }

  lemma Extend(states: seq<State>, steps: seq<Step>, step: Step) returns (states': seq<State>, steps': seq<Step>)
    requires IsRun(states, steps) && Enabled(states[|steps|], step)
    ensures IsRun(states', steps') && |steps'| == |steps| + 1
    ensures states'[|steps'|] == Apply(states[|steps|], step)
  {
    hide Apply, Enabled;
    states', steps' := states + [Apply(states[|steps|], step)], steps + [step];
  }

  /** And it can happen: the last socket closes while the waiter is on its way to sleep, and
      from then on no step of any thread is possible but another shutdown call. */
  lemma TermCanSleepForever() returns (states: seq<State>, steps: seq<Step>)
    ensures IsRun(states, steps)
    ensures var s := states[|steps|];
            && s.term.Asleep? && s.socketCount == 0 && s.lingerCount == 0
            && forall step :: Enabled(s, step) ==> step.Shutdown?
  {
    states, steps := [Init()], [];
    states, steps := Extend(states, steps, BeginSocket(0));
    states, steps := Extend(states, steps, FinishSocket(0));
    states, steps := Extend(states, steps, Shutdown);
    states, steps := Extend(states, steps, CallTerm);
    states, steps := Extend(states, steps, Load);
    assert states[|steps|].term == GoToSleep && states[|steps|].socketCount == 1;
    states, steps := Extend(states, steps, BeginClose(0));
    states, steps := Extend(states, steps, DecideLinger(0, false));
    states, steps := Extend(states, steps, LowerCount(0));
    states, steps := Extend(states, steps, NotifyClosed(0));
    states, steps := Extend(states, steps, Sleep);
    assert states[|steps|].socks == map[0 := Sock(Done, NoTask)];
  }
}
