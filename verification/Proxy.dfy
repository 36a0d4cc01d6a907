/** The steerable proxy: messages forwarded in two directions between a frontend and a
    backend, one pending message per direction, bursts, alternation, pause and resume.
    What the sockets answer is unconstrained, so every statement holds for every behaviour
    of the peers. `trace` records the I/O and never influences it. */
module Proxy {
  import opened Words
  import opened Options
  import opened ProxyLedger
  import TypeState

  const BURST_SIZE := 64

  datatype RecvAnswer = GotMessage(m: Msg) | GotNothing | RecvError
  datatype SendAnswer = Accepted | TargetFull | SendError
  datatype ControlAnswer = NothingThere | GotCommand(text: string) | ControlError
  datatype Outcome = Moved | NotMoved | Errored
  datatype ControlAction = Continue | Terminate | Abort

  /** Types that only send have nothing to read. */
  predicate CanRecv(t: TypeState.SocketType) {
    !(t.Pub? || t.Push? || t.Radio? || t.Scatter?)
  }

  /** Types that only receive take nothing. */
  predicate CanSend(t: TypeState.SocketType) {
    !(t.Pull? || t.Sub? || t.Dish? || t.Gather?)
  }

  function Source(d: Direction): Side {
    match d
    case FrontendToBackend => Frontend
    case BackendToFrontend => Backend
  }

  function Target(d: Direction): Side {
    match d
    case FrontendToBackend => Backend
    case BackendToFrontend => Frontend
  }

  class ProxyCtx {
    const feToBeEnabled: bool
    const beToFeEnabled: bool
    const hasCapture: bool
    const hasControl: bool
    var active: bool
    var fePending: Option<Msg>
    var bePending: Option<Msg>
    var preferred: Direction
    ghost var trace: seq<Event>

    /** A direction is on if its source can be read and its target written; a proxy of a
        socket with itself works one way only. */
    constructor (frontend: TypeState.SocketType, backend: TypeState.SocketType, sameSocket: bool,
                 capture: bool, control: bool)
      ensures Consistent() && trace == [] && preferred == FrontendToBackend
      ensures feToBeEnabled <==>
                && !(frontend.Pub? || frontend.Push? || frontend.Radio? || frontend.Scatter?)
                && !(backend.Pull? || backend.Sub? || backend.Dish? || backend.Gather?)
      ensures beToFeEnabled <==>
                && !sameSocket
                && !(backend.Pub? || backend.Push? || backend.Radio? || backend.Scatter?)
                && !(frontend.Pull? || frontend.Sub? || frontend.Dish? || frontend.Gather?)
      ensures hasCapture == capture && hasControl == control
    {
      feToBeEnabled := CanRecv(frontend) && CanSend(backend);
      beToFeEnabled := !sameSocket && CanRecv(backend) && CanSend(frontend);
      hasCapture, hasControl := capture, control;
      active, fePending, bePending := true, None, None;
      preferred, trace := FrontendToBackend, [];
    }

    predicate DirectionEnabled(d: Direction) {
      if d.FrontendToBackend? then feToBeEnabled else beToFeEnabled
    }

    function Pending(d: Direction): Option<Msg>
      reads this
    {
      if d.FrontendToBackend? then fePending else bePending
    }

    /** The ledger agrees with the proxy's own variables: its mode, and one pending slot per
        direction. */
    ghost predicate Consistent()
      reads this
    {
      && LedgerOf(trace) == Ledger(HandOf(fePending), HandOf(bePending), active, true)
      && AllOffered(trace) == if hasCapture then AllSent(trace) else []
    }

    method SetPending(d: Direction, p: Option<Msg>)
      modifies `fePending, `bePending
      ensures Pending(d) == p && Pending(Opposite(d)) == old(Pending(Opposite(d)))
    {
      if d.FrontendToBackend? {
        fePending := p;
      } else {
        bePending := p;
      }
    }

    method TryRecv(d: Direction) returns (a: RecvAnswer)
      modifies `trace
      ensures trace == old(trace) + [RecvEvent(d, a)]
    {
      a := *;
      trace := trace + [RecvEvent(d, a)];
    }

    /** Sends to the target; what the target takes is also offered to the capture socket. */
    method TryForward(d: Direction, m: Msg) returns (a: SendAnswer)
      modifies `trace
      ensures trace == old(trace) + SendEvents(d, m, a, hasCapture)
    {
      a := *;
      trace := trace + SendEvents(d, m, a, hasCapture);
    }

    /** Looks once at the control socket, if there is one. The action and the mode follow
        from what was found there. */
    method TryHandleControl() returns (action: ControlAction, ghost control: seq<Event>)
      requires Consistent()
      modifies `trace, `active
      ensures Consistent() && trace == old(trace) + control
      ensures |control| == if hasControl then 1 else 0
      ensures control == [] ==> action == Continue && active == old(active)
      ensures control != [] ==>
                && !Moves(control[0]) && !control[0].Ended?
                && action == ActionOn(control[0]) && active == ModeAfter(old(active), control[0])
    {
      hide LedgerOf, AllOffered, AllSent;
      if !hasControl {
        return Continue, [];
      }
      var answer: ControlAnswer := *;
      control := [ControlEvent(answer)];
      match answer {
        case NothingThere => action := Continue;
        case ControlError => action := Abort;
        case GotCommand(text) =>
          action := Continue;
          if text == "PAUSE" {
            active := false;
          } else if text == "RESUME" {
            active := true;
          } else if text == "TERMINATE" || text == "KILL" {
            action := Terminate;
          }
      }
      LedgerSnoc(trace, control[0]);
      SplitSent(trace, control);
      SentOne(control[0]);
      trace := trace + control;
    }

    /** Tries to pass on the pending message of a direction. */
    method FlushPendingDirection(d: Direction) returns (r: Outcome, ghost events: seq<Event>)
      requires Consistent() && active
      modifies `trace, `fePending, `bePending
      ensures trace == old(trace) + events
      ensures !r.Errored? ==> Consistent() && GoesOn(events)
      ensures r.Errored? ==> EndsInStop(events)
      ensures OnlyIn(events, d) && (events != [] ==> DirectionEnabled(d))
      ensures r.Moved? ==> BeginsMove(events, d) && events[0].Sent? && SendCount(events) == 1
      ensures r.NotMoved? ==>
                && fePending == old(fePending) && bePending == old(bePending)
                && events == if DirectionEnabled(d) && Pending(d).Some? then [Refused(Target(d), Pending(d).value)]
                             else []
    {
      hide LedgerOf, AllOffered, AllSent, OnlyIn;
      NothingIn(d);
      if !DirectionEnabled(d) || Pending(d).None? {
        return NotMoved, [];
      }
      var m := Pending(d).value;
      var a := TryForward(d, m);
      events := SendEvents(d, m, a, hasCapture);
      SendPosts(old(trace), d, m, a, hasCapture);
      match a {
        case Accepted =>
          SetPending(d, None);
          r := Moved;
        case TargetFull => r := NotMoved;
        case SendError => r := Errored;
      }
    }

    /** Reads a message and forwards it and its successors, if nothing is pending. */
    method TryForwardAvailable(d: Direction) returns (r: Outcome, ghost events: seq<Event>)
      requires Consistent() && active
      modifies `trace, `fePending, `bePending
      ensures trace == old(trace) + events
      ensures !r.Errored? ==> Consistent() && GoesOn(events)
      ensures r.Errored? ==> EndsInStop(events)
      ensures !DirectionEnabled(d) || old(Pending(d)).Some? ==> r.NotMoved?
      ensures OnlyIn(events, d) && (events != [] ==> DirectionEnabled(d))
      ensures r.Moved? ==> BeginsMove(events, d) && GoesFarEnough(events, d, BURST_SIZE)
      ensures r.NotMoved? ==>
                && fePending == old(fePending) && bePending == old(bePending)
                && events == if DirectionEnabled(d) && Pending(d).None? then [NoInput(Source(d))] else []
    {
      hide LedgerOf, AllOffered, AllSent, OnlyIn;
      NothingIn(d);
      if !DirectionEnabled(d) || Pending(d).Some? {
        return NotMoved, [];
      }
      var a := TryRecv(d);
      events := [RecvEvent(d, a)];
      RecvPosts(old(trace), d, a);
      match a {
        case GotNothing => r := NotMoved;
        case RecvError => r := Errored;
        case GotMessage(first) =>
          var ok, burst := ForwardBurst(d, first);
          SplitSent(events, burst);
          SentOne(events[0]);
          JoinOnlyIn(events, burst, d);
          assert old(trace) + events + burst == old(trace) + (events + burst);
          events := events + burst;
          r := if ok then Moved else Errored;
      }
    }

    /** Forwards `first` and up to 63 more messages; the first one refused becomes pending. */
    method ForwardBurst(d: Direction, first: Msg) returns (ok: bool, ghost events: seq<Event>)
      requires active && Pending(d).None?
      requires LedgerOf(trace) == Holding(Ledger(HandOf(fePending), HandOf(bePending), active, true), d, first)
      requires AllOffered(trace) == if hasCapture then AllSent(trace) else []
      modifies `trace, `fePending, `bePending
      ensures trace == old(trace) + events && OnlyIn(events, d) && SendCount(events) <= BURST_SIZE
      ensures ok ==> Consistent() && GoesOn(events) && events != []
      ensures ok ==> SendCount(events) == BURST_SIZE || CannotMove(events[|events| - 1], d)
      ensures !ok ==> EndsInStop(events)
    {
      hide LedgerOf, AllOffered, AllSent, Burst, SendEvents, RecvEvent, OnlyIn, SendCount, GoesOn, EndsInStop;
      var m := first;
      events := [];
      NothingIn(d);
      ghost var before := trace;
      assert before + events == before;
      for n := 0 to BURST_SIZE
        invariant n < BURST_SIZE && Burst(events, d, n) && trace == before + events
        invariant fePending == old(fePending) && bePending == old(bePending)
        invariant LedgerOf(trace) == Holding(Ledger(HandOf(fePending), HandOf(bePending), active, true), d, m)
        invariant AllOffered(trace) == if hasCapture then AllSent(trace) else []
      {
        ghost var at := trace;
        var a := TryForward(d, m);
        ghost var step := SendEvents(d, m, a, hasCapture);
        SendPosts(at, d, m, a, hasCapture);
        BurstSends(events, d, n, m, a, hasCapture);
        assert before + events + step == before + (events + step);
        events := events + step;
        match a {
          case SendError => return false, events;
          case TargetFull =>
            BurstMeans(events, d, n);
            SetPending(d, Some(m));
            return true, events;
          case Accepted =>
        }
        BurstMeans(events, d, n + 1);
        if n + 1 == BURST_SIZE {
          return true, events;
        }
        at := trace;
        var next := TryRecv(d);
        RecvPosts(at, d, next);
        BurstReceives(events, d, n + 1, next);
        assert before + events + [RecvEvent(d, next)] == before + (events + [RecvEvent(d, next)]);
        events := events + [RecvEvent(d, next)];
        match next {
          case RecvError => return false, events;
          case GotNothing =>
            BurstMeans(events, d, n + 1);
            return true, events;
          case GotMessage(m') => m := m';
        }
      }
      assert false;
    }

    /** One direction's chance: pass on what is pending, else read and forward. */
    method Attempt(d: Direction) returns (r: Outcome, ghost events: seq<Event>)
      requires Consistent() && active
      modifies `trace, `fePending, `bePending
      ensures trace == old(trace) + events && AttemptMeans(d, DirectionEnabled(d), r, events)
      ensures !r.Errored? ==> Consistent()
    {
      hide LedgerOf, AllOffered, AllSent, OnlyIn, SendCount, Stuck, BeginsMove, GoesFarEnough, GoesOn, EndsInStop,
           DirectionEnabled;
      r, events := FlushPendingDirection(d);
      StuckEvents(d);
      if r.Moved? {
        PassedOn(events, d);
      } else if r.NotMoved? {
        ghost var first := events;
        r, events := TryForwardAvailable(d);
        if first != [] {
          assert r.NotMoved? && events == [] && trace == old(trace) + first + [];
          events := first;
        } else {
          assert old(trace) + first + events == old(trace) + events;
        }
      }
    }

    /** Attempts the preferred direction and, if that could not move, the other one. The
        direction that moved makes the other one preferred. */
    method AttemptBoth() returns (r: Outcome, ghost turn: Turn)
      requires Consistent() && active
      modifies `trace, `fePending, `bePending, `preferred
      ensures trace == old(trace) + TurnEvents(turn)
      ensures turn.preferred == old(preferred) && turn.active && turn.control == []
      ensures Within(TurnEvents(turn), feToBeEnabled, beToFeEnabled)
      ensures r.Errored? ==> EndsInStop(TurnEvents(turn))
      ensures !r.Errored? ==> Consistent() && preferred == NextPreferred(turn) && r.Moved? == turn.progress.Some?
      ensures !r.Errored? ==> FairTurn(turn, feToBeEnabled, beToFeEnabled, BURST_SIZE)
    {
      hide LedgerOf, AllOffered, AllSent, AttemptMeans, EndsInStop, Within, FairTurn, TurnEvents;
      var first := preferred;
      var last := first;
      ghost var tried;
      r, tried := Attempt(first);
      turn := OneSided(first, r, tried);
      OneSidedMeans(first, r, tried, feToBeEnabled, beToFeEnabled);
      if r.NotMoved? {
        ghost var moved;
        last := Opposite(first);
        r, moved := Attempt(last);
        turn := TwoSided(first, tried, r, moved);
        TwoSidedMeans(first, tried, r, moved, feToBeEnabled, beToFeEnabled);
        assert old(trace) + tried + moved == old(trace) + (tried + moved);
      }
      if r.Moved? {
        preferred := Opposite(last);
      }
    }

    /** One pass of the main loop. `stopped` says that the proxy returns to its caller, at an
        error, a command, or the end of the context or of polling. */
    method OneTurn() returns (stopped: bool, ghost turn: Turn)
      requires Consistent()
      modifies this
      ensures trace == old(trace) + TurnEvents(turn) && Within(TurnEvents(turn), feToBeEnabled, beToFeEnabled)
      ensures stopped ==> EndsInStop(TurnEvents(turn))
      ensures !stopped ==> Consistent() && turn.preferred == old(preferred) && preferred == NextPreferred(turn)
      ensures !stopped ==> turn.active == active && |turn.control| == if hasControl then 1 else 0
      ensures !stopped ==> FairTurn(turn, feToBeEnabled, beToFeEnabled, BURST_SIZE)
    {
      hide LedgerOf, AllOffered, AllSent, OnlyIn, SendCount, Stuck, GoesOn, EndsInStop, FairTurn, TurnEvents, Within;
      ghost var was := preferred;
      var action, control := TryHandleControl();
      ControlGoesOn(control, action, feToBeEnabled, beToFeEnabled);
      turn := Turn(was, false, None, control, [], []);
      IdleTurn(turn);
      if !action.Continue? {
        return true, turn;
      }
      if active {
        ghost var rest;
        var r: Outcome;
        r, rest := AttemptBoth();
        turn := rest.(control := control);
        AddControl(old(trace), control, rest, feToBeEnabled, beToFeEnabled, BURST_SIZE);
        if r.Errored? || r.Moved? {
          return r.Errored?, turn;
        }
      } else {
        PausedTurn(turn, feToBeEnabled, beToFeEnabled, BURST_SIZE);
      }
      var ended: bool := *;
      if ended {
        StopLast(old(trace), turn, feToBeEnabled, beToFeEnabled, BURST_SIZE);
        trace := trace + [Ended];
        return true, turn.(moved := turn.moved + [Ended]);
      }
      return false, turn;
    }

    /** Any number of passes. The trace of the run is the I/O of its turns, one turn per pass,
        and of the pass that stopped it, if one did. The turns are fair and chained, each is
        active exactly as the commands so far say, and at every loop head the proxy is
        consistent with its trace. */
    method Run(passes: nat) returns (stopped: bool, ghost turns: seq<Turn>, ghost last: seq<Event>)
      requires Consistent()
      modifies this
      ensures trace == old(trace) + Events(turns) + last
      ensures !stopped ==> Consistent() && |turns| == passes && last == []
      ensures stopped ==> |turns| < passes && EndsInStop(last)
      ensures Chained(turns) && (turns != [] ==> turns[0].preferred == old(preferred))
      ensures Within(Events(turns) + last, feToBeEnabled, beToFeEnabled)
      ensures forall k :: 0 <= k < |turns| ==> FairTurn(turns[k], feToBeEnabled, beToFeEnabled, 64)
      ensures forall k :: 0 <= k < |turns| && turns[k].active && turns[k].progress == None ==>
                && (feToBeEnabled ==> FoundStuck(turns[k], FrontendToBackend))
                && (beToFeEnabled ==> FoundStuck(turns[k], BackendToFrontend))
      ensures forall k :: 0 <= k < |turns| ==> |turns[k].control| == if hasControl then 1 else 0
      ensures forall k :: 0 <= k < |turns| ==> turns[k].active == Active(old(trace) + Events(turns[..k + 1]))
    {
      hide LedgerOf, AllOffered, AllSent, FairTurn, NextPreferred, EndsInStop, TurnEvents, Events, Chained, Active,
           Within, FoundStuck;
      turns, last := [], [];
      NothingHappened();
      assert old(trace) + [] == old(trace);
      for i := 0 to passes
        invariant Consistent() && |turns| == i && Chained(turns)
        invariant trace == old(trace) + Events(turns) && ModesFollow(old(trace), turns)
        invariant Within(Events(turns), feToBeEnabled, beToFeEnabled)
        invariant turns == [] ==> preferred == old(preferred)
        invariant turns != [] ==> preferred == NextPreferred(turns[|turns| - 1]) && turns[0].preferred == old(preferred)
        invariant forall k :: 0 <= k < |turns| ==> FairTurn(turns[k], feToBeEnabled, beToFeEnabled, BURST_SIZE)
        invariant forall k :: 0 <= k < |turns| ==> |turns[k].control| == if hasControl then 1 else 0
      {
        var halt, turn := OneTurn();
        JoinWithin(Events(turns), TurnEvents(turn), feToBeEnabled, beToFeEnabled);
        if halt {
          AllTried(turns, feToBeEnabled, beToFeEnabled, BURST_SIZE);
          return true, turns, TurnEvents(turn);
        }
        EventsSnoc(turns, turn);
        ChainedSnoc(turns, turn);
        assert old(trace) + Events(turns) + TurnEvents(turn) == old(trace) + (Events(turns) + TurnEvents(turn));
        ActiveIsLast(trace);
        ModesSnoc(old(trace), turns, turn);
        turns := turns + [turn];
      }
      stopped := false;
      AllTried(turns, feToBeEnabled, beToFeEnabled, BURST_SIZE);
      assert old(trace) + Events(turns) + [] == old(trace) + Events(turns);
      assert Events(turns) + [] == Events(turns);
    }
  }

  /** What one direction's chance comes to. */
  predicate AttemptMeans(d: Direction, on: bool, r: Outcome, events: seq<Event>) {
    && OnlyIn(events, d) && (events != [] ==> on)
    && (if r.Errored? then EndsInStop(events) else GoesOn(events))
    && (r.Moved? ==> BeginsMove(events, d) && GoesFarEnough(events, d, BURST_SIZE))
    && (r.NotMoved? ==> Stuck(d, on, events))
  }

  /** The turn in which the preferred direction moved or failed. */
  function OneSided(first: Direction, r: Outcome, events: seq<Event>): Turn {
    Turn(first, true, if r.Moved? then Some(first) else None, [], [], events)
  }

  lemma OneSidedMeans(first: Direction, r: Outcome, events: seq<Event>, feToBe: bool, beToFe: bool)
    requires AttemptMeans(first, On(first, feToBe, beToFe), r, events)
    ensures var turn := OneSided(first, r, events);
            && TurnEvents(turn) == events && Within(TurnEvents(turn), feToBe, beToFe)
            && (r.Errored? ==> EndsInStop(TurnEvents(turn)))
            && (r.Moved? ==> FairTurn(turn, feToBe, beToFe, BURST_SIZE))
  {
    hide OnlyIn, GoesFarEnough, Stuck, GoesOn, EndsInStop, Within;
    assert TurnEvents(OneSided(first, r, events)) == events;
    OnlyInWithin(events, first, feToBe, beToFe);
  }

  /** The turn in which the preferred direction could not move. */
  function TwoSided(first: Direction, tried: seq<Event>, r: Outcome, moved: seq<Event>): Turn {
    Turn(first, true, if r.Moved? then Some(Opposite(first)) else None, [], tried, moved)
  }

  lemma TwoSidedMeans(first: Direction, tried: seq<Event>, r: Outcome, moved: seq<Event>, feToBe: bool, beToFe: bool)
    requires AttemptMeans(first, On(first, feToBe, beToFe), NotMoved, tried)
    requires AttemptMeans(Opposite(first), On(Opposite(first), feToBe, beToFe), r, moved)
    ensures var turn := TwoSided(first, tried, r, moved);
            && TurnEvents(turn) == tried + moved && Within(TurnEvents(turn), feToBe, beToFe)
            && (r.Errored? ==> EndsInStop(TurnEvents(turn)))
            && (!r.Errored? ==> FairTurn(turn, feToBe, beToFe, BURST_SIZE))
  {
    hide OnlyIn, GoesFarEnough, Stuck, GoesOn, EndsInStop, Within;
    assert TurnEvents(TwoSided(first, tried, r, moved)) == tried + moved;
    OnlyInWithin(tried, first, feToBe, beToFe);
    OnlyInWithin(moved, Opposite(first), feToBe, beToFe);
    JoinWithin(tried, moved, feToBe, beToFe);
    StopAfter(tried, moved);
  }

  lemma NothingHappened()
    ensures Events([]) == [] && Chained([]) && forall feToBe, beToFe :: Within([], feToBe, beToFe)
  {
  }

  lemma AllTried(turns: seq<Turn>, feToBe: bool, beToFe: bool, burst: nat)
    requires forall k :: 0 <= k < |turns| ==> FairTurn(turns[k], feToBe, beToFe, burst)
    ensures forall k :: 0 <= k < |turns| && turns[k].active && turns[k].progress == None ==>
              && (feToBe ==> FoundStuck(turns[k], FrontendToBackend))
              && (beToFe ==> FoundStuck(turns[k], BackendToFrontend))
  {
    hide FairTurn, FoundStuck;
    forall k | 0 <= k < |turns| && turns[k].active && turns[k].progress == None
      ensures feToBe ==> FoundStuck(turns[k], FrontendToBackend)
      ensures beToFe ==> FoundStuck(turns[k], BackendToFrontend)
    {
      IdleTurnTriedAll(turns[k], feToBe, beToFe, burst);
    }
  }

  lemma ControlGoesOn(control: seq<Event>, action: ControlAction, feToBe: bool, beToFe: bool)
    requires |control| <= 1 && (control == [] ==> action == Continue)
    requires control != [] ==> !Moves(control[0]) && !control[0].Ended? && action == ActionOn(control[0])
    ensures action.Continue? ==> GoesOn(control)
    ensures !action.Continue? ==> EndsInStop(control)
    ensures Within(control, feToBe, beToFe)
  {
  }

  lemma IdleTurn(turn: Turn)
    requires turn.tried == [] && turn.moved == []
    ensures TurnEvents(turn) == turn.control
  {
  }

  lemma PausedTurn(turn: Turn, feToBe: bool, beToFe: bool, burst: nat)
    requires !turn.active && turn.progress == None && turn.tried == [] && turn.moved == [] && GoesOn(turn.control)
    ensures FairTurn(turn, feToBe, beToFe, burst)
  {
    IdleTurn(turn);
  }

  lemma StopAfter(before: seq<Event>, after: seq<Event>)
    requires GoesOn(before)
    ensures GoesOn(after) ==> GoesOn(before + after)
    ensures EndsInStop(after) ==> EndsInStop(before + after)
  {
  }

  lemma AddControl(trace: seq<Event>, control: seq<Event>, turn: Turn, feToBe: bool, beToFe: bool, burst: nat)
    requires turn.control == [] && GoesOn(control)
    ensures var t := turn.(control := control);
            && (trace + control) + TurnEvents(turn) == trace + TurnEvents(t)
            && (EndsInStop(TurnEvents(turn)) ==> EndsInStop(TurnEvents(t)))
            && (Within(control, feToBe, beToFe) && Within(TurnEvents(turn), feToBe, beToFe) ==>
                  Within(TurnEvents(t), feToBe, beToFe))
            && (FairTurn(turn, feToBe, beToFe, burst) ==> FairTurn(t, feToBe, beToFe, burst))
  {
    hide GoesOn, EndsInStop, Stuck, OnlyIn, GoesFarEnough, Within;
    var t := turn.(control := control);
    assert TurnEvents(t) == control + TurnEvents(turn);
    assert (trace + control) + TurnEvents(turn) == trace + (control + TurnEvents(turn));
    StopAfter(control, TurnEvents(turn));
    if Within(control, feToBe, beToFe) && Within(TurnEvents(turn), feToBe, beToFe) {
      JoinWithin(control, TurnEvents(turn), feToBe, beToFe);
    }
  }

  lemma StopLast(trace: seq<Event>, turn: Turn, feToBe: bool, beToFe: bool, burst: nat)
    requires FairTurn(turn, feToBe, beToFe, burst)
    ensures var t := turn.(moved := turn.moved + [Ended]);
            && trace + TurnEvents(turn) + [Ended] == trace + TurnEvents(t)
            && EndsInStop(TurnEvents(t))
            && (Within(TurnEvents(turn), feToBe, beToFe) ==> Within(TurnEvents(t), feToBe, beToFe))
  {
    hide GoesOn, EndsInStop, Stuck, OnlyIn, GoesFarEnough, BeginsMove, Within;
    var events := TurnEvents(turn);
    assert TurnEvents(turn.(moved := turn.moved + [Ended])) == events + [Ended];
    assert trace + events + [Ended] == trace + (events + [Ended]);
    JustEnded(feToBe, beToFe);
    StopAfter(events, [Ended]);
    if Within(events, feToBe, beToFe) {
      JoinWithin(events, [Ended], feToBe, beToFe);
    }
  }

  lemma JustEnded(feToBe: bool, beToFe: bool)
    ensures EndsInStop([Ended]) && Within([Ended], feToBe, beToFe)
  {
  }

  /** What consistency means for the traffic: in each direction, and after each I/O event so
      far, what was received is what was sent and then at most one message; nothing moved
      while paused; and the capture socket was offered every forwarded message, in order. */
  lemma ConsistencyMeans(p: ProxyCtx, d: Direction, k: nat)
    requires p.Consistent() && k <= |p.trace|
    ensures Conserved(p.trace, d, HandOf(p.Pending(d)))
    ensures Conserved(p.trace[..k], d, Hands(LedgerOf(p.trace[..k]), d))
    ensures k < |p.trace| && Moves(p.trace[k]) ==> Active(p.trace[..k])
    ensures AllOffered(p.trace) == if p.hasCapture then AllSent(p.trace) else []
  {
    hide LedgerOf, AllOffered, AllSent, Conserved, Active;
    Conservation(p.trace, d);
    BrokenStaysBroken(p.trace, k, d);
    Conservation(p.trace[..k], d);
    if k < |p.trace| && Moves(p.trace[k]) {
      QuietMeansPaused(p.trace, k);
    }
  }

  function HandOf(p: Option<Msg>): Hand {
    if p.Some? then Holds(p.value) else Free
  }

  function Holding(l: Ledger, d: Direction, m: Msg): Ledger {
    if d.FrontendToBackend? then l.(fe := Holds(m)) else l.(be := Holds(m))
  }

  function Freed(l: Ledger, d: Direction): Ledger {
    if d.FrontendToBackend? then l.(fe := Free) else l.(be := Free)
  }

  function ControlEvent(a: ControlAnswer): Event {
    match a
    case NothingThere => NoCommand
    case GotCommand(text) => Command(text)
    case ControlError => ControlFailed
  }

  function ActionOn(e: Event): ControlAction {
    if e.ControlFailed? then Abort else if e.Command? && Terminates(e.text) then Terminate else Continue
  }

  function RecvEvent(d: Direction, a: RecvAnswer): Event {
    match a
    case GotMessage(m) => Received(Source(d), m)
    case GotNothing => NoInput(Source(d))
    case RecvError => ReceiveFailed(Source(d))
  }

  function SendEvents(d: Direction, m: Msg, a: SendAnswer, capture: bool): seq<Event> {
    match a
    case Accepted => [Sent(Target(d), m)] + if capture then [Offered(m)] else []
    case TargetFull => [Refused(Target(d), m)]
    case SendError => [SendFailed(Target(d), m)]
  }

  /** What a read adds to the ledger. */
  lemma RecvPosts(trace: seq<Event>, d: Direction, a: RecvAnswer)
    requires LedgerOf(trace).active && LedgerOf(trace).quiet
    ensures var l, l' := LedgerOf(trace), LedgerOf(trace + [RecvEvent(d, a)]);
            && (!a.GotMessage? ==> l' == l)
            && (a.GotMessage? && Hands(l, d).Free? ==> l' == Holding(l, d, a.m))
    ensures AllSent(trace + [RecvEvent(d, a)]) == AllSent(trace)
    ensures AllOffered(trace + [RecvEvent(d, a)]) == AllOffered(trace)
    ensures OnlyIn([RecvEvent(d, a)], d)
  {
    hide LedgerOf, AllSent, AllOffered;
    LedgerSnoc(trace, RecvEvent(d, a));
    SplitSent(trace, [RecvEvent(d, a)]);
    SentOne(RecvEvent(d, a));
  }

  /** What a send adds to the ledger. */
  lemma SendPosts(trace: seq<Event>, d: Direction, m: Msg, a: SendAnswer, capture: bool)
    requires LedgerOf(trace).active && LedgerOf(trace).quiet && Hands(LedgerOf(trace), d) == Holds(m)
    ensures var events := SendEvents(d, m, a, capture);
            var l, l' := LedgerOf(trace), LedgerOf(trace + events);
            && (a.Accepted? ==> l' == Freed(l, d))
            && (!a.Accepted? ==> l' == l)
            && SendCount(events) == (if a.Accepted? then 1 else 0)
            && OnlyIn(events, d)
    ensures var events := SendEvents(d, m, a, capture);
            AllOffered(trace) == (if capture then AllSent(trace) else []) ==>
              AllOffered(trace + events) == if capture then AllSent(trace + events) else []
  {
    hide LedgerOf, AllSent, AllOffered;
    var events := SendEvents(d, m, a, capture);
    var first := events[0];
    LedgerSnoc(trace, first);
    SplitSent(trace, events);
    SentOne(first);
    if a.Accepted? && capture {
      assert events == [first] + [Offered(m)];
      LedgerSnoc(trace + [first], Offered(m));
      SplitSent([first], [Offered(m)]);
      SentOne(Offered(m));
      assert trace + events == trace + [first] + [Offered(m)];
    } else {
      assert events == [first];
    }
  }

  lemma JoinOnlyIn(a: seq<Event>, b: seq<Event>, d: Direction)
    requires OnlyIn(a, d) && OnlyIn(b, d)
    ensures OnlyIn(a + b, d)
  {
  }

  /** The events of a burst so far: one direction only, `n` sends, and nothing that stops. */
  predicate Burst(events: seq<Event>, d: Direction, n: nat) {
    OnlyIn(events, d) && SendCount(events) == n && GoesOn(events)
  }

  lemma NothingIn(d: Direction)
    ensures Burst([], d, 0) && OnlyIn([], d)
  {
  }

  /** The ways in which an attempt leads nowhere. */
  lemma StuckEvents(d: Direction)
    ensures Stuck(d, false, []) && Stuck(d, true, [NoInput(Source(d))])
    ensures forall m :: Stuck(d, true, [Refused(Target(d), m)])
  {
  }

  lemma PassedOn(events: seq<Event>, d: Direction)
    requires BeginsMove(events, d) && events[0].Sent? && SendCount(events) == 1
    ensures GoesFarEnough(events, d, BURST_SIZE)
  {
  }

  lemma BurstMeans(events: seq<Event>, d: Direction, n: nat)
    requires Burst(events, d, n)
    ensures OnlyIn(events, d) && SendCount(events) == n && GoesOn(events)
  {
  }

  lemma StepGoesOn(d: Direction, m: Msg, a: SendAnswer, capture: bool)
    ensures var step := SendEvents(d, m, a, capture);
            && OnlyIn(step, d) && SendCount(step) == (if a.Accepted? then 1 else 0)
            && (if a.SendError? then EndsInStop(step) else GoesOn(step))
            && step != [] && (a.TargetFull? ==> CannotMove(step[|step| - 1], d))
  {
    hide AllSent;
    var step := SendEvents(d, m, a, capture);
    SentOne(step[0]);
    if a.Accepted? && capture {
      SplitSent([step[0]], [Offered(m)]);
      SentOne(Offered(m));
      assert step == [step[0]] + [Offered(m)];
    } else {
      assert step == [step[0]];
    }
  }

  lemma BurstSends(events: seq<Event>, d: Direction, n: nat, m: Msg, a: SendAnswer, capture: bool)
    requires Burst(events, d, n)
    ensures var events' := events + SendEvents(d, m, a, capture);
            && events' != []
            && (a.Accepted? ==> Burst(events', d, n + 1))
            && (a.TargetFull? ==> Burst(events', d, n) && CannotMove(events'[|events'| - 1], d))
            && (a.SendError? ==> OnlyIn(events', d) && SendCount(events') == n && EndsInStop(events'))
  {
    hide AllSent, AllOffered, SendEvents, OnlyIn, GoesOn, EndsInStop;
    var step := SendEvents(d, m, a, capture);
    StepGoesOn(d, m, a, capture);
    SplitSent(events, step);
    JoinOnlyIn(events, step, d);
    StopAfter(events, step);
  }

  lemma ReadGoesOn(d: Direction, a: RecvAnswer)
    ensures var step := [RecvEvent(d, a)];
            && OnlyIn(step, d) && SendCount(step) == 0
            && (if a.RecvError? then EndsInStop(step) else GoesOn(step))
            && (a.GotNothing? ==> CannotMove(step[0], d))
  {
    SentOne(RecvEvent(d, a));
  }

  lemma BurstReceives(events: seq<Event>, d: Direction, n: nat, a: RecvAnswer)
    requires Burst(events, d, n)
    ensures var events' := events + [RecvEvent(d, a)];
            && (!a.RecvError? ==> Burst(events', d, n))
            && (a.GotNothing? ==> CannotMove(events'[|events'| - 1], d))
            && (a.RecvError? ==> OnlyIn(events', d) && SendCount(events') == n && EndsInStop(events'))
  {
    hide AllSent, AllOffered, RecvEvent, OnlyIn, GoesOn, EndsInStop;
    var step := [RecvEvent(d, a)];
    ReadGoesOn(d, a);
    SplitSent(events, step);
    JoinOnlyIn(events, step, d);
    StopAfter(events, step);
  }
}
