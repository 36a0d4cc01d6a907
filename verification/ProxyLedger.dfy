/** What a trace of proxy I/O says about conservation, pausing and capture, folded into one
    ledger, and what the ledger means. */
module ProxyLedger {
  import opened Words
  import opened Options

  type Msg = seq<Bytes>

  datatype Direction = FrontendToBackend | BackendToFrontend

  function Opposite(d: Direction): Direction {
    if d.FrontendToBackend? then BackendToFrontend else FrontendToBackend
  }

  /** The two sockets between which messages are forwarded. */
  datatype Side = Frontend | Backend

  /** The I/O of a proxy: reads from one socket and writes to the other, copies offered to the
      capture socket, looks at the control socket, and the end of the context or of polling. */
  datatype Event =
    | Received(from: Side, m: Msg)
    | NoInput(from: Side)
    | ReceiveFailed(from: Side)
    | Sent(to: Side, m: Msg)
    | Refused(to: Side, m: Msg)
    | SendFailed(to: Side, m: Msg)
    | Offered(m: Msg)
    | Command(text: string)
    | NoCommand
    | ControlFailed
    | Ended

  /** Data-path events: nothing of the kind may happen while the proxy is paused. */
  predicate Moves(e: Event) {
    !e.Command? && !e.NoCommand? && !e.ControlFailed? && !e.Ended?
  }

  predicate Terminates(text: string) {
    text == "TERMINATE" || text == "KILL"
  }

  /** The events at which the proxy returns to its caller. */
  predicate Stops(e: Event) {
    || e.ReceiveFailed? || e.SendFailed? || e.ControlFailed? || e.Ended?
    || (e.Command? && Terminates(e.text))
  }

  predicate GoesOn(events: seq<Event>) {
    forall i :: 0 <= i < |events| ==> !Stops(events[i])
  }

  /** The last event stops the proxy, and none before it does. */
  predicate EndsInStop(events: seq<Event>) {
    events != [] && Stops(events[|events| - 1]) && GoesOn(events[..|events| - 1])
  }

  /** From the frontend to the backend means: read at the frontend, written to the backend. */
  predicate InDirection(e: Event, d: Direction) {
    match e
    case Received(from, _) => from.Frontend? == d.FrontendToBackend?
    case NoInput(from) => from.Frontend? == d.FrontendToBackend?
    case ReceiveFailed(from) => from.Frontend? == d.FrontendToBackend?
    case Sent(to, _) => to.Backend? == d.FrontendToBackend?
    case Refused(to, _) => to.Backend? == d.FrontendToBackend?
    case SendFailed(to, _) => to.Backend? == d.FrontendToBackend?
    case _ => false
  }

  /** Whether a direction is switched on. */
  predicate On(d: Direction, feToBe: bool, beToFe: bool) {
    if d.FrontendToBackend? then feToBe else beToFe
  }

  /** No I/O in a direction that is switched off. */
  predicate Within(events: seq<Event>, feToBe: bool, beToFe: bool) {
    forall i :: 0 <= i < |events| ==>
      && (InDirection(events[i], FrontendToBackend) ==> feToBe)
      && (InDirection(events[i], BackendToFrontend) ==> beToFe)
  }

  // ---- The simple view of a trace ----

  function ReceivedFrom(trace: seq<Event>, from: Side): seq<Msg> {
    if trace == [] then []
    else
      var e := trace[|trace| - 1];
      ReceivedFrom(trace[..|trace| - 1], from) + if e.Received? && e.from == from then [e.m] else []
  }

  function SentTo(trace: seq<Event>, to: Side): seq<Msg> {
    if trace == [] then []
    else
      var e := trace[|trace| - 1];
      SentTo(trace[..|trace| - 1], to) + if e.Sent? && e.to == to then [e.m] else []
  }

  function AllSent(trace: seq<Event>): seq<Msg> {
    if trace == [] then []
    else
      var e := trace[|trace| - 1];
      AllSent(trace[..|trace| - 1]) + if e.Sent? then [e.m] else []
  }

  function AllOffered(trace: seq<Event>): seq<Msg> {
    if trace == [] then []
    else
      var e := trace[|trace| - 1];
      AllOffered(trace[..|trace| - 1]) + if e.Offered? then [e.m] else []
  }

  function SendCount(trace: seq<Event>): nat {
    |AllSent(trace)|
  }

  /** Whether the last of the PAUSE and RESUME commands, if any, was RESUME. */
  predicate Active(trace: seq<Event>) {
    if trace == [] then true
    else
      var e := trace[|trace| - 1];
      if e == Command("PAUSE") then false
      else if e == Command("RESUME") then true
      else Active(trace[..|trace| - 1])
  }

  // ---- The ledger ----

  /** The message the proxy has read in a direction and not yet passed on. */
  datatype Hand = Free | Holds(m: Msg) | Broken

  function HandAfter(h: Hand, e: Event, d: Direction): Hand {
    if !InDirection(e, d) then h
    else
      match e
      case Received(_, m) => if h.Free? then Holds(m) else Broken
      case Sent(_, m) => if h == Holds(m) then Free else Broken
      case Refused(_, m) => if h == Holds(m) then h else Broken
      case _ => h
  }

  datatype Ledger = Ledger(fe: Hand, be: Hand, active: bool, quiet: bool)

  function Hands(l: Ledger, d: Direction): Hand {
    if d.FrontendToBackend? then l.fe else l.be
  }

  /** `quiet` records that nothing has moved while paused. */
  function Post(l: Ledger, e: Event): Ledger {
    Ledger(HandAfter(l.fe, e, FrontendToBackend), HandAfter(l.be, e, BackendToFrontend),
           ModeAfter(l.active, e),
           l.quiet && (Moves(e) ==> l.active))
  }

  function ModeAfter(active: bool, e: Event): bool {
    if e == Command("PAUSE") then false else if e == Command("RESUME") then true else active
  }

  function LedgerOf(trace: seq<Event>): Ledger {
    if trace == [] then Ledger(Free, Free, true, true)
    else Post(LedgerOf(trace[..|trace| - 1]), trace[|trace| - 1])
  }

  lemma LedgerSnoc(trace: seq<Event>, e: Event)
    ensures LedgerOf(trace + [e]) == Post(LedgerOf(trace), e)
  {
    assert (trace + [e])[..|trace|] == trace;
  }

  function HeldMessages(h: Hand): seq<Msg> {
    if h.Holds? then [h.m] else []
  }

  lemma {:induction false} ActiveIsLast(trace: seq<Event>)
    ensures LedgerOf(trace).active == Active(trace)
  {
    if trace != [] {
      ActiveIsLast(trace[..|trace| - 1]);
    }
  }

  lemma {:induction false} BrokenStaysBroken(trace: seq<Event>, k: nat, d: Direction)
    requires k <= |trace| && !Hands(LedgerOf(trace), d).Broken?
    ensures !Hands(LedgerOf(trace[..k]), d).Broken?
  {
    if k < |trace| {
      var init := trace[..|trace| - 1];
      assert trace[..k] == init[..k];
      BrokenStaysBroken(init, k, d);
    } else {
      assert trace[..k] == trace;
    }
  }

  /** What was read at the frontend is what was written to the backend followed by the at most
      one message in hand, and likewise the other way round. */
  predicate Conserved(trace: seq<Event>, d: Direction, h: Hand) {
    match d
    case FrontendToBackend => ReceivedFrom(trace, Frontend) == SentTo(trace, Backend) + HeldMessages(h)
    case BackendToFrontend => ReceivedFrom(trace, Backend) == SentTo(trace, Frontend) + HeldMessages(h)
  }

  /** Conservation, as long as the ledger is in order. */
  lemma {:induction false} Conservation(trace: seq<Event>, d: Direction)
    requires !Hands(LedgerOf(trace), d).Broken?
    ensures Conserved(trace, d, Hands(LedgerOf(trace), d))
  {
    if trace != [] {
      var init, e := trace[..|trace| - 1], trace[|trace| - 1];
      Conservation(init, d);
      var h, to := Hands(LedgerOf(init), d), if d.FrontendToBackend? then Backend else Frontend;
      if e.Sent? && e.to == to {
        assert SentTo(init, to) + [h.m] == SentTo(trace, to) + [];
      }
    }
  }

  lemma {:induction false} QuietMeansPaused(trace: seq<Event>, i: nat)
    requires LedgerOf(trace).quiet && i < |trace| && Moves(trace[i])
    ensures Active(trace[..i])
  {
    var last := |trace| - 1;
    if i == last {
      ActiveIsLast(trace[..i]);
    } else {
      assert trace[..last][..i] == trace[..i];
      QuietMeansPaused(trace[..last], i);
    }
  }

  lemma {:induction false} SplitSent(a: seq<Event>, b: seq<Event>)
    ensures AllSent(a + b) == AllSent(a) + AllSent(b)
    ensures AllOffered(a + b) == AllOffered(a) + AllOffered(b)
  {
    if b == [] {
      assert a + b == a;
    } else {
      var last := |b| - 1;
      assert (a + b)[..|a| + last] == a + b[..last];
      SplitSent(a, b[..last]);
      var sent, offered := if b[last].Sent? then [b[last].m] else [], if b[last].Offered? then [b[last].m] else [];
      assert AllSent(a) + AllSent(b[..last]) + sent == AllSent(a) + (AllSent(b[..last]) + sent);
      assert AllOffered(a) + AllOffered(b[..last]) + offered == AllOffered(a) + (AllOffered(b[..last]) + offered);
    }
  }

  lemma JoinWithin(a: seq<Event>, b: seq<Event>, feToBe: bool, beToFe: bool)
    requires Within(a, feToBe, beToFe) && Within(b, feToBe, beToFe)
    ensures Within(a + b, feToBe, beToFe)
  {
  }

  lemma OnlyInWithin(events: seq<Event>, d: Direction, feToBe: bool, beToFe: bool)
    requires OnlyIn(events, d) && (events != [] ==> On(d, feToBe, beToFe))
    ensures Within(events, feToBe, beToFe)
  {
  }

  lemma SentOne(e: Event)
    ensures AllSent([e]) == if e.Sent? then [e.m] else []
    ensures AllOffered([e]) == if e.Offered? then [e.m] else []
  {
    assert [e][..0] == [];
  }

  // ---- Turns ----

  /** One pass of the main loop: the command handled, the attempt of the preferred direction
      that led nowhere, and the moves of the direction that made progress. */
  datatype Turn = Turn(preferred: Direction, active: bool, progress: Option<Direction>,
                       control: seq<Event>, tried: seq<Event>, moved: seq<Event>)

  function TurnEvents(t: Turn): seq<Event> {
    t.control + t.tried + t.moved
  }

  /** The I/O of a list of turns. */
  function Events(turns: seq<Turn>): seq<Event> {
    if turns == [] then [] else Events(turns[..|turns| - 1]) + TurnEvents(turns[|turns| - 1])
  }

  lemma EventsSnoc(turns: seq<Turn>, t: Turn)
    ensures Events(turns + [t]) == Events(turns) + TurnEvents(t)
  {
    assert (turns + [t])[..|turns|] == turns;
  }

  lemma {:induction false} EventsAt(turns: seq<Turn>, j: nat)
    requires j < |turns|
    ensures var a, n := |Events(turns[..j])|, |TurnEvents(turns[j])|;
            a + n <= |Events(turns)| && Events(turns)[a..a + n] == TurnEvents(turns[j])
  {
    hide TurnEvents;
    var init := turns[..|turns| - 1];
    if j == |init| {
      assert turns[..j] == init;
    } else {
      assert init[..j] == turns[..j];
      EventsAt(init, j);
    }
  }

  /** Nothing to read at the source, or the target does not take the message. */
  predicate CannotMove(e: Event, d: Direction) {
    (e.NoInput? || e.Refused?) && InDirection(e, d)
  }

  /** An attempt that cannot move: disabled, nothing to read, or the target is full. */
  predicate Stuck(d: Direction, enabled: bool, tried: seq<Event>) {
    if !enabled then tried == []
    else |tried| == 1 && CannotMove(tried[0], d)
  }

  predicate OnlyIn(events: seq<Event>, d: Direction) {
    forall i :: 0 <= i < |events| ==> InDirection(events[i], d) || events[i].Offered?
  }

  /** Progress starts with a message read, or with a pending one passed on. */
  predicate BeginsMove(events: seq<Event>, d: Direction) {
    events != [] && (events[0].Received? || events[0].Sent?) && InDirection(events[0], d)
  }

  /** A pending message passed on is the whole move. Messages read are passed on one after the
      other until `burst` have been or the direction cannot move. */
  predicate GoesFarEnough(events: seq<Event>, d: Direction, burst: nat)
    requires events != []
  {
    if events[0].Sent? then SendCount(events) == 1
    else SendCount(events) == burst || (SendCount(events) < burst && CannotMove(events[|events| - 1], d))
  }

  /** A turn without progress means that the proxy is paused, or that both directions were
      attempted and neither could move. A turn with progress moves one direction only, by at
      most a burst, after the preferred direction, if that is the other one, could not move. */
  predicate FairTurn(t: Turn, feToBe: bool, beToFe: bool, burst: nat) {
    && GoesOn(TurnEvents(t))
    && match t.progress
    case None =>
      if t.active then
        && Stuck(t.preferred, On(t.preferred, feToBe, beToFe), t.tried)
        && Stuck(Opposite(t.preferred), On(Opposite(t.preferred), feToBe, beToFe), t.moved)
      else t.tried == [] && t.moved == []
    case Some(d) =>
      && t.active
      && On(d, feToBe, beToFe)
      && BeginsMove(t.moved, d)
      && OnlyIn(t.moved, d)
      && GoesFarEnough(t.moved, d, burst)
      && (d == t.preferred ==> t.tried == [])
      && (d != t.preferred ==> Stuck(t.preferred, On(t.preferred, feToBe, beToFe), t.tried))
  }

  /** A turn that attempted a direction and found that it could not move. */
  predicate FoundStuck(t: Turn, d: Direction) {
    exists i :: 0 <= i < |TurnEvents(t)| && CannotMove(TurnEvents(t)[i], d)
  }

  /** An active turn without progress attempted every direction that is on. */
  lemma IdleTurnTriedAll(t: Turn, feToBe: bool, beToFe: bool, burst: nat)
    requires FairTurn(t, feToBe, beToFe, burst) && t.active && t.progress == None
    ensures feToBe ==> FoundStuck(t, FrontendToBackend)
    ensures beToFe ==> FoundStuck(t, BackendToFrontend)
  {
    var events := TurnEvents(t);
    if On(t.preferred, feToBe, beToFe) {
      assert events[|t.control|] == t.tried[0];
    }
    if On(Opposite(t.preferred), feToBe, beToFe) {
      assert events[|t.control| + |t.tried|] == t.moved[0];
    }
  }

  function NextPreferred(t: Turn): Direction {
    match t.progress
    case None => t.preferred
    case Some(d) => Opposite(d)
  }

  /** Turns as the main loop chains them. */
  predicate Chained(turns: seq<Turn>) {
    forall i, j :: 0 <= i && j == i + 1 < |turns| ==> turns[j].preferred == NextPreferred(turns[i])
  }

  /** The mode of every turn is what the commands up to then say. */
  predicate ModesFollow(before: seq<Event>, turns: seq<Turn>) {
    forall k :: 0 <= k < |turns| ==> turns[k].active == Active(before + Events(turns[..k + 1]))
  }

  lemma ModesSnoc(before: seq<Event>, turns: seq<Turn>, t: Turn)
    requires ModesFollow(before, turns) && t.active == Active(before + Events(turns + [t]))
    ensures ModesFollow(before, turns + [t])
  {
    hide Active, Events;
    var turns' := turns + [t];
    forall k | 0 <= k < |turns'| ensures turns'[k].active == Active(before + Events(turns'[..k + 1])) {
      if k < |turns| {
        assert turns'[..k + 1] == turns[..k + 1];
      } else {
        assert turns'[..k + 1] == turns';
      }
    }
  }

  lemma ChainedSnoc(turns: seq<Turn>, t: Turn)
    requires Chained(turns) && (turns != [] ==> t.preferred == NextPreferred(turns[|turns| - 1]))
    ensures Chained(turns + [t])
  {
  }

  lemma {:induction false} PreferredStays(turns: seq<Turn>, i: nat, j: nat)
    requires Chained(turns) && i < j < |turns|
    requires forall k :: i < k < j ==> turns[k].progress == None
    ensures turns[j].preferred == NextPreferred(turns[i])
  {
    var k := j - 1;
    assert turns[j].preferred == NextPreferred(turns[k]);
    if i < k {
      PreferredStays(turns, i, k);
    }
  }

  /** Fairness, on the I/O that happened. Let `trace` be `before`, then the I/O of `turns`,
      then more. When one direction makes progress in turns `i` and `j` with no progress of
      the other in between, then in turn `j`, right after the look at the control socket, the
      trace holds an attempt of the other direction that could not move, followed by moves of
      this direction only, starting with a message read or passed on, as far as a burst goes. */
  lemma NoStarvation(before: seq<Event>, turns: seq<Turn>, after: seq<Event>, feToBe: bool, beToFe: bool, burst: nat,
                     i: nat, j: nat, d: Direction)
    requires Chained(turns) && forall k :: 0 <= k < |turns| ==> FairTurn(turns[k], feToBe, beToFe, burst)
    requires i < j < |turns| && turns[i].progress == Some(d) && turns[j].progress == Some(d)
    requires forall k :: i < k < j ==> turns[k].progress == None
    ensures var trace := before + Events(turns) + after;
            var a := |before| + |Events(turns[..j])| + |turns[j].control|;
            var b := a + |turns[j].tried|;
            var c := b + |turns[j].moved|;
            && c <= |trace|
            && Stuck(Opposite(d), On(Opposite(d), feToBe, beToFe), trace[a..b])
            && BeginsMove(trace[b..c], d) && OnlyIn(trace[b..c], d) && GoesFarEnough(trace[b..c], d, burst)
  {
    hide Events, Stuck, OnlyIn, GoesFarEnough, GoesOn;
    PreferredStays(turns, i, j);
    assert FairTurn(turns[j], feToBe, beToFe, burst);
    EventsAt(turns, j);
    SliceOfTurn(before, Events(turns), after, |Events(turns[..j])|, turns[j]);
  }

  lemma SliceOfTurn(before: seq<Event>, all: seq<Event>, after: seq<Event>, at: nat, t: Turn)
    requires at + |TurnEvents(t)| <= |all| && all[at..at + |TurnEvents(t)|] == TurnEvents(t)
    ensures var trace := before + all + after;
            var a := |before| + at + |t.control|;
            var b := a + |t.tried|;
            var c := b + |t.moved|;
            c <= |trace| && trace[a..b] == t.tried && trace[b..c] == t.moved
  {
    var trace := before + all + after;
    var p, n := |before| + at, |TurnEvents(t)|;
    var a := p + |t.control|;
    assert trace[p..p + n] == TurnEvents(t);
    SliceOfSlice(trace, p, |t.control|, |t.tried|, n);
    SliceOfSlice(trace, p, |t.control| + |t.tried|, |t.moved|, n);
  }

  lemma SliceOfSlice(s: seq<Event>, p: nat, from: nat, len: nat, n: nat)
    requires from + len <= n && p + n <= |s|
    ensures s[p + from..p + from + len] == s[p..p + n][from..from + len]
  {
    var l, r := s[p + from..p + from + len], s[p..p + n][from..from + len];
    assert |l| == |r| && forall i :: 0 <= i < len ==> l[i] == s[p + from + i] == r[i];
  }
}
