/** The per-socket-type state behind REQ and REP: who may send when, and the routing
    envelope a reply travels back with. */
module TypeState {
  import opened Words
  import opened Options
  import opened Message

  datatype SocketType =
    | Req | Rep | Pub | Sub | XPub | XSub | Push | Pull | Dealer | Router | Pair
    | Client | Server | Radio | Dish | Scatter | Gather | Channel | Peer | Stream

  datatype Result<T> = Ok(value: T) | ProtocolError

  // ---- Envelopes ----

  predicate NoneEmpty(parts: seq<Bytes>) {
    forall i :: 0 <= i < |parts| ==> parts[i] != []
  }

  /** Whether `k` is the place of the first empty part. */
  predicate FirstEmpty(parts: seq<Bytes>, k: nat) {
    k < |parts| && parts[k] == [] && forall i :: 0 <= i < k ==> parts[i] != []
  }

  /** The place of the first empty part. */
  function EnvelopeEnd(parts: seq<Bytes>): (r: Option<nat>)
    ensures r.None? ==> NoneEmpty(parts)
    ensures r.Some? ==> FirstEmpty(parts, r.value)
  {
    if parts == [] then None
    else if parts[0] == [] then Some(0)
    else
      match EnvelopeEnd(parts[1..])
      case None => None
      case Some(k) => Some(k + 1)
  }

  lemma EnvelopeEndIs(parts: seq<Bytes>, at: Option<nat>)
    requires at.None? ==> NoneEmpty(parts)
    requires at.Some? ==> FirstEmpty(parts, at.value)
    ensures EnvelopeEnd(parts) == at
  {
    var r := EnvelopeEnd(parts);
    assert r.Some? && at.Some? ==> r.value == at.value;
  }

  /** The parts before and after the first empty part, if there is one. */
  function SplitEnvelope(parts: seq<Bytes>): Option<(seq<Bytes>, seq<Bytes>)> {
    match EnvelopeEnd(parts)
    case None => None
    case Some(k) => Some((parts[..k], parts[k + 1..]))
  }

  /** The envelope ends at the first empty part, whatever empty parts the body contains. */
  lemma SplitFindsEnvelope(envelope: seq<Bytes>, body: seq<Bytes>)
    requires NoneEmpty(envelope)
    ensures SplitEnvelope(envelope + [[]] + body) == Some((envelope, body))
  {
    var parts := envelope + [[]] + body;
    assert forall i :: 0 <= i < |envelope| ==> parts[i] == envelope[i];
    assert parts[..|envelope|] == envelope;
    assert parts[|envelope| + 1..] == body;
    EnvelopeEndIs(parts, Some(|envelope|));
  }

  method FindEmpty(ps: seq<Payload>) returns (at: Option<nat>)
    requires ValidPayloads(ps)
    ensures at.None? ==> NoneEmpty(Slices(ps))
    ensures at.Some? ==> FirstEmpty(Slices(ps), at.value)
  {
    for i := 0 to |ps|
      invariant NoneEmpty(Slices(ps)[..i])
    {
      if IsEmptyPayload(ps[i]) {
        return Some(i);
      }
      assert Slices(ps)[..i + 1] == Slices(ps)[..i] + [Slices(ps)[i]];
    }
    assert Slices(ps)[..|ps|] == Slices(ps);
    return None;
  }

  /** The discipline on the number of parts that some types impose on every send. */
  predicate PartsAllowed(t: SocketType, parts: seq<Bytes>, routed: bool) {
    match t
    case Client => |parts| == 1
    case Scatter => |parts| == 1
    case Gather => |parts| == 1
    case Channel => |parts| == 1
    case Server => |parts| == 1 && routed
    case Stream => |parts| == 2
    case _ => true
  }

  method PartCountAllowed(t: SocketType, m: Message) returns (ok: bool)
    requires ValidMessage(m)
    ensures ok <==> PartsAllowed(t, Parts(m), RoutingId(m).Some?)
  {
    ok := true;
    if (t.Client? || t.Scatter? || t.Gather? || t.Channel?) && Len(m) != 1 {
      ok := false;
    } else if t.Server? && (Len(m) != 1 || RoutingId(m).None?) {
      ok := false;
    } else if t.Stream? && Len(m) != 2 {
      ok := false;
    }
  }

  // ---- The protocol as a transition system ----

  /** The state of a socket: REQ's outstanding request and REP's saved envelope. */
  datatype Protocol = Protocol(awaiting: bool, envelope: Option<seq<Bytes>>)

  const START := Protocol(false, None)

  /** One send: the message that goes out, or a refusal, and the new state. */
  function SendStep(st: Protocol, t: SocketType, m: Message): (Result<Message>, Protocol)
    requires ValidMessage(m)
  {
    if !PartsAllowed(t, Parts(m), RoutingId(m).Some?) then (ProtocolError, st)
    else if t.Req? then
      if st.awaiting then (ProtocolError, st) else (Ok(PrependEmptyDelimiter(m)), st.(awaiting := true))
    else if t.Rep? then
      match st.envelope
      case None => (ProtocolError, st)
      case Some(envelope) => (Ok(WithRepEnvelope(envelope, m)), st.(envelope := None))
    else (Ok(m), st)
  }

  /** The message without its first `n` parts. */
  function WithoutFront(m: Message, n: nat): (r: Message)
    requires ValidMessage(m) && n <= |Parts(m)|
    ensures ValidMessage(r) && Parts(r) == Parts(m)[n..]
  {
    var parts := PartsPayload(m);
    DropFront(parts, n);
    FromPayloads(parts[n..])
  }

  /** One receive: the message shown to the application, or a silent drop, and the new state. */
  function RecvStep(st: Protocol, t: SocketType, m: Message): (Option<Message>, Protocol)
    requires ValidMessage(m)
  {
    match t
    case Req =>
      if !st.awaiting || Parts(m) == [] || Parts(m)[0] != [] then (None, st)
      else (Some(WithoutFront(m, 1)), st.(awaiting := false))
    case Dish => (if |Parts(m)| != 2 then None else Some(m), st)
    case Rep =>
      (match EnvelopeEnd(Parts(m))
       case None => (None, st)
       case Some(k) => (Some(WithoutFront(m, k + 1)), st.(envelope := Some(Parts(m)[..k]))))
    case _ => (Some(m), st)
  }

  /** What a send promises: refused exactly when the part count is wrong, a REQ still waits
      for a reply, or a REP has no request to answer; a refusal changes nothing. */
  predicate SendMeaning(st: Protocol, t: SocketType, m: Message, r: Result<Message>, st': Protocol)
    requires ValidMessage(m)
  {
    && (r.Ok? <==>
          && PartsAllowed(t, Parts(m), RoutingId(m).Some?)
          && (t.Req? ==> !st.awaiting) && (t.Rep? ==> st.envelope.Some?))
    && (!r.Ok? ==> st' == st)
    && (r.Ok? ==> ValidMessage(r.value))
    && (r.Ok? && t.Req? ==>
          && st' == st.(awaiting := true)
          && Parts(r.value) == if CompactDelimited(m) then Parts(m) else [[]] + Parts(m))
    && (r.Ok? && t.Rep? ==>
          st' == st.(envelope := None) && Parts(r.value) == st.envelope.value + [[]] + Parts(m))
    && (r.Ok? && !t.Req? && !t.Rep? ==> st' == st && r.value == m)
  }

  /** What a receive promises: REQ accepts exactly an awaited reply that starts with the
      delimiter; REP accepts exactly a request with a delimiter and saves what precedes it. */
  predicate RecvMeaning(st: Protocol, t: SocketType, m: Message, r: Option<Message>, st': Protocol)
    requires ValidMessage(m)
  {
    && (r.Some? ==> ValidMessage(r.value))
    && (r.None? ==> st' == st)
    && (t.Req? ==>
          && (r.Some? <==> st.awaiting && Parts(m) != [] && Parts(m)[0] == [])
          && (r.Some? ==> st' == st.(awaiting := false) && Parts(r.value) == Parts(m)[1..]))
    && (t.Rep? ==>
          && (r.Some? <==> SplitEnvelope(Parts(m)).Some?)
          && (r.Some? ==>
                && Parts(r.value) == SplitEnvelope(Parts(m)).value.1
                && st' == st.(envelope := Some(SplitEnvelope(Parts(m)).value.0))))
    && (!t.Req? && !t.Rep? ==> st' == st && r == if t.Dish? && |Parts(m)| != 2 then None else Some(m))
  }

  lemma SendStepMeans(st: Protocol, t: SocketType, m: Message)
    requires ValidMessage(m)
    ensures var (r, st') := SendStep(st, t, m); SendMeaning(st, t, m, r, st')
  {
    hide Parts, ValidMessage, PrependEmptyDelimiter, WithRepEnvelope, RoutingId, CompactDelimited, PartsAllowed;
  }

  lemma RecvStepMeans(st: Protocol, t: SocketType, m: Message)
    requires ValidMessage(m)
    ensures var (r, st') := RecvStep(st, t, m); RecvMeaning(st, t, m, r, st')
  {
    hide Parts, ValidMessage, WithoutFront, EnvelopeEnd;
  }

  // ---- The state in place ----

  class TypeState {
    var reqAwaitingReply: bool
    var repEnvelope: Option<seq<Bytes>>

    function View(): Protocol
      reads this
    {
      Protocol(reqAwaitingReply, repEnvelope)
    }

    constructor ()
      ensures View() == START
    {
      reqAwaitingReply, repEnvelope := false, None;
    }

    method OnPeerDisconnected()
      modifies this
      ensures View() == START
    {
      reqAwaitingReply, repEnvelope := false, None;
    }

    method PreSend(t: SocketType, m: Message) returns (r: Result<Message>)
      requires ValidMessage(m)
      modifies this
      ensures (r, View()) == SendStep(old(View()), t, m)
      ensures SendMeaning(old(View()), t, m, r, View())
    {
      hide Parts, ValidMessage, PrependEmptyDelimiter, WithRepEnvelope, RoutingId, CompactDelimited,
           SendMeaning, PartsAllowed;
      SendStepMeans(View(), t, m);
      var allowed := PartCountAllowed(t, m);
      if !allowed {
        return ProtocolError;
      }
      if t.Req? {
        if reqAwaitingReply {
          return ProtocolError;
        }
        reqAwaitingReply := true;
        return Ok(PrependEmptyDelimiter(m));
      } else if t.Rep? {
        if repEnvelope.None? {
          return ProtocolError;
        }
        var envelope := repEnvelope.value;
        repEnvelope := None;
        return Ok(WithRepEnvelope(envelope, m));
      }
      return Ok(m);
    }

    /** Strips the delimiter of a reply whether or not one is awaited. */
    method PostRecvReqDirect(m: Message) returns (r: Option<Message>)
      requires ValidMessage(m)
      modifies `reqAwaitingReply
      ensures r.Some? <==> Parts(m) != [] && Parts(m)[0] == []
      ensures r.Some? ==> r.value == WithoutFront(m, 1) && Parts(r.value) == Parts(m)[1..] && !reqAwaitingReply
      ensures r.None? ==> reqAwaitingReply == old(reqAwaitingReply)
    {
      hide Parts, ValidMessage, PartsPayload, FromPayloads;
      var parts := PartsPayload(m);
      if parts == [] || !IsEmptyPayload(parts[0]) {
        return None;
      }
      DropFront(parts, 1);
      reqAwaitingReply := false;
      return Some(FromPayloads(parts[1..]));
    }

    method PostRecv(t: SocketType, m: Message) returns (r: Option<Message>)
      requires ValidMessage(m)
      modifies this
      ensures (r, View()) == RecvStep(old(View()), t, m)
      ensures RecvMeaning(old(View()), t, m, r, View())
    {
      hide Parts, ValidMessage, PartsPayload, FromPayloads, SplitEnvelope, Slices, RecvMeaning, EnvelopeEnd;
      RecvStepMeans(View(), t, m);
      match t {
        case Req =>
          if !reqAwaitingReply {
            return None;
          }
          r := PostRecvReqDirect(m);
        case Dish =>
          return if Len(m) != 2 then None else Some(m);
        case Rep =>
          var parts := PartsPayload(m);
          var at := FindEmpty(parts);
          EnvelopeEndIs(Parts(m), at);
          if at.None? {
            return None;
          }
          repEnvelope := Some(CopyOut(parts, at.value));
          DropFront(parts, at.value + 1);
          return Some(FromPayloads(parts[at.value + 1..]));
        case _ =>
          return Some(m);
      }
    }
  }

  function CopyOut(ps: seq<Payload>, n: nat): (r: seq<Bytes>)
    requires ValidPayloads(ps) && n <= |ps|
    ensures r == Slices(ps)[..n]
  {
    Slices(ps[..n])
  }

  lemma DropFront(ps: seq<Payload>, n: nat)
    requires ValidPayloads(ps) && n <= |ps|
    ensures ValidPayloads(ps[n..]) && Slices(ps[n..]) == Slices(ps)[n..]
  {
  }

  // ---- A request and its reply across identity-routing hops ----

  /** The identities in the order a request carries them: the last hop's first. */
  function Outward(hops: seq<Bytes>): (r: seq<Bytes>)
    ensures |r| == |hops|
  {
    seq(|hops|, i requires 0 <= i < |hops| => hops[|hops| - 1 - i])
  }

  lemma OutwardSnoc(hops: seq<Bytes>, last: Bytes)
    ensures Outward(hops + [last]) == [last] + Outward(hops)
  {
  }

  lemma OutwardNonEmpty(hops: seq<Bytes>)
    requires NoneEmpty(hops)
    ensures NoneEmpty(Outward(hops))
  {
  }

  /** Each hop puts the identity of the peer it received from in front. */
  function ForwardAll(m: Message, hops: seq<Bytes>): (r: Message)
    requires ValidMessage(m)
    ensures ValidMessage(r)
  {
    if hops == [] then m else WithPrefix(hops[|hops| - 1], ForwardAll(m, hops[..|hops| - 1]))
  }

  /** On the way back each hop takes the first part as the peer to forward to. */
  function ReturnAll(m: Message, hops: seq<Bytes>): (r: Message)
    requires ValidMessage(m)
    ensures ValidMessage(r)
    decreases |hops|
  {
    if hops == [] then m else ReturnAll(Popped(m), hops[..|hops| - 1])
  }

  lemma {:induction false} ForwardAddsIdentities(m: Message, hops: seq<Bytes>)
    requires ValidMessage(m) && NoneEmpty(hops)
    ensures Parts(ForwardAll(m, hops)) == Outward(hops) + Parts(m)
  {
    hide Parts, ValidMessage, WithPrefix, Outward;
    if hops == [] {
      NoHops();
    } else {
      var init, last := hops[..|hops| - 1], hops[|hops| - 1];
      assert hops == init + [last];
      ForwardAddsIdentities(m, init);
      OutwardSnoc(init, last);
    }
  }

  lemma NoHops()
    ensures Outward([]) == []
  {
  }

  lemma {:induction false} ReturnStripsIdentities(m: Message, hops: seq<Bytes>, body: seq<Bytes>)
    requires ValidMessage(m) && Parts(m) == Outward(hops) + body
    ensures Parts(ReturnAll(m, hops)) == body
    decreases |hops|
  {
    hide Parts, ValidMessage, Popped, Outward;
    if hops == [] {
      NoHops();
    } else {
      var init, last := hops[..|hops| - 1], hops[|hops| - 1];
      assert hops == init + [last];
      OutwardSnoc(init, last);
      assert ([last] + Outward(init) + body)[1..] == Outward(init) + body;
      ReturnStripsIdentities(Popped(m), init, body);
    }
  }

  lemma CompactStartsEmpty(m: Message)
    requires ValidMessage(m)
    ensures CompactDelimited(m) ==> Parts(m) != [] && Parts(m) == [[]] + Parts(m)[1..]
  {
  }

  /** The parts of a request that reach REP's application. */
  function BodySeen(request: Message): seq<Bytes>
    requires ValidMessage(request)
  {
    CompactStartsEmpty(request);
    if CompactDelimited(request) then Parts(request)[1..] else Parts(request)
  }

  /** The way there: over any number of hops with non-empty identities, REP accepts the
      request, sees exactly its parts, unless it was in a compact delimited form, when it
      sees them without the leading empty part, and saves the identities. */
  lemma RequestArrives(req: Protocol, rep: Protocol, hops: seq<Bytes>, request: Message)
    requires !req.awaiting && NoneEmpty(hops) && ValidMessage(request)
    ensures var (sent, req') := SendStep(req, Req, request);
            && sent.Ok? && ValidMessage(sent.value) && req' == req.(awaiting := true)
            && var (seen, rep') := RecvStep(rep, Rep, ForwardAll(sent.value, hops));
               && seen.Some? && ValidMessage(seen.value) && Parts(seen.value) == BodySeen(request)
               && rep' == rep.(envelope := Some(Outward(hops)))
  {
    hide Parts, ValidMessage, Outward, SplitEnvelope, EnvelopeEnd, CompactDelimited, NoneEmpty, SendStep,
         RecvStep, ForwardAll;
    CompactStartsEmpty(request);
    SendStepMeans(req, Req, request);
    var sent := SendStep(req, Req, request).0;
    ForwardAddsIdentities(sent.value, hops);
    OutwardNonEmpty(hops);
    SplitFindsEnvelope(Outward(hops), BodySeen(request));
    assert Outward(hops) + ([[]] + BodySeen(request)) == Outward(hops) + [[]] + BodySeen(request);
    RecvStepMeans(rep, Rep, ForwardAll(sent.value, hops));
  }

  /** The way back: the reply carries the saved identities in front, and after each hop has
      taken its own, REQ accepts it and sees exactly the reply's parts. */
  lemma ReplyReturns(req: Protocol, rep: Protocol, hops: seq<Bytes>, reply: Message)
    requires req.awaiting && rep.envelope == Some(Outward(hops)) && ValidMessage(reply)
    ensures var (back, rep') := SendStep(rep, Rep, reply);
            && back.Ok? && ValidMessage(back.value) && rep' == rep.(envelope := None)
            && Outward(hops) <= Parts(back.value)
            && var (answer, req') := RecvStep(req, Req, ReturnAll(back.value, hops));
               && answer.Some? && ValidMessage(answer.value) && Parts(answer.value) == Parts(reply)
               && req' == req.(awaiting := false)
  {
    hide Parts, ValidMessage, Outward, SplitEnvelope, EnvelopeEnd, CompactDelimited, SendStep, RecvStep, ReturnAll;
    SendStepMeans(rep, Rep, reply);
    var back := SendStep(rep, Rep, reply).0;
    assert Outward(hops) + [[]] + Parts(reply) == Outward(hops) + ([[]] + Parts(reply));
    ReturnStripsIdentities(back.value, hops, [[]] + Parts(reply));
    RecvStepMeans(req, Req, ReturnAll(back.value, hops));
  }

  /** A full exchange: request there, reply back, and both ends are ready for the next. */
  lemma Exchange(req: Protocol, rep: Protocol, hops: seq<Bytes>, request: Message, reply: Message)
    requires !req.awaiting && NoneEmpty(hops) && ValidMessage(request) && ValidMessage(reply)
    ensures var (sent, req1) := SendStep(req, Req, request);
            && sent.Ok? && ValidMessage(sent.value)
            && var (seen, rep1) := RecvStep(rep, Rep, ForwardAll(sent.value, hops));
            && seen.Some? && ValidMessage(seen.value) && Parts(seen.value) == BodySeen(request)
            && var (back, rep2) := SendStep(rep1, Rep, reply);
            && back.Ok? && ValidMessage(back.value)
            && var (answer, req2) := RecvStep(req1, Req, ReturnAll(back.value, hops));
            && answer.Some? && ValidMessage(answer.value) && Parts(answer.value) == Parts(reply)
            && req2 == req && rep2 == rep.(envelope := None)
  {
    hide Parts, ValidMessage, Outward, NoneEmpty, SendStep, RecvStep, ForwardAll, ReturnAll, BodySeen;
    RequestArrives(req, rep, hops, request);
    var sent := SendStep(req, Req, request);
    ReplyReturns(sent.1, RecvStep(rep, Rep, ForwardAll(sent.0.value, hops)).1, hops, reply);
  }

  /** REP does not refuse a second request before it has answered the first: the reply that
      follows goes to the second requester and the first envelope is gone. */
  lemma SecondRequestReplacesFirst(rep: Protocol, first: Message, second: Message, reply: Message,
                                   env1: seq<Bytes>, body1: seq<Bytes>, env2: seq<Bytes>, body2: seq<Bytes>)
    requires ValidMessage(first) && ValidMessage(second) && ValidMessage(reply) && NoneEmpty(env1) && NoneEmpty(env2)
    requires Parts(first) == env1 + [[]] + body1 && Parts(second) == env2 + [[]] + body2
    ensures var (seen1, rep1) := RecvStep(rep, Rep, first);
            var (seen2, rep2) := RecvStep(rep1, Rep, second);
            var (out, rep3) := SendStep(rep2, Rep, reply);
            && seen1.Some? && seen2.Some? && out.Ok? && ValidMessage(out.value)
            && Parts(out.value) == env2 + [[]] + Parts(reply) && rep3.envelope == None
  {
    hide Parts, ValidMessage, SplitEnvelope, EnvelopeEnd, SendStep, RecvStep;
    SplitFindsEnvelope(env1, body1);
    SplitFindsEnvelope(env2, body2);
    RecvStepMeans(rep, Rep, first);
    var rep1 := RecvStep(rep, Rep, first).1;
    RecvStepMeans(rep1, Rep, second);
    var rep2 := RecvStep(rep1, Rep, second).1;
    SendStepMeans(rep2, Rep, reply);
  }

  // ---- Whole runs ----

  datatype Event = Send(m: Message) | Receive(m: Message) | Disconnect

  predicate ValidEvent(e: Event) {
    e.Disconnect? || ValidMessage(e.m)
  }

  predicate ValidEvents(events: seq<Event>) {
    forall i :: 0 <= i < |events| ==> ValidEvent(events[i])
  }

  /** A socket's life so far: its state, the part lists it has sent, and those it has shown
      to the application. */
  datatype Session = Session(st: Protocol, sent: seq<seq<Bytes>>, shown: seq<seq<Bytes>>)

  function React(x: Session, t: SocketType, e: Event): Session
    requires ValidEvent(e)
  {
    match e
    case Disconnect => x.(st := START)
    case Send(m) =>
      SendStepMeans(x.st, t, m);
      var (r, st) := SendStep(x.st, t, m);
      Session(st, if r.Ok? then x.sent + [Parts(r.value)] else x.sent, x.shown)
    case Receive(m) =>
      RecvStepMeans(x.st, t, m);
      var (r, st) := RecvStep(x.st, t, m);
      Session(st, x.sent, if r.Some? then x.shown + [Parts(r.value)] else x.shown)
  }

  function Play(t: SocketType, events: seq<Event>): Session
    requires ValidEvents(events)
  {
    if events == [] then Session(START, [], [])
    else React(Play(t, events[..|events| - 1]), t, events[|events| - 1])
  }

  lemma PlaySnoc(t: SocketType, events: seq<Event>, i: nat)
    requires ValidEvents(events) && i < |events|
    ensures ValidEvents(events[..i]) && ValidEvents(events[..i + 1])
    ensures Play(t, events[..i + 1]) == React(Play(t, events[..i]), t, events[i])
  {
    hide React;
    assert events[..i + 1][..i] == events[..i];
  }

  /** Driving the object with a sequence of events gives exactly the session they spell. */
  method Drive(s: TypeState, t: SocketType, events: seq<Event>) returns (sent: seq<seq<Bytes>>, shown: seq<seq<Bytes>>)
    requires ValidEvents(events) && s.View() == START
    modifies s
    ensures Session(s.View(), sent, shown) == Play(t, events)
  {
    hide ValidMessage, Parts, SendStep, RecvStep, Play;
    sent, shown := [], [];
    NothingPlayed(t);
    assert events[..0] == [];
    for i := 0 to |events|
      invariant ValidEvents(events[..i]) && Session(s.View(), sent, shown) == Play(t, events[..i])
    {
      PlaySnoc(t, events, i);
      match events[i] {
        case Send(m) =>
          var r := s.PreSend(t, m);
          if r.Ok? {
            sent := sent + [Parts(r.value)];
          }
        case Receive(m) =>
          var r := s.PostRecv(t, m);
          if r.Some? {
            shown := shown + [Parts(r.value)];
          }
        case Disconnect =>
          s.OnPeerDisconnected();
      }
    }
    assert events[..|events|] == events;
  }

  lemma NothingPlayed(t: SocketType)
    ensures Play(t, []) == Session(START, [], [])
  {
  }

  function Disconnects(events: seq<Event>): nat {
    if events == [] then 0
    else Disconnects(events[..|events| - 1]) + if events[|events| - 1].Disconnect? then 1 else 0
  }

  function One(b: bool): nat {
    if b then 1 else 0
  }

  /** In every run of a REQ socket, sends are the accepted replies, one more while a reply is
      awaited, and at most one more for each disconnect. */
  lemma {:induction false} ReqAlternates(events: seq<Event>)
    requires ValidEvents(events)
    ensures var x := Play(Req, events);
            |x.shown| + One(x.st.awaiting) <= |x.sent| <= |x.shown| + One(x.st.awaiting) + Disconnects(events)
  {
    if events != [] {
      hide ValidMessage, Parts, SendStep, RecvStep;
      var init, e := events[..|events| - 1], events[|events| - 1];
      ReqAlternates(init);
      var st := Play(Req, init).st;
      match e {
        case Send(m) => SendStepMeans(st, Req, m);
        case Receive(m) => RecvStepMeans(st, Req, m);
        case Disconnect =>
      }
    }
  }

  /** In every run of a REP socket, replies and the request still to be answered never
      outnumber the requests accepted. */
  lemma {:induction false} RepAnswersRequests(events: seq<Event>)
    requires ValidEvents(events)
    ensures var x := Play(Rep, events); |x.sent| + One(x.st.envelope.Some?) <= |x.shown|
  {
    if events != [] {
      hide ValidMessage, Parts, SendStep, RecvStep, SplitEnvelope;
      var init, e := events[..|events| - 1], events[|events| - 1];
      RepAnswersRequests(init);
      var st := Play(Rep, init).st;
      match e {
        case Send(m) => SendStepMeans(st, Rep, m);
        case Receive(m) => RecvStepMeans(st, Rep, m);
        case Disconnect =>
      }
    }
  }
}
