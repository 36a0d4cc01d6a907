/** Multipart framing at the C interface: frames sent one at a time with SNDMORE become one
    message, and a message received comes out one frame at a time with RCVMORE. The regular
    path carries whole messages; the inproc bypass carries single frames beside it. */
module MultipartFrames {
  import opened Words
  import opened Options
  import opened Message
  import opened TypeState

  /** A frame as the application sees it. */
  type Flagged = (Bytes, bool)

  /** The frames of a message: MORE on all but the last. */
  function Frames(parts: seq<Bytes>): (r: seq<Flagged>)
    ensures |r| == |parts|
  {
    seq(|parts|, i requires 0 <= i < |parts| => (parts[i], i + 1 < |parts|))
  }

  function AllFrames(msgs: seq<seq<Bytes>>): seq<Flagged> {
    if msgs == [] then [] else AllFrames(msgs[..|msgs| - 1]) + Frames(msgs[|msgs| - 1])
  }

  lemma AllFramesSnoc(msgs: seq<seq<Bytes>>, parts: seq<Bytes>)
    ensures AllFrames(msgs + [parts]) == AllFrames(msgs) + Frames(parts)
  {
    assert (msgs + [parts])[..|msgs|] == msgs;
  }

  lemma {:induction false} AllFramesCons(first: seq<Bytes>, rest: seq<seq<Bytes>>)
    ensures AllFrames([first] + rest) == Frames(first) + AllFrames(rest)
  {
    hide Frames, AllFrames, Announced;
    if rest == [] {
      NoFrames();
      AllFramesSnoc([], first);
      assert [first] + rest == [] + [first];
      assert [] + Frames(first) == Frames(first) + [];
    } else {
      var init, last := rest[..|rest| - 1], rest[|rest| - 1];
      AllFramesCons(first, init);
      AllFramesSnoc([first] + init, last);
      AllFramesSnoc(init, last);
      assert rest == init + [last] && [first] + rest == [first] + init + [last];
      assert Frames(first) + AllFrames(init) + Frames(last) == Frames(first) + (AllFrames(init) + Frames(last));
    }
  }

  lemma FrontFrame(head: Bytes, rest: seq<Bytes>)
    ensures Frames([head] + rest) == [(head, rest != [])] + Frames(rest)
  {
  }

  lemma NoFrames()
    ensures AllFrames([]) == [] && Frames([]) == [] && Announced([]) == []
  {
  }

  /** Frames buffered while more are announced. */
  function Announced(parts: seq<Bytes>): (r: seq<Flagged>)
    ensures |r| == |parts|
  {
    seq(|parts|, i requires 0 <= i < |parts| => (parts[i], true))
  }

  lemma AnnouncedMore(parts: seq<Bytes>, last: Bytes)
    ensures Announced(parts) + [(last, true)] == Announced(parts + [last])
    ensures Announced(parts) + [(last, false)] == Frames(parts + [last])
  {
  }

  // ---- Sending ----

  datatype SendFailure = TooBig | NoRoute | NotSubmitted | NotPushed | Unsupported

  /** What one send call meets: a bypass may be adopted or found closed between any two. */
  datatype SendWorld = SendWorld(fits: bool, bypass: bool, routeReady: bool, submitOk: bool, pushOk: bool)

  datatype SendResult = SendOk | SendFail(why: SendFailure)

  /** A reply of a SERVER socket with the routing ID it is addressed by. */
  datatype Routed = Routed(id: nat, body: Bytes)

  /** The frames buffered so far, and what has been handed to the transport: messages on the
      regular path and single frames on the bypass, and SERVER replies. */
  datatype Outbox = Outbox(accum: seq<Bytes>, submitted: seq<seq<Bytes>>, routed: seq<Routed>)

  const NO_MAIL := Outbox([], [], [])

  /** When a frame is accepted. */
  predicate SendSucceeds(o: Outbox, more: bool, w: SendWorld) {
    && w.fits
    && (if !more && o.accum == [] && w.bypass then w.pushOk else w.routeReady && (more || w.submitOk))
  }

  /** One `zmq_send`. A frame with SNDMORE is only buffered. The frame without it completes
      the message; if that message is then not accepted, the frames buffered before it are
      gone. Every other failure leaves the buffer alone. */
  function SendFrame(o: Outbox, data: Bytes, more: bool, w: SendWorld): (SendResult, Outbox) {
    if !w.fits then (SendFail(TooBig), o)
    else if !more && o.accum == [] && w.bypass then
      if w.pushOk then (SendOk, o.(submitted := o.submitted + [[data]])) else (SendFail(NotPushed), o)
    else if !w.routeReady then (SendFail(NoRoute), o)
    else if more then (SendOk, o.(accum := o.accum + [data]))
    else if w.submitOk then (SendOk, o.(accum := [], submitted := o.submitted + [o.accum + [data]]))
    else (SendFail(NotSubmitted), o.(accum := []))
  }

  /** One send of a SERVER socket: single-part only, addressed by the routing ID. */
  function SendReply(o: Outbox, id: nat, body: Bytes, more: bool, w: SendWorld): (SendResult, Outbox) {
    if !w.fits then (SendFail(TooBig), o)
    else if more then (SendFail(Unsupported), o)
    else if !w.routeReady then (SendFail(NoRoute), o)
    else if w.submitOk then (SendOk, o.(routed := o.routed + [Routed(id, body)]))
    else (SendFail(NotSubmitted), o)
  }

  /** A SERVER reply is accepted exactly if it is small enough, single, routable and taken; it
      leaves the buffered frames and the messages handed over alone. */
  lemma SendReplyMeans(o: Outbox, id: nat, body: Bytes, more: bool, w: SendWorld)
    ensures var (r, o') := SendReply(o, id, body, more, w);
            && (r.SendOk? <==> w.fits && !more && w.routeReady && w.submitOk)
            && (r.SendOk? ==> o' == o.(routed := o.routed + [Routed(id, body)]))
            && (!r.SendOk? ==> o' == o)
            && (w.fits && more ==> r == SendFail(Unsupported))
  {
  }

  /** Why a frame is refused, in the order of the tests. */
  lemma RefusedBecause(o: Outbox, data: Bytes, more: bool, w: SendWorld)
    ensures var (r, _) := SendFrame(o, data, more, w);
            var direct := !more && o.accum == [] && w.bypass;
            && (r == SendFail(TooBig) <==> !w.fits)
            && (r == SendFail(NotPushed) <==> w.fits && direct && !w.pushOk)
            && (r == SendFail(NoRoute) <==> w.fits && !direct && !w.routeReady)
            && (r == SendFail(NotSubmitted) <==> w.fits && !direct && w.routeReady && !more && !w.submitOk)
            && r != SendFail(Unsupported)
  {
  }

  class Sender {
    var accum: seq<Bytes>
    var submitted: seq<seq<Bytes>>
    var routed: seq<Routed>

    function View(): Outbox
      reads this
    {
      Outbox(accum, submitted, routed)
    }

    constructor ()
      ensures View() == NO_MAIL
    {
      accum, submitted, routed := [], [], [];
    }

    method SendBytes(data: Bytes, more: bool, w: SendWorld) returns (r: SendResult)
      modifies `accum, `submitted
      ensures (r, View()) == SendFrame(old(View()), data, more, w)
      ensures r.SendOk? <==> SendSucceeds(old(View()), more, w)
      ensures r.SendOk? && more ==> accum == old(accum) + [data] && submitted == old(submitted)
      ensures r.SendOk? && !more ==> accum == [] && submitted == old(submitted) + [old(accum) + [data]]
      ensures !r.SendOk? ==> submitted == old(submitted) && accum == if r.why.NotSubmitted? then [] else old(accum)
    {
      if !w.fits {
        return SendFail(TooBig);
      }
      if !more && accum == [] && w.bypass {
        if !w.pushOk {
          return SendFail(NotPushed);
        }
        assert accum + [data] == [data];
        submitted := submitted + [[data]];
        return SendOk;
      }
      if !w.routeReady {
        return SendFail(NoRoute);
      }
      if more {
        accum := accum + [data];
        return SendOk;
      }
      var m: Message;
      if accum == [] {
        assert accum + [data] == [data];
        m := SinglePart(data);
      } else {
        var v := accum + [data];
        accum := [];
        m := Multipart(v);
      }
      if !w.submitOk {
        return SendFail(NotSubmitted);
      }
      submitted := submitted + [Parts(m)];
      return SendOk;
    }

    /** The SERVER path: a message of one part with the routing ID attached. */
    method SendMessage(id: nat, body: Bytes, more: bool, w: SendWorld) returns (r: SendResult)
      requires id < TWO_32
      modifies `routed
      ensures (r, View()) == SendReply(old(View()), id, body, more, w)
    {
      var m := WithRoutingId(SinglePart(body), id);
      if !w.fits {
        return SendFail(TooBig);
      }
      if more {
        return SendFail(Unsupported);
      }
      if !w.routeReady {
        return SendFail(NoRoute);
      }
      if !w.submitOk {
        return SendFail(NotSubmitted);
      }
      routed := routed + [Routed(RoutingId(m).value, Parts(m)[0])];
      return SendOk;
    }
  }

  // ---- Whole runs of sends ----

  datatype SendCall = SendCall(data: Bytes, more: bool, w: SendWorld)

  /** What became of the frames accepted: whole messages handed over, and runs of buffered
      frames cut off by the refusal of their message. */
  datatype Batch = Whole(parts: seq<Bytes>) | Cut(parts: seq<Bytes>)

  /** A run of sends: the outbox, the result of each call, and as history the frames accepted
      and what became of them. */
  datatype Posting = Posting(out: Outbox, results: seq<SendResult>, accepted: seq<Flagged>, batches: seq<Batch>)

  function Post(x: Posting, c: SendCall): Posting {
    var (r, out) := SendFrame(x.out, c.data, c.more, c.w);
    Posting(out, x.results + [r],
            if r.SendOk? then x.accepted + [(c.data, c.more)] else x.accepted,
            if r.SendOk? && !c.more then x.batches + [Whole(x.out.accum + [c.data])]
            else if r == SendFail(NotSubmitted) then x.batches + [Cut(x.out.accum)]
            else x.batches)
  }

  function PostAll(calls: seq<SendCall>): Posting {
    if calls == [] then Posting(NO_MAIL, [], [], [])
    else Post(PostAll(calls[..|calls| - 1]), calls[|calls| - 1])
  }

  function BatchFrames(batches: seq<Batch>): seq<Flagged> {
    if batches == [] then []
    else
      var b := batches[|batches| - 1];
      BatchFrames(batches[..|batches| - 1]) + if b.Whole? then Frames(b.parts) else Announced(b.parts)
  }

  function Wholes(batches: seq<Batch>): seq<seq<Bytes>> {
    if batches == [] then []
    else
      var b := batches[|batches| - 1];
      Wholes(batches[..|batches| - 1]) + if b.Whole? then [b.parts] else []
  }

  lemma BatchSnoc(batches: seq<Batch>, b: Batch)
    ensures BatchFrames(batches + [b])
              == BatchFrames(batches) + if b.Whole? then Frames(b.parts) else Announced(b.parts)
    ensures Wholes(batches + [b]) == Wholes(batches) + if b.Whole? then [b.parts] else []
  {
    hide Frames, Announced;
    assert (batches + [b])[..|batches|] == batches;
  }

  /** Every frame accepted in a run, failures included, is accounted for in call order: the
      messages handed over, the runs cut off by a refusal, and then the frames still
      buffered. The messages handed over are exactly the whole ones. */
  lemma {:induction false} SendsAreConserved(calls: seq<SendCall>)
    ensures var x := PostAll(calls);
            && |x.results| == |calls|
            && BatchFrames(x.batches) + Announced(x.out.accum) == x.accepted
            && Wholes(x.batches) == x.out.submitted
  {
    hide BatchFrames, Wholes, Frames, Announced;
    if calls == [] {
      NoBatches();
    } else {
      var x, c := PostAll(calls[..|calls| - 1]), calls[|calls| - 1];
      SendsAreConserved(calls[..|calls| - 1]);
      PostConserves(x, c);
    }
  }

  lemma NoBatches()
    ensures BatchFrames([]) == [] && Wholes([]) == [] && Announced([]) == []
  {
  }

  lemma PostConserves(x: Posting, c: SendCall)
    requires BatchFrames(x.batches) + Announced(x.out.accum) == x.accepted && Wholes(x.batches) == x.out.submitted
    ensures var x' := Post(x, c);
            && BatchFrames(x'.batches) + Announced(x'.out.accum) == x'.accepted
            && Wholes(x'.batches) == x'.out.submitted
  {
    hide BatchFrames, Wholes, Frames, Announced;
    NoBatches();
    AnnouncedMore(x.out.accum, c.data);
    BatchSnoc(x.batches, Whole(x.out.accum + [c.data]));
    BatchSnoc(x.batches, Cut(x.out.accum));
    var done, buffered := BatchFrames(x.batches), Announced(x.out.accum);
    assert done + buffered + [(c.data, true)] == done + (buffered + [(c.data, true)]);
    assert done + buffered + [(c.data, false)] == done + (buffered + [(c.data, false)]);
    assert x.out.accum == [] ==> x.out.accum + [c.data] == [c.data];
  }

  /** The object goes through exactly that run. */
  method SendAll(s: Sender, calls: seq<SendCall>) returns (results: seq<SendResult>)
    requires s.View() == NO_MAIL
    modifies s
    ensures s.View() == PostAll(calls).out && results == PostAll(calls).results
  {
    hide PostAll, SendFrame;
    results := [];
    assert calls[..0] == [];
    NothingPosted();
    for i := 0 to |calls|
      invariant s.View() == PostAll(calls[..i]).out
      invariant results == PostAll(calls[..i]).results
    {
      PostSnoc(calls, i);
      var r := s.SendBytes(calls[i].data, calls[i].more, calls[i].w);
      results := results + [r];
    }
    assert calls[..|calls|] == calls;
  }

  lemma NothingPosted()
    ensures PostAll([]) == Posting(NO_MAIL, [], [], [])
  {
  }

  lemma PostSnoc(calls: seq<SendCall>, i: nat)
    requires i < |calls|
    ensures PostAll(calls[..i + 1]) == Post(PostAll(calls[..i]), calls[i])
  {
    hide Post;
    assert calls[..i + 1][..i] == calls[..i];
  }

  const ALL_WELL := SendWorld(true, false, true, true, true)
  const REFUSED := SendWorld(true, false, true, false, true)

  /** Retrying the last frame after its message was refused sends that frame alone. */
  lemma RetrySendsTailAlone(o: Outbox, head: Bytes, tail: Bytes)
    requires o.accum == []
    ensures var (first, o1) := SendFrame(o, head, true, ALL_WELL);
            var (second, o2) := SendFrame(o1, tail, false, REFUSED);
            var (third, o3) := SendFrame(o2, tail, false, ALL_WELL);
            && first.SendOk? && second == SendFail(NotSubmitted) && third.SendOk?
            && o3 == o.(submitted := o.submitted + [[tail]])
  {
    assert [] + [tail] == [tail];
  }

  // ---- Receiving ----

  /** What reached the socket between two looks at its queues, and whether a bypass is
      installed at the second: one may have been adopted, or found closed and dropped. */
  datatype Arrival = Arrival(messages: seq<WellFormed>, singles: seq<Bytes>, bypass: bool)

  /** One wake-up of a waiting call: what arrived, and whether the peer is then found to have
      closed the bypass before the regular queue has been looked at. */
  datatype Wake = Wake(a: Arrival, peerGone: bool)

  /** The first part the application sees: DISH hides the group, REQ the delimiter. */
  function StartIndex(t: SocketType, parts: seq<Bytes>): (k: nat)
    ensures k == 0 || k < |parts|
  {
    if t.Dish? && |parts| >= 2 then 1
    else if t.Req? && |parts| >= 2 && parts[0] == [] then 1
    else 0
  }

  /** The frames of a message as the application gets them; a message without parts shows as
      one empty frame. */
  function Visible(t: SocketType, parts: seq<Bytes>): (r: seq<Bytes>)
    ensures r != []
  {
    if parts == [] then [[]] else parts[StartIndex(t, parts)..]
  }

  lemma VisibleSplits(t: SocketType, parts: seq<Bytes>)
    ensures parts == [] ==> Visible(t, parts) == [[]]
    ensures parts != [] ==>
              Visible(t, parts) == [parts[StartIndex(t, parts)]] + parts[StartIndex(t, parts) + 1..]
  {
  }

  datatype RecvResult = RecvOk(frame: Bytes, more: bool) | RecvFail(peerGone: bool)

  /** The receiving side: queued frames of a message already begun, messages of the regular
      path, single frames of the bypass, and whether that is installed. The last three fields
      are history: everything that ever arrived on either path, and the messages taken, as the
      application sees them. */
  datatype Inbox = Inbox(drain: seq<Bytes>, messages: seq<WellFormed>, singles: seq<Bytes>, bypass: bool,
                         seenMessages: seq<WellFormed>, seenSingles: seq<Bytes>, taken: seq<seq<Bytes>>)

  const EMPTY_INBOX := Inbox([], [], [], false, [], [], [])

  function Arrive(b: Inbox, a: Arrival): Inbox {
    b.(messages := b.messages + a.messages, singles := b.singles + a.singles, bypass := a.bypass,
       seenMessages := b.seenMessages + a.messages, seenSingles := b.seenSingles + a.singles)
  }

  function TakeMessage(t: SocketType, b: Inbox): (Flagged, Inbox)
    requires b.messages != []
  {
    var v := Visible(t, Parts(b.messages[0]));
    ((v[0], |v| > 1), b.(drain := v[1..], messages := b.messages[1..], taken := b.taken + [v]))
  }

  function TakeSingle(b: Inbox): (Flagged, Inbox)
    requires b.singles != []
  {
    ((b.singles[0], false), b.(singles := b.singles[1..], taken := b.taken + [[b.singles[0]]]))
  }

  /** One look at the queues; while waiting the bypass is looked at first. */
  function TryTake(t: SocketType, bypassFirst: bool, b: Inbox): (Option<Flagged>, Inbox)
  {
    if b.bypass && b.singles != [] && (bypassFirst || b.messages == []) then
      var (f, b') := TakeSingle(b); (Some(f), b')
    else if b.messages != [] then
      var (f, b') := TakeMessage(t, b); (Some(f), b')
    else (None, b)
  }

  function Outcome(got: Option<Flagged>): RecvResult {
    if got.Some? then RecvOk(got.value.0, got.value.1) else RecvFail(false)
  }

  /** Waits for something to take; running out of wake-ups is a timeout or the end of the
      context. A peer found gone ends the call before the regular queue is looked at. */
  function BlockTake(t: SocketType, b: Inbox, waits: seq<Wake>): (RecvResult, Inbox)
    decreases |waits|
  {
    if waits == [] then (RecvFail(false), b)
    else
      var b1 := Arrive(b, waits[0].a);
      if waits[0].peerGone && b1.bypass && b1.singles == [] then (RecvFail(true), b1)
      else
        var (r, b2) := TryTake(t, true, b1);
        if r.Some? then (Outcome(r), b2) else BlockTake(t, b1, waits[1..])
  }

  /** Receives one frame. Queued frames of a message already begun always come first. */
  function RecvFrame(t: SocketType, b: Inbox, dontwait: bool, waits: seq<Wake>): (RecvResult, Inbox) {
    if b.drain != [] then (RecvOk(b.drain[0], |b.drain| > 1), b.(drain := b.drain[1..]))
    else
      var (now, b1) := TryTake(t, false, b);
      if now.None? && !dontwait then BlockTake(t, b1, waits) else (Outcome(now), b1)
  }

  // ---- What a run of receives hands out ----

  /** `out` is a merge of `a` and `b`, each in its own order. */
  predicate Interleaves(out: seq<seq<Bytes>>, a: seq<seq<Bytes>>, b: seq<seq<Bytes>>)
    decreases |out|
  {
    if out == [] then a == [] && b == []
    else
      var last := out[|out| - 1];
      || (a != [] && last == a[|a| - 1] && Interleaves(out[..|out| - 1], a[..|a| - 1], b))
      || (b != [] && last == b[|b| - 1] && Interleaves(out[..|out| - 1], a, b[..|b| - 1]))
  }

  lemma InterleavesSnoc(out: seq<seq<Bytes>>, a: seq<seq<Bytes>>, b: seq<seq<Bytes>>, x: seq<Bytes>)
    requires Interleaves(out, a, b)
    ensures Interleaves(out + [x], a + [x], b) && Interleaves(out + [x], a, b + [x])
  {
    assert (out + [x])[..|out|] == out && (a + [x])[..|a|] == a && (b + [x])[..|b|] == b;
  }

  function Shown(t: SocketType, ms: seq<WellFormed>): (r: seq<seq<Bytes>>)
    ensures |r| == |ms|
  {
    seq(|ms|, i requires 0 <= i < |ms| => Visible(t, Parts(ms[i])))
  }

  function Singly(singles: seq<Bytes>): (r: seq<seq<Bytes>>)
    ensures |r| == |singles|
  {
    seq(|singles|, i requires 0 <= i < |singles| => [singles[i]])
  }

  /** What was taken is a merge of the first messages and the first single frames that ever
      arrived, and the queues hold exactly the others, so nothing is lost, invented or
      reordered on either path. */
  predicate Accounted(t: SocketType, b: Inbox)
  {
    && |b.messages| <= |b.seenMessages| && |b.singles| <= |b.seenSingles|
    && var m, s := |b.seenMessages| - |b.messages|, |b.seenSingles| - |b.singles|;
    && b.messages == b.seenMessages[m..] && b.singles == b.seenSingles[s..]
    && Interleaves(b.taken, Shown(t, b.seenMessages[..m]), Singly(b.seenSingles[..s]))
  }

  lemma ArriveKeeps(t: SocketType, b: Inbox, a: Arrival)
    requires Accounted(t, b)
    ensures Accounted(t, Arrive(b, a))
  {
    hide Interleaves, Parts, ValidMessage, Visible;
    var m, s := |b.seenMessages| - |b.messages|, |b.seenSingles| - |b.singles|;
    assert (b.seenMessages + a.messages)[..m] == b.seenMessages[..m];
    assert (b.seenSingles + a.singles)[..s] == b.seenSingles[..s];
    assert (b.seenMessages + a.messages)[m..] == b.messages + a.messages;
    assert (b.seenSingles + a.singles)[s..] == b.singles + a.singles;
  }

  lemma ShownNext(t: SocketType, ms: seq<WellFormed>, i: nat)
    requires i < |ms|
    ensures Shown(t, ms[..i + 1]) == Shown(t, ms[..i]) + [Visible(t, Parts(ms[i]))]
  {
    hide Parts, ValidMessage, Visible;
  }

  lemma TakeMessageKeeps(t: SocketType, b: Inbox)
    requires Accounted(t, b) && b.messages != []
    ensures Accounted(t, TakeMessage(t, b).1)
  {
    hide Interleaves, Shown, Singly, Visible;
    var m, s := |b.seenMessages| - |b.messages|, |b.seenSingles| - |b.singles|;
    assert b.seenMessages[m] == b.messages[0];
    ShownNext(t, b.seenMessages, m);
    InterleavesSnoc(b.taken, Shown(t, b.seenMessages[..m]), Singly(b.seenSingles[..s]),
                    Visible(t, Parts(b.messages[0])));
    assert b.messages[1..] == b.seenMessages[m + 1..];
  }

  lemma TakeSingleKeeps(t: SocketType, b: Inbox)
    requires Accounted(t, b) && b.singles != []
    ensures Accounted(t, TakeSingle(b).1)
  {
    hide Interleaves, Shown;
    var m, s := |b.seenMessages| - |b.messages|, |b.seenSingles| - |b.singles|;
    assert b.seenSingles[s] == b.singles[0];
    assert Singly(b.seenSingles[..s + 1]) == Singly(b.seenSingles[..s]) + [[b.singles[0]]];
    InterleavesSnoc(b.taken, Shown(t, b.seenMessages[..m]), Singly(b.seenSingles[..s]), [b.singles[0]]);
  }

  /** The frame handed out and the queue after it, against the queue and history before. A call
      without a frame means that the queues in use are empty, but for the regular one if the
      peer was found gone. */
  predicate HandsOut(b: Inbox, r: RecvResult, b': Inbox) {
    match r
    case RecvFail(peerGone) =>
      && b.drain == b'.drain == [] && b'.taken == b.taken
      && (b'.bypass ==> b'.singles == []) && (if peerGone then b'.bypass else b'.messages == [])
    case RecvOk(frame, more) =>
      && more == (b'.drain != [])
      && (b.drain != [] ==> b.drain == [frame] + b'.drain && b'.taken == b.taken)
      && (b.drain == [] ==>
            && |b'.taken| == |b.taken| + 1 && b'.taken[..|b.taken|] == b.taken
            && b'.taken[|b.taken|] == [frame] + b'.drain)
  }

  lemma TryTakeKeeps(t: SocketType, bypassFirst: bool, b: Inbox)
    requires Accounted(t, b) && b.drain == []
    ensures var (r, b') := TryTake(t, bypassFirst, b);
            Accounted(t, b') && HandsOut(b, Outcome(r), b') && (r.None? ==> b' == b)
  {
    hide Accounted, Parts, ValidMessage;
    if b.messages != [] {
      TakeMessageKeeps(t, b);
      var v := Visible(t, Parts(b.messages[0]));
      assert v == [v[0]] + v[1..];
    }
    if b.singles != [] {
      TakeSingleKeeps(t, b);
    }
  }

  lemma {:induction false} BlockTakeKeeps(t: SocketType, b: Inbox, waits: seq<Wake>)
    requires Accounted(t, b) && HandsOut(b, RecvFail(false), b)
    ensures var (r, b') := BlockTake(t, b, waits);
            Accounted(t, b') && HandsOut(b, r, b')
    decreases |waits|
  {
    hide Accounted, TryTake;
    if waits != [] {
      var b1 := Arrive(b, waits[0].a);
      ArriveKeeps(t, b, waits[0].a);
      TryTakeKeeps(t, true, b1);
      if TryTake(t, true, b1).0.None? {
        BlockTakeKeeps(t, b1, waits[1..]);
      }
    }
  }

  lemma RecvFrameKeeps(t: SocketType, b: Inbox, dontwait: bool, waits: seq<Wake>)
    requires Accounted(t, b)
    ensures var (r, b') := RecvFrame(t, b, dontwait, waits);
            Accounted(t, b') && HandsOut(b, r, b')
  {
    hide TryTake, BlockTake, Interleaves, Shown, Singly;
    if b.drain == [] {
      TryTakeKeeps(t, false, b);
      var (now, b1) := TryTake(t, false, b);
      if now.None? && !dontwait {
        BlockTakeKeeps(t, b, waits);
        assert RecvFrame(t, b, dontwait, waits) == BlockTake(t, b, waits);
      } else {
        assert RecvFrame(t, b, dontwait, waits) == (Outcome(now), b1);
      }
    } else {
      assert b.drain == [b.drain[0]] + b.drain[1..];
    }
  }

  /** What happens at a receiving socket: something arrives, or the application calls. */
  datatype Happening = Comes(a: Arrival) | Calls(dontwait: bool, waits: seq<Wake>)

  /** A run of receives: the inbox, and the result of every call in order. */
  datatype Reading = Reading(box: Inbox, results: seq<RecvResult>)

  function Happen(t: SocketType, x: Reading, h: Happening): Reading
  {
    match h
    case Comes(a) => x.(box := Arrive(x.box, a))
    case Calls(dontwait, waits) =>
      var (r, box) := RecvFrame(t, x.box, dontwait, waits);
      Reading(box, x.results + [r])
  }

  function HandedOut(results: seq<RecvResult>): seq<Flagged> {
    if results == [] then []
    else
      var r := results[|results| - 1];
      HandedOut(results[..|results| - 1]) + if r.RecvOk? then [(r.frame, r.more)] else []
  }

  lemma HandedOutSnoc(results: seq<RecvResult>, r: RecvResult)
    ensures HandedOut(results + [r]) == HandedOut(results) + if r.RecvOk? then [(r.frame, r.more)] else []
  {
    assert (results + [r])[..|results|] == results;
  }

  /** The frames handed out so far, followed by those queued, are the frames of the messages
      taken, one message after the other; and the messages taken are accounted for. */
  predicate Orderly(t: SocketType, x: Reading) {
    && Accounted(t, x.box)
    && HandedOut(x.results) + Frames(x.box.drain) == AllFrames(x.box.taken)
  }

  lemma HappenKeeps(t: SocketType, x: Reading, h: Happening)
    requires Orderly(t, x)
    ensures Orderly(t, Happen(t, x, h))
  {
    hide Accounted, AllFrames, Frames, HandedOut, RecvFrame;
    match h {
      case Comes(a) => ArriveKeeps(t, x.box, a);
      case Calls(dontwait, waits) =>
        RecvFrameKeeps(t, x.box, dontwait, waits);
        var (r, box) := RecvFrame(t, x.box, dontwait, waits);
        HandedOutSnoc(x.results, r);
        FramesMove(x, r, box);
    }
  }

  lemma FramesMove(x: Reading, r: RecvResult, box: Inbox)
    requires HandsOut(x.box, r, box)
    requires HandedOut(x.results) + Frames(x.box.drain) == AllFrames(x.box.taken)
    ensures var now := if r.RecvOk? then [(r.frame, r.more)] else [];
            HandedOut(x.results) + now + Frames(box.drain) == AllFrames(box.taken)
  {
    hide AllFrames, Frames, HandedOut;
    NoFrames();
    if r.RecvOk? {
      FrontFrame(r.frame, box.drain);
      var out, f, queued := HandedOut(x.results), [(r.frame, r.more)], Frames(box.drain);
      assert out + f + queued == out + (f + queued);
      if x.box.drain == [] {
        AllFramesSnoc(x.box.taken, box.taken[|x.box.taken|]);
        assert box.taken == x.box.taken + [box.taken[|x.box.taken|]];
      }
    }
  }

  function ReadAll(t: SocketType, hs: seq<Happening>): Reading {
    if hs == [] then Reading(EMPTY_INBOX, [])
    else Happen(t, ReadAll(t, hs[..|hs| - 1]), hs[|hs| - 1])
  }

  /** In every run: frames of different messages never interleave, whatever waits on the
      bypass, and nothing is invented, lost or reordered on either path. */
  lemma {:induction false} RunsAreOrderly(t: SocketType, hs: seq<Happening>)
    ensures Orderly(t, ReadAll(t, hs))
  {
    hide Orderly, Happen;
    if hs == [] {
      EmptyIsOrderly(t);
    } else {
      RunsAreOrderly(t, hs[..|hs| - 1]);
      HappenKeeps(t, ReadAll(t, hs[..|hs| - 1]), hs[|hs| - 1]);
    }
  }

  lemma EmptyIsOrderly(t: SocketType)
    ensures Orderly(t, Reading(EMPTY_INBOX, []))
  {
    hide AllFrames, Frames, Announced, Accounted;
    NoFrames();
    EmptyIsAccounted(t, EMPTY_INBOX);
  }

  lemma EmptyIsAccounted(t: SocketType, b: Inbox)
    requires |b.messages| == |b.seenMessages| == 0 && |b.singles| == |b.seenSingles| == |b.taken| == 0
    ensures Accounted(t, b)
  {
    hide Shown, Singly, Interleaves;
    NothingInterleaves(b.taken, Shown(t, b.seenMessages[..0]), Singly(b.seenSingles[..0]));
  }

  lemma NothingInterleaves(out: seq<seq<Bytes>>, a: seq<seq<Bytes>>, b: seq<seq<Bytes>>)
    requires |out| == |a| == |b| == 0
    ensures Interleaves(out, a, b)
  {
  }

  /** Every call has one result, and one without a frame means that nothing in use was queued,
      unless the peer was found gone. */
  lemma OneResultPerCall(t: SocketType, hs: seq<Happening>, dontwait: bool, waits: seq<Wake>)
    ensures var x, x' := ReadAll(t, hs), ReadAll(t, hs + [Calls(dontwait, waits)]);
            && |x'.results| == |x.results| + 1 && x'.results[..|x.results|] == x.results
            && HandsOut(x.box, x'.results[|x.results|], x'.box)
  {
    hide Orderly, HandsOut, RecvFrame;
    var call := Calls(dontwait, waits);
    assert (hs + [call])[..|hs|] == hs;
    RunsAreOrderly(t, hs);
    OrderlyAccounts(t, ReadAll(t, hs));
    RecvFrameKeeps(t, ReadAll(t, hs).box, dontwait, waits);
  }

  /** What each type shows: DISH hides the group and REQ the delimiter of a message of two or
      more parts, every other type shows all parts, identities included. */
  lemma VisibleMeans(t: SocketType, parts: seq<Bytes>)
    ensures |parts| >= 2 && (t.Dish? || (t.Req? && parts[0] == [])) ==> Visible(t, parts) == parts[1..]
    ensures |parts| == 1 || (!t.Dish? && !t.Req? && parts != []) ==> Visible(t, parts) == parts
    ensures |parts| >= 2 && t.Req? && parts[0] != [] ==> Visible(t, parts) == parts
    ensures parts == [] ==> Visible(t, parts) == [[]]
  {
    assert parts[0..] == parts;
  }

  /** What a call takes. Frames queued come first. Then it looks at the regular queue and, if
      that is empty, at an installed bypass. Only a call that may wait and finds nothing there
      sees what arrives later. */
  lemma CallTakes(t: SocketType, b: Inbox, dontwait: bool, waits: seq<Wake>)
    ensures var (r, b') := RecvFrame(t, b, dontwait, waits);
            var found := b.drain != [] || b.messages != [] || (b.bypass && b.singles != []);
            && (b.drain != [] ==> b' == b.(drain := b.drain[1..]) && r == RecvOk(b.drain[0], |b.drain| > 1))
            && (b.drain == [] && b.messages != [] ==>
                  var v := Visible(t, Parts(b.messages[0]));
                  && b'.messages == b.messages[1..] && b'.singles == b.singles
                  && r == RecvOk(v[0], |v| > 1) && b'.drain == v[1..])
            && (b.drain == [] && b.messages == [] && b.bypass && b.singles != [] ==>
                  && b'.messages == [] && b'.singles == b.singles[1..]
                  && r == RecvOk(b.singles[0], false) && b'.drain == [])
            && (found || dontwait ==>
                  b'.seenMessages == b.seenMessages && b'.seenSingles == b.seenSingles && b'.bypass == b.bypass)
            && (!found && dontwait ==> r == RecvFail(false) && b' == b)
  {
    hide Parts, ValidMessage, Visible, BlockTake;
  }

  /** What the first wake-up brings to a call that waits: a single frame of the bypass before a
      message of the regular queue. */
  lemma WakeTakes(t: SocketType, b: Inbox, wake: Wake, rest: seq<Wake>)
    requires b.drain == [] && b.messages == [] && b.singles == []
    ensures var (r, b') := RecvFrame(t, b, false, [wake] + rest);
            && (wake.a.bypass && wake.a.singles != [] ==>
                  r == RecvOk(wake.a.singles[0], false) && b'.messages == wake.a.messages)
            && (wake.a.bypass && wake.a.singles == [] && wake.peerGone ==> r == RecvFail(true))
            && (wake.a.messages != [] && !(wake.a.bypass && (wake.a.singles != [] || wake.peerGone)) ==>
                  r.RecvOk? && b'.messages == wake.a.messages[1..] && b'.singles == wake.a.singles)
  {
    hide Parts, ValidMessage, Visible;
    assert ([wake] + rest)[0] == wake && ([wake] + rest)[1..] == rest;
    assert [] + wake.a.messages == wake.a.messages && [] + wake.a.singles == wake.a.singles;
  }

  /** A call that waits on a bypass and finds the peer gone fails although a message has
      arrived on the regular path; the next call gets it. */
  lemma GoneBeforeQueued(t: SocketType, m: WellFormed)
    ensures var wake := Wake(Arrival([m], [], true), true);
            var (first, b1) := RecvFrame(t, EMPTY_INBOX, false, [wake]);
            var (second, b2) := RecvFrame(t, b1, true, []);
            && first == RecvFail(true) && b1.messages == [m]
            && second.RecvOk? && b2.taken == [Visible(t, Parts(m))]
  {
    hide Parts, ValidMessage, Visible;
    var wake := Wake(Arrival([m], [], true), true);
    assert [wake][0] == wake;
    assert [] + [m] == [m];
  }

  lemma OrderlyAccounts(t: SocketType, x: Reading)
    requires Orderly(t, x)
    ensures Accounted(t, x.box)
  {
  }

  // ---- The receiving object ----

  method PartsFrom(m: Message, next: nat) returns (rest: seq<Bytes>)
    requires ValidMessage(m) && next <= |Parts(m)|
    ensures rest == Parts(m)[next..]
  {
    hide Parts, ValidMessage, Get, Len;
    rest := [];
    for i := next to Len(m)
      invariant rest == Parts(m)[next..i]
    {
      var part := Get(m, i);
      assert part == Some(Parts(m)[i]);
      rest := rest + [part.value];
    }
  }

  class Receiver {
    const socketType: SocketType
    var bypassInstalled: bool
    var drain: seq<Bytes>
    var drainNonempty: bool
    var messages: seq<WellFormed>
    var singles: seq<Bytes>
    ghost var seenMessages: seq<WellFormed>
    ghost var seenSingles: seq<Bytes>
    ghost var taken: seq<seq<Bytes>>

    ghost function View(): Inbox
      reads this
    {
      Inbox(drain, messages, singles, bypassInstalled, seenMessages, seenSingles, taken)
    }

    /** The flag agrees with the drain queue at every call boundary. */
    ghost predicate Valid()
      reads this
    {
      drainNonempty <==> drain != []
    }

    constructor (t: SocketType)
      ensures Valid() && View() == EMPTY_INBOX && socketType == t
    {
      socketType, bypassInstalled := t, false;
      drain, drainNonempty, messages, singles := [], false, [], [];
      seenMessages, seenSingles, taken := [], [], [];
    }

    /** RCVMORE. */
    predicate RcvMore()
      reads this
    {
      drainNonempty
    }

    method Accept(a: Arrival)
      requires Valid()
      modifies `messages, `singles, `bypassInstalled, `seenMessages, `seenSingles
      ensures Valid() && View() == Arrive(old(View()), a)
    {
      bypassInstalled := a.bypass;
      messages, singles := messages + a.messages, singles + a.singles;
      seenMessages, seenSingles := seenMessages + a.messages, seenSingles + a.singles;
    }

    /** Takes the first part to show and queues the rest. */
    method Decompose(m: WellFormed) returns (head: Bytes, more: bool)
      requires Valid() && drain == []
      modifies `drain, `drainNonempty, `taken
      ensures Valid() && taken == old(taken) + [Visible(socketType, Parts(m))]
      ensures [head] + drain == Visible(socketType, Parts(m)) && more == (drain != [])
    {
      hide Parts, ValidMessage, Visible;
      VisibleSplits(socketType, Parts(m));
      taken := taken + [Visible(socketType, Parts(m))];
      var n := Len(m);
      var delimited := n >= 2 && Get(m, 0) == Some([]);
      var start := if socketType.Dish? && n >= 2 then 1 else if socketType.Req? && delimited then 1 else 0;
      assert start == StartIndex(socketType, Parts(m));
      var first := Get(m, start);
      head := if first.Some? then first.value else [];
      var next := start + 1;
      if next < n {
        drainNonempty := true;
        var rest := PartsFrom(m, next);
        drain := drain + rest;
        assert drain == Parts(m)[next..];
      }
      more := next < n;
      assert Parts(m) != [] && next == n ==> Parts(m)[next..] == [];
    }

    method Look(bypassFirst: bool) returns (r: Option<Flagged>)
      requires Valid() && drain == []
      modifies `drain, `drainNonempty, `taken, `messages, `singles
      ensures Valid() && (r, View()) == TryTake(socketType, bypassFirst, old(View()))
    {
      hide Parts, ValidMessage, Visible;
      if bypassInstalled && singles != [] && (bypassFirst || messages == []) {
        var frame := singles[0];
        singles := singles[1..];
        taken := taken + [[frame]];
        return Some((frame, false));
      }
      if messages != [] {
        var m := messages[0];
        messages := messages[1..];
        var head, more := Decompose(m);
        return Some((head, more));
      }
      return None;
    }

    method Block(waits: seq<Wake>) returns (r: RecvResult)
      requires Valid() && drain == []
      modifies this
      ensures Valid() && (r, View()) == BlockTake(socketType, old(View()), waits)
    {
      hide TryTake, Parts;
      assert waits[0..] == waits;
      for i := 0 to |waits|
        invariant Valid() && drain == []
        invariant BlockTake(socketType, old(View()), waits) == BlockTake(socketType, View(), waits[i..])
      {
        assert waits[i..][1..] == waits[i + 1..];
        NothingTaken(socketType, Arrive(View(), waits[i].a));
        Accept(waits[i].a);
        if bypassInstalled && singles == [] && waits[i].peerGone {
          return RecvFail(true);
        }
        var got := Look(true);
        if got.Some? {
          return RecvOk(got.value.0, got.value.1);
        }
      }
      return RecvFail(false);
    }

    /** Receives one frame; RCVMORE then tells whether more frames of its message follow. */
    method Recv(dontwait: bool, waits: seq<Wake>) returns (r: RecvResult)
      requires Valid()
      modifies this
      ensures Valid() && (r, View()) == RecvFrame(socketType, old(View()), dontwait, waits)
      ensures r.RecvOk? ==> r.more == RcvMore()
    {
      hide TryTake, BlockTake, Interleaves;
      if drainNonempty {
        var frame := drain[0];
        drain := drain[1..];
        var more := drain != [];
        if !more {
          drainNonempty := false;
        }
        return RecvOk(frame, more);
      }
      NothingTaken(socketType, View());
      TakenFlag(socketType, false, View());
      MoreMeansQueued(socketType, View(), waits);
      var got := Look(false);
      if got.None? && !dontwait {
        r := Block(waits);
      } else {
        r := if got.Some? then RecvOk(got.value.0, got.value.1) else RecvFail(false);
      }
    }
  }

  /** The flag of a frame just taken says whether the others of its message are queued. */
  lemma TakenFlag(t: SocketType, bypassFirst: bool, b: Inbox)
    requires b.drain == []
    ensures var (f, b') := TryTake(t, bypassFirst, b); f.Some? ==> f.value.1 == (b'.drain != [])
  {
    hide Parts, ValidMessage, Visible;
  }

  lemma {:induction false} MoreMeansQueued(t: SocketType, b: Inbox, waits: seq<Wake>)
    requires b.drain == []
    ensures var (r, b') := BlockTake(t, b, waits); r.RecvOk? ==> r.more == (b'.drain != [])
    decreases |waits|
  {
    hide TryTake;
    if waits != [] {
      var b1 := Arrive(b, waits[0].a);
      TakenFlag(t, true, b1);
      MoreMeansQueued(t, b1, waits[1..]);
    }
  }

  lemma NothingTaken(t: SocketType, b: Inbox)
    ensures TryTake(t, true, b).0.None? ==> TryTake(t, true, b).1 == b
    ensures TryTake(t, false, b).0.None? ==> TryTake(t, false, b).1 == b
  {
  }

  lemma ReadSnoc(t: SocketType, hs: seq<Happening>, i: nat)
    requires i < |hs|
    ensures ReadAll(t, hs[..i + 1]) == Happen(t, ReadAll(t, hs[..i]), hs[i])
  {
    hide Happen;
    assert hs[..i + 1][..i] == hs[..i];
  }

  lemma NothingRead(t: SocketType)
    ensures ReadAll(t, []) == Reading(EMPTY_INBOX, [])
  {
  }

  /** The object goes through exactly the run that the happenings spell. */
  method RecvAll(s: Receiver, hs: seq<Happening>) returns (results: seq<RecvResult>)
    requires s.Valid() && s.View() == EMPTY_INBOX
    modifies s
    ensures s.Valid() && Reading(s.View(), results) == ReadAll(s.socketType, hs)
  {
    hide ReadAll, RecvFrame;
    results := [];
    assert hs[..0] == [];
    NothingRead(s.socketType);
    for i := 0 to |hs|
      invariant s.Valid() && Reading(s.View(), results) == ReadAll(s.socketType, hs[..i])
    {
      ReadSnoc(s.socketType, hs, i);
      match hs[i] {
        case Comes(a) => s.Accept(a);
        case Calls(dontwait, waits) =>
          var r := s.Recv(dontwait, waits);
          results := results + [r];
      }
    }
    assert hs[..|hs|] == hs;
  }

  // ---- End to end ----

  /** Types whose sends go out with their parts unchanged. */
  predicate SendsPlain(t: SocketType) {
    t.Pair? || t.Push? || t.Pub? || t.XPub? || t.Dealer?
  }

  /** Types that show received messages with their parts unchanged. */
  predicate ReceivesPlain(t: SocketType) {
    t.Pair? || t.Pull? || t.Sub? || t.XSub? || t.Dealer?
  }

  /** `m` handed to a socket of type `from` leaves as some message, reaches the peer as `wire`
      with the same parts, and is queued there as `d`. */
  predicate Carried(from: SocketType, to: SocketType, m: WellFormed, wire: WellFormed, d: WellFormed) {
    SendStepMeans(START, from, m);
    var (out, _) := SendStep(START, from, m);
    && out.Ok? && Parts(wire) == Parts(out.value)
    && RecvStep(START, to, wire).0 == Some(d)
  }

  lemma CarriedPlain(from: SocketType, to: SocketType, m: WellFormed, wire: WellFormed, d: WellFormed)
    requires SendsPlain(from) && ReceivesPlain(to) && Carried(from, to, m, wire, d)
    ensures Parts(d) == Parts(m)
  {
    hide Parts, ValidMessage, PartsAllowed;
    SendStepMeans(START, from, m);
  }

  function PartsList(ms: seq<WellFormed>): (r: seq<seq<Bytes>>)
    ensures |r| == |ms|
  {
    seq(|ms|, i requires 0 <= i < |ms| => Parts(ms[i]))
  }

  /** The results of `n` calls that do not wait. */
  function RecvN(t: SocketType, b: Inbox, n: nat): seq<RecvResult>
    decreases n
  {
    if n == 0 then []
    else
      var (r, b') := RecvFrame(t, b, true, []);
      [r] + RecvN(t, b', n - 1)
  }

  /** The frames an inbox still has to show. */
  function Pending(b: Inbox): seq<Flagged> {
    Frames(b.drain) + AllFrames(PartsList(b.messages))
  }

  predicate NonEmptyMessages(ms: seq<WellFormed>) {
    forall i :: 0 <= i < |ms| ==> Parts(ms[i]) != []
  }

  lemma NextPending(t: SocketType, b: Inbox)
    requires ReceivesPlain(t) && !b.bypass && NonEmptyMessages(b.messages) && Pending(b) != []
    ensures var (r, b') := RecvFrame(t, b, true, []);
            && NonEmptyMessages(b'.messages) && !b'.bypass && r.RecvOk?
            && Pending(b) == [(r.frame, r.more)] + Pending(b')
  {
    hide Parts, ValidMessage, Frames, AllFrames;
    NoFrames();
    if b.drain != [] {
      FrontFrame(b.drain[0], b.drain[1..]);
      assert b.drain == [b.drain[0]] + b.drain[1..];
      assert ([(b.drain[0], |b.drain| > 1)] + Frames(b.drain[1..])) + AllFrames(PartsList(b.messages))
          == [(b.drain[0], |b.drain| > 1)] + (Frames(b.drain[1..]) + AllFrames(PartsList(b.messages)));
    } else {
      assert b.messages != [];
      var v, rest := Parts(b.messages[0]), b.messages[1..];
      assert Visible(t, v) == v;
      assert PartsList(b.messages) == [v] + PartsList(rest);
      AllFramesCons(v, PartsList(rest));
      FrontFrame(v[0], v[1..]);
      assert v == [v[0]] + v[1..];
      assert ([(v[0], |v| > 1)] + Frames(v[1..])) + AllFrames(PartsList(rest))
          == [(v[0], |v| > 1)] + (Frames(v[1..]) + AllFrames(PartsList(rest)));
    }
  }

  /** Receiving as often as there are frames hands out all of them, in order. */
  lemma {:induction false} AllPendingComeOut(t: SocketType, b: Inbox)
    requires ReceivesPlain(t) && !b.bypass && NonEmptyMessages(b.messages)
    ensures |RecvN(t, b, |Pending(b)|)| == |Pending(b)|
    ensures forall i :: 0 <= i < |Pending(b)| ==>
              RecvN(t, b, |Pending(b)|)[i] == RecvOk(Pending(b)[i].0, Pending(b)[i].1)
    decreases |Pending(b)|
  {
    hide Pending, RecvFrame, NonEmptyMessages;
    if |Pending(b)| > 0 {
      NextPending(t, b);
      var (r, b') := RecvFrame(t, b, true, []);
      AllPendingComeOut(t, b');
      assert RecvN(t, b, |Pending(b)|) == [r] + RecvN(t, b', |Pending(b')|);
    }
  }

  function AllWell(frames: seq<Flagged>): (calls: seq<SendCall>)
    ensures |calls| == |frames|
  {
    seq(|frames|, i requires 0 <= i < |frames| => SendCall(frames[i].0, frames[i].1, ALL_WELL))
  }

  /** What an outbox accounts for when nothing was refused. */
  predicate HoldsInFull(o: Outbox, frames: seq<Flagged>) {
    && AllFrames(o.submitted) + Announced(o.accum) == frames
    && forall i :: 0 <= i < |o.submitted| ==> o.submitted[i] != []
  }

  lemma SendsOneInFull(o: Outbox, f: Flagged, frames: seq<Flagged>)
    requires HoldsInFull(o, frames)
    ensures HoldsInFull(SendFrame(o, f.0, f.1, ALL_WELL).1, frames + [f])
  {
    hide AllFrames, Frames, Announced;
    NoFrames();
    AnnouncedMore(o.accum, f.0);
    AllFramesSnoc(o.submitted, o.accum + [f.0]);
    assert AllFrames(o.submitted) + Announced(o.accum) + [f] == AllFrames(o.submitted) + (Announced(o.accum) + [f]);
    var all := AllFrames(o.submitted + [o.accum + [f.0]]);
    assert all + [] == all;
  }

  /** Sends that all succeed: the frames of what was handed over and then the buffered ones. */
  lemma {:induction false} SentInFull(frames: seq<Flagged>)
    ensures HoldsInFull(PostAll(AllWell(frames)).out, frames)
  {
    hide HoldsInFull, SendFrame;
    if frames == [] {
      NothingHeld();
    } else {
      var init, f := frames[..|frames| - 1], frames[|frames| - 1];
      assert AllWell(frames)[..|frames| - 1] == AllWell(init);
      SentInFull(init);
      SendsOneInFull(PostAll(AllWell(init)).out, f, init);
      assert frames == init + [f];
    }
  }

  lemma NothingHeld()
    ensures HoldsInFull(NO_MAIL, [])
  {
  }

  lemma BufferedAnnounces(msgs: seq<seq<Bytes>>, buffered: seq<Bytes>, frames: seq<Flagged>)
    requires AllFrames(msgs) + Announced(buffered) == frames
    ensures buffered != [] ==> frames != [] && frames[|frames| - 1].1
  {
  }

  /** Round trip over the regular path between types that change no parts: frames sent
      successfully and ending a message are received as the same frames, with RCVMORE where
      SNDMORE was set, whatever forms the messages take on the way. */
  lemma RoundTrip(from: SocketType, to: SocketType, frames: seq<Flagged>,
                  ms: seq<WellFormed>, wires: seq<WellFormed>, ds: seq<WellFormed>)
    requires SendsPlain(from) && ReceivesPlain(to) && (frames == [] || !frames[|frames| - 1].1)
    requires PartsList(ms) == PostAll(AllWell(frames)).out.submitted && |ms| == |wires| == |ds|
    requires forall i :: 0 <= i < |ms| ==> Carried(from, to, ms[i], wires[i], ds[i])
    ensures var results := RecvN(to, Arrive(EMPTY_INBOX, Arrival(ds, [], false)), |frames|);
            && |results| == |frames|
            && forall i :: 0 <= i < |frames| ==> results[i] == RecvOk(frames[i].0, frames[i].1)
  {
    hide AllFrames, Frames, Announced, Parts, ValidMessage, PostAll, Carried, RecvN;
    var o := PostAll(AllWell(frames)).out;
    SentInFull(frames);
    BufferedAnnounces(o.submitted, o.accum, frames);
    NoFrames();
    forall i | 0 <= i < |ds| ensures Parts(ds[i]) == PartsList(ms)[i] {
      CarriedPlain(from, to, ms[i], wires[i], ds[i]);
    }
    assert PartsList(ds) == o.submitted;
    var b := Arrive(EMPTY_INBOX, Arrival(ds, [], false));
    assert b.messages == ds;
    assert Pending(b) == frames;
    AllPendingComeOut(to, b);
  }
}
