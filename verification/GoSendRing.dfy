/** The Go half of the send ring as the object it is in the source: cursors updated in place
    over a descriptor array and a payload array. Values loaded from shared words (the native
    head and the closed flag) are parameters. Each method is proved against the functions
    the step system uses, and `TrySend` against an uninterrupted run of its steps. */
module GoSendRing {
  import opened Words
  import opened Options
  import opened SendRing
  import opened SendRingInvariant

  /** Everything the Go side writes. */
  datatype GoMemory = GoMemory(p: GoSide, descs: seq<Desc>, payload: Bytes)

  /** `trySend` once space is reserved: copy the body, write the descriptor, move the tail. */
  function Commit(m: GoMemory, body: Bytes, p: GoSide, res: Reservation): GoMemory
    requires |m.descs| > 0 && res.offset + |body| <= |m.payload|
  {
    GoMemory(p.(tail := WrappingAdd(p.tail, 1)),
             m.descs[Offset(p.tail, |m.descs|) := Desc(res.offset, |body|, res.end)],
             Splice(m.payload, res.offset, body))
  }

  lemma ReservationFits(p: GoSide, pcap: nat, length: nat)
    requires pcap > 0 && length <= pcap
    ensures var x := ReservePayload(p, pcap, length); x.Some? ==> x.value.1.offset + length <= pcap
  {
  }

  /** `trySend` from the first reservation on; `headForReclaim` is the head loaded if the
      payload ring looks full. */
  function TrySendFromReserve(m: GoMemory, body: Bytes, headForReclaim: nat): (Outcome, GoMemory)
    requires |m.descs| > 0 && |body| < |m.payload|
  {
    ReservationFits(m.p, |m.payload|, |body|);
    match ReservePayload(m.p, |m.payload|, |body|)
    case Some((p2, res)) => (Accepted, Commit(m, body, p2, res))
    case None =>
      var p2 := Reclaim(m.p, m.descs, headForReclaim);
      ReservationFits(p2, |m.payload|, |body|);
      match ReservePayload(p2, |m.payload|, |body|)
      case Some((p3, res)) => (Accepted, Commit(m, body, p3, res))
      case None => (Again, m.(p := p2))
  }

  /** One `trySend` of a body shorter than the payload ring; `headWhenFull` is the head loaded
      if the cached one makes the descriptor ring look full. */
  function TrySendResult(m: GoMemory, body: Bytes, closed: bool, headWhenFull: nat, headForReclaim: nat)
    : (Outcome, GoMemory)
    requires |m.descs| > 0 && |body| < |m.payload|
  {
    if closed then (ClosedError, m)
    else
      var m1 := if LooksFull(m.p, |m.descs|) then m.(p := m.p.(cachedHead := headWhenFull)) else m;
      if LooksFull(m1.p, |m.descs|) then (Again, m1)
      else TrySendFromReserve(m1, body, headForReclaim)
  }

  lemma OneCloser(head: nat, cursor: nat)
    requires head < TWO_64 && cursor < TWO_64 && head != cursor
    ensures WrappingAdd(cursor, 1) < TWO_64
    ensures WrappingSub(head, cursor) == WrappingSub(head, WrappingAdd(cursor, 1)) + 1
  {
  }

  class GoRing {
    const descriptors: array<Desc>
    const payload: array<byte>
    var tail: nat
    var cachedHead: nat
    var reclaimedHead: nat
    var payloadTail: nat
    var payloadHead: nat

    ghost predicate Valid()
      reads this
    {
      && descriptors.Length > 0 && payload.Length > 0
      && tail < TWO_64 && reclaimedHead < TWO_64
    }

    ghost function View(): GoSide
      reads this
    {
      GoSide(tail, cachedHead, reclaimedHead, payloadTail, payloadHead)
    }

    ghost function Memory(): GoMemory
      reads this, descriptors, payload
    {
      GoMemory(View(), descriptors[..], payload[..])
    }

    constructor (dcap: nat, pcap: nat)
      requires dcap > 0 && pcap > 0
      ensures Valid() && fresh(descriptors) && fresh(payload)
      ensures Memory() == GoMemory(Init(dcap, pcap).ring.p, Init(dcap, pcap).ring.descs, Init(dcap, pcap).ring.payload)
    {
      descriptors := new Desc[dcap](_ => Desc(0, 0, 0));
      payload := new byte[pcap](_ => 0);
      tail, cachedHead, reclaimedHead, payloadTail, payloadHead := 0, 0, 0, 0, 0;
      new;
      assert descriptors[..] == seq(dcap, _ => Desc(0, 0, 0));
      assert payload[..] == seq(pcap, _ => 0);
    }

    method DescIsFull(head: nat) returns (full: bool)
      requires Valid()
      modifies `cachedHead
      ensures cachedHead == if LooksFull(old(View()), descriptors.Length) then head else old(cachedHead)
      ensures full == LooksFull(View(), descriptors.Length)
    {
      if WrappingSub(tail, cachedHead) < descriptors.Length {
        return false;
      }
      cachedHead := head;
      return WrappingSub(tail, cachedHead) >= descriptors.Length;
    }

    method ReserveBytes(length: nat) returns (r: Option<Reservation>)
      requires Valid()
      modifies `payloadTail
      ensures match ReservePayload(old(View()), payload.Length, length)
              case None => r == None && View() == old(View())
              case Some((p, res)) => r == Some(res) && View() == p
    {
      if length == 0 {
        return Some(Reservation(0, payloadTail));
      }
      var cursor, offset, needed := payloadTail, Offset(payloadTail, payload.Length), length;
      if offset + length > payload.Length {
        var pad := payload.Length - offset;
        cursor := WrappingAdd(cursor, pad);
        needed := needed + pad;
        offset := 0;
      } else {
        cursor := WrappingAdd(cursor, 0);
      }
      if WrappingSub(WrappingAdd(cursor, length), payloadHead) > payload.Length {
        return None;
      }
      payloadTail := WrappingAdd(payloadTail, needed);
      return Some(Reservation(offset, WrappingAdd(cursor, length)));
    }

    method ReclaimConsumed(head: nat)
      requires Valid() && head < TWO_64
      modifies `cachedHead, `reclaimedHead, `payloadHead
      ensures Valid() && View() == Reclaim(old(View()), descriptors[..], head)
    {
      hide Offset;
      ghost var p := View();
      ghost var descs := descriptors[..];
      ghost var total := WrappingSub(head, reclaimedHead);
      while reclaimedHead != head
        invariant Valid()
        invariant ReclaimLoop(descs, reclaimedHead, WrappingSub(head, reclaimedHead), payloadHead)
               == ReclaimLoop(descs, p.reclaimedHead, total, p.payloadHead)
        decreases WrappingSub(head, reclaimedHead)
      {
        OneCloser(head, reclaimedHead);
        payloadHead := descriptors[Offset(reclaimedHead, descriptors.Length)].payloadEnd;
        reclaimedHead := WrappingAdd(reclaimedHead, 1);
      }
      cachedHead := head;
    }

    method CopyBody(offset: nat, body: Bytes)
      requires offset + |body| <= payload.Length
      modifies payload
      ensures payload[..] == Splice(old(payload[..]), offset, body)
    {
      ghost var before := payload[..];
      for i := 0 to |body|
        invariant payload[..] == Splice(before, offset, body[..i])
      {
        payload[offset + i] := body[i];
        assert body[..i + 1] == body[..i] + [body[i]];
      }
      assert body[..|body|] == body;
    }

    method TrySend(body: Bytes, closed: bool, headWhenFull: nat, headForReclaim: nat) returns (out: Outcome)
      requires Valid() && |body| < payload.Length && headForReclaim < TWO_64
      modifies this, descriptors, payload
      ensures Valid()
      ensures (out, Memory()) == TrySendResult(old(Memory()), body, closed, headWhenFull, headForReclaim)
    {
      if closed {
        return ClosedError;
      }
      var full := DescIsFull(headWhenFull);
      if full {
        return Again;
      }
      ReservationFits(View(), payload.Length, |body|);
      var r := ReserveBytes(|body|);
      if r.None? {
        ReclaimConsumed(headForReclaim);
        ReservationFits(View(), payload.Length, |body|);
        r := ReserveBytes(|body|);
        if r.None? {
          return Again;
        }
      }
      var res := r.value;
      CopyBody(res.offset, body);
      descriptors[Offset(tail, descriptors.Length)] := Desc(res.offset, |body|, res.end);
      tail := WrappingAdd(tail, 1);
      return Accepted;
    }
  }

  // ---- The method is what the Go thread's steps do ----

  function MemoryOf(r: Ring): GoMemory {
    GoMemory(r.p, r.descs, r.payload)
  }

  predicate InTrySend(pc: GoPc) {
    || pc.CheckClosed? || pc.LoadHeadWhenFull? || pc.Reserve? || pc.ReclaimForSend?
    || pc.Copy? || pc.WriteDesc? || pc.StoreTail?
  }

  function Rank(pc: GoPc): nat {
    match pc
    case CheckClosed(_) => 6
    case LoadHeadWhenFull(_) => 5
    case Reserve(_) => 4
    case ReclaimForSend(_) => 3
    case Copy(_, _, _) => 2
    case WriteDesc(_, _) => 1
    case _ => 0
  }

  function Remaining(pc: GoPc): nat {
    if pc.Copy? && pc.i < |pc.body| then |pc.body| - pc.i else 0
  }

  /** The Go thread running alone until the call returns. */
  function Solo(s: State): State
    requires Usable(s.ring)
    decreases Rank(s.pc), Remaining(s.pc), InTrySend(s.pc)
  {
    if InTrySend(s.pc) then Solo(GoStep(s)) else s
  }

  lemma {:induction false} SoloCopy(s: State)
    requires Inv(s) && s.pc.Copy?
    ensures s.pc.res.offset + |s.pc.body| <= |s.ring.payload|
    ensures Solo(s).pc == Ready(Accepted)
    ensures MemoryOf(Solo(s).ring) == Commit(MemoryOf(s.ring), s.pc.body, s.ring.p, s.pc.res)
    decreases Remaining(s.pc)
  {
    hide Offset, Sound, Cursors, EndAt;
    var r := s.ring;
    var body, res, i := s.pc.body, s.pc.res, s.pc.i;
    CopyTarget(r, body, res, StartOf(r, body, res), i);
    CopyKeeps(s, body, res, i);
    var s' := GoStep(s);
    if s'.pc.Copy? {
      SoloCopy(s');
    } else {
      SoloCommit(s');
    }
    SpliceOver(r.payload, res.offset, body, i);
  }

  lemma SoloCommit(s: State)
    requires Usable(s.ring) && s.pc.WriteDesc? && s.pc.res.offset + |s.pc.body| <= |s.ring.payload|
    requires s.ring.payload[s.pc.res.offset..s.pc.res.offset + |s.pc.body|] == s.pc.body
    ensures Solo(s).pc == Ready(Accepted)
    ensures MemoryOf(Solo(s).ring) == Commit(MemoryOf(s.ring), s.pc.body, s.ring.p, s.pc.res)
  {
    hide Offset, StartOf;
    var s1 := GoStep(s);
    var s2 := GoStep(s1);
    assert Solo(s) == Solo(s1) == Solo(s2) == s2;
    SpliceSame(s.ring.payload, s.pc.res.offset, s.pc.body);
  }

  /** From a successful reservation on. */
  lemma SoloReserved(s: State, body: Bytes, retried: bool)
    requires Sound(s.ring, s.lock) && Settled(s.ring) && RoomForOne(s.ring) && |body| < s.ring.pcap
    requires Attended(s.ring, s.lock, s.waiters)
    ensures var x := ReservePayload(s.ring.p, s.ring.pcap, |body|);
            x.Some? ==>
              && x.value.1.offset + |body| <= |s.ring.payload|
              && Usable(AfterReserve(s, body, retried).ring)
              && Solo(AfterReserve(s, body, retried)).pc == Ready(Accepted)
              && MemoryOf(Solo(AfterReserve(s, body, retried)).ring)
                 == Commit(MemoryOf(s.ring), body, x.value.0, x.value.1)
  {
    hide Offset, Sound, Cursors, EndAt, ReservePayload;
    ReservationFits(s.ring.p, s.ring.pcap, |body|);
    AfterReserveKeeps(s, body, retried);
    var t := AfterReserve(s, body, retried);
    if ReservePayload(s.ring.p, s.ring.pcap, |body|).Some? {
      if body == [] {
        SoloCommit(t);
      } else {
        SoloCopy(t);
      }
    }
  }

  lemma SoloReserve(s: State)
    requires Inv(s) && s.pc.Reserve?
    ensures var (out, m) := TrySendFromReserve(MemoryOf(s.ring), s.pc.body, s.ring.head);
            Solo(s).pc == Ready(out) && MemoryOf(Solo(s).ring) == m
  {
    hide Offset, Sound, Cursors, EndAt, ReservePayload, Producing;
    var r, body := s.ring, s.pc.body;
    assert Settled(r) && RoomForOne(r) && |body| < r.pcap by { ReserveFacts(s); }
    SoloReserved(s, body, false);
    if ReservePayload(r.p, r.pcap, |body|).None? {
      var s1 := s.(pc := ReclaimForSend(body));
      assert GoStep(s) == s1;
      ReclaimKeeps(r, s.lock);
      ReclaimFields(r);
      var s2 := s1.(ring := ReclaimConsumed(r));
      SoloReserved(s2, body, true);
      assert Solo(s) == Solo(s1) == Solo(AfterReserve(s2, body, true));
    }
  }

  lemma ReserveFacts(s: State)
    requires Inv(s) && s.pc.Reserve?
    ensures Settled(s.ring) && RoomForOne(s.ring) && |s.pc.body| < s.ring.pcap
    ensures |s.ring.sent| < s.ring.headIdx + s.ring.dcap
  {
    hide Offset, Sound, EndAt;
  }

  /** A call of `trySend` that no other thread interrupts does exactly what the method does. */
  lemma SoloIsTrySend(s: State)
    requires Inv(s) && s.pc.CheckClosed?
    ensures |s.pc.body| < |s.ring.payload| && |s.ring.descs| > 0
    ensures var (out, m) := TrySendResult(MemoryOf(s.ring), s.pc.body, s.closed, s.ring.head, s.ring.head);
            Solo(s).pc == Ready(out) && MemoryOf(Solo(s).ring) == m
  {
    hide Offset, Sound, EndAt, LooksFull, TrySendFromReserve, AfterReserve, CopyStep, ReclaimConsumed, StartOf;
    var s1 := GoStep(s);
    GoKeeps(s);
    if s1.pc.LoadHeadWhenFull? {
      var s2 := GoStep(s1);
      GoKeeps(s1);
      assert Solo(s) == Solo(s1) == Solo(s2);
      if s2.pc.Reserve? {
        SoloReserve(s2);
      }
    } else if s1.pc.Reserve? {
      SoloReserve(s1);
    }
  }
}
