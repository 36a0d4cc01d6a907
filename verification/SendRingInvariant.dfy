/** The inductive invariant of the Go send ring and its preservation by every step. */
module SendRingInvariant {
  import opened Words
  import opened Options
  import opened SendRing

  /** The capacities: powers of two, with room in 64 bits for the cursor arithmetic of a
      reservation (at most three capacities ahead). */
  predicate Capacities(dcap: nat, pcap: nat) {
    IsCapacity(dcap) && IsCapacity(pcap) && 3 * pcap < TWO_64
  }

  /** The descriptor ring: every cursor is a wrapped send number, in order, and the ring is
      never more than full. */
  predicate Cursors(r: Ring)
    ensures Cursors(r) ==> Usable(r)
    ensures Cursors(r) ==> r.cachedHeadIdx <= r.headIdx <= r.nextIdx <= r.cachedTailIdx <= r.published <= |r.sent|
    ensures Cursors(r) ==> r.reclaimedIdx <= r.headIdx
    ensures Cursors(r) ==> |r.sent| <= r.cachedHeadIdx + r.dcap
  {
    && Usable(r) && Capacities(r.dcap, r.pcap)
    && r.cachedHeadIdx <= r.headIdx <= r.nextIdx <= r.cachedTailIdx <= r.published <= |r.sent|
    && r.reclaimedIdx <= r.headIdx
    && |r.sent| <= r.cachedHeadIdx + r.dcap
    && r.p.tail == |r.sent| % TWO_64
    && r.p.cachedHead == r.cachedHeadIdx % TWO_64
    && r.p.reclaimedHead == r.reclaimedIdx % TWO_64
    && r.tail == r.published % TWO_64
    && r.head == r.headIdx % TWO_64
    && r.next == r.nextIdx % TWO_64
    && r.cachedTail == r.cachedTailIdx % TWO_64
  }

  /** A body lies in one piece before the end of the payload ring. */
  predicate InOnePiece(pcap: nat, x: Sent)
    requires pcap > 0
  {
    x.body != [] ==> Offset(x.start, pcap) + |x.body| <= pcap
  }

  /** Bodies follow each other in the payload ring, with padding only between them. */
  predicate Placement(pcap: nat, sent: seq<Sent>)
    requires pcap > 0
  {
    && (forall i :: 0 <= i < |sent| ==> InOnePiece(pcap, sent[i]))
    && (forall i {:trigger EndAt(sent, i)} :: 0 <= i < |sent| ==> EndAt(sent, i) <= sent[i].start)
  }

  function DescOf(pcap: nat, x: Sent): Desc
    requires pcap > 0
  {
    Desc(if x.body == [] then 0 else Offset(x.start, pcap), |x.body|, (x.start + |x.body|) % TWO_64)
  }

  /** The last `dcap` descriptors are the ones in the ring. */
  predicate DescsHold(dcap: nat, pcap: nat, descs: seq<Desc>, sent: seq<Sent>)
    requires dcap > 0 && pcap > 0 && |descs| == dcap
  {
    forall i: nat {:trigger sent[i]} :: i < |sent| <= i + dcap ==> descs[Offset(i, dcap)] == DescOf(pcap, sent[i])
  }

  predicate HasBody(pcap: nat, payload: Bytes, x: Sent)
    requires pcap > 0 && |payload| == pcap && InOnePiece(pcap, x)
  {
    x.body != [] ==> payload[Offset(x.start, pcap)..Offset(x.start, pcap) + |x.body|] == x.body
  }

  /** Every body whose slot has not been freed is in the payload ring, byte for byte. */
  predicate BodiesHold(pcap: nat, payload: Bytes, sent: seq<Sent>, headIdx: nat)
    requires pcap > 0 && |payload| == pcap && Placement(pcap, sent)
  {
    forall i :: headIdx <= i < |sent| ==> HasBody(pcap, payload, sent[i])
  }

  function Oldest(headIdx: nat, lock: LockPc): nat {
    if lock.Advancing? then headIdx + 1 else headIdx
  }

  /** A slot's flag is up exactly when its message was taken and dropped, and messages alive
      are windows on their own bodies. `oldest` is the first slot not yet being freed. */
  predicate FlagsHold(dcap: nat, done: seq<bool>, held: set<nat>, oldest: nat, nextIdx: nat)
    requires dcap > 0 && |done| == dcap
  {
    && (forall j: nat {:trigger Offset(j, dcap)} :: oldest <= j < oldest + dcap ==>
          (done[Offset(j, dcap)] <==> j < nextIdx && j !in held))
    && (forall k :: k in held ==> oldest <= k < nextIdx)
    && oldest <= nextIdx
  }

  predicate SlicesHold(pcap: nat, sent: seq<Sent>, held: map<nat, Slice>)
    requires pcap > 0
  {
    forall k :: k in held ==>
      && k < |sent|
      && held[k] == Slice(k % TWO_64, DescOf(pcap, sent[k]).payload, |sent[k].body|)
  }

  /** The reclaimed end of the payload ring, as an absolute position. */
  function PayloadHead(r: Ring): nat
    requires r.reclaimedIdx <= |r.sent|
  {
    EndAt(r.sent, r.reclaimedIdx)
  }

  predicate Sound(r: Ring, lock: LockPc)
    ensures Sound(r, lock) ==> Cursors(r)
  {
    && Cursors(r)
    && Placement(r.pcap, r.sent)
    && DescsHold(r.dcap, r.pcap, r.descs, r.sent)
    && BodiesHold(r.pcap, r.payload, r.sent, r.headIdx)
    && FlagsHold(r.dcap, r.done, r.held.Keys, Oldest(r.headIdx, lock), r.nextIdx)
    && SlicesHold(r.pcap, r.sent, r.held)
    && r.p.payloadHead == PayloadHead(r) % TWO_64
  }

  /** No reservation is open. */
  predicate Settled(r: Ring)
    requires r.reclaimedIdx <= |r.sent|
  {
    && r.p.payloadTail == EndAt(r.sent, |r.sent|) % TWO_64
    && EndAt(r.sent, |r.sent|) <= PayloadHead(r) + r.pcap
  }

  /** A reservation for `body` at absolute position `start` is open. */
  predicate Reserved(r: Ring, body: Bytes, res: Reservation, start: nat)
    requires r.reclaimedIdx <= |r.sent| && r.pcap > 0
  {
    && EndAt(r.sent, |r.sent|) <= start
    && start + |body| <= PayloadHead(r) + r.pcap
    && r.p.payloadTail == (start + |body|) % TWO_64
    && InOnePiece(r.pcap, Sent(start, body))
    && DescOf(r.pcap, Sent(start, body)) == Desc(res.offset, |body|, res.end)
  }

  predicate RoomForOne(r: Ring) {
    |r.sent| < r.cachedHeadIdx + r.dcap
  }

  predicate Producing(r: Ring, pc: GoPc)
    requires Cursors(r)
  {
    match pc
    case LoadHeadWhenFull(body) => Settled(r) && |body| < r.pcap
    case CheckClosed(body) => Settled(r) && |body| < r.pcap
    case Reserve(body) => Settled(r) && RoomForOne(r) && |body| < r.pcap
    case ReclaimForSend(body) => Settled(r) && RoomForOne(r) && |body| < r.pcap
    case Copy(body, res, i) =>
      && RoomForOne(r) && i < |body|
      && Reserved(r, body, res, StartOf(r, body, res))
      && r.payload[res.offset..res.offset + i] == body[..i]
    case WriteDesc(body, res) =>
      && RoomForOne(r)
      && Reserved(r, body, res, StartOf(r, body, res))
      && HasBody(r.pcap, r.payload, Sent(StartOf(r, body, res), body))
    case ReclaimAfterDrain(_) => Settled(r) && r.headIdx == |r.sent|
    case GoFault => false
    case _ => Settled(r)
  }

  /** No freed slot is forgotten: whenever the oldest flag is up, some dropping thread has
      yet to scan it. */
  predicate Attended(r: Ring, lock: LockPc, waiters: nat)
    requires Usable(r)
  {
    r.done[Offset(r.head, r.dcap)] ==> waiters > 0 || lock.Scanning?
  }

  predicate Inv(s: State) {
    && Sound(s.ring, s.lock)
    && Producing(s.ring, s.pc)
    && Attended(s.ring, s.lock, s.waiters)
  }

  // ---- Arithmetic of send numbers and positions ----

  lemma {:induction false} EndMonotone(pcap: nat, sent: seq<Sent>, i: nat, j: nat)
    requires pcap > 0 && Placement(pcap, sent) && i <= j <= |sent|
    ensures EndAt(sent, i) <= EndAt(sent, j)
    decreases j
  {
    if i < j {
      EndMonotone(pcap, sent, i, j - 1);
      assert EndAt(sent, j - 1) <= sent[j - 1].start;
    }
  }

  lemma EndAppend(sent: seq<Sent>, x: Sent, i: nat)
    requires i <= |sent|
    ensures EndAt(sent + [x], i) == EndAt(sent, i)
    ensures EndAt(sent + [x], |sent| + 1) == x.start + |x.body|
  {
  }

  /** The slot of a send number does not depend on the 64-bit wrap. */
  lemma SlotOf(r: Ring, i: nat)
    requires Cursors(r)
    ensures Offset(i % TWO_64, r.dcap) == Offset(i, r.dcap)
  {
    hide Offset, PowerOfTwo;
    CursorOffset(i, r.dcap);
  }

  /** Send numbers at most one descriptor capacity apart compare like their cursors. */
  lemma CompareCursors(r: Ring, i: nat, j: nat)
    requires Cursors(r) && i <= j <= i + r.dcap
    ensures i % TWO_64 == j % TWO_64 <==> i == j
    ensures WrappingSub(j % TWO_64, i % TWO_64) == j - i
  {
    hide Offset, PowerOfTwo;
    WrappedEquality(i, j);
    WrappedDifference(j, i);
  }

  // ---- Reclaiming ----

  /** The loop may read stale descriptors on the way, but only its last read counts. */
  lemma {:induction false} ReclaimLoopLast(descs: seq<Desc>, from: nat, count: nat, payloadHead: nat)
    requires |descs| > 0 && count > 0
    ensures ReclaimLoop(descs, from, count, payloadHead)
         == descs[Offset(if count == 1 then from else (from + count - 1) % TWO_64, |descs|)].payloadEnd
    decreases count
  {
    hide Offset;
    if count > 1 {
      var next := WrappingAdd(from, 1);
      ReclaimLoopLast(descs, next, count - 1, descs[Offset(from, |descs|)].payloadEnd);
      if count > 2 {
        ModShift(from + count - 1, -((from + 1) / TWO_64), TWO_64);
        assert next + (count - 1) - 1 == from + count - 1 + (-((from + 1) / TWO_64)) * TWO_64;
      } else {
        assert next == (from + 1) % TWO_64;
      }
    }
  }

  /** Reclaiming moves the payload head to the end of the last consumed body, although the
      descriptors it walks over may have been overwritten: it runs only when the
      descriptor ring is not full, so the last one it reads is still in place. */
  lemma ReclaimedHead(r: Ring, lock: LockPc)
    requires Sound(r, lock) && |r.sent| < r.headIdx + r.dcap
    ensures ReclaimConsumed(r).p.payloadHead == PayloadHead(ReclaimConsumed(r)) % TWO_64
    ensures r.headIdx - r.reclaimedIdx < TWO_64 ==> PayloadHead(ReclaimConsumed(r)) == EndAt(r.sent, r.headIdx)
  {
    hide Offset, BodiesHold, FlagsHold, SlicesHold, Placement, PowerOfTwo;
    var count := WrappingSub(r.head, r.p.reclaimedHead);
    WrappedGap(r.headIdx, r.reclaimedIdx);
    if r.p.reclaimedHead != r.head {
      ReclaimLoopLast(r.descs, r.p.reclaimedHead, count, r.p.payloadHead);
      LastVisited(r.headIdx, r.reclaimedIdx);
      SlotOf(r, r.headIdx - 1);
      assert r.descs[Offset(r.headIdx - 1, r.dcap)] == DescOf(r.pcap, r.sent[r.headIdx - 1]);
    }
  }

  lemma WrappedGap(h: nat, c: nat)
    requires c <= h
    ensures WrappingSub(h % TWO_64, c % TWO_64) == (h - c) % TWO_64
    ensures h % TWO_64 == c % TWO_64 <==> (h - c) % TWO_64 == 0
    ensures h - c < TWO_64 && h % TWO_64 == c % TWO_64 ==> h == c
  {
    var k := h / TWO_64 - c / TWO_64;
    assert h - c == (h % TWO_64 - c % TWO_64) + k * TWO_64;
    ModShift(h % TWO_64 - c % TWO_64, k, TWO_64);
  }

  lemma LastVisited(h: nat, c: nat)
    requires c < h && (h - c) % TWO_64 > 0
    ensures var count := (h - c) % TWO_64;
            (if count == 1 then c % TWO_64 else (c % TWO_64 + count - 1) % TWO_64) == (h - 1) % TWO_64
  {
    var count := (h - c) % TWO_64;
    var k := (h - c) / TWO_64 + c / TWO_64;
    assert h - 1 == (c % TWO_64 + count - 1) + k * TWO_64;
    ModShift(c % TWO_64 + count - 1, k, TWO_64);
    if count == 1 {
      SmallMod(c % TWO_64, TWO_64);
    }
  }

  lemma ReclaimKeeps(r: Ring, lock: LockPc)
    requires Sound(r, lock) && Settled(r) && |r.sent| < r.headIdx + r.dcap
    ensures Sound(ReclaimConsumed(r), lock) && Settled(ReclaimConsumed(r)) && RoomForOne(ReclaimConsumed(r))
  {
    ReclaimedHead(r, lock);
    EndMonotone(r.pcap, r.sent, r.reclaimedIdx, r.headIdx);
    hide DescsHold, BodiesHold, FlagsHold, SlicesHold, Placement, Capacities, ReclaimLoop, EndAt;
  }

  // ---- Reserving ----

  /** The true size of a reservation. */
  lemma ReserveIsTrue(r: Ring, body: Bytes)
    requires Cursors(r) && Settled(r) && body != [] && |body| < r.pcap
    requires r.p.payloadHead == PayloadHead(r) % TWO_64 && PayloadHead(r) <= EndAt(r.sent, |r.sent|)
    ensures var pt := EndAt(r.sent, |r.sent|);
            var pad := if Offset(pt, r.pcap) + |body| > r.pcap then r.pcap - Offset(pt, r.pcap) else 0;
            match ReservePayload(r.p, r.pcap, |body|)
            case None => pt + pad + |body| > PayloadHead(r) + r.pcap
            case Some((p, res)) =>
              && pt + pad + |body| <= PayloadHead(r) + r.pcap
              && p == r.p.(payloadTail := (pt + pad + |body|) % TWO_64)
              && res == Reservation(if pad > 0 then 0 else Offset(pt, r.pcap), (pt + pad + |body|) % TWO_64)
  {
    hide Offset, PowerOfTwo, EndAt;
    var pt := EndAt(r.sent, |r.sent|);
    var pad := if Offset(pt, r.pcap) + |body| > r.pcap then r.pcap - Offset(pt, r.pcap) else 0;
    CursorOffset(pt, r.pcap);
    WrappedSum(pt, pad);
    WrappedSum(pt + pad, |body|);
    WrappedSum(pt, |body| + pad);
    WrappedDifference(pt + pad + |body|, PayloadHead(r));
  }

  /** The history finds the start of a reservation again. */
  lemma StartRecovered(r: Ring, body: Bytes, res: Reservation, start: nat)
    requires EndAt(r.sent, |r.sent|) <= start < EndAt(r.sent, |r.sent|) + TWO_64
    requires res.end == (start + |body|) % TWO_64
    ensures StartOf(r, body, res) == start
  {
    hide EndAt;
    var last := EndAt(r.sent, |r.sent|);
    var k := (start + |body|) / TWO_64;
    assert res.end - |body| == start + (-k) * TWO_64;
    ModShift(start, -k, TWO_64);
    var x: int := WrappingSub(res.end, |body|);
    assert x == start % TWO_64;
    assert x - last == (start - last) + (-(start / TWO_64)) * TWO_64;
    ModShift(start - last, -(start / TWO_64), TWO_64);
    SmallMod(start - last, TWO_64);
  }

  /** A successful reservation is open at a definite place and the ring is otherwise as
      before; a refused one changes nothing. */
  lemma ReserveKeeps(r: Ring, lock: LockPc, body: Bytes)
    requires Sound(r, lock) && Settled(r) && |body| < r.pcap
    ensures var x := ReservePayload(r.p, r.pcap, |body|);
            x.Some? ==>
              var r' := r.(p := x.value.0);
              && Sound(r', lock)
              && Reserved(r', body, x.value.1, StartOf(r', body, x.value.1))
  {
    hide Offset, PowerOfTwo, EndAt, DescsHold, BodiesHold, FlagsHold, SlicesHold, ReservePayload, Capacities;
    EndMonotone(r.pcap, r.sent, r.reclaimedIdx, |r.sent|);
    var x := ReservePayload(r.p, r.pcap, |body|);
    var pt := EndAt(r.sent, |r.sent|);
    CapacityBound(r);
    if body == [] {
      EmptyReservation(r.p, r.pcap);
      StartRecovered(r, body, x.value.1, pt);
    } else {
      ReserveIsTrue(r, body);
      if x.Some? {
        var pad := if Offset(pt, r.pcap) + |body| > r.pcap then r.pcap - Offset(pt, r.pcap) else 0;
        if pad > 0 {
          OffsetWrap(pt, r.pcap);
        }
        StartRecovered(r.(p := x.value.0), body, x.value.1, pt + pad);
      }
    }
  }

  lemma CapacityBound(r: Ring)
    requires Cursors(r)
    ensures 3 * r.pcap < TWO_64
  {
  }

  lemma EmptyReservation(p: GoSide, pcap: nat)
    requires pcap > 0
    ensures ReservePayload(p, pcap, 0) == Some((p, Reservation(0, p.payloadTail)))
  {
  }

  // ---- Writing ----

  /** A store inside the reservation leaves every unfreed body alone. */
  lemma StoreMissesBody(r: Ring, lock: LockPc, at: nat, b: byte, j: nat)
    requires Sound(r, lock) && r.headIdx <= j < |r.sent|
    requires EndAt(r.sent, |r.sent|) <= at < PayloadHead(r) + r.pcap
    ensures HasBody(r.pcap, r.payload[Offset(at, r.pcap) := b], r.sent[j])
  {
    hide Offset, PowerOfTwo, DescsHold, FlagsHold, SlicesHold, EndAt;
    var x := r.sent[j];
    assert HasBody(r.pcap, r.payload, x);
    EndMonotone(r.pcap, r.sent, r.reclaimedIdx, j);
    EndMonotone(r.pcap, r.sent, j + 1, |r.sent|);
    EndOf(r.sent, j);
    assert EndAt(r.sent, j) <= x.start;
    BodyOffByOne(r.pcap, r.payload, x, at, b);
  }

  lemma EndOf(sent: seq<Sent>, j: nat)
    requires j < |sent|
    ensures EndAt(sent, j + 1) == sent[j].start + |sent[j].body|
  {
  }

  lemma BodyOffByOne(pcap: nat, payload: Bytes, x: Sent, at: nat, b: byte)
    requires pcap > 0 && |payload| == pcap && InOnePiece(pcap, x) && HasBody(pcap, payload, x)
    requires x.start + |x.body| <= at < x.start + pcap
    ensures HasBody(pcap, payload[Offset(at, pcap) := b], x)
  {
    hide Offset;
    if x.body != [] {
      var off, n := Offset(x.start, pcap), |x.body|;
      var payload' := payload[Offset(at, pcap) := b];
      forall k | off <= k < off + n ensures payload'[k] == payload[k] {
        OffsetAdd(x.start, k - off, pcap);
        DistinctSlots(x.start + (k - off), at, pcap);
      }
      assert payload'[off..off + n] == payload[off..off + n];
    }
  }

  lemma StoreByteKeeps(r: Ring, lock: LockPc, at: nat, b: byte)
    requires Sound(r, lock)
    requires EndAt(r.sent, |r.sent|) <= at < PayloadHead(r) + r.pcap
    ensures Sound(StoreByte(r, Offset(at, r.pcap), b), lock)
  {
    hide Offset, PowerOfTwo, DescsHold, FlagsHold, SlicesHold, EndAt, HasBody, Capacities;
    forall j | r.headIdx <= j < |r.sent|
      ensures HasBody(r.pcap, r.payload[Offset(at, r.pcap) := b], r.sent[j])
    {
      StoreMissesBody(r, lock, at, b, j);
    }
  }

  /** Where the next byte of a copy goes. */
  lemma CopyTarget(r: Ring, body: Bytes, res: Reservation, start: nat, i: nat)
    requires r.reclaimedIdx <= |r.sent| && r.pcap > 0 && Reserved(r, body, res, start) && i < |body|
    ensures res.offset == Offset(start, r.pcap) && res.offset + |body| <= r.pcap
    ensures Offset(start + i, r.pcap) == res.offset + i
    ensures EndAt(r.sent, |r.sent|) <= start + i < PayloadHead(r) + r.pcap
    ensures InOnePiece(r.pcap, Sent(start, body))
  {
    hide Offset, EndAt;
    OffsetAdd(start, i, r.pcap);
  }

  /** A store changes nothing about the open reservation. */
  lemma StoreKeepsReserved(r: Ring, at: nat, b: byte, body: Bytes, res: Reservation)
    requires Usable(r) && at < r.pcap && r.reclaimedIdx <= |r.sent|
    ensures var r' := StoreByte(r, at, b);
            && StartOf(r', body, res) == StartOf(r, body, res)
            && (Reserved(r, body, res, StartOf(r, body, res)) ==> Reserved(r', body, res, StartOf(r, body, res)))
            && (RoomForOne(r) ==> RoomForOne(r'))
  {
    hide Offset, EndAt, InOnePiece, DescOf;
  }

  lemma CopyKeeps(s: State, body: Bytes, res: Reservation, i: nat)
    requires Inv(s) && s.pc == Copy(body, res, i)
    ensures Inv(CopyStep(s, body, res, i))
  {
    hide Offset, PowerOfTwo, Sound, EndAt, Cursors, Attended, HasBody, Reserved, StartOf, RoomForOne,
         InOnePiece, PayloadHead;
    var r := s.ring;
    var start := StartOf(r, body, res);
    CopyTarget(r, body, res, start, i);
    StoreKeepsReserved(r, res.offset + i, body[i], body, res);
    StoreByteKeeps(r, s.lock, start + i, body[i]);
    var r' := StoreByte(r, res.offset + i, body[i]);
    assert Attended(r', s.lock, s.waiters) by { AttendedFrame(r, r', s.lock, s.waiters); }
    CopyExtends(r.payload, res.offset, body, i);
    if i + 1 == |body| {
      assert body[..|body|] == body;
      assert HasBody(r.pcap, r'.payload, Sent(start, body)) by { BodyInPlace(r.pcap, r'.payload, Sent(start, body)); }
    }
  }

  lemma CopyExtends(payload: Bytes, offset: nat, body: Bytes, i: nat)
    requires i < |body| && offset + |body| <= |payload| && payload[offset..offset + i] == body[..i]
    ensures payload[offset + i := body[i]][offset..offset + i + 1] == body[..i + 1]
  {
    var payload' := payload[offset + i := body[i]];
    assert payload'[offset..offset + i + 1] == payload[offset..offset + i] + [body[i]];
    assert body[..i + 1] == body[..i] + [body[i]];
  }

  lemma BodyInPlace(pcap: nat, payload: Bytes, x: Sent)
    requires pcap > 0 && |payload| == pcap && InOnePiece(pcap, x) && x.body != []
    requires payload[Offset(x.start, pcap)..Offset(x.start, pcap) + |x.body|] == x.body
    ensures HasBody(pcap, payload, x)
  {
  }

  lemma AttendedFrame(r: Ring, r': Ring, lock: LockPc, waiters: nat)
    requires Usable(r) && Usable(r') && r'.done == r.done && r'.head == r.head && r'.dcap == r.dcap
    requires Attended(r, lock, waiters)
    ensures Attended(r', lock, waiters)
  {
  }

  lemma FinishSendKeepsDescs(dcap: nat, pcap: nat, descs: seq<Desc>, sent: seq<Sent>, x: Sent)
    requires dcap > 0 && pcap > 0 && |descs| == dcap && DescsHold(dcap, pcap, descs, sent)
    ensures DescsHold(dcap, pcap, descs[Offset(|sent|, dcap) := DescOf(pcap, x)], sent + [x])
  {
    hide Offset, DescOf;
    var descs' := descs[Offset(|sent|, dcap) := DescOf(pcap, x)];
    var sent' := sent + [x];
    forall i: nat {:trigger sent'[i]} | i < |sent'| <= i + dcap
      ensures descs'[Offset(i, dcap)] == DescOf(pcap, sent'[i])
    {
      if i < |sent| {
        assert sent'[i] == sent[i];
        DistinctSlots(i, |sent|, dcap);
      }
    }
  }

  lemma AppendKeepsBodies(pcap: nat, payload: Bytes, sent: seq<Sent>, headIdx: nat, x: Sent)
    requires pcap > 0 && |payload| == pcap && Placement(pcap, sent) && BodiesHold(pcap, payload, sent, headIdx)
    requires InOnePiece(pcap, x) && HasBody(pcap, payload, x) && EndAt(sent, |sent|) <= x.start
    ensures Placement(pcap, sent + [x]) && BodiesHold(pcap, payload, sent + [x], headIdx)
  {
    hide HasBody, InOnePiece;
    var sent' := sent + [x];
    forall i | 0 <= i < |sent'| ensures InOnePiece(pcap, sent'[i]) {
      if i < |sent| { assert sent'[i] == sent[i]; }
    }
    forall i {:trigger EndAt(sent', i)} | 0 <= i < |sent'| ensures EndAt(sent', i) <= sent'[i].start {
      EndAppend(sent, x, i);
      if i < |sent| { assert EndAt(sent, i) <= sent[i].start; }
    }
    forall i | headIdx <= i < |sent'| ensures HasBody(pcap, payload, sent'[i]) {
      if i < |sent| { assert sent'[i] == sent[i]; }
    }
  }

  lemma FinishSendKeeps(r: Ring, lock: LockPc, body: Bytes, res: Reservation, start: nat)
    requires Sound(r, lock) && RoomForOne(r) && Reserved(r, body, res, start)
    requires HasBody(r.pcap, r.payload, Sent(start, body))
    ensures Sound(FinishSend(r, body, res, start), lock) && Settled(FinishSend(r, body, res, start))
  {
    hide Offset, PowerOfTwo, DescsHold, BodiesHold, FlagsHold, Placement, EndAt, HasBody, DescOf, Capacities;
    var x := Sent(start, body);
    SlotOf(r, |r.sent|);
    FinishSendKeepsDescs(r.dcap, r.pcap, r.descs, r.sent, x);
    AppendKeepsBodies(r.pcap, r.payload, r.sent, r.headIdx, x);
    EndAppend(r.sent, x, r.reclaimedIdx);
    WrappedSum(|r.sent|, 1);
    AppendKeepsSlices(r.pcap, r.sent, r.held, x);
  }

  lemma AppendKeepsSlices(pcap: nat, sent: seq<Sent>, held: map<nat, Slice>, x: Sent)
    requires pcap > 0 && SlicesHold(pcap, sent, held)
    ensures SlicesHold(pcap, sent + [x], held)
  {
    forall k | k in held
      ensures k < |sent + [x]|
      ensures held[k] == Slice(k % TWO_64, DescOf(pcap, (sent + [x])[k]).payload, |(sent + [x])[k].body|)
    {
      assert (sent + [x])[k] == sent[k];
    }
  }

  // ---- The native side ----

  lemma TakeKeeps(r: Ring, lock: LockPc)
    requires Sound(r, lock) && r.next != r.cachedTail
    ensures Sound(Take(r), lock)
    ensures r.nextIdx < r.cachedTailIdx
  {
    hide Offset, PowerOfTwo, BodiesHold, Placement, EndAt, DescOf, Capacities;
    CompareCursors(r, r.nextIdx, r.cachedTailIdx);
    SlotOf(r, r.nextIdx);
    WrappedSum(r.nextIdx, 1);
    assert r.descs[Offset(r.nextIdx, r.dcap)] == DescOf(r.pcap, r.sent[r.nextIdx]);
    DescLen(r.pcap, r.sent[r.nextIdx]);
    assert Take(r).held.Keys == r.held.Keys + {r.nextIdx};
  }

  lemma DescLen(pcap: nat, x: Sent)
    requires pcap > 0
    ensures DescOf(pcap, x).payloadLen == |x.body|
  {
  }

  lemma DropFlags(dcap: nat, done: seq<bool>, held: set<nat>, oldest: nat, nextIdx: nat, k: nat)
    requires dcap > 0 && |done| == dcap && FlagsHold(dcap, done, held, oldest, nextIdx)
    requires k in held && nextIdx <= oldest + dcap
    ensures FlagsHold(dcap, done[Offset(k, dcap) := true], held - {k}, oldest, nextIdx)
  {
    hide Offset;
    var done' := done[Offset(k, dcap) := true];
    forall j: nat {:trigger Offset(j, dcap)} | oldest <= j < oldest + dcap
      ensures done'[Offset(j, dcap)] <==> j < nextIdx && j !in held - {k}
    {
      if j < k {
        DistinctSlots(j, k, dcap);
      } else if k < j {
        DistinctSlots(k, j, dcap);
      }
    }
  }

  lemma DropKeeps(r: Ring, lock: LockPc, k: nat)
    requires Sound(r, lock) && k in r.held
    ensures Sound(Drop(r, k), lock)
  {
    hide Offset, PowerOfTwo, BodiesHold, Placement, EndAt, DescOf, DescsHold, FlagsHold, Capacities;
    SlotOf(r, k);
    DropFlags(r.dcap, r.done, r.held.Keys, Oldest(r.headIdx, lock), r.nextIdx, k);
    assert Drop(r, k).held.Keys == r.held.Keys - {k};
  }

  lemma ClearFlags(dcap: nat, done: seq<bool>, held: set<nat>, h: nat, nextIdx: nat)
    requires dcap > 0 && |done| == dcap && FlagsHold(dcap, done, held, h, nextIdx)
    requires done[Offset(h, dcap)] && nextIdx <= h + dcap
    ensures h < nextIdx && h !in held
    ensures FlagsHold(dcap, done[Offset(h, dcap) := false], held, h + 1, nextIdx)
  {
    hide Offset;
    var done' := done[Offset(h, dcap) := false];
    forall j: nat {:trigger Offset(j, dcap)} | h + 1 <= j < h + 1 + dcap
      ensures done'[Offset(j, dcap)] <==> j < nextIdx && j !in held
    {
      if j < h + dcap {
        DistinctSlots(h, j, dcap);
      } else {
        OneLap(h, dcap);
      }
    }
  }

  lemma OneLap(h: nat, dcap: nat)
    requires dcap > 0
    ensures Offset(h + dcap, dcap) == Offset(h, dcap)
  {
  }

  lemma ClearKeeps(r: Ring)
    requires Sound(r, Scanning) && r.done[Offset(r.head, r.dcap)]
    ensures Sound(ClearFlag(r), Advancing)
  {
    hide Offset, PowerOfTwo, BodiesHold, Placement, EndAt, DescOf, DescsHold, FlagsHold, SlicesHold, Capacities;
    SlotOf(r, r.headIdx);
    ClearFlags(r.dcap, r.done, r.held.Keys, r.headIdx, r.nextIdx);
  }

  lemma AdvanceKeeps(r: Ring)
    requires Sound(r, Advancing)
    ensures Sound(AdvanceHead(r), Scanning)
  {
    hide Offset, PowerOfTwo, Placement, EndAt, DescOf, DescsHold, SlicesHold, HasBody, Capacities;
    WrappedSum(r.headIdx, 1);
  }

  // ---- Framing the Go side ----

  /** What the Go side relies on survives every step of the native side. */
  lemma ProducingFrame(r: Ring, r': Ring, pc: GoPc)
    requires Cursors(r) && Cursors(r') && Producing(r, pc)
    requires r'.p == r.p && r'.sent == r.sent && r'.payload == r.payload
    requires r'.dcap == r.dcap && r'.pcap == r.pcap
    requires r'.reclaimedIdx == r.reclaimedIdx && r'.cachedHeadIdx == r.cachedHeadIdx
    requires r.headIdx <= r'.headIdx
    ensures Producing(r', pc)
  {
    hide Cursors, EndAt, Offset, HasBody, InOnePiece, DescOf;
  }

  // ---- Every step ----

  lemma AfterReserveKeeps(s: State, body: Bytes, retried: bool)
    requires Sound(s.ring, s.lock) && Settled(s.ring) && RoomForOne(s.ring) && |body| < s.ring.pcap
    requires Attended(s.ring, s.lock, s.waiters)
    ensures Inv(AfterReserve(s, body, retried))
  {
    hide Sound, Cursors, EndAt, Offset, ReservePayload;
    ReserveKeeps(s.ring, s.lock, body);
  }

  lemma GoKeeps(s: State)
    requires Inv(s) && GoEnabled(s)
    ensures Inv(GoStep(s))
  {
    hide Sound, EndAt, Offset, DescOf, ReservePayload, AfterReserve, CopyStep, FinishSend, ReclaimConsumed, StartOf,
         HasBody, Capacities;
    var r := s.ring;
    match s.pc {
      case CheckClosed(_) => CompareCursors(r, r.cachedHeadIdx, |r.sent|);
      case LoadHeadWhenFull(_) =>
        ReloadKeeps(r, s.lock);
      case Reserve(body) => AfterReserveKeeps(s, body, false);
      case ReclaimForSend(body) =>
        ReclaimKeeps(r, s.lock);
        ReclaimFields(r);
        AfterReserveKeeps(s.(ring := ReclaimConsumed(r)), body, true);
      case Copy(body, res, i) => CopyKeeps(s, body, res, i);
      case WriteDesc(body, res) =>
        FinishSendKeeps(r, s.lock, body, res, StartOf(r, body, res));
        FinishSendFields(r, body, res, StartOf(r, body, res));
      case StoreTail => PublishKeeps(r, s.lock);
      case DrainLoad(_) => CompareCursors(r, r.headIdx, |r.sent|);
      case ReclaimAfterDrain(_) =>
        ReclaimKeeps(r, s.lock);
        ReclaimFields(r);
      case _ =>
    }
  }

  lemma ReloadKeeps(r: Ring, lock: LockPc)
    requires Sound(r, lock)
    ensures Sound(ReloadCachedHead(r), lock)
    ensures LooksFull(ReloadCachedHead(r).p, r.dcap) <==> |r.sent| == r.headIdx + r.dcap
  {
    hide Offset, PowerOfTwo, Placement, EndAt, DescOf, DescsHold, SlicesHold, BodiesHold, FlagsHold, Capacities;
    CompareCursors(r, r.headIdx, |r.sent|);
  }

  lemma PublishKeeps(r: Ring, lock: LockPc)
    requires Sound(r, lock)
    ensures Sound(Publish(r), lock)
  {
    hide Offset, PowerOfTwo, Placement, EndAt, DescOf, DescsHold, SlicesHold, BodiesHold, FlagsHold, Capacities;
  }

  lemma ReloadTailKeeps(r: Ring, lock: LockPc)
    requires Sound(r, lock)
    ensures Sound(ReloadCachedTail(r), lock)
  {
    hide Offset, PowerOfTwo, Placement, EndAt, DescOf, DescsHold, SlicesHold, BodiesHold, FlagsHold, Capacities;
  }

  lemma ReclaimFields(r: Ring)
    requires Usable(r)
    ensures ReclaimConsumed(r).done == r.done && ReclaimConsumed(r).head == r.head
    ensures ReclaimConsumed(r).dcap == r.dcap && ReclaimConsumed(r).pcap == r.pcap
  {
  }

  lemma FinishSendFields(r: Ring, body: Bytes, res: Reservation, start: nat)
    requires Usable(r)
    ensures var r' := FinishSend(r, body, res, start); r'.done == r.done && r'.head == r.head && r'.dcap == r.dcap
  {
  }

  lemma NativeKeeps(s: State, step: Step)
    requires Inv(s) && Enabled(s, step) && (step.WorkerLoadTail? || step.WorkerTake? || step.DropMessage?)
    ensures Inv(Apply(s, step))
  {
    hide Sound, Offset, Cursors, Producing, PowerOfTwo;
    var r := s.ring;
    match step {
      case WorkerLoadTail =>
        ReloadTailKeeps(r, s.lock);
        ProducingFrame(r, ReloadCachedTail(r), s.pc);
      case WorkerTake =>
        TakeKeeps(r, s.lock);
        ProducingFrame(r, Take(r), s.pc);
      case DropMessage(k) =>
        DropKeeps(r, s.lock, k);
        ProducingFrame(r, Drop(r, k), s.pc);
    }
  }

  lemma LockKeeps(s: State, step: Step)
    requires Inv(s) && Enabled(s, step) && (step.Acquire? || step.Scan? || step.Advance?)
    ensures Inv(Apply(s, step))
  {
    hide Sound, Offset, Cursors, Producing, PowerOfTwo;
    var r := s.ring;
    match step {
      case Acquire => ScanningSame(r);
      case Scan =>
        if r.done[Offset(r.head, r.dcap)] {
          ClearKeeps(r);
          ProducingFrame(r, ClearFlag(r), s.pc);
        } else {
          ScanningSame(r);
        }
      case Advance =>
        AdvanceKeeps(r);
        ProducingFrame(r, AdvanceHead(r), s.pc);
    }
  }

  /** Holding the lock without having cleared a flag changes nothing. */
  lemma ScanningSame(r: Ring)
    ensures Sound(r, Unlocked) == Sound(r, Scanning)
  {
    hide Offset, PowerOfTwo, Placement, EndAt, DescOf, DescsHold, SlicesHold, BodiesHold, FlagsHold, Cursors;
  }

  lemma StepKeepsInv(s: State, step: Step)
    requires Inv(s) && Enabled(s, step)
    ensures Inv(Apply(s, step))
  {
    hide Sound, GoStep, Cursors;
    match step {
      case Go => GoKeeps(s);
      case WorkerLoadTail => NativeKeeps(s, step);
      case WorkerTake => NativeKeeps(s, step);
      case DropMessage(_) => NativeKeeps(s, step);
      case Acquire => LockKeeps(s, step);
      case Scan => LockKeeps(s, step);
      case Advance => LockKeeps(s, step);
      case _ =>
    }
  }

  lemma InitInv(dcap: nat, pcap: nat)
    requires Capacities(dcap, pcap)
    ensures Inv(Init(dcap, pcap))
  {
    CapacityDivides(dcap);
    CapacityDivides(pcap);
  }

  lemma {:induction false} RunKeepsInv(dcap: nat, pcap: nat, states: seq<State>, steps: seq<Step>, i: nat)
    requires Capacities(dcap, pcap) && IsRun(dcap, pcap, states, steps) && i < |states|
    ensures Inv(states[i])
  {
    hide Inv, Apply;
    if i == 0 {
      InitInv(dcap, pcap);
    } else {
      RunKeepsInv(dcap, pcap, states, steps, i - 1);
      assert Next(states[i - 1], steps[i - 1], states[i]);
      StepKeepsInv(states[i - 1], steps[i - 1]);
    }
  }
}
