/** What the Go send ring guarantees in every state of every interleaving. */
module SendRingTheorems {
  import opened Words
  import opened Options
  import opened SendRing
  import opened SendRingInvariant

  // ---- Bodies are borrowed intact and in order ----

  /** A message alive is a window on exactly the body it was made from, however the Go side
      reuses the ring and in whatever order messages are dropped. */
  lemma SliceShowsBody(r: Ring, lock: LockPc, k: nat)
    requires Sound(r, lock) && k in r.held
    ensures r.headIdx <= k < r.nextIdx <= r.published <= |r.sent|
    ensures r.held[k].cursor == k % TWO_64
    ensures r.held[k].offset + r.held[k].len <= r.pcap
    ensures r.payload[r.held[k].offset..r.held[k].offset + r.held[k].len] == r.sent[k].body
  {
    hide Offset, PowerOfTwo, DescsHold, EndAt, Capacities;
    var x := r.sent[k];
    assert HasBody(r.pcap, r.payload, x);
  }

  lemma BorrowedBytesIntact(dcap: nat, pcap: nat, states: seq<State>, steps: seq<Step>, i: nat, k: nat)
    requires Capacities(dcap, pcap) && IsRun(dcap, pcap, states, steps) && i < |states|
    requires k in states[i].ring.held
    ensures var r := states[i].ring; var m := r.held[k];
            && k < r.nextIdx <= r.published <= |r.sent|
            && m.offset + m.len <= |r.payload|
            && r.payload[m.offset..m.offset + m.len] == r.sent[k].body
  {
    RunKeepsInv(dcap, pcap, states, steps, i);
    SliceShowsBody(states[i].ring, states[i].lock, k);
  }

  /** Messages are made one per send, in the order of the sends. */
  lemma TakenInSendOrder(s: State)
    requires Inv(s) && Enabled(s, WorkerTake)
    ensures var r, r' := s.ring, Apply(s, WorkerTake).ring;
            && r'.nextIdx == r.nextIdx + 1 <= r.published
            && r'.held.Keys == r.held.Keys + {r.nextIdx}
            && r.nextIdx !in r.held
            && r'.held[r.nextIdx].len == |r.sent[r.nextIdx].body|
            && r'.sent == r.sent
  {
    hide Offset, PowerOfTwo, DescsHold, BodiesHold, Placement, EndAt, Capacities;
    TakeKeeps(s.ring, s.lock);
    assert Take(s.ring).held.Keys == s.ring.held.Keys + {s.ring.nextIdx};
  }

  /** A worker that has run out and looks again finds exactly what has been published since. */
  lemma WorkerSeesPublished(s: State)
    requires Inv(s) && Enabled(s, WorkerLoadTail)
    ensures Enabled(Apply(s, WorkerLoadTail), WorkerTake) <==> s.ring.nextIdx < s.ring.published
  {
    hide Offset, PowerOfTwo, DescsHold, BodiesHold, FlagsHold, SlicesHold, Placement, EndAt, Capacities, Producing;
    CompareCursors(s.ring, s.ring.nextIdx, s.ring.published);
  }

  /** The history of sends only grows, so `sent[k]` names one body for the whole run. */
  lemma {:induction false} SendsOnlyGrow(dcap: nat, pcap: nat, states: seq<State>, steps: seq<Step>, i: nat, j: nat)
    requires IsRun(dcap, pcap, states, steps) && i <= j < |states|
    ensures states[i].ring.sent <= states[j].ring.sent
    decreases j
  {
    hide Offset, ReservePayload, ReclaimLoop, LooksFull, StartOf;
    if i < j {
      SendsOnlyGrow(dcap, pcap, states, steps, i, j - 1);
      assert Next(states[j - 1], steps[j - 1], states[j]);
    }
  }

  // ---- Space in the payload ring ----

  /** Whether or not a reservation is open, the accepted bodies span at most the ring. */
  lemma SentSpan(s: State)
    requires Inv(s)
    ensures EndAt(s.ring.sent, |s.ring.sent|) <= PayloadHead(s.ring) + s.ring.pcap
  {
    hide Offset, PowerOfTwo, Sound, EndAt, Attended, PayloadHead, InOnePiece, DescOf, HasBody, StartOf;
  }

  lemma RangesDisjoint(s: State, i: nat, j: nat, a: nat, b: nat)
    requires Inv(s) && s.ring.headIdx <= i < j < |s.ring.sent|
    requires a < |s.ring.sent[i].body| && b < |s.ring.sent[j].body|
    ensures Offset(s.ring.sent[i].start, s.ring.pcap) + a != Offset(s.ring.sent[j].start, s.ring.pcap) + b
  {
    hide Offset, PowerOfTwo, DescsHold, BodiesHold, FlagsHold, SlicesHold, EndAt, Capacities, Producing, Attended;
    SentSpan(s);
    var r := s.ring;
    var x, y := r.sent[i], r.sent[j];
    EndMonotone(r.pcap, r.sent, r.reclaimedIdx, i);
    EndMonotone(r.pcap, r.sent, i + 1, j);
    EndMonotone(r.pcap, r.sent, j + 1, |r.sent|);
    EndOf(r.sent, i);
    EndOf(r.sent, j);
    assert EndAt(r.sent, i) <= x.start;
    assert EndAt(r.sent, j) <= y.start;
    assert InOnePiece(r.pcap, x) && InOnePiece(r.pcap, y);
    OffsetAdd(x.start, a, r.pcap);
    OffsetAdd(y.start, b, r.pcap);
    DistinctSlots(x.start + a, y.start + b, r.pcap);
  }

  /** In every state of every run, the payload ranges of two sends not yet released never
      share a byte. */
  lemma PendingBodiesDisjoint(dcap: nat, pcap: nat, states: seq<State>, steps: seq<Step>, t: nat,
                              i: nat, j: nat, a: nat, b: nat)
    requires Capacities(dcap, pcap) && IsRun(dcap, pcap, states, steps) && t < |states|
    requires states[t].ring.headIdx <= i < j < |states[t].ring.sent|
    requires a < |states[t].ring.sent[i].body| && b < |states[t].ring.sent[j].body|
    ensures var r := states[t].ring;
            r.pcap > 0 && Offset(r.sent[i].start, r.pcap) + a != Offset(r.sent[j].start, r.pcap) + b
  {
    RunKeepsInv(dcap, pcap, states, steps, t);
    RangesDisjoint(states[t], i, j, a, b);
  }

  /** The byte the Go side is about to write, if any. */
  function StoreTarget(s: State): int {
    if s.pc.Copy? then s.pc.res.offset + s.pc.i else -1
  }

  /** No store lands in a body that is pending or borrowed. */
  lemma StoresMissPending(s: State, k: nat, a: nat)
    requires Inv(s) && s.ring.headIdx <= k < |s.ring.sent| && a < |s.ring.sent[k].body|
    ensures StoreTarget(s) != Offset(s.ring.sent[k].start, s.ring.pcap) + a
    ensures StoreTarget(s) < s.ring.pcap
  {
    hide Offset, PowerOfTwo, DescsHold, BodiesHold, FlagsHold, SlicesHold, EndAt, Capacities, Attended;
    var r := s.ring;
    var x := r.sent[k];
    assert InOnePiece(r.pcap, x);
    OffsetAdd(x.start, a, r.pcap);
    if s.pc.Copy? {
      var start := StartOf(r, s.pc.body, s.pc.res);
      CopyTarget(r, s.pc.body, s.pc.res, start, s.pc.i);
      EndMonotone(r.pcap, r.sent, r.reclaimedIdx, k);
      EndMonotone(r.pcap, r.sent, k + 1, |r.sent|);
      EndOf(r.sent, k);
      assert EndAt(r.sent, k) <= x.start;
      DistinctSlots(x.start + a, start + s.pc.i, r.pcap);
    }
  }

  /** After every reclaim the payload head stands at the end of the last consumed body, even
      where the descriptors in between were already overwritten. */
  lemma ReclaimIsExact(s: State)
    requires Inv(s) && (s.pc.ReclaimForSend? || s.pc.ReclaimAfterDrain?)
    requires s.ring.headIdx - s.ring.reclaimedIdx < TWO_64
    ensures ReclaimConsumed(s.ring).p.payloadHead == EndAt(s.ring.sent, s.ring.headIdx) % TWO_64
    ensures GoStep(s).ring.p.payloadHead == EndAt(s.ring.sent, s.ring.headIdx) % TWO_64
  {
    var r := s.ring;
    assert |r.sent| < r.headIdx + r.dcap;
    ReclaimedHead(r, s.lock);
    hide Offset, PowerOfTwo, EndAt, ReclaimLoop, Sound, Cursors;
  }

  /** A descriptor the loop visits has been overwritten exactly when a later send went around
      the ring, and then it shows the end of a later body. */
  lemma StaleDescriptor(r: Ring, lock: LockPc, i: nat)
    requires Sound(r, lock) && i < |r.sent| && i + r.dcap < |r.sent| <= i + 2 * r.dcap
    ensures r.descs[Offset(i, r.dcap)] == DescOf(r.pcap, r.sent[i + r.dcap])
  {
    hide PowerOfTwo, BodiesHold, FlagsHold, SlicesHold, EndAt, Capacities, DescOf, Placement;
    OneLap(i, r.dcap);
    assert r.descs[Offset(i + r.dcap, r.dcap)] == DescOf(r.pcap, r.sent[i + r.dcap]);
  }

  /** An empty reclaimed payload ring takes every body of at most half its capacity,
      wherever its cursors stand ... */
  lemma HalfCapacitySuffices(p: GoSide, pcap: nat, pt: nat, length: nat)
    requires IsCapacity(pcap) && 3 * pcap < TWO_64 && length <= pcap / 2
    requires p.payloadTail == p.payloadHead == pt % TWO_64
    ensures ReservePayload(p, pcap, length).Some?
  {
    if length > 0 {
      EmptyReserve(p, pcap, pt, length);
    }
  }

  /** ... and refuses every longer body at some position. */
  lemma MoreThanHalfRefusedSomewhere(pcap: nat, length: nat) returns (p: GoSide)
    requires IsCapacity(pcap) && 3 * pcap < TWO_64 && pcap / 2 < length < pcap
    ensures p.payloadTail == p.payloadHead < TWO_64
    ensures ReservePayload(p, pcap, length).None?
  {
    var pt := pcap - length + 1;
    p := GoSide(0, 0, 0, pt, pt);
    SmallMod(pt, TWO_64);
    EmptyReserve(p, pcap, pt, length);
    assert Offset(pt, pcap) == pt;
  }

  lemma EmptyReserve(p: GoSide, pcap: nat, pt: nat, length: nat)
    requires IsCapacity(pcap) && 3 * pcap < TWO_64 && 0 < length < pcap
    requires p.payloadTail == p.payloadHead == pt % TWO_64
    ensures pcap > 0
    ensures var off := Offset(pt, pcap);
            ReservePayload(p, pcap, length).None? <==> off + length > pcap && (pcap - off) + length > pcap
  {
    hide Offset, PowerOfTwo;
    CursorOffset(pt, pcap);
    var off := Offset(pt, pcap);
    var pad := if off + length > pcap then pcap - off else 0;
    WrappedSum(pt, pad);
    WrappedSum(pt + pad, length);
    WrappedDifference(pt + pad + length, pt);
  }

  // ---- Slots ----

  /** A slot is given back only after its message and all older ones were dropped, and none
      is forgotten: when no thread is inside `release_slot`, the head stands at a message
      still alive or at the first send not taken yet. */
  lemma SlotsFreedInOrder(dcap: nat, pcap: nat, states: seq<State>, steps: seq<Step>, i: nat)
    requires Capacities(dcap, pcap) && IsRun(dcap, pcap, states, steps) && i < |states|
    ensures var s := states[i]; var r := s.ring;
            && (forall k :: k in r.held ==> r.headIdx <= k)
            && (s.lock.Unlocked? && s.waiters == 0 ==> r.headIdx == r.nextIdx || r.headIdx in r.held)
  {
    RunKeepsInv(dcap, pcap, states, steps, i);
    NoForgottenSlot(states[i]);
  }

  lemma NoForgottenSlot(s: State)
    requires Inv(s)
    ensures forall k :: k in s.ring.held ==> s.ring.headIdx <= k
    ensures s.lock.Unlocked? && s.waiters == 0 ==>
              s.ring.headIdx == s.ring.nextIdx || s.ring.headIdx in s.ring.held
  {
    hide Offset, PowerOfTwo, DescsHold, BodiesHold, SlicesHold, EndAt, Capacities, Placement, Producing;
    var r := s.ring;
    SlotOf(r, r.headIdx);
  }

  /** A send is refused for lack of a descriptor exactly when the head just loaded is a full
      ring behind. */
  lemma FullExactly(s: State)
    requires Inv(s) && s.pc.LoadHeadWhenFull?
    ensures GoStep(s).pc == Ready(Again) <==> |s.ring.sent| == s.ring.headIdx + s.ring.dcap
  {
    hide Sound, LooksFull, Producing;
    ReloadKeeps(s.ring, s.lock);
  }
}
