/** Runs in which reclamation visits a descriptor that was overwritten since, for every pair of
    ring sizes, so the condition in `StaleDescriptor` can be met on all of them. */
module SendRingReclaim {
  import opened Words
  import opened Options
  import opened SendRing

  ghost predicate Reachable(dcap: nat, pcap: nat, s: State) {
    exists states: seq<State>, steps: seq<Step> :: IsRun(dcap, pcap, states, steps) && states[|steps|] == s
  }

  lemma ReachInit(dcap: nat, pcap: nat)
    ensures Reachable(dcap, pcap, Init(dcap, pcap))
  {
    assert IsRun(dcap, pcap, [Init(dcap, pcap)], []);
  }

  lemma Reach(dcap: nat, pcap: nat, s: State, step: Step) returns (t: State)
    requires Reachable(dcap, pcap, s) && Usable(s.ring) && Enabled(s, step)
    ensures t == Apply(s, step) && Reachable(dcap, pcap, t)
  {
    hide Apply, Enabled, Init;
    t := Apply(s, step);
    var states: seq<State>, steps: seq<Step> :| IsRun(dcap, pcap, states, steps) && states[|steps|] == s;
    var states', steps' := states + [t], steps + [step];
    forall i | 0 <= i < |steps'| ensures Next(states'[i], steps'[i], states'[i + 1]) {
      if i < |steps| {
        assert Next(states[i], steps[i], states[i + 1]);
      }
    }
    assert IsRun(dcap, pcap, states', steps');
  }

  predicate NoneDone(done: seq<bool>) {
    forall i :: 0 <= i < |done| ==> !done[i]
  }

  /** After `n` sends of `bytes` bytes in all, of which `taken` have been taken and released.
      Nothing has been reclaimed. */
  predicate After(r: Ring, n: nat, taken: nat, bytes: nat) {
    && Usable(r) && r.pcap >= 2 && n <= r.dcap + 1 < TWO_64
    && r.tail == r.p.tail == r.published == |r.sent| == n
    && r.p.payloadTail == EndAt(r.sent, n) == bytes
    && r.head == r.headIdx == r.next == r.nextIdx == r.cachedTail == taken
    && r.p.cachedHead <= taken && r.p.reclaimedHead == r.p.payloadHead == r.reclaimedIdx == 0
    && r.held == map[] && NoneDone(r.done)
  }

  predicate Resting(s: State) {
    s.pc.Ready? && !s.closed && s.lock == Unlocked && s.waiters == 0
  }

  lemma Unwrapped(a: nat, b: nat)
    requires b <= a && a + 1 < TWO_64
    ensures WrappingAdd(a, 1) == a + 1 && WrappingSub(a, b) == a - b
  {
  }

  /** The Go side finds room for a body of at most one byte. */
  lemma FindRoom(dcap: nat, pcap: nat, s: State, n: nat, body: Bytes) returns (t: State)
    requires Reachable(dcap, pcap, s) && After(s.ring, n, n, 0) && Resting(s) && n <= s.ring.dcap && |body| <= 1
    ensures Reachable(dcap, pcap, t) && t == s.(ring := t.ring, pc := Reserve(body)) && After(t.ring, n, n, 0)
    ensures t.ring == s.ring.(p := t.ring.p, cachedHeadIdx := t.ring.cachedHeadIdx)
  {
    hide Reachable, WrappingSub, EndAt;
    Unwrapped(n, s.ring.p.cachedHead);
    Unwrapped(n, n);
    var s1 := Reach(dcap, pcap, s, CallTrySend(body));
    t := Reach(dcap, pcap, s1, Go);
    if t.pc.LoadHeadWhenFull? {
      t := Reach(dcap, pcap, t, Go);
    }
  }

  lemma PutBody(dcap: nat, pcap: nat, s: State, n: nat, body: Bytes) returns (t: State)
    requires Reachable(dcap, pcap, s) && After(s.ring, n, n, 0) && s.pc == Reserve(body) && |body| <= 1
    ensures Reachable(dcap, pcap, t) && t == s.(ring := t.ring, pc := WriteDesc(body, Reservation(0, |body|)))
    ensures t.ring == s.ring.(p := s.ring.p.(payloadTail := |body|), payload := t.ring.payload)
    ensures |t.ring.payload| == t.ring.pcap
  {
    hide Reachable, EndAt;
    assert Offset(0, s.ring.pcap) == 0;
    t := Reach(dcap, pcap, s, Go);
    if body != [] {
      t := Reach(dcap, pcap, t, Go);
    }
  }

  /** The Go side sends a body of at most one byte. */
  lemma SendBody(dcap: nat, pcap: nat, s: State, n: nat, body: Bytes) returns (t: State)
    requires Reachable(dcap, pcap, s) && After(s.ring, n, n, 0) && Resting(s) && n <= s.ring.dcap && |body| <= 1
    ensures Reachable(dcap, pcap, t) && Resting(t) && After(t.ring, n + 1, n, |body|)
    ensures t.ring.dcap == s.ring.dcap && t.ring.sent == s.ring.sent + [Sent(0, body)]
    ensures t.ring.descs == s.ring.descs[Offset(n, s.ring.dcap) := Desc(0, |body|, |body|)]
  {
    hide Reachable, Offset, ReservePayload;
    var s1 := FindRoom(dcap, pcap, s, n, body);
    var s2 := PutBody(dcap, pcap, s1, n, body);
    assert StartOf(s2.ring, body, s2.pc.res) == 0;
    Unwrapped(n, n);
    var s3 := Reach(dcap, pcap, s2, Go);
    t := Reach(dcap, pcap, s3, Go);
  }

  /** The worker takes the message. */
  lemma TakeBody(dcap: nat, pcap: nat, s: State, n: nat, bytes: nat) returns (t: State)
    requires Reachable(dcap, pcap, s) && After(s.ring, n + 1, n, bytes) && Resting(s)
    ensures Reachable(dcap, pcap, t) && t == s.(ring := t.ring)
    ensures n in t.ring.held && t.ring.held.Keys == {n} && t.ring.held[n].cursor == n
    ensures t.ring == s.ring.(held := t.ring.held, next := n + 1, nextIdx := n + 1,
                              cachedTail := n + 1, cachedTailIdx := n + 1)
  {
    hide Reachable, Offset, EndAt;
    Unwrapped(n, n);
    var s1 := Reach(dcap, pcap, s, WorkerLoadTail);
    t := Reach(dcap, pcap, s1, WorkerTake);
  }

  /** The message is taken and dropped, and its slot released. */
  lemma ReleaseBody(dcap: nat, pcap: nat, s: State, n: nat, bytes: nat) returns (t: State)
    requires Reachable(dcap, pcap, s) && After(s.ring, n + 1, n, bytes) && Resting(s)
    ensures Reachable(dcap, pcap, t) && Resting(t) && After(t.ring, n + 1, n + 1, bytes)
    ensures t.ring.descs == s.ring.descs && t.ring.sent == s.ring.sent && t.ring.dcap == s.ring.dcap
  {
    hide Reachable, Offset, EndAt;
    Unwrapped(n, n);
    var s1 := TakeBody(dcap, pcap, s, n, bytes);
    var s2 := Reach(dcap, pcap, s1, DropMessage(n));
    assert s2.ring.held == map[];
    var s3 := Reach(dcap, pcap, s2, Acquire);
    var s4 := Reach(dcap, pcap, s3, Scan);
    assert s4.ring.done == s.ring.done;
    var s5 := Reach(dcap, pcap, s4, Advance);
    t := Reach(dcap, pcap, s5, Scan);
  }

  /** Empty bodies, each released before the next, fill the slots one after the other. */
  lemma {:induction false} FillSlots(dcap: nat, pcap: nat, n: nat) returns (s: State)
    requires 0 < dcap < TWO_64 - 1 && pcap >= 2 && n <= dcap
    ensures Reachable(dcap, pcap, s) && Resting(s) && After(s.ring, n, n, 0) && s.ring.dcap == dcap
    ensures n > 0 ==> EndAt(s.ring.sent, 1) == 0
  {
    hide Reachable;
    if n == 0 {
      ReachInit(dcap, pcap);
      s := Init(dcap, pcap);
    } else {
      var a := FillSlots(dcap, pcap, n - 1);
      var b := SendBody(dcap, pcap, a, n - 1, []);
      s := ReleaseBody(dcap, pcap, b, n - 1, 0);
      assert n > 1 ==> s.ring.sent[0] == a.ring.sent[0];
    }
  }

  /** With any number of slots and any payload ring that takes a byte: a drain after one send
      more than there are slots is about to visit the descriptor of the first send, and finds
      there the end of the last. */
  lemma ReclaimVisitsStaleDescriptor(dcap: nat, pcap: nat) returns (states: seq<State>, steps: seq<Step>)
    requires 0 < dcap < TWO_64 - 1 && pcap >= 2
    ensures IsRun(dcap, pcap, states, steps)
    ensures var s := states[|steps|];
            && s.pc.ReclaimAfterDrain? && s.ring.p.reclaimedHead == s.ring.reclaimedIdx == 0 < s.ring.headIdx
            && s.ring.dcap == dcap < |s.ring.sent|
            && |s.ring.descs| == dcap && s.ring.descs[0].payloadEnd != EndAt(s.ring.sent, 1) % TWO_64
  {
    hide Reachable;
    var a := FillSlots(dcap, pcap, dcap);
    var b := SendBody(dcap, pcap, a, dcap, [7]);
    SlotZero(dcap);
    var c := ReleaseBody(dcap, pcap, b, dcap, 1);
    var d := Reach(dcap, pcap, c, CallDrain);
    var e := Reach(dcap, pcap, d, Go);
    assert e.ring.sent[0] == a.ring.sent[0];
    states, steps := Trace(dcap, pcap, e);
  }

  lemma SlotZero(dcap: nat)
    requires dcap > 0
    ensures Offset(dcap, dcap) == 0
  {
  }

  lemma Trace(dcap: nat, pcap: nat, s: State) returns (states: seq<State>, steps: seq<Step>)
    requires Reachable(dcap, pcap, s)
    ensures IsRun(dcap, pcap, states, steps) && states[|steps|] == s
  {
    states, steps :| IsRun(dcap, pcap, states, steps) && states[|steps|] == s;
  }
}
