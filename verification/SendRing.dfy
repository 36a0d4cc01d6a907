/** The Go send ring: a Go thread fills a descriptor ring and a payload ring, a native
    worker turns descriptors into messages that borrow payload bytes, and any thread may
    drop such a message later, in any order, which frees its slot.

    Every access to a shared word is a step of its own, down to single payload bytes, and
    all threads interleave freely under sequential consistency. */
module SendRing {
  import opened Words
  import opened Options

  datatype Desc = Desc(payload: nat, payloadLen: nat, payloadEnd: nat)

  /** The fields of `sendRing` that change, all 64-bit cursors. */
  datatype GoSide = GoSide(tail: nat, cachedHead: nat, reclaimedHead: nat, payloadTail: nat, payloadHead: nat)

  datatype Reservation = Reservation(offset: nat, end: nat)

  /** A message handed to the socket: it reads `payload[offset..offset + len]` until dropped. */
  datatype Slice = Slice(cursor: nat, offset: nat, len: nat)

  /** History: one accepted body and the absolute payload position where it starts. */
  datatype Sent = Sent(start: nat, body: Bytes)

  datatype Ring = Ring(
    // shared memory
    dcap: nat, pcap: nat, descs: seq<Desc>, payload: Bytes, head: nat, tail: nat,
    // Go side
    p: GoSide,
    // native side: the worker's next cursor and cached tail, the release flags and the
    // messages still alive, keyed by the number of the send they carry
    next: nat, cachedTail: nat, done: seq<bool>, held: map<nat, Slice>,
    // history: all sends, and the send number each cursor stands for
    sent: seq<Sent>, published: nat, headIdx: nat, cachedHeadIdx: nat, reclaimedIdx: nat,
    nextIdx: nat, cachedTailIdx: nat)

  datatype Outcome = NoCall | Accepted | Again | ClosedError | NotHandled | Drained

  datatype GoPc =
    | Ready(last: Outcome)
    | CheckClosed(body: Bytes)
    | LoadHeadWhenFull(body: Bytes)
    | Reserve(body: Bytes)
    | ReclaimForSend(body: Bytes)
    | Copy(body: Bytes, res: Reservation, i: nat)
    | WriteDesc(body: Bytes, res: Reservation)
    | StoreTail
    | DrainLoad(after: Outcome)
    | DrainCheckClosed(after: Outcome)
    | ReclaimAfterDrain(after: Outcome)
    | GoFault

  /** The mutex around the reclaim cursor: free, or its holder about to test the next done
      flag, or about to publish the next head. */
  datatype LockPc = Unlocked | Scanning | Advancing

  datatype State = State(ring: Ring, closed: bool, pc: GoPc, lock: LockPc, waiters: nat)

  function Init(dcap: nat, pcap: nat): State {
    State(Ring(dcap, pcap, seq(dcap, _ => Desc(0, 0, 0)), seq(pcap, _ => 0), 0, 0,
               GoSide(0, 0, 0, 0, 0), 0, 0, seq(dcap, _ => false), map[],
               [], 0, 0, 0, 0, 0, 0),
          false, Ready(NoCall), Unlocked, 0)
  }

  predicate Usable(r: Ring) {
    r.dcap > 0 && r.pcap > 0 && |r.descs| == r.dcap && |r.payload| == r.pcap && |r.done| == r.dcap
  }

  // ---- Go side: local computations ----

  /** `reservePayload`. */
  function ReservePayload(p: GoSide, pcap: nat, length: nat): Option<(GoSide, Reservation)>
    requires pcap > 0
  {
    if length == 0 then Some((p, Reservation(0, p.payloadTail)))
    else
      var offset := Offset(p.payloadTail, pcap);
      var pad := if offset + length > pcap then pcap - offset else 0;
      var cursor := WrappingAdd(p.payloadTail, pad);
      var offset' := if pad > 0 then 0 else offset;
      if WrappingSub(WrappingAdd(cursor, length), p.payloadHead) > pcap then None
      else Some((p.(payloadTail := WrappingAdd(p.payloadTail, length + pad)),
                 Reservation(offset', WrappingAdd(cursor, length))))
  }

  /** The loop of `reclaimConsumed`: the payload head after visiting `count` descriptors from
      cursor `from`. */
  function ReclaimLoop(descs: seq<Desc>, from: nat, count: nat, payloadHead: nat): nat
    requires |descs| > 0
    decreases count
  {
    if count == 0 then payloadHead
    else ReclaimLoop(descs, WrappingAdd(from, 1), count - 1, descs[Offset(from, |descs|)].payloadEnd)
  }

  /** `reclaimConsumed` after loading `head`. */
  function Reclaim(p: GoSide, descs: seq<Desc>, head: nat): GoSide
    requires |descs| > 0
  {
    p.(payloadHead := ReclaimLoop(descs, p.reclaimedHead, WrappingSub(head, p.reclaimedHead), p.payloadHead),
       reclaimedHead := head, cachedHead := head)
  }

  predicate LooksFull(p: GoSide, dcap: nat) {
    WrappingSub(p.tail, p.cachedHead) >= dcap
  }

  // ---- Operations on the ring ----

  function ReloadCachedHead(r: Ring): Ring {
    r.(p := r.p.(cachedHead := r.head), cachedHeadIdx := r.headIdx)
  }

  function ReclaimConsumed(r: Ring): Ring
    requires Usable(r)
  {
    r.(p := Reclaim(r.p, r.descs, r.head), cachedHeadIdx := r.headIdx,
       reclaimedIdx := if r.p.reclaimedHead == r.head then r.reclaimedIdx else r.headIdx)
  }

  function StoreByte(r: Ring, at: nat, b: byte): Ring
    requires Usable(r) && at < r.pcap
  {
    r.(payload := r.payload[at := b])
  }

  /** The descriptor is written and the private tail moves on. The start of the body is
      recovered for the history from the end of the previous one. */
  function FinishSend(r: Ring, body: Bytes, res: Reservation, start: nat): Ring
    requires Usable(r)
  {
    r.(descs := r.descs[Offset(r.p.tail, r.dcap) := Desc(res.offset, |body|, res.end)],
       p := r.p.(tail := WrappingAdd(r.p.tail, 1)),
       sent := r.sent + [Sent(start, body)])
  }

  function Publish(r: Ring): Ring {
    r.(tail := r.p.tail, published := |r.sent|)
  }

  function ReloadCachedTail(r: Ring): Ring {
    r.(cachedTail := r.tail, cachedTailIdx := r.published)
  }

  /** `message_at(cursor)`: borrow the payload bytes the descriptor names. */
  function Take(r: Ring): Ring
    requires Usable(r)
  {
    var d := r.descs[Offset(r.next, r.dcap)];
    r.(next := WrappingAdd(r.next, 1), nextIdx := r.nextIdx + 1,
       held := r.held[r.nextIdx := Slice(r.next, d.payload, d.payloadLen)])
  }

  /** The first half of `release_slot`: the message is gone and its flag is up. */
  function Drop(r: Ring, k: nat): Ring
    requires Usable(r) && k in r.held
  {
    r.(done := r.done[Offset(r.held[k].cursor, r.dcap) := true], held := r.held - {k})
  }

  /** `swap(false)` on the flag of the oldest slot. */
  function ClearFlag(r: Ring): Ring
    requires Usable(r)
  {
    r.(done := r.done[Offset(r.head, r.dcap) := false])
  }

  function AdvanceHead(r: Ring): Ring {
    r.(head := WrappingAdd(r.head, 1), headIdx := r.headIdx + 1)
  }

  // ---- Steps ----

  /** Where the history places a body that ends at the wrapped cursor `end`: the first
      position at or after the last body that has that wrapped end. */
  function StartOf(r: Ring, body: Bytes, res: Reservation): nat {
    var last := EndAt(r.sent, |r.sent|);
    last + WrappingSub(WrappingSub(res.end, |body|), last)
  }

  /** The absolute payload position after the first `i` sends. */
  function EndAt(sent: seq<Sent>, i: nat): nat
    requires i <= |sent|
  {
    if i == 0 then 0 else sent[i - 1].start + |sent[i - 1].body|
  }

  function AfterReserve(s: State, body: Bytes, retried: bool): State
    requires Usable(s.ring)
  {
    match ReservePayload(s.ring.p, s.ring.pcap, |body|)
    case None => s.(pc := if retried then Ready(Again) else ReclaimForSend(body))
    case Some((p, res)) =>
      s.(ring := s.ring.(p := p), pc := if body == [] then WriteDesc(body, res) else Copy(body, res, 0))
  }

  function CopyStep(s: State, body: Bytes, res: Reservation, i: nat): State
    requires Usable(s.ring)
  {
    if res.offset + i >= s.ring.pcap || i >= |body| then s.(pc := GoFault)
    else s.(ring := StoreByte(s.ring, res.offset + i, body[i]),
            pc := if i + 1 < |body| then Copy(body, res, i + 1) else WriteDesc(body, res))
  }

  predicate GoEnabled(s: State) {
    !s.pc.Ready? && !s.pc.GoFault?
  }

  function GoStep(s: State): State
    requires Usable(s.ring) && GoEnabled(s)
  {
    var r := s.ring;
    match s.pc
    case CheckClosed(body) =>
      s.(pc := if s.closed then Ready(ClosedError)
               else if LooksFull(r.p, r.dcap) then LoadHeadWhenFull(body) else Reserve(body))
    case LoadHeadWhenFull(body) =>
      var r' := ReloadCachedHead(r);
      s.(ring := r', pc := if LooksFull(r'.p, r.dcap) then Ready(Again) else Reserve(body))
    case Reserve(body) => AfterReserve(s, body, false)
    case ReclaimForSend(body) => AfterReserve(s.(ring := ReclaimConsumed(r)), body, true)
    case Copy(body, res, i) => CopyStep(s, body, res, i)
    case WriteDesc(body, res) =>
      s.(ring := FinishSend(r, body, res, StartOf(r, body, res)), pc := StoreTail)
    case StoreTail => s.(ring := Publish(r), pc := Ready(Accepted))
    case DrainLoad(after) =>
      s.(pc := if r.p.tail == r.head then ReclaimAfterDrain(after) else DrainCheckClosed(after))
    case DrainCheckClosed(after) => s.(pc := if s.closed then Ready(ClosedError) else DrainLoad(after))
    case ReclaimAfterDrain(after) => s.(ring := ReclaimConsumed(r), pc := Ready(after))
  }

  datatype Step =
    | CallTrySend(body: Bytes)
    | CallDrain
    | DrainTimeout
    | Go
    | WorkerLoadTail
    | WorkerTake
    | DropMessage(k: nat)
    | Acquire
    | Scan
    | Advance
    | Close

  predicate Enabled(s: State, step: Step) {
    match step
    case CallTrySend(_) => s.pc.Ready?
    case CallDrain => s.pc.Ready?
    case DrainTimeout => s.pc.DrainCheckClosed? && s.pc.after == Drained
    case Go => GoEnabled(s)
    case WorkerLoadTail => s.ring.next == s.ring.cachedTail
    case WorkerTake => s.ring.next != s.ring.cachedTail
    case DropMessage(k) => k in s.ring.held
    case Acquire => s.lock.Unlocked? && s.waiters > 0
    case Scan => s.lock.Scanning?
    case Advance => s.lock.Advancing?
    case Close => true
  }

  function Apply(s: State, step: Step): State
    requires Usable(s.ring) && Enabled(s, step)
  {
    var r := s.ring;
    match step
    case CallTrySend(body) => s.(pc := if |body| >= r.pcap then DrainLoad(NotHandled) else CheckClosed(body))
    case CallDrain => s.(pc := DrainLoad(Drained))
    case DrainTimeout => s.(pc := Ready(Again))
    case Go => GoStep(s)
    case WorkerLoadTail => s.(ring := ReloadCachedTail(r))
    case WorkerTake => s.(ring := Take(r))
    case DropMessage(k) => s.(ring := Drop(r, k), waiters := s.waiters + 1)
    case Acquire => s.(lock := Scanning, waiters := s.waiters - 1)
    case Scan =>
      if r.done[Offset(r.head, r.dcap)] then s.(ring := ClearFlag(r), lock := Advancing)
      else s.(lock := Unlocked)
    case Advance => s.(ring := AdvanceHead(r), lock := Scanning)
    case Close => s.(closed := true)
  }

  predicate Next(s: State, step: Step, s': State) {
    Usable(s.ring) && Enabled(s, step) && s' == Apply(s, step)
  }

  predicate IsRun(dcap: nat, pcap: nat, states: seq<State>, steps: seq<Step>) {
    && |states| == |steps| + 1
    && states[0] == Init(dcap, pcap)
    && forall i :: 0 <= i < |steps| ==> Next(states[i], steps[i], states[i + 1])
  }
}
