/** The inproc bypass: one sender thread, one receiver thread, a shared byte ring and a
    park/unpark handshake, as a system of atomic steps.

    Every load or store of a shared location is a step of its own, down to single bytes of
    the buffer, and the two threads interleave freely under sequential consistency.
    The fields from `taken` on are history: they never influence a step. */
module InprocPipe {
  import opened Words
  import opened RingLog

  datatype Outcome = NoCall | Sent | Eagain | Eterm

  /** Which call runs `try_push`: `push`, the first try of `push_blocking`, or its loop. */
  datatype Call = NonBlocking | FirstTry | Retry

  datatype ProducerPc =
    | Ready(last: Outcome)
    | CheckOpen(call: Call, data: Bytes)
    | Reserve(call: Call, data: Bytes)
    | LoadHead(call: Call, data: Bytes)
    | LoadHeadForWrap(call: Call, data: Bytes)
    | WriteWrap(call: Call, data: Bytes, i: nat)
    | WriteEntry(call: Call, data: Bytes, i: nat)
    | CheckOpenAgain(call: Call, data: Bytes)
    | LoopTop(data: Bytes)
    | Register(data: Bytes)
    | SetWaiting(data: Bytes)
    | CheckClosed(data: Bytes)
    | ClearAndFail
    | Park(data: Bytes)
    | ClearAndLoop(data: Bytes)
    | ClearAndFlush
    | FlushLoadTail(final: bool)
    | FlushLoadHead(final: bool, prevTail: nat)
    | FlushStore(final: bool, prevTail: nat, seenHead: nat)
    | Signal
    | DropClose
    | DropLoadWaiting
    | DropUnpark
    | Gone
    | ProducerFault

  datatype ConsumerPc =
    | Idle
    | LoadTail
    | ReadHeader(got: Bytes)
    | WrapLoadTail
    | ReadWrappedHeader(got: Bytes)
    | Peeked(len: nat, got: Bytes)
    | LoadWaiting(closing: bool)
    | Unpark(closing: bool)
    | CheckEmpty
    | DrainNotify
    | CloseSwap
    | Closed
    | Panicked
    | ConsumerFault

  /** The ring with the private cursors of both halves. */
  datatype Ring = Ring(
    // RingBuf
    cap: nat, buf: Bytes, tail: nat, head: nat,
    // RingProducer
    pTail: nat, pCachedHead: nat,
    // RingConsumer
    cHead: nat, cCachedTail: nat,
    // history: payloads consumed, payloads for which try_push returned true, and how many
    // of those a flush has published
    taken: seq<Bytes>, pushed: seq<Bytes>, flushed: nat,
    // history: the log of records and the record index of every cursor
    log: seq<Record>, published: nat, released: nat, passed: nat,
    cachedTailIdx: nat, cachedHeadIdx: nat)

  /** The flags of `InprocPipe`; `token` is the thread-park token of the sender, `notified`
      the receiver's event. */
  datatype Flags = Flags(closed: bool, waiting: bool, registered: bool, token: bool, notified: bool)

  datatype State = State(ring: Ring, flags: Flags, pPc: ProducerPc, cPc: ConsumerPc)

  function Init(cap: nat): State {
    State(Ring(cap, seq(cap, _ => 0), 0, 0, 0, 0, 0, 0, [], [], 0, [], 0, 0, 0, 0, 0),
          Flags(false, false, false, false, false), Ready(NoCall), Idle)
  }

  datatype Step =
    | CallPush(data: Bytes)
    | CallPushBlocking(data: Bytes)
    | CallDrop
    | Producer
    | SpuriousWake
    | CallPeek
    | CallClose
    | Consumer

  // ---- Operations on the ring ----

  predicate Usable(r: Ring) {
    r.cap > 0 && |r.buf| == r.cap
  }

  function FreeSpace(cap: nat, tail: nat, head: nat): nat {
    var used := WrappingSub(tail, head);
    if used >= cap then 0 else cap - used
  }

  function Contiguous(r: Ring): (n: nat)
    requires r.cap > 0
    ensures 0 < n <= r.cap
  {
    r.cap - Offset(r.pTail, r.cap)
  }

  /** The bytes `write_entry` copies; the length is truncated to 32 bits as in the source. */
  function EntryImage(data: Bytes): (b: Bytes)
    ensures |b| == HEADER_SIZE + |data|
  {
    Le32(|data| % TWO_32) + data
  }

  /** `cached_head = head.load()`. */
  function ReloadHead(r: Ring): Ring {
    r.(pCachedHead := r.head, cachedHeadIdx := r.released)
  }

  /** One byte of a copy to the producer's position. */
  function StoreByte(r: Ring, i: nat, b: byte): Ring
    requires Usable(r) && Offset(r.pTail, r.cap) + i < r.cap
  {
    r.(buf := r.buf[Offset(r.pTail, r.cap) + i := b])
  }

  /** The producer's cursor moves past a finished wrap sentinel. */
  function FinishWrap(r: Ring): Ring
    requires r.cap > 0
  {
    r.(pTail := WrappingAdd(r.pTail, Contiguous(r)),
       log := r.log + [Wrap(Boundary(r.cap, r.log, |r.log|))])
  }

  /** The producer's cursor moves past a finished entry. */
  function FinishEntry(r: Ring, data: Bytes): Ring
    requires r.cap > 0
  {
    r.(pTail := WrappingAdd(r.pTail, AlignedEntrySize(|data|)),
       log := r.log + [Entry(Boundary(r.cap, r.log, |r.log|), data)],
       pushed := r.pushed + [data])
  }

  /** `tail.store(self.tail)`. */
  function Publish(r: Ring): Ring {
    r.(tail := r.pTail, published := |r.log|, flushed := |r.pushed|)
  }

  /** `cached_tail = tail.load()`. */
  function ReloadTail(r: Ring): Ring {
    r.(cCachedTail := r.tail, cachedTailIdx := r.published)
  }

  /** The consumer's cursor moves past a wrap sentinel. */
  function PassWrap(r: Ring): Ring
    requires r.cap > 0
  {
    r.(cHead := WrappingAdd(r.cHead, r.cap - Offset(r.cHead, r.cap)), passed := r.passed + 1)
  }

  /** `advance_and_release` of an entry whose payload was read as `got`. */
  function Release(r: Ring, got: Bytes): Ring {
    var cHead' := WrappingAdd(r.cHead, AlignedEntrySize(|got|));
    r.(cHead := cHead', head := cHead', passed := r.passed + 1, released := r.passed + 1,
       taken := r.taken + [got])
  }

  // ---- Producer ----

  function PushFailed(call: Call, data: Bytes): ProducerPc {
    if call == Retry then Park(data) else CheckOpenAgain(call, data)
  }

  function PushDone(call: Call): ProducerPc {
    if call == Retry then ClearAndFlush else FlushLoadTail(false)
  }

  /** `try_push` once the first space check has passed with `free` bytes. */
  function ChoosePlacement(r: Ring, call: Call, data: Bytes, free: nat): ProducerPc
    requires r.cap > 0
  {
    var size := AlignedEntrySize(|data|);
    if Contiguous(r) < size then
      if free < Contiguous(r) + size + HEADER_SIZE then LoadHeadForWrap(call, data)
      else WriteWrap(call, data, 0)
    else WriteEntry(call, data, 0)
  }

  function ReserveNext(r: Ring, call: Call, data: Bytes): ProducerPc
    requires r.cap > 0
  {
    if |data| >= WRAP_SENTINEL then PushFailed(call, data)
    else
      var free := FreeSpace(r.cap, r.pTail, r.pCachedHead);
      if free < AlignedEntrySize(|data|) + HEADER_SIZE then LoadHead(call, data)
      else ChoosePlacement(r, call, data, free)
  }

  /** The first reload of `head`; `r` is the ring after the load. */
  function LoadHeadNext(r: Ring, call: Call, data: Bytes): ProducerPc
    requires r.cap > 0
  {
    var free := FreeSpace(r.cap, r.pTail, r.pCachedHead);
    if free < AlignedEntrySize(|data|) + HEADER_SIZE then PushFailed(call, data)
    else ChoosePlacement(r, call, data, free)
  }

  /** The reload of `head` before wrapping; `r` is the ring after the load. */
  function LoadHeadForWrapNext(r: Ring, call: Call, data: Bytes): ProducerPc
    requires r.cap > 0
  {
    var free := FreeSpace(r.cap, r.pTail, r.pCachedHead);
    if free < Contiguous(r) + AlignedEntrySize(|data|) + HEADER_SIZE then PushFailed(call, data)
    else WriteWrap(call, data, 0)
  }

  function WriteWrapStep(s: State, call: Call, data: Bytes, i: nat): State
    requires Usable(s.ring)
  {
    if Offset(s.ring.pTail, s.ring.cap) + i >= s.ring.cap then s.(pPc := ProducerFault)
    else
      var r := StoreByte(s.ring, i, 255);
      if i + 1 < HEADER_SIZE then s.(ring := r, pPc := WriteWrap(call, data, i + 1))
      else s.(ring := FinishWrap(r), pPc := WriteEntry(call, data, 0))
  }

  function WriteEntryStep(s: State, call: Call, data: Bytes, i: nat): State
    requires Usable(s.ring)
  {
    var image := EntryImage(data);
    if Offset(s.ring.pTail, s.ring.cap) + i >= s.ring.cap || i >= |image| then s.(pPc := ProducerFault)
    else
      var r := StoreByte(s.ring, i, image[i]);
      if i + 1 < |image| then s.(ring := r, pPc := WriteEntry(call, data, i + 1))
      else s.(ring := FinishEntry(r, data), pPc := PushDone(call))
  }

  /** After the tail store of a flush: signal the receiver if it had caught up. */
  function FlushNext(final: bool, prevTail: nat, seenHead: nat): ProducerPc {
    if final then Gone else if prevTail == seenHead then Signal else Ready(Sent)
  }

  predicate ProducerEnabled(s: State) {
    && !s.pPc.Ready? && !s.pPc.Gone? && !s.pPc.ProducerFault?
    && (s.pPc.Park? ==> s.flags.token)
  }

  /** The pcs from which a producer step moves bytes or cursors of the ring. */
  predicate TouchesRing(pc: ProducerPc) {
    pc.LoadHead? || pc.LoadHeadForWrap? || pc.WriteWrap? || pc.WriteEntry? || pc.FlushStore?
  }

  function RingProducerStep(s: State): State
    requires Usable(s.ring) && TouchesRing(s.pPc)
  {
    var r := s.ring;
    match s.pPc
    case LoadHead(call, data) => s.(ring := ReloadHead(r), pPc := LoadHeadNext(ReloadHead(r), call, data))
    case LoadHeadForWrap(call, data) =>
      s.(ring := ReloadHead(r), pPc := LoadHeadForWrapNext(ReloadHead(r), call, data))
    case WriteWrap(call, data, i) => WriteWrapStep(s, call, data, i)
    case WriteEntry(call, data, i) => WriteEntryStep(s, call, data, i)
    case FlushStore(final, prevTail, seenHead) =>
      s.(ring := Publish(r), pPc := FlushNext(final, prevTail, seenHead))
  }

  /** All other producer steps: loads of shared words, and stores to the flags. */
  function PipeProducerStep(s: State): State
    requires Usable(s.ring) && ProducerEnabled(s) && !TouchesRing(s.pPc)
  {
    var f := s.flags;
    match s.pPc
    case CheckOpen(call, data) => s.(pPc := if f.closed then Ready(Eterm) else Reserve(call, data))
    case Reserve(call, data) => s.(pPc := ReserveNext(s.ring, call, data))
    case CheckOpenAgain(call, data) =>
      s.(pPc := if f.closed then Ready(Eterm) else if call == NonBlocking then Ready(Eagain) else LoopTop(data))
    case LoopTop(data) => s.(pPc := if f.closed then Ready(Eterm) else Register(data))
    case Register(data) => s.(flags := f.(registered := true), pPc := SetWaiting(data))
    case SetWaiting(data) => s.(flags := f.(waiting := true), pPc := CheckClosed(data))
    case CheckClosed(data) => s.(pPc := if f.closed then ClearAndFail else Reserve(Retry, data))
    case ClearAndFail => s.(flags := f.(waiting := false), pPc := Ready(Eterm))
    case Park(data) => s.(flags := f.(token := false), pPc := ClearAndLoop(data))
    case ClearAndLoop(data) => s.(flags := f.(waiting := false), pPc := LoopTop(data))
    case ClearAndFlush => s.(flags := f.(waiting := false), pPc := FlushLoadTail(false))
    case FlushLoadTail(final) => s.(pPc := FlushLoadHead(final, s.ring.tail))
    case FlushLoadHead(final, prevTail) => s.(pPc := FlushStore(final, prevTail, s.ring.head))
    case Signal => s.(flags := f.(notified := true), pPc := Ready(Sent))
    case DropClose =>
      s.(flags := f.(closed := true, notified := f.notified || !f.closed), pPc := DropLoadWaiting)
    case DropLoadWaiting => s.(pPc := if f.waiting then DropUnpark else FlushLoadTail(true))
    case DropUnpark => s.(flags := f.(token := f.token || f.registered), pPc := FlushLoadTail(true))
  }

  function ProducerStep(s: State): State
    requires Usable(s.ring) && ProducerEnabled(s)
  {
    if TouchesRing(s.pPc) then RingProducerStep(s) else PipeProducerStep(s)
  }

  // ---- Consumer ----

  /** A four-byte header has been read at `offset`: hand out the payload slice. The slice is
      taken by indexing the buffer at `offset + 4`, which is a checked index. */
  function HandOut(cap: nat, offset: nat, len: nat): ConsumerPc {
    if offset + HEADER_SIZE >= cap then Panicked else Peeked(len, [])
  }

  function ReadHeaderStep(s: State, got: Bytes, wrapped: bool): State
    requires Usable(s.ring)
  {
    var r := s.ring;
    var off := Offset(r.cHead, r.cap);
    if off + |got| >= r.cap || |got| >= 4 then s.(cPc := ConsumerFault)
    else
      var got' := got + [r.buf[off + |got|]];
      if |got'| < 4 then s.(cPc := if wrapped then ReadWrappedHeader(got') else ReadHeader(got'))
      else
        var len := FromLe32(got');
        if !wrapped && len == WRAP_SENTINEL then
          var r' := PassWrap(r);
          s.(ring := r', cPc := if r'.cHead == r'.cCachedTail then WrapLoadTail else ReadWrappedHeader([]))
        else s.(cPc := HandOut(r.cap, off, len))
  }

  function PeekedStep(s: State, len: nat, got: Bytes): State
    requires Usable(s.ring)
  {
    var r := s.ring;
    if |got| < len then
      var at := Offset(r.cHead, r.cap) + HEADER_SIZE + |got|;
      if at >= r.cap then s.(cPc := ConsumerFault)
      else s.(cPc := Peeked(len, got + [r.buf[at]]))
    else s.(ring := Release(r, got), cPc := LoadWaiting(false))
  }

  predicate ConsumerEnabled(s: State) {
    !s.cPc.Idle? && !s.cPc.Closed? && !s.cPc.Panicked? && !s.cPc.ConsumerFault?
  }

  function ConsumerStep(s: State): State
    requires Usable(s.ring) && ConsumerEnabled(s)
  {
    var r, f := s.ring, s.flags;
    match s.cPc
    case LoadTail => s.(ring := ReloadTail(r), cPc := if r.cHead == r.tail then Idle else ReadHeader([]))
    case ReadHeader(got) => ReadHeaderStep(s, got, false)
    case WrapLoadTail =>
      s.(ring := ReloadTail(r), cPc := if r.cHead == r.tail then Idle else ReadWrappedHeader([]))
    case ReadWrappedHeader(got) => ReadHeaderStep(s, got, true)
    case Peeked(len, got) => PeekedStep(s, len, got)
    case LoadWaiting(closing) =>
      s.(cPc := if f.waiting then Unpark(closing) else if closing then Closed else CheckEmpty)
    case Unpark(closing) =>
      s.(flags := f.(token := f.token || f.registered), cPc := if closing then Closed else CheckEmpty)
    case CheckEmpty => s.(cPc := if r.cHead == r.tail then DrainNotify else Idle)
    case DrainNotify => s.(flags := f.(notified := false), cPc := Idle)
    case CloseSwap =>
      s.(flags := f.(closed := true, notified := f.notified || !f.closed), cPc := LoadWaiting(true))
  }

  // ---- The system ----

  predicate Enabled(s: State, step: Step) {
    match step
    case CallPush(_) => s.pPc.Ready?
    case CallPushBlocking(_) => s.pPc.Ready?
    case CallDrop => s.pPc.Ready?
    case Producer => ProducerEnabled(s)
    case SpuriousWake => s.pPc.Park?
    case CallPeek => s.cPc.Idle?
    case CallClose => s.cPc.Idle?
    case Consumer => ConsumerEnabled(s)
  }

  function Apply(s: State, step: Step): State
    requires Usable(s.ring) && Enabled(s, step)
  {
    match step
    case CallPush(data) => s.(pPc := CheckOpen(NonBlocking, data))
    case CallPushBlocking(data) => s.(pPc := CheckOpen(FirstTry, data))
    case CallDrop => s.(pPc := DropClose)
    case Producer => ProducerStep(s)
    case SpuriousWake => s.(pPc := ClearAndLoop(s.pPc.data))
    case CallPeek => s.(cPc := if s.ring.cHead == s.ring.cCachedTail then LoadTail else ReadHeader([]))
    case CallClose => s.(cPc := CloseSwap)
    case Consumer => ConsumerStep(s)
  }

  predicate Next(s: State, step: Step, s': State) {
    && Usable(s.ring)
    && Enabled(s, step)
    && s' == Apply(s, step)
  }

  /** A run: the states visited by a sequence of steps from the initial state. */
  predicate IsRun(cap: nat, states: seq<State>, steps: seq<Step>) {
    && |states| == |steps| + 1
    && states[0] == Init(cap)
    && forall i :: 0 <= i < |steps| ==> Next(states[i], steps[i], states[i + 1])
  }
}
