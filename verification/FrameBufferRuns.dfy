/** Whole runs of a frame buffer: framing calls interleaved in any order with partial writes. */
module FrameBufferRuns {
  import opened Words
  import opened Options
  import opened Message
  import opened FrameCodec
  import opened FrameBuffer

  datatype Op =
    | FrameOp(m: Message)
    | InlineOp(m: Message)
    | GatherOp(m: Message)
    | RepOp(m: Message)
    | PrefixedOp(prefix: Bytes, m: Message)
    | RawOp(chunks: seq<Bytes>, protected: bool)
    | PreFramedOp(data: Bytes)
    | StartWrite(maxChunks: nat)
    | EndWrite(accepted: nat)
    | WriteArena(accepted: nat)

  predicate ValidOp(op: Op) {
    (op.FrameOp? || op.InlineOp? || op.GatherOp? || op.RepOp? || op.PrefixedOp?) ==> ValidMessage(op.m)
  }

  /** The bytes an operation adds to the stream. */
  function Emits(op: Op): Bytes
    requires ValidOp(op)
  {
    match op
    case FrameOp(m) => EncodeParts(Parts(m))
    case InlineOp(m) => EncodeParts(Parts(m))
    case GatherOp(m) => EncodeParts(Parts(m))
    case RepOp(m) => EncodeParts([[]] + Parts(m))
    case PrefixedOp(prefix, m) => EncodeParts(Prefixed(prefix, Parts(m)))
    case RawOp(chunks, _) => Concat(chunks)
    case PreFramedOp(data) => data
    case _ => []
  }

  predicate ValidOps(ops: seq<Op>) {
    forall i :: 0 <= i < |ops| ==> ValidOp(ops[i])
  }

  function Emitted(ops: seq<Op>): Bytes
    requires ValidOps(ops)
  {
    if ops == [] then [] else Emitted(ops[..|ops| - 1]) + Emits(ops[|ops| - 1])
  }

  predicate IsWrite(op: Op) {
    op.StartWrite? || op.EndWrite? || op.WriteArena?
  }

  /** Whether every arena range that an operation commits has 32-bit offsets. Only operations
      that commit arena bytes can fail to. */
  predicate OffsetsFit(op: Op, arenaLen: nat, threshold: nat)
    requires ValidOp(op)
  {
    match op
    case FrameOp(m) => TotalLen(Parts(m)) >= threshold ==> arenaLen + MAX_FRAME_HEADER_LEN * Len(m) < TWO_32
    case InlineOp(_) => true
    case GatherOp(m) => arenaLen + MAX_FRAME_HEADER_LEN * Len(m) < TWO_32
    case RepOp(m) => Parts(m) != [] ==> arenaLen + MAX_FRAME_HEADER_LEN * (Len(m) + 1) < TWO_32
    case PrefixedOp(prefix, m) =>
      TotalLen(Parts(m)) + |prefix| * Len(m) >= threshold ==> arenaLen + MAX_FRAME_HEADER_LEN * Len(m) < TWO_32
    case RawOp(_, _) => arenaLen < TWO_32
    case PreFramedOp(_) => true
    case StartWrite(_) => arenaLen < TWO_32
    case EndWrite(_) => true
    case WriteArena(_) => true
  }

  /** The state of a writer: what is on the wire and what has been drained for a write that
      is still going on. */
  datatype Writer = Writer(wire: Bytes, inFlight: seq<Bytes>)

  ghost function Stream(w: Writer, rest: Bytes): Bytes {
    w.wire + Concat(w.inFlight) + rest
  }

  method Frames(b: FrameBuffer, op: Op)
    requires b.Valid() && ValidOp(op) && !IsWrite(op) && OffsetsFit(op, |b.arena|, b.arenaThreshold)
    modifies b
    ensures b.Valid() && b.Denotation() == old(b.Denotation()) + Emits(op)
  {
    hide Parts, ValidMessage, EncodeParts, Denote, AllInArena, Prefixed, Len, TotalLen;
    match op {
      case FrameOp(m) => b.Frame(m);
      case InlineOp(m) => b.FrameInline(m);
      case GatherOp(m) => b.FrameGather(m);
      case RepOp(m) => b.FrameRep(m);
      case PrefixedOp(prefix, m) => b.FramePrefixed(prefix, m);
      case RawOp(chunks, protected) => b.PushRaw(chunks, protected);
      case PreFramedOp(data) => b.PushPreFramed(data);
    }
  }

  function Min(a: nat, b: nat): nat {
    if a < b then a else b
  }

  lemma DrainedStream(wire: Bytes, chunks: seq<Bytes>, rest: Bytes)
    ensures Stream(Writer(wire, chunks), rest) == Stream(Writer(wire, []), Concat(chunks) + rest)
  {
    assert wire + Concat(chunks) + rest == wire + (Concat(chunks) + rest);
  }

  lemma WrittenStream(wire: Bytes, chunks: seq<Bytes>, n: nat, rest: Bytes)
    requires n <= |Concat(chunks)|
    ensures Stream(Writer(wire + Concat(chunks)[..n], []), Unwritten(Concat(chunks), n) + rest)
              == Stream(Writer(wire, chunks), rest)
  {
    var all := Concat(chunks);
    assert all == all[..n] + all[n..];
    assert wire + all[..n] + (all[n..] + rest) == wire + all + rest;
  }

  lemma ArenaStream(wire: Bytes, arena: Bytes, n: nat)
    requires n <= |arena|
    ensures Stream(Writer(wire + arena[..n], []), arena[n..]) == Stream(Writer(wire, []), arena)
  {
    assert wire + arena[..n] + arena[n..] == wire + arena;
  }

  /** Steps of the writer move bytes along the stream and lose none. A new write starts only
      once the previous one has been settled. */
  method Writes(b: FrameBuffer, op: Op, w: Writer) returns (w': Writer)
    requires b.Valid() && ValidOp(op) && IsWrite(op) && OffsetsFit(op, |b.arena|, b.arenaThreshold)
    modifies b
    ensures b.Valid() && Stream(w', b.Denotation()) == Stream(w, old(b.Denotation()))
  {
    hide Denote, AllInArena, Stream, Concat, Unwritten;
    w' := w;
    match op {
      case StartWrite(maxChunks) =>
        if w.inFlight == [] {
          var chunks, _ := b.Drain(maxChunks);
          w' := Writer(w.wire, chunks);
          DrainedStream(w.wire, chunks, b.Denotation());
        }
      case EndWrite(accepted) =>
        var all := Concat(w.inFlight);
        var n := Min(accepted, |all|);
        WrittenStream(w.wire, w.inFlight, n, b.Denotation());
        b.PutBackUnwritten(w.inFlight, n);
        w' := Writer(w.wire + all[..n], []);
      case WriteArena(accepted) =>
        var only := b.HasArenaOnly();
        if only && w.inFlight == [] {
          var n := Min(accepted, |b.arena|);
          ArenaStream(w.wire, b.arena, n);
          w' := Writer(w.wire + b.arena[..n], []);
          b.AdvanceArena(n);
        }
    }
  }

  lemma StreamGrows(w: Writer, rest: Bytes, more: Bytes)
    ensures Stream(w, rest + more) == Stream(w, rest) + more
  {
  }

  lemma EmittedSnoc(ops: seq<Op>, i: nat)
    requires ValidOps(ops) && i < |ops|
    ensures ValidOps(ops[..i]) && ValidOps(ops[..i + 1])
    ensures Emitted(ops[..i + 1]) == Emitted(ops[..i]) + Emits(ops[i])
  {
    assert ops[..i + 1][..i] == ops[..i];
  }

  /** For every sequence of operations, what is on the wire, then in flight, then in the
      buffer is the concatenation of the encodings, in call order. The threshold between
      copying and gathering and the sizes of the writes do not matter. The run stops early
      only where an arena range would outgrow its 32-bit offsets. */
  method Run(b: FrameBuffer, ops: seq<Op>) returns (w: Writer, performed: nat)
    requires b.Valid() && ValidOps(ops)
    modifies b
    ensures b.Valid() && performed <= |ops| && ValidOps(ops[..performed])
    ensures Stream(w, b.Denotation()) == old(b.Denotation()) + Emitted(ops[..performed])
    ensures performed < |ops| ==>
              ValidOp(ops[performed]) && !OffsetsFit(ops[performed], |b.arena|, b.arenaThreshold)
  {
    hide Denote, AllInArena, Emits, Emitted, Concat, OffsetsFit, ValidOp, IsWrite;
    w, performed := Writer([], []), 0;
    EmptyStream(b.Denotation());
    NothingEmitted();
    assert ops[..0] == [];
    while performed < |ops|
      invariant b.Valid() && performed <= |ops| && ValidOps(ops[..performed])
      invariant Stream(w, b.Denotation()) == old(b.Denotation()) + Emitted(ops[..performed])
    {
      var op := ops[performed];
      if !OffsetsFit(op, |b.arena|, b.arenaThreshold) {
        return;
      }
      EmittedSnoc(ops, performed);
      ghost var before := b.Denotation();
      if IsWrite(op) {
        WritesEmitNothing(op);
        w := Writes(b, op, w);
      } else {
        Frames(b, op);
        StreamGrows(w, before, Emits(op));
      }
      performed := performed + 1;
    }
    assert ops[..performed] == ops;
  }

  lemma WritesEmitNothing(op: Op)
    requires ValidOp(op) && IsWrite(op)
    ensures Emits(op) == []
  {
  }

  lemma EmptyStream(rest: Bytes)
    ensures Stream(Writer([], []), rest) == rest
  {
  }

  lemma NothingEmitted()
    ensures Emitted([]) == []
  {
  }

  // ---- What the peer reads ----

  predicate SendsMessages(ops: seq<Op>) {
    forall i :: 0 <= i < |ops| ==> !ops[i].RawOp? && !ops[i].PreFramedOp? && ValidOp(ops[i])
  }

  /** The part lists an operation puts on the wire. */
  function Sends(op: Op): seq<seq<Bytes>>
    requires ValidOp(op)
  {
    match op
    case FrameOp(m) => [Parts(m)]
    case InlineOp(m) => [Parts(m)]
    case GatherOp(m) => [Parts(m)]
    case RepOp(m) => [[[]] + Parts(m)]
    case PrefixedOp(prefix, m) => [Prefixed(prefix, Parts(m))]
    case _ => []
  }

  function AllSent(ops: seq<Op>): seq<seq<Bytes>>
    requires ValidOps(ops)
  {
    if ops == [] then [] else AllSent(ops[..|ops| - 1]) + Sends(ops[|ops| - 1])
  }

  lemma {:induction false} EmittedIsStream(ops: seq<Op>)
    requires SendsMessages(ops)
    ensures ValidOps(ops) && Emitted(ops) == EncodeAll(AllSent(ops))
  {
    hide Parts, ValidMessage, EncodeParts, Prefixed, EncodeAll;
    if ops != [] {
      var init, last := ops[..|ops| - 1], ops[|ops| - 1];
      EmittedIsStream(init);
      assert AllSent(init) + [] == AllSent(init) && Emitted(init) + [] == Emitted(init);
      if Sends(last) != [] {
        EncodeAllAppends(AllSent(init), Sends(last)[0]);
        assert Sends(last) == [Sends(last)[0]];
      }
    } else {
      NothingStreamed();
    }
  }

  lemma NothingStreamed()
    ensures EncodeAll([]) == []
  {
  }

  /** Once everything has been written, the peer's decoder recovers exactly the part lists
      that were framed, in order and with every message boundary. */
  lemma PeerReadsWhatWasFramed(ops: seq<Op>, wire: Bytes)
    requires SendsMessages(ops) && wire == Emitted(ops) && Transmittable(AllSent(ops))
    ensures DecodeAll(wire) == Got(AllSent(ops))
  {
    EmittedIsStream(ops);
    StreamReadsBack(AllSent(ops));
  }

  /** Writes until nothing is in flight or in the buffer, `maxChunks` chunks at a time. */
  method Flush(b: FrameBuffer, w: Writer, maxChunks: nat) returns (wire: Bytes)
    requires b.Valid() && |b.arena| < TWO_32 && maxChunks > 0
    modifies b
    ensures b.Valid() && b.Denotation() == [] && wire == Stream(w, old(b.Denotation()))
  {
    hide Denote, AllInArena, Concat;
    wire := w.wire + Concat(w.inFlight);
    ghost var left := b.Denotation();
    var more := true;
    while more
      invariant b.Valid() && |b.arena| < TWO_32 && wire + b.Denotation() == Stream(w, left)
      invariant !more ==> b.Denotation() == []
      decreases more, |Committed(b.entries, b.arena, b.arenaMark)|
    {
      ghost var before, rest := wire, b.Denotation();
      var chunks, _ := b.Drain(maxChunks);
      assert before + Concat(chunks) + b.Denotation() == before + rest;
      wire := wire + Concat(chunks);
      more := |chunks| == maxChunks;
    }
    assert wire + [] == wire;
  }

  /** From an empty buffer: once the operations have been performed and everything has been
      written, the peer's decoder recovers exactly the part lists that were framed. Only
      32-bit offsets can keep it from coming to that. */
  method Deliver(b: FrameBuffer, ops: seq<Op>, maxChunks: nat) returns (complete: bool, performed: nat, wire: Bytes)
    requires b.Valid() && b.Denotation() == [] && maxChunks > 0
    requires SendsMessages(ops) && ValidOps(ops) && Transmittable(AllSent(ops))
    modifies b
    ensures complete ==> wire == Emitted(ops) && DecodeAll(wire) == Got(AllSent(ops))
    ensures !complete && performed < |ops| ==> !OffsetsFit(ops[performed], |b.arena|, b.arenaThreshold)
    ensures !complete && performed >= |ops| ==> |b.arena| >= TWO_32
  {
    hide Denote, AllInArena, Emitted, AllSent, Concat, OffsetsFit, Stream, Transmittable, DecodeAll, ValidOp;
    var w: Writer;
    w, performed := Run(b, ops);
    if performed < |ops| || |b.arena| >= TWO_32 {
      return false, performed, [];
    }
    assert ops[..performed] == ops;
    assert [] + Emitted(ops) == Emitted(ops);
    wire := Flush(b, w, maxChunks);
    PeerReadsWhatWasFramed(ops, wire);
    return true, performed, wire;
  }
}
