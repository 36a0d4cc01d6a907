/** Encoding one message once for many peers: as one arena slice that is copied to each peer
    when that is cheap enough, as shared chunks otherwise. */
module FanOut {
  import opened Words
  import opened Options
  import opened Message
  import opened FrameCodec
  import opened FrameBuffer

  const USIZE_MAX: nat := TWO_64 - 1
  const MAX_CHUNKS := 1024

  datatype FanOutFrame = ArenaSlice(bytes: Bytes) | SharedChunks(chunks: seq<Bytes>)

  function Saturate(n: nat): nat {
    if n > USIZE_MAX then USIZE_MAX else n
  }

  lemma {:induction false} EncodeFirstGrows(parts: seq<Bytes>, i: nat)
    requires i < |parts|
    ensures |EncodeFirst(parts, i + 1)| == |EncodeFirst(parts, i)| + HeaderLen(|parts[i]|) + |parts[i]|
  {
  }

  /** The encoded length, saturating. */
  method EncodedMessageLen(m: Message) returns (total: nat)
    requires ValidMessage(m)
    ensures total == Saturate(|EncodeParts(Parts(m))|)
  {
    hide Parts, ValidMessage, EncodeFirst, HeaderLen, EncodeFrame;
    var slices := IterSlices(m);
    total := 0;
    assert |EncodeFirst(slices, 0)| == 0 by { NothingFirst(slices); }
    for i := 0 to |slices|
      invariant total == Saturate(|EncodeFirst(slices, i)|)
    {
      EncodeFirstGrows(slices, i);
      total := Saturate(total + HeaderLen(|slices[i]|));
      total := Saturate(total + |slices[i]|);
    }
    EncodeFirstAll(slices);
  }

  lemma NothingFirst(parts: seq<Bytes>)
    ensures EncodeFirst(parts, 0) == []
  {
  }

  /** Saturation changes the comparison only for the largest budget, which nothing exceeds. */
  lemma SaturationIsHarmless(len: nat, targets: nat, budget: nat)
    requires budget <= USIZE_MAX && len * targets >= 0
    ensures Saturate(Saturate(len) * targets) > budget <==> len * targets > budget && budget < USIZE_MAX
  {
    if targets == 0 {
      assert Saturate(len) * targets == 0 == len * targets;
    } else if len > USIZE_MAX {
      assert USIZE_MAX * targets >= USIZE_MAX;
      assert len * targets >= len by {
        assert len * targets == len * (targets - 1) + len;
        Product(len, targets - 1);
      }
    }
  }

  lemma Product(a: nat, b: nat)
    ensures a * b >= 0
  {
  }

  /** Whether the message is copied into the arena. The largest budget stands for no limit. */
  predicate PrefersArena(m: Message, threshold: nat, targets: nat, budget: nat)
    requires ValidMessage(m)
  {
    TotalLen(Parts(m)) < threshold && (|EncodeParts(Parts(m))| * targets <= budget || budget == USIZE_MAX)
  }

  method EncodeFanOutMessage(b: FrameBuffer, m: Message, targets: nat, budget: nat)
    requires b.Valid() && b.entries == [] && b.arena == []
    requires ValidMessage(m) && budget <= USIZE_MAX
    requires !PrefersArena(m, b.arenaThreshold, targets, budget) ==> MAX_FRAME_HEADER_LEN * Len(m) < TWO_32
    modifies b
    ensures b.Valid() && b.Denotation() == EncodeParts(Parts(m)) && NoEmptyChunk(b.entries)
    ensures Parts(m) == [] ==> b.entries == [] && b.arena == []
    ensures Parts(m) != [] && PrefersArena(m, b.arenaThreshold, targets, budget) ==>
              b.entries == [] && b.arena == EncodeParts(Parts(m)) && b.arena != []
    ensures Parts(m) != [] && !PrefersArena(m, b.arenaThreshold, targets, budget) ==>
              |b.entries| == ChunkCount(Parts(m)) > 0 && b.arenaMark == |b.arena| < TWO_32
  {
    hide Parts, ValidMessage, EncodeParts, Denote, AllInArena, ChunkCount, Saturate, TotalLen, Len, EncodeFrame;
    ghost var size := |EncodeParts(Parts(m))|;
    Product(size, targets);
    SaturationIsHarmless(size, targets, budget);
    SomethingCounted(Parts(m));
    SomethingEncoded(Parts(m));
    EmptyDenotes(b);
    var len := EncodedMessageLen(m);
    if Saturate(len * targets) > budget {
      b.FrameGather(m);
    } else {
      b.Frame(m);
    }
  }

  lemma EmptyDenotes(b: FrameBuffer)
    requires b.Valid() && b.entries == [] && b.arena == []
    ensures b.Denotation() == []
  {
  }

  lemma SomethingCounted(parts: seq<Bytes>)
    ensures parts != [] ==> ChunkCount(parts) > 0
  {
  }

  lemma SomethingEncoded(parts: seq<Bytes>)
    ensures parts != [] <==> EncodeParts(parts) != []
  {
  }

  /** The product that selects the arena slice wraps at 64 bits. */
  predicate SliceFits(size: nat, targets: nat, budget: nat) {
    (size * targets) % TWO_64 <= budget
  }

  lemma SliceFitsExactly(size: nat, targets: nat, budget: nat)
    requires size * targets <= budget <= USIZE_MAX || budget == USIZE_MAX
    ensures SliceFits(size, targets, budget)
  {
    Product(size, targets);
  }

  method FinishFanOutFrame(b: FrameBuffer, targets: nat, budget: nat) returns (r: FanOutFrame)
    requires b.Valid() && NoEmptyChunk(b.entries)
    requires b.entries != [] || !SliceFits(|b.arena|, targets, budget) ==> |b.arena| < TWO_32
    modifies b
    ensures b.Valid()
    ensures r.ArenaSlice? <==> old(b.entries == [] && b.arena != [] && SliceFits(|b.arena|, targets, budget))
    ensures r.ArenaSlice? ==> r.bytes == b.Denotation() == old(b.Denotation())
    ensures r.SharedChunks? ==> Concat(r.chunks) + b.Denotation() == old(b.Denotation())
    ensures r.SharedChunks? ==>
              (b.Denotation() == [] <==>
                old(|b.entries| + (if b.arenaMark < |b.arena| then 1 else 0)) <= 1024)
  {
    hide Denote, AllInArena, NoEmptyChunk, SliceFits;
    var only := b.HasArenaOnly();
    if only && SliceFits(|b.arena|, targets, budget) {
      r := ArenaSlice(b.arena[b.arenaMark..]);
    } else {
      var chunks, _ := b.Drain(MAX_CHUNKS);
      r := SharedChunks(chunks);
    }
  }

  /** From an empty buffer: the arena form is chosen exactly when the message has parts, is
      below the arena threshold and its encoded length times the number of peers fits the
      budget, or the budget is the largest one. The arena slice is the encoding. The chunks
      are the encoding exactly when they number at most 1024. */
  method BuildFanOutFrame(b: FrameBuffer, m: Message, targets: nat, budget: nat) returns (r: FanOutFrame)
    requires b.Valid() && b.entries == [] && b.arena == []
    requires ValidMessage(m) && budget <= USIZE_MAX
    requires !PrefersArena(m, b.arenaThreshold, targets, budget) ==> MAX_FRAME_HEADER_LEN * Len(m) < TWO_32
    modifies b
    ensures b.Valid()
    ensures r.ArenaSlice? <==> Parts(m) != [] && PrefersArena(m, b.arenaThreshold, targets, budget)
    ensures r.ArenaSlice? ==> r.bytes == EncodeParts(Parts(m))
    ensures r.SharedChunks? ==>
              (Concat(r.chunks) == EncodeParts(Parts(m)) <==> ChunkCount(Parts(m)) <= 1024)
    ensures r.SharedChunks? && |Parts(m)| <= 512 ==> Concat(r.chunks) == EncodeParts(Parts(m))
  {
    hide Parts, ValidMessage, EncodeParts, Denote, AllInArena, ChunkCount, TotalLen, Len, NoEmptyChunk, Concat,
         SliceFits;
    EncodeFanOutMessage(b, m, targets, budget);
    if PrefersArena(m, b.arenaThreshold, targets, budget) {
      SliceFitsExactly(|EncodeParts(Parts(m))|, targets, budget);
    }
    NothingChunked();
    PartsBoundChunks(Parts(m));
    ghost var all := b.Denotation();
    r := FinishFanOutFrame(b, targets, budget);
    if r.SharedChunks? {
      assert |Concat(r.chunks)| + |b.Denotation()| == |all|;
    }
  }

  lemma NothingChunked()
    ensures ChunkCount([]) == 0
  {
  }

  /** Up to 512 parts always fit; from 513 non-empty parts on the chunks are cut short. */
  lemma {:induction false} PartsBoundChunks(parts: seq<Bytes>)
    ensures |parts| <= ChunkCount(parts) <= 2 * |parts|
    ensures (forall i :: 0 <= i < |parts| ==> parts[i] != []) ==> ChunkCount(parts) == 2 * |parts|
  {
    if parts != [] {
      PartsBoundChunks(parts[..|parts| - 1]);
    }
  }

  lemma {:induction false} UniformLen(parts: seq<Bytes>, size: nat)
    requires forall i :: 0 <= i < |parts| ==> |parts[i]| == size
    ensures TotalLen(parts) == |parts| * size
  {
    if parts != [] {
      UniformLen(parts[..|parts| - 1], size);
      assert |parts| * size == (|parts| - 1) * size + size;
    }
  }

  /** A message of 513 parts that is not below the arena threshold is cut short, whatever the
      number of peers and the budget: at the threshold of 4096 bytes that the routing code
      uses, parts of eight bytes are enough. */
  method LongMessageIsCutShort(threshold: nat, size: nat, targets: nat, budget: nat)
    returns (m: Message, r: FanOutFrame)
    requires size > 0 && 513 * size >= threshold && budget <= USIZE_MAX
    ensures ValidMessage(m) && |Parts(m)| == 513 && forall i :: 0 <= i < 513 ==> |Parts(m)[i]| == size
    ensures r.SharedChunks? && Concat(r.chunks) != EncodeParts(Parts(m))
  {
    hide EncodeParts, Concat, ChunkCount, TotalLen;
    var part: Bytes := seq(size, i => 0);
    m := Multi(seq(513, i => Chunk(part)));
    PartsBoundChunks(Parts(m));
    UniformLen(Parts(m), size);
    var b := new FrameBuffer(threshold);
    r := BuildFanOutFrame(b, m, targets, budget);
  }
}
