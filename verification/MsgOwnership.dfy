/** `zmq_msg_t` and the memory behind it: malloc blocks, boxed byte strings and buffers
    handed over by the application. Messages are slots that C code initialises, moves,
    copies, sends, receives into and closes. */
module MsgOwnership {
  import opened Words
  import opened Options
  import opened MultipartFrames

  const LARGE_MSG_SHARED_THRESHOLD := 64
  const SMALL_FRAME := 128

  type BlockId = nat
  type MsgId = nat

  datatype BlockKind = Malloc | Boxed | Handed | Borrowed

  /** A piece of memory and how often it has been released. A `Borrowed` buffer came without
      a free function: it stays with the application. */
  datatype Block = Block(kind: BlockKind, bytes: Bytes, releases: nat)

  type Blocks = map<BlockId, Block>

  datatype Meta = Meta(more: bool, group: Bytes, routingId: Word32)

  /** The storage kinds. `ptr` is absent for a null pointer, which only empty data has. */
  datatype Repr =
    | EmptyMsg(meta: Meta)
    | HeapMsg(meta: Meta, size: nat, ptr: Option<BlockId>, shared: bool)
    | ExternalMsg(meta: Meta, size: nat, ptr: Option<BlockId>)
    | BytesMsg(meta: Meta, size: nat, ptr: Option<BlockId>)

  const CLEARED := EmptyMsg(Meta(false, [], 0))

  function Pointer(r: Repr): Option<BlockId> {
    if r.EmptyMsg? then None else r.ptr
  }

  function Size(r: Repr): nat {
    if r.EmptyMsg? then 0 else r.size
  }

  predicate KindMatches(r: Repr, k: BlockKind) {
    match r
    case EmptyMsg(_) => false
    case HeapMsg(_, _, _, _) => k == Malloc
    case ExternalMsg(_, _, _) => k == Handed || k == Borrowed
    case BytesMsg(_, _, _) => k == Boxed
  }

  /** A message's pointer leads to live memory of its kind and size. */
  predicate Backed(r: Repr, blocks: Blocks) {
    match Pointer(r)
    case None => Size(r) == 0 && !r.BytesMsg?
    case Some(b) =>
      && b in blocks && KindMatches(r, blocks[b].kind)
      && blocks[b].releases == 0 && |blocks[b].bytes| == Size(r)
  }

  /** The block a message must release. */
  predicate Owns(r: Repr, b: BlockId, blocks: Blocks) {
    Pointer(r) == Some(b) && b in blocks && blocks[b].kind != Borrowed
  }

  function Contents(r: Repr, blocks: Blocks): Bytes
    requires Backed(r, blocks)
  {
    match Pointer(r)
    case None => []
    case Some(b) => blocks[b].bytes
  }

  // ---- Ownership ----

  type Msgs = map<MsgId, Repr>
  type Owners = map<BlockId, MsgId>

  /** The message slots, the memory, the next block to be allocated, and as history the owner
      of each block that the library must release. */
  datatype Heap = Heap(msgs: Msgs, blocks: Blocks, next: BlockId, owner: Owners)

  const EMPTY_HEAP := Heap(map[], map[], 0, map[])

  predicate AllBacked(msgs: Msgs, blocks: Blocks) {
    forall k :: k in msgs ==> Backed(msgs[k], blocks)
  }

  /** An owning message is the recorded owner of its block. */
  predicate Registered(msgs: Msgs, blocks: Blocks, owner: Owners, k: MsgId)
    requires k in msgs
  {
    forall b :: b in blocks && Owns(msgs[k], b, blocks) ==> b in owner && owner[b] == k
  }

  /** Ownership is a one-to-one correspondence between owning messages and owned blocks. */
  predicate OwnersAgree(msgs: Msgs, blocks: Blocks, owner: Owners) {
    && (forall k :: k in msgs ==> Registered(msgs, blocks, owner, k))
    && (forall b :: b in owner ==> b in blocks && owner[b] in msgs && Owns(msgs[owner[b]], b, blocks))
  }

  /** Nothing leaks and nothing is released twice: a block that the library must release is
      either owned and live or has been released exactly once. */
  predicate Accounted(blocks: Blocks, owner: Owners) {
    forall b :: b in blocks && blocks[b].kind != Borrowed ==>
      blocks[b].releases == if b in owner then 0 else 1
  }

  ghost predicate Dense(blocks: Blocks, next: BlockId) {
    forall b: BlockId :: b in blocks <==> b < next
  }

  ghost predicate Sound(h: Heap) {
    && Dense(h.blocks, h.next)
    && AllBacked(h.msgs, h.blocks)
    && OwnersAgree(h.msgs, h.blocks, h.owner)
    && Accounted(h.blocks, h.owner)
  }

  /** A slot that holds nothing to release: never initialised, or closed. */
  predicate Closed(h: Heap, k: MsgId) {
    k !in h.msgs || Pointer(h.msgs[k]).None?
  }

  lemma BackedAt(h: Heap, k: MsgId)
    requires Sound(h) && k in h.msgs
    ensures Backed(h.msgs[k], h.blocks)
    ensures Pointer(h.msgs[k]).Some? ==> Pointer(h.msgs[k]).value < h.next
  {
  }

  /** Every block has at most one owner. */
  lemma OneOwner(h: Heap, j: MsgId, k: MsgId, b: BlockId)
    requires Sound(h) && j in h.msgs && k in h.msgs
    requires Owns(h.msgs[j], b, h.blocks) && Owns(h.msgs[k], b, h.blocks)
    ensures j == k
  {
    assert Registered(h.msgs, h.blocks, h.owner, j) && Registered(h.msgs, h.blocks, h.owner, k);
  }

  /** Every live block of the library has an owner, and a released one has none. */
  lemma NoLeak(h: Heap, b: BlockId)
    requires Sound(h) && b in h.blocks && h.blocks[b].kind != Borrowed
    ensures h.blocks[b].releases <= 1
    ensures h.blocks[b].releases == 0 <==> exists k :: k in h.msgs && Owns(h.msgs[k], b, h.blocks)
  {
    if b in h.owner {
      assert Owns(h.msgs[h.owner[b]], b, h.blocks);
    }
    forall k | k in h.msgs && Owns(h.msgs[k], b, h.blocks) ensures b in h.owner {
      assert Registered(h.msgs, h.blocks, h.owner, k);
    }
  }

  /** Initialising a message that still owns memory would lose it: nobody owns the block and
      it has not been released. */
  lemma ReinitLeaks(h: Heap, k: MsgId, b: BlockId, j: MsgId)
    requires Sound(h) && k in h.msgs && Owns(h.msgs[k], b, h.blocks)
    requires j in Plain(h, k, CLEARED).msgs
    ensures h.blocks[b].releases == 0 && !Owns(Plain(h, k, CLEARED).msgs[j], b, h.blocks)
  {
    assert Registered(h.msgs, h.blocks, h.owner, k);
    assert j in h.msgs && Registered(h.msgs, h.blocks, h.owner, j);
  }

  // ---- Elementary changes ----

  /** A message that points nowhere is put into a slot. */
  function Plain(h: Heap, k: MsgId, r: Repr): Heap {
    h.(msgs := h.msgs[k := r])
  }

  lemma PlainKeeps(h: Heap, k: MsgId, r: Repr)
    requires Sound(h) && Closed(h, k) && Pointer(r).None? && Backed(r, h.blocks)
    ensures Sound(Plain(h, k, r))
  {
    var msgs := h.msgs[k := r];
    forall j | j in msgs ensures Registered(msgs, h.blocks, h.owner, j) {
      assert j != k ==> Registered(h.msgs, h.blocks, h.owner, j);
    }
  }

  /** Fresh memory is attached to a slot. */
  function Attach(h: Heap, k: MsgId, r: Repr, kind: BlockKind, bytes: Bytes): Heap {
    Heap(h.msgs[k := r], h.blocks[h.next := Block(kind, bytes, 0)], h.next + 1,
         if kind == Borrowed then h.owner else h.owner[h.next := k])
  }

  lemma AttachKeeps(h: Heap, k: MsgId, r: Repr, kind: BlockKind, bytes: Bytes)
    requires Sound(h) && Closed(h, k)
    requires Pointer(r) == Some(h.next) && Size(r) == |bytes| && KindMatches(r, kind)
    ensures Sound(Attach(h, k, r, kind, bytes))
    ensures h.next !in h.blocks
    ensures var h' := Attach(h, k, r, kind, bytes);
            && Backed(h'.msgs[k], h'.blocks) && Contents(h'.msgs[k], h'.blocks) == bytes
            && (Owns(h'.msgs[k], h.next, h'.blocks) <==> kind != Borrowed)
  {
    var h' := Attach(h, k, r, kind, bytes);
    forall j | j in h'.msgs ensures Backed(h'.msgs[j], h'.blocks) && Registered(h'.msgs, h'.blocks, h'.owner, j) {
      assert j != k ==> Backed(h.msgs[j], h.blocks) && Registered(h.msgs, h.blocks, h.owner, j);
    }
  }

  /** Attaching leaves the memory of every other message alone. */
  lemma AttachSpares(h: Heap, k: MsgId, r: Repr, kind: BlockKind, bytes: Bytes, j: MsgId)
    requires Sound(h) && j in h.msgs && j != k
    ensures var h' := Attach(h, k, r, kind, bytes);
            && Backed(h.msgs[j], h.blocks) && Backed(h'.msgs[j], h'.blocks)
            && Contents(h'.msgs[j], h'.blocks) == Contents(h.msgs[j], h.blocks)
  {
  }

  function Released(r: Repr, blocks: Blocks): Blocks {
    match Pointer(r)
    case None => blocks
    case Some(b) =>
      if b in blocks && blocks[b].kind != Borrowed then blocks[b := blocks[b].(releases := blocks[b].releases + 1)]
      else blocks
  }

  function Disowned(r: Repr, blocks: Blocks, owner: Owners): Owners {
    match Pointer(r)
    case None => owner
    case Some(b) => if b in blocks && blocks[b].kind != Borrowed then owner - {b} else owner
  }

  /** Closing releases what the message owns, and nothing else, and clears it. */
  function Close(h: Heap, k: MsgId): Heap
    requires k in h.msgs
  {
    Heap(h.msgs[k := CLEARED], Released(h.msgs[k], h.blocks), h.next, Disowned(h.msgs[k], h.blocks, h.owner))
  }

  lemma CloseKeeps(h: Heap, k: MsgId)
    requires Sound(h) && k in h.msgs
    ensures Sound(Close(h, k))
  {
    var h' := Close(h, k);
    assert Registered(h.msgs, h.blocks, h.owner, k);
    forall j | j in h'.msgs ensures Backed(h'.msgs[j], h'.blocks) && Registered(h'.msgs, h'.blocks, h'.owner, j) {
      assert j != k ==> Backed(h.msgs[j], h.blocks) && Registered(h.msgs, h.blocks, h.owner, j);
    }
  }

  /** Closing one message leaves the memory of every other alone. */
  lemma CloseSpares(h: Heap, k: MsgId, j: MsgId)
    requires Sound(h) && k in h.msgs && j in h.msgs && j != k
    ensures Backed(h.msgs[j], h.blocks) && Backed(h.msgs[j], Close(h, k).blocks)
    ensures Contents(h.msgs[j], Close(h, k).blocks) == Contents(h.msgs[j], h.blocks)
  {
    assert Registered(h.msgs, h.blocks, h.owner, j) && Registered(h.msgs, h.blocks, h.owner, k);
  }

  /** A closed message's block has been released once, and no other block has changed. */
  lemma CloseReleases(h: Heap, k: MsgId, b: BlockId)
    requires Sound(h) && k in h.msgs && b in h.blocks
    ensures b in Close(h, k).blocks
    ensures var n := if Owns(h.msgs[k], b, h.blocks) then 1 else h.blocks[b].releases;
            Close(h, k).blocks[b] == h.blocks[b].(releases := n)
    ensures Close(h, k).msgs == h.msgs[k := EmptyMsg(Meta(false, [], 0))]
  {
    assert Registered(h.msgs, h.blocks, h.owner, k);
  }

  // ---- The operations ----

  /** `zmq_msg_init_size` and `zmq_msg_init_buffer`: `memory` is the block `malloc` returned,
      if it did not return null. A null for size zero is a success. */
  function InitSize(h: Heap, k: MsgId, size: nat, memory: Option<Bytes>): (bool, Heap) {
    match memory
    case None =>
      if size > 0 then (false, h) else (true, Plain(h, k, HeapMsg(CLEARED.meta, 0, None, false)))
    case Some(bytes) =>
      (true, Attach(h, k, HeapMsg(CLEARED.meta, |bytes|, Some(h.next), false), Malloc, bytes))
  }

  lemma InitSizeMeans(h: Heap, k: MsgId, size: nat, memory: Option<Bytes>)
    requires Sound(h) && Closed(h, k) && (memory.Some? ==> |memory.value| == size)
    ensures var (ok, h') := InitSize(h, k, size, memory);
            && Sound(h') && (ok <==> memory.Some? || size == 0) && (!ok ==> h' == h)
            && (ok ==> && k in h'.msgs && Backed(h'.msgs[k], h'.blocks)
                       && Contents(h'.msgs[k], h'.blocks) == (if memory.Some? then memory.value else [])
                       && h'.msgs[k].meta == Meta(false, [], 0))
            && (memory.Some? ==>
                  && h.next !in h.blocks && Owns(h'.msgs[k], h.next, h'.blocks)
                  && h'.owner == h.owner[h.next := k])
  {
    hide Sound;
    match memory {
      case None =>
        if size == 0 {
          PlainKeeps(h, k, HeapMsg(CLEARED.meta, 0, None, false));
        }
      case Some(bytes) =>
        AttachKeeps(h, k, HeapMsg(CLEARED.meta, |bytes|, Some(h.next), false), Malloc, bytes);
    }
  }

  /** `zmq_msg_init_data`: the buffer is handed over if it comes with a free function. */
  function InitData(h: Heap, k: MsgId, buffer: Option<Bytes>, hasFree: bool): Heap {
    match buffer
    case None => Plain(h, k, ExternalMsg(CLEARED.meta, 0, None))
    case Some(bytes) =>
      Attach(h, k, ExternalMsg(CLEARED.meta, |bytes|, Some(h.next)), if hasFree then Handed else Borrowed, bytes)
  }

  lemma InitDataMeans(h: Heap, k: MsgId, buffer: Option<Bytes>, hasFree: bool)
    requires Sound(h) && Closed(h, k)
    ensures var h' := InitData(h, k, buffer, hasFree);
            && Sound(h') && k in h'.msgs && Backed(h'.msgs[k], h'.blocks)
            && Contents(h'.msgs[k], h'.blocks) == (if buffer.Some? then buffer.value else [])
            && h'.msgs[k].meta == Meta(false, [], 0)
            && forall b :: Owns(h'.msgs[k], b, h'.blocks) <==> buffer.Some? && hasFree && b == h.next
  {
    hide Sound;
    match buffer {
      case None => PlainKeeps(h, k, ExternalMsg(CLEARED.meta, 0, None));
      case Some(bytes) =>
        var kind := if hasFree then Handed else Borrowed;
        AttachKeeps(h, k, ExternalMsg(CLEARED.meta, |bytes|, Some(h.next)), kind, bytes);
    }
  }

  /** The setters for MORE, group and routing ID. */
  function SetMeta(h: Heap, k: MsgId, meta: Meta): Heap
    requires k in h.msgs
  {
    h.(msgs := h.msgs[k := h.msgs[k].(meta := meta)])
  }

  lemma SetMetaKeeps(h: Heap, k: MsgId, meta: Meta)
    requires Sound(h) && k in h.msgs
    ensures Sound(SetMeta(h, k, meta))
  {
    var msgs := SetMeta(h, k, meta).msgs;
    forall j | j in msgs ensures Registered(msgs, h.blocks, h.owner, j) {
      assert Registered(h.msgs, h.blocks, h.owner, j);
    }
  }

  function MovedOwner(r: Repr, blocks: Blocks, owner: Owners, dst: MsgId): Owners {
    match Pointer(r)
    case None => owner
    case Some(b) => if b in blocks && blocks[b].kind != Borrowed then owner[b := dst] else owner
  }

  /** The contents of `src` and their ownership pass to the closed slot `dst`. */
  function Transfer(h: Heap, dst: MsgId, src: MsgId): Heap
    requires src in h.msgs
  {
    h.(msgs := h.msgs[dst := h.msgs[src]][src := CLEARED], owner := MovedOwner(h.msgs[src], h.blocks, h.owner, dst))
  }

  lemma TransferBacked(h: Heap, dst: MsgId, src: MsgId)
    requires AllBacked(h.msgs, h.blocks) && src in h.msgs
    ensures AllBacked(Transfer(h, dst, src).msgs, h.blocks)
  {
  }

  lemma TransferRegisters(h: Heap, dst: MsgId, src: MsgId)
    requires OwnersAgree(h.msgs, h.blocks, h.owner) && src in h.msgs && dst != src && Closed(h, dst)
    ensures var h' := Transfer(h, dst, src); OwnersAgree(h'.msgs, h'.blocks, h'.owner)
  {
    hide KindMatches;
    var h' := Transfer(h, dst, src);
    assert Registered(h.msgs, h.blocks, h.owner, src);
    forall j | j in h'.msgs ensures Registered(h'.msgs, h.blocks, h'.owner, j) {
      assert j != src && j != dst ==> Registered(h.msgs, h.blocks, h.owner, j);
    }
  }

  lemma TransferAccounts(h: Heap, dst: MsgId, src: MsgId)
    requires OwnersAgree(h.msgs, h.blocks, h.owner) && Accounted(h.blocks, h.owner) && src in h.msgs
    ensures Accounted(h.blocks, Transfer(h, dst, src).owner)
  {
    hide KindMatches;
    assert Registered(h.msgs, h.blocks, h.owner, src);
  }

  lemma TransferKeeps(h: Heap, dst: MsgId, src: MsgId)
    requires Sound(h) && src in h.msgs && dst != src && Closed(h, dst)
    ensures Sound(Transfer(h, dst, src))
  {
    hide Dense, AllBacked, OwnersAgree, Accounted, Closed, MovedOwner;
    TransferBacked(h, dst, src);
    TransferRegisters(h, dst, src);
    TransferAccounts(h, dst, src);
  }

  /** Moving closes the destination first and leaves the source empty. */
  function Move(h: Heap, dst: MsgId, src: MsgId): Heap
    requires dst in h.msgs && src in h.msgs
  {
    if dst == src then h else Transfer(Close(h, dst), dst, src)
  }

  lemma MoveMeans(h: Heap, dst: MsgId, src: MsgId)
    requires Sound(h) && dst in h.msgs && src in h.msgs
    ensures var h' := Move(h, dst, src);
            && Sound(h') && dst in h'.msgs && Backed(h.msgs[src], h.blocks) && Backed(h'.msgs[dst], h'.blocks)
            && Contents(h'.msgs[dst], h'.blocks) == Contents(h.msgs[src], h.blocks)
            && (dst != src ==> h'.msgs == h.msgs[dst := h.msgs[src]][src := EmptyMsg(Meta(false, [], 0))])
  {
    hide Sound, Backed, Contents, Released;
    BackedAt(h, src);
    if dst != src {
      CloseKeeps(h, dst);
      CloseSpares(h, dst, src);
      TransferKeeps(Close(h, dst), dst, src);
    }
  }

  /** The part of a copy after the destination has been closed. */
  function Duplicate(h: Heap, dst: MsgId, src: MsgId, mallocOk: bool): (bool, Heap)
    requires src in h.msgs && Backed(h.msgs[src], h.blocks)
  {
    var s := h.msgs[src];
    if s.EmptyMsg? then (true, h)
    else if s.BytesMsg? then
      (true, Attach(h, dst, BytesMsg(s.meta, s.size, Some(h.next)), Boxed, Contents(s, h.blocks)))
    else
      var shared := s.ExternalMsg? || s.size >= LARGE_MSG_SHARED_THRESHOLD;
      if s.size == 0 then (true, Plain(h, dst, HeapMsg(s.meta, 0, None, shared)))
      else if !mallocOk then (false, h)
      else (true, Attach(h, dst, HeapMsg(s.meta, s.size, Some(h.next), shared), Malloc, Contents(s, h.blocks)))
  }

  lemma DuplicateMeans(h: Heap, dst: MsgId, src: MsgId, mallocOk: bool)
    requires Sound(h) && dst != src && dst in h.msgs && src in h.msgs && h.msgs[dst] == CLEARED
    ensures Backed(h.msgs[src], h.blocks)
    ensures var (ok, h') := Duplicate(h, dst, src, mallocOk);
            && Sound(h') && dst in h'.msgs && src in h'.msgs && h'.msgs[src] == h.msgs[src]
            && Backed(h'.msgs[src], h'.blocks) && Contents(h'.msgs[src], h'.blocks) == Contents(h.msgs[src], h.blocks)
            && (ok ==>
                  && Backed(h'.msgs[dst], h'.blocks)
                  && Contents(h'.msgs[dst], h'.blocks) == Contents(h.msgs[src], h.blocks))
            && (ok ==> h'.msgs[dst].meta == if h.msgs[src].EmptyMsg? then Meta(false, [], 0) else h.msgs[src].meta)
            && (ok ==> (h'.msgs[dst].EmptyMsg? <==> h.msgs[src].EmptyMsg?))
            && (ok ==> (h'.msgs[dst].BytesMsg? <==> h.msgs[src].BytesMsg?))
            && (ok && h'.msgs[dst].HeapMsg? ==>
                  h'.msgs[dst].shared == (h.msgs[src].ExternalMsg? || Size(h.msgs[src]) >= 64))
            && (ok ==> !h'.msgs[dst].ExternalMsg?)
            && (ok && Pointer(h'.msgs[dst]).Some? ==> Pointer(h'.msgs[dst]) == Some(h.next))
            && (!ok ==> h' == h && Size(h.msgs[src]) > 0 && !mallocOk)
  {
    hide Sound;
    BackedAt(h, src);
    var s := h.msgs[src];
    var bytes := Contents(s, h.blocks);
    if s.EmptyMsg? {
    } else if s.BytesMsg? {
      AttachKeeps(h, dst, BytesMsg(s.meta, s.size, Some(h.next)), Boxed, bytes);
      AttachSpares(h, dst, BytesMsg(s.meta, s.size, Some(h.next)), Boxed, bytes, src);
    } else {
      var shared := s.ExternalMsg? || s.size >= LARGE_MSG_SHARED_THRESHOLD;
      if s.size == 0 {
        PlainKeeps(h, dst, HeapMsg(s.meta, 0, None, shared));
      } else if mallocOk {
        AttachKeeps(h, dst, HeapMsg(s.meta, s.size, Some(h.next), shared), Malloc, bytes);
        AttachSpares(h, dst, HeapMsg(s.meta, s.size, Some(h.next), shared), Malloc, bytes, src);
      }
    }
  }

  /** Copying closes the destination first. */
  function Copy(h: Heap, dst: MsgId, src: MsgId, mallocOk: bool): (bool, Heap)
    requires Sound(h) && dst in h.msgs && src in h.msgs
  {
    if dst == src then (true, h)
    else
      CloseKeeps(h, dst);
      Duplicate(Close(h, dst), dst, src, mallocOk)
  }

  /** The copy holds equal bytes and metadata, in memory of its own, and the source is
      untouched; if memory runs out the destination is left empty. */
  lemma CopyMeans(h: Heap, dst: MsgId, src: MsgId, mallocOk: bool)
    requires Sound(h) && dst != src && dst in h.msgs && src in h.msgs
    ensures Backed(h.msgs[src], h.blocks)
    ensures var (ok, h') := Copy(h, dst, src, mallocOk);
            && Sound(h') && dst in h'.msgs && src in h'.msgs && h'.msgs[src] == h.msgs[src]
            && Backed(h'.msgs[src], h'.blocks) && Contents(h'.msgs[src], h'.blocks) == Contents(h.msgs[src], h.blocks)
            && (ok ==>
                  && Backed(h'.msgs[dst], h'.blocks)
                  && Contents(h'.msgs[dst], h'.blocks) == Contents(h.msgs[src], h.blocks))
            && (ok ==> h'.msgs[dst].meta == if h.msgs[src].EmptyMsg? then Meta(false, [], 0) else h.msgs[src].meta)
            && (ok ==> (h'.msgs[dst].EmptyMsg? <==> h.msgs[src].EmptyMsg?))
            && (ok ==> (h'.msgs[dst].BytesMsg? <==> h.msgs[src].BytesMsg?))
            && (ok && h'.msgs[dst].HeapMsg? ==>
                  h'.msgs[dst].shared == (h.msgs[src].ExternalMsg? || Size(h.msgs[src]) >= 64))
            && (ok ==> !h'.msgs[dst].ExternalMsg?)
            && (ok && Pointer(h'.msgs[dst]).Some? ==> Pointer(h'.msgs[dst]) == Some(h.next) && h.next !in h.blocks)
            && (!ok ==> h'.msgs[dst] == EmptyMsg(Meta(false, [], 0)) && Size(h.msgs[src]) > 0 && !mallocOk)
  {
    hide Sound, Backed, Contents, Released, Duplicate;
    CloseKeeps(h, dst);
    CloseSpares(h, dst, src);
    DuplicateMeans(Close(h, dst), dst, src, mallocOk);
    NextIsFresh(h);
  }

  lemma NextIsFresh(h: Heap)
    requires Sound(h)
    ensures h.next !in h.blocks
  {
  }

  /** What a send puts before the body: the group, if there is one. */
  function WithGroup(o: Outbox, group: Bytes): Outbox {
    if group == [] then o else o.(accum := o.accum + [group])
  }

  /** `zmq_msg_send` on a plain or a SERVER socket: the group is buffered first, whatever
      happens then; the message is closed only if the send succeeds. */
  function Send(h: Heap, o: Outbox, server: bool, k: MsgId, more: bool, w: SendWorld)
    : (SendResult, Heap, Outbox)
    requires k in h.msgs && Backed(h.msgs[k], h.blocks)
  {
    var m := h.msgs[k];
    var body, o1 := Contents(m, h.blocks), WithGroup(o, m.meta.group);
    var (r, o2) := if server then SendReply(o1, m.meta.routingId, body, more, w) else SendFrame(o1, body, more, w);
    (r, if r.SendOk? then Close(h, k) else h, o2)
  }

  /** A failed send changes no message and no memory. The group stays buffered in the socket,
      unless a plain send got as far as handing the message over. */
  lemma SendMeans(h: Heap, o: Outbox, server: bool, k: MsgId, more: bool, w: SendWorld)
    requires Sound(h) && k in h.msgs
    ensures Backed(h.msgs[k], h.blocks)
    ensures var (r, h', o') := Send(h, o, server, k, more, w);
            var queued, id := WithGroup(o, h.msgs[k].meta.group).accum, h.msgs[k].meta.routingId;
            var body := Contents(h.msgs[k], h.blocks);
            && Sound(h') && (!r.SendOk? ==> h' == h) && (r.SendOk? ==> h' == Close(h, k))
            && (r.SendOk? && !server && !more ==> o'.submitted == o.submitted + [queued + [body]] && o'.accum == [])
            && (r.SendOk? && !server && more ==> o'.submitted == o.submitted && o'.accum == queued + [body])
            && (r.SendOk? && server ==> o'.routed == o.routed + [Routed(id, body)] && o'.accum == queued)
            && (!r.SendOk? ==> o'.submitted == o.submitted && o'.routed == o.routed
                               && o'.accum == if !server && r.why.NotSubmitted? then [] else queued)
  {
    hide Sound, Released;
    BackedAt(h, k);
    CloseKeeps(h, k);
    var queued, body := WithGroup(o, h.msgs[k].meta.group).accum, Contents(h.msgs[k], h.blocks);
    assert queued == [] ==> queued + [body] == [body];
  }

  /** What `zmq_msg_recv` gets from the socket; the routing ID is zero but for SERVER. */
  datatype Incoming = Incoming(bytes: Bytes, more: bool, routingId: Word32)

  /** `zmq_msg_recv`: the message is closed first; small frames are copied to a malloc block,
      large ones are boxed. */
  function Receive(h: Heap, k: MsgId, frame: Option<Incoming>, mallocOk: bool): (bool, Heap)
    requires k in h.msgs
  {
    match frame
    case None => (false, h)
    case Some(f) =>
      var h1, meta, n := Close(h, k), Meta(f.more, [], f.routingId), |f.bytes|;
      if n > SMALL_FRAME then (true, Attach(h1, k, BytesMsg(meta, n, Some(h1.next)), Boxed, f.bytes))
      else if n == 0 then (true, Plain(h1, k, HeapMsg(meta, 0, None, false)))
      else if mallocOk then (true, Attach(h1, k, HeapMsg(meta, n, Some(h1.next), false), Malloc, f.bytes))
      else (false, h1)
  }

  lemma ReceiveMeans(h: Heap, k: MsgId, frame: Option<Incoming>, mallocOk: bool)
    requires Sound(h) && k in h.msgs
    ensures var (ok, h') := Receive(h, k, frame, mallocOk);
            && Sound(h') && k in h'.msgs
            && (frame.None? ==> !ok && h' == h)
            && (frame.Some? && !ok ==> h' == Close(h, k) && !mallocOk && 0 < |frame.value.bytes| <= 128)
            && (ok ==> && frame.Some? && Backed(h'.msgs[k], h'.blocks)
                       && Contents(h'.msgs[k], h'.blocks) == frame.value.bytes
                       && h'.msgs[k].meta == Meta(frame.value.more, [], frame.value.routingId)
                       && (h'.msgs[k].BytesMsg? <==> |frame.value.bytes| > 128)
                       && h'.msgs == h.msgs[k := h'.msgs[k]])
  {
    hide Sound, Released;
    if frame.Some? {
      CloseKeeps(h, k);
      var h1, f := Close(h, k), frame.value;
      var meta, n := Meta(f.more, [], f.routingId), |f.bytes|;
      if n > SMALL_FRAME {
        AttachKeeps(h1, k, BytesMsg(meta, n, Some(h1.next)), Boxed, f.bytes);
      } else if n == 0 {
        PlainKeeps(h1, k, HeapMsg(meta, 0, None, false));
      } else if mallocOk {
        AttachKeeps(h1, k, HeapMsg(meta, n, Some(h1.next), false), Malloc, f.bytes);
      }
    }
  }

  // ---- Whole lives ----

  /** The operations of an application, with what memory and sockets answer. */
  datatype Op =
    | InitOp(k: MsgId)
    | InitSizeOp(k: MsgId, size: nat, memory: Option<Bytes>)
    | InitDataOp(k: MsgId, buffer: Option<Bytes>, hasFree: bool)
    | SetMetaOp(k: MsgId, meta: Meta)
    | CloseOp(k: MsgId)
    | MoveOp(dst: MsgId, src: MsgId)
    | CopyOp(dst: MsgId, src: MsgId, mallocOk: bool)
    | SendOp(k: MsgId, server: bool, more: bool, w: SendWorld)
    | ReceiveOp(k: MsgId, frame: Option<Incoming>, mallocOk: bool)

  /** The discipline asked of the application: only closed messages are initialised, and only
      initialised ones are used. `malloc` returns blocks of the size asked for. */
  predicate Allowed(op: Op, h: Heap) {
    match op
    case InitOp(k) => Closed(h, k)
    case InitSizeOp(k, size, memory) => Closed(h, k) && (memory.Some? ==> |memory.value| == size)
    case InitDataOp(k, _, _) => Closed(h, k)
    case SetMetaOp(k, _) => k in h.msgs
    case CloseOp(k) => k in h.msgs
    case MoveOp(dst, src) => dst in h.msgs && src in h.msgs
    case CopyOp(dst, src, _) => dst in h.msgs && src in h.msgs
    case SendOp(k, _, _, _) => k in h.msgs
    case ReceiveOp(k, _, _) => k in h.msgs
  }

  /** The memory of an application and the socket it sends on. */
  datatype Program = Program(heap: Heap, out: Outbox)

  function Perform(p: Program, op: Op): Program
    requires Sound(p.heap) && Allowed(op, p.heap)
  {
    var h := p.heap;
    match op
    case InitOp(k) => p.(heap := Plain(h, k, CLEARED))
    case InitSizeOp(k, size, memory) => p.(heap := InitSize(h, k, size, memory).1)
    case InitDataOp(k, buffer, hasFree) => p.(heap := InitData(h, k, buffer, hasFree))
    case SetMetaOp(k, meta) => p.(heap := SetMeta(h, k, meta))
    case CloseOp(k) => p.(heap := Close(h, k))
    case MoveOp(dst, src) => p.(heap := Move(h, dst, src))
    case CopyOp(dst, src, mallocOk) => p.(heap := Copy(h, dst, src, mallocOk).1)
    case SendOp(k, server, more, w) =>
      BackedAt(h, k);
      var (_, h', o') := Send(h, p.out, server, k, more, w);
      Program(h', o')
    case ReceiveOp(k, frame, mallocOk) => p.(heap := Receive(h, k, frame, mallocOk).1)
  }

  lemma PerformKeeps(p: Program, op: Op)
    requires Sound(p.heap) && Allowed(op, p.heap)
    ensures Sound(Perform(p, op).heap)
  {
    hide Sound, Backed, Contents, Released, InitSize, InitData, SetMeta, Move, Copy, Send, Receive;
    var h := p.heap;
    match op {
      case InitOp(k) => ClearedKeeps(h, k);
      case InitSizeOp(k, size, memory) => InitSizeMeans(h, k, size, memory);
      case InitDataOp(k, buffer, hasFree) => InitDataMeans(h, k, buffer, hasFree);
      case SetMetaOp(k, meta) => SetMetaKeeps(h, k, meta);
      case CloseOp(k) => CloseKeeps(h, k);
      case MoveOp(dst, src) => MoveMeans(h, dst, src);
      case CopyOp(dst, src, mallocOk) => CopyKeeps(h, dst, src, mallocOk);
      case SendOp(k, server, more, w) => SendMeans(h, p.out, server, k, more, w);
      case ReceiveOp(k, frame, mallocOk) => ReceiveMeans(h, k, frame, mallocOk);
    }
  }

  lemma ClearedKeeps(h: Heap, k: MsgId)
    requires Sound(h) && Closed(h, k)
    ensures Sound(Plain(h, k, CLEARED))
  {
    hide Sound;
    PlainKeeps(h, k, CLEARED);
  }

  lemma CopyKeeps(h: Heap, dst: MsgId, src: MsgId, mallocOk: bool)
    requires Sound(h) && dst in h.msgs && src in h.msgs
    ensures Sound(Copy(h, dst, src, mallocOk).1)
  {
    hide Sound;
    if dst != src {
      CopyMeans(h, dst, src, mallocOk);
    }
  }

  /** The operations that the discipline allows, one after the other. */
  function RunOps(ops: seq<Op>): (p: Program)
    ensures Sound(p.heap)
  {
    if ops == [] then Program(EMPTY_HEAP, NO_MAIL)
    else
      var p, op := RunOps(ops[..|ops| - 1]), ops[|ops| - 1];
      if Allowed(op, p.heap) then
        PerformKeeps(p, op);
        Perform(p, op)
      else p
  }

  function CloseEach(h: Heap, ks: seq<MsgId>): (r: Heap)
    requires forall i :: 0 <= i < |ks| ==> ks[i] in h.msgs
    ensures r.msgs.Keys == h.msgs.Keys && r.next == h.next
  {
    if ks == [] then h else Close(CloseEach(h, ks[..|ks| - 1]), ks[|ks| - 1])
  }

  /** Closing messages in any order touches no block but to release it. */
  lemma {:induction false} CloseEachKeeps(h: Heap, ks: seq<MsgId>, b: BlockId)
    requires Sound(h) && (forall i :: 0 <= i < |ks| ==> ks[i] in h.msgs) && b in h.blocks
    ensures var h' := CloseEach(h, ks);
            && Sound(h') && h'.msgs.Keys == h.msgs.Keys && h'.blocks.Keys == h.blocks.Keys
            && (forall i :: 0 <= i < |ks| ==> ks[i] in h'.msgs && h'.msgs[ks[i]] == CLEARED)
            && h'.blocks[b].kind == h.blocks[b].kind && h'.blocks[b].bytes == h.blocks[b].bytes
            && (h.blocks[b].kind == Borrowed ==> h'.blocks[b].releases == h.blocks[b].releases)
  {
    hide Sound, Owns;
    if ks != [] {
      var h1, k := CloseEach(h, ks[..|ks| - 1]), ks[|ks| - 1];
      CloseEachKeeps(h, ks[..|ks| - 1], b);
      CloseKeeps(h1, k);
      CloseReleases(h1, k, b);
      BorrowedNotOwned(h1, k, b);
      SameBlocks(h1, k);
    }
  }

  lemma SameBlocks(h: Heap, k: MsgId)
    requires k in h.msgs
    ensures Close(h, k).blocks.Keys == h.blocks.Keys
  {
  }

  lemma BorrowedNotOwned(h: Heap, k: MsgId, b: BlockId)
    requires k in h.msgs && b in h.blocks
    ensures h.blocks[b].kind == Borrowed ==> !Owns(h.msgs[k], b, h.blocks)
  {
  }

  /** Over every disciplined run that ends by closing all messages, in any order: exactly the
      blocks the run created exist, with the bytes they were created with, and each one the
      library became responsible for has been released exactly once. */
  lemma WholeLife(ops: seq<Op>, ks: seq<MsgId>, b: BlockId)
    requires var h := RunOps(ops).heap;
             && (forall i :: 0 <= i < |ks| ==> ks[i] in h.msgs)
             && (forall k :: k in h.msgs ==> k in ks)
    requires b < RunOps(ops).heap.next
    ensures var h := RunOps(ops).heap;
            var h' := CloseEach(h, ks);
            && b in h.blocks && h'.blocks.Keys == h.blocks.Keys && h'.next == h.next
            && h'.blocks[b].kind == h.blocks[b].kind && h'.blocks[b].bytes == h.blocks[b].bytes
            && h'.blocks[b].releases == if h.blocks[b].kind == Borrowed then h.blocks[b].releases else 1
  {
    hide RunOps, Owns, Released, Disowned;
    var h := RunOps(ops).heap;
    assert b in h.blocks;
    CloseEachKeeps(h, ks, b);
    AllClearedReleased(CloseEach(h, ks), b);
  }

  lemma AllClearedReleased(h: Heap, b: BlockId)
    requires Sound(h) && b in h.blocks && forall k :: k in h.msgs ==> h.msgs[k] == CLEARED
    ensures h.blocks[b].kind != Borrowed ==> h.blocks[b].releases == 1
  {
    if h.blocks[b].kind != Borrowed {
      NoLeak(h, b);
    }
  }

  // ---- The slots in place ----

  class World {
    var msgs: Msgs
    var blocks: Blocks
    var next: BlockId
    ghost var owner: Owners

    ghost function View(): Heap
      reads this
    {
      Heap(msgs, blocks, next, owner)
    }

    constructor ()
      ensures View() == EMPTY_HEAP
    {
      msgs, blocks, next, owner := map[], map[], 0, map[];
    }

    method AttachMemory(k: MsgId, r: Repr, kind: BlockKind, bytes: Bytes)
      modifies this
      ensures View() == Attach(old(View()), k, r, kind, bytes)
    {
      blocks := blocks[next := Block(kind, bytes, 0)];
      msgs := msgs[k := r];
      owner := if kind == Borrowed then owner else owner[next := k];
      next := next + 1;
    }

    method MsgInit(k: MsgId)
      modifies `msgs
      ensures View() == Plain(old(View()), k, CLEARED)
      ensures msgs == old(msgs)[k := EmptyMsg(Meta(false, [], 0))]
    {
      msgs := msgs[k := CLEARED];
    }

    method MsgInitSize(k: MsgId, size: nat, memory: Option<Bytes>) returns (ok: bool)
      modifies this
      ensures (ok, View()) == InitSize(old(View()), k, size, memory)
    {
      if memory.None? {
        if size > 0 {
          return false;
        }
        msgs := msgs[k := HeapMsg(CLEARED.meta, 0, None, false)];
        return true;
      }
      AttachMemory(k, HeapMsg(CLEARED.meta, |memory.value|, Some(next), false), Malloc, memory.value);
      return true;
    }

    method MsgInitData(k: MsgId, buffer: Option<Bytes>, hasFree: bool)
      modifies this
      ensures View() == InitData(old(View()), k, buffer, hasFree)
    {
      if buffer.None? {
        msgs := msgs[k := ExternalMsg(CLEARED.meta, 0, None)];
      } else {
        var kind := if hasFree then Handed else Borrowed;
        AttachMemory(k, ExternalMsg(CLEARED.meta, |buffer.value|, Some(next)), kind, buffer.value);
      }
    }

    method MsgSetMeta(k: MsgId, meta: Meta)
      requires k in msgs
      modifies `msgs
      ensures View() == SetMeta(old(View()), k, meta)
    {
      msgs := msgs[k := msgs[k].(meta := meta)];
    }

    method MsgClose(k: MsgId)
      requires k in msgs
      modifies `msgs, `blocks, `owner
      ensures View() == Close(old(View()), k)
    {
      var r := msgs[k];
      owner := Disowned(r, blocks, owner);
      if Pointer(r).Some? {
        var b := Pointer(r).value;
        if b in blocks && blocks[b].kind != Borrowed {
          blocks := blocks[b := blocks[b].(releases := blocks[b].releases + 1)];
        }
      }
      msgs := msgs[k := CLEARED];
    }

    method MsgMove(dst: MsgId, src: MsgId)
      requires dst in msgs && src in msgs
      modifies `msgs, `blocks, `owner
      ensures View() == Move(old(View()), dst, src)
    {
      hide Released, Disowned;
      if dst == src {
        return;
      }
      MsgClose(dst);
      owner := MovedOwner(msgs[src], blocks, owner, dst);
      msgs := msgs[dst := msgs[src]][src := CLEARED];
    }

    method MsgCopy(dst: MsgId, src: MsgId, mallocOk: bool) returns (ok: bool)
      requires Sound(View()) && dst in msgs && src in msgs
      modifies this
      ensures (ok, View()) == Copy(old(View()), dst, src, mallocOk)
    {
      hide Sound, Released, Disowned, Backed, Contents;
      if dst == src {
        return true;
      }
      CloseKeeps(View(), dst);
      MsgClose(dst);
      var s := msgs[src];
      if s.EmptyMsg? {
        return true;
      }
      BackedAt(View(), src);
      var bytes := Contents(s, blocks);
      if s.BytesMsg? {
        AttachMemory(dst, BytesMsg(s.meta, s.size, Some(next)), Boxed, bytes);
        return true;
      }
      var shared := s.ExternalMsg? || s.size >= LARGE_MSG_SHARED_THRESHOLD;
      if s.size == 0 {
        msgs := msgs[dst := HeapMsg(s.meta, 0, None, shared)];
        return true;
      }
      if !mallocOk {
        return false;
      }
      AttachMemory(dst, HeapMsg(s.meta, s.size, Some(next), shared), Malloc, bytes);
      return true;
    }

    method MsgSend(k: MsgId, s: Sender, server: bool, more: bool, w: SendWorld) returns (r: SendResult)
      requires k in msgs && Backed(msgs[k], blocks)
      modifies `msgs, `blocks, `owner, s`accum, s`submitted, s`routed
      ensures (r, View(), s.View()) == Send(old(View()), old(s.View()), server, k, more, w)
    {
      hide Released, Disowned, SendFrame, SendReply;
      var m := msgs[k];
      var body := Contents(m, blocks);
      if m.meta.group != [] {
        s.accum := s.accum + [m.meta.group];
      }
      if server {
        r := s.SendMessage(m.meta.routingId, body, more, w);
      } else {
        r := s.SendBytes(body, more, w);
      }
      if r.SendOk? {
        MsgClose(k);
      }
    }

    method MsgRecv(k: MsgId, frame: Option<Incoming>, mallocOk: bool) returns (ok: bool)
      requires k in msgs
      modifies this
      ensures (ok, View()) == Receive(old(View()), k, frame, mallocOk)
    {
      hide Released, Disowned;
      if frame.None? {
        return false;
      }
      var f := frame.value;
      MsgClose(k);
      var meta := Meta(f.more, [], f.routingId);
      if |f.bytes| > SMALL_FRAME {
        AttachMemory(k, BytesMsg(meta, |f.bytes|, Some(next)), Boxed, f.bytes);
      } else if |f.bytes| > 0 {
        if !mallocOk {
          return false;
        }
        AttachMemory(k, HeapMsg(meta, |f.bytes|, Some(next), false), Malloc, f.bytes);
      } else {
        msgs := msgs[k := HeapMsg(meta, 0, None, false)];
      }
      return true;
    }
  }

  /** The object performs an operation of a program exactly as the function does. */
  method Do(w: World, s: Sender, op: Op)
    requires Sound(w.View()) && Allowed(op, w.View())
    modifies w, s
    ensures Program(w.View(), s.View()) == Perform(old(Program(w.View(), s.View())), op)
  {
    hide Sound, Backed, Contents, Plain, InitSize, InitData, SetMeta, Close, Move, Copy, Send, Receive;
    match op {
      case InitOp(k) => w.MsgInit(k);
      case InitSizeOp(k, size, memory) => var _ := w.MsgInitSize(k, size, memory);
      case InitDataOp(k, buffer, hasFree) => w.MsgInitData(k, buffer, hasFree);
      case SetMetaOp(k, meta) => w.MsgSetMeta(k, meta);
      case CloseOp(k) => w.MsgClose(k);
      case MoveOp(dst, src) => w.MsgMove(dst, src);
      case CopyOp(dst, src, mallocOk) => var _ := w.MsgCopy(dst, src, mallocOk);
      case SendOp(k, server, more, world) =>
        BackedAt(w.View(), k);
        var _ := w.MsgSend(k, s, server, more, world);
      case ReceiveOp(k, frame, mallocOk) => var _ := w.MsgRecv(k, frame, mallocOk);
    }
  }

  lemma RunOpsSnoc(ops: seq<Op>, i: nat)
    requires i < |ops|
    ensures var p := RunOps(ops[..i]);
            RunOps(ops[..i + 1]) == if Allowed(ops[i], p.heap) then Perform(p, ops[i]) else p
  {
    hide Perform, Allowed, Sound;
    assert ops[..i + 1][..i] == ops[..i];
  }

  /** The object goes through exactly the run that the operations spell. */
  method DoAll(w: World, s: Sender, ops: seq<Op>)
    requires w.View() == EMPTY_HEAP && s.View() == NO_MAIL
    modifies w, s
    ensures Program(w.View(), s.View()) == RunOps(ops)
  {
    hide Sound, Perform, RunOps;
    assert ops[..0] == [];
    NothingDone();
    for i := 0 to |ops|
      invariant Program(w.View(), s.View()) == RunOps(ops[..i])
    {
      RunOpsSnoc(ops, i);
      if Allowed(ops[i], Heap(w.msgs, w.blocks, w.next, map[])) {
        Do(w, s, ops[i]);
      }
    }
    assert ops[..|ops|] == ops;
  }

  lemma NothingDone()
    ensures RunOps([]) == Program(EMPTY_HEAP, NO_MAIL)
  {
    hide Sound;
  }
}
