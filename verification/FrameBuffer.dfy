/** The outgoing buffer of a connection: a rope of arena ranges and external chunks,
    followed by arena bytes not yet committed to an entry. Its meaning is the byte stream it
    still has to write. */
module FrameBuffer {
  import opened Words
  import opened Options
  import opened Message
  import opened FrameCodec

  datatype Entry =
    | Arena(offset: nat, len: nat, protected: bool)
    | External(bytes: Bytes, protected: bool)

  // ---- The meaning of a rope ----

  predicate InArena(e: Entry, mark: nat) {
    e.Arena? ==> 0 < e.len && e.offset + e.len <= mark
  }

  predicate AllInArena(entries: seq<Entry>, mark: nat) {
    forall i :: 0 <= i < |entries| ==> InArena(entries[i], mark)
  }

  function Meaning(e: Entry, arena: Bytes): Bytes
    requires InArena(e, |arena|)
  {
    match e
    case Arena(offset, len, _) => arena[offset..offset + len]
    case External(bytes, _) => bytes
  }

  /** The bytes of a list of entries, in order. */
  function Denote(entries: seq<Entry>, arena: Bytes): Bytes
    requires AllInArena(entries, |arena|)
  {
    if entries == [] then []
    else
      var last := |entries| - 1;
      Denote(entries[..last], arena) + Meaning(entries[last], arena)
  }

  function Concat(chunks: seq<Bytes>): Bytes {
    if chunks == [] then [] else Concat(chunks[..|chunks| - 1]) + chunks[|chunks| - 1]
  }

  lemma JoinInArena(a: seq<Entry>, b: seq<Entry>, mark: nat)
    ensures AllInArena(a, mark) && AllInArena(b, mark) <==> AllInArena(a + b, mark)
  {
    if AllInArena(a + b, mark) {
      assert forall i :: 0 <= i < |a| ==> a[i] == (a + b)[i];
      assert forall i :: 0 <= i < |b| ==> b[i] == (a + b)[|a| + i];
    }
  }

  lemma LastInArena(entries: seq<Entry>, mark: nat)
    requires AllInArena(entries, mark) && entries != []
    ensures AllInArena(entries[..|entries| - 1], mark) && InArena(entries[|entries| - 1], mark)
  {
  }

  lemma InLargerArena(entries: seq<Entry>, mark: nat, mark': nat)
    requires AllInArena(entries, mark) && mark <= mark'
    ensures AllInArena(entries, mark')
  {
  }

  lemma DenoteSnoc(entries: seq<Entry>, e: Entry, arena: Bytes)
    requires AllInArena(entries, |arena|) && InArena(e, |arena|)
    ensures AllInArena(entries + [e], |arena|)
    ensures Denote(entries + [e], arena) == Denote(entries, arena) + Meaning(e, arena)
  {
    hide Meaning;
    assert (entries + [e])[..|entries|] == entries;
  }

  lemma {:induction false} DenoteSplits(a: seq<Entry>, b: seq<Entry>, arena: Bytes)
    requires AllInArena(a, |arena|) && AllInArena(b, |arena|)
    ensures AllInArena(a + b, |arena|)
    ensures Denote(a + b, arena) == Denote(a, arena) + Denote(b, arena)
  {
    hide Meaning, AllInArena, InArena;
    JoinInArena(a, b, |arena|);
    if b == [] {
      assert a + b == a;
    } else {
      hide Denote;
      var init, e := b[..|b| - 1], b[|b| - 1];
      LastInArena(b, |arena|);
      DenoteSplits(a, init, arena);
      DenoteSnoc(a + init, e, arena);
      DenoteSnoc(init, e, arena);
      assert b == init + [e] && a + b == a + init + [e];
      var x, y, z := Denote(a, arena), Denote(init, arena), Meaning(e, arena);
      assert (x + y) + z == x + (y + z);
    }
  }

  lemma {:induction false} ConcatSplits(a: seq<Bytes>, b: seq<Bytes>)
    ensures Concat(a + b) == Concat(a) + Concat(b)
  {
    if b == [] {
      assert a + b == a;
    } else {
      var last := |b| - 1;
      assert (a + b)[..|a| + last] == a + b[..last];
      ConcatSplits(a, b[..last]);
      assert (Concat(a) + Concat(b[..last])) + b[last] == Concat(a) + (Concat(b[..last]) + b[last]);
    }
  }

  /** Entries do not see bytes appended to the arena. */
  lemma {:induction false} ArenaGrows(entries: seq<Entry>, mark: nat, arena: Bytes, more: Bytes)
    requires AllInArena(entries, mark) && mark <= |arena|
    ensures Denote(entries, arena + more) == Denote(entries, arena)
  {
    if entries != [] {
      var last := |entries| - 1;
      ArenaGrows(entries[..last], mark, arena, more);
      var e := entries[last];
      if e.Arena? {
        assert (arena + more)[e.offset..e.offset + e.len] == arena[e.offset..e.offset + e.len];
      }
    }
  }

  lemma DenoteOne(e: Entry, arena: Bytes)
    requires InArena(e, |arena|)
    ensures Denote([e], arena) == Meaning(e, arena)
  {
    assert [e][..0] == [];
  }

  /** An entry with its arena range copied out. */
  function Resolved(e: Entry, arena: Bytes): Entry
    requires InArena(e, |arena|)
  {
    External(Meaning(e, arena), e.protected)
  }

  function ResolveAll(entries: seq<Entry>, arena: Bytes): (r: seq<Entry>)
    requires AllInArena(entries, |arena|)
    ensures |r| == |entries| && AllInArena(r, 0)
  {
    seq(|entries|, i requires 0 <= i < |entries| => Resolved(entries[i], arena))
  }

  lemma {:induction false} ResolvingKeepsMeaning(entries: seq<Entry>, arena: Bytes)
    requires AllInArena(entries, |arena|)
    ensures Denote(ResolveAll(entries, arena), []) == Denote(entries, arena)
  {
    if entries != [] {
      var last := |entries| - 1;
      assert ResolveAll(entries, arena)[..last] == ResolveAll(entries[..last], arena);
      ResolvingKeepsMeaning(entries[..last], arena);
    }
  }

  function Meanings(entries: seq<Entry>, arena: Bytes): (r: seq<Bytes>)
    requires AllInArena(entries, |arena|)
    ensures |r| == |entries|
  {
    seq(|entries|, i requires 0 <= i < |entries| => Meaning(entries[i], arena))
  }

  lemma {:induction false} MeaningsConcat(entries: seq<Entry>, arena: Bytes)
    requires AllInArena(entries, |arena|)
    ensures Concat(Meanings(entries, arena)) == Denote(entries, arena)
  {
    if entries != [] {
      var last := |entries| - 1;
      assert Meanings(entries, arena)[..last] == Meanings(entries[..last], arena);
      MeaningsConcat(entries[..last], arena);
    }
  }

  function Externals(chunks: seq<Bytes>, protected: bool): (r: seq<Entry>)
    ensures |r| == |chunks| && AllInArena(r, 0)
  {
    seq(|chunks|, i requires 0 <= i < |chunks| => External(chunks[i], protected))
  }

  lemma {:induction false} ExternalsMean(chunks: seq<Bytes>, protected: bool, arena: Bytes)
    ensures AllInArena(Externals(chunks, protected), |arena|)
    ensures Denote(Externals(chunks, protected), arena) == Concat(chunks)
  {
    if chunks != [] {
      var last := |chunks| - 1;
      assert Externals(chunks, protected)[..last] == Externals(chunks[..last], protected);
      ExternalsMean(chunks[..last], protected, arena);
    }
  }

  /** The body a part contributes to its frame. */
  function Body(prefix: Option<Bytes>, part: Payload): Bytes
    requires ValidPayload(part)
  {
    if prefix.Some? then prefix.value + Slice(part) else Slice(part)
  }

  function Bodies(prefix: Option<Bytes>, parts: seq<Payload>): (r: seq<Bytes>)
    requires ValidPayloads(parts)
    ensures |r| == |parts| && forall i :: 0 <= i < |r| ==> r[i] == Body(prefix, parts[i])
    ensures prefix.None? ==> r == Slices(parts)
    ensures prefix.Some? ==> r == Prefixed(prefix.value, Slices(parts))
  {
    seq(|parts|, i requires 0 <= i < |parts| => Body(prefix, parts[i]))
  }

  function NonEmptyCount(parts: seq<Bytes>): nat {
    if parts == [] then 0
    else
      var last := |parts| - 1;
      NonEmptyCount(parts[..last]) + if parts[last] != [] then 1 else 0
  }

  /** The chunks a gathered message takes: a header per part and a body per non-empty part. */
  function ChunkCount(parts: seq<Bytes>): nat {
    |parts| + NonEmptyCount(parts)
  }

  predicate NoEmptyChunk(entries: seq<Entry>) {
    forall i :: 0 <= i < |entries| && entries[i].External? ==> entries[i].bytes != []
  }

  /** The entries once the pending arena range is one of them. */
  function Committed(entries: seq<Entry>, arena: Bytes, mark: nat): seq<Entry> {
    if mark < |arena| then entries + [Arena(mark, |arena| - mark, false)] else entries
  }

  lemma CommittedInArena(entries: seq<Entry>, arena: Bytes, mark: nat)
    requires AllInArena(entries, mark) && mark <= |arena|
    ensures AllInArena(Committed(entries, arena, mark), |arena|)
  {
  }

  function ProtectedCount(entries: seq<Entry>): nat {
    if entries == [] then 0
    else
      var last := |entries| - 1;
      ProtectedCount(entries[..last]) + if entries[last].protected then 1 else 0
  }

  lemma NothingFramed()
    ensures EncodeParts([]) == []
  {
  }

  lemma CountSnoc(parts: seq<Bytes>, i: nat)
    requires i < |parts|
    ensures ChunkCount(parts[..i + 1]) == ChunkCount(parts[..i]) + 1 + if parts[i] != [] then 1 else 0
  {
    assert parts[..i + 1][..i] == parts[..i];
  }

  lemma NothingCounted(parts: seq<Bytes>)
    ensures ChunkCount(parts[..0]) == 0
  {
  }

  lemma FrameIs(more: bool, body: Bytes)
    ensures EncodeFrame(more, false, body) == FrameHeader(more, false, |body|) + body
  {
  }

  lemma DelimiterFrame(parts: seq<Bytes>)
    ensures EncodeParts([[]] + parts) == FrameHeader(parts != [], false, 0) + EncodeParts(parts)
  {
    hide FrameHeader;
    assert ([[]] + parts)[1..] == parts;
    assert EncodeFrame(parts != [], false, []) == FrameHeader(parts != [], false, 0);
  }

  /** Committing the arena adds no protected entry. */
  lemma ProtectedAfter(a: seq<Entry>, b: seq<Entry>)
    requires a <= b && |b| <= |a| + 1 && (|b| == |a| + 1 ==> !b[|a|].protected)
    ensures ProtectedCount(b) == ProtectedCount(a)
  {
    if |b| == |a| + 1 {
      assert b[..|a|] == a;
    } else {
      assert a == b;
    }
  }

  function EntryLen(e: Entry): nat {
    match e
    case Arena(_, len, _) => len
    case External(bytes, _) => |bytes|
  }

  lemma EntryLenIs(e: Entry, arena: Bytes)
    requires InArena(e, |arena|)
    ensures EntryLen(e) == |Meaning(e, arena)|
  {
  }

  lemma DenoteNothing(arena: Bytes)
    ensures Denote([], arena) == []
  {
  }

  lemma AroundInArena(entries: seq<Entry>, pos: nat, mark: nat)
    requires AllInArena(entries, mark) && pos < |entries|
    ensures AllInArena(entries[..pos], mark) && InArena(entries[pos], mark) && AllInArena(entries[pos + 1..], mark)
  {
  }

  lemma DenoteAround(entries: seq<Entry>, pos: nat, arena: Bytes)
    requires AllInArena(entries, |arena|) && pos < |entries|
    ensures AllInArena(entries[..pos], |arena|) && AllInArena(entries[pos + 1..], |arena|)
    ensures Denote(entries, arena) ==
              Denote(entries[..pos], arena) + Meaning(entries[pos], arena) + Denote(entries[pos + 1..], arena)
  {
    hide Meaning, Denote;
    AroundInArena(entries, pos, |arena|);
    DenoteOne(entries[pos], arena);
    DenoteSplits(entries[..pos], [entries[pos]], arena);
    DenoteSplits(entries[..pos] + [entries[pos]], entries[pos + 1..], arena);
    assert entries == entries[..pos] + [entries[pos]] + entries[pos + 1..];
  }

  lemma {:induction false} CountSplits(a: seq<Entry>, b: seq<Entry>)
    ensures ProtectedCount(a + b) == ProtectedCount(a) + ProtectedCount(b)
  {
    if b == [] {
      assert a + b == a;
    } else {
      var last := |b| - 1;
      assert (a + b)[..|a| + last] == a + b[..last];
      CountSplits(a, b[..last]);
    }
  }

  /** Removing an unprotected entry leaves the number of protected ones. */
  lemma CountAround(entries: seq<Entry>, pos: nat)
    requires pos < |entries| && !entries[pos].protected
    ensures ProtectedCount(entries[..pos] + entries[pos + 1..]) == ProtectedCount(entries)
  {
    var e := [entries[pos]];
    assert e[..0] == [] && ProtectedCount(e) == 0;
    CountSplits(entries[..pos], entries[pos + 1..]);
    CountSplits(entries[..pos], e);
    CountSplits(entries[..pos] + e, entries[pos + 1..]);
    assert entries == entries[..pos] + e + entries[pos + 1..];
  }

  lemma TakePrefix(entries: seq<Entry>, take: nat, arena: Bytes)
    requires AllInArena(entries, |arena|) && take <= |entries|
    ensures AllInArena(entries[..take], |arena|) && AllInArena(entries[take..], |arena|)
    ensures Denote(entries, arena) == Denote(entries[..take], arena) + Denote(entries[take..], arena)
  {
    hide Denote, Meaning;
    assert entries == entries[..take] + entries[take..];
    DenoteSplits(entries[..take], entries[take..], arena);
  }

  lemma {:induction false} ResolvedProtection(entries: seq<Entry>, arena: Bytes)
    requires AllInArena(entries, |arena|)
    ensures ProtectedCount(ResolveAll(entries, arena)) == ProtectedCount(entries)
  {
    if entries != [] {
      var last := |entries| - 1;
      assert ResolveAll(entries, arena)[..last] == ResolveAll(entries[..last], arena);
      ResolvedProtection(entries[..last], arena);
    }
  }

  /** Taking the first entries as chunks and resolving the others splits the meaning. */
  lemma DrainSplits(all: seq<Entry>, take: nat, frozen: Bytes)
    requires AllInArena(all, |frozen|) && take <= |all|
    ensures AllInArena(all[..take], |frozen|) && AllInArena(all[take..], |frozen|)
    ensures Concat(Meanings(all[..take], frozen)) + Denote(ResolveAll(all[take..], frozen), []) == Denote(all, frozen)
    ensures Denote(ResolveAll(all[take..], frozen), []) == Denote(all[take..], frozen)
    ensures ProtectedCount(all[..take]) + ProtectedCount(ResolveAll(all[take..], frozen)) == ProtectedCount(all)
  {
    hide Denote, Meaning, AllInArena, Meanings, ResolveAll, Concat;
    TakePrefix(all, take, frozen);
    MeaningsConcat(all[..take], frozen);
    ResolvingKeepsMeaning(all[take..], frozen);
    ResolvedProtection(all[take..], frozen);
    CountSplits(all[..take], all[take..]);
    assert all[..take] + all[take..] == all;
  }

  /** Entries that stay behind hold at least a byte. */
  lemma SomethingLeft(entries: seq<Entry>, take: nat, arena: Bytes)
    requires AllInArena(entries, |arena|) && NoEmptyChunk(entries) && take < |entries|
    ensures AllInArena(entries[take..], |arena|) && Denote(entries[take..], arena) != []
  {
    var rest := entries[take..];
    var last := |rest| - 1;
    assert rest[last] == entries[|entries| - 1];
    assert Meaning(rest[last], arena) != [];
  }

  /** The first loop of `drain`: the chunks of the entries taken. */
  method TakeChunks(all: seq<Entry>, take: nat, frozen: Bytes) returns (chunks: seq<Bytes>, protectedDrained: nat)
    requires AllInArena(all, |frozen|) && take <= |all|
    ensures AllInArena(all[..take], |frozen|) && chunks == Meanings(all[..take], frozen)
    ensures protectedDrained == ProtectedCount(all[..take])
  {
    hide Meaning;
    chunks, protectedDrained := [], 0;
    for i := 0 to take
      invariant chunks == Meanings(all[..i], frozen)
      invariant protectedDrained == ProtectedCount(all[..i])
    {
      if all[i].protected {
        protectedDrained := protectedDrained + 1;
      }
      assert all[..i + 1][..i] == all[..i];
      chunks := chunks + [Meaning(all[i], frozen)];
    }
  }

  /** The second loop of `drain`: entries that stay no longer refer to the arena. */
  method ResolveRest(rest: seq<Entry>, frozen: Bytes) returns (entries: seq<Entry>)
    requires AllInArena(rest, |frozen|)
    ensures entries == ResolveAll(rest, frozen)
  {
    entries := rest;
    for i := 0 to |rest|
      invariant |entries| == |rest|
      invariant forall j :: 0 <= j < i ==> entries[j] == Resolved(rest[j], frozen)
      invariant forall j :: i <= j < |rest| ==> entries[j] == rest[j]
    {
      if entries[i].Arena? {
        var e := entries[i];
        entries := entries[i := External(frozen[e.offset..e.offset + e.len], e.protected)];
      }
    }
  }

  /** What is left of `all` once `written` bytes of it are on the wire. */
  function Unwritten(all: Bytes, written: nat): Bytes {
    if written <= |all| then all[written..] else []
  }

  /** The first loop of `put_back_unwritten`: skip what was written, keep the rest. */
  method RestOf(returned: seq<Bytes>, written: nat) returns (restore: seq<Bytes>)
    ensures Concat(restore) == Unwritten(Concat(returned), written)
  {
    var consumed := 0;
    restore := [];
    for i := 0 to |returned|
      invariant consumed == if |Concat(returned[..i])| < written then |Concat(returned[..i])| else written
      invariant Concat(restore) == Concat(returned[..i])[consumed..]
    {
      var chunk := returned[i];
      assert returned[..i + 1][..i] == returned[..i];
      ghost var before := Concat(returned[..i]);
      assert Concat(returned[..i + 1]) == before + chunk;
      if consumed >= written {
        ConcatOne(restore, chunk);
        assert (before + chunk)[written..] == before[written..] + chunk;
        restore := restore + [chunk];
      } else if consumed + |chunk| <= written {
        consumed := consumed + |chunk|;
      } else {
        var skip := written - consumed;
        consumed := written;
        ConcatOne(restore, chunk[skip..]);
        assert (before + chunk)[written..] == chunk[skip..];
        restore := restore + [chunk[skip..]];
      }
    }
    assert returned[..|returned|] == returned;
  }

  /** The second loop of `put_back_unwritten`: push to the front, last chunk first. */
  method PushFront(restore: seq<Bytes>, before: seq<Entry>) returns (entries: seq<Entry>)
    ensures entries == Externals(restore, false) + before
  {
    entries := before;
    var j := |restore|;
    while j > 0
      invariant 0 <= j <= |restore|
      invariant entries == Externals(restore, false)[j..] + before
    {
      j := j - 1;
      entries := [External(restore[j], false)] + entries;
    }
  }

  lemma ConcatOne(chunks: seq<Bytes>, chunk: Bytes)
    ensures Concat(chunks + [chunk]) == Concat(chunks) + chunk
  {
    assert (chunks + [chunk])[..|chunks|] == chunks;
  }

  lemma {:induction false} ExternalsUnprotected(chunks: seq<Bytes>)
    ensures ProtectedCount(Externals(chunks, false)) == 0
  {
    if chunks != [] {
      var last := |chunks| - 1;
      assert Externals(chunks, false)[..last] == Externals(chunks[..last], false);
      ExternalsUnprotected(chunks[..last]);
    }
  }

  lemma FrontInArena(a: seq<Entry>, b: seq<Entry>, mark: nat)
    requires AllInArena(a, 0) && AllInArena(b, mark)
    ensures AllInArena(a + b, mark)
  {
  }

  // ---- The buffer ----

  class FrameBuffer {
    var entries: seq<Entry>
    var totalBytes: nat
    var arena: Bytes
    var arenaMark: nat
    const arenaThreshold: nat

    ghost predicate Shaped()
      reads this
    {
      && arenaMark <= |arena|
      && AllInArena(entries, arenaMark)
      && (entries == [] ==> arenaMark == 0)
    }

    /** The bytes still to be written. */
    ghost function Denotation(): Bytes
      requires Shaped()
      reads this
    {
      Denote(entries, arena) + arena[arenaMark..]
    }

    ghost predicate Valid()
      reads this
    {
      Shaped() && totalBytes == |Denotation()|
    }

    constructor (threshold: nat)
      ensures Valid() && Denotation() == [] && arenaThreshold == threshold
      ensures entries == [] && arena == []
    {
      entries, totalBytes, arena, arenaMark := [], 0, [], 0;
      arenaThreshold := threshold;
    }

    method IsEmpty() returns (empty: bool)
      requires Valid()
      ensures empty <==> entries == [] && arena == []
      ensures empty ==> Denotation() == []
    {
      empty := entries == [] && |arena| == arenaMark;
    }

    method HasArenaOnly() returns (only: bool)
      requires Valid()
      ensures only <==> entries == [] && arena != []
      ensures only ==> Denotation() == arena
    {
      only := entries == [] && arena != [];
    }

    /** `arena.extend_from_slice` with its byte count. */
    method AppendArena(data: Bytes)
      requires Valid()
      modifies `arena, `totalBytes
      ensures Valid() && Denotation() == old(Denotation()) + data
      ensures arena == old(arena) + data
    {
      ArenaGrows(entries, arenaMark, arena, data);
      ghost var before := Denotation();
      assert (arena + data)[arenaMark..] == arena[arenaMark..] + data;
      arena := arena + data;
      totalBytes := totalBytes + |data|;
      assert Denotation() == before + data;
    }

    /** Turns the pending arena range into an entry. Offsets are 32-bit. */
    method CommitArenaRange()
      requires Valid() && |arena| < TWO_32
      modifies `entries, `arenaMark
      ensures Valid() && Denotation() == old(Denotation())
      ensures arenaMark == |arena| && entries == Committed(old(entries), arena, old(arenaMark))
      ensures |old(entries)| <= |entries| <= |old(entries)| + 1 && old(entries) <= entries
      ensures |entries| == |old(entries)| + 1 <==> |arena| > old(arenaMark)
      ensures |entries| == |old(entries)| + 1 ==> !entries[|old(entries)|].protected
      ensures NoEmptyChunk(old(entries)) ==> NoEmptyChunk(entries)
    {
      hide Denote, AllInArena;
      var end := |arena| % TWO_32;
      if end > arenaMark {
        var e := Arena(arenaMark, end - arenaMark, false);
        InLargerArena(entries, arenaMark, end);
        DenoteSnoc(entries, e, arena);
        assert Meaning(e, arena) == arena[arenaMark..];
        entries := entries + [e];
        arenaMark := end;
        assert arena[arenaMark..] == [];
      }
    }

    method PushExternal(bytes: Bytes, protected: bool)
      requires Valid() && arenaMark == |arena|
      modifies `entries, `totalBytes
      ensures Valid() && Denotation() == old(Denotation()) + bytes
      ensures entries == old(entries) + [External(bytes, protected)]
      ensures NoEmptyChunk(old(entries)) && bytes != [] ==> NoEmptyChunk(entries)
    {
      hide Denote, AllInArena;
      var e := External(bytes, protected);
      DenoteSnoc(entries, e, arena);
      ghost var before := Denotation();
      assert arena[arenaMark..] == [];
      totalBytes := totalBytes + |bytes|;
      entries := entries + [e];
      assert Denotation() == before + bytes;
    }

    // ---- Framing ----

    method FrameInline(m: Message)
      requires Valid() && ValidMessage(m)
      modifies `arena, `totalBytes
      ensures Valid() && Denotation() == old(Denotation()) + EncodeParts(Parts(m))
      ensures arena == old(arena) + EncodeParts(Parts(m))
    {
      hide ValidMessage, Parts, EncodeParts, Denote, AllInArena;
      var encoded := EncodeMessageFlat(m, []);
      assert encoded == EncodeParts(Parts(m));
      AppendArena(encoded);
    }

    method GatherHeader(more: bool, size: nat)
      requires Valid() && |arena| + MAX_FRAME_HEADER_LEN < TWO_32
      modifies `entries, `totalBytes, `arena, `arenaMark
      ensures Valid() && arenaMark == |arena| <= |old(arena)| + MAX_FRAME_HEADER_LEN
      ensures Denotation() == old(Denotation()) + FrameHeader(more, false, size)
      ensures |entries| == |old(entries)| + 1
      ensures NoEmptyChunk(old(entries)) ==> NoEmptyChunk(entries)
    {
      hide FrameHeader, Denote, AllInArena, NoEmptyChunk;
      AppendArena(FrameHeader(more, false, size));
      CommitArenaRange();
    }

    /** One part of a gathered message: the header goes to the arena, the body stays where
        it is. */
    method GatherPart(more: bool, prefix: Option<Bytes>, part: Payload)
      requires Valid() && ValidPayload(part) && |arena| + MAX_FRAME_HEADER_LEN < TWO_32
      modifies `entries, `totalBytes, `arena, `arenaMark
      ensures Valid() && arenaMark == |arena| <= |old(arena)| + MAX_FRAME_HEADER_LEN
      ensures Denotation() == old(Denotation()) + EncodeFrame(more, false, Body(prefix, part))
      ensures prefix.None? ==> |entries| == |old(entries)| + 1 + if Body(prefix, part) != [] then 1 else 0
      ensures prefix.None? && NoEmptyChunk(old(entries)) ==> NoEmptyChunk(entries)
    {
      hide FrameHeader, EncodeFrame, Slice, Denote, AllInArena, NoEmptyChunk;
      var size := PayloadLen(part) + if prefix.Some? then |prefix.value| else 0;
      ghost var before, header := Denotation(), FrameHeader(more, false, size);
      GatherHeader(more, size);
      var b := Slice(part);
      if prefix.Some? {
        PrefixedFrame(more, prefix.value, b);
        PushExternal(prefix.value, false);
        assert before + header + prefix.value + b == before + (header + prefix.value + b);
      } else {
        FrameIs(more, b);
        assert before + header + b == before + (header + b);
      }
      if b != [] {
        PushExternal(b, false);
      }
    }

    method GatherParts(prefix: Option<Bytes>, parts: seq<Payload>)
      requires Valid() && ValidPayloads(parts) && |arena| + MAX_FRAME_HEADER_LEN * |parts| < TWO_32
      modifies `entries, `totalBytes, `arena, `arenaMark
      ensures Valid()
      ensures Denotation() == old(Denotation()) + EncodeParts(Bodies(prefix, parts))
      ensures prefix.None? ==> |entries| == |old(entries)| + ChunkCount(Bodies(prefix, parts))
      ensures prefix.None? && NoEmptyChunk(old(entries)) ==> NoEmptyChunk(entries)
      ensures |arena| <= |old(arena)| + MAX_FRAME_HEADER_LEN * |parts|
      ensures parts != [] ==> arenaMark == |arena|
      ensures parts == [] ==> arena == old(arena) && entries == old(entries)
    {
      hide EncodeFrame, EncodeParts, Slice, Denote, AllInArena, Bodies, Body, ChunkCount, NoEmptyChunk;
      NothingCounted(Bodies(prefix, parts));
      ghost var bodies := Bodies(prefix, parts);
      for i := 0 to |parts|
        invariant Valid() && |arena| <= |old(arena)| + MAX_FRAME_HEADER_LEN * i
        invariant Denotation() == old(Denotation()) + EncodeFirst(bodies, i)
        invariant prefix.None? ==> |entries| == |old(entries)| + ChunkCount(bodies[..i])
        invariant prefix.None? && NoEmptyChunk(old(entries)) ==> NoEmptyChunk(entries)
        invariant i > 0 ==> arenaMark == |arena|
        invariant i == 0 ==> arena == old(arena) && entries == old(entries)
      {
        CountSnoc(bodies, i);
        GatherPart(i + 1 < |parts|, prefix, parts[i]);
      }
      assert bodies[..|parts|] == bodies;
      EncodeFirstAll(bodies);
    }

    method FrameGather(m: Message)
      requires Valid() && ValidMessage(m) && |arena| + MAX_FRAME_HEADER_LEN * Len(m) < TWO_32
      modifies `entries, `totalBytes, `arena, `arenaMark
      ensures Valid() && Denotation() == old(Denotation()) + EncodeParts(Parts(m))
      ensures |entries| == |old(entries)| + ChunkCount(Parts(m))
      ensures NoEmptyChunk(old(entries)) ==> NoEmptyChunk(entries)
      ensures |arena| <= |old(arena)| + MAX_FRAME_HEADER_LEN * Len(m)
      ensures Parts(m) != [] ==> arenaMark == |arena|
      ensures Parts(m) == [] ==> arena == old(arena) && entries == old(entries)
    {
      hide Parts, PartsPayload, ValidMessage, EncodeParts, Denote;
      GatherParts(None, PartsPayload(m));
    }

    method Frame(m: Message)
      requires Valid() && ValidMessage(m)
      requires TotalLen(Parts(m)) >= arenaThreshold ==> |arena| + MAX_FRAME_HEADER_LEN * Len(m) < TWO_32
      modifies `entries, `totalBytes, `arena, `arenaMark
      ensures Valid() && Denotation() == old(Denotation()) + EncodeParts(Parts(m))
      ensures TotalLen(Parts(m)) < arenaThreshold ==>
                entries == old(entries) && arenaMark == old(arenaMark) && arena == old(arena) + EncodeParts(Parts(m))
      ensures TotalLen(Parts(m)) >= arenaThreshold ==> |entries| == |old(entries)| + ChunkCount(Parts(m))
      ensures TotalLen(Parts(m)) >= arenaThreshold ==> |arena| <= |old(arena)| + MAX_FRAME_HEADER_LEN * Len(m)
      ensures TotalLen(Parts(m)) >= arenaThreshold && Parts(m) != [] ==> arenaMark == |arena|
      ensures Parts(m) == [] ==> arena == old(arena) && entries == old(entries)
      ensures NoEmptyChunk(old(entries)) ==> NoEmptyChunk(entries)
    {
      hide Parts, ValidMessage, EncodeParts, Denote, AllInArena, ChunkCount, NoEmptyChunk;
      NothingFramed();
      var size := ByteLen(m);
      if size < arenaThreshold {
        FrameInline(m);
      } else {
        FrameGather(m);
      }
    }

    method FramePrefixedInline(prefix: Bytes, m: Message)
      requires Valid() && ValidMessage(m)
      modifies `arena, `totalBytes
      ensures Valid() && Denotation() == old(Denotation()) + EncodeParts(Prefixed(prefix, Parts(m)))
    {
      hide ValidMessage, Parts, EncodeParts, Denote, AllInArena, Prefixed;
      var encoded := EncodeMessagePrefixedFlat(prefix, m, []);
      assert encoded == EncodeParts(Prefixed(prefix, Parts(m)));
      AppendArena(encoded);
    }

    method FramePrefixed(prefix: Bytes, m: Message)
      requires Valid() && ValidMessage(m)
      requires TotalLen(Parts(m)) + |prefix| * Len(m) >= arenaThreshold ==>
                 |arena| + MAX_FRAME_HEADER_LEN * Len(m) < TWO_32
      modifies `entries, `totalBytes, `arena, `arenaMark
      ensures Valid() && Denotation() == old(Denotation()) + EncodeParts(Prefixed(prefix, Parts(m)))
    {
      hide Parts, PartsPayload, ValidMessage, EncodeParts, Denote, AllInArena, Prefixed;
      var size := ByteLen(m);
      if size + |prefix| * Len(m) < arenaThreshold {
        FramePrefixedInline(prefix, m);
      } else {
        GatherParts(Some(prefix), PartsPayload(m));
      }
    }

    /** A REP reply: the empty delimiter, then the body. */
    method FrameRep(m: Message)
      requires Valid() && ValidMessage(m)
      requires Parts(m) != [] ==> |arena| + MAX_FRAME_HEADER_LEN * (Len(m) + 1) < TWO_32
      modifies `entries, `totalBytes, `arena, `arenaMark
      ensures Valid() && Denotation() == old(Denotation()) + EncodeParts([[]] + Parts(m))
    {
      hide Parts, PartsPayload, ValidMessage, Denote, AllInArena, FlagsByte, EncodeFrame;
      DelimiterFrame(Parts(m));
      AppendArena(FrameHeader(!IsEmptyMessage(m), false, 0));
      if IsEmptyMessage(m) {
        assert EncodeParts(Parts(m)) == [];
        return;
      }
      GatherParts(None, PartsPayload(m));
    }

    /** Pre-encoded chunks, kept as they are. */
    method PushRaw(chunks: seq<Bytes>, protected: bool)
      requires Valid() && |arena| < TWO_32
      modifies `entries, `totalBytes, `arenaMark
      ensures Valid() && Denotation() == old(Denotation()) + Concat(chunks)
      ensures ProtectedCount(entries) == ProtectedCount(old(entries)) + if protected then |chunks| else 0
    {
      hide Denote, AllInArena;
      CommitArenaRange();
      ProtectedAfter(old(entries), entries);
      ghost var committed := entries;
      for i := 0 to |chunks|
        invariant Valid() && arenaMark == |arena|
        invariant Denotation() == old(Denotation()) + Concat(chunks[..i])
        invariant ProtectedCount(entries) == ProtectedCount(committed) + if protected then i else 0
      {
        assert chunks[..i + 1][..i] == chunks[..i];
        ghost var before := entries;
        PushExternal(chunks[i], protected);
        assert entries[..|entries| - 1] == before;
      }
      assert chunks[..|chunks|] == chunks;
    }

    method PushPreFramed(data: Bytes)
      requires Valid()
      modifies `arena, `totalBytes
      ensures Valid() && Denotation() == old(Denotation()) + data
    {
      AppendArena(data);
    }

    // ---- Dropping ----

    method ClearEmptyArena()
      requires arenaMark <= |arena| && AllInArena(entries, arenaMark)
      modifies `arena, `arenaMark
      ensures entries == [] && old(|arena| == arenaMark) ==> arena == [] && arenaMark == 0
      ensures entries != [] || old(|arena| != arenaMark) ==> arena == old(arena) && arenaMark == old(arenaMark)
    {
      if entries == [] && |arena| == arenaMark {
        arena, arenaMark := [], 0;
      }
    }

    /** Removes the entry at `pos` of a committed rope. */
    method RemoveEntry(pos: nat)
      requires Valid() && arenaMark == |arena| && pos < |entries|
      modifies `entries, `totalBytes, `arena, `arenaMark
      ensures Valid() && entries == old(entries)[..pos] + old(entries)[pos + 1..]
      ensures old(AllInArena(entries[..pos], |arena|) && AllInArena(entries[pos + 1..], |arena|))
      ensures Denotation() == old(Denote(entries[..pos], arena)) + old(Denote(entries[pos + 1..], arena))
      ensures old(Denotation()) ==
                old(Denote(entries[..pos], arena)) + old(Meaning(entries[pos], arena))
                + old(Denote(entries[pos + 1..], arena))
    {
      hide Denote, Meaning;
      ghost var front, back := entries[..pos], entries[pos + 1..];
      var entry := entries[pos];
      DenoteAround(entries, pos, arena);
      assert arena[arenaMark..] == [];
      ghost var before := Denotation();
      DenoteSplits(front, back, arena);
      entries := entries[..pos] + entries[pos + 1..];
      EntryLenIs(entry, arena);
      totalBytes := totalBytes - EntryLen(entry);
      if entries == [] {
        DenoteNothing(arena);
        DenoteNothing([]);
      }
      ClearEmptyArena();
    }

    /** Drops the oldest entry, if there is one. */
    method PopFrontEntry() returns (popped: bool, ghost dropped: Bytes)
      requires Valid() && |arena| < TWO_32
      modifies `entries, `totalBytes, `arena, `arenaMark
      ensures Valid() && old(Denotation()) == dropped + Denotation()
      ensures popped <==> old(Committed(entries, arena, arenaMark)) != []
      ensures !popped ==> dropped == [] && entries == []
      ensures popped ==>
                var all := old(Committed(entries, arena, arenaMark));
                && entries == all[1..]
                && InArena(all[0], |old(arena)|) && dropped == Meaning(all[0], old(arena))
    {
      hide Denote, Meaning, AllInArena, Committed;
      CommittedInArena(entries, arena, arenaMark);
      CommitArenaRange();
      if entries == [] {
        DenoteNothing(arena);
        return false, [];
      }
      AroundInArena(entries, 0, arenaMark);
      dropped := Meaning(entries[0], arena);
      assert entries[..0] == [];
      DenoteNothing(arena);
      RemoveEntry(0);
      return true, dropped;
    }

    /** Drops the oldest entry that is not protected, the one at `pos`, if there is one;
        everything else keeps its place. */
    method PopOldestUnprotectedEntry()
      returns (popped: bool, ghost pos: nat, ghost front: Bytes, ghost dropped: Bytes, ghost back: Bytes)
      requires Valid() && |arena| < TWO_32
      modifies `entries, `totalBytes, `arena, `arenaMark
      ensures Valid() && old(Denotation()) == front + dropped + back && Denotation() == front + back
      ensures ProtectedCount(entries) == ProtectedCount(old(entries))
      ensures !popped ==>
                && dropped == [] && entries == old(Committed(entries, arena, arenaMark))
                && forall i :: 0 <= i < |entries| ==> entries[i].protected
      ensures popped ==>
                var all := old(Committed(entries, arena, arenaMark));
                && pos < |all| && !all[pos].protected && (forall i :: 0 <= i < pos ==> all[i].protected)
                && entries == all[..pos] + all[pos + 1..]
                && InArena(all[pos], |old(arena)|) && dropped == Meaning(all[pos], old(arena))
    {
      hide Denote, Meaning, AllInArena, Committed;
      CommittedInArena(entries, arena, arenaMark);
      CommitArenaRange();
      ProtectedAfter(old(entries), entries);
      var i := 0;
      while i < |entries| && entries[i].protected
        invariant i <= |entries| && forall j :: 0 <= j < i ==> entries[j].protected
      {
        i := i + 1;
      }
      pos := i;
      if i == |entries| {
        return false, pos, Denotation(), [], [];
      }
      AroundInArena(entries, i, arenaMark);
      front, dropped, back := Denote(entries[..i], arena), Meaning(entries[i], arena), Denote(entries[i + 1..], arena);
      CountAround(entries, i);
      RemoveEntry(i);
      return true, pos, front, dropped, back;
    }

    // ---- Writing ----

    /** Hands out up to `maxChunks` chunks for writing. */
    method Drain(maxChunks: nat) returns (chunks: seq<Bytes>, protectedDrained: nat)
      requires Valid() && |arena| < TWO_32
      modifies `entries, `totalBytes, `arena, `arenaMark
      ensures Valid() && Concat(chunks) + Denotation() == old(Denotation())
      ensures |chunks| <= maxChunks && (|chunks| < maxChunks ==> Denotation() == [])
      ensures |chunks| + |entries| == |old(Committed(entries, arena, arenaMark))| && arena == []
      ensures NoEmptyChunk(old(entries)) ==>
                (Denotation() == [] <==> |old(entries)| + (if old(arenaMark < |arena|) then 1 else 0) <= maxChunks)
      ensures protectedDrained + ProtectedCount(entries) == ProtectedCount(old(entries))
    {
      hide Denote, Meaning, AllInArena, Meanings, NoEmptyChunk;
      CommitArenaRange();
      ProtectedAfter(old(entries), entries);
      assert arena[arenaMark..] == [];
      if entries == [] {
        DenoteNothing(arena);
        return [], 0;
      }
      var frozen, all := arena, entries;
      arena := [];
      var take := if maxChunks < |all| then maxChunks else |all|;
      DrainSplits(all, take, frozen);
      chunks, protectedDrained := TakeChunks(all, take, frozen);
      totalBytes := totalBytes - |Concat(chunks)|;
      entries := ResolveRest(all[take..], frozen);
      arenaMark := 0;
      assert arena[arenaMark..] == [];
      if take == |all| {
        DenoteNothing([]);
      }
      assert Denotation() == Denote(entries, []);
      if take < |all| && NoEmptyChunk(old(entries)) {
        SomethingLeft(all, take, frozen);
      }
    }

    /** Gives back what a partial write of `written` bytes left of the drained chunks. */
    method PutBackUnwritten(returned: seq<Bytes>, written: nat)
      requires Valid()
      modifies `entries, `totalBytes
      ensures Valid() && Denotation() == Unwritten(Concat(returned), written) + old(Denotation())
      ensures ProtectedCount(entries) == ProtectedCount(old(entries))
    {
      hide Denote, Meaning, AllInArena, Externals;
      var restore := RestOf(returned, written);
      ghost var before := entries;
      totalBytes := totalBytes + |Concat(restore)|;
      entries := PushFront(restore, entries);
      InLargerArena(before, arenaMark, |arena|);
      ExternalsMean(restore, false, arena);
      DenoteSplits(Externals(restore, false), before, arena);
      ExternalsUnprotected(restore);
      CountSplits(Externals(restore, false), before);
      FrontInArena(Externals(restore, false), before, arenaMark);
      assert Denotation() == Concat(restore) + (Denote(before, arena) + arena[arenaMark..]);
    }

    method ClearArena()
      requires Valid() && entries == []
      modifies `totalBytes, `arena, `arenaMark
      ensures Valid() && Denotation() == [] && arena == []
    {
      arena, arenaMark, totalBytes := [], 0, 0;
    }

    /** Skips `n` bytes of an arena-only buffer that have been written. */
    method AdvanceArena(n: nat)
      requires Valid() && entries == [] && n <= |arena|
      modifies `totalBytes, `arena, `arenaMark
      ensures Valid() && Denotation() == old(Denotation())[n..] && arena == old(arena)[n..]
    {
      assert Denotation() == arena;
      if n >= |arena| {
        ClearArena();
      } else {
        arena := arena[n..];
        totalBytes := totalBytes - n;
      }
    }

    /** Moves the contents of an arena-only buffer out of it. */
    method TakeArenaBytes() returns (frozen: Bytes)
      requires Valid() && entries == []
      modifies `totalBytes, `arena, `arenaMark
      ensures Valid() && frozen == old(Denotation()) && Denotation() == []
    {
      assert Denotation() == arena;
      frozen := arena;
      arena, arenaMark, totalBytes := [], 0, 0;
    }
  }
}
