/** Messages: nine storage forms of one list of parts, with optional routing metadata.
    `Parts` is the list a form stands for; every operation is stated against it. */
module Message {
  import opened Words
  import opened Options

  const MAX_INLINE_PAYLOAD := 62
  const MAX_INLINE_MESSAGE := 55
  const MAX_INLINE_ROUTED_MESSAGE := 51
  const INLINE_DELIMITED_FLAG := 0x80

  // ---- Payloads ----

  datatype Payload =
    | NoBytes
    | InlineBytes(len: nat, data: Bytes)
    | Chunk(bytes: Bytes)

  predicate ValidPayload(p: Payload) {
    match p
    case NoBytes => true
    case InlineBytes(len, data) => 0 < len <= MAX_INLINE_PAYLOAD && |data| == MAX_INLINE_PAYLOAD
    case Chunk(bytes) => bytes != []
  }

  function Slice(p: Payload): Bytes
    requires ValidPayload(p)
  {
    match p
    case NoBytes => []
    case InlineBytes(len, data) => data[..len]
    case Chunk(bytes) => bytes
  }

  function PayloadLen(p: Payload): (n: nat)
    requires ValidPayload(p)
    ensures n == |Slice(p)|
  {
    match p
    case NoBytes => 0
    case InlineBytes(len, _) => len
    case Chunk(bytes) => |bytes|
  }

  /** The test for the empty form decides whether there are no bytes. */
  predicate IsEmptyPayload(p: Payload)
    requires ValidPayload(p)
    ensures IsEmptyPayload(p) <==> Slice(p) == []
  {
    p.NoBytes?
  }

  function PayloadFromBytes(b: Bytes): (p: Payload)
    ensures ValidPayload(p) && Slice(p) == b
  {
    if b == [] then NoBytes else Chunk(b)
  }

  function Padded(src: Bytes, size: nat): (data: Bytes)
    requires |src| <= size
    ensures |data| == size && data[..|src|] == src
  {
    src + seq(size - |src|, _ => 0)
  }

  function PayloadFromSlice(src: Bytes): (p: Payload)
    ensures ValidPayload(p) && Slice(p) == src
  {
    if |src| > MAX_INLINE_PAYLOAD then PayloadFromBytes(src)
    else if src == [] then NoBytes
    else InlineBytes(|src|, Padded(src, MAX_INLINE_PAYLOAD))
  }

  predicate ValidPayloads(ps: seq<Payload>) {
    forall i :: 0 <= i < |ps| ==> ValidPayload(ps[i])
  }

  function Slices(ps: seq<Payload>): (parts: seq<Bytes>)
    requires ValidPayloads(ps)
    ensures |parts| == |ps|
  {
    seq(|ps|, i requires 0 <= i < |ps| => Slice(ps[i]))
  }

  function TotalLen(parts: seq<Bytes>): nat {
    if parts == [] then 0 else TotalLen(parts[..|parts| - 1]) + |parts[|parts| - 1]|
  }

  // ---- Messages ----

  datatype Message =
    | Empty
    | Inline(len: nat, data: Bytes)
    | Single(payload: Payload)
    | EmptyDelimitedBytes(bytes: Bytes)
    | Multi(parts: seq<Payload>)
    | RoutedEmpty(routingId: nat)
    | RoutedInline(len: nat, data: Bytes)
    | RoutedBytes(routingId: nat, bytes: Bytes)
    | RoutedMulti(routingId: nat, parts: seq<Payload>)

  predicate Delimited(len: nat) {
    len >= INLINE_DELIMITED_FLAG
  }

  function BodyLen(len: nat): nat {
    len % INLINE_DELIMITED_FLAG
  }

  /** The forms that the constructors and operations produce. */
  predicate ValidMessage(m: Message) {
    match m
    case Empty => true
    case Inline(len, data) => len < 256 && BodyLen(len) <= MAX_INLINE_MESSAGE == |data|
    case Single(p) => ValidPayload(p)
    case EmptyDelimitedBytes(_) => true
    case Multi(parts) => parts != [] && ValidPayloads(parts)
    case RoutedEmpty(id) => id < TWO_32
    case RoutedInline(len, data) => len <= MAX_INLINE_ROUTED_MESSAGE && |data| == MAX_INLINE_MESSAGE
    case RoutedBytes(id, _) => id < TWO_32
    case RoutedMulti(id, parts) => id < TWO_32 && parts != [] && ValidPayloads(parts)
  }

  type WellFormed = m: Message | ValidMessage(m) witness Empty

  /** The list of parts a message stands for. */
  function Parts(m: Message): seq<Bytes>
    requires ValidMessage(m)
  {
    match m
    case Empty => []
    case Inline(len, data) => (if Delimited(len) then [[]] else []) + [data[..BodyLen(len)]]
    case Single(p) => [Slice(p)]
    case EmptyDelimitedBytes(bytes) => [[], bytes]
    case Multi(parts) => Slices(parts)
    case RoutedEmpty(_) => []
    case RoutedInline(len, data) => [data[..len]]
    case RoutedBytes(_, bytes) => [bytes]
    case RoutedMulti(_, parts) => Slices(parts)
  }

  function RoutedInlineId(data: Bytes): nat
    requires |data| == MAX_INLINE_MESSAGE
  {
    FromLe32(data[MAX_INLINE_ROUTED_MESSAGE..])
  }

  function RoutingId(m: Message): Option<nat>
    requires ValidMessage(m)
  {
    match m
    case RoutedEmpty(id) => Some(id)
    case RoutedBytes(id, _) => Some(id)
    case RoutedMulti(id, _) => Some(id)
    case RoutedInline(_, data) => Some(RoutedInlineId(data))
    case _ => None
  }

  // ---- Constructors ----

  function FromInline(data: Bytes): (m: Message)
    requires |data| <= MAX_INLINE_MESSAGE
    ensures ValidMessage(m) && Parts(m) == [data]
  {
    Inline(|data|, Padded(data, MAX_INLINE_MESSAGE))
  }

  /** `single` and `from_slice`: small bodies go inline. */
  function SinglePart(b: Bytes): (m: Message)
    ensures ValidMessage(m) && Parts(m) == [b] && RoutingId(m) == None
  {
    if |b| <= MAX_INLINE_MESSAGE then FromInline(b) else Single(PayloadFromBytes(b))
  }

  function FromPayloads(ps: seq<Payload>): (m: Message)
    requires ValidPayloads(ps)
    ensures ValidMessage(m) && Parts(m) == Slices(ps) && RoutingId(m) == None
  {
    if |ps| == 0 then Empty else if |ps| == 1 then Single(ps[0]) else Multi(ps)
  }

  method Multipart(parts: seq<Bytes>) returns (m: Message)
    ensures ValidMessage(m) && Parts(m) == parts && RoutingId(m) == None
  {
    var payloads: seq<Payload> := [];
    for i := 0 to |parts|
      invariant ValidPayloads(payloads) && Slices(payloads) == parts[..i]
    {
      payloads := payloads + [PayloadFromSlice(parts[i])];
    }
    m := FromPayloads(payloads);
  }

  // ---- Accessors ----

  function Len(m: Message): (n: nat)
    requires ValidMessage(m)
    ensures n == |Parts(m)|
  {
    match m
    case Empty => 0
    case RoutedEmpty(_) => 0
    case Inline(len, _) => if Delimited(len) then 2 else 1
    case Single(_) => 1
    case RoutedInline(_, _) => 1
    case RoutedBytes(_, _) => 1
    case EmptyDelimitedBytes(_) => 2
    case Multi(parts) => |parts|
    case RoutedMulti(_, parts) => |parts|
  }

  predicate IsEmptyMessage(m: Message)
    requires ValidMessage(m)
    ensures IsEmptyMessage(m) <==> Parts(m) == []
  {
    m.Empty? || m.RoutedEmpty?
  }

  predicate IsMultipart(m: Message) {
    (m.Inline? && Delimited(m.len)) || m.EmptyDelimitedBytes? || m.Multi? || m.RoutedMulti?
  }

  /** A heap list that holds a single part. */
  predicate LoneList(m: Message) {
    (m.Multi? || m.RoutedMulti?) && |m.parts| == 1
  }

  /** `is_multipart` answers "more than one part" exactly outside the one-element lists. */
  lemma IsMultipartExactly(m: Message)
    requires ValidMessage(m)
    ensures (IsMultipart(m) <==> |Parts(m)| > 1) <==> !LoneList(m)
  {
    assert LoneList(m) ==> |Parts(m)| == 1;
  }

  method SumLens(ps: seq<Payload>) returns (n: nat)
    requires ValidPayloads(ps)
    ensures n == TotalLen(Slices(ps))
  {
    n := 0;
    for i := 0 to |ps|
      invariant n == TotalLen(Slices(ps)[..i])
    {
      assert Slices(ps)[..i + 1][..i] == Slices(ps)[..i];
      n := n + PayloadLen(ps[i]);
    }
    assert Slices(ps)[..|ps|] == Slices(ps);
  }

  lemma PairLen(parts: seq<Bytes>)
    ensures |parts| == 1 ==> TotalLen(parts) == |parts[0]|
    ensures |parts| == 2 ==> TotalLen(parts) == |parts[0]| + |parts[1]|
  {
    if |parts| == 2 {
      assert parts[..1] == [parts[0]];
    }
  }

  method ByteLen(m: Message) returns (n: nat)
    requires ValidMessage(m)
    ensures n == TotalLen(Parts(m))
  {
    PairLen(Parts(m));
    match m {
      case Empty => n := 0;
      case RoutedEmpty(_) => n := 0;
      case Inline(len, _) => n := BodyLen(len);
      case Single(p) => n := PayloadLen(p);
      case EmptyDelimitedBytes(bytes) => n := |bytes|;
      case Multi(parts) => n := SumLens(parts);
      case RoutedInline(len, _) => n := len;
      case RoutedBytes(_, bytes) => n := |bytes|;
      case RoutedMulti(_, parts) => n := SumLens(parts);
    }
  }

  function At<T>(s: seq<T>, i: nat): Option<T> {
    if i < |s| then Some(s[i]) else None
  }

  /** `get`, `part_slice` and `part_bytes`. */
  function Get(m: Message, index: nat): (r: Option<Bytes>)
    requires ValidMessage(m)
    ensures r == At(Parts(m), index)
  {
    match m
    case Empty => None
    case RoutedEmpty(_) => None
    case Inline(len, data) =>
      if Delimited(len) then
        if index == 0 then Some([]) else if index == 1 then Some(data[..BodyLen(len)]) else None
      else if index == 0 then Some(data[..len]) else None
    case Single(p) => if index == 0 then Some(Slice(p)) else None
    case EmptyDelimitedBytes(bytes) =>
      if index == 0 then Some([]) else if index == 1 then Some(bytes) else None
    case Multi(parts) => if index < |parts| then Some(Slice(parts[index])) else None
    case RoutedInline(len, data) => if index == 0 then Some(data[..len]) else None
    case RoutedBytes(_, bytes) => if index == 0 then Some(bytes) else None
    case RoutedMulti(_, parts) => if index < |parts| then Some(Slice(parts[index])) else None
  }

  /** Message equality compares part by part; it ignores the form and the routing ID. */
  method Equal(a: Message, b: Message) returns (same: bool)
    requires ValidMessage(a) && ValidMessage(b)
    ensures same <==> Parts(a) == Parts(b)
  {
    hide Parts, Get, Len, ValidMessage;
    var n := Len(a);
    if n != Len(b) {
      return false;
    }
    for i := 0 to n
      invariant Parts(a)[..i] == Parts(b)[..i]
    {
      if Get(a, i) != Get(b, i) {
        return false;
      }
    }
    return true;
  }

  method VisitAll(ps: seq<Payload>, seen: seq<Bytes>) returns (out: seq<Bytes>)
    requires ValidPayloads(ps)
    ensures out == seen + Slices(ps)
  {
    out := seen;
    for i := 0 to |ps|
      invariant out == seen + Slices(ps)[..i]
    {
      out := out + [Slice(ps[i])];
    }
  }

  /** The slices handed to the visitor of `iter_slices`, in call order. */
  method IterSlices(m: Message) returns (out: seq<Bytes>)
    requires ValidMessage(m)
    ensures out == Parts(m)
  {
    out := [];
    match m {
      case Empty =>
      case RoutedEmpty(_) =>
      case Inline(len, data) =>
        if Delimited(len) {
          out := out + [[]];
        }
        out := out + [data[..BodyLen(len)]];
      case Single(p) => out := out + [Slice(p)];
      case EmptyDelimitedBytes(bytes) =>
        out := out + [[]];
        out := out + [bytes];
      case Multi(parts) => out := VisitAll(parts, out);
      case RoutedInline(len, data) => out := out + [data[..len]];
      case RoutedBytes(_, bytes) => out := out + [bytes];
      case RoutedMulti(_, parts) => out := VisitAll(parts, out);
    }
  }

  /** `parts_payload` and `into_parts_payload`. */
  function PartsPayload(m: Message): (ps: seq<Payload>)
    requires ValidMessage(m)
    ensures ValidPayloads(ps) && Slices(ps) == Parts(m)
  {
    match m
    case Empty => []
    case RoutedEmpty(_) => []
    case Inline(len, data) =>
      var body := PayloadFromSlice(data[..BodyLen(len)]);
      if Delimited(len) then [PayloadFromBytes([]), body] else [body]
    case Single(p) => [p]
    case EmptyDelimitedBytes(bytes) => [PayloadFromBytes([]), PayloadFromBytes(bytes)]
    case Multi(parts) => parts
    case RoutedInline(len, data) => [PayloadFromSlice(data[..len])]
    case RoutedBytes(_, bytes) => [PayloadFromBytes(bytes)]
    case RoutedMulti(_, parts) => parts
  }

  // ---- Envelopes ----

  /** The two forms that already stand for an empty delimiter and one body. */
  predicate CompactDelimited(m: Message) {
    (m.Inline? && Delimited(m.len)) || m.EmptyDelimitedBytes?
  }

  /** Prepending the delimiter adds one empty part, except to the two compact delimited
      forms, whose part list it leaves unchanged. The routing ID stays. */
  function PrependEmptyDelimiter(m: Message): (r: Message)
    requires ValidMessage(m)
    ensures ValidMessage(r) && RoutingId(r) == RoutingId(m)
    ensures Parts(r) == if CompactDelimited(m) then Parts(m) else [[]] + Parts(m)
  {
    var empty := PayloadFromBytes([]);
    match m
    case Empty => Single(empty)
    case Inline(len, data) => Inline(BodyLen(len) + INLINE_DELIMITED_FLAG, data)
    case Single(p) => EmptyDelimitedBytes(Slice(p))
    case EmptyDelimitedBytes(bytes) => Multi([empty, PayloadFromBytes(bytes)])
    case Multi(parts) => Multi([empty] + parts)
    case RoutedEmpty(id) => RoutedMulti(id, [empty])
    case RoutedInline(len, data) =>
      RoutedInlineIdRange(data);
      RoutedMulti(RoutedInlineId(data), [empty, PayloadFromSlice(data[..len])])
    case RoutedBytes(id, bytes) => RoutedMulti(id, [empty, PayloadFromBytes(bytes)])
    case RoutedMulti(id, parts) => RoutedMulti(id, [empty] + parts)
  }

  lemma RoutedInlineIdRange(data: Bytes)
    requires |data| == MAX_INLINE_MESSAGE
    ensures RoutedInlineId(data) < TWO_32
  {
  }

  /** The delimiter is added exactly when the message is not already in a compact delimited
      form. */
  lemma DelimiterAddedExactly(m: Message)
    requires ValidMessage(m)
    ensures Parts(PrependEmptyDelimiter(m)) == [[]] + Parts(m) <==> !CompactDelimited(m)
  {
    assert |[[]] + Parts(m)| == |Parts(m)| + 1;
  }

  /** Prepending the delimiter twice to a small message adds it once: the second envelope
      is lost. */
  lemma SecondDelimiterLost(body: Bytes)
    ensures Parts(PrependEmptyDelimiter(PrependEmptyDelimiter(SinglePart(body)))) == [[], body]
  {
    assert CompactDelimited(PrependEmptyDelimiter(SinglePart(body)));
  }

  function WithPrefix(prefix: Bytes, body: Message): (r: Message)
    requires ValidMessage(body)
    ensures ValidMessage(r)
    ensures prefix != [] ==> Parts(r) == [prefix] + Parts(body) && RoutingId(r) == None
    ensures prefix == [] ==> r == PrependEmptyDelimiter(body)
  {
    if prefix == [] then PrependEmptyDelimiter(body)
    else
      var ps := [PayloadFromBytes(prefix)] + PartsPayload(body);
      assert Slices(ps) == [prefix] + Slices(PartsPayload(body));
      Multi(ps)
  }

  /** One-element lists do arise: prefixing a message without parts gives one, and
      `is_multipart` then says yes to a message of one part. */
  lemma PrefixedEmptyIsLone(prefix: Bytes)
    requires prefix != []
    ensures LoneList(WithPrefix(prefix, Empty)) && IsMultipart(WithPrefix(prefix, Empty))
    ensures Parts(WithPrefix(prefix, Empty)) == [prefix]
  {
  }

  /** A list of byte strings as payloads. */
  function Chunks(envelope: seq<Bytes>): (ps: seq<Payload>)
    ensures ValidPayloads(ps) && Slices(ps) == envelope
  {
    seq(|envelope|, i requires 0 <= i < |envelope| => PayloadFromBytes(envelope[i]))
  }

  function WithRepEnvelope(envelope: seq<Bytes>, body: Message): (r: Message)
    requires ValidMessage(body)
    ensures ValidMessage(r) && Parts(r) == envelope + [[]] + Parts(body) && RoutingId(r) == None
  {
    var ps := Chunks(envelope) + [PayloadFromBytes([])] + PartsPayload(body);
    assert Slices(ps) == envelope + [[]] + Parts(body);
    FromPayloads(ps)
  }

  // ---- Routing metadata ----

  /** The message left by `take_routing_id`. */
  function Unrouted(m: Message): (r: Message)
    requires ValidMessage(m)
    ensures ValidMessage(r) && Parts(r) == Parts(m) && RoutingId(r) == None
  {
    match m
    case RoutedEmpty(_) => Empty
    case RoutedInline(len, data) => Inline(len, data)
    case RoutedBytes(_, bytes) => Single(PayloadFromBytes(bytes))
    case RoutedMulti(_, parts) => FromPayloads(parts)
    case _ => m
  }

  function Attach(m: Message, id: nat): Message
    requires ValidMessage(m)
  {
    match m
    case Empty => RoutedEmpty(id)
    case Inline(len, data) =>
      if Delimited(len) then RoutedMulti(id, PartsPayload(m))
      else if len <= MAX_INLINE_ROUTED_MESSAGE then
        RoutedInline(len, data[..MAX_INLINE_ROUTED_MESSAGE] + Le32(id % TWO_32))
      else RoutedBytes(id, data[..len])
    case Single(p) => RoutedBytes(id, Slice(p))
    case _ => RoutedMulti(id, PartsPayload(m))
  }

  lemma AttachKeepsParts(m: Message, id: nat)
    requires ValidMessage(m) && RoutingId(m) == None && id < TWO_32
    ensures ValidMessage(Attach(m, id)) && Parts(Attach(m, id)) == Parts(m)
    ensures RoutingId(Attach(m, id)) == Some(id)
  {
    hide FromLe32, Le32;
    if m.Inline? && m.len <= MAX_INLINE_ROUTED_MESSAGE {
      var data := m.data[..MAX_INLINE_ROUTED_MESSAGE] + Le32(id);
      assert data[..m.len] == m.data[..m.len];
      assert data[MAX_INLINE_ROUTED_MESSAGE..] == Le32(id);
      Le32RoundTrip(id);
    }
  }

  function WithRoutingId(m: Message, id: nat): (r: Message)
    requires ValidMessage(m) && id < TWO_32
    ensures ValidMessage(r) && Parts(r) == Parts(m) && RoutingId(r) == Some(id)
  {
    AttachKeepsParts(Unrouted(m), id);
    Attach(Unrouted(m), id)
  }

  /** Attaching an ID and taking it again gives the ID back and changes no part, whatever
      the form and whether or not an ID was attached before. */
  lemma TakeUndoesAttach(m: Message, id: nat)
    requires ValidMessage(m) && id < TWO_32
    ensures RoutingId(WithRoutingId(m, id)) == Some(id)
    ensures Parts(Unrouted(WithRoutingId(m, id))) == Parts(m)
    ensures RoutingId(Unrouted(WithRoutingId(m, id))) == None
  {
  }

  /** What `pop_front` leaves. */
  function Popped(m: Message): (r: Message)
    requires ValidMessage(m)
    ensures ValidMessage(r) && RoutingId(r) == None
    ensures Parts(r) == if Parts(m) == [] then [] else Parts(m)[1..]
  {
    match m
    case Inline(len, data) => if Delimited(len) then Inline(BodyLen(len), data) else Empty
    case EmptyDelimitedBytes(bytes) => Single(PayloadFromBytes(bytes))
    case Multi(parts) =>
      assert Slices(parts[1..]) == Slices(parts)[1..];
      FromPayloads(parts[1..])
    case RoutedMulti(_, parts) =>
      assert Slices(parts[1..]) == Slices(parts)[1..];
      FromPayloads(parts[1..])
    case _ => Empty
  }

  // ---- Operations in place ----

  class MessageCell {
    var inner: Message

    constructor (m: Message)
      ensures inner == m
    {
      inner := m;
    }

    method TakeRoutingId() returns (id: Option<nat>)
      requires ValidMessage(inner)
      modifies this
      ensures id == RoutingId(old(inner)) && inner == Unrouted(old(inner))
    {
      match inner {
        case RoutedEmpty(routingId) => inner, id := Empty, Some(routingId);
        case RoutedInline(len, data) => inner, id := Inline(len, data), Some(RoutedInlineId(data));
        case RoutedBytes(routingId, bytes) => inner, id := Single(PayloadFromBytes(bytes)), Some(routingId);
        case RoutedMulti(routingId, parts) => inner, id := FromPayloads(parts), Some(routingId);
        case _ => id := None;
      }
    }

    /** Removes the first part; whatever is left carries no routing ID. */
    method PopFront() returns (first: Option<Bytes>)
      requires ValidMessage(inner)
      modifies this
      ensures inner == Popped(old(inner)) && ValidMessage(inner) && RoutingId(inner) == None
      ensures first == At(Parts(old(inner)), 0)
      ensures Parts(inner) == if Parts(old(inner)) == [] then [] else Parts(old(inner))[1..]
    {
      hide PayloadFromBytes, FromLe32, Le32;
      var was := inner;
      inner := Empty;
      match was {
        case Empty => first := None;
        case RoutedEmpty(_) => first := None;
        case Inline(len, data) =>
          if Delimited(len) {
            inner, first := Inline(BodyLen(len), data), Some([]);
          } else {
            first := Some(data[..len]);
          }
        case Single(p) => first := Some(Slice(p));
        case EmptyDelimitedBytes(bytes) => inner, first := Single(PayloadFromBytes(bytes)), Some([]);
        case Multi(parts) =>
          first := Some(Slice(parts[0]));
          inner := if |parts| == 1 then Empty else if |parts| == 2 then Single(parts[1]) else Multi(parts[1..]);
          assert Parts(inner) == Slices(parts)[1..];
        case RoutedInline(len, data) => first := Some(data[..len]);
        case RoutedBytes(_, bytes) => first := Some(bytes);
        case RoutedMulti(_, parts) =>
          first := Some(Slice(parts[0]));
          inner := FromPayloads(parts[1..]);
          assert Parts(inner) == Slices(parts)[1..];
      }
    }

    method PushPart(part: Payload)
      requires ValidMessage(inner) && ValidPayload(part)
      modifies this
      ensures ValidMessage(inner) && RoutingId(inner) == RoutingId(old(inner))
      ensures Parts(inner) == Parts(old(inner)) + [Slice(part)]
    {
      hide PayloadFromBytes, PayloadFromSlice, RoutedInlineId;
      match inner {
        case Empty => inner := Single(part);
        case Inline(len, data) =>
          var existing := PayloadFromSlice(data[..BodyLen(len)]);
          inner := if Delimited(len) then Multi([PayloadFromBytes([]), existing, part]) else Multi([existing, part]);
        case Single(existing) => inner := Multi([existing, part]);
        case EmptyDelimitedBytes(bytes) =>
          inner := Multi([PayloadFromBytes([]), PayloadFromBytes(bytes), part]);
        case Multi(parts) => inner := Multi(parts + [part]);
        case RoutedEmpty(id) => inner := RoutedMulti(id, [part]);
        case RoutedInline(len, data) =>
          RoutedInlineIdRange(data);
          inner := RoutedMulti(RoutedInlineId(data), [PayloadFromSlice(data[..len]), part]);
        case RoutedBytes(id, bytes) => inner := RoutedMulti(id, [PayloadFromBytes(bytes), part]);
        case RoutedMulti(id, parts) => inner := RoutedMulti(id, parts + [part]);
      }
    }
  }
}
