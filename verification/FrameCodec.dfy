/** ZMTP framing: how a list of parts becomes bytes and how the bytes are read back.
    A frame is a flags byte, a one-byte or eight-byte big-endian size, and the body. */
module FrameCodec {
  import opened Words
  import opened Options
  import opened Message

  const FLAG_MORE := 1
  const FLAG_LONG := 2
  const FLAG_COMMAND := 4
  const RESERVED := 8  // the first reserved bit: any flags byte from here on sets one
  const MAX_SHORT_FRAME_SIZE := 255
  const MAX_FRAME_HEADER_LEN := 9

  /** Rust allocations never exceed `isize::MAX`. */
  const MAX_ALLOCATION: nat := 0x7FFF_FFFF_FFFF_FFFF

  // ---- Big-endian integers ----

  function BigEndian(n: nat, k: nat): (b: Bytes)
    ensures |b| == k
  {
    if k == 0 then [] else BigEndian(n / 256, k - 1) + [n % 256]
  }

  function FromBigEndian(b: Bytes): nat {
    if b == [] then 0
    else
      var last: int := b[|b| - 1];
      256 * FromBigEndian(b[..|b| - 1]) + last
  }

  function Pow256(k: nat): nat {
    if k == 0 then 1 else 256 * Pow256(k - 1)
  }

  lemma {:induction false} BigEndianRoundTrip(n: nat, k: nat)
    requires n < Pow256(k)
    ensures FromBigEndian(BigEndian(n, k)) == n
  {
    if k > 0 {
      BigEndianRoundTrip(n / 256, k - 1);
      assert BigEndian(n, k)[..k - 1] == BigEndian(n / 256, k - 1);
    }
  }

  lemma SizeRoundTrip(n: nat)
    requires n < TWO_64
    ensures FromBigEndian(BigEndian(n, 8)) == n
  {
    assert Pow256(4) == 0x1_0000_0000 by { assert Pow256(2) == 65536; }
    assert Pow256(8) == TWO_64 by { assert Pow256(6) == 0x1_0000_0000_0000; }
    BigEndianRoundTrip(n, 8);
  }

  /** The value of eight bytes, most significant first. */
  function Weigh(b: Bytes): nat
    requires |b| == 8
  {
    var b0: int, b1: int, b2: int, b3: int := b[0], b[1], b[2], b[3];
    var b4: int, b5: int, b6: int, b7: int := b[4], b[5], b[6], b[7];
    0x100_0000_0000_0000 * b0 + 0x1_0000_0000_0000 * b1 + 0x100_0000_0000 * b2 + 0x1_0000_0000 * b3
    + 0x100_0000 * b4 + 0x1_0000 * b5 + 0x100 * b6 + b7
  }

  lemma FromBigEndianNext(b: Bytes, k: nat)
    requires k < |b|
    ensures FromBigEndian(b[..k + 1]) == 256 * FromBigEndian(b[..k]) + b[k] as int
  {
    assert b[..k + 1][..k] == b[..k];
  }

  lemma FromBigEndianWeighs(b: Bytes)
    requires |b| == 8
    ensures FromBigEndian(b) == Weigh(b)
  {
    hide FromBigEndian;
    assert FromBigEndian(b[..0]) == 0 by { FromNothing(b[..0]); }
    FromBigEndianNext(b, 0);
    FromBigEndianNext(b, 1);
    FromBigEndianNext(b, 2);
    FromBigEndianNext(b, 3);
    FromBigEndianNext(b, 4);
    FromBigEndianNext(b, 5);
    FromBigEndianNext(b, 6);
    FromBigEndianNext(b, 7);
    assert b[..8] == b;
  }

  lemma FromNothing(b: Bytes)
    requires b == []
    ensures FromBigEndian(b) == 0
  {
  }

  // ---- Writing ----

  function FlagsByte(more: bool, command: bool, long: bool): byte {
    (if more then FLAG_MORE else 0) + (if long then FLAG_LONG else 0) + (if command then FLAG_COMMAND else 0)
  }

  function FrameHeader(more: bool, command: bool, size: nat): (b: Bytes)
    ensures |b| == HeaderLen(size)
  {
    if size > MAX_SHORT_FRAME_SIZE then [FlagsByte(more, command, true)] + BigEndian(size, 8)
    else [FlagsByte(more, command, false), size]
  }

  function HeaderLen(size: nat): nat {
    if size > MAX_SHORT_FRAME_SIZE then MAX_FRAME_HEADER_LEN else 2
  }

  function EncodeFrame(more: bool, command: bool, body: Bytes): (b: Bytes)
    ensures |b| == HeaderLen(|body|) + |body|
  {
    FrameHeader(more, command, |body|) + body
  }

  /** The wire form of a message: one data frame per part, MORE on all but the last. */
  function EncodeParts(parts: seq<Bytes>): Bytes {
    if parts == [] then [] else EncodeFrame(|parts| > 1, false, parts[0]) + EncodeParts(parts[1..])
  }

  /** A stream of messages. */
  function EncodeAll(msgs: seq<seq<Bytes>>): Bytes {
    if msgs == [] then [] else EncodeParts(msgs[0]) + EncodeAll(msgs[1..])
  }

  /** The frames of `parts[..i]` inside a message with all of `parts`. */
  function EncodeFirst(parts: seq<Bytes>, i: nat): Bytes
    requires i <= |parts|
  {
    if i == 0 then [] else EncodeFirst(parts, i - 1) + EncodeFrame(i < |parts|, false, parts[i - 1])
  }

  lemma {:induction false} EncodeFirstSplits(parts: seq<Bytes>, i: nat)
    requires i <= |parts|
    ensures EncodeFirst(parts, i) + EncodeParts(parts[i..]) == EncodeParts(parts)
  {
    hide EncodeFrame;
    if i == 0 {
      assert parts[0..] == parts;
    } else {
      EncodeFirstSplits(parts, i - 1);
      var done, rest := EncodeFirst(parts, i - 1), EncodeParts(parts[i..]);
      var frame := EncodeFrame(i < |parts|, false, parts[i - 1]);
      assert parts[i - 1..][1..] == parts[i..];
      assert EncodeParts(parts[i - 1..]) == frame + rest;
      assert done + frame + rest == done + (frame + rest);
    }
  }

  lemma EncodeFirstAll(parts: seq<Bytes>)
    ensures EncodeFirst(parts, |parts|) == EncodeParts(parts)
  {
    EncodeFirstSplits(parts, |parts|);
    assert EncodeParts(parts[|parts|..]) == [];
  }

  /** Every part with a prefix in front of its body. */
  function Prefixed(prefix: Bytes, parts: seq<Bytes>): (r: seq<Bytes>)
    ensures |r| == |parts|
  {
    seq(|parts|, i requires 0 <= i < |parts| => prefix + parts[i])
  }

  // ---- The bytes on the wire ----

  /** A header byte by byte: 1 for MORE, 4 for COMMAND and 2 for a long size, then one byte of
      size up to 255, or eight bytes from the most significant on. */
  lemma HeaderBytes(more: bool, command: bool, size: nat)
    requires size < TWO_64
    ensures var h, f := FrameHeader(more, command, size), (if more then 1 else 0) + (if command then 4 else 0);
            && (size <= 255 ==> h == [f, size])
            && (size > 255 ==> |h| == 9 && h[0] == f + 2 && Weigh(h[1..9]) == size)
  {
    hide BigEndian, FromBigEndian, Weigh;
    if size > 255 {
      SizeRoundTrip(size);
      FromBigEndianWeighs(BigEndian(size, 8));
      assert FrameHeader(more, command, size)[1..9] == BigEndian(size, 8);
    }
  }

  /** The ZMTP form of a message, stated on the bytes: per part, the MORE bit on all but the
      last, the size in one byte or in eight after the bit for a long frame, and the body. */
  ghost predicate IsWireForm(wire: Bytes, parts: seq<Bytes>)
    decreases |parts|
  {
    if parts == [] then wire == []
    else
      var body, n, f := parts[0], |parts[0]|, if |parts| > 1 then 1 else 0;
      if n <= 255 then
        && |wire| >= 2 + n
        && wire[0] == f && wire[1] as int == n && wire[2..2 + n] == body
        && IsWireForm(wire[2 + n..], parts[1..])
      else
        && |wire| >= 9 + n
        && wire[0] == f + 2 && Weigh(wire[1..9]) == n && wire[9..9 + n] == body
        && IsWireForm(wire[9 + n..], parts[1..])
  }

  predicate SizesFit(parts: seq<Bytes>) {
    forall i :: 0 <= i < |parts| ==> |parts[i]| < TWO_64
  }

  lemma {:induction false} EncodedIsWireForm(parts: seq<Bytes>)
    requires SizesFit(parts)
    ensures IsWireForm(EncodeParts(parts), parts)
    decreases |parts|
  {
    hide FrameHeader, Weigh;
    if parts != [] {
      EncodedIsWireForm(parts[1..]);
      var body, rest, more := parts[0], EncodeParts(parts[1..]), |parts| > 1;
      var h := FrameHeader(more, false, |body|);
      HeaderBytes(more, false, |body|);
      var wire := EncodeParts(parts);
      assert wire == h + body + rest;
      assert wire[..|h|] == h && wire[|h|..|h| + |body|] == body && wire[|h| + |body|..] == rest;
      assert |body| > 255 ==> wire[1..9] == h[1..9];
    }
  }

  method EncodeMessageFlat(m: Message, buf: Bytes) returns (out: Bytes)
    requires ValidMessage(m)
    ensures out == buf + EncodeParts(Parts(m))
    ensures SizesFit(Parts(m)) ==> IsWireForm(out[|buf|..], Parts(m))
  {
    hide ValidMessage, Parts, EncodeFrame, IsWireForm;
    var n := Len(m);
    var slices := IterSlices(m);
    out := buf;
    for i := 0 to n
      invariant out == buf + EncodeFirst(slices, i)
    {
      out := out + EncodeFrame(i + 1 < n, false, slices[i]);
    }
    EncodeFirstAll(slices);
    if SizesFit(slices) {
      EncodedIsWireForm(slices);
    }
    assert out[|buf|..] == EncodeParts(slices);
  }

  lemma PrefixedFrame(more: bool, prefix: Bytes, body: Bytes)
    ensures EncodeFrame(more, false, prefix + body) == FrameHeader(more, false, |prefix| + |body|) + prefix + body
  {
    hide FrameHeader;
  }

  method EncodeMessagePrefixedFlat(prefix: Bytes, m: Message, buf: Bytes) returns (out: Bytes)
    requires ValidMessage(m)
    ensures out == buf + EncodeParts(Prefixed(prefix, Parts(m)))
  {
    hide ValidMessage, Parts, EncodeFrame, FrameHeader;
    var n := Len(m);
    var slices := IterSlices(m);
    ghost var parts := Prefixed(prefix, slices);
    out := buf;
    for i := 0 to n
      invariant out == buf + EncodeFirst(parts, i)
    {
      var header := FrameHeader(i + 1 < n, false, |prefix| + |slices[i]|);
      PrefixedFrame(i + 1 < n, prefix, slices[i]);
      ghost var before := out;
      out := out + header + prefix + slices[i];
      assert out == before + (header + prefix + slices[i]);
    }
    EncodeFirstAll(parts);
  }

  // ---- Reading ----

  datatype Frame = Frame(more: bool, command: bool, body: Bytes)

  datatype Header = Header(more: bool, command: bool, headerLen: nat, payloadLen: nat)

  /** What a decoder knows about a buffer: not enough bytes yet, a violation, or a value. */
  datatype Decoded<T> = NeedMore | Violation | Got(value: T)

  /** Something read from the front of a buffer and the bytes behind it. */
  datatype Taken<T> = Taken(item: T, rest: Bytes)

  function PeekFrameHeader(buf: Bytes): Decoded<Header> {
    if |buf| < 1 then NeedMore
    else
      var flags: int := buf[0];
      var more, long, command := flags % 2 == 1, flags / FLAG_LONG % 2 == 1, flags / FLAG_COMMAND % 2 == 1;
      if flags >= RESERVED then Violation
      else if command && more then Violation
      else if long then
        if |buf| < MAX_FRAME_HEADER_LEN then NeedMore
        else
          var size := FromBigEndian(buf[1..MAX_FRAME_HEADER_LEN]);
          if size > MAX_ALLOCATION then Violation else Got(Header(more, command, MAX_FRAME_HEADER_LEN, size))
      else if |buf| < 2 then NeedMore
      else Got(Header(more, command, 2, buf[1]))
  }

  /** What the reader makes of the first bytes, in numbers: flags from 8 on, MORE on a command
      and sizes beyond the largest allocation are violations. */
  lemma HeaderVerdict(buf: Bytes)
    requires |buf| >= 1
    ensures var f: int, d := buf[0], PeekFrameHeader(buf);
            && (f >= 8 || f == 5 || f == 7 ==> d == Violation)
            && (f == 0 || f == 1 || f == 4 ==>
                  d == if |buf| < 2 then NeedMore else Got(Header(f == 1, f == 4, 2, buf[1])))
            && (f == 2 || f == 3 || f == 6 ==>
                  d == if |buf| < 9 then NeedMore
                       else if Weigh(buf[1..9]) > 0x7FFF_FFFF_FFFF_FFFF then Violation
                       else Got(Header(f == 3, f == 6, 9, Weigh(buf[1..9]))))
  {
    hide FromBigEndian, Weigh;
    if |buf| >= 9 {
      FromBigEndianWeighs(buf[1..9]);
    }
  }

  /** The frame at the start of the buffer and what follows it. */
  function TryDecodeFrame(buf: Bytes): Decoded<Taken<Frame>> {
    match PeekFrameHeader(buf)
    case NeedMore => NeedMore
    case Violation => Violation
    case Got(h) =>
      if |buf| < h.headerLen + h.payloadLen then NeedMore
      else Got(Taken(Frame(h.more, h.command, buf[h.headerLen..h.headerLen + h.payloadLen]),
                     buf[h.headerLen + h.payloadLen..]))
  }

  /** The flags a frame may carry, and a body that fits in memory. */
  predicate Sendable(more: bool, command: bool, body: Bytes) {
    !(more && command) && |body| <= MAX_ALLOCATION
  }

  lemma HeaderReadsBack(more: bool, command: bool, size: nat, rest: Bytes)
    requires !(more && command) && size <= MAX_ALLOCATION
    ensures PeekFrameHeader(FrameHeader(more, command, size) + rest)
              == Got(Header(more, command, HeaderLen(size), size))
  {
    hide BigEndian, FromBigEndian;
    var buf := FrameHeader(more, command, size) + rest;
    if size > MAX_SHORT_FRAME_SIZE {
      assert buf[1..MAX_FRAME_HEADER_LEN] == BigEndian(size, 8);
      SizeRoundTrip(size);
    }
  }

  /** Decoding undoes encoding and leaves the bytes after the frame alone. */
  lemma FrameReadsBack(more: bool, command: bool, body: Bytes, rest: Bytes)
    requires Sendable(more, command, body)
    ensures TryDecodeFrame(EncodeFrame(more, command, body) + rest) == Got(Taken(Frame(more, command, body), rest))
  {
    hide PeekFrameHeader, FrameHeader;
    var header := FrameHeader(more, command, |body|);
    var buf := EncodeFrame(more, command, body) + rest;
    assert buf == header + (body + rest);
    HeaderReadsBack(more, command, |body|, body + rest);
    assert buf[|header|..|header| + |body|] == body;
    assert buf[|header| + |body|..] == rest;
  }

  lemma ShortHeaderNeedsMore(more: bool, command: bool, size: nat, k: nat)
    requires !(more && command) && k < HeaderLen(size)
    ensures PeekFrameHeader(FrameHeader(more, command, size)[..k]) == NeedMore
  {
    hide BigEndian, FromBigEndian;
  }

  /** On every proper prefix of a frame the decoder waits for more. */
  lemma PrefixNeedsMore(more: bool, command: bool, body: Bytes, k: nat)
    requires Sendable(more, command, body) && k < |EncodeFrame(more, command, body)|
    ensures TryDecodeFrame(EncodeFrame(more, command, body)[..k]) == NeedMore
  {
    hide PeekFrameHeader, FrameHeader;
    var header := FrameHeader(more, command, |body|);
    var buf := EncodeFrame(more, command, body)[..k];
    if k < |header| {
      assert buf == header[..k];
      ShortHeaderNeedsMore(more, command, |body|, k);
    } else {
      assert buf == header + body[..k - |header|];
      HeaderReadsBack(more, command, |body|, body[..k - |header|]);
    }
  }

  /** A verdict on a buffer does not change when more bytes arrive behind it. */
  lemma VerdictIsStable(buf: Bytes, more: Bytes)
    ensures TryDecodeFrame(buf).Violation? ==> TryDecodeFrame(buf + more).Violation?
    ensures TryDecodeFrame(buf).Got? ==>
              var taken := TryDecodeFrame(buf).value;
              TryDecodeFrame(buf + more) == Got(Taken(taken.item, taken.rest + more))
  {
    hide FromBigEndian;
    var all := buf + more;
    if |buf| >= MAX_FRAME_HEADER_LEN {
      assert all[1..MAX_FRAME_HEADER_LEN] == buf[1..MAX_FRAME_HEADER_LEN];
    }
    assert PeekFrameHeader(buf) != NeedMore ==> PeekFrameHeader(all) == PeekFrameHeader(buf);
    if TryDecodeFrame(buf).Got? {
      var h := PeekFrameHeader(buf).value;
      var end := h.headerLen + h.payloadLen;
      assert all[h.headerLen..end] == buf[h.headerLen..end];
      assert all[end..] == buf[end..] + more;
    }
  }

  /** The frames of one message: data frames up to the first without MORE. */
  function DecodeMessage(buf: Bytes): (d: Decoded<Taken<seq<Bytes>>>)
    ensures d.Got? ==> |d.value.rest| < |buf|
  {
    match TryDecodeFrame(buf)
    case NeedMore => NeedMore
    case Violation => Violation
    case Got(Taken(f, rest)) =>
      if f.command then Violation
      else if !f.more then Got(Taken([f.body], rest))
      else
        match DecodeMessage(rest)
        case NeedMore => NeedMore
        case Violation => Violation
        case Got(Taken(parts, after)) => Got(Taken([f.body] + parts, after))
  }

  /** A command frame is not part of a message. */
  lemma CommandIsNoPart(buf: Bytes)
    requires TryDecodeFrame(buf).Got? && TryDecodeFrame(buf).value.item.command
    ensures DecodeMessage(buf) == Violation
  {
  }

  predicate FitInMemory(parts: seq<Bytes>) {
    forall i :: 0 <= i < |parts| ==> |parts[i]| <= MAX_ALLOCATION
  }

  /** Reading the wire form of a message gives its parts back and stops at its end. */
  lemma {:induction false} MessageReadsBack(parts: seq<Bytes>, rest: Bytes)
    requires parts != [] && FitInMemory(parts)
    ensures DecodeMessage(EncodeParts(parts) + rest) == Got(Taken(parts, rest))
    decreases |parts|
  {
    hide TryDecodeFrame, EncodeFrame;
    var first := EncodeFrame(|parts| > 1, false, parts[0]);
    assert EncodeParts(parts) + rest == first + (EncodeParts(parts[1..]) + rest);
    FrameReadsBack(|parts| > 1, false, parts[0], EncodeParts(parts[1..]) + rest);
    if |parts| > 1 {
      MessageReadsBack(parts[1..], rest);
      assert [parts[0]] + parts[1..] == parts;
    } else {
      assert parts == [parts[0]];
      assert EncodeParts(parts[1..]) + rest == rest;
    }
  }

  /** No message's wire form is a prefix of another's: the encoding is unambiguous. */
  lemma EncodingUnambiguous(a: seq<Bytes>, b: seq<Bytes>, x: Bytes, y: Bytes)
    requires a != [] && b != [] && FitInMemory(a) && FitInMemory(b)
    requires EncodeParts(a) + x == EncodeParts(b) + y
    ensures a == b && x == y
  {
    MessageReadsBack(a, x);
    MessageReadsBack(b, y);
  }

  function DecodeAll(buf: Bytes): Decoded<seq<seq<Bytes>>>
    decreases |buf|
  {
    if buf == [] then Got([])
    else
      match DecodeMessage(buf)
      case NeedMore => NeedMore
      case Violation => Violation
      case Got(Taken(parts, rest)) =>
        match DecodeAll(rest)
        case NeedMore => NeedMore
        case Violation => Violation
        case Got(msgs) => Got([parts] + msgs)
  }

  predicate Transmittable(msgs: seq<seq<Bytes>>) {
    forall i :: 0 <= i < |msgs| ==> msgs[i] != [] && FitInMemory(msgs[i])
  }

  /** The reader of a stream recovers every message, with every boundary. */
  lemma {:induction false} StreamReadsBack(msgs: seq<seq<Bytes>>)
    requires Transmittable(msgs)
    ensures DecodeAll(EncodeAll(msgs)) == Got(msgs)
  {
    hide DecodeMessage, EncodeParts;
    if msgs != [] {
      MessageReadsBack(msgs[0], EncodeAll(msgs[1..]));
      StreamReadsBack(msgs[1..]);
      assert [msgs[0]] + msgs[1..] == msgs;
    }
  }

  lemma {:induction false} EncodeAllAppends(msgs: seq<seq<Bytes>>, parts: seq<Bytes>)
    ensures EncodeAll(msgs + [parts]) == EncodeAll(msgs) + EncodeParts(parts)
  {
    hide EncodeParts;
    if msgs == [] {
      assert (msgs + [parts])[1..] == [];
    } else {
      EncodeAllAppends(msgs[1..], parts);
      assert (msgs + [parts])[1..] == msgs[1..] + [parts];
    }
  }
}
