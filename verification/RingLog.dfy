/** What the byte ring stores, as a log of records at absolute positions.

    The log is the reference definition of the ring: record `i` starts where record
    `i - 1` ends, the buffer holds a window of it, and every cursor of the
    implementation is the wrapped position of some record boundary. */
module RingLog {
  import opened Words

  const HEADER_SIZE: nat := 4

  const WRAP_SENTINEL: nat := 0xFFFF_FFFF

  datatype Record =
    | Entry(pos: nat, payload: Bytes)
    | Wrap(pos: nat)

  /** An entry occupies its header and payload, rounded up to four bytes. */
  function AlignedEntrySize(payloadLen: nat): nat {
    (HEADER_SIZE + payloadLen + 3) / 4 * 4
  }

  lemma EntrySizeCovers(payloadLen: nat)
    ensures HEADER_SIZE + payloadLen <= AlignedEntrySize(payloadLen) < HEADER_SIZE + payloadLen + 4
  {
  }

  function SizeOf(cap: nat, r: Record): nat
    requires cap > 0
  {
    match r
    case Entry(_, payload) => AlignedEntrySize(|payload|)
    case Wrap(pos) => cap - Offset(pos, cap)
  }

  function Sentinel(): (b: Bytes)
    ensures |b| == 4
  {
    [255, 255, 255, 255]
  }

  /** The bytes a record leaves in the buffer (alignment padding is never written). */
  function Image(r: Record): (b: Bytes)
    requires r.Entry? ==> |r.payload| < WRAP_SENTINEL
    ensures |b| >= HEADER_SIZE
  {
    match r
    case Entry(_, payload) => Le32(|payload|) + payload
    case Wrap(_) => Sentinel()
  }

  /** Where record `i` starts; for `i == |log|`, where the log ends. */
  function Boundary(cap: nat, log: seq<Record>, i: nat): nat
    requires cap > 0 && i <= |log|
  {
    if i == 0 then 0 else log[i - 1].pos + SizeOf(cap, log[i - 1])
  }

  predicate WellPlaced(cap: nat, r: Record)
    requires cap > 0
  {
    && r.pos % 4 == 0
    && match r
       case Entry(pos, payload) =>
         && |payload| < WRAP_SENTINEL
         && Offset(pos, cap) + AlignedEntrySize(|payload|) <= cap
       case Wrap(pos) => Offset(pos, cap) + HEADER_SIZE <= cap
  }

  predicate Chained(cap: nat, log: seq<Record>)
    requires cap > 0
  {
    && (forall i :: 0 <= i < |log| ==> WellPlaced(cap, log[i]))
    && (forall i {:trigger Boundary(cap, log, i)} :: 0 <= i < |log| ==> log[i].pos == Boundary(cap, log, i))
  }

  /** The record's bytes are in the buffer, in one contiguous piece. */
  predicate Intact(cap: nat, buf: Bytes, r: Record)
    requires cap > 0 && |buf| == cap && WellPlaced(cap, r)
  {
    var off := Offset(r.pos, cap);
    ImageFits(cap, r);
    buf[off..off + |Image(r)|] == Image(r)
  }

  lemma ImageFits(cap: nat, r: Record)
    requires cap > 0 && WellPlaced(cap, r)
    ensures Offset(r.pos, cap) + |Image(r)| <= cap
    ensures HEADER_SIZE <= |Image(r)| <= SizeOf(cap, r)
    ensures r.Entry? ==> SizeOf(cap, r) < |Image(r)| + 4
  {
  }

  lemma IntactByte(cap: nat, buf: Bytes, r: Record, k: nat)
    requires cap > 0 && |buf| == cap && WellPlaced(cap, r) && Intact(cap, buf, r) && k < |Image(r)|
    ensures Offset(r.pos, cap) + k < cap
    ensures buf[Offset(r.pos, cap) + k] == Image(r)[k]
  {
    hide Offset, Le32;
    ImageFits(cap, r);
    var off := Offset(r.pos, cap);
    assert buf[off..off + |Image(r)|][k] == Image(r)[k];
  }

  /** Every payload in the log, oldest first. */
  function Payloads(log: seq<Record>): seq<Bytes> {
    if log == [] then []
    else
      var rest := Payloads(log[..|log| - 1]);
      var last := log[|log| - 1];
      if last.Entry? then rest + [last.payload] else rest
  }

  lemma PayloadsSnoc(log: seq<Record>, r: Record)
    ensures Payloads(log + [r]) == if r.Entry? then Payloads(log) + [r.payload] else Payloads(log)
  {
    assert (log + [r])[..|log|] == log;
  }

  lemma {:induction false} PayloadsPrefix(log: seq<Record>, i: nat, j: nat)
    requires i <= j <= |log|
    ensures Payloads(log[..i]) <= Payloads(log[..j])
    decreases j
  {
    if i < j {
      PayloadsPrefix(log, i, j - 1);
      assert log[..j][..j - 1] == log[..j - 1];
    }
  }

  // ---- Geometry of a chained log ----

  lemma BoundaryStep(cap: nat, log: seq<Record>, i: nat)
    requires cap > 0 && Chained(cap, log) && i < |log|
    ensures Boundary(cap, log, i + 1) == Boundary(cap, log, i) + SizeOf(cap, log[i])
    ensures Boundary(cap, log, i + 1) >= Boundary(cap, log, i) + 4
  {
    ImageFits(cap, log[i]);
  }

  lemma {:induction false} BoundaryMonotone(cap: nat, log: seq<Record>, i: nat, j: nat)
    requires cap > 0 && Chained(cap, log) && i <= j <= |log|
    ensures Boundary(cap, log, i) + 4 * (j - i) <= Boundary(cap, log, j)
    decreases j
  {
    if i < j {
      BoundaryMonotone(cap, log, i, j - 1);
      BoundaryStep(cap, log, j - 1);
    }
  }

  /** Extending the log does not move its boundaries. */
  lemma BoundaryAppend(cap: nat, log: seq<Record>, r: Record, i: nat)
    requires cap > 0 && i <= |log|
    ensures Boundary(cap, log + [r], i) == Boundary(cap, log, i)
  {
  }

  lemma ChainedAppend(cap: nat, log: seq<Record>, r: Record)
    requires cap > 0 && Chained(cap, log) && WellPlaced(cap, r)
    requires r.pos == Boundary(cap, log, |log|)
    ensures Chained(cap, log + [r])
    ensures Boundary(cap, log + [r], |log| + 1) == r.pos + SizeOf(cap, r)
  {
    var log' := log + [r];
    forall i | 0 <= i < |log'| ensures log'[i].pos == Boundary(cap, log', i) && WellPlaced(cap, log'[i]) {
      BoundaryAppend(cap, log, r, i);
      if i < |log| {
        assert log'[i] == log[i];
      }
    }
  }

  lemma EntrySizeAligned(n: nat)
    ensures AlignedEntrySize(n) % 4 == 0
  {
    ModShift(0, (HEADER_SIZE + n + 3) / 4, 4);
  }

  lemma WrapSizeAligned(cap: nat, pos: nat)
    requires cap > 0 && cap % 4 == 0 && pos % 4 == 0
    ensures (cap - Offset(pos, cap)) % 4 == 0
  {
    AlignedOffset(pos, cap);
  }

  lemma SizeAligned(cap: nat, r: Record)
    requires PowerOfTwo(cap) && WellPlaced(cap, r)
    ensures SizeOf(cap, r) % 4 == 0
  {
    ImageFits(cap, r);
    match r {
      case Entry(_, payload) =>
        EntrySizeAligned(|payload|);
      case Wrap(pos) =>
        CapacityAligned(cap);
        WrapSizeAligned(cap, pos);
    }
  }

  lemma BoundaryAligned(cap: nat, log: seq<Record>, i: nat)
    requires PowerOfTwo(cap) && Chained(cap, log) && i <= |log|
    ensures Boundary(cap, log, i) % 4 == 0
  {
    hide SizeOf, PowerOfTwo;
    if i > 0 {
      assert WellPlaced(cap, log[i - 1]);
      SizeAligned(cap, log[i - 1]);
    }
  }

  /** A store at an absolute position at or after the log's end, less than one capacity
      past the record's start, misses the record. */
  lemma StoreMisses(cap: nat, buf: Bytes, r: Record, at: nat, b: byte)
    requires cap > 0 && |buf| == cap && WellPlaced(cap, r) && Intact(cap, buf, r)
    requires r.pos + SizeOf(cap, r) <= at < r.pos + cap
    ensures Intact(cap, buf[Offset(at, cap) := b], r)
  {
    hide Offset, Le32;
    var off, n := Offset(r.pos, cap), |Image(r)|;
    ImageFits(cap, r);
    var buf' := buf[Offset(at, cap) := b];
    forall k | off <= k < off + n ensures buf'[k] == buf[k] {
      var a := r.pos + (k - off);
      OffsetAdd(r.pos, k - off, cap);
      DistinctSlots(a, at, cap);
    }
    assert buf'[off..off + n] == buf[off..off + n];
  }
}
