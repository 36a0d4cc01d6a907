/** Machine words shared by the two rings: bytes, 64-bit wrapping cursors,
    power-of-two capacities and the 4-byte length header. */
module Words {

  type byte = x: int | 0 <= x < 256

  type Bytes = seq<byte>

  /** Cursors of both rings are unsigned 64-bit integers. */
  const TWO_64: nat := 0x1_0000_0000_0000_0000

  const TWO_32: nat := 0x1_0000_0000

  type Word32 = x: int | 0 <= x < 0x1_0000_0000

  function WrappingAdd(a: nat, b: nat): nat {
    (a + b) % TWO_64
  }

  function WrappingSub(a: nat, b: nat): nat {
    (a - b) % TWO_64
  }

  predicate PowerOfTwo(n: nat) {
    n == 1 || (n > 1 && n % 2 == 0 && PowerOfTwo(n / 2))
  }

  // ---- Modular arithmetic ----

  lemma ModShift(x: int, k: int, m: nat)
    requires m > 0
    ensures (x + k * m) % m == x % m
    decreases if k < 0 then -k else k
  {
    if k > 0 {
      ModShift(x, k - 1, m);
      assert x + k * m == (x + (k - 1) * m) + m;
      ModStep(x + (k - 1) * m, m);
    } else if k < 0 {
      ModShift(x, k + 1, m);
      assert x + k * m == (x + (k + 1) * m) - m;
      ModStep(x + k * m, m);
    }
  }

  lemma ModStep(x: int, m: nat)
    requires m > 0
    ensures (x + m) % m == x % m
  {
    var q, r := x / m, x % m;
    assert x + m == (q + 1) * m + r;
    ModUnique(x + m, q + 1, r, m);
  }

  lemma ModUnique(x: int, q: int, r: int, m: nat)
    requires m > 0 && x == q * m + r && 0 <= r < m
    ensures x / m == q && x % m == r
  {
    var q', r' := x / m, x % m;
    assert x == q' * m + r';
    assert (q - q') * m == r' - r;
    MulBounds(q - q', m);
  }

  lemma MulBounds(k: int, m: nat)
    ensures k >= 1 ==> k * m >= m
    ensures k <= -1 ==> k * m + m <= 0
  {
    assert k >= 1 ==> k * m == (k - 1) * m + m;
    assert k <= -1 ==> k * m == (k + 1) * m - m;
  }

  lemma SmallMod(x: nat, m: nat)
    requires x < m
    ensures x % m == x
  {
    ModUnique(x, 0, x, m);
  }

  /** The slot of a position in a ring of `m` slots: `a & (m - 1)` in the source, `a % m`
      here. Written by repeated subtraction so that proofs use it through the lemmas below
      rather than through non-linear arithmetic. */
  function Offset(a: nat, m: nat): (o: nat)
    requires m > 0
    ensures o < m
    decreases a
  {
    if a < m then a else Offset(a - m, m)
  }

  lemma {:induction false} OffsetIsMod(a: nat, m: nat)
    requires m > 0
    ensures Offset(a, m) == a % m
    decreases a
  {
    if a < m {
      SmallMod(a, m);
    } else {
      OffsetIsMod(a - m, m);
      ModStep(a - m, m);
    }
  }

  lemma DistinctResidues(a: nat, b: nat, m: nat)
    requires 0 < b - a < m
    ensures a % m != b % m
  {
    var qa, qb := a / m, b / m;
    assert a == qa * m + a % m;
    assert b == qb * m + b % m;
    assert (qb - qa) * m == b - a - (b % m - a % m);
    MulBounds(qb - qa, m);
  }

  /** Two positions less than one capacity apart never share a slot. */
  lemma DistinctSlots(a: nat, b: nat, m: nat)
    requires 0 < b - a < m
    ensures Offset(a, m) != Offset(b, m)
  {
    OffsetIsMod(a, m);
    OffsetIsMod(b, m);
    DistinctResidues(a, b, m);
  }

  /** Offsets do not depend on the 64-bit wrap when the capacity divides 2^64. */
  lemma OffsetOfWrapped(a: nat, m: nat)
    requires m > 0 && TWO_64 % m == 0
    ensures Offset(a % TWO_64, m) == Offset(a, m)
  {
    var k := TWO_64 / m;
    var q := a / TWO_64;
    assert a == q * TWO_64 + a % TWO_64;
    assert TWO_64 == k * m;
    assert q * TWO_64 == (q * k) * m;
    ModShift(a % TWO_64, q * k, m);
    OffsetIsMod(a, m);
    OffsetIsMod(a % TWO_64, m);
  }

  /** Adding without crossing a capacity boundary adds to the offset. */
  lemma OffsetAdd(a: nat, n: nat, m: nat)
    requires m > 0 && Offset(a, m) + n < m
    ensures Offset(a + n, m) == Offset(a, m) + n
  {
    OffsetIsMod(a, m);
    OffsetIsMod(a + n, m);
    ModUnique(a + n, a / m, a % m + n, m);
  }

  /** Skipping the rest of the buffer lands on slot zero. */
  lemma OffsetWrap(a: nat, m: nat)
    requires m > 0
    ensures Offset(a + (m - Offset(a, m)), m) == 0
  {
    var q := a / m;
    OffsetIsMod(a, m);
    OffsetIsMod(a + (m - a % m), m);
    assert a + (m - a % m) == (q + 1) * m + 0;
    ModUnique(a + (m - a % m), q + 1, 0, m);
  }

  /** An aligned position has an aligned offset in an aligned ring. */
  lemma {:induction false} AlignedOffset(a: nat, m: nat)
    requires m > 0 && m % 4 == 0 && a % 4 == 0
    ensures Offset(a, m) % 4 == 0
    decreases a
  {
    if a >= m {
      AlignedOffset(a - m, m);
    }
  }

  /** The wrapped difference is the true one while it stays below 2^64. */
  lemma WrappedDifference(a: nat, b: nat)
    requires 0 <= a - b < TWO_64
    ensures WrappingSub(a % TWO_64, b % TWO_64) == a - b
  {
    var qa, qb := a / TWO_64, b / TWO_64;
    ModShift(a - b, qb - qa, TWO_64);
    assert a % TWO_64 - b % TWO_64 == (a - b) + (qb - qa) * TWO_64;
    SmallMod(a - b, TWO_64);
  }

  lemma WrappedSum(a: nat, n: nat)
    ensures WrappingAdd(a % TWO_64, n) == (a + n) % TWO_64
  {
    ModShift(a % TWO_64 + n, a / TWO_64, TWO_64);
    assert a + n == (a % TWO_64 + n) + (a / TWO_64) * TWO_64;
  }

  lemma WrappedAligned(a: nat)
    ensures a % TWO_64 % 4 == a % 4
  {
  }

  /** Wrapped cursors less than 2^64 apart are equal only if the true ones are. */
  lemma WrappedEquality(a: nat, b: nat)
    requires 0 <= b - a < TWO_64
    ensures (a % TWO_64 == b % TWO_64) <==> a == b
  {
    if a != b {
      DistinctResidues(a, b, TWO_64);
    }
  }

  // ---- Powers of two ----

  lemma {:induction false} PowersDivide(n: nat, m: nat)
    requires PowerOfTwo(n) && PowerOfTwo(m) && n <= m
    ensures m % n == 0
  {
    if n != 1 {
      PowersDivide(n / 2, m / 2);
      var k := (m / 2) / (n / 2);
      assert m / 2 == k * (n / 2);
      assert m == k * n;
      ModUnique(m, k, 0, n);
    }
  }

  lemma {:induction false} PowerProduct(a: nat, b: nat)
    requires PowerOfTwo(a) && PowerOfTwo(b)
    ensures PowerOfTwo(a * b)
  {
    if a != 1 {
      PowerProduct(a / 2, b);
      assert a == 2 * (a / 2);
      assert a * b == 2 * ((a / 2) * b);
      assert a * b / 2 == (a / 2) * b;
      MulBounds(a / 2, b);
    }
  }

  /** A ring capacity is a power of two that a machine word can hold. */
  predicate IsCapacity(cap: nat) {
    PowerOfTwo(cap) && cap < TWO_64
  }

  lemma CapacityDivides(cap: nat)
    requires IsCapacity(cap)
    ensures cap > 0 && TWO_64 % cap == 0
  {
    assert PowerOfTwo(256) by {
      assert PowerOfTwo(2);
      PowerProduct(2, 2);
      PowerProduct(4, 4);
      PowerProduct(16, 16);
    }
    PowerProduct(256, 256);
    PowerProduct(65536, 65536);
    PowerProduct(TWO_32, TWO_32);
    PowersDivide(cap, TWO_64);
  }

  /** The offset of a wrapped cursor is the offset of the position it stands for. */
  lemma CursorOffset(a: nat, cap: nat)
    requires IsCapacity(cap)
    ensures cap > 0 && Offset(a % TWO_64, cap) == Offset(a, cap)
  {
    CapacityDivides(cap);
    OffsetOfWrapped(a, cap);
  }

  lemma CapacityAligned(cap: nat)
    requires PowerOfTwo(cap) && cap >= 4
    ensures cap % 4 == 0
  {
    PowersDivide(4, cap);
  }

  // ---- Copies ----

  /** `buf` with `bytes` written over it from `offset` on. */
  function Splice(buf: Bytes, offset: nat, bytes: Bytes): Bytes
    requires offset + |bytes| <= |buf|
  {
    buf[..offset] + bytes + buf[offset + |bytes|..]
  }

  /** Writing one of the bytes first makes no difference. */
  lemma SpliceOver(buf: Bytes, offset: nat, bytes: Bytes, i: nat)
    requires offset + |bytes| <= |buf| && i < |bytes|
    ensures Splice(buf[offset + i := bytes[i]], offset, bytes) == Splice(buf, offset, bytes)
  {
  }

  lemma SpliceSame(buf: Bytes, offset: nat, bytes: Bytes)
    requires offset + |bytes| <= |buf| && buf[offset..offset + |bytes|] == bytes
    ensures Splice(buf, offset, bytes) == buf
  {
    assert buf == buf[..offset] + buf[offset..offset + |bytes|] + buf[offset + |bytes|..];
  }

  // ---- The length header ----

  /** The four header bytes of a length. The source uses the native byte order; any fixed
      order gives the same results because only the two ring halves read it. */
  function Le32(n: nat): (b: Bytes)
    requires n < TWO_32
    ensures |b| == 4
  {
    [n % 256, n / 256 % 256, n / 65536 % 256, n / 16777216]
  }

  function FromLe32(b: Bytes): nat
    requires |b| == 4
  {
    var b0: int, b1: int, b2: int, b3: int := b[0], b[1], b[2], b[3];
    b0 + 256 * b1 + 65536 * b2 + 16777216 * b3
  }

  lemma Le32RoundTrip(n: nat)
    requires n < TWO_32
    ensures FromLe32(Le32(n)) == n
  {
    var a := n / 256;
    var b := a / 256;
    var c := b / 256;
    assert n == 256 * a + n % 256;
    assert a == 256 * b + a % 256;
    assert b == 256 * c + b % 256;
    assert n / 65536 == b && n / 16777216 == c;
  }
}
