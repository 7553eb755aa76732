/** Machine integers of the program: fixed widths, wrapping arithmetic, and the bitwise
    AND by which the ring masks an index. */
module Machine {
  datatype Option<+T> = None | Some(value: T)

  const TWO_31: int := 0x8000_0000
  const TWO_32: int := 0x1_0000_0000
  const TWO_64: int := 0x1_0000_0000_0000_0000

  type uint8 = x: int | 0 <= x < 256
  type uint32 = x: int | 0 <= x < TWO_32
  type uint64 = x: int | 0 <= x < TWO_64
  type size_t = x: int | 0 <= x < TWO_64
  /** A signed `int`. Overflow has no meaning in the source, so Dafny must exclude it. */
  newtype int32 = x: int | -TWO_31 <= x < TWO_31

  function Abs(x: int): nat {
    if x < 0 then -x else x
  }

  function Min(x: int, y: int): int {
    if x < y then x else y
  }

  function AddWrap(x: size_t, y: size_t): size_t {
    (x + y) % TWO_64
  }

  function SubWrap(x: size_t, y: size_t): size_t {
    (x - y) % TWO_64
  }

  function AddU32(x: uint32, y: uint32): uint32 {
    (x + y) % TWO_32
  }

  /** Bitwise AND, one bit at a time. */
  function BitAnd(x: nat, y: nat): nat {
    if x == 0 || y == 0 then 0
    else (if x % 2 == 1 && y % 2 == 1 then 1 else 0) + 2 * BitAnd(x / 2, y / 2)
  }

  function Pow2(k: nat): (p: nat)
    ensures p >= 1
  {
    if k == 0 then 1 else 2 * Pow2(k - 1)
  }

  /** The two compile-time assertions on the capacity of a ring. */
  predicate RingSize(size: size_t) {
    size >= 2 && BitAnd(size, size - 1) == 0
  }

  lemma ModUnique(x: int, d: int, q: int, r: int)
    requires 0 <= r < d && x == d * q + r
    ensures x % d == r && x / d == q
  {
    var q', r' := x / d, x % d;
    assert d * (q - q') == r' - r;
    assert q - q' >= 1 ==> d * (q - q') >= d;
    assert q - q' <= -1 ==> d * (q - q') <= -d;
  }

  /** Every remainder is met once in any lap. */
  lemma InLap(start: nat, d: nat, r: nat) returns (i: nat)
    requires r < d
    ensures start <= i < start + d && i % d == r
  {
    var q, base := start / d, start % d;
    assert start == d * q + base;
    if base <= r {
      i := start + (r - base);
      ModUnique(i, d, q, r);
    } else {
      i := start + (r - base) + d;
      assert d * (q + 1) == d * q + d;
      ModUnique(i, d, q + 1, r);
    }
  }

  lemma BitAndSelf(x: nat)
    ensures BitAnd(x, x) == x
  {
    if x != 0 {
      BitAndSelf(x / 2);
    }
  }

  /** What passes the static assertions is a power of two. */
  lemma {:induction false} AssertedSizeIsPower(size: nat) returns (k: nat)
    requires size >= 1 && BitAnd(size, size - 1) == 0
    ensures size == Pow2(k)
  {
    if size == 1 {
      k := 0;
    } else if size % 2 == 1 {
      BitAndSelf(size / 2);
      assert false;
    } else {
      var j := AssertedSizeIsPower(size / 2);
      k := j + 1;
    }
  }

  lemma MulAssoc(x: int, y: int, z: int)
    ensures (x * y) * z == x * (y * z)
  {
  }

  lemma MulDistributes(x: int, y: int, z: int)
    ensures x * (y + z) == x * y + x * z
  {
  }

  lemma Euclid(x: int, d: int) returns (q: int, r: int)
    requires d > 0
    ensures x == d * q + r && 0 <= r < d && r == x % d && q == x / d
  {
    q, r := x / d, x % d;
  }

  /** Wrapping early changes no wrapped sum. */
  lemma WrapThenAdd(x: int, y: int)
    ensures (x % TWO_32 + y) % TWO_32 == (x + y) % TWO_32
  {
    var q, r := Euclid(x, TWO_32);
    var q', r' := Euclid(r + y, TWO_32);
    MulDistributes(TWO_32, q, q');
    ModUnique(x + y, TWO_32, q + q', r');
  }

  lemma ModDouble(x: nat, p: nat)
    requires p > 0
    ensures x % (2 * p) == x % 2 + 2 * ((x / 2) % p)
  {
    var q, m := Euclid(x / 2, p);
    MulAssoc(2, p, q);
    ModUnique(x, 2 * p, q, 2 * m + x % 2);
  }

  lemma ModMultiple(x: int, d: int, f: int)
    requires d > 0 && f > 0 && d * f > 0
    ensures (x % (d * f)) % d == x % d
  {
    var q, w := Euclid(x, d * f);
    var q', m := Euclid(w, d);
    MulAssoc(d, f, q);
    MulDistributes(d, f * q, q');
    ModUnique(x, d, f * q + q', m);
  }

  /** Masking with `2^k - 1` is the remainder modulo `2^k`. */
  lemma {:induction false} MaskIsMod(x: nat, k: nat)
    ensures BitAnd(x, Pow2(k) - 1) == x % Pow2(k)
  {
    if k > 0 {
      var p := Pow2(k - 1);
      MaskIsMod(x / 2, k - 1);
      ModDouble(x, p);
      BitAndOdd(x, p);
    }
  }

  lemma BitAndOdd(x: nat, p: nat)
    requires p >= 1
    ensures BitAnd(x, 2 * p - 1) == x % 2 + 2 * BitAnd(x / 2, p - 1)
  {
    assert (2 * p - 1) / 2 == p - 1 && (2 * p - 1) % 2 == 1;
    if x == 0 {
      assert BitAnd(x / 2, p - 1) == 0;
    }
  }

  lemma {:induction false} PowSplit(k: nat, n: nat)
    requires k <= n
    ensures Pow2(n) == Pow2(k) * Pow2(n - k)
  {
    if k > 0 {
      PowSplit(k - 1, n - 1);
    }
  }

  lemma {:induction false} PowMonotone(k: nat, n: nat)
    requires k <= n
    ensures Pow2(k) <= Pow2(n)
  {
    if k < n {
      PowMonotone(k, n - 1);
    }
  }

  lemma Pow64()
    ensures Pow2(64) == TWO_64
  {
    assert Pow2(8) == 256;
    PowSplit(8, 16);
    PowSplit(16, 32);
    PowSplit(32, 64);
  }

  /** A ring capacity divides the range of `size_t`. */
  lemma SizeDividesRange(size: size_t) returns (factor: int)
    requires RingSize(size)
    ensures size * factor == TWO_64 && factor > 0
  {
    var k := AssertedSizeIsPower(size);
    Pow64();
    if k > 64 {
      PowMonotone(64, k);
      assert false;
    }
    PowSplit(k, 64);
    factor := Pow2(64 - k);
  }

  /** Masking a wrapped counter finds the slot of the counter that never wraps. */
  lemma MaskOfWrapped(i: nat, size: size_t)
    requires RingSize(size)
    ensures BitAnd(i % TWO_64, size - 1) == i % size
  {
    var k := AssertedSizeIsPower(size);
    MaskIsMod(i % TWO_64, k);
    var f := SizeDividesRange(size);
    ModMultiple(i, size, f);
  }

  /** Wrapped subtraction of two counters at most one lap apart is their true distance. */
  lemma WrappedDistance(w: nat, r: nat)
    requires r <= w < r + TWO_64
    ensures SubWrap(w % TWO_64, r % TWO_64) == w - r
  {
  }

  lemma WrappedNext(i: nat)
    ensures AddWrap(i % TWO_64, 1) == (i + 1) % TWO_64
  {
  }
}
