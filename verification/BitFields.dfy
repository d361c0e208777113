/** Bits of integers (two's complement: division rounds down), bit fields, and little-endian bytes. */
module BitFields {
  import opened Bytes

  function BitOf(n: int, k: nat): int {
    n / Pow2(k) % 2
  }

  /** `(n >> lo) & ((1 << width) - 1)` */
  function Field(n: int, lo: nat, width: nat): (r: nat)
    ensures r < Pow2(width)
  {
    n / Pow2(lo) % Pow2(width)
  }

  /** `(n & !mask) | (v << lo)` for a value that fits. */
  function WithField(n: int, lo: nat, width: nat, v: int): int {
    n - Field(n, lo, width) * Pow2(lo) + v * Pow2(lo)
  }

  lemma DivMod(n: int, d: int, q: int, r: int)
    requires 0 <= r < d && n == q * d + r
    ensures n / d == q && n % d == r
  {
    var q', r' := n / d, n % d;
    assert n == q' * d + r';
    assert (q - q') * d == r' - r;
    Multiple(q - q', d);
  }

  lemma Multiple(m: int, d: int)
    requires d > 0 && -d < m * d < d
    ensures m == 0
  {
  }

  lemma Halve(n: int, p: int)
    requires p > 0
    ensures n / (2 * p) == n / 2 / p
    ensures n % (2 * p) == n / 2 % p * 2 + n % 2
  {
    var q := n / 2;
    var m, r := q / p, q % p;
    assert q == m * p + r;
    assert n == m * (2 * p) + (2 * r + n % 2);
    DivMod(n, 2 * p, m, 2 * r + n % 2);
  }

  lemma BitStep(n: int, k: nat)
    requires k > 0
    ensures BitOf(n, k) == BitOf(n / 2, k - 1)
  {
    Halve(n, Pow2(k - 1));
  }

  lemma FieldStep(n: int, lo: nat, width: nat)
    ensures lo > 0 ==> Field(n, lo, width) == Field(n / 2, lo - 1, width)
    ensures lo == 0 && width > 0 ==> Field(n, 0, width) == Field(n / 2, 0, width - 1) * 2 + n % 2
  {
    if lo > 0 { Halve(n, Pow2(lo - 1)); }
    if width > 0 { Halve(n, Pow2(width - 1)); }
  }

  lemma {:induction false} FieldBits(n: int, lo: nat, width: nat, k: nat)
    requires k < width
    ensures BitOf(Field(n, lo, width), k) == BitOf(n, lo + k)
    decreases lo, width
  {
    hide BitOf, Field;
    FieldStep(n, lo, width);
    if lo > 0 {
      FieldBits(n / 2, lo - 1, width, k);
      BitStep(n, lo + k);
    } else if k > 0 {
      FieldBits(n / 2, 0, width - 1, k - 1);
      BitStep(n, k);
      BitStep(Field(n, 0, width), k);
    } else {
      LowBit(n);
      LowBit(Field(n, 0, width));
    }
  }

  lemma LowBit(n: int)
    ensures BitOf(n, 0) == n % 2
  {
    assert Pow2(0) == 1;
  }

  lemma WithFieldStep(n: int, lo: nat, width: nat, v: int)
    ensures lo > 0 ==> WithField(n, lo, width, v) == WithField(n / 2, lo - 1, width, v) * 2 + n % 2
    ensures lo == 0 && width > 0 ==> WithField(n, 0, width, v) == WithField(n / 2, 0, width - 1, v / 2) * 2 + v % 2
    ensures lo == 0 && width == 0 ==> WithField(n, 0, 0, v) == n + v
  {
    FieldStep(n, lo, width);
    if lo > 0 {
      var f, p := Field(n, lo, width), Pow2(lo - 1);
      assert f * (2 * p) == f * p * 2 && v * (2 * p) == v * p * 2;
    }
  }

  lemma {:induction false} WithFieldBits(n: int, lo: nat, width: nat, v: int, k: nat)
    requires 0 <= v < Pow2(width)
    ensures BitOf(WithField(n, lo, width, v), k) == if lo <= k < lo + width then BitOf(v, k - lo) else BitOf(n, k)
    decreases lo, width
  {
    hide BitOf, WithField;
    WithFieldStep(n, lo, width, v);
    LowBit(n);
    LowBit(v);
    var m := WithField(n, lo, width, v);
    LowBit(m);
    if lo > 0 {
      if k > 0 {
        BitStep(m, k);
        BitStep(n, k);
        WithFieldBits(n / 2, lo - 1, width, v, k - 1);
      }
    } else if width > 0 && k > 0 {
      BitStep(m, k);
      BitStep(n, k);
      BitStep(v, k);
      WithFieldBits(n / 2, 0, width - 1, v / 2, k - 1);
    }
  }

  lemma {:induction false} SameBitsSameNumber(a: int, b: int, width: nat)
    requires 0 <= a < Pow2(width) && 0 <= b < Pow2(width)
    requires forall k: nat | k < width :: BitOf(a, k) == BitOf(b, k)
    ensures a == b
    decreases width
  {
    hide BitOf;
    if width == 0 {
    } else {
      LowBit(a);
      LowBit(b);
      assert BitOf(a, 0) == BitOf(b, 0);
      forall k: nat | k < width - 1 ensures BitOf(a / 2, k) == BitOf(b / 2, k) {
        BitStep(a, k + 1);
        BitStep(b, k + 1);
      }
      SameBitsSameNumber(a / 2, b / 2, width - 1);
    }
  }

  // ----- little-endian bytes ---------------------------------------------------

  function FromLe(s: Blob): (n: nat) {
    if s == [] then 0 else s[0] + 256 * FromLe(s[1..])
  }

  /** The low `size` bytes of `n`. */
  function Le(n: int, size: nat): (s: Blob)
    ensures |s| == size
    decreases size
  {
    if size == 0 then [] else [n % 256] + Le(n / 256, size - 1)
  }

  function Bit(s: Blob, k: nat): int
    requires k < 8 * |s|
  {
    BitOf(s[k / 8], k % 8)
  }

  lemma PowBytes(size: nat)
    ensures Pow2(8 * (size + 1)) == 256 * Pow2(8 * size)
  {
    var k := 8 * size;
    assert Pow2(k + 2) == 4 * Pow2(k) && Pow2(k + 4) == 4 * Pow2(k + 2);
    assert Pow2(k + 6) == 4 * Pow2(k + 4) && Pow2(k + 8) == 4 * Pow2(k + 6);
  }

  lemma WordPowers()
    ensures Pow2(8) == 0x100 && Pow2(16) == 0x1_0000 && Pow2(32) == 0x1_0000_0000
  {
    PowBytes(0);
    PowBytes(1);
    PowBytes(2);
    PowBytes(3);
  }

  lemma {:induction false} FromLeBound(s: Blob)
    ensures FromLe(s) < Pow2(8 * |s|)
    decreases |s|
  {
    if s == [] {
    } else {
      FromLeBound(s[1..]);
      PowBytes(|s| - 1);
    }
  }

  lemma LowByte(n: int, p: int)
    requires p > 0
    ensures n % (256 * p) == n / 256 % p * 256 + n % 256
  {
    var q := n / 256;
    var m, r := q / p, q % p;
    assert q == m * p + r;
    assert n == m * (256 * p) + (256 * r + n % 256);
    DivMod(n, 256 * p, m, 256 * r + n % 256);
  }

  lemma {:induction false} FromLeOfLe(n: int, size: nat)
    ensures FromLe(Le(n, size)) == n % Pow2(8 * size)
    decreases size
  {
    if size == 0 {
      assert n % 1 == 0;
    } else {
      FromLeOfLe(n / 256, size - 1);
      PowBytes(size - 1);
      LowByte(n, Pow2(8 * (size - 1)));
      assert Le(n, size)[1..] == Le(n / 256, size - 1);
    }
  }

  lemma {:induction false} LeOfFromLe(s: Blob)
    ensures Le(FromLe(s), |s|) == s
    decreases |s|
  {
    if s == [] {
    } else {
      LeOfFromLe(s[1..]);
      DivMod(FromLe(s), 256, FromLe(s[1..]), s[0]);
    }
  }

  /** Bit `k` of a byte string is bit `k` of its number. */
  lemma {:induction false} FromLeBits(s: Blob, k: nat)
    requires k < 8 * |s|
    ensures BitOf(FromLe(s), k) == Bit(s, k)
    decreases |s|
  {
    var n, rest := FromLe(s), FromLe(s[1..]);
    DivMod(n, 256, rest, s[0]);
    assert Pow2(8) == 256;
    if k < 8 {
      assert Pow2(0) == 1 && Field(n, 0, 8) == s[0];
      FieldBits(n, 0, 8, k);
    } else {
      FromLeBits(s[1..], k - 8);
      ShiftByte(n, k);
      assert s[1..][(k - 8) / 8] == s[k / 8] && (k - 8) % 8 == k % 8;
    }
  }

  lemma ShiftByte(n: int, k: nat)
    requires k >= 8
    ensures BitOf(n, k) == BitOf(n / 256, k - 8)
  {
    hide BitOf;
    BitStep(n, k); BitStep(n / 2, k - 1);
    BitStep(n / 4, k - 2); BitStep(n / 8, k - 3);
    BitStep(n / 16, k - 4); BitStep(n / 32, k - 5);
    BitStep(n / 64, k - 6); BitStep(n / 128, k - 7);
    assert n / 2 / 2 == n / 4 && n / 4 / 2 == n / 8 && n / 8 / 2 == n / 16 && n / 16 / 2 == n / 32;
    assert n / 32 / 2 == n / 64 && n / 64 / 2 == n / 128 && n / 128 / 2 == n / 256;
  }

  lemma LeBits(n: int, size: nat, k: nat)
    requires k < 8 * size
    ensures Bit(Le(n, size), k) == BitOf(n, k)
  {
    hide BitOf;
    FromLeBits(Le(n, size), k);
    FromLeOfLe(n, size);
    assert Field(n, 0, 8 * size) == n % Pow2(8 * size) by { assert Pow2(0) == 1; }
    FieldBits(n, 0, 8 * size, k);
  }

  /** Bytes are their bits. */
  lemma SameBitsSameByte(a: Byte, b: Byte)
    requires forall k: nat | k < 8 :: BitOf(a, k) == BitOf(b, k)
    ensures a == b
  {
    assert Pow2(8) == 256;
    SameBitsSameNumber(a, b, 8);
  }
}
