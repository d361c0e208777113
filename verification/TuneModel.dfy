/**
 The tune's page bytes and the typed constants laid over them: raw reads and writes, bit fields, and
 scaled numbers over the reals.
 */
module TuneModel {
  import opened Options
  import opened Bytes
  import opened BitFields

  datatype DataType = U08 | S08 | U16 | S16 | U32 | S32 | Ascii

  function Size(ty: DataType): (n: nat)
    ensures n == 1 || n == 2 || n == 4
  {
    match ty
    case U16 | S16 => 2
    case U32 | S32 => 4
    case _ => 1
  }

  predicate Signed(ty: DataType) {
    ty == S08 || ty == S16 || ty == S32
  }

  function Lowest(ty: DataType): int {
    match ty
    case S08 => -0x80
    case S16 => -0x8000
    case S32 => -0x8000_0000
    case _ => 0
  }

  function Highest(ty: DataType): int {
    match ty
    case U08 | Ascii => 0xff
    case S08 => 0x7f
    case U16 => 0xffff
    case S16 => 0x7fff
    case U32 => 0xffff_ffff
    case S32 => 0x7fff_ffff
  }

  predicate InRange(ty: DataType, raw: int) {
    Lowest(ty) <= raw <= Highest(ty)
  }

  // ----- raw reads and writes --------------------------------------------------

  predicate InPage(bytes: Blob, offset: nat, ty: DataType) {
    offset + Size(ty) <= |bytes|
  }

  function ReadRaw(bytes: Blob, offset: nat, ty: DataType): (r: Option<int>)
    ensures r.Some? <==> InPage(bytes, offset, ty)
  {
    if !InPage(bytes, offset, ty) then None else
    var unsigned := FromLe(bytes[offset..offset + Size(ty)]);
    Some(if Signed(ty) && unsigned > Highest(ty) then unsigned - Pow2(8 * Size(ty)) else unsigned)
  }

  /** Keeps the low bytes of `raw`; out of the page nothing is written. */
  function WriteRaw(bytes: Blob, offset: nat, ty: DataType, raw: int): (r: Blob)
    ensures |r| == |bytes|
  {
    if InPage(bytes, offset, ty) then Patch(bytes, offset, Le(raw, Size(ty))) else bytes
  }

  lemma Widths(ty: DataType)
    ensures Pow2(8 * Size(ty)) == (if Signed(ty) then 2 * (Highest(ty) + 1) else Highest(ty) + 1)
    ensures Lowest(ty) == if Signed(ty) then -Highest(ty) - 1 else 0
  {
    hide Pow2;
    WordPowers();
  }

  lemma ReadInRange(bytes: Blob, offset: nat, ty: DataType)
    requires InPage(bytes, offset, ty)
    ensures InRange(ty, ReadRaw(bytes, offset, ty).value)
  {
    hide Pow2;
    Widths(ty);
    FromLeBound(bytes[offset..offset + Size(ty)]);
  }

  /** Every value of the type reads back as written. */
  lemma ReadAfterWrite(bytes: Blob, offset: nat, ty: DataType, raw: int)
    requires InPage(bytes, offset, ty) && InRange(ty, raw)
    ensures ReadRaw(WriteRaw(bytes, offset, ty, raw), offset, ty) == Some(raw)
  {
    hide Pow2, Le, FromLe;
    var s := Le(raw, Size(ty));
    Widths(ty);
    FromLeOfLe(raw, Size(ty));
    var d := Pow2(8 * Size(ty));
    if raw < 0 { DivMod(raw, d, -1, raw + d); } else { DivMod(raw, d, 0, raw); }
    assert WriteRaw(bytes, offset, ty, raw)[offset..offset + Size(ty)] == s;
  }

  /** Writing back what is there changes nothing, so a write in range changes the page only with the value. */
  lemma WriteWhatIsThere(bytes: Blob, offset: nat, ty: DataType)
    requires InPage(bytes, offset, ty)
    ensures WriteRaw(bytes, offset, ty, ReadRaw(bytes, offset, ty).value) == bytes
  {
    hide Pow2, Le, FromLe;
    var s := bytes[offset..offset + Size(ty)];
    var raw := ReadRaw(bytes, offset, ty).value;
    var d := Pow2(8 * Size(ty));
    LeOfFromLe(s);
    LeModulo(FromLe(s), Size(ty));
    LeModulo(raw, Size(ty));
    if raw != FromLe(s) { Shifted(FromLe(s), d); }
  }

  lemma Shifted(n: int, d: int)
    requires d > 0
    ensures (n - d) % d == n % d
  {
    DivMod(n - d, d, n / d - 1, n % d);
  }

  /** The low bytes of a number are those of its remainder. */
  lemma LeModulo(n: int, size: nat)
    ensures Le(n, size) == Le(n % Pow2(8 * size), size)
  {
    FromLeOfLe(n, size);
    LeOfFromLe(Le(n, size));
  }

  lemma ReadBits(bytes: Blob, offset: nat, ty: DataType, k: nat)
    requires InPage(bytes, offset, ty) && k < 8 * Size(ty)
    ensures BitOf(ReadRaw(bytes, offset, ty).value, k) == Bit(bytes, 8 * offset + k)
  {
    hide Pow2, BitOf, FromLe;
    var s := bytes[offset..offset + Size(ty)];
    var raw := ReadRaw(bytes, offset, ty).value;
    FromLeBits(s, k);
    assert Bit(s, k) == Bit(bytes, 8 * offset + k) by {
      assert (8 * offset + k) / 8 == offset + k / 8 && (8 * offset + k) % 8 == k % 8;
    }
    if raw != FromLe(s) { SameLowBits(FromLe(s), 8 * Size(ty), k); }
  }

  lemma SameLowBits(n: int, width: nat, k: nat)
    requires k < width
    ensures BitOf(n - Pow2(width), k) == BitOf(n, k)
  {
    hide BitOf;
    Shifted(n, Pow2(width));
    assert Pow2(0) == 1;
    assert Field(n - Pow2(width), 0, width) == Field(n, 0, width);
    FieldBits(n, 0, width, k);
    FieldBits(n - Pow2(width), 0, width, k);
  }

  lemma WriteBits(bytes: Blob, offset: nat, ty: DataType, raw: int, k: nat)
    requires k < 8 * |bytes|
    ensures Bit(WriteRaw(bytes, offset, ty, raw), k) ==
      if InPage(bytes, offset, ty) && 8 * offset <= k < 8 * offset + 8 * Size(ty) then BitOf(raw, k - 8 * offset)
      else Bit(bytes, k)
  {
    hide BitOf, Le;
    if InPage(bytes, offset, ty) && 8 * offset <= k < 8 * offset + 8 * Size(ty) {
      LeBits(raw, Size(ty), k - 8 * offset);
      assert (k - 8 * offset) / 8 == k / 8 - offset && (k - 8 * offset) % 8 == k % 8;
    }
  }

  ghost predicate SameBits(a: Blob, b: Blob, pos: nat, width: nat)
    requires pos + width <= 8 * |a| && |a| == |b|
  {
    forall k: nat | pos <= k < pos + width :: Bit(a, k) == Bit(b, k)
  }

  lemma SameByte(a: Blob, b: Blob, j: nat)
    requires j < |a| == |b| && SameBits(a, b, 8 * j, 8)
    ensures a[j] == b[j]
  {
    hide BitOf;
    forall k: nat | k < 8 ensures BitOf(a[j], k) == BitOf(b[j], k) {
      assert Bit(a, 8 * j + k) == Bit(b, 8 * j + k);
      assert (8 * j + k) / 8 == j && (8 * j + k) % 8 == k;
    }
    SameBitsSameByte(a[j], b[j]);
  }

  /** A read depends on the bits it covers and on no other. */
  lemma ReadsSame(a: Blob, b: Blob, offset: nat, ty: DataType)
    requires |a| == |b| && InPage(a, offset, ty) && SameBits(a, b, 8 * offset, 8 * Size(ty))
    ensures ReadRaw(a, offset, ty) == ReadRaw(b, offset, ty)
  {
    hide Pow2, FromLe, Bit;
    forall j: nat | offset <= j < offset + Size(ty) ensures a[j] == b[j] {
      SameByte(a, b, j);
    }
    assert a[offset..offset + Size(ty)] == b[offset..offset + Size(ty)];
  }

  lemma FieldReadsSame(a: Blob, b: Blob, offset: nat, ty: DataType, lo: nat, width: nat)
    requires |a| == |b| && InPage(a, offset, ty) && lo + width <= 8 * Size(ty)
    requires SameBits(a, b, 8 * offset + lo, width)
    ensures Field(ReadRaw(a, offset, ty).value, lo, width) == Field(ReadRaw(b, offset, ty).value, lo, width)
  {
    hide Pow2, BitOf, Field, ReadRaw, Bit;
    var m, n := ReadRaw(a, offset, ty).value, ReadRaw(b, offset, ty).value;
    forall k: nat | k < width ensures BitOf(Field(m, lo, width), k) == BitOf(Field(n, lo, width), k) {
      FieldBits(m, lo, width, k);
      FieldBits(n, lo, width, k);
      ReadBits(a, offset, ty, lo + k);
      ReadBits(b, offset, ty, lo + k);
      assert Bit(a, 8 * offset + lo + k) == Bit(b, 8 * offset + lo + k);
    }
    SameBitsSameNumber(Field(m, lo, width), Field(n, lo, width), width);
  }

  // ----- scaled numbers --------------------------------------------------------

  /** To the nearest integer, halves away from zero. */
  function Round(x: real): int {
    if x >= 0.0 then (x + 0.5).Floor else -((-x + 0.5).Floor)
  }

  function Abs(x: real): (r: real)
    ensures r >= 0.0
  {
    if x < 0.0 then -x else x
  }

  lemma RoundIsNear(x: real)
    ensures Abs(Round(x) as real - x) <= 0.5
  {}

  lemma RoundWithin(n: int, e: real)
    requires -0.5 < e < 0.5
    ensures Round(n as real + e) == n
  {}

  function Clamp(ty: DataType, raw: int): (r: int)
    ensures InRange(ty, r)
  {
    if raw < Lowest(ty) then Lowest(ty) else if raw > Highest(ty) then Highest(ty) else raw
  }

  function Decode(raw: int, scale: real, translate: real): real {
    (raw as real + translate) * scale
  }

  /** The cast to 64 bits saturates, which the clamp to the narrower type absorbs. */
  function Encode(ty: DataType, user: real, scale: real, translate: real): (raw: int)
    requires scale != 0.0
    ensures InRange(ty, raw)
  {
    Clamp(ty, Round(user / scale - translate))
  }

  lemma EncodeDecode(ty: DataType, raw: int, scale: real, translate: real)
    requires InRange(ty, raw) && scale != 0.0
    ensures Encode(ty, Decode(raw, scale, translate), scale, translate) == raw
  {
    assert (raw as real + translate) * scale / scale == raw as real + translate;
  }

  /** No representable value is closer to what the user asked for than the one stored. */
  lemma EncodeIsClosest(ty: DataType, user: real, scale: real, translate: real, other: int)
    requires scale != 0.0 && InRange(ty, other)
    ensures var raw := Encode(ty, user, scale, translate);
      Abs(Decode(raw, scale, translate) - user) <= Abs(Decode(other, scale, translate) - user)
  {
    hide *;
    var x := user / scale - translate;
    var raw := Encode(ty, user, scale, translate);
    ClampIsClosest(ty, x, other);
    EncodeIs(ty, user, scale, translate);
    Distance(raw, user, scale, translate);
    Distance(other, user, scale, translate);
    Stretch(Abs(raw as real - x), Abs(other as real - x), Abs(scale));
  }

  lemma EncodeIs(ty: DataType, user: real, scale: real, translate: real)
    requires scale != 0.0
    ensures Encode(ty, user, scale, translate) == Clamp(ty, Round(user / scale - translate))
  {}

  lemma ClampIsClosest(ty: DataType, x: real, other: int)
    requires InRange(ty, other)
    ensures Abs(Clamp(ty, Round(x)) as real - x) <= Abs(other as real - x)
  {
    hide Lowest, Highest, Round;
    RoundIsNear(x);
    var n := Round(x);
    if n < Lowest(ty) {
      Below(n, x, Lowest(ty), other);
    } else if n > Highest(ty) {
      Below(-n, -x, -Highest(ty), -other);
    } else if n != other {
      Inside(n, x, other);
    }
  }

  lemma Below(n: int, x: real, lo: int, other: int)
    requires n < lo <= other && Abs(n as real - x) <= 0.5
    ensures Abs(lo as real - x) <= Abs(other as real - x)
  {
    assert n as real <= lo as real - 1.0 && lo as real <= other as real;
  }

  lemma Inside(n: int, x: real, other: int)
    requires n != other && Abs(n as real - x) <= 0.5
    ensures Abs(n as real - x) <= Abs(other as real - x)
  {
    if n < other { assert n as real + 1.0 <= other as real; } else { assert other as real + 1.0 <= n as real; }
  }

  lemma Stretch(a: real, b: real, s: real)
    requires a <= b && 0.0 <= s
    ensures a * s <= b * s
  {}

  lemma Distance(raw: int, user: real, scale: real, translate: real)
    requires scale != 0.0
    ensures Abs(Decode(raw, scale, translate) - user) == Abs(raw as real - (user / scale - translate)) * Abs(scale)
  {
    var d := raw as real - (user / scale - translate);
    assert user / scale * scale == user;
    assert Decode(raw, scale, translate) - user == d * scale;
  }
}
