/**
 CRC-32 as used by the envelope and by the page check: the reflected IEEE
 polynomial of section 8 of RFC 1952, defined bit by bit, and the proof that no
 change confined to four consecutive bytes can escape it.
 */
module Crc32 {
  import opened Bytes

  /** A bit string, least significant bit first. */
  type Bits = seq<bool>
  type Word = w: Bits | |w| == 32 witness [
    false, false, false, false, false, false, false, false,
    false, false, false, false, false, false, false, false,
    false, false, false, false, false, false, false, false,
    false, false, false, false, false, false, false, false]

  /** 0xEDB88320, the polynomial in reflected order. */
  const POLYNOMIAL: Word := [
    false, false, false, false, false, true, false, false,
    true, true, false, false, false, false, false, true,
    false, false, false, true, true, true, false, true,
    true, false, true, true, false, true, true, true]

  const ALL_ONES: Word := [
    true, true, true, true, true, true, true, true,
    true, true, true, true, true, true, true, true,
    true, true, true, true, true, true, true, true,
    true, true, true, true, true, true, true, true]

  function Xor(x: Word, y: Word): (r: Word)
    ensures forall i :: 0 <= i < 32 ==> r[i] == (x[i] != y[i])
  {
    seq(32, i requires 0 <= i < 32 => x[i] != y[i])
  }

  /**
   One message bit of polynomial division: shift the register right and
   subtract the polynomial when the bit that falls out differs from the message.
   */
  function Feed(r: Word, bit: bool): (s: Word)
    ensures forall i :: 0 <= i < 32 ==> s[i] == ((i < 31 && r[i + 1]) != (r[0] != bit && POLYNOMIAL[i]))
  {
    seq(32, i requires 0 <= i < 32 => (i < 31 && r[i + 1]) != (r[0] != bit && POLYNOMIAL[i]))
  }

  /** The register after all of `bits`, started from `r`. */
  function Register(r: Word, bits: Bits): Word
    decreases |bits|
  {
    if bits == [] then r else Register(Feed(r, bits[0]), bits[1..])
  }

  /** Binary digit `i` of `n`. */
  predicate Digit(n: nat, i: nat)
    decreases i
  {
    if i == 0 then n % 2 == 1 else Digit(n / 2, i - 1)
  }

  function ByteBits(b: Byte): (r: Bits)
    ensures |r| == 8
  {
    seq(8, i requires 0 <= i < 8 => Digit(b, i))
  }

  /** The number whose binary digits are `bits`. */
  function Number(bits: Bits): (n: nat)
    ensures n < Pow2(|bits|)
  {
    if bits == [] then 0 else (if bits[0] then 1 else 0) + 2 * Number(bits[1..])
  }

  /** A message as the line sees it: bytes in order, each least significant bit first. */
  function Message(s: Blob): (r: Bits)
    ensures |r| == 8 * |s|
  {
    if s == [] then [] else ByteBits(s[0]) + Message(s[1..])
  }

  /** The checksum as the unsigned 32-bit number the protocol carries. */
  function Crc(s: Blob): (c: nat)
    ensures c < 0x1_0000_0000
  {
    Pow2Of32();
    Number(Xor(Register(ALL_ONES, Message(s)), ALL_ONES))
  }

  lemma Pow2Of32()
    ensures Pow2(32) == 0x1_0000_0000
  {
    assert Pow2(8) == 256 && Pow2(16) == 256 * Pow2(8) && Pow2(24) == 256 * Pow2(16);
  }

  // ----- numbers and their bits --------------------------------------------

  lemma {:induction false} DigitsDetermine(n: nat, m: nat, k: nat)
    requires n < Pow2(k) && m < Pow2(k)
    requires forall i :: 0 <= i < k ==> Digit(n, i) == Digit(m, i)
    ensures n == m
    decreases k
  {
    if k == 0 {
    } else {
      assert Digit(n, 0) == Digit(m, 0);
      forall i | 0 <= i < k - 1 ensures Digit(n / 2, i) == Digit(m / 2, i) {
        assert Digit(n, i + 1) == Digit(m, i + 1);
      }
      DigitsDetermine(n / 2, m / 2, k - 1);
    }
  }

  lemma ByteBitsInjective(b: Byte, c: Byte)
    requires ByteBits(b) == ByteBits(c)
    ensures b == c
  {
    forall i | 0 <= i < 8 ensures Digit(b, i) == Digit(c, i) {
      assert ByteBits(b)[i] == ByteBits(c)[i];
    }
    assert Pow2(8) == 256;
    DigitsDetermine(b, c, 8);
  }

  lemma {:induction false} NumberInjective(x: Bits, y: Bits)
    requires |x| == |y| && Number(x) == Number(y)
    ensures x == y
  {
    if x == [] {
    } else {
      NumberInjective(x[1..], y[1..]);
      assert x == [x[0]] + x[1..] && y == [y[0]] + y[1..];
    }
  }

  lemma {:induction false} MessageConcat(s: Blob, t: Blob)
    ensures Message(s + t) == Message(s) + Message(t)
  {
    if s == [] {
      assert s + t == t;
    } else {
      assert (s + t)[1..] == s[1..] + t;
      MessageConcat(s[1..], t);
    }
  }

  lemma MessageConcat3(s: Blob, t: Blob, u: Blob)
    ensures Message(s + (t + u)) == Message(s) + (Message(t) + Message(u))
  {
    MessageConcat(s, t + u);
    MessageConcat(t, u);
  }

  lemma {:induction false} MessageInjective(s: Blob, t: Blob)
    requires |s| == |t| && Message(s) == Message(t)
    ensures s == t
  {
    if s == [] {
    } else {
      var x, y := Message(s), Message(t);
      assert x[..8] == ByteBits(s[0]) && y[..8] == ByteBits(t[0]);
      assert x[8..] == Message(s[1..]) && y[8..] == Message(t[1..]);
      ByteBitsInjective(s[0], t[0]);
      MessageInjective(s[1..], t[1..]);
      assert s == [s[0]] + s[1..] && t == [t[0]] + t[1..];
    }
  }

  // ----- what equal registers say about the bits that made them ------------

  lemma {:induction false} RegisterConcat(r: Word, a: Bits, b: Bits)
    ensures Register(r, a + b) == Register(Register(r, a), b)
    decreases |a|
  {
    if a == [] {
      assert a + b == b;
    } else {
      assert (a + b)[1..] == a[1..] + b;
      RegisterConcat(Feed(r, a[0]), a[1..], b);
    }
  }

  /** The registers agree from bit `hi` up. */
  ghost predicate AgreeFrom(x: Word, y: Word, hi: nat) {
    forall i :: hi <= i < 32 ==> x[i] == y[i]
  }

  /**
   Running backwards: the top bit of a register is the carry of the last step,
   so agreement of `32 - hi` top bits fixes that many earlier carries, and equal
   carries from equal registers mean equal messages.
   */
  lemma {:induction false} RegisterBack(r: Word, q: Word, a: Bits, b: Bits, hi: nat)
    requires |a| == |b| && hi + |a| <= 32
    requires AgreeFrom(Register(r, a), Register(q, b), hi)
    ensures AgreeFrom(r, q, hi + |a|)
    ensures r == q ==> a == b
    decreases |a|
  {
    if a == [] {
    } else {
      var r', q' := Feed(r, a[0]), Feed(q, b[0]);
      RegisterBack(r', q', a[1..], b[1..], hi);
      assert r'[31] == q'[31];
      assert (r[0] != a[0]) == (q[0] != b[0]);
      forall i | hi + |a| <= i < 32 ensures r[i] == q[i] {
        assert r'[i - 1] == q'[i - 1];
      }
      if r == q {
        assert a == [a[0]] + a[1..] && b == [b[0]] + b[1..];
      }
    }
  }

  /** A common suffix never merges two registers. */
  lemma {:induction false} SuffixKeepsDifference(r: Word, q: Word, s: Bits)
    requires Register(r, s) == Register(q, s)
    ensures r == q
    decreases |s|
  {
    if s == [] {
    } else {
      var r', q' := Feed(r, s[0]), Feed(q, s[0]);
      SuffixKeepsDifference(r', q', s[1..]);
      assert r'[31] == q'[31];
      assert r[0] == q[0];
      forall i | 0 < i < 32 ensures r[i] == q[i] {
        assert r'[i - 1] == q'[i - 1];
      }
    }
  }

  lemma CrcEqualRegisters(s: Blob, t: Blob)
    requires Crc(s) == Crc(t)
    ensures Register(ALL_ONES, Message(s)) == Register(ALL_ONES, Message(t))
  {
    var x, y := Register(ALL_ONES, Message(s)), Register(ALL_ONES, Message(t));
    NumberInjective(Xor(x, ALL_ONES), Xor(y, ALL_ONES));
    forall i | 0 <= i < 32 ensures x[i] == y[i] {
      assert Xor(x, ALL_ONES)[i] == Xor(y, ALL_ONES)[i];
    }
  }

  /** Messages with a common head and tail around at most 32 bits are told apart. */
  lemma BurstOfBits(r: Word, head: Bits, a: Bits, b: Bits, tail: Bits)
    requires |a| == |b| <= 32
    requires Register(r, head + (a + tail)) == Register(r, head + (b + tail))
    ensures a == b
  {
    var q := Register(r, head);
    RegisterConcat(r, head, a + tail);
    RegisterConcat(r, head, b + tail);
    RegisterConcat(q, a, tail);
    RegisterConcat(q, b, tail);
    SuffixKeepsDifference(Register(q, a), Register(q, b), tail);
    RegisterBack(q, q, a, b, 0);
  }

  /** `s` and `t` have one length and agree outside the four bytes from `k` on. */
  ghost predicate DifferOnlyInWindow(s: Blob, t: Blob, k: nat) {
    |s| == |t| && forall i :: 0 <= i < |s| && !(k <= i < k + 4) ==> s[i] == t[i]
  }

  /**
   Burst detection: two images of one length that differ, but only inside four
   consecutive bytes, have different checksums.
   */
  lemma BurstDetected(s: Blob, t: Blob, k: nat)
    requires DifferOnlyInWindow(s, t, k)
    requires s != t
    ensures Crc(s) != Crc(t)
  {
    var head, a, b, tail := WindowSplit(s, t, k);
    if Crc(s) == Crc(t) {
      CrcEqualRegisters(s, t);
      WindowDetermined(head, a, b, tail);
    }
  }

  lemma WindowSplit(s: Blob, t: Blob, k: nat) returns (head: Blob, a: Blob, b: Blob, tail: Blob)
    requires DifferOnlyInWindow(s, t, k)
    ensures s == head + (a + tail) && t == head + (b + tail)
    ensures |a| == |b| <= 4
  {
    var i := if k <= |s| then k else |s|;
    var j := if k + 4 <= |s| then k + 4 else |s|;
    head, a, b, tail := s[..i], s[i..j], t[i..j], s[j..];
  }

  lemma WindowDetermined(head: Blob, a: Blob, b: Blob, tail: Blob)
    requires |a| == |b| <= 4
    requires Register(ALL_ONES, Message(head + (a + tail))) == Register(ALL_ONES, Message(head + (b + tail)))
    ensures a == b
  {
    MessageConcat3(head, a, tail);
    MessageConcat3(head, b, tail);
    BurstOfBits(ALL_ONES, Message(head), Message(a), Message(b), Message(tail));
    MessageInjective(a, b);
  }
}
