/**
 CRC-32 as the WAL uses it (section 8 of RFC 1952), one bit at a time over a 32-bit register,
 and what makes it detect errors: every step is invertible, and four bytes in a row act on the
 register as one 32-bit word XORed in front.
 */
module Crc32 {

  type byte = bv8

  // The register algebra. The proofs below use these by name and the laws proved about them.

  function Xor(a: bv32, b: bv32): bv32 { a ^ b }

  function Half(c: bv32): bv32 { c >> 1 }

  predicate Even(c: bv32) { c & 1 == 0 }

  /** One shift of the register; 0xEDB88320 is the CRC-32 polynomial, low bit first. */
  function Shift(c: bv32): bv32 {
    if Even(c) then Half(c) else Xor(Half(c), 0xEDB8_8320)
  }

  /** The shift undone: the polynomial has its top bit set, so the top bit tells which branch was taken. */
  function Unshift(c: bv32): bv32 {
    if c & 0x8000_0000 == 0 then c << 1 else ((c ^ 0xEDB8_8320) << 1) | 1
  }

  function Iterate<T>(f: T -> T, c: T, n: nat): T
    decreases n
  {
    if n == 0 then c else Iterate(f, f(c), n - 1)
  }

  function Shifts(c: bv32, n: nat): bv32 {
    Iterate(Shift, c, n)
  }

  function Unshifts(c: bv32, n: nat): bv32 {
    Iterate(Unshift, c, n)
  }

  /** The register after one more byte. */
  function Step(c: bv32, b: byte): bv32 {
    Shifts(Xor(c, b as bv32), 8)
  }

  /** The register after the bytes of s, from c. */
  function Feed(c: bv32, s: seq<byte>): bv32
    decreases |s|
  {
    if s == [] then c else Step(Feed(c, s[..|s| - 1]), s[|s| - 1])
  }

  function Crc(s: seq<byte>): bv32 {
    Xor(Feed(0xFFFF_FFFF, s), 0xFFFF_FFFF)
  }

  // ---------- Laws of the register algebra ----------

  lemma XorParity(c: bv32, z: bv32)
    requires Even(z)
    ensures Even(Xor(c, z)) == Even(c)
  {}

  lemma XorHalf(c: bv32, z: bv32)
    ensures Half(Xor(c, z)) == Xor(Half(c), Half(z))
  {}

  lemma XorAssociates(a: bv32, b: bv32, p: bv32)
    ensures Xor(Xor(a, b), p) == Xor(a, Xor(b, p))
  {}

  lemma XorCommutes(a: bv32, b: bv32)
    ensures Xor(a, b) == Xor(b, a)
  {}

  lemma XorTwice(a: bv32, b: bv32)
    ensures Xor(Xor(a, b), b) == a
  {}

  lemma DoubleThenHalve(d: bv32)
    requires d & 0x8000_0000 == 0
    ensures Even(d << 1) && Half(d << 1) == d
    ensures !Even((d << 1) | 1) && Half((d << 1) | 1) == d
  {}

  lemma XorPolynomial(c: bv32)
    ensures Xor(c ^ 0xEDB8_8320, 0xEDB8_8320) == c
    ensures c & 0x8000_0000 != 0 ==> (c ^ 0xEDB8_8320) & 0x8000_0000 == 0
  {}

  lemma UnshiftShift(c: bv32)
    ensures Unshift(Shift(c)) == c
  {}

  lemma ShiftUnshift(c: bv32)
    ensures Shift(Unshift(c)) == c
  {
    XorPolynomial(c);
    if c & 0x8000_0000 == 0 { DoubleThenHalve(c); } else { DoubleThenHalve(c ^ 0xEDB8_8320); }
  }

  // ---------- The inductions, over any type, so that they never meet bit-vector arithmetic ----------

  lemma {:induction false} IterateCompose<T>(f: T -> T, c: T, m: nat, n: nat)
    ensures Iterate(f, Iterate(f, c, m), n) == Iterate(f, c, m + n)
    decreases m
  {
    if m > 0 { IterateCompose(f, f(c), m - 1, n); }
  }

  /** If g undoes f, then n g's undo n f's. */
  lemma {:induction false} IterateInverse<T(!new)>(f: T -> T, g: T -> T, c: T, n: nat)
    requires forall x :: g(f(x)) == x
    ensures Iterate(g, Iterate(f, c, n), n) == c
    decreases n
  {
    if n > 0 {
      IterateInverse(f, g, f(c), n - 1);
      IterateCompose(g, Iterate(f, f(c), n - 1), n - 1, 1);
      assert Iterate(g, f(c), 1) == g(f(c));
    }
  }

  ghost predicate Past<T>(f: T -> T, half: T -> T, even: T -> bool, xor: (T, T) -> T, c: T, z: T) {
    even(z) ==> f(xor(c, z)) == xor(f(c), half(z))
  }

  ghost predicate AllEven<T>(half: T -> T, even: T -> bool, z: T, n: nat)
    decreases n
  {
    n == 0 || (even(z) && AllEven(half, even, half(z), n - 1))
  }

  /** Bits that have not yet reached the low end only move: they can be XORed in before or after. */
  lemma {:induction false} IteratePast<T(!new)>(f: T -> T, half: T -> T, even: T -> bool, xor: (T, T) -> T,
                                                c: T, z: T, n: nat)
    requires forall x, y :: Past(f, half, even, xor, x, y)
    requires AllEven(half, even, z, n)
    ensures Iterate(f, xor(c, z), n) == xor(Iterate(f, c, n), Iterate(half, z, n))
    decreases n
  {
    if n > 0 {
      assert Past(f, half, even, xor, c, z);
      IteratePast(f, half, even, xor, f(c), half(z), n - 1);
    }
  }

  // ---------- Shifting ----------

  lemma ShiftsInvertible(c: bv32, n: nat)
    ensures Unshifts(Shifts(c, n), n) == c
    ensures Shifts(Unshifts(c, n), n) == c
  {
    forall x ensures Unshift(Shift(x)) == x { UnshiftShift(x); }
    forall x ensures Shift(Unshift(x)) == x { ShiftUnshift(x); }
    IterateInverse(Shift, Unshift, c, n);
    IterateInverse(Unshift, Shift, c, n);
  }

  lemma ShiftPast(c: bv32, z: bv32)
    requires Even(z)
    ensures Shift(Xor(c, z)) == Xor(Shift(c), Half(z))
  {
    XorParity(c, z);
    XorHalf(c, z);
    var p: bv32 := 0xEDB8_8320;
    XorAssociates(Half(c), Half(z), p);
    XorCommutes(Half(z), p);
    XorAssociates(Half(c), p, Half(z));
  }

  lemma ShiftsPast(c: bv32, z: bv32, n: nat)
    requires AllEven(Half, Even, z, n)
    ensures Shifts(Xor(c, z), n) == Xor(Shifts(c, n), Iterate(Half, z, n))
  {
    forall x, y ensures Past(Shift, Half, Even, Xor, x, y) {
      if Even(y) { ShiftPast(x, y); }
    }
    IteratePast(Shift, Half, Even, Xor, c, z, n);
  }

  // ---------- Bytes and words ----------

  function Low(w: bv32): byte { (w & 0xFF) as byte }

  function Upper(w: bv32): bv32 { w >> 8 }

  function AboveLow(w: bv32): bv32 { w & 0xFFFF_FF00 }

  lemma SplitLow(w: bv32)
    ensures w == Xor(Low(w) as bv32, AboveLow(w))
  {}

  lemma AboveLowHalves(w: bv32)
    ensures AllEven(Half, Even, AboveLow(w), 8)
    ensures Iterate(Half, AboveLow(w), 8) == Upper(w)
  {
    var z := AboveLow(w);
    assert Even(z);
    assert Even(Half(z));
  }

  /** One byte of a word is absorbed by eight shifts; the rest moves down by eight bits. */
  lemma AbsorbByte(c: bv32, w: bv32)
    ensures Shifts(Xor(c, w), 8) == Xor(Step(c, Low(w)), Upper(w))
  {
    var low := Low(w) as bv32;
    SplitLow(w);
    XorAssociates(c, low, AboveLow(w));
    AboveLowHalves(w);
    ShiftsPast(Xor(c, low), AboveLow(w), 8);
  }

  /** The four bytes of w, low byte first: the order in which the register meets them. */
  function WordBytes(w: bv32): (s: seq<byte>)
    ensures |s| == 4
  {
    [Low(w), Low(Upper(w)), Low(Upper(Upper(w))), Low(Upper(Upper(Upper(w))))]
  }

  function Word(s: seq<byte>): bv32
    requires |s| == 4
  {
    (s[0] as bv32) | ((s[1] as bv32) << 8) | ((s[2] as bv32) << 16) | ((s[3] as bv32) << 24)
  }

  lemma WordOfBytes(b0: byte, b1: byte, b2: byte, b3: byte, w: bv32)
    requires w == (b0 as bv32) | ((b1 as bv32) << 8) | ((b2 as bv32) << 16) | ((b3 as bv32) << 24)
    ensures WordBytes(w) == [b0, b1, b2, b3]
  {}

  lemma WordBytesWord(s: seq<byte>)
    requires |s| == 4
    ensures WordBytes(Word(s)) == s
  {
    assert s == [s[0], s[1], s[2], s[3]];
    WordOfBytes(s[0], s[1], s[2], s[3], Word(s));
  }

  lemma UppersVanish(w: bv32)
    ensures Upper(Upper(Upper(Upper(w)))) == 0
  {}

  lemma XorZero(c: bv32)
    ensures Xor(c, 0) == c
  {}

  lemma FeedSnoc(c: bv32, s: seq<byte>, b: byte)
    ensures Feed(c, s + [b]) == Step(Feed(c, s), b)
  {
    assert (s + [b])[..|s|] == s;
  }

  lemma {:induction false} FeedAppend(c: bv32, s: seq<byte>, t: seq<byte>)
    ensures Feed(c, s + t) == Feed(Feed(c, s), t)
    decreases |t|
  {
    if t == [] {
      assert s + t == s;
    } else {
      var t', b := t[..|t| - 1], t[|t| - 1];
      FeedAppend(c, s, t');
      FeedSnoc(c, s + t', b);
      assert s + t == (s + t') + [b];
    }
  }

  lemma FeedTwo(c: bv32, a: byte, b: byte)
    ensures Feed(c, [a, b]) == Step(Step(c, a), b)
  {
    FeedSnoc(c, [a], b);
    assert [a] + [b] == [a, b];
    FeedSnoc(c, [], a);
    assert [] + [a] == [a];
  }

  lemma FeedFour(c: bv32, a: byte, b: byte, d: byte, e: byte)
    ensures Feed(c, [a, b, d, e]) == Step(Step(Step(Step(c, a), b), d), e)
  {
    assert [a, b] + [d, e] == [a, b, d, e];
    FeedAppend(c, [a, b], [d, e]);
    FeedTwo(c, a, b);
    FeedTwo(Step(Step(c, a), b), d, e);
  }

  lemma Shifts32(c: bv32)
    ensures Shifts(c, 32) == Shifts(Shifts(Shifts(Shifts(c, 8), 8), 8), 8)
  {
    IterateCompose(Shift, c, 8, 8);
    IterateCompose(Shift, c, 16, 8);
    IterateCompose(Shift, c, 24, 8);
  }

  /** Four bytes act as one word XORed into the register, followed by 32 shifts. */
  lemma FeedWord(c: bv32, w: bv32)
    ensures Feed(c, WordBytes(w)) == Shifts(Xor(c, w), 32)
  {
    var w1 := Upper(w);
    var w2 := Upper(w1);
    var w3 := Upper(w2);
    var c1 := Step(c, Low(w));
    var c2 := Step(c1, Low(w1));
    var c3 := Step(c2, Low(w2));
    AbsorbByte(c, w);
    AbsorbByte(c1, w1);
    AbsorbByte(c2, w2);
    AbsorbByte(c3, w3);
    Shifts32(Xor(c, w));
    UppersVanish(w);
    XorZero(Step(c3, Low(w3)));
    FeedFour(c, Low(w), Low(w1), Low(w2), Low(w3));
  }

  // ---------- Error detection ----------

  lemma XorCancels(a: bv32, b: bv32, z: bv32)
    requires Xor(a, z) == Xor(b, z)
    ensures a == b
  {
    XorTwice(a, z);
    XorTwice(b, z);
  }

  lemma ShiftsInjective(c: bv32, d: bv32, n: nat)
    requires Shifts(c, n) == Shifts(d, n)
    ensures c == d
  {
    ShiftsInvertible(c, n);
    ShiftsInvertible(d, n);
  }

  /** The same bytes never bring two different registers together. */
  lemma {:induction false} FeedInjective(c: bv32, d: bv32, s: seq<byte>)
    requires Feed(c, s) == Feed(d, s)
    ensures c == d
    decreases |s|
  {
    if s != [] {
      var s', b := s[..|s| - 1], s[|s| - 1];
      ShiftsInjective(Xor(Feed(c, s'), b as bv32), Xor(Feed(d, s'), b as bv32), 8);
      XorCancels(Feed(c, s'), Feed(d, s'), b as bv32);
      FeedInjective(c, d, s');
    }
  }

  lemma FeedFourInjective(c: bv32, x: seq<byte>, y: seq<byte>)
    requires |x| == |y| == 4
    requires Feed(c, x) == Feed(c, y)
    ensures x == y
  {
    WordBytesWord(x);
    WordBytesWord(y);
    FeedWord(c, Word(x));
    FeedWord(c, Word(y));
    ShiftsInjective(Xor(c, Word(x)), Xor(c, Word(y)), 32);
    XorCommutes(c, Word(x));
    XorCommutes(c, Word(y));
    XorCancels(Word(x), Word(y), c);
  }

  lemma SameCrcSameBurst(p: seq<byte>, x: seq<byte>, y: seq<byte>, q: seq<byte>)
    requires |x| == |y| <= 4
    requires Crc(p + x + q) == Crc(p + y + q)
    ensures x == y
  {
    var ones: bv32 := 0xFFFF_FFFF;
    var c := Feed(ones, p);
    FeedAppend(ones, p, x);
    FeedAppend(ones, p, y);
    FeedAppend(ones, p + x, q);
    FeedAppend(ones, p + y, q);
    XorCancels(Feed(ones, p + x + q), Feed(ones, p + y + q), ones);
    FeedInjective(Feed(c, x), Feed(c, y), q);
    var pad := seq(4 - |x|, _ => 0);
    FeedAppend(c, x, pad);
    FeedAppend(c, y, pad);
    FeedFourInjective(c, x + pad, y + pad);
    assert x == (x + pad)[..|x|];
    assert y == (y + pad)[..|x|];
  }

  /** Any change confined to at most four consecutive bytes changes the CRC, whatever comes before and after. */
  lemma BurstDetected(p: seq<byte>, x: seq<byte>, y: seq<byte>, q: seq<byte>)
    requires |x| == |y| <= 4
    requires x != y
    ensures Crc(p + x + q) != Crc(p + y + q)
  {
    if Crc(p + x + q) == Crc(p + y + q) {
      SameCrcSameBurst(p, x, y, q);
    }
  }

  /** The last four bytes with which a message that begins with p has this CRC. */
  function TailFor(p: seq<byte>, crc: bv32): (s: seq<byte>)
    ensures |s| == 4
  {
    WordBytes(Xor(Unshifts(Xor(crc, 0xFFFF_FFFF), 32), Feed(0xFFFF_FFFF, p)))
  }

  lemma TailReaches(p: seq<byte>, crc: bv32)
    ensures Crc(p + TailFor(p, crc)) == crc
  {
    var ones: bv32 := 0xFFFF_FFFF;
    var c := Feed(ones, p);
    var u := Unshifts(Xor(crc, ones), 32);
    FeedAppend(ones, p, TailFor(p, crc));
    FeedWord(c, Xor(u, c));
    XorCommutes(c, Xor(u, c));
    XorTwice(u, c);
    ShiftsInvertible(Xor(crc, ones), 32);
    XorTwice(crc, ones);
  }

  // ---------- Linearity: what a change does to the CRC depends on the change alone ----------

  function XorByte(a: byte, b: byte): byte { a ^ b }

  /** The change between two messages of the same length. */
  function Change(x: seq<byte>, y: seq<byte>): (s: seq<byte>)
    requires |x| == |y|
    ensures |s| == |x|
  {
    seq(|x|, i requires 0 <= i < |x| => XorByte(x[i], y[i]))
  }

  lemma XorByteWide(a: byte, b: byte)
    ensures XorByte(a, b) as bv32 == Xor(a as bv32, b as bv32)
  {}

  lemma XorSwap(a: bv32, b: bv32, c: bv32, d: bv32)
    ensures Xor(Xor(a, b), Xor(c, d)) == Xor(Xor(a, c), Xor(b, d))
  {
    XorAssociates(a, b, Xor(c, d));
    XorAssociates(b, c, d);
    XorCommutes(b, c);
    XorAssociates(c, b, d);
    XorAssociates(a, c, Xor(b, d));
    hide Xor;
  }

  lemma XorSelf(a: bv32)
    ensures Xor(a, a) == 0
  {}

  lemma XorOdd(c: bv32, d: bv32)
    ensures Even(Xor(c, d)) <==> (Even(c) <==> Even(d))
  {}

  lemma ShiftLinear(c: bv32, d: bv32)
    ensures Shift(Xor(c, d)) == Xor(Shift(c), Shift(d))
  {
    var p: bv32 := 0xEDB8_8320;
    XorOdd(c, d);
    XorHalf(c, d);
    XorSwap(Half(c), p, Half(d), p);
    XorSelf(p);
    XorZero(Xor(Half(c), Half(d)));
    XorAssociates(Half(c), Half(d), p);
    XorCommutes(Half(d), p);
    XorAssociates(Half(c), p, Half(d));
    hide Xor, Half, Even;
  }

  lemma {:induction false} IterateLinear<T(!new)>(f: T -> T, xor: (T, T) -> T, c: T, d: T, n: nat)
    requires forall x, y :: f(xor(x, y)) == xor(f(x), f(y))
    ensures Iterate(f, xor(c, d), n) == xor(Iterate(f, c, n), Iterate(f, d, n))
    decreases n
  {
    if n > 0 {
      assert f(xor(c, d)) == xor(f(c), f(d));
      IterateLinear(f, xor, f(c), f(d), n - 1);
    }
  }

  lemma StepLinear(c: bv32, d: bv32, a: byte, b: byte)
    ensures Step(Xor(c, d), XorByte(a, b)) == Xor(Step(c, a), Step(d, b))
  {
    XorByteWide(a, b);
    XorSwap(c, d, a as bv32, b as bv32);
    forall x, y ensures Shift(Xor(x, y)) == Xor(Shift(x), Shift(y)) { ShiftLinear(x, y); }
    IterateLinear(Shift, Xor, Xor(c, a as bv32), Xor(d, b as bv32), 8);
  }

  lemma {:induction false} FeedLinear(c: bv32, d: bv32, x: seq<byte>, y: seq<byte>)
    requires |x| == |y|
    ensures Feed(Xor(c, d), Change(x, y)) == Xor(Feed(c, x), Feed(d, y))
    decreases |x|
  {
    hide Step, XorByte;
    if x != [] {
      var n := |x| - 1;
      FeedLinear(c, d, x[..n], y[..n]);
      assert Change(x, y)[..n] == Change(x[..n], y[..n]);
      StepLinear(Feed(c, x[..n]), Feed(d, y[..n]), x[n], y[n]);
    }
  }

  /** Two messages of the same length have CRCs that differ by what their change feeds from a zero register. */
  lemma CrcChange(x: seq<byte>, y: seq<byte>)
    requires |x| == |y|
    ensures Xor(Crc(x), Crc(y)) == Feed(0, Change(x, y))
  {
    var ones: bv32 := 0xFFFF_FFFF;
    hide Change, Step;
    FeedLinear(ones, ones, x, y);
    XorSelf(ones);
    XorSwap(Feed(ones, x), ones, Feed(ones, y), ones);
    XorZero(Xor(Feed(ones, x), Feed(ones, y)));
  }

  // ---------- Other forms of the same function ----------

  /** An entry of the table in the sample code of the RFC. */
  function Table(b: byte): bv32 { Step(0, b) }

  lemma UpperOfXor(c: bv32, b: byte)
    ensures Upper(Xor(c, b as bv32)) == Upper(c)
  {}

  lemma XorZeroLeft(c: bv32)
    ensures Xor(0, c) == c
  {}

  /** The table-driven step of the sample code is the bitwise one. */
  lemma TableStep(c: bv32, b: byte)
    ensures Step(c, b) == Xor(Table(Low(Xor(c, b as bv32))), Upper(c))
  {
    var x := Xor(c, b as bv32);
    AbsorbByte(0, x);
    XorZeroLeft(x);
    UpperOfXor(c, b);
  }

  lemma CheckSteps()
    ensures Step(0xFFFF_FFFF, 0x31) == 0x7C23_1048
    ensures Step(0x7C23_1048, 0x32) == 0xB0AC_BB32
    ensures Step(0xB0AC_BB32, 0x33) == 0x77B7_9C2D
    ensures Step(0x77B7_9C2D, 0x34) == 0x641C_1F5C
    ensures Step(0x641C_1F5C, 0x35) == 0x340A_C5E3
    ensures Step(0x340A_C5E3, 0x36) == 0xF68D_2C9E
    ensures Step(0xF68D_2C9E, 0x37) == 0xAFFC_9660
    ensures Step(0xAFFC_9660, 0x38) == 0x651F_2550
    ensures Step(0x651F_2550, 0x39) == 0x340B_C6D9
  {}

  /** The check value of CRC-32: the checksum of the ASCII digits 1 to 9. */
  lemma CheckValue()
    ensures Crc([0x31, 0x32, 0x33, 0x34, 0x35, 0x36, 0x37, 0x38, 0x39]) == 0xCBF4_3926
  {
    CheckSteps();
    hide Step;
    var c: bv32 := 0xFFFF_FFFF;
    FeedFour(c, 0x31, 0x32, 0x33, 0x34);
    FeedFour(0x641C_1F5C, 0x35, 0x36, 0x37, 0x38);
    FeedAppend(c, [0x31, 0x32, 0x33, 0x34], [0x35, 0x36, 0x37, 0x38]);
    FeedSnoc(c, [0x31, 0x32, 0x33, 0x34] + [0x35, 0x36, 0x37, 0x38], 0x39);
    var digits: seq<byte> := [0x31, 0x32, 0x33, 0x34, 0x35, 0x36, 0x37, 0x38, 0x39];
    assert [0x31, 0x32, 0x33, 0x34] + [0x35, 0x36, 0x37, 0x38] + [0x39] == digits;
    assert Feed(c, [0x31, 0x32, 0x33, 0x34]) == 0x641C_1F5C;
    assert Feed(c, [0x31, 0x32, 0x33, 0x34] + [0x35, 0x36, 0x37, 0x38]) == 0x651F_2550;
    assert Feed(c, digits) == 0x340B_C6D9;
  }
}
