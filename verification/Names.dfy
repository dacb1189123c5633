/** File names: the rotator's `segment_{:04}.wal`, how a restart parses it back, and the receiver's paths. */
module Names {
  import opened Options

  const U64_LIMIT := 0x1_0000_0000_0000_0000

  // ---------- Decimal numbers ----------

  predicate IsDigit(c: char) { '0' <= c <= '9' }

  function DigitChar(d: nat): (c: char)
    requires d < 10
    ensures IsDigit(c)
  {
    '0' + d as char
  }

  function DigitValue(c: char): nat
    requires IsDigit(c)
  {
    (c - '0') as nat
  }

  /** `{}`: no leading zeros. */
  function Decimal(n: nat): (s: string)
    ensures |s| > 0 && forall c :: c in s ==> IsDigit(c)
  {
    if n < 10 then [DigitChar(n)] else Decimal(n / 10) + [DigitChar(n % 10)]
  }

  function PadTo(s: string, width: nat): (t: string)
    decreases width - |s|
  {
    if |s| < width then PadTo("0" + s, width) else s
  }

  /** `{:04}`. */
  function Padded(n: nat): string { PadTo(Decimal(n), 4) }

  predicate AllDigits(s: string) { forall c :: c in s ==> IsDigit(c) }

  function Value(s: string): nat
    requires AllDigits(s)
  {
    if s == "" then 0 else Value(s[..|s| - 1]) * 10 + DigitValue(s[|s| - 1])
  }

  /** `parse::<u64>()`: an optional plus sign, at least one digit, no overflow. */
  function ParseU64(s: string): Option<nat> {
    var digits := if s != "" && s[0] == '+' then s[1..] else s;
    if digits == "" || !AllDigits(digits) || Value(digits) >= U64_LIMIT then None else Some(Value(digits))
  }

  lemma {:induction false} ValueDecimal(n: nat)
    ensures AllDigits(Decimal(n)) && Value(Decimal(n)) == n
  {
    if n >= 10 {
      ValueDecimal(n / 10);
      assert Decimal(n)[..|Decimal(n)| - 1] == Decimal(n / 10);
    }
  }

  lemma {:induction false} ValueZero(s: string)
    requires AllDigits(s)
    ensures AllDigits("0" + s) && Value("0" + s) == Value(s)
  {
    if s == "" {
      assert ("0" + s)[..0] == "";
    } else {
      ValueZero(s[..|s| - 1]);
      assert ("0" + s)[..|s|] == "0" + s[..|s| - 1];
    }
  }

  lemma {:induction false} ValuePadTo(s: string, width: nat)
    requires AllDigits(s)
    ensures AllDigits(PadTo(s, width)) && Value(PadTo(s, width)) == Value(s)
    ensures |PadTo(s, width)| >= |s|
    decreases width - |s|
  {
    if |s| < width {
      ValueZero(s);
      ValuePadTo("0" + s, width);
    }
  }

  lemma ValuePadded(n: nat)
    ensures AllDigits(Padded(n)) && Value(Padded(n)) == n && |Padded(n)| > 0
  {
    ValueDecimal(n);
    ValuePadTo(Decimal(n), 4);
  }

  // ---------- Segment names at the probe ----------

  const PREFIX := "segment_"
  const SUFFIX := ".wal"

  function SegName(no: nat): string { PREFIX + Padded(no) + SUFFIX }

  /** The part of `scan_existing` that reads a number out of a name. */
  function ParseName(name: string): Option<nat> {
    if |PREFIX| <= |name| && name[..|PREFIX|] == PREFIX then
      var rest := name[|PREFIX|..];
      if |SUFFIX| <= |rest| && rest[|rest| - |SUFFIX|..] == SUFFIX then
        ParseU64(rest[..|rest| - |SUFFIX|])
      else None
    else None
  }

  // ---------- The names themselves ----------

  /** The usual way to write a number: digits, the first of them 0 only if it is the only one. */
  predicate IsDecimal(d: string, n: nat) {
    d != "" && AllDigits(d) && Value(d) == n && (d[0] == '0' ==> |d| == 1)
  }

  lemma {:induction false} DecimalForm(n: nat)
    ensures IsDecimal(Decimal(n), n) && (n > 0 ==> Decimal(n)[0] != '0')
  {
    ValueDecimal(n);
    if n >= 10 {
      DecimalForm(n / 10);
      assert Decimal(n)[0] == Decimal(n / 10)[0];
    }
  }

  function Power10(k: nat): nat { if k == 0 then 1 else 10 * Power10(k - 1) }

  lemma {:induction false} DecimalLength(n: nat)
    ensures n < Power10(|Decimal(n)|) && (n > 0 ==> Power10(|Decimal(n)| - 1) <= n)
  {
    if n >= 10 {
      DecimalLength(n / 10);
    } else {
      assert Power10(1) == 10 * Power10(0);
    }
  }

  lemma {:induction false} PowerGrows(j: nat, k: nat)
    requires j <= k
    ensures Power10(j) <= Power10(k)
    decreases k
  {
    if j < k { PowerGrows(j, k - 1); }
  }

  lemma FourDigits()
    ensures Power10(3) == 1000 && Power10(4) == 10000
  {
    assert Power10(1) == 10 && Power10(2) == 100;
  }

  lemma PaddedForm(n: nat)
    ensures AllDigits(Padded(n)) && Value(Padded(n)) == n
    ensures n < 10000 ==> |Padded(n)| == 4
    ensures n >= 10000 ==> IsDecimal(Padded(n), n) && |Padded(n)| > 4
  {
    ValuePadded(n);
    DecimalForm(n);
    DecimalLength(n);
    FourDigits();
    var k := |Decimal(n)|;
    if k > 4 { PowerGrows(4, k - 1); } else { PowerGrows(k, 4); }
    PadToLength(Decimal(n), 4);
  }

  lemma {:induction false} PadToLength(s: string, width: nat)
    ensures |s| >= width ==> PadTo(s, width) == s
    ensures |s| < width ==> |PadTo(s, width)| == width
    decreases width - |s|
  {
    if |s| < width { PadToLength("0" + s, width); }
  }

  /** Between prefix and suffix stand the digits of the number: exactly four up to 9999, beyond that no leading zero. */
  lemma SegNameForm(no: nat) returns (digits: string)
    ensures SegName(no) == "segment_" + digits + ".wal" && AllDigits(digits) && Value(digits) == no
    ensures no < 10000 ==> |digits| == 4
    ensures no >= 10000 ==> |digits| > 4 && IsDecimal(digits, no)
  {
    digits := Padded(no);
    PaddedForm(no);
  }

  /** Digits of one length are determined by their number, so that these forms are the names. */
  lemma {:induction false} DigitsUnique(d: string, e: string)
    requires AllDigits(d) && AllDigits(e) && |d| == |e| && Value(d) == Value(e)
    ensures d == e
  {
    if d != "" {
      var n := |d| - 1;
      assert Value(d) == Value(d[..n]) * 10 + DigitValue(d[n]) && Value(e) == Value(e[..n]) * 10 + DigitValue(e[n]);
      DigitsUnique(d[..n], e[..n]);
      assert d == d[..n] + [d[n]] && e == e[..n] + [e[n]];
    }
  }

  predicate Spelled(name: string, n: nat, plus: string, digits: string) {
    && name == "segment_" + plus + digits + ".wal" && (plus == "" || plus == "+")
    && digits != "" && AllDigits(digits) && Value(digits) == n < 0x1_0000_0000_0000_0000
  }

  /** A name is read as a number exactly if it is prefix, perhaps a plus, digits, suffix, and fits 64 bits. */
  lemma ParseNameExact(name: string, n: nat)
    ensures ParseName(name) == Some(n) <==> exists plus, digits :: Spelled(name, n, plus, digits)
  {
    hide ParseName, Value;
    if ParseName(name) == Some(n) { var plus, digits := ParseNameParts(name, n); }
    forall plus, digits | Spelled(name, n, plus, digits) ensures ParseName(name) == Some(n) {
      PartsParse(name, plus, digits);
    }
  }

  lemma ParseNameParts(name: string, n: nat) returns (plus: string, digits: string)
    requires ParseName(name) == Some(n)
    ensures Spelled(name, n, plus, digits)
  {
    var rest := name[|PREFIX|..];
    var text := rest[..|rest| - |SUFFIX|];
    assert rest == text + SUFFIX && name == PREFIX + rest && ParseU64(text) == Some(n);
    hide ParseName;
    plus, digits := TextParts(text, n);
    hide ParseU64, Value, AllDigits;
    assert name == "segment_" + plus + digits + ".wal";
  }

  lemma TextParts(text: string, n: nat) returns (plus: string, digits: string)
    requires ParseU64(text) == Some(n)
    ensures text == plus + digits && (plus == "" || plus == "+")
    ensures digits != "" && AllDigits(digits) && Value(digits) == n < U64_LIMIT
  {
    hide Value, AllDigits;
    plus, digits := if text[0] == '+' then "+" else "", if text[0] == '+' then text[1..] else text;
  }

  lemma PartsParse(name: string, plus: string, digits: string)
    requires name == "segment_" + plus + digits + ".wal" && (plus == "" || plus == "+")
    requires digits != "" && AllDigits(digits) && Value(digits) < U64_LIMIT
    ensures ParseName(name) == Some(Value(digits))
  {
    hide Value;
    assert name[..|PREFIX|] == PREFIX;
    var rest := name[|PREFIX|..];
    assert rest == plus + digits + SUFFIX;
    assert rest[|rest| - |SUFFIX|..] == SUFFIX;
    var text := rest[..|rest| - |SUFFIX|];
    assert text == plus + digits;
    assert digits[0] in digits;
    assert text[|plus|..] == digits;
  }

  /** A restart reads back the number of every segment name the rotator makes. */
  lemma ParseSegName(no: nat)
    ensures ParseName(SegName(no)) == if no < U64_LIMIT then Some(no) else None
  {
    ValuePadded(no);
    var name := SegName(no);
    assert name[..|PREFIX|] == PREFIX;
    var rest := name[|PREFIX|..];
    assert rest == Padded(no) + SUFFIX;
    assert rest[..|rest| - |SUFFIX|] == Padded(no);
    assert Padded(no)[0] in Padded(no);
  }

  lemma SegNameInjective(m: nat, n: nat)
    requires SegName(m) == SegName(n)
    ensures m == n
  {
    ValuePadded(m);
    ValuePadded(n);
    assert SegName(m)[|PREFIX|..|SegName(m)| - |SUFFIX|] == Padded(m);
    assert SegName(n)[|PREFIX|..|SegName(n)| - |SUFFIX|] == Padded(n);
  }

  // ---------- Paths at the receiver ----------

  /** The file name of a segment; probe 1 keeps the plain name. */
  function RecvPath(dev: nat, segment: nat): string {
    if dev == 1 then SegName(segment) else "dev" + Decimal(dev) + "_" + SegName(segment)
  }

  lemma RecvPathForm(dev: nat, segment: nat) returns (digits: string)
    ensures RecvPath(1, segment) == SegName(segment)
    ensures dev != 1 ==> RecvPath(dev, segment) == "dev" + digits + "_" + SegName(segment) && IsDecimal(digits, dev)
  {
    digits := Decimal(dev);
    DecimalForm(dev);
  }

  lemma FourDigitName(no: nat, d: string)
    requires no < 10000 && |d| == 4 && AllDigits(d) && Value(d) == no
    ensures SegName(no) == "segment_" + d + ".wal"
  {
    hide Value, SegName;
    var digits := SegNameForm(no);
    DigitsUnique(digits, d);
  }

  lemma ValueSnoc(d: string, c: char)
    requires AllDigits(d) && IsDigit(c)
    ensures AllDigits(d + [c]) && Value(d + [c]) == Value(d) * 10 + DigitValue(c)
  {
    assert (d + [c])[..|d|] == d;
  }

  lemma ThreeZeros(c: char)
    requires IsDigit(c)
    ensures AllDigits("000" + [c]) && Value("000" + [c]) == DigitValue(c)
  {
    ValueSnoc("", '0');
    ValueSnoc("0", '0');
    ValueSnoc("00", '0');
    ValueSnoc("000", c);
  }

  lemma NameExamples()
    ensures SegName(7) == "segment_0007.wal" && RecvPath(1, 3) == "segment_0003.wal"
    ensures RecvPath(2, 3) == "dev2_segment_0003.wal"
  {
    ThreeZeros('7');
    ThreeZeros('3');
    assert Decimal(2) == "2";
    hide SegName, Value, Decimal;
    FourDigitName(7, "000" + ['7']);
    FourDigitName(3, "000" + ['3']);
  }

  function BeforeUnderscore(s: string): string {
    if s == "" || s[0] == '_' then "" else [s[0]] + BeforeUnderscore(s[1..])
  }

  lemma {:induction false} DigitsBefore(a: string, t: string)
    requires AllDigits(a)
    ensures BeforeUnderscore(a + "_" + t) == a
  {
    if a == "" {
      assert a + "_" + t == "_" + t;
    } else {
      var s := a + "_" + t;
      assert s[0] == a[0] && a[0] in a;
      assert s[1..] == a[1..] + "_" + t;
      DigitsBefore(a[1..], t);
    }
  }

  lemma PathParts(dev: nat, segment: nat)
    ensures var p := RecvPath(dev, segment);
      |p| > 3 && p[0] == (if dev == 1 then 's' else 'd')
      && (dev != 1 ==> p[3..] == Decimal(dev) + "_" + SegName(segment))
  {}

  /** Different (device, segment) pairs never share a file. */
  lemma RecvPathInjective(d: nat, s: nat, d': nat, s': nat)
    requires RecvPath(d, s) == RecvPath(d', s')
    ensures d == d' && s == s'
  {
    PathParts(d, s);
    PathParts(d', s');
    if d != 1 {
      ValueDecimal(d);
      ValueDecimal(d');
      DigitsBefore(Decimal(d), SegName(s));
      DigitsBefore(Decimal(d'), SegName(s'));
      var tail := RecvPath(d, s)[3..];
      assert tail[|Decimal(d)| + 1..] == SegName(s);
      assert tail[|Decimal(d')| + 1..] == SegName(s');
    }
    SegNameInjective(s, s');
  }
}
