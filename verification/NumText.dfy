/** Integers as text: how the guest's printf writes them and how its strtol
    reads them back. */
module NumText {
  import opened Common
  import Arith

  const DIGIT_BUFFER := 24

  // ----- characters and C strings

  /** A C string read at `i`: past its end there is a NUL. */
  function At(s: string, i: nat): char { if i < |s| then s[i] else '\0' }

  predicate IsSpace(c: char) { c == ' ' || '\t' <= c <= '\r' }

  predicate IsDigit(c: char) { '0' <= c <= '9' }

  predicate IsHexDigit(c: char) { IsDigit(c) || 'a' <= c <= 'f' || 'A' <= c <= 'F' }

  function DigitValue(c: char): (d: nat)
    ensures d <= 35 || d == 99
  {
    if IsDigit(c) then (c - '0') as int
    else if 'A' <= c <= 'Z' then (c - 'A') as int + 10
    else if 'a' <= c <= 'z' then (c - 'a') as int + 10
    else 99
  }

  predicate AllSpaces(s: string) { forall i :: 0 <= i < |s| ==> IsSpace(s[i]) }

  predicate AllDigits(s: string, base: nat) { forall i :: 0 <= i < |s| ==> DigitValue(s[i]) < base }

  // ----- writing

  datatype Flags = Flags(left: bool, plus: bool, space: bool, alt: bool, zero: bool)

  function DigitChar(d: nat, upper: bool): (c: char)
    requires d < 16
    ensures DigitValue(c) == d && (c == '0' <==> d == 0)
  {
    if d < 10 then '0' + d as char else (if upper then 'A' else 'a') + (d - 10) as char
  }

  predicate PrintBase(base: nat) { base == 8 || base == 10 || base == 16 }

  function Quot(v: nat, base: nat): (q: nat)
    requires PrintBase(base)
    ensures v > 0 ==> q < v
  {
    v / base
  }

  function Rem(v: nat, base: nat): (r: nat)
    requires PrintBase(base)
    ensures r < base
  {
    v % base
  }

  /** The digits of a number, most significant first; none for 0. */
  function Digits(v: nat, base: nat, upper: bool): string
    requires PrintBase(base)
    decreases v
  {
    if v == 0 then "" else Digits(Quot(v, base), base, upper) + [DigitChar(Rem(v, base), upper)]
  }

  function Repeat(c: char, n: int): (s: string)
    ensures |s| == (if n > 0 then n else 0) && forall i :: 0 <= i < |s| ==> s[i] == c
    decreases n
  {
    if n <= 0 then "" else Repeat(c, n - 1) + [c]
  }

  /** The digits printed: a 0 has one, unless the precision is 0. */
  function Body(v: nat, base: nat, upper: bool, prec: int): string
    requires PrintBase(base)
  {
    if v == 0 && prec != 0 then "0" else Digits(v, base, upper)
  }

  function Sign(neg: bool, flags: Flags): string {
    if neg then "-" else if flags.plus then "+" else if flags.space then " " else ""
  }

  function Prefix(body: string, base: nat, upper: bool, flags: Flags): string {
    if flags.alt && base == 16 && body != "" && body[0] != '0' then (if upper then "0X" else "0x")
    else if flags.alt && base == 8 && (body == "" || body[0] != '0') then "0"
    else ""
  }

  /** Leading zeros: up to the precision or, without one, to the width. */
  function Zeros(body: string, sign: string, prefix: string, width: int, prec: int, flags: Flags): nat {
    var zeros := if prec > |body| then prec - |body| else 0;
    var len := |body| + zeros + |sign| + |prefix|;
    if flags.zero && !flags.left && prec < 0 && width > len then zeros + (width - len) else zeros
  }

  /** What out_num prints. */
  function Number(v: nat, neg: bool, base: nat, upper: bool, width: int, prec: int, flags: Flags): string
    requires PrintBase(base)
  {
    var body := Body(v, base, upper, prec);
    var sign := Sign(neg, flags);
    var prefix := Prefix(body, base, upper, flags);
    var core := sign + prefix + Repeat('0', Zeros(body, sign, prefix, width, prec, flags)) + body;
    var spaces := Repeat(' ', width - |core|);
    (if flags.left then "" else spaces) + core + (if flags.left then spaces else "")
  }

  // ----- how many digits there are

  function Power(b: nat, n: nat): nat { if n == 0 then 1 else b * Power(b, n - 1) }

  lemma QuotientBelow(v: nat, base: nat, p: nat)
    requires base > 0
    ensures v / base < p <==> v < base * p
  {
    var q, r := v / base, v % base;
    assert v == q * base + r;
    if q < p {
      assert (p - q) * base >= base by { Arith.MulAtLeast(p - q, base); }
      assert (p - q) * base == base * p - q * base;
    } else {
      assert (q - p) * base >= 0;
      assert (q - p) * base == q * base - base * p;
    }
  }

  /** Digits fit a buffer exactly when the number is below that power of the base. */
  lemma {:induction false} DigitsFit(v: nat, base: nat, upper: bool, n: nat)
    requires PrintBase(base)
    ensures |Digits(v, base, upper)| <= n <==> v < Power(base, n)
    decreases n
  {
    assert base > 0;
    hide DigitChar, PrintBase;
    if n > 0 && v > 0 {
      DigitsFit(Quot(v, base), base, upper, n - 1);
      QuotientBelow(v, base, Power(base, n - 1));
      assert Quot(v, base) == v / base;
    } else if v == 0 {
      PowerPositive(base, n);
    }
  }

  lemma {:induction false} PowerPositive(b: nat, n: nat)
    requires b > 0
    ensures Power(b, n) > 0
  {
    if n == 0 {
    } else {
      PowerPositive(b, n - 1);
    }
  }

  lemma {:induction false} PowerTwice(b: nat, n: nat)
    ensures Power(b, 2 * n) == Power(b, n) * Power(b, n)
  {
    if n == 0 {
    } else {
      PowerTwice(b, n - 1);
      assert Power(b, 2 * n) == b * (b * Power(b, 2 * n - 2));
      assert b * (b * (Power(b, n - 1) * Power(b, n - 1))) == (b * Power(b, n - 1)) * (b * Power(b, n - 1));
    }
  }

  /** The longest is 64 bits in octal, 22 digits: the buffer of 24 is never exceeded. */
  lemma BufferSuffices(v: Word64, base: nat, upper: bool, prec: int)
    requires PrintBase(base)
    ensures |Body(v, base, upper, prec)| <= (if base == 8 then 22 else if base == 10 then 20 else 16)
    ensures |Body(v, base, upper, prec)| < DIGIT_BUFFER
  {
    var n := if base == 8 then 22 else if base == 10 then 20 else 16;
    assert v < Power(base, n) by {
      if base == 8 {
        assert Power(8, 5) == 0x8000;
        PowerTwice(8, 5);
        assert Power(8, 11) == 8 * Power(8, 10);
        PowerTwice(8, 11);
      } else if base == 10 {
        assert Power(10, 5) == 100000;
        PowerTwice(10, 5);
        PowerTwice(10, 10);
      } else {
        assert Power(16, 4) == 0x10000;
        PowerTwice(16, 4);
        PowerTwice(16, 8);
      }
    }
    DigitsFit(v, base, upper, n);
  }

  // ----- reading

  function SkipSpaces(s: string, p: nat): (q: nat)
    requires p <= |s|
    ensures p <= q <= |s|
    decreases |s| - p
  {
    if IsSpace(At(s, p)) then SkipSpaces(s, p + 1) else p
  }

  function EndOfDigits(s: string, p: nat, base: nat): (q: nat)
    requires p <= |s| && base <= 36
    ensures p <= q <= |s|
    decreases |s| - p
  {
    if DigitValue(At(s, p)) < base then EndOfDigits(s, p + 1, base) else p
  }

  /** The value of a row of digits. */
  function Value(d: string, base: nat): nat
    decreases |d|
  {
    if d == "" then 0 else Value(d[..|d| - 1], base) * base + DigitValue(d[|d| - 1])
  }

  datatype Parsed = Parsed(value: Word64, end: nat)

  function HexPrefixAt(s: string, p: nat): bool {
    At(s, p) == '0' && (At(s, p + 1) == 'x' || At(s, p + 1) == 'X') && IsHexDigit(At(s, p + 2))
  }

  /** Where the digits start, and their base. */
  datatype Start = Start(at: nat, base: nat)

  function StartAt(s: string, q: nat, base: nat): (r: Start)
    requires q <= |s| && base <= 36
    ensures q <= r.at <= |s| && r.base <= 36
  {
    if (base == 0 || base == 16) && HexPrefixAt(s, q) then Start(q + 2, 16)
    else Start(q, if base != 0 then base else if At(s, q) == '0' then 8 else 10)
  }

  function Wrap(v: nat): Word64 { v % WORD }

  function Signed(neg: bool, v: nat): Word64 { if neg then (WORD - Wrap(v)) % WORD else Wrap(v) }

  function ReadFrom(s: string, start: Start, neg: bool): Parsed
    requires start.at <= |s| && start.base <= 36
  {
    var end := EndOfDigits(s, start.at, start.base);
    Parsed(Signed(neg, Value(s[start.at..end], start.base)), if end == start.at then 0 else end)
  }

  function Strtoul(s: string, base: nat): Parsed
    requires base <= 36
  {
    var p := SkipSpaces(s, 0);
    var q := if At(s, p) == '+' || At(s, p) == '-' then p + 1 else p;
    ReadFrom(s, StartAt(s, q, base), At(s, p) == '-')
  }

  /** A word as a signed long. */
  function AsLong(v: Word64): int { if v < WORD / 2 then v else v - WORD }

  function Strtol(s: string, base: nat): int
    requires base <= 36
  {
    AsLong(Strtoul(s, base).value)
  }

  lemma {:induction false} SkipIs(s: string, p: nat, q: nat)
    requires p <= q <= |s| && AllSpaces(s[p..q]) && !IsSpace(At(s, q))
    ensures SkipSpaces(s, p) == q
    decreases q - p
  {
    if p < q {
      assert s[p..q][0] == s[p] && s[p..q][1..] == s[p + 1..q];
      SkipIs(s, p + 1, q);
    }
  }

  lemma {:induction false} EndIs(s: string, p: nat, q: nat, base: nat)
    requires p <= q <= |s| && base <= 36 && AllDigits(s[p..q], base) && DigitValue(At(s, q)) >= base
    ensures EndOfDigits(s, p, base) == q
    decreases q - p
  {
    if p < q {
      assert s[p..q][0] == s[p] && s[p..q][1..] == s[p + 1..q];
      EndIs(s, p + 1, q, base);
    }
  }

  // ----- reading what was written

  /** Leading zeros count for nothing. */
  lemma {:induction false} ZerosAreNothing(n: nat, d: string, base: nat)
    ensures Value(Repeat('0', n) + d, base) == Value(d, base)
    decreases n, |d|
  {
    var z := Repeat('0', n);
    if d != "" {
      assert (z + d)[..|z + d| - 1] == z + d[..|d| - 1];
      ZerosAreNothing(n, d[..|d| - 1], base);
    } else if n > 0 {
      assert (z + d)[..n - 1] == Repeat('0', n - 1) + "";
      ZerosAreNothing(n - 1, "", base);
    }
  }

  lemma {:induction false} DigitsRead(v: nat, base: nat, upper: bool)
    requires PrintBase(base)
    ensures Value(Digits(v, base, upper), base) == v
    ensures AllDigits(Digits(v, base, upper), base)
    ensures v > 0 ==> Digits(v, base, upper) != "" && Digits(v, base, upper)[0] != '0'
    decreases v
  {
    assert Quot(v, base) * base + Rem(v, base) == v;
    hide DigitChar, DigitValue, PrintBase, Quot, Rem;
    if v == 0 {
    } else {
      DigitsRead(Quot(v, base), base, upper);
      var d := Digits(v, base, upper);
      assert d[..|d| - 1] == Digits(Quot(v, base), base, upper);
    }
  }

  /** The base a number with these digits is read in. */
  predicate ReadIn(hex: string, body: string, readBase: nat, base: nat) {
    && (hex == "" || hex == "0x" || hex == "0X")
    && AllDigits(body, base)
    && if hex != "" then base == 16 && (readBase == 0 || readBase == 16) && body != ""
       else
         || (readBase == base && base in {8, 10, 16})
         || (readBase == 0 && base == 8 && body != "" && body[0] == '0')
         || (readBase == 0 && base == 10 && (body == "" || body[0] != '0'))
  }

  lemma HexDigits(c: char)
    ensures DigitValue(c) < 16 <==> IsHexDigit(c)
  {
  }

  /** The parts of a number in a text: spaces, a sign, perhaps 0x, digits in `base`, spaces. */
  datatype Parts = Parts(lead: string, sign: string, hex: string, body: string, trail: string, base: nat)

  function Text(p: Parts): string { p.lead + (p.sign + (p.hex + (p.body + p.trail))) }

  predicate Readable(p: Parts, readBase: nat) {
    && AllSpaces(p.lead) && AllSpaces(p.trail)
    && (p.sign == "" || p.sign == "+" || p.sign == "-")
    && ReadIn(p.hex, p.body, readBase, p.base)
  }

  lemma StartIs(s: string, q: nat, p: Parts, readBase: nat)
    requires q <= |s| && s[q..] == p.hex + (p.body + p.trail) && Readable(p, readBase)
    ensures StartAt(s, q, readBase) == Start(q + |p.hex|, p.base)
  {
    hide DigitValue, HexPrefixAt, AllDigits, AllSpaces;
    if p.hex != "" {
      HexPrefixIs(s, q, p, readBase);
    } else {
      NoHexPrefix(s, q, p, readBase);
      FirstDigit(s, q, p);
    }
  }

  lemma HexPrefixIs(s: string, q: nat, p: Parts, readBase: nat)
    requires q <= |s| && s[q..] == p.hex + (p.body + p.trail) && Readable(p, readBase) && p.hex != ""
    ensures HexPrefixAt(s, q)
  {
    hide DigitValue;
    var rest := p.body + p.trail;
    var tail := p.hex + rest;
    assert At(s, q) == s[q..][0] == tail[0] == p.hex[0];
    assert At(s, q + 1) == s[q..][1] == tail[1] == p.hex[1];
    assert At(s, q + 2) == s[q..][2] == tail[2] == rest[0] == p.body[0];
    HexDigits(p.body[0]);
  }

  lemma FirstDigit(s: string, q: nat, p: Parts)
    requires q <= |s| && s[q..] == "" + (p.body + p.trail) && AllSpaces(p.trail)
    ensures if p.body != "" then At(s, q) == p.body[0] else At(s, q) != '0'
  {
    var rest := p.body + p.trail;
    assert s[q..] == rest;
    assert rest != "" ==> At(s, q) == s[q..][0] == rest[0];
    assert rest == "" ==> |s| == q;
    if p.body == "" {
      assert rest == p.trail;
      assert p.trail != "" ==> IsSpace(p.trail[0]);
    } else {
      assert rest[0] == p.body[0];
    }
  }

  /** Neither a digit in these bases nor what follows the digits is an x. */
  lemma NoHexPrefix(s: string, q: nat, p: Parts, readBase: nat)
    requires q <= |s| && s[q..] == p.body + p.trail && Readable(p, readBase) && p.hex == ""
    ensures !HexPrefixAt(s, q)
  {
    var rest := p.body + p.trail;
    assert |rest| >= 2 ==> At(s, q + 1) == s[q..][1] == rest[1];
    if |p.body| >= 2 {
      assert rest[1] == p.body[1];
      assert DigitValue(p.body[1]) < 16;
    } else if |rest| >= 2 {
      assert rest[1] == p.trail[1 - |p.body|];
    }
  }

  lemma DigitsFrom(s: string, at: nat, body: string, trail: string, base: nat, neg: bool)
    requires at <= |s| && s[at..] == body + trail && base <= 36 && AllDigits(body, base) && AllSpaces(trail)
    ensures ReadFrom(s, Start(at, base), neg)
         == Parsed(Signed(neg, Value(body, base)), if body == "" then 0 else at + |body|)
  {
    var end := at + |body|;
    var rest := body + trail;
    assert rest[..|body|] == body && s[at..end] == s[at..][..|body|];
    assert |trail| > 0 ==> At(s, end) == s[at..][|body|] == rest[|body|] == trail[0];
    EndIs(s, at, end, base);
  }

  /** Reading parts gives the digits' value with the sign, and stops where the digits do. */
  lemma PartsRead(p: Parts, readBase: nat)
    requires Readable(p, readBase) && (p.sign != "" || p.body != "")
    ensures Strtoul(Text(p), readBase)
         == Parsed(Signed(p.sign == "-", Value(p.body, p.base)),
                   if p.body == "" then 0 else |p.lead| + |p.sign| + |p.hex| + |p.body|)
  {
    hide AllSpaces, Value, Signed, AllDigits, StartAt, ReadFrom;
    var s, at := Text(p), |p.lead|;
    var tail := p.sign + (p.hex + (p.body + p.trail));
    assert s[0..at] == p.lead && s[at..] == tail;
    FirstMark(p, readBase);
    assert At(s, at) == tail[0];
    SkipIs(s, 0, at);
    var q := at + |p.sign|;
    assert s[q..] == p.hex + (p.body + p.trail);
    StartIs(s, q, p, readBase);
    assert s[q + |p.hex|..] == p.body + p.trail;
    DigitsFrom(s, q + |p.hex|, p.body, p.trail, p.base, p.sign == "-");
  }

  /** The first character after the spaces is the sign, if there is one. */
  lemma FirstMark(p: Parts, readBase: nat)
    requires Readable(p, readBase) && (p.sign != "" || p.body != "")
    ensures var tail := p.sign + (p.hex + (p.body + p.trail));
            tail != "" && !IsSpace(tail[0])
            && (tail[0] == '-' <==> p.sign == "-") && (tail[0] == '+' <==> p.sign == "+")
  {
    var rest := p.hex + (p.body + p.trail);
    var tail := p.sign + rest;
    if p.sign != "" {
      assert tail[0] == p.sign[0];
    } else if p.hex != "" {
      assert tail[0] == rest[0] == p.hex[0];
    } else {
      assert tail[0] == rest[0] == p.body[0];
      assert DigitValue(p.body[0]) < 36;
    }
  }

  /** Nothing but spaces reads as 0, with nothing read. */
  lemma BlankReads(s: string, readBase: nat)
    requires AllSpaces(s) && readBase <= 36
    ensures Strtoul(s, readBase) == Parsed(0, 0)
  {
    assert s[0..|s|] == s;
    SkipIs(s, 0, |s|);
    assert EndOfDigits(s, |s|, 8) == |s| && s[|s|..|s|] == "";
  }

  /** Bases in which a printed number can be read: its own or, for 0, one that its first digits tell. */
  predicate ReadBase(readBase: nat, base: nat, flags: Flags, prec: int) {
    readBase == base || (readBase == 0 && if base == 10 then prec < 0 && !flags.zero else flags.alt)
  }

  /** The pieces out_num prints, as a reader sees them: a space for a sign is one more space,
      and octal's prefix is one more digit. */
  function Layout(pad: string, mark: string, prefix: string, zeros: string, d: string, trail: string, hex: bool,
                  base: nat): Parts {
    Parts(if mark == " " then pad + mark else pad, if mark == " " then "" else mark, if hex then prefix else "",
          (if hex then "" else prefix) + (zeros + d), trail, base)
  }

  lemma LayoutSpells(pad: string, mark: string, prefix: string, zeros: string, d: string, trail: string, hex: bool,
                     base: nat)
    ensures Text(Layout(pad, mark, prefix, zeros, d, trail, hex, base)) == pad + (mark + prefix + zeros + d) + trail
  {
    Assoc(pad, mark + prefix + zeros + d, trail);
    Assoc(mark + prefix + zeros, d, trail);
    Assoc(mark + prefix, zeros, d + trail);
    Assoc(mark, prefix, zeros + (d + trail));
    Assoc(zeros, d, trail);
    Assoc(prefix, zeros + d, trail);
    Assoc(pad, mark, prefix + (zeros + (d + trail)));
    Assoc("", prefix, zeros + (d + trail));
    Assoc("", zeros, d);
  }

  lemma Assoc(a: string, b: string, c: string)
    ensures (a + b) + c == a + (b + c)
    ensures "" + b == b
  {
  }

  /** The base a printed number is read in: in base 0, a zero's digits are octal. */
  function BaseRead(v: Word64, base: nat, body: string, readBase: nat): nat {
    if v != 0 || readBase != 0 then base else if body == "" then 10 else 8
  }

  function PartsOf(v: Word64, neg: bool, base: nat, upper: bool, width: int, prec: int, flags: Flags,
                   readBase: nat): Parts
    requires PrintBase(base)
  {
    var d := Body(v, base, upper, prec);
    var mark := Sign(neg, flags);
    var prefix := Prefix(d, base, upper, flags);
    var zeros := Repeat('0', Zeros(d, mark, prefix, width, prec, flags));
    var spaces := Repeat(' ', width - |mark + prefix + zeros + d|);
    Layout(if flags.left then "" else spaces, mark, prefix, zeros, d, if flags.left then spaces else "",
           base == 16, BaseRead(v, base, (if base == 16 then "" else prefix) + (zeros + d), readBase))
  }

  lemma PartsSpell(v: Word64, neg: bool, base: nat, upper: bool, width: int, prec: int, flags: Flags, readBase: nat)
    requires PrintBase(base)
    ensures Text(PartsOf(v, neg, base, upper, width, prec, flags, readBase))
         == Number(v, neg, base, upper, width, prec, flags)
  {
    hide Body, Prefix, Zeros, Repeat, PrintBase, Layout, Text, Sign, BaseRead;
    var d := Body(v, base, upper, prec);
    var mark := Sign(neg, flags);
    var prefix := Prefix(d, base, upper, flags);
    var zeros := Repeat('0', Zeros(d, mark, prefix, width, prec, flags));
    var spaces := Repeat(' ', width - |mark + prefix + zeros + d|);
    LayoutSpells(if flags.left then "" else spaces, mark, prefix, zeros, d, if flags.left then spaces else "",
                 base == 16, BaseRead(v, base, (if base == 16 then "" else prefix) + (zeros + d), readBase));
  }

  lemma BodyIs(v: Word64, base: nat, upper: bool, prec: int)
    requires PrintBase(base)
    ensures var d := Body(v, base, upper, prec);
            && Value(d, base) == v && AllDigits(d, base)
            && (v == 0 ==> d == if prec == 0 then "" else "0")
            && (v != 0 ==> d != "" && d[0] != '0')
  {
    DigitsRead(v, base, upper);
    assert DigitValue('0') == 0;
    ZeroBody("0", base);
    assert v == 0 ==> Digits(v, base, upper) == "";
    hide Digits, DigitValue, Value, PrintBase;
  }

  lemma ZerosThen(n: nat, d: string, base: nat)
    requires AllDigits(d, base) && base > 0
    ensures AllDigits(Repeat('0', n) + d, base) && Value(Repeat('0', n) + d, base) == Value(d, base)
  {
    ZerosAreNothing(n, d, base);
    hide Repeat, Value;
    var z := Repeat('0', n);
    assert DigitValue('0') == 0;
    forall i | 0 <= i < |z + d| ensures DigitValue((z + d)[i]) < base {
      assert (z + d)[i] == if i < n then '0' else d[i - n];
    }
  }

  lemma BodyReads(v: Word64, base: nat, upper: bool, prec: int, n: nat)
    requires PrintBase(base)
    ensures var d := Body(v, base, upper, prec);
            Value(Repeat('0', n) + d, base) == v && AllDigits(Repeat('0', n) + d, base)
  {
    assert base > 0;
    hide Repeat, Value, Body, AllDigits, PrintBase;
    BodyIs(v, base, upper, prec);
    ZerosThen(n, Body(v, base, upper, prec), base);
  }

  lemma LayoutIsReadable(pad: string, mark: string, prefix: string, zeros: string, d: string, trail: string,
                         hex: bool, base: nat, readBase: nat)
    requires AllSpaces(pad) && AllSpaces(trail) && mark in {"", " ", "+", "-"}
    requires ReadIn(if hex then prefix else "", (if hex then "" else prefix) + (zeros + d), readBase, base)
    ensures Readable(Layout(pad, mark, prefix, zeros, d, trail, hex, base), readBase)
  {
    assert AllSpaces(pad + " ");
  }

  /** All its digits are zeros. */
  lemma ZeroDigits(prefix: string, n: nat, d: string)
    requires (prefix == "" || prefix == "0") && (d == "" || d == "0")
    ensures var body := prefix + (Repeat('0', n) + d);
            forall i :: 0 <= i < |body| ==> body[i] == '0'
  {
  }

  lemma ZeroReadIn(body: string, base: nat, readBase: nat)
    requires PrintBase(base) && (readBase == base || readBase == 0) && forall i :: 0 <= i < |body| ==> body[i] == '0'
    ensures ReadIn("", body, readBase, BaseRead(0, base, body, readBase))
  {
  }

  lemma ZeroParts(neg: bool, base: nat, upper: bool, width: int, prec: int, flags: Flags, readBase: nat)
    requires PrintBase(base) && (readBase == base || readBase == 0)
    ensures var p := PartsOf(0, neg, base, upper, width, prec, flags, readBase);
            Readable(p, readBase) && Value(p.body, p.base) == 0
  {
    hide Zeros, PrintBase, ReadIn, Readable, Value, Repeat, AllSpaces, BaseRead, DigitValue, Body, Prefix, Sign;
    var d := Body(0, base, upper, prec);
    var mark := Sign(neg, flags);
    var prefix := Prefix(d, base, upper, flags);
    var n := Zeros(d, mark, prefix, width, prec, flags);
    var spaces := Repeat(' ', width - |mark + prefix + Repeat('0', n) + d|);
    SpacesAreSpaces(spaces);
    SpacesAreSpaces("");
    ZeroPieces(neg, base, upper, prec, flags);
    ZeroDigits(if base == 16 then "" else prefix, n, d);
    var body := (if base == 16 then "" else prefix) + (Repeat('0', n) + d);
    var b := BaseRead(0, base, body, readBase);
    ZeroReadIn(body, base, readBase);
    ZeroBody(body, b);
    LayoutIsReadable(if flags.left then "" else spaces, mark, prefix, Repeat('0', n), d,
                     if flags.left then spaces else "", base == 16, b, readBase);
  }

  /** What a zero is printed from. */
  lemma ZeroPieces(neg: bool, base: nat, upper: bool, prec: int, flags: Flags)
    requires PrintBase(base)
    ensures var d := Body(0, base, upper, prec);
            var prefix := Prefix(d, base, upper, flags);
            && (d == "" || d == "0") && (prefix == "" || prefix == "0") && (base == 16 ==> prefix == "")
    ensures Sign(neg, flags) in {"", " ", "+", "-"}
  {
    BodyIs(0, base, upper, prec);
    hide Body;
  }

  lemma SpacesAreSpaces(s: string)
    requires forall i :: 0 <= i < |s| ==> s[i] == ' '
    ensures AllSpaces(s)
  {
  }

  lemma PositiveReadIn(v: Word64, base: nat, upper: bool, prec: int, flags: Flags, readBase: nat, n: nat)
    requires v > 0 && PrintBase(base) && ReadBase(readBase, base, flags, prec)
    requires base == 10 && readBase == 0 ==> n == 0
    ensures var d := Body(v, base, upper, prec);
            var prefix := Prefix(d, base, upper, flags);
            var body := (if base == 16 then "" else prefix) + (Repeat('0', n) + d);
            ReadIn(if base == 16 then prefix else "", body, readBase, base) && Value(body, base) == v && body != ""
  {
    hide Value, AllDigits, Body, Repeat;
    var d := Body(v, base, upper, prec);
    var prefix := Prefix(d, base, upper, flags);
    BodyIs(v, base, upper, prec);
    BodyReads(v, base, upper, prec, n);
    BodyReads(v, base, upper, prec, n + 1);
    OneMoreZero(n);
    var zeros := Repeat('0', n);
    if base == 8 && prefix == "0" {
      assert prefix + (zeros + d) == Repeat('0', n + 1) + d;
    } else {
      assert "" + (zeros + d) == zeros + d;
    }
    if n == 0 {
      assert zeros + d == d;
    }
  }

  lemma NoZeros(body: string, sign: string, prefix: string, width: int, prec: int, flags: Flags, readBase: nat)
    requires ReadBase(readBase, 10, flags, prec)
    ensures readBase == 0 ==> Zeros(body, sign, prefix, width, prec, flags) == 0
  {
  }

  lemma PositiveParts(v: Word64, neg: bool, base: nat, upper: bool, width: int, prec: int, flags: Flags, readBase: nat)
    requires v > 0 && PrintBase(base) && ReadBase(readBase, base, flags, prec)
    ensures var p := PartsOf(v, neg, base, upper, width, prec, flags, readBase);
            Readable(p, readBase) && Value(p.body, p.base) == v && p.body != ""
  {
    hide Zeros, PrintBase, ReadIn, Readable, Value, Body, Prefix, Repeat, AllSpaces, ReadBase;
    var d := Body(v, base, upper, prec);
    var mark := Sign(neg, flags);
    var prefix := Prefix(d, base, upper, flags);
    var n := Zeros(d, mark, prefix, width, prec, flags);
    if base == 10 {
      NoZeros(d, mark, prefix, width, prec, flags, readBase);
    }
    var spaces := Repeat(' ', width - |mark + prefix + Repeat('0', n) + d|);
    assert AllSpaces(spaces) && AllSpaces("") by { SpacesAreSpaces(spaces); SpacesAreSpaces(""); }
    PositiveReadIn(v, base, upper, prec, flags, readBase, n);
    LayoutIsReadable(if flags.left then "" else spaces, mark, prefix, Repeat('0', n), d,
                     if flags.left then spaces else "", base == 16, base, readBase);
  }

  lemma {:induction false} OneMoreZero(n: nat)
    ensures "0" + Repeat('0', n) == Repeat('0', n + 1)
  {
    assert forall i :: 0 <= i < n + 1 ==> ("0" + Repeat('0', n))[i] == Repeat('0', n + 1)[i];
  }

  lemma {:induction false} ZeroBody(body: string, base: nat)
    requires forall i :: 0 <= i < |body| ==> body[i] == '0'
    ensures Value(body, base) == 0
    decreases |body|
  {
    if body == "" {
    } else {
      ZeroBody(body[..|body| - 1], base);
    }
  }

  lemma PartsSign(v: Word64, neg: bool, base: nat, upper: bool, width: int, prec: int, flags: Flags, readBase: nat)
    requires PrintBase(base)
    ensures PartsOf(v, neg, base, upper, width, prec, flags, readBase).sign == "-" <==> neg
    ensures v == 0 && prec != 0 ==> PartsOf(v, neg, base, upper, width, prec, flags, readBase).body != ""
  {
  }

  lemma BlankParts(p: Parts, readBase: nat)
    requires p.sign == "" && p.body == "" && Readable(p, readBase) && readBase <= 36
    ensures Strtoul(Text(p), readBase) == Parsed(0, 0)
  {
    hide Strtoul;
    assert Text(p) == p.lead + p.trail;
    BlankReads(Text(p), readBase);
  }

  lemma TextEnd(p: Parts)
    ensures var end := |p.lead| + |p.sign| + |p.hex| + |p.body|;
            end <= |Text(p)| && Text(p)[end..] == p.trail
  {
    var a, b, c := p.body + p.trail, p.hex + (p.body + p.trail), p.sign + (p.hex + (p.body + p.trail));
    assert Text(p)[|p.lead|..] == c && c[|p.sign|..] == b && b[|p.hex|..] == a && a[|p.body|..] == p.trail;
  }

  /** Reading what was printed gives the number back, for every word and any
      sign, flags, width and precision; all but padding is read, if any digit was printed. */
  lemma PrintedReadsBack(v: Word64, neg: bool, base: nat, upper: bool, width: int, prec: int, flags: Flags,
                         readBase: nat)
    requires PrintBase(base) && ReadBase(readBase, base, flags, prec)
    ensures var text := Number(v, neg, base, upper, width, prec, flags);
            var read := Strtoul(text, readBase);
            && read.value == Signed(neg, v)
            && (v != 0 || prec != 0 ==> 0 < read.end <= |text| && AllSpaces(text[read.end..]))
  {
    var p := PartsOf(v, neg, base, upper, width, prec, flags, readBase);
    hide PartsOf, Number, Value, ReadIn, Strtoul, AllSpaces, Text;
    PartsSpell(v, neg, base, upper, width, prec, flags, readBase);
    if v == 0 {
      ZeroParts(neg, base, upper, width, prec, flags, readBase);
    } else {
      PositiveParts(v, neg, base, upper, width, prec, flags, readBase);
    }
    PartsSign(v, neg, base, upper, width, prec, flags, readBase);
    TextEnd(p);
    if p.sign == "" && p.body == "" {
      BlankParts(p, readBase);
    } else {
      PartsRead(p, readBase);
    }
  }

  /** A signed long, the most negative included: what %ld prints, strtol reads back. */
  lemma LongReadsBack(v: int, width: int, prec: int, flags: Flags, readBase: nat)
    requires -(WORD / 2) <= v < WORD / 2 && ReadBase(readBase, 10, flags, prec)
    ensures var magnitude := if v < 0 then -v else v;
            Strtol(Number(magnitude, v < 0, 10, false, width, prec, flags), readBase) == v
  {
    hide Number, Strtoul;
    PrintedReadsBack(if v < 0 then -v else v, v < 0, 10, false, width, prec, flags, readBase);
  }

  /** A printed number is at least as wide as asked, and padded only as far as that. */
  lemma NumberWidth(v: nat, neg: bool, base: nat, upper: bool, width: int, prec: int, flags: Flags)
    requires PrintBase(base)
    ensures var text := Number(v, neg, base, upper, width, prec, flags);
            var bare := Number(v, neg, base, upper, 0, prec, flags);
            |text| == if width > |bare| then width else |bare|
  {
  }

  // ----- the reader

  lemma AccumulateWraps(v: nat, base: nat, d: nat)
    ensures (v % WORD * base + d) % WORD == (v * base + d) % WORD
  {
    var q, r := v / WORD, v % WORD;
    assert v * base + d == (r * base + d) + (q * base) * WORD by {
      assert v == q * WORD + r;
      assert (q * WORD) * base == (q * base) * WORD;
    }
    Arith.ModMultiple(r * base + d, q * base, WORD);
  }

  method ReadUnsigned(s: string, base: nat) returns (value: Word64, end: nat)
    requires base <= 36
    ensures Parsed(value, end) == Strtoul(s, base)
  {
    var p, neg := 0, false;
    while IsSpace(At(s, p))
      invariant p <= |s| && SkipSpaces(s, 0) == SkipSpaces(s, p)
      decreases |s| - p
    {
      p := p + 1;
    }
    if At(s, p) == '+' || At(s, p) == '-' {
      neg := At(s, p) == '-';
      p := p + 1;
    }
    var b := base;
    if (b == 0 || b == 16) && HexPrefixAt(s, p) {
      p := p + 2;
      b := 16;
    } else if b == 0 {
      b := if At(s, p) == '0' then 8 else 10;
    }
    value, end := ReadDigits(s, p, b, neg);
  }

  /** The digit loop. */
  method ReadDigits(s: string, digits: nat, b: nat, neg: bool) returns (value: Word64, end: nat)
    requires digits <= |s| && b <= 36
    ensures Parsed(value, end) == ReadFrom(s, Start(digits, b), neg)
  {
    hide DigitValue, AllDigits, AllSpaces;
    var p, v := digits, 0;
    while DigitValue(At(s, p)) < b
      invariant digits <= p <= |s| && EndOfDigits(s, digits, b) == EndOfDigits(s, p, b)
      invariant v == Wrap(Value(s[digits..p], b))
      decreases |s| - p
    {
      assert p < |s| by { NulIsNoDigit(); }
      v := Accumulate(s, digits, p, b, v);
      p := p + 1;
    }
    end := if p == digits then 0 else p;
    value := if neg then (WORD - v) % WORD else v;
  }

  lemma NulIsNoDigit()
    ensures DigitValue('\0') > 36
  {
  }

  method Accumulate(s: string, digits: nat, p: nat, b: nat, v: Word64) returns (next: Word64)
    requires digits <= p < |s| && b <= 36 && v == Wrap(Value(s[digits..p], b))
    ensures next == Wrap(Value(s[digits..p + 1], b))
  {
    hide DigitValue;
    assert s[digits..p + 1][..p - digits] == s[digits..p];
    AccumulateWraps(Value(s[digits..p], b), b, DigitValue(s[p]));
    next := (v * b + DigitValue(s[p])) % WORD;
  }
}
