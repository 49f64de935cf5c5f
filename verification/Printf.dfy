/** The guest's vsnprintf: a format interpreter over a bounded buffer. */
module Printf {
  import opened Common
  import opened NumText

  // ----- what a format means

  /** An argument as va_arg may read it: as an integer, as a string pointer (None for NULL),
      or as a double, of which only the text for a precision and flags is known. */
  datatype Arg = Arg(bits: Word64, text: Option<string>, fixed: (int, Flags) -> string)

  /** The int in the low half of an argument. */
  function AsInt(bits: Word64): int {
    var low := bits % 0x1_0000_0000;
    if low < 0x8000_0000 then low else low - 0x1_0000_0000
  }

  const NO_FLAGS := Flags(false, false, false, false, false)

  datatype FlagsRead = FlagsRead(flags: Flags, next: nat)

  function WithFlag(f: Flags, c: char): Option<Flags> {
    if c == '-' then Some(f.(left := true))
    else if c == '+' then Some(f.(plus := true))
    else if c == ' ' then Some(f.(space := true))
    else if c == '#' then Some(f.(alt := true))
    else if c == '0' then Some(f.(zero := true))
    else None
  }

  function FlagsAt(fmt: string, p: nat, f: Flags): (r: FlagsRead)
    requires p <= |fmt|
    ensures p <= r.next <= |fmt|
    decreases |fmt| - p
  {
    match WithFlag(f, At(fmt, p))
    case Some(g) => FlagsAt(fmt, p + 1, g)
    case None => FlagsRead(f, p)
  }

  datatype NumberRead = NumberRead(value: int, next: nat)

  function NumberAt(fmt: string, p: nat, acc: int): (r: NumberRead)
    requires p <= |fmt|
    ensures p <= r.next <= |fmt|
    decreases |fmt| - p
  {
    if IsDigit(At(fmt, p)) then NumberAt(fmt, p + 1, acc * 10 + (At(fmt, p) - '0') as int) else NumberRead(acc, p)
  }

  predicate IsSizeLetter(c: char) { c in "hlzjtL" }

  predicate MakesLong(c: char) { c == 'l' || c == 'z' || c == 'j' || c == 't' }

  datatype SizeRead = SizeRead(long: bool, next: nat)

  function SizeAt(fmt: string, p: nat, long: bool): (r: SizeRead)
    requires p <= |fmt|
    ensures p <= r.next <= |fmt|
    decreases |fmt| - p
  {
    if p < |fmt| && IsSizeLetter(fmt[p]) then SizeAt(fmt, p + 1, long || MakesLong(fmt[p])) else SizeRead(long, p)
  }

  /** The next argument; reading past the last is left undefined by C, here it is 0. */
  function First(args: seq<Arg>): Arg { if args == [] then Arg(0, None, (_, _) => "") else args[0] }

  function Rest(args: seq<Arg>): seq<Arg> { if args == [] then [] else args[1..] }

  /** A place in the format, the arguments left, and a number read. */
  datatype Field = Field(value: int, next: nat, args: seq<Arg>)

  /** A width or precision: perhaps a star, then digits. */
  function StarThenDigits(fmt: string, p: nat, args: seq<Arg>): (r: Field)
    requires p <= |fmt|
    ensures p <= r.next <= |fmt|
  {
    if At(fmt, p) == '*' then
      var n := NumberAt(fmt, p + 1, AsInt(First(args).bits));
      Field(n.value, n.next, Rest(args))
    else
      var n := NumberAt(fmt, p, 0);
      Field(n.value, n.next, args)
  }

  /** As StarThenDigits, but a negative star is the left flag. */
  function WidthAt(fmt: string, p: nat, args: seq<Arg>): (r: Field)
    requires p <= |fmt|
    ensures p <= r.next <= |fmt|
  {
    if At(fmt, p) == '*' then
      var w := AsInt(First(args).bits);
      var n := NumberAt(fmt, p + 1, if w < 0 then -w else w);
      Field(n.value, n.next, Rest(args))
    else
      var n := NumberAt(fmt, p, 0);
      Field(n.value, n.next, args)
  }

  predicate NegativeStar(fmt: string, p: nat, args: seq<Arg>) {
    At(fmt, p) == '*' && AsInt(First(args).bits) < 0
  }

  function PrecisionAt(fmt: string, p: nat, args: seq<Arg>): (r: Field)
    requires p <= |fmt|
    ensures p <= r.next <= |fmt|
  {
    if At(fmt, p) == '.' then StarThenDigits(fmt, p + 1, args) else Field(-1, p, args)
  }

  /** What stands between a percent sign and its conversion letter, at `next`. */
  datatype Directive = Directive(flags: Flags, width: int, prec: int, long: bool, next: nat, args: seq<Arg>)

  function DirectiveAt(fmt: string, p: nat, args: seq<Arg>): (d: Directive)
    requires p <= |fmt|
    ensures p <= d.next <= |fmt|
  {
    var f := FlagsAt(fmt, p, NO_FLAGS);
    var w := WidthAt(fmt, f.next, args);
    var c := PrecisionAt(fmt, w.next, w.args);
    var s := SizeAt(fmt, c.next, false);
    Directive(if NegativeStar(fmt, f.next, args) then f.flags.(left := true) else f.flags, w.value, c.value, s.long,
              s.next, c.args)
  }

  /** A string padded to a width. */
  function Padded(s: string, width: int, flags: Flags): string {
    if flags.left then s + Repeat(' ', width - |s|) else Repeat(' ', width - |s|) + s
  }

  /** How much of a C string %s prints. */
  function Length(s: string, prec: int, from: nat): (n: nat)
    requires from <= |s|
    ensures from <= n <= |s|
    decreases |s| - from
  {
    if At(s, from) != '\0' && (prec < 0 || from < prec) then Length(s, prec, from + 1) else from
  }

  predicate TakesArgument(conv: char) { conv in "diuxXopcsfFeEgGn" }

  function Magnitude(v: int): nat { if v < 0 then -v else v }

  /** What one conversion prints. */
  function Converted(d: Directive, conv: char, arg: Arg): string {
    if conv == 'd' || conv == 'i' then
      var v := if d.long then AsLong(arg.bits) else AsInt(arg.bits);
      Number(Magnitude(v), v < 0, 10, false, d.width, d.prec, d.flags)
    else if conv == 'u' || conv == 'x' || conv == 'X' || conv == 'o' then
      var v := if d.long then arg.bits else arg.bits % 0x1_0000_0000;
      Number(v, false, if conv == 'u' then 10 else if conv == 'o' then 8 else 16, conv == 'X', d.width, d.prec, d.flags)
    else if conv == 'p' then
      Number(arg.bits, false, 16, false, d.width, d.prec, d.flags.(alt := true))
    else if conv == 'c' then
      Padded([(arg.bits % 256) as char], d.width, d.flags)
    else if conv == 's' then
      var s := if arg.text.Some? then arg.text.value else "(null)";
      Padded(s[..Length(s, d.prec, 0)], d.width, d.flags)
    else if conv in "fFeEgG" then
      Padded(arg.fixed(d.prec, d.flags), d.width, d.flags)
    else if conv == 'n' then ""
    else if conv == '%' then "%"
    else ['%', conv]
  }

  /** The whole output from position `i`. */
  function Formatted(fmt: string, i: nat, args: seq<Arg>): string
    requires i <= |fmt|
    decreases |fmt| - i
  {
    if At(fmt, i) == '\0' then ""
    else if fmt[i] != '%' then [fmt[i]] + Formatted(fmt, i + 1, args)
    else
      var d := DirectiveAt(fmt, i + 1, args);
      var conv := At(fmt, d.next);
      if conv == '\0' then ""
      else
        var rest := if TakesArgument(conv) then Rest(d.args) else d.args;
        Converted(d, conv, First(d.args)) + Formatted(fmt, d.next + 1, rest)
  }

  // ----- what a bounded buffer keeps of it

  /** How many of `n` characters fit a buffer of `size` with a NUL. */
  function Kept(size: nat, n: nat): (k: nat)
    ensures k <= n && (size > 0 ==> k < size)
  {
    if n < size then n else if size > 0 then size - 1 else 0
  }

  /** A buffer while `text` is being printed to it. */
  function Overlay(initial: string, size: nat, text: string): (b: string)
    requires size <= |initial|
    ensures |b| == |initial|
  {
    text[..Kept(size, |text|)] + initial[Kept(size, |text|)..]
  }

  /** A buffer after vsnprintf. */
  function Stored(initial: string, size: nat, text: string): (b: string)
    requires size <= |initial|
    ensures |b| == |initial|
  {
    if size == 0 then initial else text[..Kept(size, |text|)] + "\0" + initial[Kept(size, |text|) + 1..]
  }

  lemma OverlayStep(initial: string, size: nat, text: string, c: char)
    requires size <= |initial|
    ensures Overlay(initial, size, text + [c])
         == if |text| + 1 < size then Overlay(initial, size, text)[|text| := c] else Overlay(initial, size, text)
  {
    if |text| + 1 < size {
      assert Overlay(initial, size, text + [c]) == Overlay(initial, size, text)[|text| := c];
    } else {
      assert (text + [c])[..Kept(size, |text|)] == text[..Kept(size, |text|)];
    }
  }

  lemma OverlayEnds(initial: string, size: nat, text: string)
    requires size <= |initial|
    ensures if size > 0 then Overlay(initial, size, text)[Kept(size, |text|) := '\0'] == Stored(initial, size, text)
            else Overlay(initial, size, text) == Stored(initial, size, text)
  {
    if size > 0 {
      var k := Kept(size, |text|);
      var b, c := Overlay(initial, size, text)[k := '\0'], Stored(initial, size, text);
      assert forall i :: 0 <= i < |b| ==> b[i] == c[i];
    }
  }

  /** The string a C reader finds in a buffer. */
  function CString(b: string): string
    decreases |b|
  {
    if At(b, 0) == '\0' then "" else [b[0]] + CString(b[1..])
  }

  lemma {:induction false} CStringEnds(s: string, rest: string)
    requires forall i :: 0 <= i < |s| ==> s[i] != '\0'
    ensures CString(s + "\0" + rest) == s
    decreases |s|
  {
    var b := s + "\0" + rest;
    if s == "" {
      assert b[0] == '\0';
    } else {
      assert b[0] == s[0] && b[1..] == s[1..] + "\0" + rest;
      CStringEnds(s[1..], rest);
    }
  }

  /** A reader finds as much of the output as fits, and nothing past `size` has changed. */
  lemma StoredIsPrefix(initial: string, size: nat, text: string)
    requires size <= |initial| && forall i :: 0 <= i < |text| ==> text[i] != '\0'
    ensures size > 0 ==> CString(Stored(initial, size, text)) == text[..Kept(size, |text|)]
    ensures Stored(initial, size, text)[size..] == initial[size..]
  {
    if size > 0 {
      var k := Kept(size, |text|);
      CStringEnds(text[..k], initial[k + 1..]);
    }
  }

  /** Two buffers, two sizes: the smaller holds the start of the larger's text. */
  lemma TruncationIsPrefix(a: string, m: nat, b: string, n: nat, text: string)
    requires m <= |a| && n <= |b| && 0 < m <= n && forall i :: 0 <= i < |text| ==> text[i] != '\0'
    ensures var large := CString(Stored(b, n, text));
            CString(Stored(a, m, text)) == large[..Kept(m, |large|)]
  {
    StoredIsPrefix(a, m, text);
    StoredIsPrefix(b, n, text);
  }

  // ----- the interpreter

  class Out {
    const buf: array<char>
    const size: nat
    const console: bool
    var len: nat
    var serial: string        // what the console has received
    ghost var text: string    // all that was printed
    ghost const initial: string

    ghost predicate Valid()
      reads this, buf
    {
      && len == |text|
      && size <= |initial|
      && (!console ==> buf[..] == Overlay(initial, size, text))
      && (console ==> serial == text)
    }

    /** To a buffer. */
    constructor (buf: array<char>, size: nat)
      requires size <= buf.Length
      ensures Valid() && text == "" && !console && this.buf == buf && this.size == size && initial == buf[..]
    {
      this.buf, this.size, console, len, serial := buf, size, false, 0, "";
      text, initial := "", buf[..];
    }

    /** To the console. */
    constructor Console(unused: array<char>)
      requires unused.Length == 0
      ensures Valid() && text == "" && console && buf == unused
    {
      buf, size, console, len, serial := unused, 0, true, 0, "";
      text, initial := "", "";
    }

    method Char(c: char)
      requires Valid()
      modifies this, buf
      ensures Valid() && text == old(text) + [c]
    {
      OverlayStep(initial, size, text, c);
      if console {
        serial := serial + [c];
      } else if len + 1 < size {
        buf[len] := c;
      }
      text := text + [c];
      len := len + 1;
    }

    method Pad(c: char, count: int)
      requires Valid()
      modifies this, buf
      ensures Valid() && text == old(text) + Repeat(c, count)
    {
      var n := count;
      while n > 0
        invariant Valid() && n <= count && (n >= 0 || n == count)
        invariant text == old(text) + Repeat(c, count - n)
      {
        Char(c);
        n := n - 1;
      }
    }

    method Chars(s: string, from: nat, to: nat)
      requires Valid() && from <= to <= |s|
      modifies this, buf
      ensures Valid() && text == old(text) + s[from..to]
    {
      for i := from to to
        invariant Valid() && text == old(text) + s[from..i]
      {
        Char(s[i]);
        assert s[from..i + 1] == s[from..i] + [s[i]];
      }
    }

    method Str(s: string, len: nat, width: int, flags: Flags)
      requires Valid() && len <= |s|
      modifies this, buf
      ensures Valid() && text == old(text) + Padded(s[..len], width, flags)
    {
      if !flags.left {
        Pad(' ', width - len);
      }
      Chars(s, 0, len);
      if flags.left {
        Pad(' ', width - len);
      }
    }

    /** An integer: its sign, prefix, zeros and digits, padded. */
    method Num(v: Word64, neg: bool, base: nat, upper: bool, width: int, prec: int, flags: Flags)
      requires Valid() && PrintBase(base)
      modifies this, buf
      ensures Valid() && text == old(text) + Number(v, neg, base, upper, width, prec, flags)
    {
      hide Body, Sign, Prefix, Zeros, PrintBase, Repeat, Overlay, Flip;
      var digits, n := CollectDigits(v, base, upper, prec);
      var sign, prefix, zeros, len := PlanNumber(digits, n, neg, base, upper, width, prec, flags);
      Pieces(sign, prefix, zeros, digits, n, width - len, flags.left);
      ghost var body := Body(v, base, upper, prec);
      assert len == |sign + prefix + Repeat('0', zeros) + body|;
    }

    /** Prints the parts of a number in order, with the padding on one side. */
    method Pieces(sign: string, prefix: string, zeros: nat, digits: array<char>, n: nat, padding: int, left: bool)
      requires Valid() && n <= digits.Length && digits != buf
      modifies this, buf
      ensures Valid()
      ensures text == old(text)
        + (if left then "" else Repeat(' ', padding))
        + (sign + prefix + Repeat('0', zeros) + Flip(old(digits[..n])))
        + (if left then Repeat(' ', padding) else "")
    {
      hide Flip, Repeat;
      if !left {
        Pad(' ', padding);
      }
      ghost var padded := text;
      Chars(sign, 0, |sign|);
      Chars(prefix, 0, |prefix|);
      Pad('0', zeros);
      CharsBackwards(digits, n);
      assert text == padded + (sign + prefix + Repeat('0', zeros) + Flip(old(digits[..n])));
      if left {
        Pad(' ', padding);
      }
    }

    /** Prints the first `count` characters of an array, last first. */
    method CharsBackwards(digits: array<char>, count: nat)
      requires Valid() && count <= digits.Length && digits != buf
      modifies this, buf
      ensures Valid() && text == old(text) + Flip(digits[..count])
    {
      var n: nat := count;
      while n > 0
        invariant n <= count && Valid()
        invariant text + Flip(digits[..n]) == old(text) + Flip(digits[..count])
      {
        n := n - 1;
        assert digits[..n + 1][..n] == digits[..n];
        assert text + Flip(digits[..n + 1]) == (text + [digits[n]]) + Flip(digits[..n]);
        Char(digits[n]);
      }
    }

    /** One conversion. */
    method Convert(d: Directive, conv: char, arg: Arg)
      requires Valid()
      modifies this, buf
      ensures Valid() && text == old(text) + Converted(d, conv, arg)
    {
      hide Number, Padded;
      if conv == 'd' || conv == 'i' {
        var v := if d.long then AsLong(arg.bits) else AsInt(arg.bits);
        Num(Magnitude(v), v < 0, 10, false, d.width, d.prec, d.flags);
      } else if conv == 'u' || conv == 'x' || conv == 'X' || conv == 'o' {
        var v := if d.long then arg.bits else arg.bits % 0x1_0000_0000;
        Num(v, false, if conv == 'u' then 10 else if conv == 'o' then 8 else 16, conv == 'X', d.width, d.prec, d.flags);
      } else if conv == 'p' {
        Num(arg.bits, false, 16, false, d.width, d.prec, d.flags.(alt := true));
      } else {
        ConvertText(d, conv, arg);
      }
    }

    method ConvertText(d: Directive, conv: char, arg: Arg)
      requires Valid() && conv !in "diuxXop"
      modifies this, buf
      ensures Valid() && text == old(text) + Converted(d, conv, arg)
    {
      hide Number, Padded;
      if conv == 'c' {
        var s := [(arg.bits % 256) as char];
        assert s[..1] == s;
        Str(s, 1, d.width, d.flags);
      } else if conv == 's' {
        var s := if arg.text.Some? then arg.text.value else "(null)";
        var len := 0;
        while At(s, len) != '\0' && (d.prec < 0 || len < d.prec)
          invariant len <= |s| && Length(s, d.prec, 0) == Length(s, d.prec, len)
          invariant Valid() && text == old(text)
          decreases |s| - len
        {
          len := len + 1;
        }
        Str(s, len, d.width, d.flags);
      } else if conv in "fFeEgG" {
        var s := arg.fixed(d.prec, d.flags);
        assert s[..|s|] == s;
        Str(s, |s|, d.width, d.flags);
      } else if conv == 'n' {
      } else if conv == '%' {
        Char('%');
      } else {
        Char('%');
        Char(conv);
      }
    }

    /** Prints a format with its arguments. */
    method Format(fmt: string, args: seq<Arg>)
      requires Valid()
      modifies this, buf
      ensures Valid() && text == old(text) + Formatted(fmt, 0, args)
    {
      var i, left := 0, args;
      while At(fmt, i) != '\0'
        invariant i <= |fmt| && Valid()
        invariant text + Formatted(fmt, i, left) == old(text) + Formatted(fmt, 0, args)
        decreases |fmt| - i
      {
        hide Converted, DirectiveAt, Valid, Formatted;
        if fmt[i] != '%' {
          FormattedLiteral(fmt, i, left);
          Assoc(text, [fmt[i]], Formatted(fmt, i + 1, left));
          Char(fmt[i]);
          i := i + 1;
          continue;
        }
        var d := ReadDirective(fmt, i + 1, left);
        FormattedDirective(fmt, i, left);
        var conv := At(fmt, d.next);
        if conv == '\0' {
          return;
        }
        var rest := if TakesArgument(conv) then Rest(d.args) else d.args;
        Assoc(text, Converted(d, conv, First(d.args)), Formatted(fmt, d.next + 1, rest));
        Convert(d, conv, First(d.args));
        i, left := d.next + 1, rest;
      }
      NothingFormatted(fmt, i, left);
    }
  }

  lemma NothingFormatted(fmt: string, i: nat, args: seq<Arg>)
    requires i <= |fmt| && At(fmt, i) == '\0'
    ensures Formatted(fmt, i, args) == ""
  {
  }

  lemma FormattedLiteral(fmt: string, i: nat, args: seq<Arg>)
    requires i < |fmt| && fmt[i] != '\0' && fmt[i] != '%'
    ensures Formatted(fmt, i, args) == [fmt[i]] + Formatted(fmt, i + 1, args)
  {
  }

  lemma FormattedDirective(fmt: string, i: nat, args: seq<Arg>)
    requires i < |fmt| && fmt[i] == '%'
    ensures var d := DirectiveAt(fmt, i + 1, args);
            var conv := At(fmt, d.next);
            && (conv != '\0' ==> d.next < |fmt|)
            && Formatted(fmt, i, args) ==
                 if conv == '\0' then ""
                 else Converted(d, conv, First(d.args))
                      + Formatted(fmt, d.next + 1, if TakesArgument(conv) then Rest(d.args) else d.args)
  {
    hide DirectiveAt, Converted;
  }

  // ----- reading a directive

  method ReadFlags(fmt: string, start: nat) returns (flags: Flags, p: nat)
    requires start <= |fmt|
    ensures FlagsRead(flags, p) == FlagsAt(fmt, start, NO_FLAGS)
  {
    flags, p := NO_FLAGS, start;
    while true
      invariant start <= p <= |fmt| && FlagsAt(fmt, p, flags) == FlagsAt(fmt, start, NO_FLAGS)
      decreases |fmt| - p
    {
      if At(fmt, p) == '-' { flags := flags.(left := true); }
      else if At(fmt, p) == '+' { flags := flags.(plus := true); }
      else if At(fmt, p) == ' ' { flags := flags.(space := true); }
      else if At(fmt, p) == '#' { flags := flags.(alt := true); }
      else if At(fmt, p) == '0' { flags := flags.(zero := true); }
      else { break; }
      p := p + 1;
    }
  }

  method ReadNumber(fmt: string, start: nat, initial: int) returns (value: int, p: nat)
    requires start <= |fmt|
    ensures NumberRead(value, p) == NumberAt(fmt, start, initial)
  {
    value, p := initial, start;
    while IsDigit(At(fmt, p))
      invariant start <= p <= |fmt| && NumberAt(fmt, p, value) == NumberAt(fmt, start, initial)
      decreases |fmt| - p
    {
      value := value * 10 + (At(fmt, p) - '0') as int;
      p := p + 1;
    }
  }

  method ReadSize(fmt: string, start: nat) returns (long: bool, p: nat)
    requires start <= |fmt|
    ensures SizeRead(long, p) == SizeAt(fmt, start, false)
  {
    long, p := false, start;
    while p < |fmt| && IsSizeLetter(fmt[p])
      invariant start <= p <= |fmt| && SizeAt(fmt, p, long) == SizeAt(fmt, start, false)
    {
      if MakesLong(fmt[p]) {
        long := true;
      }
      p := p + 1;
    }
  }

  method ReadDirective(fmt: string, start: nat, args: seq<Arg>) returns (d: Directive)
    requires start <= |fmt|
    ensures d == DirectiveAt(fmt, start, args)
  {
    hide FlagsAt, NumberAt, SizeAt, AsInt, IsDigit;
    var flags, p := ReadFlags(fmt, start);
    var left := args;
    var width := 0;
    if At(fmt, p) == '*' {
      width := AsInt(First(left).bits);
      left := Rest(left);
      if width < 0 {
        flags := flags.(left := true);
        width := -width;
      }
      p := p + 1;
    }
    width, p := ReadNumber(fmt, p, width);

    var prec := -1;
    if At(fmt, p) == '.' {
      p := p + 1;
      prec := 0;
      if At(fmt, p) == '*' {
        prec := AsInt(First(left).bits);
        left := Rest(left);
        p := p + 1;
      }
      prec, p := ReadNumber(fmt, p, prec);
    }
    var long;
    long, p := ReadSize(fmt, p);
    d := Directive(flags, width, prec, long, p, left);
  }

  /** Prints to a buffer of `size` characters: all that fits, with a NUL, and the whole length. */
  method Vsnprintf(buf: array<char>, size: nat, fmt: string, args: seq<Arg>) returns (n: int)
    requires size <= buf.Length
    modifies buf
    ensures buf[..] == Stored(old(buf[..]), size, Formatted(fmt, 0, args))
    ensures n == AsInt(|Formatted(fmt, 0, args)| % WORD)
  {
    var o := new Out(buf, size);
    o.Format(fmt, args);
    ghost var full := Formatted(fmt, 0, args);
    assert o.text == full;
    n := AsInt(o.len % WORD);
    OverlayEnds(o.initial, size, full);
    hide Overlay, Stored, Formatted, AsInt;
    if size > 0 {
      buf[if o.len < size then o.len else size - 1] := '\0';
    }
  }

  /** Prints to the console. */
  method Vprintf(fmt: string, args: seq<Arg>) returns (serial: string, n: int)
    ensures serial == Formatted(fmt, 0, args)
    ensures n == AsInt(|serial| % WORD)
  {
    var none := new char[0];
    var o := new Out.Console(none);
    o.Format(fmt, args);
    serial := o.serial;
    n := AsInt(o.len % WORD);
  }

  // ----- formats

  /** Text without percent signs stands for itself. */
  lemma {:induction false} LiteralFormat(fmt: string, i: nat, args: seq<Arg>)
    requires i <= |fmt| && forall k :: i <= k < |fmt| ==> fmt[k] != '%' && fmt[k] != '\0'
    ensures Formatted(fmt, i, args) == fmt[i..]
    decreases |fmt| - i
  {
    hide DirectiveAt, Converted;
    if i < |fmt| {
      LiteralFormat(fmt, i + 1, args);
    }
  }

  /** A directive that spans the whole format prints one conversion and nothing else. */
  lemma OneDirective(fmt: string, args: seq<Arg>)
    requires fmt != "" && fmt[0] == '%'
    ensures var d := DirectiveAt(fmt, 1, args);
            d.next + 1 == |fmt| && fmt[d.next] != '\0' ==>
              Formatted(fmt, 0, args) == Converted(d, fmt[d.next], First(d.args))
  {
    hide DirectiveAt, Converted;
    var d := DirectiveAt(fmt, 1, args);
    if d.next + 1 == |fmt| {
      assert forall rest :: Formatted(fmt, |fmt|, rest) == "";
    }
  }

  predicate NoNul(s: string) { forall i :: 0 <= i < |s| ==> s[i] != '\0' }

  lemma {:induction false} DigitsHaveNoNul(v: nat, base: nat, upper: bool)
    requires PrintBase(base)
    ensures NoNul(Digits(v, base, upper))
    decreases v
  {
    if v == 0 {
    } else {
      DigitsHaveNoNul(Quot(v, base), base, upper);
      NulIsNoDigit();
      hide DigitChar, DigitValue;
    }
  }

  lemma JoinHasNoNul(a: string, b: string)
    requires NoNul(a) && NoNul(b)
    ensures NoNul(a + b)
  {
  }

  lemma NumberHasNoNul(v: nat, neg: bool, base: nat, upper: bool, width: int, prec: int, flags: Flags)
    requires PrintBase(base)
    ensures NoNul(Number(v, neg, base, upper, width, prec, flags))
  {
    DigitsHaveNoNul(v, base, upper);
    var body := Body(v, base, upper, prec);
    var sign := Sign(neg, flags);
    var prefix := Prefix(body, base, upper, flags);
    var zeros := Repeat('0', Zeros(body, sign, prefix, width, prec, flags));
    assert NoNul(body) && NoNul(sign) && NoNul(prefix);
    hide Repeat, Zeros, Body, Sign, Prefix;
    JoinHasNoNul(sign, prefix);
    JoinHasNoNul(sign + prefix, zeros);
    JoinHasNoNul(sign + prefix + zeros, body);
    var core := sign + prefix + zeros + body;
    var spaces := Repeat(' ', width - |core|);
    hide NoNul;
    assert NoNul(spaces) && NoNul("") by { SpacesHaveNoNul(width - |core|); }
    JoinHasNoNul(if flags.left then "" else spaces, core);
    JoinHasNoNul((if flags.left then "" else spaces) + core, if flags.left then spaces else "");
  }

  lemma SpacesHaveNoNul(n: int)
    ensures NoNul(Repeat(' ', n)) && NoNul("")
  {
  }

  /** A long printed by %ld with any flags, width and precision, through a
      buffer it fits, and read back by strtol, is the same long. */
  lemma LongSurvivesBuffer(d: Directive, arg: Arg, initial: string, size: nat)
    requires d.long && |Converted(d, 'd', arg)| < size <= |initial|
    ensures Strtol(CString(Stored(initial, size, Converted(d, 'd', arg))), 10) == AsLong(arg.bits)
  {
    var v := AsLong(arg.bits);
    hide Number, Strtol, CString, Stored;
    NumberHasNoNul(Magnitude(v), v < 0, 10, false, d.width, d.prec, d.flags);
    StoredIsPrefix(initial, size, Converted(d, 'd', arg));
    LongReadsBack(v, d.width, d.prec, d.flags, 10);
    var text := Converted(d, 'd', arg);
    assert text[..|text|] == text;
  }

  /** A string back to front. */
  function Flip(s: string): (r: string)
    ensures |r| == |s|
    decreases |s|
  {
    if s == "" then "" else [s[|s| - 1]] + Flip(s[..|s| - 1])
  }

  lemma {:induction false} FlipEnds(s: string)
    ensures s != "" ==> Flip(s)[0] == s[|s| - 1]
  {
  }

  /** Sign, prefix, zeros, and the length of all that with the digits. */
  method PlanNumber(digits: array<char>, n: nat, neg: bool, base: nat, upper: bool, width: int, prec: int, flags: Flags)
    returns (sign: string, prefix: string, zeros: nat, len: nat)
    requires n <= digits.Length
    ensures var body := Flip(digits[..n]);
            && sign == Sign(neg, flags) && prefix == Prefix(body, base, upper, flags)
            && zeros == Zeros(body, sign, prefix, width, prec, flags)
            && len == |sign| + |prefix| + zeros + |body|
  {
    FlipEnds(digits[..n]);
    hide Flip;
    sign := if neg then "-" else if flags.plus then "+" else if flags.space then " " else "";
    prefix := "";
    if flags.alt && base == 16 && n > 0 && digits[n - 1] != '0' {
      prefix := if upper then "0X" else "0x";
    } else if flags.alt && base == 8 && (n == 0 || digits[n - 1] != '0') {
      prefix := "0";
    }
    zeros := if prec > n then prec - n else 0;
    len := n + zeros + |sign| + |prefix|;
    if flags.zero && !flags.left && prec < 0 && width > len {
      zeros := zeros + (width - len);
      len := width;
    }
  }

  lemma FlipLast(s: string, c: char)
    ensures Flip(s + [c]) == [c] + Flip(s)
  {
    assert (s + [c])[..|s|] == s;
  }

  /** One division moves a digit from the number to the buffer. */
  lemma DigitMoves(v: nat, base: nat, upper: bool, buffer: string)
    requires v > 0 && PrintBase(base)
    ensures var next := buffer + [DigitChar(Rem(v, base), upper)];
            && Digits(Quot(v, base), base, upper) + Flip(next) == Digits(v, base, upper) + Flip(buffer)
            && |Digits(v, base, upper)| == |Digits(Quot(v, base), base, upper)| + 1
  {
    assert base <= 16;
    hide DigitChar, Quot, Rem, PrintBase;
    var c, front := DigitChar(Rem(v, base), upper), Digits(Quot(v, base), base, upper);
    assert Digits(v, base, upper) == front + [c];
    FlipLast(buffer, c);
    hide Digits, Flip;
    Assoc(front, [c], Flip(buffer));
  }

  /** The digits of a number, least significant first, in a buffer of 24. */
  method CollectDigits(v: Word64, base: nat, upper: bool, prec: int) returns (digits: array<char>, n: nat)
    requires PrintBase(base)
    ensures fresh(digits) && digits.Length == DIGIT_BUFFER && n <= DIGIT_BUFFER
    ensures Flip(digits[..n]) == Body(v, base, upper, prec)
  {
    digits := new char[DIGIT_BUFFER];
    n := 0;
    if v == 0 && prec != 0 {
      digits[0] := '0';
      n := 1;
      assert digits[..1] == "0";
    }
    FlipFew();
    var rest: nat := v;
    assert Digits(rest, base, upper) + Flip(digits[..n]) == Body(v, base, upper, prec);
    BufferSuffices(v, base, upper, prec);
    hide DigitChar, Body, Digits, Flip, PrintBase, Quot, Rem;
    while rest > 0
      invariant n + |Digits(rest, base, upper)| < DIGIT_BUFFER
      invariant Digits(rest, base, upper) + Flip(digits[..n]) == Body(v, base, upper, prec)
    {
      DigitMoves(rest, base, upper, digits[..n]);
      digits[n] := DigitChar(Rem(rest, base), upper);
      assert digits[..n + 1] == digits[..n] + [digits[n]];
      rest := Quot(rest, base);
      n := n + 1;
    }
    NoDigits(base, upper);
  }

  lemma FlipFew()
    ensures Flip("") == "" && Flip("0") == "0"
  {
    assert "0"[..0] == "";
  }

  lemma NoDigits(base: nat, upper: bool)
    requires PrintBase(base)
    ensures Digits(0, base, upper) == ""
  {
  }
}
