/** Keys as scancodes: what the host's keyboard sends for a key, what Doom
    makes of the bytes, and that one undoes the other. */
module Keys {
  import opened Common

  // ----- the host's encoder

  const ROW_QWERTY: seq<char> := "qwertyuiop"
  const ROW_ASDF: seq<char> := "asdfghjkl"
  const ROW_ZXCV: seq<char> := "zxcvbnm"

  lemma {:induction false} FirstPlace(row: seq<char>, c: char)
    requires c in row
    ensures exists i :: 0 <= i < |row| && row[i] == c && c !in row[..i]
    decreases |row|
  {
    var front := row[..|row| - 1];
    if c in front {
      FirstPlace(front, c);
      var i :| 0 <= i < |front| && front[i] == c && c !in front[..i];
      assert row[i] == c && row[..i] == front[..i];
    } else {
      assert row[|row| - 1] == c && c !in row[..|row| - 1];
    }
  }

  /** First position of a letter in a keyboard row. */
  ghost function Find(row: seq<char>, c: char): (i: Option<nat>)
    ensures i.Some? ==> i.value < |row| && row[i.value] == c
    ensures i.None? ==> c !in row
  {
    if c in row then
      FirstPlace(row, c);
      var i :| 0 <= i < |row| && row[i] == c && c !in row[..i];
      Some(i)
    else None
  }

  ghost function Letter(c: char): (code: Option<Byte>)
    ensures code.Some? ==> 0x10 <= code.value <= 0x32
  {
    match Find(ROW_QWERTY, c)
    case Some(i) => Some(0x10 + i)
    case None =>
      match Find(ROW_ASDF, c)
      case Some(i) => Some(0x1e + i)
      case None =>
        match Find(ROW_ZXCV, c)
        case Some(i) => Some(0x2c + i)
        case None => None
  }

  /** The lower-case letter of an ASCII letter keysym. */
  function LowerCase(keysym: Word32): char
    requires 0x41 <= keysym <= 0x5a || 0x61 <= keysym <= 0x7a
  {
    (if keysym <= 0x5a then keysym + 0x20 else keysym) as char
  }

  ghost function PlainCode(keysym: Word32): (code: Option<Byte>)
    ensures code.Some? ==> 0 < code.value <= 0x58
  {
    var k := keysym;
    if k == 0x30 then Some(0x0b)
    else if 0x31 <= k <= 0x39 then Some(k - 0x31 + 0x02)
    else if 0x41 <= k <= 0x5a || 0x61 <= k <= 0x7a then Letter(LowerCase(k))
    else if k == 0x21 then Some(0x02) else if k == 0x40 then Some(0x03) else if k == 0x23 then Some(0x04)
    else if k == 0x24 then Some(0x05) else if k == 0x25 then Some(0x06) else if k == 0x5e then Some(0x07)
    else if k == 0x26 then Some(0x08) else if k == 0x2a then Some(0x09) else if k == 0x28 then Some(0x0a)
    else if k == 0x29 then Some(0x0b)
    else if k == 0x2d || k == 0x5f then Some(0x0c)
    else if k == 0x3d || k == 0x2b then Some(0x0d)
    else if k == 0x5b || k == 0x7b then Some(0x1a)
    else if k == 0x5d || k == 0x7d then Some(0x1b)
    else if k == 0x3b || k == 0x3a then Some(0x27)
    else if k == 0x27 || k == 0x22 then Some(0x28)
    else if k == 0x60 || k == 0x7e then Some(0x29)
    else if k == 0x5c || k == 0x7c then Some(0x2b)
    else if k == 0x2c || k == 0x3c then Some(0x33)
    else if k == 0x2e || k == 0x3e then Some(0x34)
    else if k == 0x2f || k == 0x3f then Some(0x35)
    else if k == 0x20 then Some(0x39)
    else if k == 0xff1b then Some(0x01)
    else if k == 0xff08 then Some(0x0e)
    else if k == 0xff09 then Some(0x0f)
    else if k == 0xff0d then Some(0x1c)
    else if k == 0xffe3 then Some(0x1d)
    else if k == 0xffe1 then Some(0x2a)
    else if k == 0xffe2 then Some(0x36)
    else if k == 0xffe9 then Some(0x38)
    else if k == 0xffe5 then Some(0x3a)
    else if 0xffbe <= k <= 0xffc7 then Some(k - 0xffbe + 0x3b)
    else if k == 0xffc8 then Some(0x57)
    else if k == 0xffc9 then Some(0x58)
    else None
  }

  ghost function ExtendedCode(keysym: Word32): (code: Option<Byte>)
    ensures code.Some? ==> 0 < code.value <= 0x58
  {
    if keysym == 0xffe4 then Some(0x1d)
    else if keysym == 0xffea || keysym == 0xfe03 then Some(0x38)
    else if keysym == 0xff50 then Some(0x47)
    else if keysym == 0xff52 then Some(0x48)
    else if keysym == 0xff55 then Some(0x49)
    else if keysym == 0xff51 then Some(0x4b)
    else if keysym == 0xff53 then Some(0x4d)
    else if keysym == 0xff57 then Some(0x4f)
    else if keysym == 0xff54 then Some(0x50)
    else if keysym == 0xff56 then Some(0x51)
    else if keysym == 0xff63 then Some(0x52)
    else if keysym == 0xffff then Some(0x53)
    else None
  }

  /** keysym_to_set1: a make code, after an 0xe0 prefix or not. */
  ghost function Set1(keysym: Word32): Option<(bool, Byte)> {
    match PlainCode(keysym)
    case Some(code) => Some((false, code))
    case None =>
      match ExtendedCode(keysym)
      case Some(code) => Some((true, code))
      case None => None
  }

  /** The bytes of one key event: prefix, then the code with bit 7 set for a release. */
  ghost function Scancodes(down: bool, keysym: Word32): seq<Byte> {
    match Set1(keysym)
    case None => []
    case Some((extended, code)) =>
      Codes(down, extended, code)
  }

  function Codes(down: bool, extended: bool, code: Byte): seq<Byte> {
    (if extended then [0xe0] else []) + [if down || code >= 0x80 then code else code + 0x80]
  }

  // ----- the guest's decoder

  /** Doom's keys; the numbers behind the names are not part of this model. */
  datatype DoomKey =
    | Char(c: char) | Escape | Backspace | Tab | Enter | Fire | RShift | LAlt | RAlt | Use | CapsLock
    | F(n: nat) | UpArrow | LeftArrow | RightArrow | DownArrow | Home | PgUp | End | PgDn | Ins | Del

  const TOP_ROW: seq<char> := "1234567890-="
  const SECOND_ROW: seq<char> := "qwertyuiop[]"
  const THIRD_ROW: seq<char> := "asdfghjkl;'`"
  const FOURTH_ROW: seq<char> := "zxcvbnm,./"

  function PlainKey(code: Byte): Option<DoomKey> {
    if code == 0x01 then Some(Escape)
    else if 0x02 <= code <= 0x0d then Some(Char(TOP_ROW[code - 0x02]))
    else if code == 0x0e then Some(Backspace)
    else if code == 0x0f then Some(Tab)
    else if 0x10 <= code <= 0x1b then Some(Char(SECOND_ROW[code - 0x10]))
    else if code == 0x1c then Some(Enter)
    else if code == 0x1d then Some(Fire)
    else if 0x1e <= code <= 0x29 then Some(Char(THIRD_ROW[code - 0x1e]))
    else if code == 0x2a then Some(RShift)
    else if code == 0x2b then Some(Char('\\'))
    else if 0x2c <= code <= 0x35 then Some(Char(FOURTH_ROW[code - 0x2c]))
    else if code == 0x36 then Some(RShift)
    else if code == 0x38 then Some(LAlt)
    else if code == 0x39 then Some(Use)
    else if code == 0x3a then Some(CapsLock)
    else if 0x3b <= code <= 0x44 then Some(F(code - 0x3a))
    else if code == 0x48 then Some(UpArrow)
    else if code == 0x4b then Some(LeftArrow)
    else if code == 0x4d then Some(RightArrow)
    else if code == 0x50 then Some(DownArrow)
    else if code == 0x57 then Some(F(11))
    else if code == 0x58 then Some(F(12))
    else None
  }

  function ExtendedKey(code: Byte): Option<DoomKey> {
    if code == 0x1c then Some(Enter)
    else if code == 0x1d then Some(Fire)
    else if code == 0x38 then Some(RAlt)
    else if code == 0x47 then Some(Home)
    else if code == 0x48 then Some(UpArrow)
    else if code == 0x49 then Some(PgUp)
    else if code == 0x4b then Some(LeftArrow)
    else if code == 0x4d then Some(RightArrow)
    else if code == 0x4f then Some(End)
    else if code == 0x50 then Some(DownArrow)
    else if code == 0x51 then Some(PgDn)
    else if code == 0x52 then Some(Ins)
    else if code == 0x53 then Some(Del)
    else None
  }

  datatype Event = Event(pressed: bool, key: DoomKey)

  /** What one byte gives, if anything, after an 0xe0 prefix or not. */
  function EventOf(extended: bool, byte: Byte): seq<Event> {
    if byte == 0xe0 then []
    else
      match (if extended then ExtendedKey(byte % 0x80) else PlainKey(byte % 0x80))
      case Some(key) => [Event(byte < 0x80, key)]
      case None => []
  }

  function PrefixAfter(extended: bool, bytes: seq<Byte>): bool {
    if bytes == [] then extended else bytes[|bytes| - 1] == 0xe0
  }

  function Events(extended: bool, bytes: seq<Byte>): seq<Event>
    decreases |bytes|
  {
    if bytes == [] then [] else EventOf(extended, bytes[0]) + Events(bytes[0] == 0xe0, bytes[1..])
  }

  lemma {:induction false} EventsAppend(extended: bool, a: seq<Byte>, b: seq<Byte>)
    ensures Events(extended, a + b) == Events(extended, a) + Events(PrefixAfter(extended, a), b)
    ensures PrefixAfter(extended, a + b) == PrefixAfter(PrefixAfter(extended, a), b)
    decreases |a|
  {
    hide EventOf;
    if a == [] {
      assert a + b == b;
    } else {
      var rest := a[1..];
      assert (a + b)[0] == a[0] && (a + b)[1..] == rest + b;
      EventsAppend(a[0] == 0xe0, rest, b);
      assert PrefixAfter(a[0] == 0xe0, rest) == PrefixAfter(extended, a);
      var tail := Events(PrefixAfter(extended, a), b);
      assert EventOf(extended, a[0]) + (Events(a[0] == 0xe0, rest) + tail)
        == (EventOf(extended, a[0]) + Events(a[0] == 0xe0, rest)) + tail;
      if b != [] {
        assert (a + b)[|a + b| - 1] == b[|b| - 1];
      }
    }
  }

  // ----- both together

  /** What a key event means to Doom: nothing for keys it has no name for. */
  ghost function Meaning(down: bool, keysym: Word32): seq<Event> {
    match Set1(keysym)
    case None => []
    case Some((extended, code)) =>
      match (if extended then ExtendedKey(code) else PlainKey(code))
      case Some(key) => [Event(down, key)]
      case None => []
  }

  /** The encoding is unambiguous: a code is never mistaken for the prefix,
      pressing and releasing stay apart, and decoding one key leaves no prefix behind. */
  lemma ScancodesDecode(down: bool, keysym: Word32)
    ensures Events(false, Scancodes(down, keysym)) == Meaning(down, keysym)
    ensures !PrefixAfter(false, Scancodes(down, keysym))
  {
    match Set1(keysym)
    case None =>
    case Some((extended, code)) =>
      var byte: Byte := if down then code else code + 0x80;
      var bytes := Scancodes(down, keysym);
      assert byte != 0xe0 && byte % 0x80 == code && (byte < 0x80 <==> down);
      assert Events(extended, [byte]) == EventOf(extended, byte) + Events(false, [byte][1..]);
      if extended {
        assert bytes == [0xe0, byte] && bytes[1..] == [byte];
      } else {
        assert bytes == [byte];
      }
  }

  /** Different keys of one kind never share their bytes. */
  lemma ScancodesInjective(down: bool, a: Word32, down': bool, b: Word32)
    requires Set1(a).Some? && Set1(b).Some? && Scancodes(down, a) == Scancodes(down', b)
    ensures down == down' && Set1(a) == Set1(b)
  {
    var (ea, ca) := Set1(a).value;
    var (eb, cb) := Set1(b).value;
    var sa, sb := Scancodes(down, a), Scancodes(down', b);
    assert |sa| == |sb| && sa[|sa| - 1] == sb[|sb| - 1];
  }

  /** A letter, typed shifted or not, reaches Doom as the lower-case letter; a digit as itself. */
  lemma LettersAndDigits(down: bool, keysym: Word32)
    ensures 0x41 <= keysym <= 0x5a || 0x61 <= keysym <= 0x7a ==>
      Meaning(down, keysym) == [Event(down, Char(LowerCase(keysym)))]
    ensures 0x30 <= keysym <= 0x39 ==> Meaning(down, keysym) == [Event(down, Char(keysym as char))]
  {
    if 0x41 <= keysym <= 0x5a || 0x61 <= keysym <= 0x7a {
      LetterKeys(LowerCase(keysym));
      hide Letter, PlainKey;
    }
  }

  /** A letter's code stands for the letter. */
  lemma LetterKeys(c: char)
    requires 'a' <= c <= 'z'
    ensures Letter(c).Some? && PlainKey(Letter(c).value) == Some(Char(c))
  {
    EveryLetterHasARow(c);
    match Find(ROW_QWERTY, c)
    case Some(i) => assert SECOND_ROW[i] == ROW_QWERTY[i];
    case None =>
      match Find(ROW_ASDF, c)
      case Some(i) => assert THIRD_ROW[i] == ROW_ASDF[i];
      case None =>
        match Find(ROW_ZXCV, c)
        case Some(i) => assert FOURTH_ROW[i] == ROW_ZXCV[i];
        case None =>
  }

  lemma EveryLetterHasARow(c: char)
    requires 'a' <= c <= 'z'
    ensures c in ROW_QWERTY || c in ROW_ASDF || c in ROW_ZXCV
  {
    assert ROW_QWERTY[0] == 'q' && ROW_QWERTY[1] == 'w' && ROW_QWERTY[2] == 'e' && ROW_QWERTY[3] == 'r'
      && ROW_QWERTY[4] == 't';
    assert ROW_QWERTY[5] == 'y' && ROW_QWERTY[6] == 'u' && ROW_QWERTY[7] == 'i' && ROW_QWERTY[8] == 'o'
      && ROW_QWERTY[9] == 'p';
    assert ROW_ASDF[0] == 'a' && ROW_ASDF[1] == 's' && ROW_ASDF[2] == 'd' && ROW_ASDF[3] == 'f' && ROW_ASDF[4] == 'g';
    assert ROW_ASDF[5] == 'h' && ROW_ASDF[6] == 'j' && ROW_ASDF[7] == 'k' && ROW_ASDF[8] == 'l';
    assert ROW_ZXCV[0] == 'z' && ROW_ZXCV[1] == 'x' && ROW_ZXCV[2] == 'c' && ROW_ZXCV[3] == 'v' && ROW_ZXCV[4] == 'b';
    assert ROW_ZXCV[5] == 'n' && ROW_ZXCV[6] == 'm';
  }
}
