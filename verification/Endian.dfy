/** Little-endian numbers as bytes. */
module Endian {
  import opened Common
  import opened Bits
  import Arith

  /** The `n` low bytes of a value, least significant first. */
  function LeBytes(v: nat, n: nat): (b: seq<Byte>)
    ensures |b| == n
  {
    if n == 0 then [] else [v % 256] + LeBytes(v / 256, n - 1)
  }

  function FromLe(b: seq<Byte>): nat {
    if b == [] then 0 else b[0] + 256 * FromLe(b[1..])
  }

  lemma {:induction false} FromLeBytes(v: nat, n: nat)
    ensures FromLe(LeBytes(v, n)) == Mod(v, Pow2(8 * n))
    decreases n
  {
    if n == 0 {
      DivModOne(v);
    } else {
      FromLeBytes(v / 256, n - 1);
      var m := Pow2(8 * (n - 1));
      Pow2Add(8, 8 * (n - 1));
      assert Pow2(8) == 256 by {
        assert Pow2(4) == 16;
      }
      assert LeBytes(v, n)[1..] == LeBytes(v / 256, n - 1);
      ByteFirst(v, m);
    }
  }

  lemma ByteFirst(v: nat, m: nat)
    requires m > 0
    ensures Mod(v, 256 * m) == v % 256 + 256 * Mod(v / 256, m)
  {
    var h := v / 256;
    Split(h, m);
    assert v == 256 * (h / m * m + h % m) + v % 256;
    assert 256 * (h / m * m) == (h / m) * (256 * m);
    Arith.DivModUnique(v, h / m, v % 256 + 256 * (h % m), 256 * m);
  }

  lemma ByteWidths()
    ensures Pow2(32) == 0x1_0000_0000 && Pow2(64) == 0x1_0000_0000_0000_0000
  {
    assert Pow2(8) == 256;
    hide Pow2;
    Pow2Add(8, 8);
    Pow2Add(16, 16);
    Pow2Add(32, 32);
  }

  /** A word written in eight bytes, or a half in four, is read back. */
  lemma WordsReadBack(v: Word64, w: Word32)
    ensures FromLe(LeBytes(v, 8)) == v && FromLe(LeBytes(w, 4)) == w
  {
    hide Pow2, LeBytes, FromLe;
    ByteWidths();
    FromLeBytes(v, 8);
    FromLeBytes(w, 4);
  }
}
