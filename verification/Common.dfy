/** Types shared by the models of the monitor and of its guest. */
module Common {

  type Byte = x: int | 0 <= x < 256

  type Word16 = x: int | 0 <= x < 0x1_0000

  type Word32 = x: int | 0 <= x < 0x1_0000_0000

  type Word64 = x: int | 0 <= x < 0x1_0000_0000_0000_0000

  const HALF_WORD := 0x1_0000_0000
  const WORD := 0x1_0000_0000_0000_0000

  datatype Option<+T> = None | Some(value: T)

  lemma OneLonger<T>(s: seq<T>, i: nat)
    requires i < |s|
    ensures s[..i + 1] == s[..i] + [s[i]]
  {
  }

  lemma SliceOfSlice<T>(s: seq<T>, from: nat, to: nat, at: nat, size: nat)
    requires from <= at && at + size <= to <= |s|
    ensures s[from..to][at - from..at - from + size] == s[at..at + size]
  {
    var part, d := s[from..to], at - from;
    var left, right := part[d..d + size], s[at..at + size];
    assert forall k :: 0 <= k < size ==> left[k] == right[k];
  }

  /** `bytes` put at place `at`, the rest as it was. */
  function Overwritten<T>(mem: seq<T>, at: nat, bytes: seq<T>): (n: seq<T>)
    requires at + |bytes| <= |mem|
    ensures |n| == |mem|
  {
    mem[..at] + bytes + mem[at + |bytes|..]
  }

  lemma OverwrittenParts<T>(mem: seq<T>, at: nat, bytes: seq<T>)
    requires at + |bytes| <= |mem|
    ensures var n := Overwritten(mem, at, bytes);
            && n[at..at + |bytes|] == bytes
            && n[..at] == mem[..at] && n[at + |bytes|..] == mem[at + |bytes|..]
  {
  }

  /** Places clear of the ones overwritten keep their contents. */
  lemma OverwritingElsewhere<T>(mem: seq<T>, at: nat, bytes: seq<T>, from: nat, len: nat)
    requires at + |bytes| <= |mem| && from + len <= |mem|
    requires from + len <= at || at + |bytes| <= from
    ensures Overwritten(mem, at, bytes)[from..from + len] == mem[from..from + len]
  {
  }

  lemma OverwritingNothing<T>(mem: seq<T>, at: nat)
    requires at <= |mem|
    ensures Overwritten(mem, at, []) == mem
  {
  }
}
