/** The registers of the VGA adapter: what one byte written to or read from a
    port does. Registers are plain values here; the class in VgaDevice updates
    them in place and is proved against these functions. */
module VgaRegisters {
  import opened Common
  import Arith

  const AC_INDEX := 0x3c0
  const AC_READ := 0x3c1
  const MISC_WRITE := 0x3c2
  const SEQ_INDEX := 0x3c4
  const SEQ_DATA := 0x3c5
  const DAC_READ_INDEX := 0x3c7
  const DAC_WRITE_INDEX := 0x3c8
  const DAC_DATA := 0x3c9
  const MISC_READ := 0x3cc
  const GC_INDEX := 0x3ce
  const GC_DATA := 0x3cf
  const CRTC_INDEX := 0x3d4
  const CRTC_DATA := 0x3d5
  const INSTAT_READ := 0x3da
  const DAC_STATE_READ: Byte := 3

  const COLOURS := 256
  const PALETTE_BYTES := 768

  /** A position in the palette: entry and component (red, green, blue). */
  datatype Cursor = Cursor(index: Byte, component: nat)

  /** Registers that are stored and read back and mean nothing to the frontends. */
  datatype Stores = Stores(
    misc: Byte,
    seqIndex: Byte, sequencer: seq<Byte>,
    gcIndex: Byte, gc: seq<Byte>,
    crtcIndex: Byte, crtc: seq<Byte>)

  datatype Regs = Regs(
    stores: Stores,
    acIndex: Byte, acDataNext: bool, ac: seq<Byte>,
    palette: seq<Byte>,        // three 6-bit components an entry
    dacWrite: Cursor, dacRead: Cursor, dacReading: bool,
    repaint: bool)             // palette or display-on bit changed since the last frame

  predicate StoresValid(s: Stores) {
    && s.seqIndex < 8 && |s.sequencer| == 8
    && s.gcIndex < 16 && |s.gc| == 16
    && s.crtcIndex < 32 && |s.crtc| == 32
  }

  predicate Valid(r: Regs) {
    && StoresValid(r.stores)
    && r.acIndex < 64 && |r.ac| == 32
    && |r.palette| == PALETTE_BYTES
    && (forall k :: 0 <= k < PALETTE_BYTES ==> r.palette[k] < 64)
    && r.dacWrite.component < 3 && r.dacRead.component < 3
  }

  /** The palette address source bit (0x20) of an attribute index byte. */
  predicate Pas(index: Byte) { index / 32 % 2 == 1 }

  predicate DisplayOn(r: Regs) { Pas(r.acIndex) }

  function Place(c: Cursor): nat { 3 * c.index + c.component }

  function Advance(c: Cursor): (n: Cursor)
    requires c.component < 3
    ensures n.component < 3
    ensures Place(n) == if Place(c) + 1 == PALETTE_BYTES then 0 else Place(c) + 1
  {
    if c.component == 2 then Cursor((c.index + 1) % 256, 0) else Cursor(c.index, c.component + 1)
  }

  function WriteStores(s: Stores, port: int, byte: Byte): (n: Stores)
    requires StoresValid(s)
    ensures StoresValid(n)
  {
    if port == MISC_WRITE then s.(misc := byte)
    else if port == SEQ_INDEX then s.(seqIndex := byte % 8)
    else if port == SEQ_DATA then s.(sequencer := s.sequencer[s.seqIndex := byte])
    else if port == GC_INDEX then s.(gcIndex := byte % 16)
    else if port == GC_DATA then s.(gc := s.gc[s.gcIndex := byte])
    else if port == CRTC_INDEX then s.(crtcIndex := byte % 32)
    else if port == CRTC_DATA then s.(crtc := s.crtc[s.crtcIndex := byte])
    else s
  }

  function ReadStores(s: Stores, port: int): Byte
    requires StoresValid(s)
  {
    if port == SEQ_INDEX then s.seqIndex
    else if port == SEQ_DATA then s.sequencer[s.seqIndex]
    else if port == MISC_READ then s.misc
    else if port == GC_INDEX then s.gcIndex
    else if port == GC_DATA then s.gc[s.gcIndex]
    else if port == CRTC_INDEX then s.crtcIndex
    else if port == CRTC_DATA then s.crtc[s.crtcIndex]
    else 0xff
  }

  /** One byte written to a port. */
  function WritePort(r: Regs, port: int, byte: Byte): (n: Regs)
    requires Valid(r)
    ensures Valid(n)
  {
    if port == AC_INDEX then
      if r.acDataNext then
        r.(ac := r.ac[r.acIndex % 32 := byte], acDataNext := false)
      else
        r.(repaint := r.repaint || Pas(r.acIndex) != Pas(byte), acIndex := byte % 64, acDataNext := true)
    else if port == DAC_READ_INDEX then r.(dacRead := Cursor(byte, 0), dacReading := true)
    else if port == DAC_WRITE_INDEX then r.(dacWrite := Cursor(byte, 0), dacReading := false)
    else if port == DAC_DATA then
      r.(palette := r.palette[Place(r.dacWrite) := byte % 64], repaint := true, dacWrite := Advance(r.dacWrite))
    else r.(stores := WriteStores(r.stores, port, byte))
  }

  /** What a byte read from a port returns; `status` is input status 1, which depends on the time. */
  function ReadValue(r: Regs, port: int, status: Byte): Byte
    requires Valid(r)
  {
    if port == AC_INDEX then r.acIndex
    else if port == AC_READ then r.ac[r.acIndex % 32]
    else if port == DAC_READ_INDEX then if r.dacReading then DAC_STATE_READ else 0
    else if port == DAC_WRITE_INDEX then r.dacWrite.index
    else if port == DAC_DATA then r.palette[Place(r.dacRead)]
    else if port == INSTAT_READ then status
    else ReadStores(r.stores, port)
  }

  /** What a byte read from a port leaves behind. */
  function ReadEffect(r: Regs, port: int): (n: Regs)
    requires Valid(r)
    ensures Valid(n)
  {
    if port == DAC_DATA then r.(dacRead := Advance(r.dacRead))
    else if port == INSTAT_READ then r.(acDataNext := false)
    else r
  }

  /** One byte of a trapped access. */
  datatype Access = Out(port: int, byte: Byte) | In(port: int, status: Byte)

  function Perform(r: Regs, a: Access): (n: Regs)
    requires Valid(r)
    ensures Valid(n)
  {
    match a
    case Out(port, byte) => WritePort(r, port, byte)
    case In(port, _) => ReadEffect(r, port)
  }

  function PerformAll(r: Regs, accesses: seq<Access>): (n: Regs)
    requires Valid(r)
    ensures Valid(n)
    decreases |accesses|
  {
    if accesses == [] then r else PerformAll(Perform(r, accesses[0]), accesses[1..])
  }

  /** The bytes the guest gets from the reads among the accesses. */
  function Replies(r: Regs, accesses: seq<Access>): seq<Byte>
    requires Valid(r)
    decreases |accesses|
  {
    if accesses == [] then []
    else
      (match accesses[0]
       case In(port, status) => [ReadValue(r, port, status)]
       case Out(_, _) => []) + Replies(Perform(r, accesses[0]), accesses[1..])
  }

  lemma {:induction false} PerformAllAppend(r: Regs, a: seq<Access>, b: seq<Access>)
    requires Valid(r)
    ensures PerformAll(r, a + b) == PerformAll(PerformAll(r, a), b)
    decreases |a|
  {
    if a == [] {
      assert a + b == b;
    } else {
      assert (a + b)[1..] == a[1..] + b;
      PerformAllAppend(Perform(r, a[0]), a[1..], b);
    }
  }

  lemma OneChangeAsksForRepaint(r: Regs, a: Access)
    requires Valid(r)
    ensures r.repaint ==> Perform(r, a).repaint
    ensures var n := Perform(r, a);
            !n.repaint ==> n.palette == r.palette && DisplayOn(n) == DisplayOn(r)
  {
  }

  /** A change of what the screen shows always asks for a repaint, and only a frame takes it back. */
  lemma {:induction false} ChangesAskForRepaint(r: Regs, accesses: seq<Access>)
    requires Valid(r)
    ensures r.repaint ==> PerformAll(r, accesses).repaint
    ensures var n := PerformAll(r, accesses);
            !n.repaint ==> n.palette == r.palette && DisplayOn(n) == DisplayOn(r)
    decreases |accesses|
  {
    if accesses == [] {
    } else {
      var m := Perform(r, accesses[0]);
      OneChangeAsksForRepaint(r, accesses[0]);
      ChangesAskForRepaint(m, accesses[1..]);
    }
  }

  lemma OneAccessIgnoresRepaint(r: Regs, a: Access, flag: bool)
    requires Valid(r)
    ensures Perform(r.(repaint := flag), a) == Perform(r, a).(repaint := Perform(r.(repaint := flag), a).repaint)
  {
    hide WriteStores, Advance, Place, Pas;
    match a
    case Out(port, byte) =>
      if port == AC_INDEX {
        AcIndexIgnoresRepaint(r, byte, flag);
      } else if port == DAC_DATA {
        DataIgnoresRepaint(r, byte, flag);
      } else {
        hide Valid;
      }
    case In(port, _) =>
  }

  lemma AcIndexIgnoresRepaint(r: Regs, byte: Byte, flag: bool)
    requires Valid(r)
    ensures var n := WritePort(r.(repaint := flag), AC_INDEX, byte);
            n == WritePort(r, AC_INDEX, byte).(repaint := n.repaint)
  {
    hide Pas;
  }

  lemma DataIgnoresRepaint(r: Regs, byte: Byte, flag: bool)
    requires Valid(r)
    ensures var n := WritePort(r.(repaint := flag), DAC_DATA, byte);
            n == WritePort(r, DAC_DATA, byte).(repaint := n.repaint)
  {
    hide Advance, Place;
  }

  lemma OneReplyIgnoresRepaint(r: Regs, a: Access, flag: bool)
    requires Valid(r)
    ensures a.In? ==> Valid(r.(repaint := flag))
                      && ReadValue(r.(repaint := flag), a.port, a.status) == ReadValue(r, a.port, a.status)
  {
    hide ReadStores;
  }

  /** The repaint flag is for the frontends: no access sees it. */
  lemma {:induction false} RepaintIsInvisible(r: Regs, accesses: seq<Access>, flag: bool)
    requires Valid(r)
    ensures var n := PerformAll(r.(repaint := flag), accesses);
            n == PerformAll(r, accesses).(repaint := n.repaint)
    ensures Replies(r.(repaint := flag), accesses) == Replies(r, accesses)
    decreases |accesses|
  {
    assert Valid(r.(repaint := flag));
    hide WritePort, ReadEffect, ReadValue, Valid;
    if accesses == [] {
    } else {
      OneAccessIgnoresRepaint(r, accesses[0], flag);
      OneReplyIgnoresRepaint(r, accesses[0], flag);
      RepaintIsInvisible(Perform(r, accesses[0]), accesses[1..], Perform(r.(repaint := flag), accesses[0]).repaint);
    }
  }

  /** A byte string written to the data port, as `rep outsb` or a loop of `outb` does. */
  function Outs(port: int, bytes: seq<Byte>): seq<Access> {
    seq(|bytes|, k requires 0 <= k < |bytes| => Out(port, bytes[k]))
  }

  function Ins(port: int, n: nat): seq<Access> {
    seq(n, _ => In(port, 0))
  }

  /** The place `k` after `at`, around the end of the table. */
  function Spot(at: nat, k: nat): nat { (at + k) % PALETTE_BYTES }

  lemma SpotNext(at: nat)
    requires at < PALETTE_BYTES
    ensures Spot(at, 1) == if at + 1 == PALETTE_BYTES then 0 else at + 1
  {
  }

  lemma SpotAdd(at: nat, k: nat)
    requires k > 0
    ensures Spot(Spot(at, 1), k - 1) == Spot(at, k)
  {
    Arith.ModAdd(at + 1, k - 1, PALETTE_BYTES);
  }

  /** How far place `p` is after place `at`, around the end of the table. */
  function Ahead(at: nat, p: nat): nat
    requires at < PALETTE_BYTES && p < PALETTE_BYTES
  {
    if p >= at then p - at else p + PALETTE_BYTES - at
  }

  /** The palette with `bytes`, six bits each, in consecutive places from `at` on, and the rest as it was. */
  function Loaded(palette: seq<Byte>, at: nat, bytes: seq<Byte>): (n: seq<Byte>)
    requires |palette| == PALETTE_BYTES && at < PALETTE_BYTES
    ensures |n| == PALETTE_BYTES
  {
    seq(PALETTE_BYTES, p requires 0 <= p < PALETTE_BYTES =>
      if Ahead(at, p) < |bytes| then bytes[Ahead(at, p)] % 64 else palette[p])
  }

  lemma LoadedStep(palette: seq<Byte>, at: nat, bytes: seq<Byte>)
    requires |palette| == PALETTE_BYTES && at < PALETTE_BYTES && 0 < |bytes| <= PALETTE_BYTES
    ensures Loaded(palette[at := bytes[0] % 64], Spot(at, 1), bytes[1..]) == Loaded(palette, at, bytes)
  {
    var next := Spot(at, 1);
    var a := Loaded(palette[at := bytes[0] % 64], next, bytes[1..]);
    var b := Loaded(palette, at, bytes);
    forall p | 0 <= p < PALETTE_BYTES ensures a[p] == b[p] {
      assert Ahead(next, p) == if p == at then PALETTE_BYTES - 1 else Ahead(at, p) - 1;
    }
  }

  /** Up to a whole palette written to the data port lands in consecutive
      places from the write cursor on, leaves the cursor after it, and
      changes nothing else but the repaint flag. */
  lemma {:induction false} DacLoad(r: Regs, bytes: seq<Byte>)
    requires Valid(r) && |bytes| <= PALETTE_BYTES
    ensures var n := PerformAll(r, Outs(DAC_DATA, bytes));
            && Place(n.dacWrite) == Spot(Place(r.dacWrite), |bytes|)
            && n == r.(palette := Loaded(r.palette, Place(r.dacWrite), bytes), dacWrite := n.dacWrite,
                       repaint := r.repaint || bytes != [])
    decreases |bytes|
  {
    hide WriteStores, Pas;
    var outs := Outs(DAC_DATA, bytes);
    if bytes == [] {
      assert Loaded(r.palette, Place(r.dacWrite), bytes) == r.palette;
    } else {
      assert outs[1..] == Outs(DAC_DATA, bytes[1..]);
      var m := Perform(r, outs[0]);
      SpotNext(Place(r.dacWrite));
      assert Place(m.dacWrite) == Spot(Place(r.dacWrite), 1);
      LoadedStep(r.palette, Place(r.dacWrite), bytes);
      SpotAdd(Place(r.dacWrite), |bytes|);
      DacLoad(m, bytes[1..]);
    }
  }

  /** `n` palette places in order from `at` on. */
  function Scanned(palette: seq<Byte>, at: nat, n: nat): seq<Byte>
    requires |palette| == PALETTE_BYTES
  {
    seq(n, k requires 0 <= k < n => palette[Spot(at, k)])
  }

  function SixBits(bytes: seq<Byte>): seq<Byte> {
    seq(|bytes|, k requires 0 <= k < |bytes| => bytes[k] % 64)
  }

  lemma ScannedNothing(palette: seq<Byte>, at: nat)
    requires at < PALETTE_BYTES == |palette|
    ensures Scanned(palette, at, 0) == [] && Spot(at, 0) == at
  {
  }

  lemma ScannedStep(palette: seq<Byte>, at: nat, n: nat)
    requires at < PALETTE_BYTES == |palette| && n > 0
    ensures [palette[at]] + Scanned(palette, Spot(at, 1), n - 1) == Scanned(palette, at, n)
  {
    var a := [palette[at]] + Scanned(palette, Spot(at, 1), n - 1);
    forall k | 0 <= k < n ensures a[k] == Scanned(palette, at, n)[k] {
      if k > 0 {
        SpotAdd(at, k);
      }
    }
  }

  /** Reading the data port walks the same places in the same order, and moves
      nothing but the read cursor, past them. */
  lemma {:induction false} DacScan(r: Regs, n: nat)
    requires Valid(r)
    ensures Replies(r, Ins(DAC_DATA, n)) == Scanned(r.palette, Place(r.dacRead), n)
    ensures var s := PerformAll(r, Ins(DAC_DATA, n));
            s == r.(dacRead := s.dacRead) && Place(s.dacRead) == Spot(Place(r.dacRead), n)
    decreases n
  {
    hide WriteStores, ReadStores, Pas, Spot, Scanned;
    var ins := Ins(DAC_DATA, n);
    if n == 0 {
      assert ins == [];
      ScannedNothing(r.palette, Place(r.dacRead));
    } else {
      assert ins[0] == In(DAC_DATA, 0) && ins[1..] == Ins(DAC_DATA, n - 1);
      var m := ReadEffect(r, DAC_DATA);
      SpotNext(Place(r.dacRead));
      assert Place(m.dacRead) == Spot(Place(r.dacRead), 1);
      SpotAdd(Place(r.dacRead), n);
      DacScan(m, n - 1);
      ScannedStep(r.palette, Place(r.dacRead), n);
    }
  }

  lemma LoadedScansBack(palette: seq<Byte>, at: nat, bytes: seq<Byte>)
    requires |palette| == PALETTE_BYTES && at < PALETTE_BYTES && |bytes| <= PALETTE_BYTES
    ensures Scanned(Loaded(palette, at, bytes), at, |bytes|) == SixBits(bytes)
  {
    var a := Scanned(Loaded(palette, at, bytes), at, |bytes|);
    forall k | 0 <= k < |bytes| ensures a[k] == SixBits(bytes)[k] {
      assert Ahead(at, Spot(at, k)) == k;
    }
  }

  /** Loading components from an entry on and scanning back from it gives the same six-bit values. */
  lemma DacReadBack(r: Regs, start: Byte, bytes: seq<Byte>)
    requires Valid(r) && |bytes| <= PALETTE_BYTES
    ensures var load := [Out(DAC_WRITE_INDEX, start)] + Outs(DAC_DATA, bytes) + [Out(DAC_READ_INDEX, start)];
            Replies(PerformAll(r, load), Ins(DAC_DATA, |bytes|)) == SixBits(bytes)
  {
    var load := [Out(DAC_WRITE_INDEX, start)] + Outs(DAC_DATA, bytes);
    assert load[1..] == Outs(DAC_DATA, bytes);
    PerformAllAppend(r, load, [Out(DAC_READ_INDEX, start)]);
    var indexed := WritePort(r, DAC_WRITE_INDEX, start);
    DacLoad(indexed, bytes);
    var loaded := PerformAll(r, load);
    var aimed := WritePort(loaded, DAC_READ_INDEX, start);
    assert [Out(DAC_READ_INDEX, start)][1..] == [];
    DacScan(aimed, |bytes|);
    LoadedScansBack(r.palette, 3 * start, bytes);
  }
}
