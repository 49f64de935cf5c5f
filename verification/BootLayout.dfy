/** Starting a guest: where its image, module and boot structures go in memory,
    and the heap the guest then picks for itself. */
module BootLayout {
  import opened Common
  import opened Endian
  import MemorySlots
  import Allocator

  const EBDA_START := 0x9fc00
  const HIMEM_START := 0x10_0000
  const MMIO_START := 0xc000_0000
  const HIGH_RAM_START := 0x1_0000_0000
  const HVM_BASE := 0x10000

  const START_INFO_SIZE := 56
  const MEMMAP_ENTRY_SIZE := 24
  const MODLIST_ENTRY_SIZE := 32

  type Bytes = seq<Byte>

  function Min(a: nat, b: nat): nat { if a < b then a else b }

  function PageUp(a: nat): nat { MemorySlots.PageUp(a) }

  // ----- what is started

  /** An ELF program header; `memsz` counts the .bss, which the file does not hold. */
  datatype Segment = Segment(load: bool, paddr: Word64, data: Bytes, memsz: nat)

  /** A file passed to the guest. */
  datatype Module = Module(name: Bytes, data: Bytes)

  datatype Args = Args(ram: Word64, segments: seq<Segment>, cmdline: Bytes, passed: Option<Module>)

  datatype RamEntry = RamEntry(addr: Word64, size: Word64, kind: Word32)

  // ----- where things go

  function LowRam(a: Args): nat { Min(a.ram, MMIO_START) }

  /** The end of the image, .bss included. */
  function LastAddr(segments: seq<Segment>): nat
    decreases |segments|
  {
    if segments == [] then 0
    else
      var front, s := LastAddr(segments[..|segments| - 1]), segments[|segments| - 1];
      if s.load && s.paddr + s.memsz > front then s.paddr + s.memsz else front
  }

  function NameStart(a: Args): nat { PageUp(LastAddr(a.segments)) }

  function NameBytes(m: Module): Bytes { m.name + [0] }

  function ModuleStart(a: Args, m: Module): nat { PageUp(NameStart(a) + |NameBytes(m)|) }

  function CmdlineStart(): nat { PageUp(HVM_BASE + START_INFO_SIZE) }

  function MemmapStart(a: Args): nat { PageUp(CmdlineStart() + |a.cmdline|) }

  function ModlistStart(a: Args): nat { PageUp(MemmapStart(a) + MEMMAP_ENTRY_SIZE * |RamMap(a)|) }

  function Modules(a: Args): nat { if a.passed.Some? then 1 else 0 }

  /** The end of the boot structures. */
  function ModlistEnd(a: Args): nat { ModlistStart(a) + MODLIST_ENTRY_SIZE * Modules(a) }

  /** The memory map the guest is given; below HIMEM_START there is always RAM up to the EBDA. */
  function RamMap(a: Args): seq<RamEntry> {
    [RamEntry(0, EBDA_START, 1),
     RamEntry(EBDA_START, HIMEM_START - EBDA_START, 2),
     RamEntry(HIMEM_START, if a.ram > HIMEM_START then LowRam(a) - HIMEM_START else 0, 1)]
    + if a.ram > MMIO_START then [RamEntry(HIGH_RAM_START, a.ram - MMIO_START, 1)] else []
  }

  /** The memory regions the monitor adds: where they are and how big. */
  function Regions(a: Args): seq<(nat, nat)> {
    [(0, LowRam(a))] + if a.ram > MMIO_START then [(HIGH_RAM_START, a.ram - MMIO_START)] else []
  }

  // ----- what goes there

  datatype Piece = Piece(at: nat, data: Bytes)

  function End(p: Piece): nat { p.at + |p.data| }

  function EntryBytes(e: RamEntry): (b: Bytes)
    ensures |b| == MEMMAP_ENTRY_SIZE
  {
    LeBytes(e.addr, 8) + LeBytes(e.size, 8) + LeBytes(e.kind, 4) + LeBytes(0, 4)
  }

  function MapBytes(entries: seq<RamEntry>): (b: Bytes)
    ensures |b| == MEMMAP_ENTRY_SIZE * |entries|
    decreases |entries|
  {
    if entries == [] then [] else MapBytes(entries[..|entries| - 1]) + EntryBytes(entries[|entries| - 1])
  }

  function ModlistBytes(a: Args): (b: Bytes)
    ensures |b| == MODLIST_ENTRY_SIZE * Modules(a)
  {
    match a.passed
    case None => []
    case Some(m) => LeBytes(ModuleStart(a, m), 8) + LeBytes(|m.data|, 8) + LeBytes(NameStart(a), 8) + LeBytes(0, 8)
  }

  const MAGIC := 0x336ec578

  function StartInfoBytes(a: Args): (b: Bytes)
    ensures |b| == START_INFO_SIZE
  {
    LeBytes(MAGIC, 4) + LeBytes(1, 4) + LeBytes(0, 4) + LeBytes(Modules(a), 4)
    + LeBytes(ModlistStart(a), 8) + LeBytes(CmdlineStart(), 8) + LeBytes(0, 8) + LeBytes(MemmapStart(a), 8)
    + LeBytes(|RamMap(a)|, 4) + LeBytes(0, 4)
  }

  function ImagePieces(segments: seq<Segment>): seq<Piece>
    decreases |segments|
  {
    if segments == [] then []
    else
      var s := segments[|segments| - 1];
      ImagePieces(segments[..|segments| - 1]) + if s.load then [Piece(s.paddr, s.data)] else []
  }

  function ModulePieces(a: Args): seq<Piece> {
    match a.passed
    case None => []
    case Some(m) => [Piece(NameStart(a), NameBytes(m)), Piece(ModuleStart(a, m), m.data)]
  }

  function BootPieces(a: Args): seq<Piece> {
    [Piece(CmdlineStart(), a.cmdline), Piece(MemmapStart(a), MapBytes(RamMap(a))),
     Piece(ModlistStart(a), ModlistBytes(a)), Piece(HVM_BASE, StartInfoBytes(a))]
  }

  // ----- loading

  function Written(mem: Bytes, p: Piece): (n: Bytes)
    requires End(p) <= |mem|
    ensures |n| == |mem|
  {
    mem[..p.at] + p.data + mem[End(p)..]
  }

  /** Whether a piece may be loaded: it starts and ends in the region. */
  predicate Loadable(size: nat, p: Piece) { p.at < size && End(p) <= size }

  /** Pieces loaded in order; None if one does not fit. */
  function LoadAll(mem: Bytes, pieces: seq<Piece>): (r: Option<Bytes>)
    ensures r.Some? ==> |r.value| == |mem|
    decreases |pieces|
  {
    if pieces == [] then Some(mem)
    else
      var front := LoadAll(mem, pieces[..|pieces| - 1]);
      var p := pieces[|pieces| - 1];
      if front.None? || !Loadable(|mem|, p) then None else Some(Written(front.value, p))
  }

  /** What goes beside the image. */
  function Others(a: Args): seq<Piece> { ModulePieces(a) + BootPieces(a) }

  function Pieces(a: Args): seq<Piece> { ImagePieces(a.segments) + Others(a) }

  /** The low memory region after everything is loaded; fresh memory is zero. */
  function Boot(a: Args): Option<Bytes> { LoadAll(seq(LowRam(a), _ => 0), Pieces(a)) }

  predicate Apart(p: Piece, q: Piece) { End(p) <= q.at || End(q) <= p.at }

  lemma WrittenAt(mem: Bytes, p: Piece, i: nat)
    requires End(p) <= |mem| && i < |mem|
    ensures Written(mem, p)[i] == if p.at <= i < End(p) then p.data[i - p.at] else mem[i]
  {
  }

  /** Bytes no piece covers stay as they were. */
  lemma {:induction false} UncoveredStays(mem: Bytes, pieces: seq<Piece>, i: nat)
    requires i < |mem| && forall k :: 0 <= k < |pieces| ==> !(pieces[k].at <= i < End(pieces[k]))
    ensures LoadAll(mem, pieces).Some? ==> LoadAll(mem, pieces).value[i] == mem[i]
    decreases |pieces|
  {
    if pieces != [] && LoadAll(mem, pieces).Some? {
      var front := pieces[..|pieces| - 1];
      UncoveredStays(mem, front, i);
      WrittenAt(LoadAll(mem, front).value, pieces[|pieces| - 1], i);
    }
  }

  /** A piece clear of the ones loaded after it is all there at the end. */
  lemma {:induction false} PieceStays(mem: Bytes, pieces: seq<Piece>, k: nat)
    requires k < |pieces| && forall m :: k < m < |pieces| ==> Apart(pieces[k], pieces[m])
    requires LoadAll(mem, pieces).Some?
    ensures End(pieces[k]) <= |mem| && LoadAll(mem, pieces).value[pieces[k].at..End(pieces[k])] == pieces[k].data
    decreases |pieces|
  {
    var front, last := pieces[..|pieces| - 1], pieces[|pieces| - 1];
    var m := LoadAll(mem, front).value;
    if k == |pieces| - 1 {
      assert Written(m, last)[last.at..End(last)] == last.data;
    } else {
      PieceStays(mem, front, k);
      assert front[k] == pieces[k] && Apart(pieces[k], last);
      var p := pieces[k];
      forall i | p.at <= i < End(p) ensures Written(m, last)[i] == m[i] {
        WrittenAt(m, last, i);
      }
      assert Written(m, last)[p.at..End(p)] == m[p.at..End(p)];
    }
  }

  // ----- placement

  /** An image at or above 1 MiB whose file parts are no bigger than their place in memory. */
  predicate GoodImage(segments: seq<Segment>) {
    forall k :: 0 <= k < |segments| && segments[k].load ==>
      segments[k].paddr >= HIMEM_START && |segments[k].data| <= segments[k].memsz
  }

  /** What is assumed: more than 1 MiB of RAM, an image above 1 MiB, boot structures below it. */
  predicate Fits(a: Args) {
    a.ram > HIMEM_START && GoodImage(a.segments) && LastAddr(a.segments) >= HIMEM_START && ModlistEnd(a) <= HIMEM_START
  }

  lemma PageUpBounds(a: nat)
    ensures a <= PageUp(a) < a + 4096 && PageUp(a) % 4096 == 0
  {
  }

  /** Exactly which command lines leave the boot structures below the image. */
  lemma StructuresFitExactly(a: Args)
    ensures CmdlineStart() == 0x11000
    ensures ModlistEnd(a) <= HIMEM_START <==> |a.cmdline| <= (if a.passed.Some? then 0xed000 else 0xee000)
  {
    assert CmdlineStart() == 0x11000;
    assert MemmapStart(a) % 4096 == 0;
    assert ModlistStart(a) == MemmapStart(a) + 4096;
  }

  lemma {:induction false} ImageBelowLastAddr(segments: seq<Segment>, k: nat)
    requires k < |ImagePieces(segments)| && GoodImage(segments)
    ensures HIMEM_START <= ImagePieces(segments)[k].at && End(ImagePieces(segments)[k]) <= LastAddr(segments)
    decreases |segments|
  {
    var front, s := segments[..|segments| - 1], segments[|segments| - 1];
    assert GoodImage(front);
    if k < |ImagePieces(front)| {
      ImageBelowLastAddr(front, k);
    } else {
      assert segments[|segments| - 1].load;
    }
  }

  /** Structures in order below 1 MiB; name and module in order above the image. */
  lemma PlacesInOrder(a: Args)
    requires Fits(a)
    ensures HVM_BASE + START_INFO_SIZE <= CmdlineStart() && CmdlineStart() + |a.cmdline| <= MemmapStart(a)
    ensures MemmapStart(a) + |MapBytes(RamMap(a))| <= ModlistStart(a)
            && ModlistStart(a) + |ModlistBytes(a)| <= HIMEM_START
    ensures HIMEM_START <= LastAddr(a.segments) <= NameStart(a)
    ensures a.passed.Some? ==> NameStart(a) + |NameBytes(a.passed.value)| <= ModuleStart(a, a.passed.value)
  {
    PageUpBounds(HVM_BASE + START_INFO_SIZE);
    PageUpBounds(CmdlineStart() + |a.cmdline|);
    PageUpBounds(MemmapStart(a) + MEMMAP_ENTRY_SIZE * |RamMap(a)|);
    PageUpBounds(LastAddr(a.segments));
    if a.passed.Some? {
      PageUpBounds(NameStart(a) + |NameBytes(a.passed.value)|);
    }
  }

  lemma BootApart(a: Args, k: nat, m: nat)
    requires Fits(a) && k < m < |BootPieces(a)|
    ensures Apart(BootPieces(a)[k], BootPieces(a)[m])
  {
    hide Fits, PageUp, CmdlineStart, MemmapStart, ModlistStart, RamMap, MapBytes, ModlistBytes, StartInfoBytes;
    PlacesInOrder(a);
  }

  /** Boot structures are below 1 MiB, the module and its name above the image. */
  lemma OthersSides(a: Args, k: nat)
    requires Fits(a) && k < |Others(a)|
    ensures if k < |ModulePieces(a)| then LastAddr(a.segments) <= Others(a)[k].at else End(Others(a)[k]) <= HIMEM_START
  {
    hide Fits, PageUp, CmdlineStart, MemmapStart, ModlistStart, NameStart, ModuleStart, RamMap, MapBytes, ModlistBytes,
      StartInfoBytes, NameBytes, LastAddr;
    PlacesInOrder(a);
  }

  lemma ModuleApart(a: Args)
    requires Fits(a) && a.passed.Some?
    ensures Apart(ModulePieces(a)[0], ModulePieces(a)[1])
  {
    hide Fits, PageUp, NameStart, ModuleStart, NameBytes;
    PlacesInOrder(a);
  }

  /** The module, its name and the boot structures are clear of each other. */
  lemma OthersApart(a: Args, k: nat, m: nat)
    requires Fits(a) && k < m < |Others(a)|
    ensures Apart(Others(a)[k], Others(a)[m])
  {
    OthersSides(a, k);
    OthersSides(a, m);
    var n := |ModulePieces(a)|;
    if n <= k {
      BootApart(a, k - n, m - n);
    } else if m < n {
      assert n == 2;
      ModuleApart(a);
    }
  }

  /** And of all of the image, .bss included. */
  lemma OthersClearOfImage(a: Args, k: nat, s: Segment)
    requires Fits(a) && k < |Others(a)|
    requires s in a.segments && s.load
    ensures End(Others(a)[k]) <= s.paddr || s.paddr + s.memsz <= Others(a)[k].at
  {
    assert s.paddr >= HIMEM_START;
    hide Fits, Others, ModulePieces, LastAddr;
    OthersSides(a, k);
    SegmentBelowLastAddr(a.segments, s);
  }

  lemma {:induction false} SegmentBelowLastAddr(segments: seq<Segment>, s: Segment)
    requires s in segments && s.load
    ensures s.paddr + s.memsz <= LastAddr(segments)
    decreases |segments|
  {
    if s != segments[|segments| - 1] {
      SegmentBelowLastAddr(segments[..|segments| - 1], s);
    }
  }

  predicate AllLoadable(size: nat, pieces: seq<Piece>) {
    forall k :: 0 <= k < |pieces| ==> Loadable(size, pieces[k])
  }

  /** Loading succeeds exactly when each piece starts and ends in the region. */
  lemma {:induction false} LoadsExactly(mem: Bytes, pieces: seq<Piece>)
    ensures LoadAll(mem, pieces).Some? <==> AllLoadable(|mem|, pieces)
    decreases |pieces|
  {
    if pieces == [] {
    } else {
      var front := pieces[..|pieces| - 1];
      LoadsExactly(mem, front);
      assert pieces == front + [pieces[|pieces| - 1]];
      LoadableJoin(|mem|, front, [pieces[|pieces| - 1]]);
    }
  }

  lemma LoadableJoin(size: nat, p: seq<Piece>, q: seq<Piece>)
    ensures AllLoadable(size, p + q) <==> AllLoadable(size, p) && AllLoadable(size, q)
  {
    assert forall k :: 0 <= k < |q| ==> (p + q)[|p| + k] == q[k];
    assert forall k :: 0 <= k < |p| ==> (p + q)[k] == p[k];
  }

  lemma LowRamIsBigger(a: Args)
    requires Fits(a)
    ensures LowRam(a) > HIMEM_START
  {
    hide GoodImage, ModlistEnd, LastAddr;
  }

  lemma StructuresLoad(a: Args)
    requires Fits(a)
    ensures AllLoadable(LowRam(a), BootPieces(a))
  {
    hide LowRam, Fits, PageUp, CmdlineStart, MemmapStart, ModlistStart, RamMap, MapBytes, ModlistBytes, StartInfoBytes;
    LowRamIsBigger(a);
    PlacesInOrder(a);
    var pieces := BootPieces(a);
    assert End(pieces[0]) <= HIMEM_START && End(pieces[1]) <= HIMEM_START;
    assert End(pieces[2]) <= HIMEM_START && End(pieces[3]) <= HIMEM_START;
  }

  /** A guest that fits is brought up exactly when its image and module do not run over the end of RAM. */
  lemma BootSucceedsExactly(a: Args)
    requires Fits(a)
    ensures Boot(a).Some?
       <==> AllLoadable(LowRam(a), ImagePieces(a.segments)) && AllLoadable(LowRam(a), ModulePieces(a))
  {
    hide Fits, LowRam, LoadAll, ImagePieces, ModulePieces, BootPieces, AllLoadable;
    LoadsExactly(seq(LowRam(a), _ => 0), Pieces(a));
    LoadableJoin(LowRam(a), ImagePieces(a.segments), Others(a));
    LoadableJoin(LowRam(a), ModulePieces(a), BootPieces(a));
    StructuresLoad(a);
  }

  /** The default 1 GiB, a one-page image at 1 MiB and an empty command line are enough. */
  lemma SmallGuestBoots(code: Byte)
    ensures var a := Args(0x4000_0000, [Segment(true, HIMEM_START, [code], 0x1000)], [], None);
            Fits(a) && Boot(a).Some?
  {
    var image := Segment(true, HIMEM_START, [code], 0x1000);
    var a := Args(0x4000_0000, [image], [], None);
    assert [image][..0] == [];
    StructuresFitExactly(a);
    assert LastAddr(a.segments) == HIMEM_START + 0x1000;
    assert ImagePieces(a.segments) == [Piece(HIMEM_START, [code])];
    hide ModlistEnd;
    assert Fits(a);
    BootSucceedsExactly(a);
  }

  // ----- the guest's side

  /** `n` bytes of memory as a number; nothing outside the region is looked at. */
  function Number(m: Bytes, at: nat, n: nat): nat { if at + n <= |m| then FromLe(m[at..at + n]) else 0 }

  function NrModules(m: Bytes): nat { Number(m, HVM_BASE + 12, 4) }

  function ModlistAt(m: Bytes): nat { Number(m, HVM_BASE + 16, 8) }

  function MemmapAt(m: Bytes): nat { Number(m, HVM_BASE + 40, 8) }

  function NrEntries(m: Bytes): nat { Number(m, HVM_BASE + 48, 4) }

  function ModuleAddr(m: Bytes, i: nat): nat { Number(m, ModlistAt(m) + MODLIST_ENTRY_SIZE * i, 8) }

  function ModuleSize(m: Bytes, i: nat): nat { Number(m, ModlistAt(m) + MODLIST_ENTRY_SIZE * i + 8, 8) }

  function EntryAt(m: Bytes, i: nat): (nat, nat, nat) {
    var e := MemmapAt(m) + MEMMAP_ENTRY_SIZE * i;
    (Number(m, e, 8), Number(m, e + 8, 8), Number(m, e + 16, 4))
  }

  /** The end of the image or of the last of `n` modules above it. */
  function HeapStart(m: Bytes, imageEnd: nat, n: nat): nat {
    if n == 0 then imageEnd
    else
      var start, end := HeapStart(m, imageEnd, n - 1), ModuleAddr(m, n - 1) + ModuleSize(m, n - 1);
      if end > start then end else start
  }

  predicate RamHolds(e: (nat, nat, nat), start: nat) { e.2 == 1 && e.0 <= start < e.0 + e.1 }

  /** The end of the last of the first `n` RAM ranges that holds `start`; 0 if none does. */
  function HeapEnd(m: Bytes, start: nat, n: nat): nat {
    if n == 0 then 0
    else if RamHolds(EntryAt(m, n - 1), start) then EntryAt(m, n - 1).0 + EntryAt(m, n - 1).1
    else HeapEnd(m, start, n - 1)
  }

  /** The heap setup_memory picks, None if it gives up. */
  function GuestHeap(m: Bytes, imageEnd: nat): Option<(nat, nat)> {
    var start := HeapStart(m, imageEnd, NrModules(m));
    var end := HeapEnd(m, start, NrEntries(m));
    if end == 0 then None else Some((start, end))
  }

  method SetupMemory(m: array<Byte>, imageEnd: nat) returns (heap: Option<(nat, nat)>)
    ensures heap == GuestHeap(m[..], imageEnd)
  {
    hide Number, ModlistAt, MemmapAt, NrModules, NrEntries, ModuleAddr, ModuleSize, EntryAt;
    var mem := m[..];
    var start := imageEnd;
    for i := 0 to NrModules(mem)
      invariant start == HeapStart(mem, imageEnd, i)
    {
      if ModuleAddr(mem, i) + ModuleSize(mem, i) > start {
        start := ModuleAddr(mem, i) + ModuleSize(mem, i);
      }
    }
    var end := 0;
    for i := 0 to NrEntries(mem)
      invariant end == HeapEnd(mem, start, i)
    {
      var e := EntryAt(mem, i);
      if RamHolds(e, start) {
        end := e.0 + e.1;
      }
    }
    heap := if end == 0 then None else Some((start, end));
  }

  // ----- what the guest finds

  /** Everything beside the image is in memory as it was put there. */
  lemma OtherIsThere(a: Args, k: nat)
    requires Fits(a) && Boot(a).Some? && k < |Others(a)|
    ensures var p := Others(a)[k];
            End(p) <= LowRam(a) == |Boot(a).value| && Boot(a).value[p.at..End(p)] == p.data
  {
    hide Others, ImagePieces, Fits, Apart;
    var n := |ImagePieces(a.segments)|;
    var mem := seq(LowRam(a), _ => 0);
    assert Pieces(a)[n + k] == Others(a)[k];
    forall m | n + k < m < |Pieces(a)| ensures Apart(Pieces(a)[n + k], Pieces(a)[m]) {
      assert Pieces(a)[m] == Others(a)[m - n];
      OthersApart(a, k, m - n);
    }
    PieceStays(mem, Pieces(a), n + k);
  }

  lemma BootPieceIsThere(a: Args, k: nat)
    requires Fits(a) && Boot(a).Some? && k < |BootPieces(a)|
    ensures var p, m := BootPieces(a)[k], Boot(a).value;
            End(p) <= LowRam(a) == |m| && m[p.at..End(p)] == p.data
  {
    assert Others(a)[|ModulePieces(a)| + k] == BootPieces(a)[k];
    OtherIsThere(a, |ModulePieces(a)| + k);
  }

  lemma ModulePieceIsThere(a: Args, k: nat)
    requires Fits(a) && Boot(a).Some? && k < |ModulePieces(a)|
    ensures var p, m := ModulePieces(a)[k], Boot(a).value;
            End(p) <= LowRam(a) == |m| && m[p.at..End(p)] == p.data
  {
    assert Others(a)[k] == ModulePieces(a)[k];
    OtherIsThere(a, k);
  }

  lemma ImageApart(a: Args, k: nat, m: nat)
    requires Fits(a) && k < |ImagePieces(a.segments)| && m < |Others(a)|
    ensures Apart(ImagePieces(a.segments)[k], Others(a)[m])
  {
    assert GoodImage(a.segments);
    hide Fits, LastAddr, Others, ImagePieces, GoodImage, ModulePieces, BootPieces;
    ImageBelowLastAddr(a.segments, k);
    PlacesInOrder(a);
    OthersSides(a, m);
  }

  /** And so is an image whose segments do not overlap. */
  lemma ImageIsThere(a: Args, k: nat)
    requires Fits(a) && Boot(a).Some? && k < |ImagePieces(a.segments)|
    requires forall m :: k < m < |ImagePieces(a.segments)| ==>
               Apart(ImagePieces(a.segments)[k], ImagePieces(a.segments)[m])
    ensures var p := ImagePieces(a.segments)[k];
            End(p) <= |Boot(a).value| && Boot(a).value[p.at..End(p)] == p.data
  {
    hide Fits, Others, ImagePieces, Apart;
    var n := |ImagePieces(a.segments)|;
    assert Pieces(a)[k] == ImagePieces(a.segments)[k];
    forall m | k < m < |Pieces(a)| ensures Apart(Pieces(a)[k], Pieces(a)[m]) {
      if m >= n {
        assert Pieces(a)[m] == Others(a)[m - n];
        ImageApart(a, k, m - n);
      }
    }
    PieceStays(seq(LowRam(a), _ => 0), Pieces(a), k);
  }

  /** The command line ends in a NUL nobody wrote: memory is zero up to the
      memory map, and the map's first byte is zero too. */
  lemma CmdlineEnds(a: Args)
    requires Fits(a) && Boot(a).Some?
    ensures var m, end := Boot(a).value, CmdlineStart() + |a.cmdline|;
            end < |m| && m[CmdlineStart()..end] == a.cmdline && m[end] == 0
  {
    hide Fits, Boot, LowRam, PageUp, MemmapStart, ModlistStart, CmdlineStart, RamMap, MapBytes, StartInfoBytes,
      ModlistBytes;
    BootPieceIsThere(a, 0);
    BootPieceIsThere(a, 1);
    PlacesInOrder(a);
    MapStartsWithZero(a);
    var m, p, end := Boot(a).value, BootPieces(a)[1], CmdlineStart() + |a.cmdline|;
    assert p.at == MemmapStart(a) && p.data == MapBytes(RamMap(a));
    assert m[p.at..End(p)][0] == m[p.at];
    if end < MemmapStart(a) {
      NothingBetween(a, end);
    }
  }

  lemma MapStartsWithZero(a: Args)
    ensures MapBytes(RamMap(a)) != [] && MapBytes(RamMap(a))[0] == 0
  {
    MapFirst(RamMap(a));
  }

  lemma {:induction false} MapFirst(entries: seq<RamEntry>)
    requires entries != [] && entries[0].addr == 0
    ensures MapBytes(entries) != [] && MapBytes(entries)[0] == 0
    decreases |entries|
  {
    if |entries| > 1 {
      MapFirst(entries[..|entries| - 1]);
    } else {
      assert entries[..0] == [];
      assert EntryBytes(entries[0])[0] == LeBytes(0, 8)[0];
    }
  }

  lemma NothingBetween(a: Args, i: nat)
    requires Fits(a) && Boot(a).Some? && CmdlineStart() + |a.cmdline| <= i < MemmapStart(a) && i < LowRam(a)
    ensures Boot(a).value[i] == 0
  {
    assert GoodImage(a.segments);
    PlacesInOrder(a);
    hide Fits, LastAddr, Others, ImagePieces, PageUp, MemmapStart, ModlistStart, CmdlineStart, ModulePieces,
      BootPieces, Boot;
    hide GoodImage, RamMap, MapBytes, ModlistBytes;
    var n := |ImagePieces(a.segments)|;
    forall k | 0 <= k < |Pieces(a)| ensures !(Pieces(a)[k].at <= i < End(Pieces(a)[k])) {
      if k < n {
        ImageBelowLastAddr(a.segments, k);
      } else {
        NotInOthers(a, k - n, i);
      }
    }
    BootStays(a, i);
  }

  lemma BootStays(a: Args, i: nat)
    requires Boot(a).Some? && i < LowRam(a)
    requires forall k :: 0 <= k < |Pieces(a)| ==> !(Pieces(a)[k].at <= i < End(Pieces(a)[k]))
    ensures Boot(a).value[i] == 0
  {
    UncoveredStays(seq(LowRam(a), _ => 0), Pieces(a), i);
  }

  lemma NotInOthers(a: Args, k: nat, i: nat)
    requires Fits(a) && k < |Others(a)| && CmdlineStart() + |a.cmdline| <= i < MemmapStart(a)
    ensures !(Others(a)[k].at <= i < End(Others(a)[k]))
  {
    hide Fits, PageUp, CmdlineStart, MemmapStart, ModlistStart, NameStart, ModuleStart, RamMap, MapBytes, ModlistBytes,
      StartInfoBytes, NameBytes, LastAddr;
    PlacesInOrder(a);
    OthersSides(a, k);
  }

  /** A number in a piece is read where it was written. */
  lemma FieldReads(m: Bytes, p: Piece, off: nat, v: nat, n: nat)
    requires End(p) <= |m| && m[p.at..End(p)] == p.data && off + n <= |p.data|
    requires p.data[off..off + n] == LeBytes(v, n) && FromLe(LeBytes(v, n)) == v
    ensures Number(m, p.at + off, n) == v
  {
    SliceOfSlice(m, p.at, End(p), p.at + off, n);
  }

  lemma StartInfoFields(a: Args)
    ensures var b := StartInfoBytes(a);
            && b[12..16] == LeBytes(Modules(a), 4) && b[16..24] == LeBytes(ModlistStart(a), 8)
            && b[24..32] == LeBytes(CmdlineStart(), 8) && b[40..48] == LeBytes(MemmapStart(a), 8)
            && b[48..52] == LeBytes(|RamMap(a)|, 4)
  {
    hide LeBytes, ModlistStart, CmdlineStart, MemmapStart, RamMap, Modules;
  }

  lemma FewEntries(a: Args)
    ensures 3 <= |RamMap(a)| <= 4
  {
  }

  /** The start info tells the guest where everything is. */
  lemma StartInfoReads(a: Args)
    requires Fits(a) && Boot(a).Some?
    ensures var m := Boot(a).value;
            && NrModules(m) == Modules(a) && ModlistAt(m) == ModlistStart(a)
            && MemmapAt(m) == MemmapStart(a) && NrEntries(m) == |RamMap(a)|
            && Number(m, HVM_BASE + 24, 8) == CmdlineStart()
  {
    hide Fits, StartInfoBytes, Boot, PageUp, MemmapStart, ModlistStart, CmdlineStart, RamMap, LeBytes, FromLe, Number;
    hide MapBytes, ModlistBytes, NrModules, ModlistAt, MemmapAt, NrEntries;
    var p, m := BootPieces(a)[3], Boot(a).value;
    BootPieceIsThere(a, 3);
    StartInfoFields(a);
    PlacesInOrder(a);
    FewEntries(a);
    InfoInPiece(m, p, Modules(a), ModlistStart(a), CmdlineStart(), MemmapStart(a), |RamMap(a)|);
  }

  lemma InfoInPiece(m: Bytes, p: Piece, modules: Word32, modlist: Word64, cmdline: Word64, memmap: Word64,
                    entries: Word32)
    requires p.at == HVM_BASE && |p.data| == START_INFO_SIZE && End(p) <= |m| && m[p.at..End(p)] == p.data
    requires p.data[12..16] == LeBytes(modules, 4) && p.data[16..24] == LeBytes(modlist, 8)
             && p.data[24..32] == LeBytes(cmdline, 8)
    requires p.data[40..48] == LeBytes(memmap, 8) && p.data[48..52] == LeBytes(entries, 4)
    ensures NrModules(m) == modules && ModlistAt(m) == modlist && Number(m, HVM_BASE + 24, 8) == cmdline
    ensures MemmapAt(m) == memmap && NrEntries(m) == entries
  {
    hide LeBytes, FromLe, Number;
    WordsReadBack(modlist, modules);
    WordsReadBack(memmap, entries);
    WordsReadBack(cmdline, 0);
    FieldReads(m, p, 12, modules, 4);
    FieldReads(m, p, 16, modlist, 8);
    FieldReads(m, p, 24, cmdline, 8);
    FieldReads(m, p, 40, memmap, 8);
    FieldReads(m, p, 48, entries, 4);
  }

  lemma {:induction false} MapBytesAt(entries: seq<RamEntry>, i: nat)
    requires i < |entries|
    ensures MEMMAP_ENTRY_SIZE * (i + 1) <= |MapBytes(entries)|
    ensures MapBytes(entries)[MEMMAP_ENTRY_SIZE * i..MEMMAP_ENTRY_SIZE * (i + 1)] == EntryBytes(entries[i])
    decreases |entries|
  {
    hide EntryBytes;
    var front := entries[..|entries| - 1];
    if i < |entries| - 1 {
      MapBytesAt(front, i);
      var b := MapBytes(front);
      assert MapBytes(entries)[MEMMAP_ENTRY_SIZE * i..MEMMAP_ENTRY_SIZE * (i + 1)]
        == b[MEMMAP_ENTRY_SIZE * i..MEMMAP_ENTRY_SIZE * (i + 1)];
    }
  }

  lemma EntryFields(e: RamEntry)
    ensures var b := EntryBytes(e);
            b[0..8] == LeBytes(e.addr, 8) && b[8..16] == LeBytes(e.size, 8) && b[16..20] == LeBytes(e.kind, 4)
  {
    hide LeBytes;
  }

  /** And the memory map reads as it was meant. */
  lemma EntryReads(a: Args, i: nat)
    requires Fits(a) && Boot(a).Some? && i < |RamMap(a)|
    ensures EntryAt(Boot(a).value, i) == (RamMap(a)[i].addr, RamMap(a)[i].size, RamMap(a)[i].kind)
  {
    hide Boot, RamMap, EntryBytes, LeBytes, FromLe, MemmapStart, MemmapAt, Number, Fits, MapBytes;
    BootPieceIsThere(a, 1);
    StartInfoReads(a);
    MapBytesAt(RamMap(a), i);
    EntryInPiece(Boot(a).value, BootPieces(a)[1], MEMMAP_ENTRY_SIZE * i, RamMap(a)[i]);
  }

  lemma EntryInPiece(m: Bytes, p: Piece, off: nat, e: RamEntry)
    requires End(p) <= |m| && m[p.at..End(p)] == p.data && off + 24 <= |p.data|
             && p.data[off..off + 24] == EntryBytes(e)
    ensures Number(m, p.at + off, 8) == e.addr && Number(m, p.at + off + 8, 8) == e.size
            && Number(m, p.at + off + 16, 4) == e.kind
  {
    EntryFields(e);
    hide EntryBytes, LeBytes, FromLe, Number;
    SliceOfSlice(p.data, off, off + 24, off, 8);
    SliceOfSlice(p.data, off, off + 24, off + 8, 8);
    SliceOfSlice(p.data, off, off + 24, off + 16, 4);
    WordsReadBack(e.addr, e.kind);
    WordsReadBack(e.size, 0);
    FieldReads(m, p, off, e.addr, 8);
    FieldReads(m, p, off + 8, e.size, 8);
    FieldReads(m, p, off + 16, e.kind, 4);
  }

  /** The module is listed where it is, with its size. */
  lemma ModuleReads(a: Args)
    requires Fits(a) && Boot(a).Some? && a.passed.Some?
    ensures ModuleAddr(Boot(a).value, 0) == ModuleStart(a, a.passed.value)
    ensures ModuleSize(Boot(a).value, 0) == |a.passed.value.data|
  {
    hide Boot, LeBytes, FromLe, ModuleStart, NameStart, ModlistStart, ModlistAt, Fits, ModlistBytes, Number, NameBytes,
      CmdlineStart, MemmapStart, RamMap, MapBytes, StartInfoBytes;
    var m, passed := Boot(a).value, a.passed.value;
    var p := BootPieces(a)[2];
    BootPieceIsThere(a, 2);
    ModulePieceIsThere(a, 1);
    assert p == Piece(ModlistStart(a), ModlistBytes(a));
    assert ModulePieces(a)[1] == Piece(ModuleStart(a, passed), passed.data);
    StartInfoReads(a);
    ModlistFields(a);
    hide BootPieces, ModulePieces;
    WordsReadBack(ModuleStart(a, passed), 0);
    WordsReadBack(|passed.data|, 0);
    FieldReads(m, p, 0, ModuleStart(a, passed), 8);
    FieldReads(m, p, 8, |passed.data|, 8);
  }

  lemma ModlistFields(a: Args)
    requires a.passed.Some?
    ensures var b := ModlistBytes(a);
            b[0..8] == LeBytes(ModuleStart(a, a.passed.value), 8) && b[8..16] == LeBytes(|a.passed.value.data|, 8)
  {
    hide LeBytes, ModuleStart, NameStart;
  }

  // ----- the heap

  /** Where the guest's heap starts: after the module, if there is one. */
  function TopOf(a: Args): nat {
    match a.passed
    case None => LastAddr(a.segments)
    case Some(m) => ModuleStart(a, m) + |m.data|
  }

  lemma GuestStartsAtTop(a: Args)
    requires Fits(a) && Boot(a).Some?
    ensures HeapStart(Boot(a).value, LastAddr(a.segments), NrModules(Boot(a).value)) == TopOf(a)
  {
    StartInfoReads(a);
    PlacesInOrder(a);
    hide Boot, Fits, LastAddr, ModuleStart, NameStart, NrModules, ModuleAddr, ModuleSize;
    var m := Boot(a).value;
    assert HeapStart(m, LastAddr(a.segments), 0) == LastAddr(a.segments);
    if a.passed.Some? {
      ModuleReads(a);
    }
  }

  function HighRam(a: Args): nat { if a.ram > MMIO_START then a.ram - MMIO_START else 0 }

  /** The end of the RAM range `start` is in, 0 for none. */
  function RamEnd(a: Args, start: nat): nat {
    if start < LowRam(a) then LowRam(a)
    else if HIGH_RAM_START <= start < HIGH_RAM_START + HighRam(a) then HIGH_RAM_START + HighRam(a)
    else 0
  }

  lemma GuestFindsRam(a: Args, start: nat)
    requires Fits(a) && Boot(a).Some? && start >= HIMEM_START
    ensures HeapEnd(Boot(a).value, start, NrEntries(Boot(a).value)) == RamEnd(a, start)
  {
    assert a.ram > HIMEM_START;
    hide Boot, Fits, EntryAt, NrEntries, RamMap, RamEnd;
    StartInfoReads(a);
    forall k | 0 <= k < |RamMap(a)|
      ensures EntryAt(Boot(a).value, k) == (RamMap(a)[k].addr, RamMap(a)[k].size, RamMap(a)[k].kind)
    {
      EntryReads(a, k);
    }
    HeapEndOf(Boot(a).value, start, RamMap(a), |RamMap(a)|);
    EndInMap(a, start);
  }

  /** The end of the last RAM entry among the first `n` that holds `start`. */
  function EndIn(entries: seq<RamEntry>, start: nat, n: nat): nat
    requires n <= |entries|
  {
    if n == 0 then 0
    else
      var e := entries[n - 1];
      if e.kind == 1 && e.addr <= start < e.addr + e.size then e.addr + e.size else EndIn(entries, start, n - 1)
  }

  lemma {:induction false} HeapEndOf(m: Bytes, start: nat, entries: seq<RamEntry>, n: nat)
    requires n <= |entries|
    requires forall k :: 0 <= k < |entries| ==> EntryAt(m, k) == (entries[k].addr, entries[k].size, entries[k].kind)
    ensures HeapEnd(m, start, n) == EndIn(entries, start, n)
  {
    hide EntryAt;
    if n == 0 {
    } else {
      HeapEndOf(m, start, entries, n - 1);
    }
  }

  lemma EndInMap(a: Args, start: nat)
    requires a.ram > HIMEM_START && start >= HIMEM_START
    ensures EndIn(RamMap(a), start, |RamMap(a)|) == RamEnd(a, start)
  {
    var entries := RamMap(a);
    assert EndIn(entries, start, 0) == 0;
    assert EndIn(entries, start, 1) == 0;
    assert EndIn(entries, start, 2) == 0;
    assert EndIn(entries, start, 3) == if start < LowRam(a) then LowRam(a) else 0;
  }

  /** The guest finds its heap exactly when its image and module leave some
      of the RAM they are in; it then runs from their end to the end of that RAM. */
  lemma GuestHeapIs(a: Args)
    requires Fits(a) && Boot(a).Some?
    ensures GuestHeap(Boot(a).value, LastAddr(a.segments))
         == if RamEnd(a, TopOf(a)) == 0 then None else Some((TopOf(a), RamEnd(a, TopOf(a))))
  {
    GuestStartsAtTop(a);
    PlacesInOrder(a);
    assert TopOf(a) >= LastAddr(a.segments) >= HIMEM_START;
    hide Fits, Boot, TopOf, RamEnd, LastAddr;
    GuestFindsRam(a, TopOf(a));
  }

  predicate Inside(from: nat, to: nat, r: (nat, nat)) { r.0 <= from && to <= r.0 + r.1 }

  predicate Holds(r: (nat, nat), x: int) { r.0 <= x < r.0 + r.1 }

  /** RAM in the guest's map is memory the monitor added, and all of that but the EBDA hole is in the map. */
  lemma RamMapMatchesRegions(a: Args)
    requires a.ram > HIMEM_START
    ensures forall k :: 0 <= k < |RamMap(a)| && RamMap(a)[k].kind == 1 ==>
              exists i :: 0 <= i < |Regions(a)|
                && Inside(RamMap(a)[k].addr, RamMap(a)[k].addr + RamMap(a)[k].size, Regions(a)[i])
    ensures forall i, x :: 0 <= i < |Regions(a)| && Holds(Regions(a)[i], x) && !(EBDA_START <= x < HIMEM_START) ==>
              exists k :: 0 <= k < |RamMap(a)| && RamMap(a)[k].kind == 1
                && Holds((RamMap(a)[k].addr, RamMap(a)[k].size), x)
  {
    var entries, regions := RamMap(a), Regions(a);
    forall k | 0 <= k < |entries| && entries[k].kind == 1
      ensures exists i :: 0 <= i < |regions| && Inside(entries[k].addr, entries[k].addr + entries[k].size, regions[i])
    {
      assert Inside(entries[k].addr, entries[k].addr + entries[k].size, regions[if k == 3 then 1 else 0]);
    }
    forall i, x | 0 <= i < |regions| && Holds(regions[i], x) && !(EBDA_START <= x < HIMEM_START)
      ensures exists k :: 0 <= k < |entries| && entries[k].kind == 1 && Holds((entries[k].addr, entries[k].size), x)
    {
      var k := if i == 1 then 3 else if x < EBDA_START then 0 else 2;
      assert entries[k].kind == 1 && Holds((entries[k].addr, entries[k].size), x);
    }
  }

  /** Nothing that was loaded, .bss included, reaches past `start`. */
  predicate AllBelow(a: Args, start: nat) {
    && (forall s :: s in a.segments && s.load ==> s.paddr + s.memsz <= start)
    && (forall k :: 0 <= k < |Others(a)| ==> End(Others(a)[k]) <= start)
  }

  predicate InOneRegion(a: Args, start: nat, end: nat) {
    exists i :: 0 <= i < |Regions(a)| && Inside(start, end, Regions(a)[i])
  }

  /** The allocator can start with this range. */
  ghost predicate StartsHeap(start: Word64, end: Word64, mem: Bytes) {
    start + 15 < WORD && Allocator.Inv(Allocator.State(Allocator.HeapInit(start, end, mem), map[]), start)
  }

  /** The heap is clear of the image, the module, its name and the boot
      structures, lies in one region of memory, and is a heap the allocator can start with. */
  lemma HeapIsClear(a: Args, mem: Bytes)
    requires Fits(a) && Boot(a).Some? && GuestHeap(Boot(a).value, LastAddr(a.segments)).Some?
    requires a.ram % 1024 == 0 && HIGH_RAM_START + HighRam(a) < WORD
    ensures var (start, end) := GuestHeap(Boot(a).value, LastAddr(a.segments)).value;
            && start < end < WORD && AllBelow(a, start) && InOneRegion(a, start, end)
            && (|mem| == end ==> StartsHeap(start, end, mem))
  {
    GuestHeapIs(a);
    hide Boot, GuestHeap, HeapStart, HeapEnd;
    EverythingBelowTop(a);
    RamIsOneRegion(a, TopOf(a));
    EndIsAligned(a, TopOf(a));
    hide Fits, TopOf, RamEnd, LastAddr, Others, AllBelow;
    if |mem| == RamEnd(a, TopOf(a)) {
      RoundedInside(TopOf(a), RamEnd(a, TopOf(a)));
      Allocator.InitIsEmpty(TopOf(a), RamEnd(a, TopOf(a)), mem);
    }
  }

  lemma EverythingBelowTop(a: Args)
    requires Fits(a)
    ensures AllBelow(a, TopOf(a))
  {
    assert |Others(a)| > 0;
    hide Fits, TopOf, Others, LastAddr;
    forall s | s in a.segments && s.load ensures s.paddr + s.memsz <= TopOf(a) {
      SegmentBelowLastAddr(a.segments, s);
      OthersBelowTop(a, 0);
    }
    forall k | 0 <= k < |Others(a)| ensures End(Others(a)[k]) <= TopOf(a) {
      OthersBelowTop(a, k);
    }
  }

  lemma RamIsOneRegion(a: Args, start: nat)
    requires RamEnd(a, start) != 0 && HIGH_RAM_START + HighRam(a) < WORD
    ensures start < RamEnd(a, start) < WORD && InOneRegion(a, start, RamEnd(a, start))
  {
    assert Inside(start, RamEnd(a, start), Regions(a)[if start < LowRam(a) then 0 else 1]);
  }

  lemma EndIsAligned(a: Args, start: nat)
    requires a.ram % 1024 == 0
    ensures RamEnd(a, start) % 16 == 0
  {
    var q := a.ram / 1024;
    assert a.ram == 1024 * q;
    assert RamEnd(a, start) == 16 * (if start < LowRam(a) then (if a.ram < MMIO_START then 64 * q else 0xc00_0000)
                                     else if RamEnd(a, start) == 0 then 0 else 0x1000_0000 + (64 * q - 0xc00_0000));
  }

  lemma RoundedInside(start: nat, end: nat)
    requires start < end < WORD && end % 16 == 0
    ensures start + 15 < WORD && Allocator.Rounded(start) <= end
  {
  }

  lemma OthersBelowTop(a: Args, k: nat)
    requires Fits(a) && k < |Others(a)|
    ensures End(Others(a)[k]) <= TopOf(a) && LastAddr(a.segments) <= TopOf(a)
  {
    hide Fits, PageUp, CmdlineStart, MemmapStart, ModlistStart, NameStart, ModuleStart, RamMap, MapBytes, ModlistBytes,
      StartInfoBytes, NameBytes, LastAddr;
    PlacesInOrder(a);
    OthersSides(a, k);
  }

  // ----- the loader

  lemma {:induction false} NoneStays(mem: Bytes, done: seq<Piece>, rest: seq<Piece>)
    requires LoadAll(mem, done).None?
    ensures LoadAll(mem, done + rest).None?
    decreases |rest|
  {
    var all := done + rest;
    if rest == [] {
      assert all == done;
    } else {
      assert all[..|all| - 1] == done + rest[..|rest| - 1];
      NoneStays(mem, done, rest[..|rest| - 1]);
    }
  }

  class LowMemory {
    const mem: array<Byte>

    constructor (size: nat)
      ensures fresh(mem) && mem[..] == seq(size, _ => 0)
    {
      mem := new Byte[size](_ => 0);
      new;
      assert forall i :: 0 <= i < size ==> mem[..][i] == 0;
    }

    /** Copies data to memory, if it starts and ends there. */
    method LoadData(data: Bytes, offset: nat) returns (ok: bool)
      modifies mem
      ensures ok == Loadable(mem.Length, Piece(offset, data))
      ensures mem[..] == if ok then Written(old(mem[..]), Piece(offset, data)) else old(mem[..])
    {
      if offset >= mem.Length || offset + |data| > mem.Length {
        return false;
      }
      ghost var was := mem[..];
      for i := 0 to |data|
        invariant forall k :: offset <= k < offset + i ==> mem[k] == data[k - offset]
        invariant forall k :: 0 <= k < |was| && !(offset <= k < offset + i) ==> mem[k] == was[k]
      {
        mem[offset + i] := data[i];
      }
      return true;
    }

    /** One more piece after those already loaded. */
    method LoadNext(ghost start: Bytes, ghost done: seq<Piece>, data: Bytes, offset: nat) returns (ok: bool)
      requires LoadAll(start, done) == Some(mem[..])
      modifies mem
      ensures LoadAll(start, done + [Piece(offset, data)]) == if ok then Some(mem[..]) else None
    {
      hide Written, Loadable;
      ghost var p := Piece(offset, data);
      assert (done + [p])[..|done|] == done;
      ok := LoadData(data, offset);
    }

    method LoadElf(ghost start: Bytes, segments: seq<Segment>) returns (ok: bool, lastAddr: nat)
      requires mem[..] == start
      modifies mem
      ensures LoadAll(start, ImagePieces(segments)) == if ok then Some(mem[..]) else None
      ensures ok ==> lastAddr == LastAddr(segments)
    {
      lastAddr, ok := 0, true;
      for i := 0 to |segments|
        invariant LoadAll(start, ImagePieces(segments[..i])) == Some(mem[..]) && lastAddr == LastAddr(segments[..i])
      {
        hide LoadAll, ImagePieces, LastAddr;
        var next;
        ok, next := LoadSegment(start, segments[..i], segments[i]);
        assert segments[..i + 1] == segments[..i] + [segments[i]];
        if !ok {
          ImageSplits(segments, i + 1);
          ghost var done, whole := ImagePieces(segments[..i + 1]), ImagePieces(segments);
          assert whole == done + whole[|done|..];
          NoneStays(start, done, whole[|done|..]);
          return;
        }
        lastAddr := if next > lastAddr then next else lastAddr;
        LastOfMore(segments[..i], segments[i]);
      }
      assert segments[..|segments|] == segments;
      ok := true;
    }

    /** Loads one segment after others; its end if it is one to load. */
    method LoadSegment(ghost start: Bytes, ghost done: seq<Segment>, s: Segment) returns (ok: bool, end: nat)
      requires LoadAll(start, ImagePieces(done)) == Some(mem[..])
      modifies mem
      ensures LoadAll(start, ImagePieces(done + [s])) == if ok then Some(mem[..]) else None
      ensures end == if s.load then s.paddr + s.memsz else 0
    {
      ghost var all := done + [s];
      assert all[..|done|] == done && all[|done|] == s;
      assert ImagePieces(all) == if s.load then ImagePieces(done) + [Piece(s.paddr, s.data)] else ImagePieces(done);
      hide LoadAll;
      end := 0;
      ok := true;
      if s.load {
        end := s.paddr + s.memsz;
        ok := LoadNext(start, ImagePieces(done), s.data, s.paddr);
      }
    }

    /** Brings everything into memory: image, module, then the boot structures from the bottom up. */
    method PvhBoot(a: Args) returns (ok: bool)
      requires mem[..] == seq(LowRam(a), _ => 0) && a.ram > HIMEM_START
      modifies mem
      ensures Boot(a) == if ok then Some(mem[..]) else None
    {
      ghost var zero := mem[..];
      PiecesInOrder(a);
      hide LoadAll, ImagePieces, PageUp, LastAddr, BootPieces, ModulePieces, LowRam, Pieces, Others;
      var last;
      ok, last := LoadElf(mem[..], a.segments);
      ghost var done := ImagePieces(a.segments);
      if !ok {
        NoneStays(zero, done, Others(a));
        return;
      }
      if a.passed.Some? {
        ok := LoadModule(zero, done, a, last);
        if !ok {
          NoneStays(zero, done + ModulePieces(a), BootPieces(a));
          return;
        }
      }
      ok := LoadStructures(zero, done + ModulePieces(a), a);
    }

    method LoadModule(ghost start: Bytes, ghost done: seq<Piece>, a: Args, last: nat) returns (ok: bool)
      requires LoadAll(start, done) == Some(mem[..]) && a.passed.Some? && last == LastAddr(a.segments)
      modifies mem
      ensures LoadAll(start, done + ModulePieces(a)) == if ok then Some(mem[..]) else None
    {
      hide LoadAll, PageUp, LastAddr;
      var name := a.passed.value.name + [0];
      var nameStart := PageUp(last);
      ghost var pieces := ModulePieces(a);
      assert done + pieces == (done + [pieces[0]]) + [pieces[1]];
      ok := LoadNext(start, done, name, nameStart);
      if !ok {
        NoneStays(start, done + [pieces[0]], [pieces[1]]);
        return;
      }
      ok := LoadNext(start, done + [pieces[0]], a.passed.value.data, PageUp(nameStart + |name|));
    }

    method LoadStructures(ghost start: Bytes, ghost done: seq<Piece>, a: Args) returns (ok: bool)
      requires LoadAll(start, done) == Some(mem[..])
      modifies mem
      ensures LoadAll(start, done + BootPieces(a)) == if ok then Some(mem[..]) else None
    {
      hide LoadAll, PageUp, RamMap, ModlistBytes, StartInfoBytes, MapBytes;
      ghost var b := BootPieces(a);
      ghost var one, two, three := done + [b[0]], done + [b[0], b[1]], done + [b[0], b[1], b[2]];
      assert two == one + [b[1]] && three == two + [b[2]] && done + b == three + [b[3]];
      assert done + b == one + b[1..] == two + b[2..];
      var entries := RamMap(a);
      var cmdline := PageUp(HVM_BASE + START_INFO_SIZE);
      ok := LoadNext(start, done, a.cmdline, cmdline);
      if !ok {
        NoneStays(start, one, b[1..]);
        return;
      }
      var memmap := PageUp(cmdline + |a.cmdline|);
      var bytes := EncodeMap(entries);
      ok := LoadNext(start, one, bytes, memmap);
      if !ok {
        NoneStays(start, two, b[2..]);
        return;
      }
      var modlist := PageUp(memmap + |bytes|);
      ok := LoadNext(start, two, ModlistBytes(a), modlist);
      if !ok {
        NoneStays(start, three, [b[3]]);
        return;
      }
      ok := LoadNext(start, three, StartInfoBytes(a), HVM_BASE);
    }
  }

  lemma PiecesInOrder(a: Args)
    ensures Pieces(a) == ImagePieces(a.segments) + Others(a)
            == (ImagePieces(a.segments) + ModulePieces(a)) + BootPieces(a)
    ensures a.passed.None? ==> ImagePieces(a.segments) + ModulePieces(a) == ImagePieces(a.segments)
  {
  }

  method EncodeMap(entries: seq<RamEntry>) returns (bytes: Bytes)
    ensures bytes == MapBytes(entries)
  {
    bytes := [];
    for i := 0 to |entries|
      invariant bytes == MapBytes(entries[..i])
    {
      assert entries[..i + 1][..i] == entries[..i];
      var e := entries[i];
      bytes := bytes + LeBytes(e.addr, 8) + LeBytes(e.size, 8) + LeBytes(e.kind, 4) + LeBytes(0, 4);
    }
    assert entries[..|entries|] == entries;
  }

  lemma LastOfMore(front: seq<Segment>, s: Segment)
    ensures LastAddr(front + [s])
         == if s.load && s.paddr + s.memsz > LastAddr(front) then s.paddr + s.memsz else LastAddr(front)
  {
    assert (front + [s])[..|front|] == front;
  }

  lemma {:induction false} ImageSplits(segments: seq<Segment>, n: nat)
    requires n <= |segments|
    ensures ImagePieces(segments[..n]) <= ImagePieces(segments)
    decreases |segments|
  {
    if n == |segments| {
      assert segments[..n] == segments;
    } else {
      var front := segments[..|segments| - 1];
      assert front[..n] == segments[..n];
      ImageSplits(front, n);
    }
  }
}
