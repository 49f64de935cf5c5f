/** Guest memory and the KVM slots it is made of: splitting a region's slot to
    log writes to part of it leaves the guest's memory where it was. */
module MemorySlots {
  import opened Common

  const PAGE := 4096

  // ----- KVM's side

  datatype Slot = Slot(gpa: nat, size: nat, host: nat, logged: bool)

  predicate Within(s: Slot, a: nat) { s.gpa <= a < s.gpa + s.size }

  predicate Disjoint(a: Slot, b: Slot) { a.gpa + a.size <= b.gpa || b.gpa + b.size <= a.gpa }

  type Slots = map<nat, Slot>

  function PageAligned(a: nat): bool { a % PAGE == 0 }

  /** KVM_SET_USER_MEMORY_REGION: deletes a slot that exists, or adds one that
      does not, on whole pages, clear of all the others; and it may refuse for reasons of its own. */
  predicate KvmTakes(slots: Slots, id: nat, s: Slot, willing: bool) {
    && willing
    && if s.size == 0 then id in slots
       else
         && id !in slots && PageAligned(s.gpa) && PageAligned(s.size) && PageAligned(s.host)
         && forall j :: j in slots ==> Disjoint(slots[j], s)
  }

  function KvmSet(slots: Slots, id: nat, s: Slot): Slots {
    if s.size == 0 then slots - {id} else slots[id := s]
  }

  /** Guest address `a` is backed by host address `h`. */
  ghost predicate KvmMaps(slots: Slots, a: nat, h: nat) {
    exists id :: id in slots && Within(slots[id], a) && h == slots[id].host + (a - slots[id].gpa)
  }

  ghost predicate Logged(slots: Slots, a: nat) {
    exists id :: id in slots && Within(slots[id], a) && slots[id].logged
  }

  // ----- the monitor's side

  /** A region is one mapping; `slot` covers all of it until it is split. */
  datatype Region = Region(base: nat, size: nat, host: nat, slot: Option<nat>, shared: bool)

  function EndOf(r: Region): nat { r.base + r.size }

  predicate In(r: Region, a: nat) { r.base <= a < EndOf(r) }

  /** The monitor has guest address `a` at host address `h`. */
  predicate MapsAt(r: Region, a: nat, h: nat) { In(r, a) && h == r.host + (a - r.base) }

  predicate HoldsRange(r: Region, gpa: nat, len: nat) { r.base <= gpa && gpa + len <= EndOf(r) }

  /** First region with `len` bytes from `gpa`. */
  function GpaToHost(regions: seq<Region>, gpa: nat, len: nat): Option<nat>
  {
    if regions == [] then None
    else if gpa >= regions[0].base && gpa - regions[0].base + len <= regions[0].size then
      Some(regions[0].host + (gpa - regions[0].base))
    else GpaToHost(regions[1..], gpa, len)
  }

  datatype Vm = Vm(regions: seq<Region>, nextSlot: nat, slots: Slots)

  predicate PartOf(s: Slot, r: Region) {
    r.base <= s.gpa && s.gpa + s.size <= EndOf(r) && s.host == r.host + (s.gpa - r.base) && s.size > 0
  }

  predicate RegionsApart(a: Region, b: Region) { EndOf(a) <= b.base || EndOf(b) <= a.base }

  predicate RegionOk(r: Region) { r.size > 0 && PageAligned(r.base) && PageAligned(r.size) && PageAligned(r.host) }

  ghost predicate Backed(regions: seq<Region>, s: Slot) {
    exists k :: 0 <= k < |regions| && PartOf(s, regions[k])
  }

  ghost predicate Covered(slots: Slots, a: nat) {
    exists id :: id in slots && Within(slots[id], a)
  }

  ghost predicate SlotsOk(slots: Slots, next: nat, regions: seq<Region>) {
    && (forall id :: id in slots ==> id < next && Backed(regions, slots[id]))
    && (forall i, j :: i in slots && j in slots && i != j ==> Disjoint(slots[i], slots[j]))
  }

  ghost predicate RegionsOk(regions: seq<Region>) {
    && (forall k :: 0 <= k < |regions| ==> RegionOk(regions[k]))
    && (forall k, m :: 0 <= k < m < |regions| ==> RegionsApart(regions[k], regions[m]))
  }

  ghost predicate Whole(slots: Slots, r: Region) {
    r.slot.Some? ==> r.slot.value in slots && slots[r.slot.value] == Slot(r.base, r.size, r.host, false)
  }

  /** The slots are pieces of the regions, and together all of them. */
  ghost predicate Mapped(vm: Vm) {
    && RegionsOk(vm.regions) && SlotsOk(vm.slots, vm.nextSlot, vm.regions)
    && (forall k, a :: 0 <= k < |vm.regions| && In(vm.regions[k], a) ==> Covered(vm.slots, a))
  }

  ghost predicate Inv(vm: Vm) {
    && Mapped(vm)
    && (forall k :: 0 <= k < |vm.regions| ==> Whole(vm.slots, vm.regions[k]))
  }

  // ----- what the invariant means

  /** A slot at an address of a region is part of that region. */
  lemma SlotAtRegion(vm: Vm, id: nat, k: nat, a: nat)
    requires RegionsOk(vm.regions) && SlotsOk(vm.slots, vm.nextSlot, vm.regions)
    requires id in vm.slots && k < |vm.regions| && Within(vm.slots[id], a) && In(vm.regions[k], a)
    ensures PartOf(vm.slots[id], vm.regions[k])
  {
    var m :| 0 <= m < |vm.regions| && PartOf(vm.slots[id], vm.regions[m]);
    assert m < k ==> RegionsApart(vm.regions[m], vm.regions[k]);
    assert k < m ==> RegionsApart(vm.regions[k], vm.regions[m]);
  }

  /** The guest sees exactly the monitor's regions, each byte where the monitor has it. */
  lemma KvmMapsRegions(vm: Vm, a: nat, h: nat)
    requires Mapped(vm)
    ensures KvmMaps(vm.slots, a, h) <==> exists k :: 0 <= k < |vm.regions| && MapsAt(vm.regions[k], a, h)
  {
    hide RegionsOk;
    if KvmMaps(vm.slots, a, h) {
      var id :| id in vm.slots && Within(vm.slots[id], a) && h == vm.slots[id].host + (a - vm.slots[id].gpa);
      var k :| 0 <= k < |vm.regions| && PartOf(vm.slots[id], vm.regions[k]);
      assert MapsAt(vm.regions[k], a, h);
    }
    if k :| 0 <= k < |vm.regions| && MapsAt(vm.regions[k], a, h) {
      SlotMapsToo(vm, k, a, h);
    }
  }

  lemma SlotMapsToo(vm: Vm, k: nat, a: nat, h: nat)
    requires Mapped(vm) && k < |vm.regions| && MapsAt(vm.regions[k], a, h)
    ensures KvmMaps(vm.slots, a, h)
  {
    hide RegionsOk, SlotsOk;
    assert Covered(vm.slots, a);
    var id :| id in vm.slots && Within(vm.slots[id], a);
    SlotAtRegion(vm, id, k, a);
  }

  lemma {:induction false} GpaToHostFinds(regions: seq<Region>, gpa: nat, len: nat)
    ensures match GpaToHost(regions, gpa, len)
            case Some(h) =>
              exists k :: 0 <= k < |regions| && HoldsRange(regions[k], gpa, len)
                && h == regions[k].host + (gpa - regions[k].base)
            case None => forall k :: 0 <= k < |regions| ==> !HoldsRange(regions[k], gpa, len)
  {
    if regions == [] {
    } else if HoldsRange(regions[0], gpa, len) {
      assert GpaToHost(regions, gpa, len) == Some(regions[0].host + (gpa - regions[0].base));
    } else {
      var rest := regions[1..];
      GpaToHostFinds(rest, gpa, len);
      if GpaToHost(rest, gpa, len).Some? {
        var h := GpaToHost(rest, gpa, len).value;
        var k :| 0 <= k < |rest| && HoldsRange(rest[k], gpa, len) && h == rest[k].host + (gpa - rest[k].base);
        assert regions[k + 1] == rest[k];
      } else {
        assert forall k :: 0 < k < |regions| ==> regions[k] == rest[k - 1];
      }
    }
  }

  /** Where the monitor finds guest memory is where the guest does, byte by byte. */
  lemma TranslationAgrees(vm: Vm, gpa: nat, len: nat, i: nat)
    requires Inv(vm) && i < len
    ensures var h := GpaToHost(vm.regions, gpa, len);
            h.Some? ==> KvmMaps(vm.slots, gpa + i, h.value + i)
  {
    GpaToHostFinds(vm.regions, gpa, len);
    var h := GpaToHost(vm.regions, gpa, len);
    if h.Some? {
      var k :| 0 <= k < |vm.regions| && HoldsRange(vm.regions[k], gpa, len)
               && h.value == vm.regions[k].host + (gpa - vm.regions[k].base);
      SlotMapsToo(vm, k, gpa + i, h.value + i);
    }
  }

  // ----- adding memory

  /** `host` is where mmap put the memory, None if it could not; it refuses an empty mapping. */
  function AddMemRegion(vm: Vm, size: nat, gpa: nat, host: Option<nat>, willing: bool): (Vm, bool) {
    if host.None? then (vm, false)
    else
      var s := Slot(gpa, size, host.value, false);
      var taken := vm.(nextSlot := vm.nextSlot + 1);
      if !KvmTakes(vm.slots, vm.nextSlot, s, willing) then (taken, false)
      else (taken.(slots := KvmSet(vm.slots, vm.nextSlot, s),
                   regions := vm.regions + [Region(gpa, size, host.value, Some(vm.nextSlot), false)]), true)
  }

  /** A region that fits nowhere else is clear of the others. */
  lemma NewRegionApart(vm: Vm, r: Region, k: nat)
    requires Inv(vm) && k < |vm.regions| && r.size > 0
    requires forall j :: j in vm.slots ==> Disjoint(vm.slots[j], Slot(r.base, r.size, r.host, false))
    ensures RegionsApart(vm.regions[k], r)
  {
    var q := vm.regions[k];
    var a := if q.base < r.base then r.base else q.base;
    assert In(q, a) ==> Covered(vm.slots, a);
  }

  lemma BackedStays(regions: seq<Region>, r: Region, s: Slot)
    requires Backed(regions, s)
    ensures Backed(regions + [r], s)
  {
    var k :| 0 <= k < |regions| && PartOf(s, regions[k]);
    assert (regions + [r])[k] == regions[k];
  }

  /** However memory is added, and whatever KVM refuses. */
  lemma AddKeeps(vm: Vm, size: nat, gpa: nat, host: Option<nat>, willing: bool)
    requires Inv(vm) && (size == 0 ==> host.None?)
    ensures Inv(AddMemRegion(vm, size, gpa, host, willing).0)
  {
    var (n, ok) := AddMemRegion(vm, size, gpa, host, willing);
    if ok {
      var r := Region(gpa, size, host.value, Some(vm.nextSlot), false);
      var s := n.slots[vm.nextSlot];
      assert n.regions[|vm.regions|] == r && PartOf(s, r);
      forall id | id in n.slots ensures id < n.nextSlot && Backed(n.regions, n.slots[id]) {
        if id != vm.nextSlot {
          BackedStays(vm.regions, r, vm.slots[id]);
        }
      }
      forall k, m | 0 <= k < m < |n.regions| ensures RegionsApart(n.regions[k], n.regions[m]) {
        if m == |vm.regions| {
          NewRegionApart(vm, r, k);
        }
      }
      NewSlotCovers(vm, s, r);
      hide Covered, PageAligned, In, Within, RegionsApart;
      forall k | 0 <= k < |n.regions| ensures Whole(n.slots, n.regions[k]) {
        if k < |vm.regions| {
          assert Whole(vm.slots, vm.regions[k]);
        }
      }
    }
  }

  /** With its slot added, a new region is covered, and the others as before. */
  lemma NewSlotCovers(vm: Vm, s: Slot, r: Region)
    requires Mapped(vm) && vm.nextSlot !in vm.slots && s.gpa == r.base && s.size == r.size
    ensures var slots, regions := vm.slots[vm.nextSlot := s], vm.regions + [r];
            forall k, a :: 0 <= k < |regions| && In(regions[k], a) ==> Covered(slots, a)
  {
    hide SlotsOk, RegionsOk;
    var slots, regions := vm.slots[vm.nextSlot := s], vm.regions + [r];
    forall k, a | 0 <= k < |regions| && In(regions[k], a) ensures Covered(slots, a) {
      if k < |vm.regions| {
        assert Covered(vm.slots, a);
        var id :| id in vm.slots && Within(vm.slots[id], a);
        assert id in slots && slots[id] == vm.slots[id];
      } else {
        assert vm.nextSlot in slots && Within(slots[vm.nextSlot], a);
      }
    }
  }

  // ----- splitting a slot

  datatype Piece = Piece(from: nat, to: nat, logged: bool)

  datatype Outcome =
    | Log(slot: nat, pages: nat)
    | NoRegion | AlreadySplit | Refused | Shared | NoDescriptor
    | Panic                     // an empty range on a page boundary has no logged slot

  datatype Split = Split(slots: Slots, next: nat, free: Option<nat>, logged: Option<nat>, ok: bool)

  function PieceSlot(r: Region, p: Piece): Slot
    requires r.base <= p.from <= p.to
  {
    Slot(p.from, p.to - p.from, r.host + (p.from - r.base), p.logged)
  }

  /** The slot the next piece gets: the one left over, or a new one. */
  function FreeSlot(s: Split): nat { if s.free.Some? then s.free.value else s.next }

  function NextSlot(s: Split): nat { if s.free.Some? then s.next else s.next + 1 }

  function Added(s: Split, r: Region, p: Piece): Split
    requires r.base <= p.from <= p.to
  {
    Split(KvmSet(s.slots, FreeSlot(s), PieceSlot(r, p)), NextSlot(s), None, if p.logged then Some(FreeSlot(s))
          else s.logged, true)
  }

  /** One piece, unless it is empty. */
  function AddOne(s: Split, r: Region, p: Piece, willing: bool): Split
    requires r.base <= p.from <= p.to
  {
    if p.from == p.to then s
    else if !KvmTakes(s.slots, FreeSlot(s), PieceSlot(r, p), willing) then Split(s.slots, NextSlot(s), None, s.logged,
        false)
    else Added(s, r, p)
  }

  /** Adds the pieces of a region in order, each in the slot left over or a new one. */
  function AddPieces(s: Split, r: Region, pieces: seq<Piece>, willing: seq<bool>): Split
    requires |willing| == |pieces| && forall k :: 0 <= k < |pieces| ==> r.base <= pieces[k].from <= pieces[k].to
    decreases |pieces|
  {
    if pieces == [] || !s.ok then s
    else AddPieces(AddOne(s, r, pieces[0], willing[0]), r, pieces[1..], willing[1..])
  }

  function PageDown(a: nat): nat { a / PAGE * PAGE }

  function PageUp(a: nat): nat { (a + PAGE - 1) / PAGE * PAGE }

  function ThreePieces(r: Region, start: nat, end: nat): seq<Piece> {
    [Piece(r.base, start, false), Piece(start, end, true), Piece(end, EndOf(r), false)]
  }

  /** First region that holds start..end. */
  function FindRegion(regions: seq<Region>, start: nat, end: nat): (k: nat)
    ensures k <= |regions|
    ensures k < |regions| ==> regions[k].base <= start && end <= EndOf(regions[k])
    ensures forall j :: 0 <= j < k ==> !(regions[j].base <= start && end <= EndOf(regions[j]))
  {
    if regions == [] then 0
    else if regions[0].base <= start && end <= EndOf(regions[0]) then 0
    else
      var k := FindRegion(regions[1..], start, end);
      assert forall j :: 1 <= j < |regions| ==> regions[j] == regions[1..][j - 1];
      1 + k
  }

  /** Deletes a region's slot and adds its pieces. */
  function SplitSlot(vm: Vm, k: nat, start: nat, end: nat, willing: seq<bool>): Split
    requires |willing| == 4 && k < |vm.regions| && vm.regions[k].slot.Some?
    requires vm.regions[k].base <= start <= end <= EndOf(vm.regions[k])
  {
    var r := vm.regions[k];
    var gone := Slot(r.base, 0, r.host, false);
    if !KvmTakes(vm.slots, r.slot.value, gone, willing[0]) then Split(vm.slots, vm.nextSlot, None, None, false)
    else AddPieces(Split(KvmSet(vm.slots, r.slot.value, gone), vm.nextSlot, r.slot, None, true), r,
                   ThreePieces(r, start, end), willing[1..])
  }

  /** `willing` is KVM's say on the four ioctls, in order; `descriptor` whether the VM's could be duplicated. */
  function LogRange(vm: Vm, start: nat, end: nat, willing: seq<bool>, descriptor: bool): (Vm, Outcome)
    requires |willing| == 4 && start <= end
  {
    var k := FindRegion(vm.regions, start, end);
    if k == |vm.regions| then (vm, NoRegion)
    else if vm.regions[k].slot.None? then (vm, AlreadySplit)
    else
      var split := SplitSlot(vm, k, start, end, willing);
      var n := vm.(slots := split.slots, nextSlot := split.next);
      if !split.ok then (n, Refused)
      else if vm.regions[k].shared then (n, Shared)
      else
        var done := n.(regions := vm.regions[k := vm.regions[k].(slot := None)]);
        if !descriptor then (done, NoDescriptor)
        else if split.logged.None? then (done, Panic)
        else (done, Log(split.logged.value, (end - start) / PAGE))
  }

  /** The pages that hold gpa..gpa + size. */
  function LogDirtyPages(vm: Vm, gpa: nat, size: nat, willing: seq<bool>, descriptor: bool): (Vm, Outcome)
    requires |willing| == 4
  {
    PagesCover(gpa, size);
    LogRange(vm, PageDown(gpa), PageUp(gpa + size), willing, descriptor)
  }

  lemma PagesCover(gpa: nat, size: nat)
    ensures PageDown(gpa) <= gpa && gpa + size <= PageUp(gpa + size)
    ensures PageDown(gpa) <= PageUp(gpa + size)
    ensures PageAligned(PageDown(gpa)) && PageAligned(PageUp(gpa + size))
    ensures PageDown(gpa) == PageUp(gpa + size) <==> size == 0 && PageAligned(gpa)
  {
  }

  /** What logging a slot of the region does: all of it or nothing is between `start` and `end`. */
  predicate LogsRange(s: Slot, start: nat, end: nat) {
    if s.logged then start <= s.gpa && s.gpa + s.size <= end else s.gpa + s.size <= start || end <= s.gpa
  }

  datatype Job = Job(regions: seq<Region>, k: nat, start: nat, end: nat, before: Slots)

  ghost predicate JobOk(j: Job) {
    && RegionsOk(j.regions) && j.k < |j.regions|
    && var r := j.regions[j.k];
    && r.base <= j.start <= j.end <= EndOf(r) && PageAligned(j.start) && PageAligned(j.end)
  }

  /** The slots of other regions are as they were. */
  ghost predicate OthersKept(slots: Slots, j: Job)
    requires JobOk(j)
  {
    var r := j.regions[j.k];
    && (forall id :: id in j.before && !PartOf(j.before[id], r) ==> id in slots && slots[id] == j.before[id])
    && (forall id :: id in slots && !PartOf(slots[id], r) ==> id in j.before && slots[id] == j.before[id])
  }

  /** The region's own slots are all of it up to `upto`, and log what they should. */
  ghost predicate FilledTo(slots: Slots, j: Job, upto: nat)
    requires JobOk(j)
  {
    var r := j.regions[j.k];
    && (forall id :: id in slots && PartOf(slots[id], r) ==>
          slots[id].gpa + slots[id].size <= upto && LogsRange(slots[id], j.start, j.end))
    && (forall a :: r.base <= a < upto ==> Covered(slots, a))
  }

  ghost predicate LoggedSlot(s: Split, j: Job, upto: nat)
    requires JobOk(j)
  {
    match s.logged
    case None => upto <= j.start || j.start == j.end
    case Some(id) =>
      && j.start < j.end && id in s.slots
      && s.slots[id] == PieceSlot(j.regions[j.k], Piece(j.start, j.end, true))
  }

  /** A region being put together again from its base up to `upto`. */
  ghost predicate Partial(s: Split, j: Job, upto: nat)
    requires JobOk(j)
  {
    && s.ok && SlotsOk(s.slots, s.next, j.regions)
    && j.regions[j.k].base <= upto <= EndOf(j.regions[j.k]) && PageAligned(upto)
    && (s.free.Some? ==> s.free.value !in s.slots && s.free.value < s.next)
    && OthersKept(s.slots, j) && FilledTo(s.slots, j, upto) && LoggedSlot(s, j, upto)
  }

  lemma AlignedPiece(from: nat, to: nat, base: nat, host: nat)
    requires PageAligned(from) && PageAligned(to) && PageAligned(base) && PageAligned(host) && base <= from <= to
    ensures PageAligned(to - from) && PageAligned(host + (from - base))
  {
  }

  /** The next piece is clear of everything, so KVM takes it if it is willing. */
  lemma PieceIsTaken(s: Split, j: Job, p: Piece)
    requires JobOk(j) && Partial(s, j, p.from) && p.from < p.to <= EndOf(j.regions[j.k]) && PageAligned(p.to)
    ensures KvmTakes(s.slots, FreeSlot(s), PieceSlot(j.regions[j.k], p), true)
  {
    var r := j.regions[j.k];
    var slot := PieceSlot(r, p);
    AlignedPiece(p.from, p.to, r.base, r.host);
    forall i | i in s.slots ensures Disjoint(s.slots[i], slot) {
      SlotIsClear(s.slots, s.next, j, p, i);
    }
    hide PageAligned, OthersKept, FilledTo, LoggedSlot, RegionsOk, Backed;
  }

  /** A slot of this region ends before the piece, one of another region is clear of all of it. */
  lemma SlotIsClear(slots: Slots, next: nat, j: Job, p: Piece, i: nat)
    requires JobOk(j) && SlotsOk(slots, next, j.regions) && FilledTo(slots, j, p.from) && i in slots
    requires j.regions[j.k].base <= p.from < p.to <= EndOf(j.regions[j.k])
    ensures Disjoint(slots[i], PieceSlot(j.regions[j.k], p))
  {
    hide PageAligned;
    var r := j.regions[j.k];
    if !PartOf(slots[i], r) {
      var m :| 0 <= m < |j.regions| && PartOf(slots[i], j.regions[m]);
      assert m < j.k ==> RegionsApart(j.regions[m], r);
      assert j.k < m ==> RegionsApart(r, j.regions[m]);
    }
  }

  lemma PieceKeeps(s: Split, j: Job, p: Piece)
    requires JobOk(j) && Partial(s, j, p.from) && p.from < p.to <= EndOf(j.regions[j.k]) && PageAligned(p.to)
    requires p.logged ==> p.from == j.start && p.to == j.end
    requires !p.logged ==> p.to <= j.start || j.end <= p.from
    ensures Partial(Added(s, j.regions[j.k], p), j, p.to)
  {
    hide PageAligned, RegionsOk, Backed;
    var r := j.regions[j.k];
    var id, slot, n := FreeSlot(s), PieceSlot(r, p), Added(s, r, p);
    PieceIsTaken(s, j, p);
    assert PartOf(slot, r) && id !in s.slots && n.slots == s.slots[id := slot] && LogsRange(slot, j.start, j.end);
    NewSlotOk(s.slots, id, slot, s.next, n.next, j);
    NewSlotFills(s.slots, id, slot, j, p);
    hide SlotsOk, FilledTo, OthersKept, PageAligned, KvmTakes, JobOk, PartOf, LogsRange;
  }

  lemma NewSlotOk(slots: Slots, id: nat, slot: Slot, before: nat, next: nat, j: Job)
    requires JobOk(j) && SlotsOk(slots, before, j.regions) && before <= next && id < next
    requires id !in slots && PartOf(slot, j.regions[j.k]) && forall i :: i in slots ==> Disjoint(slots[i], slot)
    ensures SlotsOk(slots[id := slot], next, j.regions)
    ensures OthersKept(slots, j) ==> OthersKept(slots[id := slot], j)
  {
    assert Backed(j.regions, slot);
  }

  lemma NewSlotFills(slots: Slots, id: nat, slot: Slot, j: Job, p: Piece)
    requires JobOk(j) && FilledTo(slots, j, p.from) && id !in slots && p.from < p.to
    requires j.regions[j.k].base <= p.from && slot == PieceSlot(j.regions[j.k], p) && LogsRange(slot, j.start, j.end)
    ensures FilledTo(slots[id := slot], j, p.to)
  {
    var n, r := slots[id := slot], j.regions[j.k];
    forall a | r.base <= a < p.to ensures Covered(n, a) {
      if a < p.from {
        assert Covered(slots, a);
        var i :| i in slots && Within(slots[i], a);
        assert i in n && n[i] == slots[i];
      } else {
        assert Within(n[id], a);
      }
    }
  }

  /** Where the pieces go: one after another, the logged one exactly start..end. */
  ghost predicate InOrder(j: Job, pieces: seq<Piece>, upto: nat)
    requires JobOk(j)
    decreases |pieces|
  {
    if pieces == [] then upto == EndOf(j.regions[j.k])
    else
      var p := pieces[0];
      && p.from == upto <= p.to <= EndOf(j.regions[j.k]) && PageAligned(p.to)
      && (p.logged ==> p.from == j.start && p.to == j.end)
      && (!p.logged ==> p.to <= j.start || j.end <= p.from)
      && InOrder(j, pieces[1..], p.to)
  }

  lemma {:induction false} PiecesKeep(s: Split, j: Job, pieces: seq<Piece>, willing: seq<bool>, upto: nat)
    requires JobOk(j) && Partial(s, j, upto) && InOrder(j, pieces, upto) && |willing| == |pieces|
    requires forall i :: 0 <= i < |pieces| ==> j.regions[j.k].base <= pieces[i].from <= pieces[i].to
    ensures var n := AddPieces(s, j.regions[j.k], pieces, willing);
            && (n.ok ==> Partial(n, j, EndOf(j.regions[j.k])))
            && ((forall i :: 0 <= i < |willing| ==> willing[i]) ==> n.ok)
    decreases |pieces|
  {
    assert s.ok;
    hide Partial, JobOk, KvmTakes, Added, PageAligned;
    if pieces == [] {
    } else {
      var p, r := pieces[0], j.regions[j.k];
      if p.from == p.to {
        PiecesKeep(s, j, pieces[1..], willing[1..], p.to);
      } else {
        PieceIsTaken(s, j, p);
        WillingTakes(s.slots, FreeSlot(s), PieceSlot(r, p), willing[0]);
        PieceKeeps(s, j, p);
        PiecesKeep(Added(s, r, p), j, pieces[1..], willing[1..], p.to);
      }
    }
  }

  lemma WillingTakes(slots: Slots, id: nat, s: Slot, willing: bool)
    requires KvmTakes(slots, id, s, true)
    ensures KvmTakes(slots, id, s, willing) <==> willing
  {
  }

  // ----- what a split does

  /** Deleting the slot of an unsplit region leaves the region empty and the rest as it was. */
  lemma DeletedIsPartial(vm: Vm, k: nat, start: nat, end: nat)
    requires Inv(vm) && k < |vm.regions| && vm.regions[k].slot.Some?
    requires JobOk(Job(vm.regions, k, start, end, vm.slots))
    ensures var r := vm.regions[k];
            var gone := Slot(r.base, 0, r.host, false);
            && KvmTakes(vm.slots, r.slot.value, gone, true)
            && Partial(Split(KvmSet(vm.slots, r.slot.value, gone), vm.nextSlot, Some(r.slot.value), None, true),
                       Job(vm.regions, k, start, end, vm.slots), r.base)
  {
    var r := vm.regions[k];
    var id := r.slot.value;
    assert Whole(vm.slots, r);
    var slots := vm.slots - {id};
    forall i | i in slots ensures !PartOf(slots[i], r) {
      assert Disjoint(vm.slots[i], vm.slots[id]);
    }
  }

  lemma PiecesInOrder(j: Job)
    requires JobOk(j)
    ensures InOrder(j, ThreePieces(j.regions[j.k], j.start, j.end), j.regions[j.k].base)
    ensures var pieces := ThreePieces(j.regions[j.k], j.start, j.end);
            forall i :: 0 <= i < |pieces| ==> j.regions[j.k].base <= pieces[i].from <= pieces[i].to
  {
    var r := j.regions[j.k];
    var pieces := ThreePieces(r, j.start, j.end);
    AlignedSum(r.base, r.size);
    var last := [pieces[2]];
    assert last[1..] == [];
    assert InOrder(j, last, j.end);
    var two := [pieces[1]] + last;
    assert two[1..] == last;
    assert InOrder(j, two, j.start);
    assert pieces[1..] == two;
  }

  lemma AlignedSum(a: nat, b: nat)
    requires PageAligned(a) && PageAligned(b)
    ensures PageAligned(a + b)
  {
  }

  /** A region put together again is whole: all of memory is mapped as before. */
  lemma CompleteIsMapped(s: Split, j: Job)
    requires JobOk(j) && Partial(s, j, EndOf(j.regions[j.k])) && Mapped(Vm(j.regions, s.next, j.before))
    ensures Mapped(Vm(j.regions, s.next, s.slots))
  {
    forall m, a | 0 <= m < |j.regions| && In(j.regions[m], a) ensures Covered(s.slots, a) {
      if m != j.k {
        assert Covered(j.before, a);
        var id :| id in j.before && Within(j.before[id], a);
        SlotAtRegion(Vm(j.regions, s.next, j.before), id, m, a);
        assert m < j.k ==> RegionsApart(j.regions[m], j.regions[j.k]);
        assert j.k < m ==> RegionsApart(j.regions[j.k], j.regions[m]);
        assert s.slots[id] == j.before[id];
      }
    }
  }

  /** Logging in pieces that have it exactly where it should be. */
  lemma PiecesLogRange(s: Split, j: Job, a: nat)
    requires JobOk(j) && Partial(s, j, EndOf(j.regions[j.k])) && Mapped(Vm(j.regions, s.next, j.before))
    requires forall id :: id in j.before && PartOf(j.before[id], j.regions[j.k]) ==> !j.before[id].logged
    ensures Logged(s.slots, a) <==> Logged(j.before, a) || j.start <= a < j.end
  {
    var r := j.regions[j.k];
    if Logged(s.slots, a) {
      var id :| id in s.slots && Within(s.slots[id], a) && s.slots[id].logged;
      assert !PartOf(s.slots[id], r) ==> s.slots[id] == j.before[id];
    }
    if Logged(j.before, a) {
      var id :| id in j.before && Within(j.before[id], a) && j.before[id].logged;
      assert s.slots[id] == j.before[id];
    }
    if j.start <= a < j.end {
      assert Covered(s.slots, a);
      var id :| id in s.slots && Within(s.slots[id], a);
      CompleteIsMapped(s, j);
      SlotAtRegion(Vm(j.regions, s.next, s.slots), id, j.k, a);
    }
  }

  lemma FoundRegionHolds(vm: Vm, start: nat, end: nat, k: nat)
    requires Inv(vm) && k == FindRegion(vm.regions, start, end) && k < |vm.regions|
    requires start <= end && PageAligned(start) && PageAligned(end)
    ensures JobOk(Job(vm.regions, k, start, end, vm.slots))
  {
  }

  ghost predicate AllWilling(willing: seq<bool>) {
    forall i :: 0 <= i < |willing| ==> willing[i]
  }

  /** The region's slot after deleting and adding its pieces, as long as KVM is willing. */
  lemma SplitIsPartial(vm: Vm, willing: seq<bool>, j: Job)
    requires Inv(vm) && |willing| == 4 && JobOk(j) && j.regions == vm.regions && j.before == vm.slots
    requires vm.regions[j.k].slot.Some?
    ensures var split := SplitSlot(vm, j.k, j.start, j.end, willing);
            && split.next >= vm.nextSlot
            && (split.ok ==> Partial(split, j, EndOf(vm.regions[j.k])))
            && (AllWilling(willing) ==> split.ok)
  {
    var r := vm.regions[j.k];
    hide Inv, Partial, InOrder, KvmTakes, AddPieces, PieceSlot;
    DeletedIsPartial(vm, j.k, j.start, j.end);
    PiecesInOrder(j);
    var gone := Slot(r.base, 0, r.host, false);
    var s := Split(KvmSet(vm.slots, r.slot.value, gone), vm.nextSlot, r.slot, None, true);
    hide ThreePieces, JobOk;
    PiecesKeep(s, j, ThreePieces(r, j.start, j.end), willing[1..], r.base);
    IdsGrow(s, r, ThreePieces(r, j.start, j.end), willing[1..]);
    WillingTakes(vm.slots, r.slot.value, gone, willing[0]);
  }

  lemma {:induction false} IdsGrow(s: Split, r: Region, pieces: seq<Piece>, willing: seq<bool>)
    requires |willing| == |pieces| && forall k :: 0 <= k < |pieces| ==> r.base <= pieces[k].from <= pieces[k].to
    ensures AddPieces(s, r, pieces, willing).next >= s.next
    decreases |pieces|
  {
    hide KvmTakes;
    if pieces != [] && s.ok {
      IdsGrow(AddOne(s, r, pieces[0], willing[0]), r, pieces[1..], willing[1..]);
    }
  }

  /** Which slot the monitor thinks a region has makes no difference to the guest. */
  lemma MappedIgnoresSlot(vm: Vm, k: nat, slot: Option<nat>)
    requires Mapped(vm) && k < |vm.regions|
    ensures Mapped(vm.(regions := vm.regions[k := vm.regions[k].(slot := slot)]))
  {
    var n := vm.regions[k := vm.regions[k].(slot := slot)];
    forall id | id in vm.slots ensures Backed(n, vm.slots[id]) {
      var m :| 0 <= m < |vm.regions| && PartOf(vm.slots[id], vm.regions[m]);
      assert PartOf(vm.slots[id], n[m]);
    }
    forall i, m | 0 <= i < m < |n| ensures RegionsApart(n[i], n[m]) {
      assert RegionsApart(vm.regions[i], vm.regions[m]);
    }
    forall m, a | 0 <= m < |n| && In(n[m], a) ensures Covered(vm.slots, a) {
      assert In(vm.regions[m], a);
    }
  }

  lemma MappedLater(vm: Vm, next: nat)
    requires Mapped(vm) && next >= vm.nextSlot
    ensures Mapped(vm.(nextSlot := next))
  {
  }

  lemma SplitIsMapped(vm: Vm, willing: seq<bool>, j: Job)
    requires Inv(vm) && |willing| == 4 && JobOk(j) && j.regions == vm.regions && j.before == vm.slots
    requires vm.regions[j.k].slot.Some? && SplitSlot(vm, j.k, j.start, j.end, willing).ok
    ensures var split := SplitSlot(vm, j.k, j.start, j.end, willing);
            Mapped(vm.(slots := split.slots, nextSlot := split.next)) && Mapped(vm.(nextSlot := split.next))
            && Partial(split, j, EndOf(vm.regions[j.k]))
  {
    var split := SplitSlot(vm, j.k, j.start, j.end, willing);
    hide Partial, JobOk, SplitSlot;
    SplitIsPartial(vm, willing, j);
    MappedLater(vm, split.next);
    hide Inv, Mapped;
    CompleteIsMapped(split, j);
  }

  lemma RangeIsMapped(vm: Vm, start: nat, end: nat, willing: seq<bool>, descriptor: bool)
    requires Inv(vm) && |willing| == 4 && start <= end && PageAligned(start) && PageAligned(end)
    ensures var (n, outcome) := LogRange(vm, start, end, willing, descriptor);
            outcome != Refused ==> Mapped(n)
  {
    var k := FindRegion(vm.regions, start, end);
    if k < |vm.regions| && vm.regions[k].slot.Some? {
      FoundRegionHolds(vm, start, end, k);
      var split := SplitSlot(vm, k, start, end, willing);
      InvIsMapped(vm);
      hide PageAligned, JobOk, Partial, FindRegion, SplitSlot, Inv, Mapped, EndOf;
      if split.ok {
        SplitIsMapped(vm, willing, Job(vm.regions, k, start, end, vm.slots));
        MappedIgnoresSlot(vm.(slots := split.slots, nextSlot := split.next), k, None);
      }
    } else {
      InvIsMapped(vm);
      hide PageAligned, JobOk, Partial, FindRegion, SplitSlot, Inv, Mapped, EndOf;
    }
  }

  lemma RegionsStay(vm: Vm, start: nat, end: nat, willing: seq<bool>, descriptor: bool)
    requires |willing| == 4 && start <= end
    ensures var (n, _) := LogRange(vm, start, end, willing, descriptor);
            |n.regions| == |vm.regions|
            && forall m :: 0 <= m < |n.regions| ==>
                 n.regions[m].(slot := None) == vm.regions[m].(slot := None)
  {
    var k := FindRegion(vm.regions, start, end);
    if k < |vm.regions| && vm.regions[k].slot.Some? {
      var split := SplitSlot(vm, k, start, end, willing);
      hide FindRegion, SplitSlot, EndOf;
    }
  }

  lemma SameRegionsSameMap(vm: Vm, n: Vm, a: nat, h: nat)
    requires Mapped(vm) && Mapped(n) && |n.regions| == |vm.regions|
    requires forall m :: 0 <= m < |n.regions| ==> n.regions[m].(slot := None) == vm.regions[m].(slot := None)
    ensures KvmMaps(n.slots, a, h) <==> KvmMaps(vm.slots, a, h)
  {
    hide Mapped, KvmMaps;
    KvmMapsRegions(vm, a, h);
    KvmMapsRegions(n, a, h);
  }

  /** Whatever comes of it, unless KVM refuses half way: the guest's memory is
      all there and where it was. A region that turns out to be shared is split all the same. */
  lemma SplitKeepsMemory(vm: Vm, gpa: nat, size: nat, willing: seq<bool>, descriptor: bool, a: nat, h: nat)
    requires Inv(vm) && |willing| == 4
    ensures var (n, outcome) := LogDirtyPages(vm, gpa, size, willing, descriptor);
            outcome != Refused ==> Mapped(n) && (KvmMaps(n.slots, a, h) <==> KvmMaps(vm.slots, a, h))
  {
    PagesCover(gpa, size);
    RangeIsMapped(vm, PageDown(gpa), PageUp(gpa + size), willing, descriptor);
    RegionsStay(vm, PageDown(gpa), PageUp(gpa + size), willing, descriptor);
    var (n, outcome) := LogDirtyPages(vm, gpa, size, willing, descriptor);
    if outcome != Refused {
      hide PageDown, PageUp, LogRange, Mapped, KvmMaps;
      assert Mapped(vm) by { InvIsMapped(vm); }
      SameRegionsSameMap(vm, n, a, h);
    }
  }

  lemma InvIsMapped(vm: Vm)
    requires Inv(vm)
    ensures Mapped(vm)
  {
  }

  lemma RangeIsLogged(vm: Vm, start: nat, end: nat, willing: seq<bool>, a: nat)
    requires Inv(vm) && |willing| == 4 && start <= end && PageAligned(start) && PageAligned(end)
    ensures var (n, outcome) := LogRange(vm, start, end, willing, true);
            outcome.Log? ==>
              && Inv(n) && start < end
              && (Logged(n.slots, a) <==> Logged(vm.slots, a) || start <= a < end)
              && outcome.slot in n.slots && n.slots[outcome.slot].gpa == start && n.slots[outcome.slot].logged
              && n.slots[outcome.slot].size == end - start == outcome.pages * PAGE
  {
    var k := FindRegion(vm.regions, start, end);
    var (n, outcome) := LogRange(vm, start, end, willing, true);
    if outcome.Log? {
      var j := Job(vm.regions, k, start, end, vm.slots);
      FoundRegionHolds(vm, start, end, k);
      WholePages(start, end);
      RangeIsMapped(vm, start, end, willing, true);
      var split := SplitSlot(vm, k, start, end, willing);
      hide PageAligned, FindRegion, SplitSlot, Mapped, Logged, SlotsOk, FilledTo, RegionsOk, Whole;
      SplitIsMapped(vm, willing, j);
      UnsplitIsUnlogged(vm, k);
      PiecesLogRange(split, j, a);
      OthersStayWhole(vm, split, j);
    }
  }

  /** And when it succeeds: every slot still stands for a region whole or in
      pieces, writes are logged in exactly the pages that hold the range, besides those already logged, and
      the log is of one slot with a bit for each of those pages. */
  lemma LoggingIsExact(vm: Vm, gpa: nat, size: nat, willing: seq<bool>, a: nat)
    requires Inv(vm) && |willing| == 4
    ensures var (n, outcome) := LogDirtyPages(vm, gpa, size, willing, true);
            var start, end := PageDown(gpa), PageUp(gpa + size);
            outcome.Log? ==>
              && Inv(n) && start < end
              && (Logged(n.slots, a) <==> Logged(vm.slots, a) || start <= a < end)
              && outcome.slot in n.slots && n.slots[outcome.slot].gpa == start && n.slots[outcome.slot].logged
              && n.slots[outcome.slot].size == end - start == outcome.pages * PAGE
  {
    PagesCover(gpa, size);
    hide PageDown, PageUp, LogRange, Inv, Logged;
    RangeIsLogged(vm, PageDown(gpa), PageUp(gpa + size), willing, a);
  }

  lemma WholePages(start: nat, end: nat)
    requires start <= end && PageAligned(start) && PageAligned(end)
    ensures (end - start) / PAGE * PAGE == end - start
  {
  }

  lemma UnsplitIsUnlogged(vm: Vm, k: nat)
    requires Inv(vm) && k < |vm.regions| && vm.regions[k].slot.Some?
    ensures forall id :: id in vm.slots && PartOf(vm.slots[id], vm.regions[k]) ==> !vm.slots[id].logged
  {
    assert Whole(vm.slots, vm.regions[k]);
    forall id | id in vm.slots && PartOf(vm.slots[id], vm.regions[k]) ensures id == vm.regions[k].slot.value {
      assert id != vm.regions[k].slot.value ==> Disjoint(vm.slots[id], vm.slots[vm.regions[k].slot.value]);
    }
  }

  lemma OthersStayWhole(vm: Vm, split: Split, j: Job)
    requires Inv(vm) && JobOk(j) && j.regions == vm.regions && j.before == vm.slots && OthersKept(split.slots, j)
    ensures var regions := vm.regions[j.k := vm.regions[j.k].(slot := None)];
            forall m :: 0 <= m < |regions| ==> Whole(split.slots, regions[m])
  {
    var regions := vm.regions[j.k := vm.regions[j.k].(slot := None)];
    forall m | 0 <= m < |regions| ensures Whole(split.slots, regions[m]) {
      if m != j.k {
        assert Whole(vm.slots, vm.regions[m]);
        assert m < j.k ==> RegionsApart(vm.regions[m], vm.regions[j.k]);
        assert j.k < m ==> RegionsApart(vm.regions[j.k], vm.regions[m]);
      }
    }
  }

  /** Exactly when it succeeds, for an unshared region and a kernel that refuses
      nothing it has no reason to: some region holds the pages, it was not
      split before, and there is a page. KVM has no reason to refuse any of the slots. */
  lemma SucceedsExactly(vm: Vm, gpa: nat, size: nat, willing: seq<bool>)
    requires Inv(vm) && |willing| == 4 && AllWilling(willing)
    ensures var start, end := PageDown(gpa), PageUp(gpa + size);
            var k := FindRegion(vm.regions, start, end);
            var outcome := LogDirtyPages(vm, gpa, size, willing, true).1;
            if k == |vm.regions| then outcome == NoRegion
            else if vm.regions[k].slot.None? then outcome == AlreadySplit
            else if vm.regions[k].shared then outcome == Shared
            else if size == 0 && PageAligned(gpa) then outcome == Panic
            else outcome.Log?
  {
    PagesCover(gpa, size);
    hide PageDown, PageUp, LogRange, Inv, PageAligned, FindRegion;
    RangeSucceeds(vm, PageDown(gpa), PageUp(gpa + size), willing);
  }

  lemma RangeSucceeds(vm: Vm, start: nat, end: nat, willing: seq<bool>)
    requires Inv(vm) && |willing| == 4 && AllWilling(willing) && start <= end && PageAligned(start) && PageAligned(end)
    ensures var k := FindRegion(vm.regions, start, end);
            var outcome := LogRange(vm, start, end, willing, true).1;
            if k == |vm.regions| then outcome == NoRegion
            else if vm.regions[k].slot.None? then outcome == AlreadySplit
            else if vm.regions[k].shared then outcome == Shared
            else if start == end then outcome == Panic
            else outcome.Log?
  {
    var k := FindRegion(vm.regions, start, end);
    if k < |vm.regions| && vm.regions[k].slot.Some? {
      FoundRegionHolds(vm, start, end, k);
      hide PageDown, PageUp, FindRegion, SplitSlot, Inv, SlotsOk, FilledTo, OthersKept, JobOk, PageAligned;
      SplitIsPartial(vm, willing, Job(vm.regions, k, start, end, vm.slots));
    }
  }

  // ----- the monitor

  class Machine {
    var regions: seq<Region>
    var nextSlot: nat
    var slots: Slots            // KVM's

    function State(): Vm
      reads this
    {
      Vm(regions, nextSlot, slots)
    }

    constructor ()
      ensures State() == Vm([], 0, map[]) && Inv(State())
    {
      regions, nextSlot, slots := [], 0, map[];
    }

    method SetUserMemoryRegion(id: nat, s: Slot, willing: bool) returns (ok: bool)
      modifies `slots
      ensures ok == KvmTakes(old(slots), id, s, willing)
      ensures slots == if ok then KvmSet(old(slots), id, s) else old(slots)
    {
      ok := KvmTakes(slots, id, s, willing);
      if ok {
        slots := KvmSet(slots, id, s);
      }
    }

    method AddRegion(size: nat, gpa: nat, host: Option<nat>, willing: bool) returns (ok: bool)
      modifies this
      ensures (State(), ok) == AddMemRegion(old(State()), size, gpa, host, willing)
    {
      if host.None? {
        return false;
      }
      var slot := nextSlot;
      nextSlot := nextSlot + 1;
      ok := SetUserMemoryRegion(slot, Slot(gpa, size, host.value, false), willing);
      if ok {
        regions := regions + [Region(gpa, size, host.value, Some(slot), false)];
      }
    }

    /** The loop over the pieces before, in and after the pages to log. */
    method AddInPieces(r: Region, slot: nat, start: nat, end: nat, willing: seq<bool>)
      returns (ok: bool, logged: Option<nat>)
      requires |willing| == 3 && r.base <= start <= end <= EndOf(r)
      modifies `slots, `nextSlot
      ensures var split := AddPieces(Split(old(slots), old(nextSlot), Some(slot), None, true), r,
                                     ThreePieces(r, start, end), willing);
              split.ok == ok && split.slots == slots && split.next == nextSlot && split.logged == logged
    {
      var pieces := ThreePieces(r, start, end);
      ghost var goal := AddPieces(Split(slots, nextSlot, Some(slot), None, true), r, pieces, willing);
      var free := Some(slot);
      logged, ok := None, true;
      for i := 0 to 3
        invariant ok && AddPieces(Split(slots, nextSlot, free, logged, true), r, pieces[i..], willing[i..]) == goal
      {
        hide AddOne;
        assert pieces[i..][1..] == pieces[i + 1..] && willing[i..][1..] == willing[i + 1..];
        ok, free, logged := AddPiece(r, pieces[i], free, logged, willing[i]);
        if !ok {
          return;
        }
      }
    }

    method AddPiece(r: Region, p: Piece, free: Option<nat>, logged: Option<nat>, willing: bool)
      returns (ok: bool, left: Option<nat>, log: Option<nat>)
      requires r.base <= p.from <= p.to
      modifies `slots, `nextSlot
      ensures Split(slots, nextSlot, left, log, ok)
           == AddOne(Split(old(slots), old(nextSlot), free, logged, true), r, p, willing)
    {
      hide KvmTakes, KvmSet;
      if p.from == p.to {
        return true, free, logged;
      }
      var id := nextSlot;
      if free.Some? {
        id := free.value;
      } else {
        nextSlot := nextSlot + 1;
      }
      ok := SetUserMemoryRegion(id, PieceSlot(r, p), willing);
      left, log := None, if ok && p.logged then Some(id) else logged;
    }

    method LogPages(gpa: nat, size: nat, willing: seq<bool>, descriptor: bool) returns (outcome: Outcome)
      requires |willing| == 4
      modifies this
      ensures (State(), outcome) == LogDirtyPages(old(State()), gpa, size, willing, descriptor)
    {
      PagesCover(gpa, size);
      var start, end := PageDown(gpa), PageUp(gpa + size);
      hide PageDown, PageUp, FindRegion, KvmTakes, AddPieces;
      var k := FindRegion(regions, start, end);
      if k == |regions| {
        return NoRegion;
      }
      var r := regions[k];
      if r.slot.None? {
        return AlreadySplit;
      }
      var ok := SetUserMemoryRegion(r.slot.value, Slot(r.base, 0, r.host, false), willing[0]);
      if !ok {
        return Refused;
      }
      var logged;
      ok, logged := AddInPieces(r, r.slot.value, start, end, willing[1..]);
      if !ok {
        return Refused;
      }
      if r.shared {
        return Shared;
      }
      regions := regions[k := r.(slot := None)];
      outcome := if !descriptor then NoDescriptor else if logged.None? then Panic
        else Log(logged.value, (end - start) / PAGE);
    }
  }
}
