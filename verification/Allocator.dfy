/** The guest's allocator: a bump pointer that only takes the last block back. */
module Allocator {
  import opened Common
  import Arith

  const HEADER := 16

  /** Sizes and addresses are 64 bits wide; both operations wrap. */
  function Rounded(size: Word64): (r: Word64)
    ensures r % 16 == 0
  {
    (size + 15) % WORD / 16 * 16
  }

  function Minus(a: int, b: int): Word64 { (a - b) % WORD }

  /** Whether rounding a request up wraps: exactly then the payload is too small for it. */
  predicate Roundable(size: Word64) { size + 15 < WORD }

  lemma PayloadHoldsRequest(size: Word64)
    ensures Rounded(size) >= size <==> Roundable(size)
    ensures Roundable(size) ==> Rounded(size) < size + 16
  {
  }

  // ----- the heap and its operations

  /** The allocator's globals, the size in each block's header (by the header's
      address), and memory, indexed by address. */
  datatype Heap = Heap(next: nat, end: nat, last: Option<nat>, sizes: map<nat, nat>, mem: seq<Byte>)

  /** What an operation returns. `overrun` is set when it would next fill memory
      past the end of the block it just got: the heap is then as before that. */
  datatype Outcome = Outcome(ptr: Option<nat>, heap: Heap, overrun: bool)

  predicate Sane(h: Heap) { h.next <= h.end == |h.mem| < WORD }

  function HeapInit(start: Word64, end: Word64, mem: seq<Byte>): Heap {
    Heap(Rounded(start), end, None, map[], mem)
  }

  function Malloc(h: Heap, size: Word64): (o: Outcome)
    requires Sane(h)
    ensures Sane(o.heap)
  {
    var rounded := Rounded(size);
    var avail := Minus(h.end, h.next);
    if avail < HEADER || rounded > avail - HEADER then Outcome(None, h, false)
    else Outcome(Some(h.next + HEADER),
                 h.(next := h.next + HEADER + rounded, last := Some(h.next), sizes := h.sizes[h.next := rounded]),
                   false)
  }

  function Free(h: Heap, ptr: Option<nat>): Heap {
    if ptr.Some? && h.last.Some? && ptr.value == h.last.value + HEADER then
      h.(next := h.last.value, last := None)
    else h
  }

  function ZeroBytes(n: nat): seq<Byte> { seq(n, _ => 0) }

  predicate Overflows(n: Word64, size: Word64) { size != 0 && n > (WORD - 1) / size }

  lemma OverflowsExactly(n: Word64, size: Word64)
    ensures Overflows(n, size) <==> n * size >= WORD
  {
    if size != 0 {
      ProductReaches(n, size, WORD - 1, (WORD - 1) / size, (WORD - 1) % size);
    }
  }

  lemma ProductReaches(n: nat, size: nat, limit: nat, q: nat, r: nat)
    requires limit == q * size + r && r < size
    ensures n > q <==> n * size > limit
  {
    if n > q {
      Arith.MulAtLeast(n - q, size);
      Arith.MulSplit(n, q, size);
    } else {
      Arith.MulSplit(q, n, size);
    }
  }

  /** The request calloc passes on; none when it refuses. */
  function Product(n: Word64, size: Word64): Option<Word64> {
    OverflowsExactly(n, size);
    if Overflows(n, size) then None else Some(n * size)
  }

  /** calloc refuses exactly the products that do not fit a size_t. */
  lemma ProductIsExact(n: Word64, size: Word64)
    ensures Product(n, size) == if n * size < WORD then Some(n * size) else None
  {
    OverflowsExactly(n, size);
  }

  function Calloc(h: Heap, n: Word64, size: Word64): (o: Outcome)
    requires Sane(h)
    ensures Sane(o.heap)
  {
    match Product(n, size)
    case None => Outcome(None, h, false)
    case Some(bytes) =>
      var o := Malloc(h, bytes);
      if o.ptr.None? then o else Filled(o, ZeroBytes(bytes))
  }

  /** A block just got, filled from its start, if that is inside it. */
  function Filled(o: Outcome, bytes: seq<Byte>): (f: Outcome)
    requires o.ptr.Some? && Sane(o.heap)
    ensures Sane(f.heap) && f.ptr == o.ptr && f.heap == o.heap.(mem := f.heap.mem)
  {
    if o.ptr.value + |bytes| > o.heap.next then o.(overrun := true)
    else o.(heap := o.heap.(mem := Overwritten(o.heap.mem, o.ptr.value, bytes)))
  }

  /** Whether the last block can grow where it is. */
  predicate GrowsInPlace(h: Heap, b: nat, size: Word64)
    requires Sane(h) && b in h.sizes
  {
    h.last == Some(b) && Minus(Rounded(size), h.sizes[b]) <= Minus(h.end, h.next)
  }

  predicate ReallocAllowed(h: Heap, ptr: Option<nat>) {
    && Sane(h)
    && (ptr.Some? ==> ptr.value >= HEADER && ptr.value - HEADER in h.sizes
                      && ptr.value + h.sizes[ptr.value - HEADER] <= h.next)
  }

  function Realloc(h: Heap, ptr: Option<nat>, size: Word64): (o: Outcome)
    requires ReallocAllowed(h, ptr)
    ensures Sane(o.heap)
  {
    if ptr.None? then Malloc(h, size) else
      var b := ptr.value - HEADER;
      if size <= h.sizes[b] then Outcome(ptr, h, false)
      else if GrowsInPlace(h, b, size) then
        Outcome(ptr, h.(next := h.next + Minus(Rounded(size), h.sizes[b]), sizes := h.sizes[b := Rounded(size)]), false)
      else
        var o := Malloc(h, size);
        if o.ptr.None? then o else Filled(o, h.mem[ptr.value..ptr.value + h.sizes[b]])
  }

  // ----- a program using it

  /** What a program has: the blocks it holds, with the contents it expects in them. */
  datatype State = State(heap: Heap, held: map<nat, seq<Byte>>)

  datatype Op =
    | DoMalloc(size: Word64)
    | DoCalloc(n: Word64, size: Word64)
    | DoRealloc(ptr: Option<nat>, size: Word64)
    | DoFree(ptr: Option<nat>)
    | DoStore(block: nat, offset: nat, value: Byte)

  /** A program frees and reallocs only what it holds, stores only inside it, and asks for no size that wraps. */
  predicate Proper(s: State, op: Op) {
    match op
    case DoMalloc(size) => Roundable(size)
    case DoCalloc(n, size) => Product(n, size).Some? ==> Roundable(Product(n, size).value)
    case DoRealloc(ptr, size) => Roundable(size) && (ptr.Some? ==> ptr.value in s.held)
    case DoFree(ptr) => ptr.Some? ==> ptr.value in s.held
    case DoStore(ptr, offset, _) => ptr in s.held && offset < |s.held[ptr]|
  }

  predicate HoldsAt(mem: seq<Byte>, p: nat, contents: seq<Byte>) {
    p + |contents| <= |mem| && mem[p..p + |contents|] == contents
  }

  /** A block at `p`: aligned, with its header inside the heap, room for its contents, and holding them. */
  predicate BlockOk(h: Heap, start: nat, p: nat, contents: seq<Byte>) {
    && start + HEADER <= p && p % 16 == 0
    && p - HEADER in h.sizes
    && |contents| <= h.sizes[p - HEADER]
    && p + h.sizes[p - HEADER] <= h.next
    && HoldsAt(h.mem, p, contents)
  }

  predicate Before(h: Heap, p: nat, q: nat)
    requires p >= HEADER && p - HEADER in h.sizes
  {
    p + h.sizes[p - HEADER] <= q - HEADER
  }

  /** Two blocks, headers included, do not overlap. */
  predicate Separate(h: Heap, p: nat, q: nat) {
    && p >= HEADER && q >= HEADER && p - HEADER in h.sizes && q - HEADER in h.sizes
    && (Before(h, p, q) || Before(h, q, p))
  }

  ghost predicate Inv(s: State, start: nat) {
    && Sane(s.heap) && start <= s.heap.next && s.heap.next % 16 == 0
    && (forall p :: p in s.held ==> BlockOk(s.heap, start, p, s.held[p]))
    && (forall p, q :: p in s.held && q in s.held && p < q ==> Before(s.heap, p, q))
    && (s.heap.last.Some? ==>
          var b := s.heap.last.value;
          b + HEADER in s.held && b + HEADER + s.heap.sizes[b] == s.heap.next)
  }

  /** What the program expects of a block it just got or grew: what it had, then whatever is there. */
  function NewContents(h: Heap, p: nat, size: nat, kept: seq<Byte>): (c: seq<Byte>)
    requires p + size <= |h.mem|
    ensures |c| == size
  {
    if |kept| >= size then kept[..size] else kept + h.mem[p + |kept|..p + size]
  }

  /** A pointer got from an operation lies in memory with the bytes asked for. */
  lemma StaysAligned(at: nat, size: Word64)
    ensures (at + HEADER + Rounded(size)) % 16 == at % 16
  {
    var k := (size + 15) % WORD / 16;
    assert at + HEADER + Rounded(size) == at + 16 * (k + 1);
    Arith.ModMultiple(at, k + 1, 16);
  }

  lemma MallocRoom(h: Heap, size: Word64)
    requires Sane(h) && Roundable(size)
    ensures var o := Malloc(h, size);
            o.ptr.Some? ==>
              && o.ptr.value == h.next + HEADER
              && o.ptr.value + size <= o.ptr.value + Rounded(size) == o.heap.next <= |o.heap.mem|
    ensures Malloc(h, size).ptr.Some? ==> Malloc(h, size).heap.next % 16 == h.next % 16
  {
    PayloadHoldsRequest(size);
    StaysAligned(h.next, size);
    hide Rounded;
  }

  function Put(b: seq<Byte>, i: nat, value: Byte): (n: seq<Byte>)
    requires i < |b|
    ensures |n| == |b| && n == b[i := value]
  {
    b[..i] + [value] + b[i + 1..]
  }

  ghost function Step(s: State, op: Op, start: nat): (n: State)
    requires Inv(s, start) && Proper(s, op)
  {
    match op
    case DoMalloc(size) =>
      MallocRoom(s.heap, size);
      var o := Malloc(s.heap, size);
      if o.ptr.None? then s.(heap := o.heap)
      else State(o.heap, s.held[o.ptr.value := NewContents(o.heap, o.ptr.value, size, [])])
    case DoCalloc(n, size) =>
      var o := Calloc(s.heap, n, size);
      if o.ptr.None? then s.(heap := o.heap)
      else State(o.heap, s.held[o.ptr.value := ZeroBytes(Product(n, size).value)])
    case DoRealloc(ptr, size) =>
      ReallocRoom(s, ptr, size, start);
      var o := Realloc(s.heap, ptr, size);
      var kept := if ptr.Some? then s.held[ptr.value] else [];
      if o.ptr.None? then s.(heap := o.heap)
      else
        var others := if ptr.Some? then s.held - {ptr.value} else s.held;
        State(o.heap, others[o.ptr.value := NewContents(o.heap, o.ptr.value, size, kept)])
    case DoFree(ptr) =>
      State(Free(s.heap, ptr), if ptr.Some? then s.held - {ptr.value} else s.held)
    case DoStore(ptr, offset, value) =>
      assert BlockOk(s.heap, start, ptr, s.held[ptr]);
      State(s.heap.(mem := Put(s.heap.mem, ptr + offset, value)), s.held[ptr := Put(s.held[ptr], offset, value)])
  }

  lemma ReallocRoom(s: State, ptr: Option<nat>, size: Word64, start: nat)
    requires Inv(s, start) && Roundable(size) && (ptr.Some? ==> ptr.value in s.held)
    ensures ReallocAllowed(s.heap, ptr)
    ensures var o := Realloc(s.heap, ptr, size);
            o.ptr.Some? ==> o.ptr.value + size <= |o.heap.mem|
  {
    if ptr.Some? {
      HeldIsThere(s, ptr.value, start);
      assert s.heap.last == Some(ptr.value - HEADER) ==> ptr.value + s.heap.sizes[ptr.value - HEADER] == s.heap.next;
    }
    hide Inv, Rounded, HoldsAt, GrowsInPlace, Filled, BlockOk;
    MallocRoom(s.heap, size);
    hide Malloc;
    if ptr.Some? && size > s.heap.sizes[ptr.value - HEADER] && GrowsInPlace(s.heap, ptr.value - HEADER, size) {
      GrowsLast(s.heap, ptr.value - HEADER, size);
      GrownHeap(s.heap, ptr.value, size);
    }
  }

  lemma GrowsLast(h: Heap, b: nat, size: Word64)
    requires Sane(h) && b in h.sizes && GrowsInPlace(h, b, size)
    ensures h.last == Some(b)
  {
  }

  /** A block at the old end of the heap is clear of all the others. */
  lemma NewBlockKeeps(s: State, start: nat, h: Heap, p: nat, contents: seq<Byte>)
    requires Inv(s, start)
    requires Sane(h) && p == s.heap.next + HEADER && h.end == s.heap.end && h.last == Some(s.heap.next)
    requires s.heap.next in h.sizes && h.sizes == s.heap.sizes[s.heap.next := h.sizes[s.heap.next]]
    requires h.next == p + h.sizes[s.heap.next] && h.next % 16 == 0
    requires |contents| <= h.sizes[s.heap.next] && HoldsAt(h.mem, p, contents)
    requires h.mem[..s.heap.next] == s.heap.mem[..s.heap.next]
    ensures Inv(State(h, s.held[p := contents]), start)
  {
    hide HoldsAt, Rounded;
    var n := State(h, s.held[p := contents]);
    forall q | q in n.held ensures BlockOk(h, start, q, n.held[q]) {
      if q != p {
        assert BlockOk(s.heap, start, q, s.held[q]);
        HoldsBelow(s.heap.mem, h.mem, s.heap.next, q, s.held[q]);
      }
    }
    forall q, r | q in n.held && r in n.held && q < r ensures Before(h, q, r) {
      assert BlockOk(h, start, q, n.held[q]) && BlockOk(h, start, r, n.held[r]);
      if q in s.held {
        assert BlockOk(s.heap, start, q, s.held[q]);
      }
      if r in s.held {
        assert BlockOk(s.heap, start, r, s.held[r]);
      }
    }
  }

  lemma HoldsBelow(a: seq<Byte>, b: seq<Byte>, limit: nat, q: nat, contents: seq<Byte>)
    requires limit <= |a| == |b| && b[..limit] == a[..limit] && q + |contents| <= limit && HoldsAt(a, q, contents)
    ensures HoldsAt(b, q, contents)
  {
    SameBelow(a, b, limit, q, |contents|);
  }

  lemma SameBelow(a: seq<Byte>, b: seq<Byte>, limit: nat, q: nat, n: nat)
    requires limit <= |a| == |b| && a[..limit] == b[..limit] && q + n <= limit
    ensures a[q..q + n] == b[q..q + n]
  {
    assert a[q..q + n] == a[..limit][q..q + n] && b[q..q + n] == b[..limit][q..q + n];
  }

  lemma MallocKeeps(s: State, size: Word64, start: nat)
    requires Inv(s, start) && Roundable(size)
    ensures Inv(Step(s, DoMalloc(size), start), start)
  {
    MallocRoom(s.heap, size);
    var o := Malloc(s.heap, size);
    if o.ptr.Some? {
      NewBlockKeeps(s, start, o.heap, o.ptr.value, NewContents(o.heap, o.ptr.value, size, []));
    }
  }

  lemma CallocKeeps(s: State, n: Word64, size: Word64, start: nat)
    requires Inv(s, start) && Proper(s, DoCalloc(n, size))
    ensures Inv(Step(s, DoCalloc(n, size), start), start)
  {
    assert s.heap.next % 16 == 0;
    hide Inv, Calloc, Malloc, ZeroBytes, Rounded, Product, Step;
    CallocStep(s, n, size, start);
    if Product(n, size).Some? {
      var bytes, o := Product(n, size).value, Calloc(s.heap, n, size);
      CallocZeroes(s.heap, n, size);
      if o.ptr.Some? {
        NewBlockKeeps(s, start, o.heap, o.ptr.value, ZeroBytes(bytes));
      }
    } else {
      CallocRefuses(s.heap, n, size);
    }
  }

  lemma CallocStep(s: State, n: Word64, size: Word64, start: nat)
    requires Inv(s, start) && Proper(s, DoCalloc(n, size))
    ensures var o, t := Calloc(s.heap, n, size), Step(s, DoCalloc(n, size), start);
            t == if o.ptr.None? then s.(heap := o.heap)
              else State(o.heap, s.held[o.ptr.value := ZeroBytes(Product(n, size).value)])
    ensures Product(n, size).None? ==> Calloc(s.heap, n, size).ptr.None?
  {
    hide Inv, Malloc, ZeroBytes, Rounded, Product;
  }

  lemma CallocRefuses(h: Heap, n: Word64, size: Word64)
    requires Sane(h) && Product(n, size).None?
    ensures Calloc(h, n, size) == Outcome(None, h, false)
  {
  }

  /** calloc's block is where malloc's would be, zeroed, with everything below it as it was. */
  lemma CallocZeroes(h: Heap, n: Word64, size: Word64)
    requires Sane(h) && Product(n, size).Some? && Roundable(Product(n, size).value)
    ensures var o, bytes := Calloc(h, n, size), Product(n, size).value;
            var m := Malloc(h, bytes);
            && o.ptr == m.ptr && (o.ptr.None? ==> o.heap == h)
            && (o.ptr.Some? ==>
                  && o.ptr.value == h.next + HEADER && o.heap == m.heap.(mem := o.heap.mem)
                  && m.heap == h.(next := h.next + HEADER + Rounded(bytes), last := Some(h.next),
                                  sizes := h.sizes[h.next := Rounded(bytes)])
                  && o.heap.next % 16 == h.next % 16
                  && bytes <= Rounded(bytes) && o.ptr.value + bytes <= o.heap.next <= |o.heap.mem|
                  && HoldsAt(o.heap.mem, o.ptr.value, ZeroBytes(bytes))
                  && o.heap.mem[..h.next] == h.mem[..h.next])
  {
    var bytes := Product(n, size).value;
    hide Product;
    MallocRoom(h, bytes);
    PayloadHoldsRequest(bytes);
    var o := Calloc(h, n, size);
    if o.ptr.Some? {
      hide Rounded, Overwritten, ZeroBytes;
      SameBelow(h.mem, o.heap.mem, o.ptr.value, 0, h.next);
    }
  }

  /** Giving a block up keeps the rest, as long as it is not the allocator's last. */
  lemma DropKeeps(s: State, start: nat, p: nat)
    requires Inv(s, start) && s.heap.last != Some(p - HEADER)
    ensures Inv(s.(held := s.held - {p}), start)
  {
    hide BlockOk;
  }

  lemma BlocksApart(s: State, start: nat, p: nat, q: nat)
    requires Inv(s, start) && p in s.held && q in s.held && p != q
    ensures BlockOk(s.heap, start, p, s.held[p]) && BlockOk(s.heap, start, q, s.held[q])
    ensures if p < q then Before(s.heap, p, q) else Before(s.heap, q, p)
  {
  }

  /** A block below the one taken back, as the last one is above all others. */
  lemma BelowStaysOk(h: Heap, g: Heap, start: nat, p: nat, q: nat, contents: seq<Byte>)
    requires BlockOk(h, start, q, contents) && p >= HEADER && p - HEADER in h.sizes && p + h.sizes[p - HEADER] == h.next
    requires if p < q then Before(h, p, q) else Before(h, q, p)
    requires g == h.(next := p - HEADER, last := None) && g.next <= h.next
    ensures BlockOk(g, start, q, contents)
  {
  }

  /** Taking the last block back leaves the others below it. */
  lemma TakeBackKeeps(s: State, p: nat, start: nat)
    requires Inv(s, start) && p in s.held && BlockOk(s.heap, start, p, s.held[p]) && s.heap.last == Some(p - HEADER)
    ensures Inv(State(s.heap.(next := p - HEADER, last := None), s.held - {p}), start)
  {
    var n := State(s.heap.(next := p - HEADER, last := None), s.held - {p});
    assert s.heap.next == p + s.heap.sizes[p - HEADER] && p >= start + HEADER && p % 16 == 0;
    hide BlockOk;
    forall q | q in n.held ensures BlockOk(n.heap, start, q, n.held[q]) {
      BlocksApart(s, start, p, q);
      BelowStaysOk(s.heap, n.heap, start, p, q, s.held[q]);
    }
    forall q, r | q in n.held && r in n.held && q < r ensures Before(n.heap, q, r) {
      assert Before(s.heap, q, r);
    }
  }

  lemma FreeStep(s: State, p: nat, start: nat)
    requires Inv(s, start) && p in s.held && p >= HEADER
    ensures Step(s, DoFree(Some(p)), start)
         == State(if s.heap.last == Some(p - HEADER) then s.heap.(next := p - HEADER, last := None) else s.heap,
                  s.held - {p})
  {
    hide Inv;
  }

  lemma FreeKeeps(s: State, p: nat, start: nat)
    requires Inv(s, start) && p in s.held
    ensures Inv(Step(s, DoFree(Some(p)), start), start)
  {
    assert BlockOk(s.heap, start, p, s.held[p]);
    hide Inv, BlockOk, Step;
    FreeStep(s, p, start);
    if s.heap.last == Some(p - HEADER) {
      TakeBackKeeps(s, p, start);
    } else {
      DropKeeps(s, start, p);
    }
  }

  lemma StoreKeeps(s: State, p: nat, offset: nat, value: Byte, start: nat)
    requires Inv(s, start) && p in s.held && offset < |s.held[p]|
    ensures Inv(Step(s, DoStore(p, offset, value), start), start)
  {
    assert BlockOk(s.heap, start, p, s.held[p]);
    StoreStep(s, p, offset, value, start);
    hide HoldsAt, Step, Put;
    var n := Step(s, DoStore(p, offset, value), start);
    forall q | q in n.held ensures BlockOk(n.heap, start, q, n.held[q]) {
      if q == p {
        StoredHere(s.heap.mem, p, s.held[p], offset, value);
      } else {
        BlocksApart(s, start, p, q);
        StoredElsewhere(s.heap.mem, q, s.held[q], p + offset, value);
      }
    }
    forall q, r | q in n.held && r in n.held && q < r ensures Before(n.heap, q, r) {
      assert Before(s.heap, q, r);
    }
  }

  lemma StoreStep(s: State, p: nat, offset: nat, value: Byte, start: nat)
    requires Inv(s, start) && p in s.held && offset < |s.held[p]| && BlockOk(s.heap, start, p, s.held[p])
    ensures Step(s, DoStore(p, offset, value), start)
         == State(s.heap.(mem := Put(s.heap.mem, p + offset, value)), s.held[p := Put(s.held[p], offset, value)])
  {
    hide Inv, Put, HoldsAt;
  }

  lemma StoredHere(mem: seq<Byte>, p: nat, contents: seq<Byte>, offset: nat, value: Byte)
    requires HoldsAt(mem, p, contents) && offset < |contents|
    ensures HoldsAt(Put(mem, p + offset, value), p, Put(contents, offset, value))
  {
    assert mem[p..p + |contents|][offset := value] == mem[p + offset := value][p..p + |contents|];
  }

  lemma StoredElsewhere(mem: seq<Byte>, q: nat, contents: seq<Byte>, at: nat, value: Byte)
    requires HoldsAt(mem, q, contents) && at < |mem| && (at < q || q + |contents| <= at)
    ensures HoldsAt(Put(mem, at, value), q, contents)
  {
    assert mem[at := value][q..q + |contents|] == mem[q..q + |contents|];
  }

  /** A block resized where it is, the last one if it grows. */
  lemma ResizeKeeps(s: State, start: nat, p: nat, h: Heap, contents: seq<Byte>)
    requires Inv(s, start) && p in s.held && Sane(h) && p >= HEADER
    requires h.mem == s.heap.mem && h.end == s.heap.end && h.last == s.heap.last && h.next % 16 == 0
    requires p - HEADER in s.heap.sizes && p - HEADER in h.sizes
             && h.sizes == s.heap.sizes[p - HEADER := h.sizes[p - HEADER]]
    requires h.next >= s.heap.next && h.next + s.heap.sizes[p - HEADER] == s.heap.next + h.sizes[p - HEADER]
    requires h.next != s.heap.next ==> h.last == Some(p - HEADER)
    requires |contents| <= h.sizes[p - HEADER] && HoldsAt(h.mem, p, contents)
    ensures Inv(State(h, s.held[p := contents]), start)
  {
    hide HoldsAt;
    var n := State(h, s.held[p := contents]);
    assert BlockOk(s.heap, start, p, s.held[p]);
    forall q | q in n.held ensures BlockOk(h, start, q, n.held[q]) {
      assert BlockOk(s.heap, start, q, s.held[q]);
    }
    forall q, r | q in n.held && r in n.held && q < r ensures Before(h, q, r) {
      assert Before(s.heap, q, r);
      assert BlockOk(s.heap, start, r, s.held[r]);
    }
  }

  lemma KeptThenThere(h: Heap, p: nat, size: nat, kept: seq<Byte>)
    requires p + size <= |h.mem| && HoldsAt(h.mem, p, kept)
    ensures NewContents(h, p, size, kept) == h.mem[p..p + size] && HoldsAt(h.mem, p, NewContents(h, p, size, kept))
  {
    if |kept| >= size {
      assert kept[..size] == h.mem[p..p + |kept|][..size];
    }
  }

  lemma GrowKeeps(s: State, p: nat, size: Word64, start: nat)
    requires Inv(s, start) && Roundable(size) && p in s.held && BlockOk(s.heap, start, p, s.held[p])
    requires size > s.heap.sizes[p - HEADER] && GrowsInPlace(s.heap, p - HEADER, size)
    requires ReallocAllowed(s.heap, Some(p))
    ensures var h := Realloc(s.heap, Some(p), size).heap;
            p + size <= |h.mem| && Inv(State(h, s.held[p := NewContents(h, p, size, s.held[p])]), start)
  {
    assert s.heap.last == Some(p - HEADER);
    hide NewContents, Rounded, GrowsInPlace, Realloc, ReallocAllowed;
    GrownHeap(s.heap, p, size);
    var h := Realloc(s.heap, Some(p), size).heap;
    KeptThenThere(h, p, size, s.held[p]);
    ResizeKeeps(s, start, p, h, NewContents(h, p, size, s.held[p]));
  }

  lemma GrownHeap(h: Heap, p: nat, size: Word64)
    requires ReallocAllowed(h, Some(p)) && Roundable(size) && size > h.sizes[p - HEADER]
             && GrowsInPlace(h, p - HEADER, size)
    requires p + h.sizes[p - HEADER] == h.next && p % 16 == 0
    ensures var g := Realloc(h, Some(p), size).heap;
            && g == h.(next := p + Rounded(size), sizes := h.sizes[p - HEADER := Rounded(size)])
            && h.next <= g.next && p + size <= g.next <= h.end && g.next % 16 == 0
  {
    PayloadHoldsRequest(size);
    var grown := Rounded(size);
    hide Rounded;
    assert Minus(grown, h.sizes[p - HEADER]) == grown - h.sizes[p - HEADER] && Minus(h.end, h.next) == h.end - h.next;
  }

  lemma ShrinkKeeps(s: State, p: nat, size: Word64, start: nat)
    requires Inv(s, start) && p in s.held && BlockOk(s.heap, start, p, s.held[p])
    requires size <= s.heap.sizes[p - HEADER]
    ensures p + size <= |s.heap.mem| && Inv(State(s.heap, s.held[p := NewContents(s.heap, p, size, s.held[p])]), start)
  {
    hide NewContents;
    KeptThenThere(s.heap, p, size, s.held[p]);
    assert s.heap.sizes == s.heap.sizes[p - HEADER := s.heap.sizes[p - HEADER]];
    ResizeKeeps(s, start, p, s.heap, NewContents(s.heap, p, size, s.held[p]));
  }

  lemma Reheld(held: map<nat, seq<Byte>>, p: nat, contents: seq<Byte>)
    ensures (held - {p})[p := contents] == held[p := contents]
  {
  }

  lemma ReallocKeeps(s: State, p: nat, size: Word64, start: nat)
    requires Inv(s, start) && Roundable(size) && p in s.held
    ensures Inv(Step(s, DoRealloc(Some(p), size), start), start)
  {
    ReallocRoom(s, Some(p), size, start);
    HeldIsThere(s, p, start);
    hide Inv, Rounded, NewContents, Malloc, Step, Realloc, ReallocAllowed, GrowsInPlace, BlockOk;
    if size <= s.heap.sizes[p - HEADER] {
      StayStep(s, p, size, start);
      ShrinkKeeps(s, p, size, start);
    } else if GrowsInPlace(s.heap, p - HEADER, size) {
      StayStep(s, p, size, start);
      GrowKeeps(s, p, size, start);
    } else {
      MoveKeeps(s, p, size, start);
    }
  }

  /** A resized block that stays where it is. */
  lemma StayStep(s: State, p: nat, size: Word64, start: nat)
    requires Inv(s, start) && Roundable(size) && p in s.held && ReallocAllowed(s.heap, Some(p))
    requires size <= s.heap.sizes[p - HEADER] || GrowsInPlace(s.heap, p - HEADER, size)
    ensures var h := Realloc(s.heap, Some(p), size).heap;
            && p + size <= |h.mem| && (size <= s.heap.sizes[p - HEADER] ==> h == s.heap)
            && Step(s, DoRealloc(Some(p), size), start) == State(h, s.held[p := NewContents(h, p, size, s.held[p])])
  {
    hide Inv, Rounded, NewContents, Malloc, GrowsInPlace;
    ReallocRoom(s, Some(p), size, start);
    var h := Realloc(s.heap, Some(p), size).heap;
    Reheld(s.held, p, NewContents(h, p, size, s.held[p]));
  }

  /** The bytes copied to a moved block, and everything below it as it was. */
  lemma MoveCopies(h: Heap, p: nat, size: Word64, kept: seq<Byte>, start: nat)
    requires ReallocAllowed(h, Some(p)) && Roundable(size) && BlockOk(h, start, p, kept)
    requires size > h.sizes[p - HEADER] && !GrowsInPlace(h, p - HEADER, size) && Malloc(h, size).ptr.Some?
    ensures var o := Realloc(h, Some(p), size);
            && o.ptr == Some(h.next + HEADER)
            && o.heap == Malloc(h, size).heap.(mem := o.heap.mem)
            && o.heap.mem[..h.next] == h.mem[..h.next]
            && HoldsAt(o.heap.mem, h.next + HEADER, kept)
  {
    PayloadHoldsRequest(size);
    hide Overwritten, Rounded, HoldsAt, GrowsInPlace;
    var room := h.sizes[p - HEADER];
    CopiedHolds(h.mem, h.next, p, room, kept);
  }

  /** A copy above `next` of a block below it. */
  lemma CopiedHolds(mem: seq<Byte>, next: nat, p: nat, room: nat, kept: seq<Byte>)
    requires p + room <= next && next + HEADER + room <= |mem| && |kept| <= room && HoldsAt(mem, p, kept)
    ensures var n := Overwritten(mem, next + HEADER, mem[p..p + room]);
            HoldsAt(n, next + HEADER, kept) && n[..next] == mem[..next]
  {
    var q, copied := next + HEADER, mem[p..p + room];
    OverwrittenParts(mem, q, copied);
    var n := Overwritten(mem, q, copied);
    hide Overwritten;
    SliceOfSlice(n, q, q + room, q, |kept|);
    SliceOfSlice(mem, p, p + room, p, |kept|);
    SameBelow(mem, n, q, 0, next);
  }

  /** A block that cannot grow where it is moves, with its contents. */
  lemma MoveKeeps(s: State, p: nat, size: Word64, start: nat)
    requires Inv(s, start) && Roundable(size) && p in s.held && BlockOk(s.heap, start, p, s.held[p])
    requires size > s.heap.sizes[p - HEADER] && !GrowsInPlace(s.heap, p - HEADER, size)
    ensures Inv(Step(s, DoRealloc(Some(p), size), start), start)
  {
    ReallocRoom(s, Some(p), size, start);
    hide Inv, GrowsInPlace, ReallocAllowed, BlockOk, Malloc, Rounded, Step;
    if Malloc(s.heap, size).ptr.Some? {
      MovedBlock(s, p, size, start);
    } else {
      MoveFails(s, p, size, start);
    }
  }

  lemma MoveFails(s: State, p: nat, size: Word64, start: nat)
    requires Inv(s, start) && Roundable(size) && p in s.held && ReallocAllowed(s.heap, Some(p))
    requires size > s.heap.sizes[p - HEADER] && !GrowsInPlace(s.heap, p - HEADER, size)
             && Malloc(s.heap, size).ptr.None?
    ensures Step(s, DoRealloc(Some(p), size), start) == s
  {
    hide Inv, GrowsInPlace, Rounded;
    MallocFails(s.heap, size);
    ReallocRoom(s, Some(p), size, start);
  }

  lemma MovedBlock(s: State, p: nat, size: Word64, start: nat)
    requires Inv(s, start) && Roundable(size) && p in s.held && BlockOk(s.heap, start, p, s.held[p])
    requires size > s.heap.sizes[p - HEADER] && !GrowsInPlace(s.heap, p - HEADER, size)
    requires Malloc(s.heap, size).ptr.Some? && ReallocAllowed(s.heap, Some(p))
    ensures Inv(Step(s, DoRealloc(Some(p), size), start), start)
  {
    var o := Realloc(s.heap, Some(p), size);
    var kept, q: nat := s.held[p], s.heap.next + HEADER;
    MoveCopies(s.heap, p, size, kept, start);
    NewBlockShape(s.heap, size);
    MoveStep(s, p, size, start);
    assert s.heap.next % 16 == 0;
    hide Rounded, NewContents, Realloc, Malloc, ReallocAllowed, GrowsInPlace, Minus, Inv, Step, HoldsAt, BlockOk;
    KeptThenThere(o.heap, q, size, kept);
    SwapKeeps(s, start, o.heap, p, q, NewContents(o.heap, q, size, kept));
  }

  /** A new block takes the place of one the program gives up. */
  lemma SwapKeeps(s: State, start: nat, h: Heap, p: nat, q: nat, contents: seq<Byte>)
    requires Inv(s, start) && p != q
    requires Sane(h) && q == s.heap.next + HEADER && h.end == s.heap.end && h.last == Some(s.heap.next)
    requires s.heap.next in h.sizes && h.sizes == s.heap.sizes[s.heap.next := h.sizes[s.heap.next]]
    requires h.next == q + h.sizes[s.heap.next] && h.next % 16 == 0
    requires |contents| <= h.sizes[s.heap.next] && HoldsAt(h.mem, q, contents)
    requires h.mem[..s.heap.next] == s.heap.mem[..s.heap.next]
    ensures Inv(State(h, (s.held - {p})[q := contents]), start)
  {
    NewBlockKeeps(s, start, h, q, contents);
    hide Inv, HoldsAt;
    DropKeeps(State(h, s.held[q := contents]), start, p);
    assert s.held[q := contents] - {p} == (s.held - {p})[q := contents];
  }

  /** The heap after a block is granted. */
  lemma NewBlockShape(h: Heap, size: Word64)
    requires Sane(h) && Roundable(size) && Malloc(h, size).ptr.Some?
    ensures var m := Malloc(h, size).heap;
            && m == h.(next := h.next + HEADER + Rounded(size), last := Some(h.next),
                       sizes := h.sizes[h.next := Rounded(size)])
            && size <= Rounded(size) && m.next % 16 == h.next % 16 && m.next <= |m.mem|
  {
    MallocRoom(h, size);
    hide Rounded;
  }

  lemma MoveStep(s: State, p: nat, size: Word64, start: nat)
    requires Inv(s, start) && Roundable(size) && p in s.held && ReallocAllowed(s.heap, Some(p))
    requires size > s.heap.sizes[p - HEADER] && !GrowsInPlace(s.heap, p - HEADER, size)
             && Malloc(s.heap, size).ptr.Some?
    ensures var o, q := Realloc(s.heap, Some(p), size), s.heap.next + HEADER;
            && o.ptr == Some(q) && q + size <= |o.heap.mem| && p != q
            && Step(s, DoRealloc(Some(p), size), start)
               == State(o.heap, (s.held - {p})[q := NewContents(o.heap, q, size, s.held[p])])
  {
    HeldIsThere(s, p, start);
    assert p <= s.heap.next;
    hide Inv, Rounded, NewContents, GrowsInPlace, HoldsAt, Filled, ReallocAllowed, BlockOk, Malloc, Sane, Realloc;
    ReallocRoom(s, Some(p), size, start);
    MovePlace(s.heap, p, size);
  }

  /** A block that moves goes behind the last one. */
  lemma MovePlace(h: Heap, p: nat, size: Word64)
    requires ReallocAllowed(h, Some(p)) && Malloc(h, size).ptr.Some?
    requires size > h.sizes[p - HEADER] && !GrowsInPlace(h, p - HEADER, size)
    ensures Realloc(h, Some(p), size).ptr == Some(h.next + HEADER)
  {
    NewBlockAt(h, size);
    hide GrowsInPlace, Malloc, Filled;
  }

  lemma NewBlockAt(h: Heap, size: Word64)
    requires Sane(h)
    ensures Malloc(h, size).ptr.Some? ==> Malloc(h, size).ptr == Some(h.next + HEADER)
  {
  }

  lemma StepKeeps(s: State, op: Op, start: nat)
    requires Inv(s, start) && Proper(s, op)
    ensures Inv(Step(s, op, start), start)
  {
    hide Step;
    match op
    case DoMalloc(size) => MallocKeeps(s, size, start);
    case DoCalloc(n, size) => CallocKeeps(s, n, size, start);
    case DoRealloc(ptr, size) =>
      if ptr.Some? {
        ReallocKeeps(s, ptr.value, size, start);
      } else {
        MallocKeeps(s, size, start);
        ReallocNull(s, size, start);
      }
    case DoFree(ptr) =>
      if ptr.Some? {
        FreeKeeps(s, ptr.value, start);
      } else {
        FreeNull(s, start);
      }
    case DoStore(p, offset, value) => StoreKeeps(s, p, offset, value, start);
  }

  lemma ReallocNull(s: State, size: Word64, start: nat)
    requires Inv(s, start) && Roundable(size)
    ensures Step(s, DoRealloc(None, size), start) == Step(s, DoMalloc(size), start)
  {
  }

  lemma FreeNull(s: State, start: nat)
    requires Inv(s, start)
    ensures Step(s, DoFree(None), start) == s
  {
  }

  ghost predicate Run(s: State, ops: seq<Op>, t: State, start: nat)
    requires Inv(s, start)
    decreases |ops|
  {
    if ops == [] then s == t
    else Proper(s, ops[0]) && (StepKeeps(s, ops[0], start); Run(Step(s, ops[0], start), ops[1..], t, start))
  }

  lemma {:induction false} RunKeeps(s: State, ops: seq<Op>, t: State, start: nat)
    requires Inv(s, start) && Run(s, ops, t, start)
    ensures Inv(t, start) && t.heap.end == s.heap.end
    decreases |ops|
  {
    if ops == [] {
    } else {
      StepKeeps(s, ops[0], start);
      EndStays(s, ops[0], start);
      RunKeeps(Step(s, ops[0], start), ops[1..], t, start);
    }
  }

  lemma EndStays(s: State, op: Op, start: nat)
    requires Inv(s, start) && Proper(s, op)
    ensures Step(s, op, start).heap.end == s.heap.end
  {
  }

  /** heap_init gives an empty heap as long as rounding its start up leaves it inside. */
  lemma InitIsEmpty(start: Word64, end: Word64, mem: seq<Byte>)
    requires |mem| == end
    ensures Inv(State(HeapInit(start, end, mem), map[]), start) <==> start + 15 < WORD && Rounded(start) <= end
  {
    PayloadHoldsRequest(start);
  }

  /** After any proper use of a heap: every block held lies inside it with its
      header, aligned, is as big as was asked, and holds what the program last
      put there, whatever was allocated, moved, grown or freed meanwhile; any
      two are disjoint, headers included; and the allocator's last block, when
      it knows one, is held and ends where the free space starts. */
  lemma BlocksAreSeparate(start: Word64, end: Word64, mem: seq<Byte>, ops: seq<Op>, t: State)
    requires |mem| == end && start + 15 < WORD && Rounded(start) <= end
    requires (InitIsEmpty(start, end, mem); Run(State(HeapInit(start, end, mem), map[]), ops, t, start))
    ensures start <= t.heap.next <= end == |t.heap.mem|
    ensures forall p :: p in t.held ==> BlockOk(t.heap, start, p, t.held[p])
    ensures forall p, q :: p in t.held && q in t.held && p != q ==> Separate(t.heap, p, q)
    ensures t.heap.last.Some? ==>
      var l := t.heap.last.value;
      l + HEADER in t.held && l in t.heap.sizes && l + HEADER + t.heap.sizes[l] == t.heap.next
  {
    InitIsEmpty(start, end, mem);
    RunKeeps(State(HeapInit(start, end, mem), map[]), ops, t, start);
    forall p, q | p in t.held && q in t.held && p != q ensures Separate(t.heap, p, q) {
      BlocksApart(t, start, p, q);
    }
    if t.heap.last.Some? {
      HeldIsThere(t, t.heap.last.value + HEADER, start);
    }
  }

  /** What realloc promises: the start of the old contents, in a block of the size asked for. */
  lemma ReallocKeepsContents(s: State, p: nat, size: Word64, start: nat)
    requires Inv(s, start) && Roundable(size) && p in s.held && ReallocAllowed(s.heap, Some(p))
    ensures var o := Realloc(s.heap, Some(p), size);
            var was := s.held[p];
            var kept := if |was| < size then |was| else size;
            match o.ptr
            case None => o.heap == s.heap && size > s.heap.sizes[p - HEADER]
            case Some(q) => q + size <= |o.heap.mem| && HoldsAt(o.heap.mem, q, was[..kept])
  {
    hide Inv, Rounded, Step, GrowsInPlace, Malloc;
    ReallocKeeps(s, p, size, start);
    ReallocStep(s, p, size, start);
    var t := Step(s, DoRealloc(Some(p), size), start);
    var o := Realloc(s.heap, Some(p), size);
    if o.ptr.Some? {
      HeldIsThere(t, o.ptr.value, start);
      hide Realloc, ReallocAllowed, BlockOk;
      var q: nat, was := o.ptr.value, s.held[p];
      var kept := if |was| < size then |was| else size;
      SliceOfSlice(o.heap.mem, q, q + size, q, kept);
    } else {
      MallocFails(s.heap, size);
    }
  }

  lemma MallocFails(h: Heap, size: Word64)
    requires Sane(h)
    ensures Malloc(h, size).ptr.None? ==> Malloc(h, size).heap == h
  {
  }

  lemma HeldIsThere(t: State, q: nat, start: nat)
    requires Inv(t, start) && q in t.held
    ensures BlockOk(t.heap, start, q, t.held[q])
  {
  }

  lemma ReallocStep(s: State, p: nat, size: Word64, start: nat)
    requires Inv(s, start) && Roundable(size) && p in s.held && ReallocAllowed(s.heap, Some(p))
    ensures var o := Realloc(s.heap, Some(p), size);
            var t := Step(s, DoRealloc(Some(p), size), start);
            var was := s.held[p];
            var kept := if |was| < size then |was| else size;
            o.ptr.Some? ==>
              && o.ptr.value in t.held && t.heap == o.heap && |t.held[o.ptr.value]| == size
              && t.held[o.ptr.value][..kept] == was[..kept]
  {
    hide Inv, Rounded, GrowsInPlace, Malloc, ReallocAllowed;
    ReallocRoom(s, Some(p), size, start);
  }

  /** Freeing what was allocated last gives its room back. */
  lemma FreeUndoesMalloc(h: Heap, size: Word64)
    requires Sane(h)
    ensures var o := Malloc(h, size);
            o.ptr.Some? ==> Free(o.heap, o.ptr).next == h.next && Malloc(Free(o.heap, o.ptr), size).ptr == o.ptr
  {
  }

  /** Without the assumption on sizes: a request within 15 bytes of the
      largest size_t is granted, with no room behind it. */
  lemma HugeRequestGetsNothing(h: Heap, size: Word64)
    requires Sane(h) && !Roundable(size) && h.end - h.next >= HEADER
    ensures var o := Malloc(h, size);
            o.ptr.Some? && o.heap.next == o.ptr.value
  {
  }

  /** malloc gives at least the bytes asked for, or nothing, exactly when the size does not wrap. */
  lemma MallocGivesRoomExactly(h: Heap, size: Word64)
    requires Sane(h)
    ensures var o := Malloc(h, size);
            (o.ptr.Some? ==> o.heap.next - o.ptr.value >= size) <==> (Roundable(size) || h.end - h.next < HEADER)
  {
    PayloadHoldsRequest(size);
  }

  /** Whether calloc fills memory past its block: exactly when it grants a product that wraps. */
  lemma CallocOverrunsExactly(h: Heap, n: Word64, size: Word64)
    requires Sane(h)
    ensures Calloc(h, n, size).overrun
        <==> Product(n, size).Some? && !Roundable(Product(n, size).value) && h.end - h.next >= HEADER
  {
    if Product(n, size).Some? {
      var bytes := Product(n, size).value;
      hide Product;
      MallocGivesRoomExactly(h, bytes);
      PayloadHoldsRequest(bytes);
    }
  }

  /** One block of the largest size: granted where a header fits, and zeroed past its end. */
  lemma HugeCallocOverruns(h: Heap)
    requires Sane(h) && h.end - h.next >= HEADER
    ensures Calloc(h, 1, WORD - 1).overrun
  {
    ProductIsExact(1, WORD - 1);
    CallocOverrunsExactly(h, 1, WORD - 1);
  }

  /** Whether realloc copies past its block: exactly when the size wraps and a block with contents moves. */
  lemma ReallocOverrunsExactly(h: Heap, p: nat, size: Word64)
    requires ReallocAllowed(h, Some(p)) && size > h.sizes[p - HEADER]
    ensures Realloc(h, Some(p), size).overrun
        <==> !Roundable(size) && h.sizes[p - HEADER] > 0 && h.end - h.next >= HEADER
  {
    var room := h.sizes[p - HEADER];
    PayloadHoldsRequest(size);
    assert !Roundable(size) ==> Rounded(size) == 0;
    hide Rounded;
    assert Minus(h.end, h.next) == h.end - h.next;
    assert !Roundable(size) && room > 0 ==> Minus(Rounded(size), room) == WORD - room > h.end - h.next;
  }

  /** A block without room that is asked to grow to a size that wraps is returned as it is. */
  lemma HugeReallocGetsNothing(h: Heap, p: nat, size: Word64)
    requires ReallocAllowed(h, Some(p)) && h.last == Some(p - HEADER) && h.sizes[p - HEADER] == 0 && !Roundable(size)
    ensures Realloc(h, Some(p), size) == Outcome(Some(p), h.(sizes := h.sizes[p - HEADER := 0]), false)
  {
    PayloadHoldsRequest(size);
  }

  lemma OldBlockFits(h: Heap, ptr: Option<nat>)
    requires ReallocAllowed(h, ptr) && ptr.Some?
    ensures ptr.value + h.sizes[ptr.value - HEADER] <= |h.mem|
  {
  }

  // ----- the allocator

  class Allocator {
    var next: nat
    var end: nat
    var last: Option<nat>
    var sizes: map<nat, nat>
    const memory: array<Byte>

    function State(): Heap
      reads this, memory
    {
      Heap(next, end, last, sizes, memory[..])
    }

    constructor (memory: array<Byte>, start: Word64, end: Word64)
      ensures State() == HeapInit(start, end, memory[..]) && this.memory == memory
    {
      this.memory := memory;
      next, this.end, last, sizes := Rounded(start), end, None, map[];
    }

    method Allocate(size: Word64) returns (p: Option<nat>)
      requires Sane(State())
      modifies `next, `last, `sizes
      ensures Outcome(p, State(), false) == Malloc(old(State()), size)
    {
      var rounded := Rounded(size);
      var avail := Minus(end, next);
      if avail < HEADER || rounded > avail - HEADER {
        return None;
      }
      var b := next;
      sizes := sizes[b := rounded];
      next := next + HEADER + rounded;
      last := Some(b);
      p := Some(b + HEADER);
    }

    method Release(p: Option<nat>)
      requires Sane(State())
      modifies `next, `last
      ensures State() == Free(old(State()), p)
    {
      if p.Some? && last.Some? && p.value == last.value + HEADER {
        next := last.value;
        last := None;
      }
    }

    /** memset or memcpy: byte by byte, to a place clear of where the bytes come from. */
    method Fill(at: nat, bytes: seq<Byte>)
      requires at + |bytes| <= memory.Length
      modifies memory
      ensures memory[..] == Overwritten(old(memory[..]), at, bytes)
    {
      ghost var was := memory[..];
      for k := 0 to |bytes|
        invariant forall i :: at <= i < at + k ==> memory[i] == bytes[i - at]
        invariant forall i :: 0 <= i < |was| && !(at <= i < at + k) ==> memory[i] == was[i]
      {
        memory[at + k] := bytes[k];
      }
    }

    /** Fills the block just got, unless that runs past it. */
    method FillNew(at: nat, bytes: seq<Byte>) returns (overrun: bool)
      requires Sane(State())
      modifies memory
      ensures Outcome(Some(at), State(), overrun) == Filled(Outcome(Some(at), old(State()), false), bytes)
    {
      overrun := at + |bytes| > next;
      if !overrun {
        Fill(at, bytes);
      }
    }

    method AllocateZeroed(n: Word64, size: Word64) returns (p: Option<nat>, overrun: bool)
      requires Sane(State())
      modifies `next, `last, `sizes, memory
      ensures Outcome(p, State(), overrun) == Calloc(old(State()), n, size)
    {
      overrun := false;
      ProductIsExact(n, size);
      if size != 0 && n > (WORD - 1) / size {
        return None, false;
      }
      hide Malloc, Filled, ZeroBytes;
      p := Allocate(n * size);
      if p.Some? {
        overrun := FillNew(p.value, ZeroBytes(n * size));
      }
    }

    method Reallocate(ptr: Option<nat>, size: Word64) returns (p: Option<nat>, overrun: bool)
      requires ReallocAllowed(State(), ptr)
      modifies `next, `last, `sizes, memory
      ensures Outcome(p, State(), overrun) == Realloc(old(State()), ptr, size)
    {
      hide Rounded, Malloc, Filled, Minus, Sane;
      overrun := false;
      if ptr.None? {
        p := Allocate(size);
        return;
      }
      var b := ptr.value - HEADER;
      if size <= sizes[b] {
        return ptr, false;
      }
      var grown := Rounded(size);
      if last == Some(b) && Minus(grown, sizes[b]) <= Minus(end, next) {
        next := next + Minus(grown, sizes[b]);
        sizes := sizes[b := grown];
        return ptr, false;
      }
      assert ptr.value + sizes[b] <= memory.Length by { OldBlockFits(State(), ptr); }
      var copied := memory[ptr.value..ptr.value + sizes[b]];
      p := Allocate(size);
      if p.Some? {
        overrun := FillNew(p.value, copied);
      }
    }
  }
}
