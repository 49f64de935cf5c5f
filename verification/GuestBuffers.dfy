/** The device-writable buffers of a descriptor chain: stretches of guest
    memory that together take one byte string, wherever it is cut. */
module GuestBuffers {
  import opened Common

  datatype Segment = Segment(addr: nat, len: nat)

  predicate Within(g: Segment, size: nat) { g.addr + g.len <= size }

  predicate AllWithin(segs: seq<Segment>, size: nat) {
    forall k :: 0 <= k < |segs| ==> Within(segs[k], size)
  }

  predicate Holds(g: Segment, a: int) { g.addr <= a < g.addr + g.len }

  predicate Apart(g: Segment, h: Segment) { g.addr + g.len <= h.addr || h.addr + h.len <= g.addr }

  predicate Disjoint(segs: seq<Segment>) {
    forall i, j :: 0 <= i < j < |segs| ==> Apart(segs[i], segs[j])
  }

  function Total(segs: seq<Segment>): nat {
    if segs == [] then 0 else Total(segs[..|segs| - 1]) + segs[|segs| - 1].len
  }

  /** The bytes the buffers hold, in order. */
  function Gather(mem: seq<Byte>, segs: seq<Segment>): (b: seq<Byte>)
    requires AllWithin(segs, |mem|)
    ensures |b| == Total(segs)
  {
    if segs == [] then []
    else
      var last := segs[|segs| - 1];
      Gather(mem, segs[..|segs| - 1]) + mem[last.addr..last.addr + last.len]
  }

  predicate InSome(segs: seq<Segment>, a: int) { exists k :: 0 <= k < |segs| && Holds(segs[k], a) }

  /** Only the bytes inside the buffers matter. */
  lemma {:induction false} GatherFrame(m: seq<Byte>, n: seq<Byte>, segs: seq<Segment>)
    requires |m| == |n| && AllWithin(segs, |m|)
    requires forall a :: 0 <= a < |m| && InSome(segs, a) ==> m[a] == n[a]
    ensures Gather(m, segs) == Gather(n, segs)
  {
    if segs == [] {
    } else {
      var front, last := segs[..|segs| - 1], segs[|segs| - 1];
      forall a | 0 <= a < |m| && InSome(front, a) ensures m[a] == n[a] {
        var k :| 0 <= k < |front| && Holds(front[k], a);
        assert Holds(segs[k], a);
      }
      GatherFrame(m, n, front);
      forall a | last.addr <= a < last.addr + last.len ensures m[a] == n[a] {
        assert Holds(segs[|segs| - 1], a);
      }
      assert m[last.addr..last.addr + last.len] == n[last.addr..last.addr + last.len];
    }
  }

  lemma {:induction false} TotalFront(segs: seq<Segment>, i: nat)
    requires i <= |segs|
    ensures Total(segs[..i]) <= Total(segs)
  {
    if i < |segs| {
      assert segs[..|segs| - 1][..i] == segs[..i];
      TotalFront(segs[..|segs| - 1], i);
    } else {
      assert segs[..i] == segs;
    }
  }

  /** Bytes put at the start of one buffer. */
  method CopyIn(mem: array<Byte>, g: Segment, bytes: seq<Byte>)
    requires Within(g, mem.Length) && |bytes| <= g.len
    modifies mem
    ensures mem[..] == Overwritten(old(mem[..]), g.addr, bytes)
  {
    ghost var was := mem[..];
    for k := 0 to |bytes|
      invariant mem.Length == |was|
      invariant forall i :: g.addr <= i < g.addr + k ==> mem[i] == bytes[i - g.addr]
      invariant forall i :: 0 <= i < |was| && !(g.addr <= i < g.addr + k) ==> mem[i] == was[i]
    {
      mem[g.addr + k] := bytes[k];
    }
  }

  // ----- data poured into buffers one after the other, overlapping or not

  function Min(a: nat, b: nat): nat { if a < b then a else b }

  /** Memory after `data` went into the buffers in order, each taking what is left up to its size. */
  function Poured(m: seq<Byte>, segs: seq<Segment>, data: seq<Byte>): (n: seq<Byte>)
    requires AllWithin(segs, |m|) && |data| <= Total(segs)
    ensures |n| == |m|
    decreases |segs|
  {
    if segs == [] then m
    else
      var front, g := segs[..|segs| - 1], segs[|segs| - 1];
      var k := Min(|data|, Total(front));
      Overwritten(Poured(m, front, data[..k]), g.addr, data[k..])
  }

  lemma {:induction false} PouringNothing(m: seq<Byte>, segs: seq<Segment>)
    requires AllWithin(segs, |m|)
    ensures Poured(m, segs, []) == m
    decreases |segs|
  {
    if segs == [] {
    } else {
      PouringNothing(m, segs[..|segs| - 1]);
    }
  }

  /** Buffers that nothing is left for change nothing. */
  lemma {:induction false} PouringStops(m: seq<Byte>, segs: seq<Segment>, i: nat, data: seq<Byte>)
    requires AllWithin(segs, |m|) && i <= |segs| && |data| <= Total(segs[..i])
    ensures |data| <= Total(segs) && Poured(m, segs, data) == Poured(m, segs[..i], data)
    decreases |segs|
  {
    TotalFront(segs, i);
    if i == |segs| {
      assert segs[..i] == segs;
    } else {
      var front := segs[..|segs| - 1];
      assert front[..i] == segs[..i];
      TotalFront(front, i);
      PouringStops(m, front, i, data);
      assert data[..|data|] == data;
    }
  }

  lemma PourLast(m: seq<Byte>, segs: seq<Segment>, data: seq<Byte>)
    requires segs != [] && AllWithin(segs, |m|) && |data| <= Total(segs)
    ensures var front := segs[..|segs| - 1];
            var k := Min(|data|, Total(front));
            Poured(m, segs, data) == Overwritten(Poured(m, front, data[..k]), segs[|segs| - 1].addr, data[k..])
  {
  }

  /** One more buffer takes its part. */
  lemma PourStep(m: seq<Byte>, segs: seq<Segment>, i: nat, before: seq<Byte>, part: seq<Byte>)
    requires AllWithin(segs, |m|) && i < |segs| && |before| == Total(segs[..i]) && |part| <= segs[i].len
    ensures |before + part| <= Total(segs[..i + 1])
    ensures Poured(m, segs[..i + 1], before + part) == Overwritten(Poured(m, segs[..i], before), segs[i].addr, part)
  {
    var upto, data := segs[..i + 1], before + part;
    assert upto[..i] == segs[..i] && upto[i] == segs[i];
    assert Total(upto) == Total(segs[..i]) + segs[i].len;
    hide Poured, Overwritten, Total;
    assert data[..|before|] == before && data[|before|..] == part;
    PourLast(m, upto, data);
  }

  /** One buffer takes its part of what is poured. */
  method PourOne(mem: array<Byte>, segs: seq<Segment>, i: nat, ghost was: seq<Byte>, ghost before: seq<Byte>,
                 part: seq<Byte>)
    requires i < |segs| && |was| == mem.Length && AllWithin(segs, |was|) && AllWithin(segs[..i], |was|)
    requires |before| == Total(segs[..i]) && |part| <= segs[i].len
    requires mem[..] == Poured(was, segs[..i], before)
    modifies mem
    ensures Total(segs[..i + 1]) == Total(segs[..i]) + segs[i].len && AllWithin(segs[..i + 1], |was|)
    ensures mem[..] == Poured(was, segs[..i + 1], before + part)
  {
    StepFits(segs, i, |was|);
    hide Poured, Total, Overwritten, AllWithin;
    PourStep(was, segs, i, before, part);
    CopyIn(mem, segs[i], part);
  }

  lemma StepFits(segs: seq<Segment>, i: nat, size: nat)
    requires i < |segs| && AllWithin(segs, size)
    ensures Total(segs[..i + 1]) == Total(segs[..i]) + segs[i].len
    ensures AllWithin(segs[..i + 1], size) && Within(segs[i], size)
  {
    assert segs[..i + 1][..i] == segs[..i];
  }

  /** `m` became `n` by filling the buffers, in order, with `data`; what data
      does not reach, and the rest of memory, stay. */
  ghost predicate Filled(m: seq<Byte>, n: seq<Byte>, segs: seq<Segment>, data: seq<Byte>)
    requires AllWithin(segs, |m|)
  {
    && |n| == |m| && |data| <= Total(segs)
    && Gather(n, segs) == data + Gather(m, segs)[|data|..]
    && forall a :: 0 <= a < |m| && !InSome(segs, a) ==> n[a] == m[a]
  }

  lemma InSomeLast(segs: seq<Segment>, a: int)
    requires |segs| > 0
    ensures InSome(segs, a) <==> InSome(segs[..|segs| - 1], a) || Holds(segs[|segs| - 1], a)
  {
    var front := segs[..|segs| - 1];
    if InSome(front, a) {
      var k :| 0 <= k < |front| && Holds(front[k], a);
      assert Holds(segs[k], a);
    }
    if InSome(segs, a) {
      var k :| 0 <= k < |segs| && Holds(segs[k], a);
      assert k < |front| ==> Holds(front[k], a);
    }
  }

  lemma LastIsApart(segs: seq<Segment>, a: int)
    requires |segs| > 0 && Disjoint(segs) && InSome(segs[..|segs| - 1], a)
    ensures !Holds(segs[|segs| - 1], a)
  {
    var front := segs[..|segs| - 1];
    var k :| 0 <= k < |front| && Holds(front[k], a);
    assert Apart(segs[k], segs[|segs| - 1]);
  }

  lemma LastIsOutside(segs: seq<Segment>, a: int)
    requires |segs| > 0 && Disjoint(segs) && Holds(segs[|segs| - 1], a)
    ensures !InSome(segs[..|segs| - 1], a)
  {
    forall k | 0 <= k < |segs| - 1 ensures !Holds(segs[k], a) {
      assert Apart(segs[k], segs[|segs| - 1]);
    }
  }

  /** The last buffer's own bytes before and after `bytes` went to its start. */
  lemma LastBuffer(m: seq<Byte>, n: seq<Byte>, p: seq<Byte>, g: Segment, bytes: seq<Byte>)
    requires |m| == |n| && Within(g, |m|) && |bytes| <= g.len
    requires p == n[..g.addr] + bytes + n[g.addr + |bytes|..]
    requires forall a :: g.addr <= a < g.addr + g.len ==> n[a] == m[a]
    ensures |p| == |m|
    ensures p[g.addr..g.addr + g.len] == bytes + m[g.addr..g.addr + g.len][|bytes|..]
    ensures forall a :: 0 <= a < |m| && !Holds(g, a) ==> p[a] == n[a]
  {
  }

  /** Filling one more buffer that lies apart from those before it. */
  lemma FillStep(m: seq<Byte>, n: seq<Byte>, p: seq<Byte>, segs: seq<Segment>, data: seq<Byte>, bytes: seq<Byte>)
    requires |segs| > 0 && AllWithin(segs, |m|) && Disjoint(segs)
    requires Filled(m, n, segs[..|segs| - 1], data) && |data| == Total(segs[..|segs| - 1])
    requires var g := segs[|segs| - 1];
             |bytes| <= g.len && p == Overwritten(n, g.addr, bytes)
    ensures Filled(m, p, segs, data + bytes)
  {
    hide InSome, Disjoint;
    var front, g := segs[..|segs| - 1], segs[|segs| - 1];
    forall a | g.addr <= a < g.addr + g.len ensures n[a] == m[a] {
      if InSome(front, a) {
        LastIsApart(segs, a);
      }
    }
    LastBuffer(m, n, p, g, bytes);
    forall a | 0 <= a < |m| && InSome(front, a) ensures n[a] == p[a] {
      LastIsApart(segs, a);
    }
    GatherFrame(n, p, front);
    forall a | 0 <= a < |m| && !InSome(segs, a) ensures p[a] == m[a] {
      InSomeLast(segs, a);
    }
    assert Gather(n, front) == data;
    var before, after := m[g.addr..g.addr + g.len], p[g.addr..g.addr + g.len];
    assert Gather(p, segs) == data + after;
    assert Gather(m, segs) == Gather(m, front) + before;
    assert Gather(m, segs)[|data + bytes|..] == before[|bytes|..];
  }

  lemma AddUntouched(m: seq<Byte>, n: seq<Byte>, all: seq<Segment>, data: seq<Byte>)
    requires |all| > 0 && AllWithin(all, |m|) && Disjoint(all) && Filled(m, n, all[..|all| - 1], data)
    ensures Filled(m, n, all, data)
  {
    hide InSome, Disjoint;
    var g := all[|all| - 1];
    forall a | g.addr <= a < g.addr + g.len ensures n[a] == m[a] {
      if InSome(all[..|all| - 1], a) {
        LastIsApart(all, a);
      }
    }
    var front, kept := all[..|all| - 1], m[g.addr..g.addr + g.len];
    assert n[g.addr..g.addr + g.len] == kept;
    assert Gather(n, all) == Gather(n, front) + kept && Gather(m, all) == Gather(m, front) + kept;
    assert Total(all) == Total(front) + g.len;
    hide Gather, Total;
    assert (Gather(m, front) + kept)[|data|..] == Gather(m, front)[|data|..] + kept;
    forall a | 0 <= a < |m| && !InSome(all, a) ensures n[a] == m[a] {
      InSomeLast(all, a);
    }
  }

  lemma FrontOk(segs: seq<Segment>, i: nat, size: nat)
    requires i <= |segs| && AllWithin(segs, size) && Disjoint(segs)
    ensures AllWithin(segs[..i], size) && Disjoint(segs[..i])
  {
  }

  /** Poured into buffers that do not overlap, data fills them. */
  lemma {:induction false} PouringFills(m: seq<Byte>, segs: seq<Segment>, data: seq<Byte>)
    requires AllWithin(segs, |m|) && Disjoint(segs) && |data| <= Total(segs)
    ensures Filled(m, Poured(m, segs, data), segs, data)
    decreases |segs|
  {
    if segs == [] {
      assert data == [] && Filled(m, m, segs, data);
    } else {
      var k := Min(|data|, Total(segs[..|segs| - 1]));
      hide Filled, Disjoint, Poured;
      FrontOk(segs, |segs| - 1, |m|);
      PouringFills(m, segs[..|segs| - 1], data[..k]);
      PourLast(m, segs, data);
      FillLast(m, Poured(m, segs[..|segs| - 1], data[..k]), segs, data, k);
    }
  }

  lemma FillLast(m: seq<Byte>, n: seq<Byte>, segs: seq<Segment>, data: seq<Byte>, k: nat)
    requires segs != [] && AllWithin(segs, |m|) && Disjoint(segs) && |data| <= Total(segs)
    requires k == Min(|data|, Total(segs[..|segs| - 1])) && |n| == |m| && Filled(m, n, segs[..|segs| - 1], data[..k])
    ensures Filled(m, Overwritten(n, segs[|segs| - 1].addr, data[k..]), segs, data)
  {
    hide Filled, Disjoint, Overwritten, Gather, InSome;
    var g := segs[|segs| - 1];
    if k == Total(segs[..|segs| - 1]) {
      FillStep(m, n, Overwritten(n, g.addr, data[k..]), segs, data[..k], data[k..]);
      assert data[..k] + data[k..] == data;
    } else {
      assert data[..k] == data && data[k..] == [];
      OverwritingNothing(n, g.addr);
      AddUntouched(m, n, segs, data);
    }
  }

  /** A received frame goes into the buffers of its chain; returns how much of it fitted. */
  method Scatter(mem: array<Byte>, segs: seq<Segment>, frame: seq<Byte>) returns (copied: nat)
    requires AllWithin(segs, mem.Length)
    modifies mem
    ensures copied == Min(|frame|, Total(segs))
    ensures mem[..] == Poured(old(mem[..]), segs, frame[..copied])
    ensures Disjoint(segs) ==> Filled(old(mem[..]), mem[..], segs, frame[..copied])
  {
    ghost var was := mem[..];
    hide Filled, Disjoint, Poured, Total, AllWithin;
    copied := 0;
    var i := 0;
    NoBuffers(was, segs);
    while i < |segs| && copied != |frame|
      invariant i <= |segs| && copied <= |frame| && mem.Length == |was|
      invariant AllWithin(segs[..i], |was|)
      invariant copied == |frame| <= Total(segs[..i]) || copied == Total(segs[..i])
      invariant mem[..] == Poured(was, segs[..i], frame[..copied])
    {
      var now := copied + Min(segs[i].len, |frame| - copied);
      PourOne(mem, segs, i, was, frame[..copied], frame[copied..now]);
      assert frame[..copied] + frame[copied..now] == frame[..now];
      copied, i := now, i + 1;
    }
    PouringStops(was, segs, i, frame[..copied]);
    assert i == |segs| ==> segs[..i] == segs;
    if Disjoint(segs) {
      PouringFills(was, segs, frame[..copied]);
    }
  }

  lemma NoBuffers(m: seq<Byte>, segs: seq<Segment>)
    ensures AllWithin(segs[..0], |m|) && Total(segs[..0]) == 0 && Poured(m, segs[..0], []) == m
  {
  }
}
