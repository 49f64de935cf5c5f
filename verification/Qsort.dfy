/** The guest's qsort: a Shell sort that swaps elements byte by byte. */
module Qsort {
  import opened Common
  import Arith

  type Bytes = seq<Byte>
  type Comparator = (Bytes, Bytes) -> int

  /** What a comparator promises: any two elements compare, and the order is transitive. */
  ghost predicate TotalPreorder(cmp: Comparator) {
    && (forall x: Bytes, y: Bytes :: cmp(x, y) > 0 ==> cmp(y, x) <= 0)
    && (forall x: Bytes, y: Bytes, z: Bytes :: cmp(x, y) <= 0 && cmp(y, z) <= 0 ==> cmp(x, z) <= 0)
    && (forall x: Bytes :: cmp(x, x) <= 0)
  }

  // ----- elements in memory

  function Start(i: nat, size: nat): nat { i * size }

  lemma ElementsInOrder(i: nat, j: nat, size: nat)
    ensures i < j ==> Start(i, size) + size <= Start(j, size)
    ensures i <= j ==> Start(i, size) <= Start(j, size)
  {
    if i < j {
      if size > 0 {
        Arith.MulAtLeast(j - i, size);
      }
      assert (j - i) * size == j * size - i * size;
    }
  }

  /** The `n` elements of `size` bytes at the start of memory. */
  function Elements(s: Bytes, n: nat, size: nat): (c: seq<Bytes>)
    requires Start(n, size) <= |s|
    ensures |c| == n
  {
    seq(n, i requires 0 <= i < n => ElementsInOrder(i, n, size); s[Start(i, size)..Start(i, size) + size])
  }

  function Exchanged<T>(c: seq<T>, i: nat, j: nat): (d: seq<T>)
    requires i < |c| && j < |c|
    ensures |d| == |c|
  {
    c[i := c[j]][j := c[i]]
  }

  /** Memory `t` is memory `s` with two ranges of `size` bytes exchanged. */
  ghost predicate RangesExchanged(s: Bytes, t: Bytes, x: nat, y: nat, size: nat)
    requires x + size <= y && y + size <= |s|
  {
    && |t| == |s|
    && t[x..x + size] == s[y..y + size] && t[y..y + size] == s[x..x + size]
    && t[..x] == s[..x] && t[x + size..y] == s[x + size..y] && t[y + size..] == s[y + size..]
  }

  /** A range clear of both exchanged ones is untouched. */
  lemma ElsewhereUntouched(s: Bytes, t: Bytes, x: nat, y: nat, size: nat, z: nat)
    requires x + size <= y && y + size <= |s| && RangesExchanged(s, t, x, y, size) && z + size <= |s|
    requires z + size <= x || (x + size <= z && z + size <= y) || y + size <= z
    ensures t[z..z + size] == s[z..z + size]
  {
    if z + size <= x {
      SliceOfSlice(s, 0, x, z, size);
      SliceOfSlice(t, 0, x, z, size);
    } else if x + size <= z && z + size <= y {
      SliceOfSlice(s, x + size, y, z, size);
      SliceOfSlice(t, x + size, y, z, size);
    } else {
      SliceOfSlice(s, y + size, |s|, z, size);
      SliceOfSlice(t, y + size, |s|, z, size);
    }
  }

  lemma ExchangedElements(s: Bytes, t: Bytes, n: nat, size: nat, i: nat, j: nat)
    requires i < j < n && Start(n, size) <= |s|
    requires Start(i, size) + size <= Start(j, size) && Start(j, size) + size <= |s|
    requires RangesExchanged(s, t, Start(i, size), Start(j, size), size)
    ensures Elements(t, n, size) == Exchanged(Elements(s, n, size), i, j)
  {
    hide Start;
    forall m | 0 <= m < n ensures Elements(t, n, size)[m] == Exchanged(Elements(s, n, size), i, j)[m] {
      ElementsInOrder(m, n, size);
      if m != i && m != j {
        ElementsInOrder(m, i, size);
        ElementsInOrder(i, m, size);
        ElementsInOrder(m, j, size);
        ElementsInOrder(j, m, size);
        ElsewhereUntouched(s, t, Start(i, size), Start(j, size), size, Start(m, size));
      }
    }
  }

  // ----- order

  /** Elements `gap` apart, up to `end`, are in order; `except` may be smaller than the one before it. */
  ghost predicate GapSorted(cmp: Comparator, c: seq<Bytes>, gap: nat, end: nat, except: nat)
    requires end <= |c| && gap > 0
  {
    forall k :: gap <= k < end && k != except ==> cmp(c[k - gap], c[k]) <= 0
  }

  ghost predicate Sorted(cmp: Comparator, c: seq<Bytes>) {
    forall i, j :: 0 <= i <= j < |c| ==> cmp(c[i], c[j]) <= 0
  }

  lemma {:induction false} NeighboursSort(cmp: Comparator, c: seq<Bytes>, i: nat, j: nat)
    requires TotalPreorder(cmp) && GapSorted(cmp, c, 1, |c|, |c|) && i <= j < |c|
    ensures cmp(c[i], c[j]) <= 0
    decreases j - i
  {
    if i < j {
      NeighboursSort(cmp, c, i, j - 1);
      assert cmp(c[j - 1], c[j]) <= 0;
    }
  }

  /** Gap 1 is the whole order. */
  lemma GapOneSorts(cmp: Comparator, c: seq<Bytes>)
    requires TotalPreorder(cmp)
    ensures GapSorted(cmp, c, 1, |c|, |c|) <==> Sorted(cmp, c)
  {
    if GapSorted(cmp, c, 1, |c|, |c|) {
      forall i, j | 0 <= i <= j < |c| ensures cmp(c[i], c[j]) <= 0 {
        NeighboursSort(cmp, c, i, j);
      }
    }
  }

  /** An element being inserted: only it may be out of order, and the elements on either side of it are in order. */
  ghost predicate Inserting(cmp: Comparator, c: seq<Bytes>, gap: nat, i: nat, j: nat)
    requires gap > 0
  {
    && j <= i < |c|
    && GapSorted(cmp, c, gap, i + 1, j)
    && (j >= gap && j + gap <= i ==> cmp(c[j - gap], c[j + gap]) <= 0)
  }

  /** One exchange moves it down and keeps all that. */
  lemma ExchangeInserts(cmp: Comparator, c: seq<Bytes>, gap: nat, i: nat, j: nat)
    requires TotalPreorder(cmp) && gap > 0 && Inserting(cmp, c, gap, i, j)
    requires j >= gap && cmp(c[j - gap], c[j]) > 0
    ensures Inserting(cmp, Exchanged(c, j - gap, j), gap, i, j - gap)
  {
    var d := Exchanged(c, j - gap, j);
    forall k | gap <= k < i + 1 && k != j - gap ensures cmp(d[k - gap], d[k]) <= 0 {
      if k != j && k != j + gap {
        assert d[k - gap] == c[k - gap] && d[k] == c[k];
      }
    }
    if j - gap >= gap {
      assert cmp(c[j - gap - gap], c[j - gap]) <= 0;
    }
  }

  lemma ExchangePermutes<T>(c: seq<T>, i: nat, j: nat)
    requires i < j < |c|
    ensures multiset(Exchanged(c, i, j)) == multiset(c)
  {
  }

  // ----- the sort

  method SwapBytes(a: array<Byte>, x: nat, y: nat, size: nat)
    requires x + size <= y && y + size <= a.Length
    modifies a
    ensures RangesExchanged(old(a[..]), a[..], x, y, size)
  {
    for k := 0 to size
      invariant forall p :: x <= p < x + k ==> a[p] == old(a[y + (p - x)])
      invariant forall p :: y <= p < y + k ==> a[p] == old(a[x + (p - y)])
      invariant forall p :: 0 <= p < a.Length && !(x <= p < x + k) && !(y <= p < y + k) ==> a[p] == old(a[p])
    {
      var t := a[x + k];
      a[x + k] := a[y + k];
      a[y + k] := t;
    }
    ghost var s, r := old(a[..]), a[..];
    assert r[x..x + size] == s[y..y + size] && r[y..y + size] == s[x..x + size];
  }

  method SwapElements(a: array<Byte>, n: nat, size: nat, i: nat, j: nat)
    requires i < j < n && Start(n, size) <= a.Length
    modifies a
    ensures Elements(a[..], n, size) == old(Exchanged(Elements(a[..], n, size), i, j))
    ensures a[Start(n, size)..] == old(a[Start(n, size)..])
  {
    hide Elements;
    ElementsInOrder(i, j, size);
    ElementsInOrder(j, n, size);
    hide Start;
    SwapBytes(a, Start(i, size), Start(j, size), size);
    ExchangedElements(old(a[..]), a[..], n, size, i, j);
    ghost var s, r, y := old(a[..]), a[..], Start(j, size) + size;
    assert r[Start(n, size)..] == r[y..][Start(n, size) - y..];
    assert s[Start(n, size)..] == s[y..][Start(n, size) - y..];
  }

  method Compare(cmp: Comparator, a: array<Byte>, n: nat, size: nat, i: nat, j: nat) returns (r: int)
    requires i < n && j < n && Start(n, size) <= a.Length
    ensures r == cmp(Elements(a[..], n, size)[i], Elements(a[..], n, size)[j])
  {
    ElementsInOrder(i, n, size);
    ElementsInOrder(j, n, size);
    hide Start;
    r := cmp(a[Start(i, size)..Start(i, size) + size], a[Start(j, size)..Start(j, size) + size]);
  }

  /** Moves element `i` down among those `gap` apart. */
  method Insert(cmp: Comparator, a: array<Byte>, n: nat, size: nat, gap: nat, i: nat)
    requires TotalPreorder(cmp) && Start(n, size) <= a.Length && 0 < gap <= i < n
    requires GapSorted(cmp, Elements(a[..], n, size), gap, i, n)
    modifies a
    ensures GapSorted(cmp, Elements(a[..], n, size), gap, i + 1, n)
    ensures multiset(Elements(a[..], n, size)) == old(multiset(Elements(a[..], n, size)))
    ensures a[Start(n, size)..] == old(a[Start(n, size)..])
  {
    hide TotalPreorder, Elements, Start;
    var j: nat := i;
    while j >= gap
      invariant Inserting(cmp, Elements(a[..], n, size), gap, i, j)
      invariant multiset(Elements(a[..], n, size)) == old(multiset(Elements(a[..], n, size)))
      invariant a[Start(n, size)..] == old(a[Start(n, size)..])
    {
      var order := Compare(cmp, a, n, size, j - gap, j);
      if order <= 0 {
        break;
      }
      ExchangeInserts(cmp, Elements(a[..], n, size), gap, i, j);
      ExchangePermutes(Elements(a[..], n, size), j - gap, j);
      SwapElements(a, n, size, j - gap, j);
      j := j - gap;
    }
  }

  /** For any element count and size, any contents and any total preorder:
      afterwards the elements are in order and the same ones, and what follows them is untouched. */
  method Sort(a: array<Byte>, n: nat, size: nat, cmp: Comparator)
    requires TotalPreorder(cmp) && Start(n, size) <= a.Length
    modifies a
    ensures Sorted(cmp, Elements(a[..], n, size))
    ensures multiset(Elements(a[..], n, size)) == old(multiset(Elements(a[..], n, size)))
    ensures a[Start(n, size)..] == old(a[Start(n, size)..])
  {
    hide Elements, Start, TotalPreorder, GapSorted;
    var gap: nat := n / 2;
    while gap > 0
      invariant gap == 0 ==> n <= 1 || GapSorted(cmp, Elements(a[..], n, size), 1, n, n)
      invariant multiset(Elements(a[..], n, size)) == old(multiset(Elements(a[..], n, size)))
      invariant a[Start(n, size)..] == old(a[Start(n, size)..])
    {
      FirstGap(cmp, Elements(a[..], n, size), gap);
      for i := gap to n
        invariant GapSorted(cmp, Elements(a[..], n, size), gap, i, n)
        invariant multiset(Elements(a[..], n, size)) == old(multiset(Elements(a[..], n, size)))
        invariant a[Start(n, size)..] == old(a[Start(n, size)..])
      {
        Insert(cmp, a, n, size, gap, i);
      }
      gap := gap / 2;
    }
    FewAreSorted(cmp, Elements(a[..], n, size));
    GapOneSorts(cmp, Elements(a[..], n, size));
  }

  lemma FirstGap(cmp: Comparator, c: seq<Bytes>, gap: nat)
    requires 0 < gap <= |c|
    ensures GapSorted(cmp, c, gap, gap, |c|)
  {
  }

  lemma FewAreSorted(cmp: Comparator, c: seq<Bytes>)
    ensures |c| <= 1 ==> GapSorted(cmp, c, 1, |c|, |c|)
  {
  }
}
