/** A split virtqueue: rings with 16-bit indices that wrap, descriptor chains,
    and the device's processing loop.

    The rings are a value with the device's steps as functions. A system of
    driver and device runs over them with unbounded ghost counts beside every
    index, and the object at the end updates the same rings in place. */
module Virtqueue {
  import opened Common
  import opened GuestBuffers
  import Arith

  const INDICES := 0x1_0000

  // ----- descriptor chains

  datatype Desc = Desc(addr: nat, len: nat, write: bool, hasNext: bool, next: Word16)

  predicate Table(t: seq<Desc>) { |t| == INDICES }

  /** The descriptors the device visits from `idx` on, at most `fuel` of them. */
  function Walk(t: seq<Desc>, idx: Word16, fuel: nat): (p: seq<Word16>)
    requires Table(t)
    ensures |p| <= fuel
    decreases fuel
  {
    if fuel == 0 then []
    else if !t[idx].hasNext then [idx]
    else [idx] + Walk(t, t[idx].next, fuel - 1)
  }

  /** Each descriptor but the last points to the one after it. */
  predicate Linked(t: seq<Desc>, p: seq<Word16>)
    requires Table(t)
  {
    forall i :: 0 <= i < |p| - 1 ==> t[p[i]].hasNext && p[i + 1] == t[p[i]].next
  }

  /** Whatever the links, the walk follows them from the head and stops: at a
      descriptor without a next one, or after as many as the queue has. */
  lemma {:induction false} WalkFollowsLinks(t: seq<Desc>, idx: Word16, fuel: nat)
    requires Table(t) && fuel > 0
    ensures var p := Walk(t, idx, fuel);
            0 < |p| <= fuel && p[0] == idx && Linked(t, p) && (|p| < fuel ==> !t[p[|p| - 1]].hasNext)
    decreases fuel
  {
    if fuel > 1 && t[idx].hasNext {
      WalkFollowsLinks(t, t[idx].next, fuel - 1);
      var rest := Walk(t, t[idx].next, fuel - 1);
      var p := Walk(t, idx, fuel);
      forall i | 0 <= i < |p| - 1 ensures t[p[i]].hasNext && p[i + 1] == t[p[i]].next {
        if i > 0 {
          assert p[i] == rest[i - 1] && p[i + 1] == rest[i];
        }
      }
    }
  }

  /** A chain the driver built, no longer than the queue, is walked whole. */
  lemma {:induction false} WalkFindsChain(t: seq<Desc>, p: seq<Word16>, fuel: nat)
    requires Table(t) && 0 < |p| <= fuel && Linked(t, p) && !t[p[|p| - 1]].hasNext
    ensures Walk(t, p[0], fuel) == p
    decreases |p|
  {
    if |p| > 1 {
      assert t[p[0]].hasNext && p[1] == t[p[0]].next;
      assert Linked(t, p[1..]) by {
        forall i | 0 <= i < |p[1..]| - 1 ensures t[p[1..][i]].hasNext && p[1..][i + 1] == t[p[1..][i]].next {
          assert p[1..][i] == p[i + 1];
        }
      }
      WalkFindsChain(t, p[1..], fuel - 1);
    }
  }

  predicate Reachable(t: seq<Desc>, p: seq<Word16>, size: nat)
    requires Table(t)
  {
    forall i :: 0 <= i < |p| ==> t[p[i]].addr + t[p[i]].len <= size
  }

  /** The device-readable bytes of a chain, copied out in order. */
  function ReadBytes(mem: seq<Byte>, t: seq<Desc>, p: seq<Word16>): seq<Byte>
    requires Table(t) && Reachable(t, p, |mem|)
  {
    if p == [] then []
    else
      var d := t[p[|p| - 1]];
      ReadBytes(mem, t, p[..|p| - 1]) + (if d.write then [] else mem[d.addr..d.addr + d.len])
  }

  /** The device-writable buffers of a chain, in order. */
  function WriteSegments(t: seq<Desc>, p: seq<Word16>): seq<Segment>
    requires Table(t)
  {
    if p == [] then []
    else
      var d := t[p[|p| - 1]];
      WriteSegments(t, p[..|p| - 1]) + (if d.write then [Segment(d.addr, d.len)] else [])
  }

  lemma {:induction false} WriteSegmentsWithin(t: seq<Desc>, p: seq<Word16>, size: nat)
    requires Table(t) && Reachable(t, p, size)
    ensures AllWithin(WriteSegments(t, p), size)
  {
    if p == [] {
    } else {
      WriteSegmentsWithin(t, p[..|p| - 1], size);
    }
  }

  // ----- the rings

  datatype Used = Used(id: Word16, len: Word32)

  /** What driver and device share, and the device's own index. */
  datatype Rings = Rings(
    num: nat,
    availIdx: Word16, avail: seq<Word16>,
    usedIdx: Word16, used: seq<Used>,
    lastAvail: Word16)

  ghost predicate RingsOk(r: Rings) { 0 < r.num == |r.avail| == |r.used| }

  predicate Waiting(r: Rings) { r.lastAvail != r.availIdx }

  function NextHead(r: Rings): Word16
    requires RingsOk(r)
  {
    r.avail[r.lastAvail % r.num]
  }

  function Take(r: Rings): Rings { r.(lastAvail := (r.lastAvail + 1) % INDICES) }

  function GiveBack(r: Rings, u: Used): Rings
    requires RingsOk(r)
  {
    r.(used := r.used[r.usedIdx % r.num := u], usedIdx := (r.usedIdx + 1) % INDICES)
  }

  function Offer(r: Rings, head: Word16): Rings
    requires RingsOk(r)
  {
    r.(avail := r.avail[r.availIdx % r.num := head], availIdx := (r.availIdx + 1) % INDICES)
  }

  // ----- driver and device

  datatype State = State(
    rings: Rings,
    inHand: Option<Word16>,      // the chain the device is processing
    driverUsed: Word16,          // how far the driver has read the used ring
    // history
    published: seq<Word16>, taken: seq<Word16>, returned: seq<Used>, reaped: seq<Used>)

  datatype Action =
    | Publish(head: Word16)
    | Pop
    | Push(len: Word32)
    | Reap

  ghost predicate WellFormed(s: State) { RingsOk(s.rings) }

  predicate Enabled(s: State, a: Action) {
    match a
    // each outstanding chain has a descriptor of its own
    case Publish(_) => |s.reaped| <= |s.published| < |s.reaped| + s.rings.num
    case Pop => s.inHand.None? && Waiting(s.rings)
    case Push(_) => s.inHand.Some?
    case Reap => s.driverUsed != s.rings.usedIdx
  }

  ghost function Apply(s: State, a: Action): (n: State)
    requires WellFormed(s) && Enabled(s, a)
    ensures WellFormed(n)
  {
    match a
    case Publish(head) => s.(rings := Offer(s.rings, head), published := s.published + [head])
    case Pop =>
      var head := NextHead(s.rings);
      s.(rings := Take(s.rings), inHand := Some(head), taken := s.taken + [head])
    case Push(len) =>
      var u := Used(s.inHand.value, len);
      s.(rings := GiveBack(s.rings, u), inHand := None, returned := s.returned + [u])
    case Reap =>
      s.(driverUsed := (s.driverUsed + 1) % INDICES,
         reaped := s.reaped + [s.rings.used[s.driverUsed % s.rings.num]])
  }

  /** The ring place of the k-th chain, as both sides compute it from 16-bit indices. */
  function Place(num: nat, k: nat): nat
    requires num > 0
  {
    k % INDICES % num
  }

  predicate GoodSize(num: nat) { 0 < num <= 0x8000 && INDICES % num == 0 }

  lemma PlaceIsMod(num: nat, k: nat)
    requires num > 0 && INDICES % num == 0
    ensures Place(num, k) == k % num
  {
    assert INDICES == INDICES / num * num;
    Arith.ModMod(k, num, INDICES / num);
  }

  lemma PlacesDiffer(num: nat, j: nat, k: nat)
    requires num > 0 && INDICES % num == 0 && j < k < j + num
    ensures Place(num, j) != Place(num, k)
  {
    PlaceIsMod(num, j);
    PlaceIsMod(num, k);
    hide Place;
    Arith.NearbyDiffer(j, k, num);
  }

  ghost predicate NeverCollide(num: nat)
    requires num > 0
  {
    forall j: nat, k: nat :: j < k < j + num ==> Place(num, j) != Place(num, k)
  }

  /** Any `num` chains in a row have places of their own exactly when the size
      divides 2^16, as a power of two does: otherwise two of them meet where the index wraps. */
  lemma CollisionFreeSizes(num: nat)
    requires 0 < num <= INDICES
    ensures NeverCollide(num) <==> INDICES % num == 0
  {
    if INDICES % num == 0 {
      forall j: nat, k: nat | j < k < j + num ensures Place(num, j) != Place(num, k) {
        PlacesDiffer(num, j, k);
      }
    } else {
      var r := INDICES % num;
      var q := INDICES / num;
      assert INDICES == q * num + r;
      Arith.ModMultiple(0, q, num);
      assert Place(num, INDICES - r) == 0 == Place(num, INDICES);
      assert INDICES - r < INDICES < (INDICES - r) + num;
    }
  }

  lemma NextIndex(k: nat)
    ensures (k % INDICES + 1) % INDICES == (k + 1) % INDICES
  {
  }

  ghost predicate AvailOk(s: State)
    requires WellFormed(s)
  {
    forall k :: |s.taken| <= k < |s.published| ==> s.rings.avail[Place(s.rings.num, k)] == s.published[k]
  }

  ghost predicate UsedOk(s: State)
    requires WellFormed(s)
  {
    forall k :: |s.reaped| <= k < |s.returned| ==> s.rings.used[Place(s.rings.num, k)] == s.returned[k]
  }

  ghost predicate CountsOk(s: State) {
    && |s.reaped| <= |s.returned| <= |s.taken| <= |s.published| <= |s.reaped| + s.rings.num
    && s.rings.availIdx == |s.published| % INDICES
    && s.rings.lastAvail == |s.taken| % INDICES
    && s.rings.usedIdx == |s.returned| % INDICES
    && s.driverUsed == |s.reaped| % INDICES
  }

  ghost predicate OrderOk(s: State) {
    && |s.reaped| <= |s.returned| <= |s.taken| <= |s.published|
    && s.taken == s.published[..|s.taken|]
    && (forall k :: 0 <= k < |s.returned| ==> s.returned[k].id == s.taken[k])
    && s.reaped == s.returned[..|s.reaped|]
    && (match s.inHand
        case None => |s.taken| == |s.returned|
        case Some(head) => |s.taken| == |s.returned| + 1 && s.taken[|s.taken| - 1] == head)
  }

  ghost predicate Inv(s: State) {
    WellFormed(s) && GoodSize(s.rings.num) && CountsOk(s) && OrderOk(s) && AvailOk(s) && UsedOk(s)
  }

  /** Indices that are at most the ring's size apart are equal only for equal counts. */
  lemma SameIndex(j: nat, k: nat, num: nat)
    requires j <= k <= j + num && num <= 0x8000
    ensures j % INDICES == k % INDICES <==> j == k
  {
  }

  lemma PublishKeeps(s: State, head: Word16)
    requires Inv(s) && Enabled(s, Publish(head))
    ensures Inv(Apply(s, Publish(head)))
  {
    var n := Apply(s, Publish(head));
    var num := s.rings.num;
    NextIndex(|s.published|);
    forall k | |n.taken| <= k < |n.published| ensures n.rings.avail[Place(num, k)] == n.published[k] {
      if k < |s.published| {
        PlacesDiffer(num, k, |s.published|);
      }
    }
  }

  lemma PopKeeps(s: State)
    requires Inv(s) && Enabled(s, Pop)
    ensures Inv(Apply(s, Pop))
  {
    SameIndex(|s.taken|, |s.published|, s.rings.num);
    assert NextHead(s.rings) == s.rings.avail[Place(s.rings.num, |s.taken|)];
    NextIndex(|s.taken|);
  }

  lemma PushKeeps(s: State, len: Word32)
    requires Inv(s) && Enabled(s, Push(len))
    ensures Inv(Apply(s, Push(len)))
  {
    var n := Apply(s, Push(len));
    var num := s.rings.num;
    NextIndex(|s.returned|);
    forall k | |n.reaped| <= k < |n.returned| ensures n.rings.used[Place(num, k)] == n.returned[k] {
      if k < |s.returned| {
        PlacesDiffer(num, k, |s.returned|);
      }
    }
  }

  lemma ReapKeeps(s: State)
    requires Inv(s) && Enabled(s, Reap)
    ensures Inv(Apply(s, Reap))
  {
    SameIndex(|s.reaped|, |s.returned|, s.rings.num);
    assert s.rings.used[s.driverUsed % s.rings.num] == s.rings.used[Place(s.rings.num, |s.reaped|)];
    NextIndex(|s.reaped|);
  }

  ghost predicate Init(s: State) {
    && WellFormed(s) && GoodSize(s.rings.num)
    && s.rings.availIdx == s.rings.usedIdx == s.rings.lastAvail == s.driverUsed == 0
    && s.inHand.None? && s.published == [] && s.taken == [] && s.returned == [] && s.reaped == []
  }

  ghost predicate Run(s: State, actions: seq<Action>, t: State)
    decreases |actions|
  {
    if actions == [] then s == t
    else WellFormed(s) && Enabled(s, actions[0]) && Run(Apply(s, actions[0]), actions[1..], t)
  }

  lemma {:induction false} RunKeeps(s: State, actions: seq<Action>, t: State)
    requires Inv(s) && Run(s, actions, t)
    ensures Inv(t)
    decreases |actions|
  {
    if actions == [] {
    } else {
      match actions[0] {
        case Publish(head) => PublishKeeps(s, head);
        case Pop => PopKeeps(s);
        case Push(len) => PushKeeps(s, len);
        case Reap => ReapKeeps(s);
      }
      RunKeeps(Apply(s, actions[0]), actions[1..], t);
    }
  }

  lemma {:induction false} RunAppend(s: State, a: seq<Action>, m: State, b: seq<Action>, t: State)
    requires Run(s, a, m) && Run(m, b, t)
    ensures Run(s, a + b, t)
    decreases |a|
  {
    if a == [] {
      assert a + b == b;
    } else {
      assert (a + b)[0] == a[0] && (a + b)[1..] == a[1..] + b;
      RunAppend(Apply(s, a[0]), a[1..], m, b, t);
    }
  }

  /** In runs of any length, past any number of wraps: the k-th chain taken is
      the k-th published; chains come back in that order, each once; the
      driver reads exactly what the device returned, so nothing unread was
      overwritten; and the device sees a chain waiting exactly when there is one. */
  lemma OrderAndConservation(s: State, actions: seq<Action>, t: State)
    requires Init(s) && Run(s, actions, t)
    ensures t.taken <= t.published
    ensures |t.returned| <= |t.taken| && forall k :: 0 <= k < |t.returned| ==> t.returned[k].id == t.taken[k]
    ensures t.reaped <= t.returned
    ensures t.inHand.None? ==> |t.returned| == |t.taken|
    ensures Waiting(t.rings) <==> |t.taken| < |t.published|
    ensures t.driverUsed != t.rings.usedIdx <==> |t.reaped| < |t.returned|
  {
    RunKeeps(s, actions, t);
    SameIndex(|t.taken|, |t.published|, t.rings.num);
    SameIndex(|t.reaped|, |t.returned|, t.rings.num);
  }
}
