/** The device's end of a virtqueue, updated in place: taking a chain,
    returning it, and the loop that does both while there is work. */
module VringDevice {
  import opened Common
  import opened GuestBuffers
  import opened Virtqueue

  datatype Chain = Chain(head: Word16, readBuf: seq<Byte>, writeBuf: seq<Segment>)

  /** `Bad` stands for a chain that points outside guest memory, which ends the machine. */
  datatype Popped = Empty | Got(chain: Chain) | Bad

  /** The chain the rings offer next. */
  function Offered(r: Rings, t: seq<Desc>, mem: seq<Byte>): Popped
    requires 0 < r.num == |r.avail| && Table(t)
  {
    if r.lastAvail == r.availIdx then Empty
    else
      var head := r.avail[r.lastAvail % r.num];
      var p := Walk(t, head, r.num);
      if Reachable(t, p, |mem|) then Got(Chain(head, ReadBytes(mem, t, p), WriteSegments(t, p))) else Bad
  }

  /** The rings once the next chains have been taken and returned, one by one, with these lengths. */
  ghost function Serve(r: Rings, lens: seq<Word32>): (n: Rings)
    requires RingsOk(r)
    ensures RingsOk(n) && n.num == r.num
    decreases |lens|
  {
    if lens == [] then r
    else
      var m := Serve(r, lens[..|lens| - 1]);
      GiveBack(Take(m), Used(NextHead(m), lens[|lens| - 1]))
  }

  function PopsAndPushes(lens: seq<Word32>): seq<Action>
    decreases |lens|
  {
    if lens == [] then [] else PopsAndPushes(lens[..|lens| - 1]) + [Pop, Push(lens[|lens| - 1])]
  }

  /** What the loop does to the rings is a run of the queue's system. */
  lemma {:induction false} ServeIsRun(s: State, lens: seq<Word32>) returns (t: State)
    requires Inv(s) && s.inHand.None? && |lens| <= |s.published| - |s.taken|
    ensures Run(s, PopsAndPushes(lens), t) && Inv(t) && t.inHand.None?
    ensures t.rings == Serve(s.rings, lens)
    ensures |t.taken| == |s.taken| + |lens| && t.published == s.published
    decreases |lens|
  {
    if lens == [] {
      t := s;
    } else {
      var m := ServeIsRun(s, lens[..|lens| - 1]);
      SameIndex(|m.taken|, |m.published|, m.rings.num);
      assert Enabled(m, Pop);
      PopKeeps(m);
      var popped := Apply(m, Pop);
      var push := Push(lens[|lens| - 1]);
      PushKeeps(popped, lens[|lens| - 1]);
      t := Apply(popped, push);
      assert [Pop, push][1..] == [push] && [push][1..] == [];
      assert Run(t, [], t) && Run(popped, [push], t) && Run(m, [Pop, push], t);
      RunAppend(s, PopsAndPushes(lens[..|lens| - 1]), m, [Pop, push], t);
    }
  }

  /** How a notification ends: no more to do, a chain outside memory, or a device that failed. */
  datatype Ending = Idle | Broken | Failed

  /** Each length is what the device made of the chain offered when its turn came. */
  ghost predicate ServedBy(r: Rings, t: seq<Desc>, mem: seq<Byte>, process: Chain -> Option<Word32>, lens: seq<Word32>)
    requires RingsOk(r) && Table(t)
  {
    forall k :: 0 <= k < |lens| ==>
      var o := Offered(Serve(r, lens[..k]), t, mem);
      o.Got? && process(o.chain) == Some(lens[k])
  }

  /** The rings in the end, `served` being those after the last chain that was returned. */
  ghost predicate Ended(end: Ending, served: Rings, now: Rings, t: seq<Desc>, mem: seq<Byte>,
                        process: Chain -> Option<Word32>)
    requires RingsOk(served) && Table(t)
  {
    var o := Offered(served, t, mem);
    match end
    case Idle => now == served
    case Broken => now == served && o.Bad?
    case Failed => now == Take(served) && o.Got? && process(o.chain) == None
  }

  lemma NoneServed(r: Rings, t: seq<Desc>, mem: seq<Byte>, process: Chain -> Option<Word32>)
    requires RingsOk(r) && Table(t)
    ensures ServedBy(r, t, mem, process, [])
  {
  }

  lemma ServedMore(r: Rings, t: seq<Desc>, mem: seq<Byte>, process: Chain -> Option<Word32>, lens: seq<Word32>,
                   len: Word32)
    requires RingsOk(r) && Table(t) && ServedBy(r, t, mem, process, lens)
    requires var o := Offered(Serve(r, lens), t, mem); o.Got? && process(o.chain) == Some(len)
    ensures ServedBy(r, t, mem, process, lens + [len])
  {
    hide Offered, Serve, Table;
    var more := lens + [len];
    assert more[..|lens|] == lens;
    assert forall k :: 0 <= k < |lens| ==> more[..k] == lens[..k];
  }

  lemma WalkStep(t: seq<Desc>, head: Word16, num: nat, path: seq<Word16>, idx: Word16)
    requires Table(t) && |path| < num && Walk(t, head, num) == path + Walk(t, idx, num - |path|)
    ensures idx in Walk(t, head, num)
    ensures !t[idx].hasNext ==> Walk(t, head, num) == path + [idx]
    ensures t[idx].hasNext ==> Walk(t, head, num) == path + [idx] + Walk(t, t[idx].next, num - |path| - 1)
  {
    assert Walk(t, idx, num - |path|)[0] == idx;
  }

  lemma CollectStep(mem: seq<Byte>, t: seq<Desc>, path: seq<Word16>, idx: Word16)
    requires Table(t) && Reachable(t, path, |mem|) && t[idx].addr + t[idx].len <= |mem|
    ensures var d := t[idx];
            && Reachable(t, path + [idx], |mem|)
            && ReadBytes(mem, t, path + [idx])
               == ReadBytes(mem, t, path) + (if d.write then [] else mem[d.addr..d.addr + d.len])
            && WriteSegments(t, path + [idx])
               == WriteSegments(t, path) + (if d.write then [Segment(d.addr, d.len)] else [])
  {
    assert (path + [idx])[..|path|] == path;
  }

  lemma ServeStep(r: Rings, lens: seq<Word32>, len: Word32)
    requires RingsOk(r)
    ensures Serve(r, lens + [len]) == GiveBack(Take(Serve(r, lens)), Used(NextHead(Serve(r, lens)), len))
  {
    assert (lens + [len])[..|lens|] == lens;
  }

  lemma ServeNone(r: Rings)
    requires RingsOk(r)
    ensures Serve(r, []) == r
  {
  }

  lemma OfferedMeans(r: Rings, t: seq<Desc>, mem: seq<Byte>)
    requires RingsOk(r) && Table(t)
    ensures Offered(r, t, mem).Empty? <==> !Waiting(r)
    ensures Offered(r, t, mem).Got? ==> Offered(r, t, mem).chain.head == NextHead(r)
  {
  }

  lemma OneFewer(last: Word16, avail: Word16)
    requires last != avail
    ensures (avail - (last + 1) % INDICES) % INDICES == (avail - last) % INDICES - 1
  {
  }

  /** Guest memory as the device sees it: the rings, the descriptor table, the data. */
  class QueueMemory {
    var availIdx: Word16
    const avail: array<Word16>
    var usedIdx: Word16
    const used: array<Used>
    const table: array<Desc>
    const data: array<Byte>
  }

  class VringQueue {
    var ready: Word32
    var num: nat
    var lastAvailIdx: Word16
    const shared: QueueMemory

    constructor (shared: QueueMemory)
      ensures this.shared == shared && ready == 0 && num == 0 && lastAvailIdx == 0
    {
      this.shared := shared;
      ready, num, lastAvailIdx := 0, 0, 0;
    }

    ghost predicate Ok()
      reads this, shared
    {
      && shared.avail.Length == num == shared.used.Length && shared.table.Length == INDICES
    }

    ghost function View(): (r: Rings)
      requires Ok()
      reads this, shared, shared.avail, shared.used
      ensures num > 0 ==> RingsOk(r)
    {
      Rings(num, shared.availIdx, shared.avail[..], shared.usedIdx, shared.used[..], lastAvailIdx)
    }

    /** The oldest chain offered and not yet taken; the index moves past it unless it lies outside memory. */
    method PopAvail() returns (r: Popped)
      requires Ok() && num > 0
      modifies `lastAvailIdx
      ensures r == Offered(old(View()), shared.table[..], shared.data[..])
      ensures View() == if r.Got? then Take(old(View())) else old(View())
    {
      if lastAvailIdx == shared.availIdx {
        return Empty;
      }
      ghost var t, mem := shared.table[..], shared.data[..];
      var head := shared.avail[lastAvailIdx % num];
      var chain := Follow(head);
      if chain.Got? {
        lastAvailIdx := (lastAvailIdx + 1) % INDICES;
      }
      r := chain;
    }

    /** Follows the links from `head`, at most `num` descriptors, and collects both kinds of buffers. */
    method Follow(head: Word16) returns (r: Popped)
      requires Ok() && num > 0
      ensures var t, mem := shared.table[..], shared.data[..];
              var p := Walk(t, head, num);
              r == if Reachable(t, p, |mem|) then Got(Chain(head, ReadBytes(mem, t, p), WriteSegments(t, p))) else Bad
    {
      hide Walk, ReadBytes, WriteSegments;
      ghost var t, mem := shared.table[..], shared.data[..];
      var readBuf: seq<Byte>, writeBuf: seq<Segment> := [], [];
      var idx, n, more := head, 0, true;
      ghost var path: seq<Word16> := [];
      NothingCollected(mem, t);
      while n < num && more
        invariant n == |path| <= num
        invariant more ==> Walk(t, head, num) == path + Walk(t, idx, num - n)
        invariant !more ==> Walk(t, head, num) == path
        invariant Reachable(t, path, |mem|)
        invariant readBuf == ReadBytes(mem, t, path) && writeBuf == WriteSegments(t, path)
      {
        var d := shared.table[idx];
        assert d == t[idx];
        WalkStep(t, head, num, path, idx);
        if d.addr + d.len > shared.data.Length {
          return Bad;
        }
        CollectStep(mem, t, path, idx);
        if d.write {
          writeBuf := writeBuf + [Segment(d.addr, d.len)];
        } else {
          readBuf := readBuf + shared.data[d.addr..d.addr + d.len];
        }
        path := path + [idx];
        if d.hasNext {
          idx := d.next;
        } else {
          more := false;
        }
        n := n + 1;
      }
      assert Walk(t, head, num) == path;
      r := Got(Chain(head, readBuf, writeBuf));
    }

    lemma NothingCollected(mem: seq<Byte>, t: seq<Desc>)
      requires Table(t)
      ensures ReadBytes(mem, t, []) == [] && WriteSegments(t, []) == []
    {
    }

    /** Puts a chain's head and length where the driver looks next, then lets it see them. */
    method PushUsed(head: Word16, len: Word32)
      requires Ok() && num > 0
      modifies shared`usedIdx, shared.used
      ensures View() == GiveBack(old(View()), Used(head, len))
    {
      var slot := shared.usedIdx % num;
      shared.used[slot] := Used(head, len);
      shared.usedIdx := (shared.usedIdx + 1) % INDICES;
    }
  }

  /** A register-level device around one queue. `work` is how many chains the
      device can process now, without end for `None`. */
  class VirtioMmio {
    const queue: VringQueue
    var irqStatus: bool
    var interrupts: nat

    constructor (queue: VringQueue)
      ensures this.queue == queue && !irqStatus && interrupts == 0
    {
      this.queue := queue;
      irqStatus, interrupts := false, 0;
    }

    /** Serves chains while the device can process one and one is available.
        `process` fails with None; that chain is then taken and not returned. */
    method QueueNotify(work: Option<nat>, process: Chain -> Option<Word32>)
      returns (end: Ending, ghost lens: seq<Word32>)
      requires queue.Ok()
      modifies this, queue`lastAvailIdx, queue.shared`usedIdx, queue.shared.used
      ensures queue.Ok() && queue.num == old(queue.num)
      ensures queue.ready == 0 || queue.num == 0 ==> end.Idle? && lens == []
      ensures queue.num == 0 ==> queue.View() == old(queue.View())
      ensures queue.num > 0 ==> ServedBy(old(queue.View()), old(queue.shared.table[..]), old(queue.shared.data[..]),
                                         process, lens)
      ensures queue.num > 0 ==>
        Ended(end, Serve(old(queue.View()), lens), queue.View(), queue.shared.table[..], queue.shared.data[..], process)
      ensures work.Some? ==> |lens| <= work.value
      ensures end.Idle? && queue.ready != 0 && queue.num > 0 ==> !Waiting(queue.View()) || work == Some(|lens|)
      ensures interrupts == old(interrupts) + |lens| && irqStatus == (old(irqStatus) || lens != [])
    {
      hide Offered, Serve, GiveBack, Take, NextHead, ServedBy;
      end := Idle;
      lens := [];
      if queue.num > 0 {
        ServeNone(queue.View());
        NoneServed(queue.View(), queue.shared.table[..], queue.shared.data[..], process);
      }
      if queue.ready == 0 || queue.num == 0 {
        return;
      }
      ghost var was, t, mem := queue.View(), queue.shared.table[..], queue.shared.data[..];
      var left := work;
      var open := true;
      while open && left != Some(0)
        invariant end.Idle? && queue.Ok() && queue.num > 0 && queue.ready == old(queue.ready)
          && queue.num == old(queue.num)
        invariant queue.shared.availIdx == old(queue.shared.availIdx)
        invariant queue.View() == Serve(was, lens) && ServedBy(was, t, mem, process, lens)
        invariant left == match work case None => None case Some(n) => if |lens| <= n then Some(n - |lens|) else None
        invariant work.Some? ==> |lens| <= work.value
        invariant !open ==> !Waiting(queue.View())
        invariant interrupts == old(interrupts) + |lens| && irqStatus == (old(irqStatus) || lens != [])
        decreases open, (queue.shared.availIdx - queue.lastAvailIdx) % INDICES
      {
        var popped, len := ServeOne(process);
        match popped {
          case Empty => open := false;
          case Bad => end := Broken; return;
          case Got(chain) =>
            if len.None? {
              end := Failed;
              return;
            }
            left := match left case None => None case Some(n) => Some(n - 1);
            ServedMore(was, t, mem, process, lens, len.value);
            ServeStep(was, lens, len.value);
            lens := lens + [len.value];
        }
      }
    }

    /** One round of the loop. */
    method ServeOne(process: Chain -> Option<Word32>) returns (popped: Popped, len: Option<Word32>)
      requires queue.Ok() && queue.num > 0
      modifies this, queue`lastAvailIdx, queue.shared`usedIdx, queue.shared.used
      ensures popped == Offered(old(queue.View()), queue.shared.table[..], queue.shared.data[..])
      ensures popped.Empty? <==> !Waiting(old(queue.View()))
      ensures len == if popped.Got? then process(popped.chain) else None
      ensures queue.View() ==
        if len.Some? then GiveBack(Take(old(queue.View())), Used(NextHead(old(queue.View())), len.value))
        else if popped.Got? then Take(old(queue.View())) else old(queue.View())
      ensures popped.Got? ==>
        (queue.shared.availIdx - queue.lastAvailIdx) % INDICES
        < (queue.shared.availIdx - old(queue.lastAvailIdx)) % INDICES
      ensures interrupts == old(interrupts) + (if len.Some? then 1 else 0) && irqStatus == (old(irqStatus) || len.Some?)
    {
      hide Offered;
      len := None;
      OfferedMeans(queue.View(), queue.shared.table[..], queue.shared.data[..]);
      popped := queue.PopAvail();
      if popped.Got? {
        OneFewer(old(queue.lastAvailIdx), queue.shared.availIdx);
        len := process(popped.chain);
        if len.Some? {
          queue.PushUsed(popped.chain.head, len.value);
          irqStatus := true;
          interrupts := interrupts + 1;
        }
      }
    }
  }
}
