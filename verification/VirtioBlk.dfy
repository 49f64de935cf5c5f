/** The block device: requests as descriptor chains, the disk as bytes. */
module VirtioBlk {
  import opened Common
  import opened Endian
  import opened GuestBuffers
  import opened VringDevice

  const SECTOR_SIZE := 512
  const HEADER_SIZE := 16

  const T_IN := 0
  const T_OUT := 1
  const T_FLUSH := 4

  const S_OK: Byte := 0
  const S_IOERR: Byte := 1
  const S_UNSUPP: Byte := 2

  function Type(readBuf: seq<Byte>): nat
    requires |readBuf| >= HEADER_SIZE
  {
    FromLe(readBuf[..4])
  }

  function Sector(readBuf: seq<Byte>): nat
    requires |readBuf| >= HEADER_SIZE
  {
    FromLe(readBuf[8..16])
  }

  function Payload(readBuf: seq<Byte>): seq<Byte>
    requires |readBuf| >= HEADER_SIZE
  {
    readBuf[HEADER_SIZE..]
  }

  /** Byte offset of a sector with overflow-checked arithmetic. The checks
      refuse exactly what does not lie within the disk. */
  function DiskOffset(capacity: nat, sector: nat, len: nat): (o: Option<nat>)
    requires capacity * SECTOR_SIZE < WORD
    ensures o.Some? <==> sector * SECTOR_SIZE + len <= capacity * SECTOR_SIZE
    ensures o.Some? ==> o.value == sector * SECTOR_SIZE
  {
    if sector * SECTOR_SIZE >= WORD then None
    else if sector * SECTOR_SIZE + len >= WORD then None
    else if sector * SECTOR_SIZE + len <= capacity * SECTOR_SIZE then Some(sector * SECTOR_SIZE)
    else None
  }

  /** A request needs a header and somewhere to write the status; otherwise the machine stops. */
  predicate WellFormed(c: Chain) { |c.readBuf| >= HEADER_SIZE && |c.writeBuf| > 0 }

  /** And the last writable buffer needs room for it: the machine stops too if
      not, but only when it comes to writing the status. */
  predicate HasStatusByte(c: Chain)
    requires WellFormed(c)
  {
    c.writeBuf[|c.writeBuf| - 1].len > 0
  }

  function DataSegments(c: Chain): seq<Segment>
    requires WellFormed(c)
  {
    c.writeBuf[..|c.writeBuf| - 1]
  }

  function StatusAddr(c: Chain): nat
    requires WellFormed(c)
  {
    c.writeBuf[|c.writeBuf| - 1].addr
  }

  /** The bytes of the disk a request is about. */
  function Extent(c: Chain): nat
    requires WellFormed(c)
  {
    if Type(c.readBuf) == T_OUT then |Payload(c.readBuf)| else Total(DataSegments(c))
  }

  predicate InRange(capacity: nat, c: Chain)
    requires WellFormed(c)
  {
    Sector(c.readBuf) * SECTOR_SIZE + Extent(c) <= capacity * SECTOR_SIZE
  }

  /** The status a request must get. */
  function Status(capacity: nat, c: Chain): Byte
    requires WellFormed(c)
  {
    var t := Type(c.readBuf);
    if t == T_IN || t == T_OUT then (if InRange(capacity, c) then S_OK else S_IOERR)
    else if t == T_FLUSH then S_OK
    else S_UNSUPP
  }

  /** The disk after a request, as one operation on an array of bytes. */
  function DiskAfter(disk: seq<Byte>, capacity: nat, c: Chain): (d: seq<Byte>)
    requires WellFormed(c) && capacity * SECTOR_SIZE <= |disk|
    ensures |d| == |disk|
  {
    if Type(c.readBuf) == T_OUT && InRange(capacity, c) then
      var at := Sector(c.readBuf) * SECTOR_SIZE;
      Overwritten(disk, at, Payload(c.readBuf))
    else disk
  }

  /** What a read puts in the data buffers; nothing for anything else. */
  function Answer(disk: seq<Byte>, capacity: nat, c: Chain): (a: seq<Byte>)
    requires WellFormed(c) && capacity * SECTOR_SIZE <= |disk|
    ensures |a| <= Total(DataSegments(c))
  {
    if Type(c.readBuf) == T_IN && InRange(capacity, c) then
      var at := Sector(c.readBuf) * SECTOR_SIZE;
      disk[at..at + Total(DataSegments(c))]
    else []
  }

  /** Memory after a request: the answer poured into the data buffers in order,
      whatever their sizes, then the status byte, if there is room for it. */
  function MemoryAfter(m: seq<Byte>, disk: seq<Byte>, capacity: nat, c: Chain): (n: seq<Byte>)
    requires WellFormed(c) && capacity * SECTOR_SIZE <= |disk| && AllWithin(c.writeBuf, |m|)
    ensures |n| == |m|
  {
    var poured := Poured(m, DataSegments(c), Answer(disk, capacity, c));
    if HasStatusByte(c) then Overwritten(poured, StatusAddr(c), [Status(capacity, c)]) else poured
  }

  /** Every byte written to the guest counts, the status byte included. */
  function UsedLength(disk: seq<Byte>, capacity: nat, c: Chain): Word32
    requires WellFormed(c) && capacity * SECTOR_SIZE <= |disk|
  {
    (|Answer(disk, capacity, c)| % HALF_WORD + 1) % HALF_WORD
  }

  /** The status byte lies in no data buffer. */
  lemma StatusIsApart(c: Chain, size: nat)
    requires WellFormed(c) && HasStatusByte(c) && AllWithin(c.writeBuf, size) && Disjoint(c.writeBuf)
    ensures !InSome(DataSegments(c), StatusAddr(c)) && StatusAddr(c) < size
  {
    LastIsOutside(c.writeBuf, StatusAddr(c));
  }

  /** A chain whose writable buffers do not overlap, with room for the status. */
  predicate Sound(c: Chain, size: nat) {
    WellFormed(c) && HasStatusByte(c) && AllWithin(c.writeBuf, size) && Disjoint(c.writeBuf)
  }

  /** What the guest finds: its status, and the answer with the rest of the data buffers as it was. */
  lemma GuestView(m: seq<Byte>, disk: seq<Byte>, capacity: nat, c: Chain)
    requires capacity * SECTOR_SIZE <= |disk| && Sound(c, |m|)
    ensures var n := MemoryAfter(m, disk, capacity, c);
            && StatusAddr(c) < |m| && n[StatusAddr(c)] == Status(capacity, c)
            && (var answer := Answer(disk, capacity, c);
                Gather(n, DataSegments(c)) == answer + Gather(m, DataSegments(c))[|answer|..])
            && forall a :: 0 <= a < |m| && !InSome(c.writeBuf, a) ==> n[a] == m[a]
  {
    hide MemoryAfter, Poured, Answer, Status, Gather, Disjoint, InSome, Total, AllWithin;
    var data, answer := DataSegments(c), Answer(disk, capacity, c);
    FrontOk(c.writeBuf, |data|, |m|);
    var poured, n := Poured(m, data, answer), MemoryAfter(m, disk, capacity, c);
    StatusIsApart(c, |m|);
    StatusWritten(m, disk, capacity, c);
    PouringFills(m, data, answer);
    GatherFrame(poured, n, data);
    forall a | 0 <= a < |m| && !InSome(c.writeBuf, a) ensures n[a] == m[a] {
      InSomeLast(c.writeBuf, a);
    }
  }

  lemma StatusWritten(m: seq<Byte>, disk: seq<Byte>, capacity: nat, c: Chain)
    requires capacity * SECTOR_SIZE <= |disk| && Sound(c, |m|) && StatusAddr(c) < |m|
    ensures var n, poured := MemoryAfter(m, disk, capacity, c), Poured(m, DataSegments(c), Answer(disk, capacity, c));
            forall a :: 0 <= a < |m| ==> n[a] == if a == StatusAddr(c) then Status(capacity, c) else poured[a]
  {
    hide Answer, Status, Poured, Total, Disjoint;
    OneByteOnly(Poured(m, DataSegments(c), Answer(disk, capacity, c)), StatusAddr(c), Status(capacity, c));
  }

  lemma OneByteOnly(m: seq<Byte>, at: nat, b: Byte)
    requires at < |m|
    ensures forall a :: 0 <= a < |m| ==> Overwritten(m, at, [b])[a] == if a == at then b else m[a]
  {
  }

  /** A request means the same however its chain is cut into descriptors: the
      same readable bytes and room for as many give the same disk, status,
      length and answer. */
  lemma CutsDoNotMatter(m: seq<Byte>, m': seq<Byte>, disk: seq<Byte>, capacity: nat, c: Chain, c': Chain)
    requires capacity * SECTOR_SIZE <= |disk| && Sound(c, |m|) && Sound(c', |m'|)
    requires c.readBuf == c'.readBuf && Total(DataSegments(c)) == Total(DataSegments(c'))
    ensures DiskAfter(disk, capacity, c) == DiskAfter(disk, capacity, c')
    ensures UsedLength(disk, capacity, c) == UsedLength(disk, capacity, c')
    ensures StatusAddr(c) < |m| && StatusAddr(c') < |m'|
    ensures var n, n' := MemoryAfter(m, disk, capacity, c), MemoryAfter(m', disk, capacity, c');
            && n[StatusAddr(c)] == n'[StatusAddr(c')]
            && (Type(c.readBuf) == T_IN && InRange(capacity, c) ==>
                  Gather(n, DataSegments(c)) == Gather(n', DataSegments(c')))
  {
    hide FromLe, Gather, MemoryAfter, Poured, Total, Overwritten;
    assert Extent(c) == Extent(c');
    assert Answer(disk, capacity, c) == Answer(disk, capacity, c');
    GuestView(m, disk, capacity, c);
    GuestView(m', disk, capacity, c');
  }

  /** The disk after requests one after the other. */
  function DiskAfterAll(disk: seq<Byte>, capacity: nat, requests: seq<Chain>): (d: seq<Byte>)
    requires (forall k :: 0 <= k < |requests| ==> WellFormed(requests[k])) && capacity * SECTOR_SIZE <= |disk|
    ensures |d| == |disk|
    decreases |requests|
  {
    if requests == [] then disk
    else DiskAfter(DiskAfterAll(disk, capacity, requests[..|requests| - 1]), capacity, requests[|requests| - 1])
  }

  /** A request that does not write to the `len` bytes of the disk from `at` on. */
  predicate Avoids(c: Chain, at: nat, len: nat)
    requires WellFormed(c)
  {
    var from := Sector(c.readBuf) * SECTOR_SIZE;
    Type(c.readBuf) == T_OUT ==> from + Extent(c) <= at || at + len <= from
  }

  lemma AvoidedStays(disk: seq<Byte>, capacity: nat, c: Chain, at: nat, len: nat)
    requires WellFormed(c) && capacity * SECTOR_SIZE <= |disk| && at + len <= |disk| && Avoids(c, at, len)
    ensures DiskAfter(disk, capacity, c)[at..at + len] == disk[at..at + len]
  {
    hide FromLe;
    if Type(c.readBuf) == T_OUT && InRange(capacity, c) {
      OverwritingElsewhere(disk, Sector(c.readBuf) * SECTOR_SIZE, Payload(c.readBuf), at, len);
    }
  }

  lemma {:induction false} AllAvoidedStays(disk: seq<Byte>, capacity: nat, requests: seq<Chain>, at: nat, len: nat)
    requires capacity * SECTOR_SIZE <= |disk| && at + len <= |disk|
    requires forall k :: 0 <= k < |requests| ==> WellFormed(requests[k]) && Avoids(requests[k], at, len)
    ensures DiskAfterAll(disk, capacity, requests)[at..at + len] == disk[at..at + len]
    decreases |requests|
  {
    if requests == [] {
    } else {
      var front := requests[..|requests| - 1];
      AllAvoidedStays(disk, capacity, front, at, len);
      AvoidedStays(DiskAfterAll(disk, capacity, front), capacity, requests[|requests| - 1], at, len);
    }
  }

  /** What was written through any chain is read back through any other, after
      any requests in between that write to none of those bytes. */
  lemma ReadsBackWrites(disk: seq<Byte>, capacity: nat, w: Chain, between: seq<Chain>, r: Chain, m: seq<Byte>)
    requires capacity * SECTOR_SIZE <= |disk| && WellFormed(w) && Sound(r, |m|)
    requires Type(w.readBuf) == T_OUT && InRange(capacity, w)
    requires Type(r.readBuf) == T_IN && Sector(r.readBuf) == Sector(w.readBuf)
    requires Total(DataSegments(r)) == |Payload(w.readBuf)|
    requires forall k :: 0 <= k < |between| ==>
      WellFormed(between[k]) && Avoids(between[k], Sector(w.readBuf) * SECTOR_SIZE, |Payload(w.readBuf)|)
    ensures var n := MemoryAfter(m, DiskAfterAll(DiskAfter(disk, capacity, w), capacity, between), capacity, r);
            StatusAddr(r) < |m| && n[StatusAddr(r)] == S_OK && Gather(n, DataSegments(r)) == Payload(w.readBuf)
  {
    var at, payload := Sector(w.readBuf) * SECTOR_SIZE, Payload(w.readBuf);
    var written := DiskAfter(disk, capacity, w);
    assert written == Overwritten(disk, at, payload);
    OverwrittenParts(disk, at, payload);
    hide FromLe, Gather, MemoryAfter, DiskAfterAll, DiskAfter, Overwritten, Avoids;
    AllAvoidedStays(written, capacity, between, at, |payload|);
    ReadsWhatIsThere(m, DiskAfterAll(written, capacity, between), capacity, r);
  }

  /** A read in range gets the bytes of the disk. */
  lemma ReadsWhatIsThere(m: seq<Byte>, disk: seq<Byte>, capacity: nat, r: Chain)
    requires capacity * SECTOR_SIZE <= |disk| && Sound(r, |m|) && Type(r.readBuf) == T_IN && InRange(capacity, r)
    ensures var n, at := MemoryAfter(m, disk, capacity, r), Sector(r.readBuf) * SECTOR_SIZE;
            && StatusAddr(r) < |m| && n[StatusAddr(r)] == S_OK
            && Gather(n, DataSegments(r)) == disk[at..at + Total(DataSegments(r))]
  {
    hide FromLe, Gather, MemoryAfter;
    GuestView(m, disk, capacity, r);
  }

  /** A refused request changes neither the disk nor the data buffers. */
  lemma RefusedChangesNothing(m: seq<Byte>, disk: seq<Byte>, capacity: nat, c: Chain)
    requires capacity * SECTOR_SIZE <= |disk| && Sound(c, |m|) && Status(capacity, c) != S_OK
    ensures DiskAfter(disk, capacity, c) == disk && UsedLength(disk, capacity, c) == 1
    ensures Gather(MemoryAfter(m, disk, capacity, c), DataSegments(c)) == Gather(m, DataSegments(c))
  {
    hide FromLe, Gather, MemoryAfter, Poured, Total, Overwritten;
    assert Answer(disk, capacity, c) == [];
    GuestView(m, disk, capacity, c);
    var before := Gather(m, DataSegments(c));
    assert [] + before[0..] == before;
  }

  /** What becomes of a chain: an error before anything is done, a panic for want
      of a status byte once the transfer is done, or the used length. */
  datatype Processed = Malformed | Panic | Length(len: Word32)

  class VirtioBlk {
    const disk: array<Byte>
    const capacity: nat

    ghost predicate Ok() {
      capacity * SECTOR_SIZE <= disk.Length < WORD
    }

    /** Fills the buffers one after the other from the disk; None past its end. */
    method Read(sector: nat, mem: array<Byte>, data: seq<Segment>) returns (len: Option<Word32>)
      requires Ok() && mem != disk && AllWithin(data, mem.Length)
      modifies mem
      ensures len.Some? <==> sector * SECTOR_SIZE + Total(data) <= capacity * SECTOR_SIZE
      ensures len.Some? ==>
        && len.value == Total(data) % HALF_WORD
        && mem[..] == Poured(old(mem[..]), data, disk[sector * SECTOR_SIZE..sector * SECTOR_SIZE + Total(data)])
      ensures len.None? ==> mem[..] == old(mem[..])
    {
      hide Poured, AllWithin, Total;
      var total := SumLengths(data);
      var at := DiskOffset(capacity, sector, total);
      if at.None? {
        return None;
      }
      ghost var was, start := mem[..], at.value;
      var offset: nat := at.value;
      NoBuffers(was, data);
      assert disk[start..offset] == [];
      for i := 0 to |data|
        invariant mem.Length == |was| && AllWithin(data[..i], |was|)
        invariant offset == start + Total(data[..i]) <= start + total
        invariant mem[..] == Poured(was, data[..i], disk[start..offset])
      {
        TotalFront(data, i + 1);
        StepFits(data, i, |was|);
        var part := disk[offset..offset + data[i].len];
        PourOne(mem, data, i, was, disk[start..offset], part);
        assert disk[start..offset] + part == disk[start..offset + data[i].len];
        offset := offset + data[i].len;
      }
      assert data[..|data|] == data;
      len := Some(total % HALF_WORD);
    }

    method SumLengths(data: seq<Segment>) returns (total: nat)
      ensures total == Total(data)
    {
      total := 0;
      for i := 0 to |data|
        invariant total == Total(data[..i])
      {
        assert data[..i + 1][..i] == data[..i];
        total := total + data[i].len;
      }
      assert data[..|data|] == data;
    }

    method Write(sector: nat, data: seq<Byte>) returns (ok: bool)
      requires Ok()
      modifies disk
      ensures ok <==> sector * SECTOR_SIZE + |data| <= capacity * SECTOR_SIZE
      ensures disk[..] == if ok then Overwritten(old(disk[..]), sector * SECTOR_SIZE, data) else old(disk[..])
    {
      var at := DiskOffset(capacity, sector, |data|);
      if at.None? {
        return false;
      }
      CopyIn(disk, Segment(at.value, |data|), data);
      ok := true;
    }

    /** One request. Nothing is done for one without a header or a writable
        buffer. One whose last buffer is empty has been carried out by the time
        its status has no place to go. */
    method Process(c: Chain, mem: array<Byte>) returns (p: Processed)
      requires Ok() && mem != disk && AllWithin(c.writeBuf, mem.Length)
      modifies mem, disk
      ensures p.Malformed? <==> !WellFormed(c)
      ensures p.Malformed? ==> mem[..] == old(mem[..]) && disk[..] == old(disk[..])
      ensures !p.Malformed? ==>
        && disk[..] == DiskAfter(old(disk[..]), capacity, c)
        && mem[..] == MemoryAfter(old(mem[..]), old(disk[..]), capacity, c)
        && p == if HasStatusByte(c) then Length(UsedLength(old(disk[..]), capacity, c)) else Panic
    {
      if |c.readBuf| < HEADER_SIZE || |c.writeBuf| == 0 {
        return Malformed;
      }
      var last := c.writeBuf[|c.writeBuf| - 1];
      var code, written := Transfer(c, mem);
      if last.len == 0 {
        return Panic;
      }
      ghost var poured := mem[..];
      mem[last.addr] := code;
      assert mem[..] == Overwritten(poured, last.addr, [code]);
      p := Length((written + 1) % HALF_WORD);
    }

    /** What a request does before its status is written. */
    method Transfer(c: Chain, mem: array<Byte>) returns (code: Byte, written: Word32)
      requires Ok() && mem != disk && WellFormed(c) && AllWithin(c.writeBuf, mem.Length)
      modifies mem, disk
      ensures disk[..] == DiskAfter(old(disk[..]), capacity, c)
      ensures mem[..] == Poured(old(mem[..]), DataSegments(c), Answer(old(disk[..]), capacity, c))
      ensures code == Status(capacity, c) && written == |Answer(old(disk[..]), capacity, c)| % HALF_WORD
    {
      hide FromLe, Poured, Total, Overwritten;
      PouringNothing(mem[..], DataSegments(c));
      var kind := Type(c.readBuf);
      code, written := S_OK, 0;
      if kind == T_IN {
        var read := Read(Sector(c.readBuf), mem, DataSegments(c));
        match read {
          case Some(n) => written := n;
          case None => code := S_IOERR;
        }
      } else if kind == T_OUT {
        var ok := Write(Sector(c.readBuf), Payload(c.readBuf));
        code := if ok then S_OK else S_IOERR;
      } else if kind != T_FLUSH {
        code := S_UNSUPP;
      }
    }
  }
}
