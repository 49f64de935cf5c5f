/** The adapter as an object: registers, stamps and frame counter updated in
    place, each method proved against the functions the other VGA modules
    reason about. */
module VgaDevice {
  import opened Common
  import opened VgaRegisters
  import opened CoalescedRing
  import opened VgaDisplay
  import Arith

  /** The page KVM and the device share. Only the device moves `first`. */
  class RingPage {
    const entries: array<Entry>
    var first: nat
    var last: nat

    ghost predicate Ok()
      reads this, entries
    {
      entries.Length == ENTRIES && EntriesValid(entries[..]) && Index(first) && Index(last)
    }

    ghost function Contents(): (q: seq<Entry>)
      requires Ok()
      reads this, entries
      ensures EntriesValid(q)
    {
      QueuedValid(entries[..], first, last);
      Queued(entries[..], first, last)
    }
  }

  /** The accesses a trapped transfer of `data` in units of `size` makes: each
      unit starts at the same port again and its bytes go to consecutive ones. */
  function Transfer(out: bool, port: int, size: nat, data: seq<Byte>, status: seq<Byte>): (t: seq<Access>)
    requires size > 0 && |status| == |data|
    ensures |t| == |data|
  {
    seq(|data|, k requires 0 <= k < |data| => One(out, port, size, data, status, k))
  }

  function One(out: bool, port: int, size: nat, data: seq<Byte>, status: seq<Byte>, k: nat): Access
    requires size > 0 && |status| == |data| && k < |data|
  {
    if out then Out(port + k % size, data[k]) else In(port + k % size, status[k])
  }

  lemma {:induction false} RepliesAppend(r: Regs, a: seq<Access>, b: Access)
    requires Valid(r)
    ensures PerformAll(r, a + [b]) == Perform(PerformAll(r, a), b)
    ensures Replies(r, a + [b]) == Replies(r, a)
      + (match b case In(port, status) => [ReadValue(PerformAll(r, a), port, status)] case Out(_, _) => [])
    decreases |a|
  {
    if a == [] {
      assert a + [b] == [b];
      assert [b][1..] == [];
    } else {
      assert (a + [b])[1..] == a[1..] + [b];
      RepliesAppend(Perform(r, a[0]), a[1..], b);
    }
  }

  lemma EntryByte(e: Entry, i: nat)
    requires EntryValid(e) && i < |EntryAccesses(e)|
    ensures i < |e.data| && EntryAccesses(e)[i] == Out(e.port + i, e.data[i])
  {
  }

  lemma PerformNext(r: Regs, accesses: seq<Access>, i: nat, port: int, byte: Byte)
    requires Valid(r) && i < |accesses| && accesses[i] == Out(port, byte)
    ensures PerformAll(r, accesses[..i + 1]) == WritePort(PerformAll(r, accesses[..i]), port, byte)
  {
    hide WritePort, Valid, PerformAll;
    OneLonger(accesses, i);
    RepliesAppend(r, accesses[..i], accesses[i]);
  }

  lemma NoAccesses(r: Regs)
    requires Valid(r)
    ensures PerformAll(r, []) == r && Replies(r, []) == []
  {
  }

  class Vga {
    var stores: Stores
    var acIndex: Byte
    var acDataNext: bool
    var ac: seq<Byte>
    var palette: seq<Byte>
    var dacWrite: Cursor
    var dacRead: Cursor
    var dacReading: bool
    var repaint: bool
    const mapped: bool
    const ring: RingPage?
    var frame: nat
    const pageWritten: array<nat>

    constructor (mapped: bool, ring: RingPage?)
      ensures this.mapped == mapped && this.ring == ring && frame == 0 && !repaint && !DisplayOn(Registers())
      ensures ring != null && ring.Ok() ==> Ok()
      ensures ring == null ==> Ok()
      ensures pageWritten[..] == seq(PAGES, _ => 0) && fresh(pageWritten)
    {
      stores := Stores(0, 0, seq(8, _ => 0), 0, seq(16, _ => 0), 0, seq(32, _ => 0));
      acIndex, acDataNext, ac := 0, false, seq(32, _ => 0);
      palette := seq(PALETTE_BYTES, _ => 0);
      dacWrite, dacRead, dacReading := Cursor(0, 0), Cursor(0, 0), false;
      repaint := false;
      this.mapped, this.ring := mapped, ring;
      frame := 0;
      pageWritten := new nat[PAGES](_ => 0);
    }

    ghost function Registers(): Regs
      reads this
    {
      Regs(stores, acIndex, acDataNext, ac, palette, dacWrite, dacRead, dacReading, repaint)
    }

    ghost predicate Ok()
      reads this, ring, if ring != null then {ring.entries} else {}
    {
      && Valid(Registers()) && pageWritten.Length == PAGES
      && (ring != null ==> ring.Ok())
    }

    /** What KVM has queued; nothing when it exits for each write. */
    ghost function Pending(): (q: seq<Entry>)
      requires Ok()
      reads this, ring, if ring != null then {ring.entries} else {}
      ensures EntriesValid(q)
    {
      if ring == null then [] else ring.Contents()
    }

    method Write(port: int, byte: Byte)
      requires Valid(Registers())
      modifies `stores, `acIndex, `acDataNext, `ac, `palette, `dacWrite, `dacRead, `dacReading, `repaint
      ensures Registers() == WritePort(old(Registers()), port, byte)
    {
      if port == AC_INDEX {
        if acDataNext {
          ac := ac[acIndex % 32 := byte];
        } else {
          repaint := repaint || Pas(acIndex) != Pas(byte);
          acIndex := byte % 64;
        }
        acDataNext := !acDataNext;
      } else if port == DAC_READ_INDEX {
        dacRead := Cursor(byte, 0);
        dacReading := true;
      } else if port == DAC_WRITE_INDEX {
        dacWrite := Cursor(byte, 0);
        dacReading := false;
      } else if port == DAC_DATA {
        var at := dacWrite;
        palette := palette[3 * at.index + at.component := byte % 64];
        repaint := true;
        dacWrite := if at.component == 2 then Cursor((at.index + 1) % 256, 0) else Cursor(at.index, at.component + 1);
      } else {
        stores := WriteStores(stores, port, byte);
      }
    }

    method Read(port: int, status: Byte) returns (value: Byte)
      requires Valid(Registers())
      modifies `dacRead, `acDataNext
      ensures Registers() == ReadEffect(old(Registers()), port)
      ensures value == ReadValue(old(Registers()), port, status)
    {
      if port == AC_INDEX {
        value := acIndex;
      } else if port == AC_READ {
        value := ac[acIndex % 32];
      } else if port == DAC_READ_INDEX {
        value := if dacReading then DAC_STATE_READ else 0;
      } else if port == DAC_WRITE_INDEX {
        value := dacWrite.index;
      } else if port == DAC_DATA {
        var at := dacRead;
        dacRead := if at.component == 2 then Cursor((at.index + 1) % 256, 0) else Cursor(at.index, at.component + 1);
        value := palette[3 * at.index + at.component];
      } else if port == INSTAT_READ {
        acDataNext := false;
        value := status;
      } else {
        value := ReadStores(stores, port);
      }
    }

    /** One queued entry, byte by byte. */
    method WriteEntry(e: Entry)
      requires Valid(Registers()) && EntryValid(e)
      modifies `stores, `acIndex, `acDataNext, `ac, `palette, `dacWrite, `dacRead, `dacReading, `repaint
      ensures Registers() == ApplyEntry(old(Registers()), e)
    {
      var n := if e.len < ENTRY_DATA then e.len else ENTRY_DATA;
      ghost var accesses := EntryAccesses(e);
      ghost var before := Registers();
      for i := 0 to n
        invariant Valid(Registers()) && Registers() == PerformAll(before, accesses[..i])
      {
        hide WritePort, PerformAll, StoresValid, EntryAccesses;
        EntryByte(e, i);
        PerformNext(before, accesses, i, e.port + i, e.data[i]);
        Write(e.port + i, e.data[i]);
      }
      assert accesses[..n] == accesses;
    }

    /** Applies what was queued when `last` was read, oldest first, and frees it. */
    method ApplyQueuedWrites()
      requires Ok()
      modifies `stores, `acIndex, `acDataNext, `ac, `palette, `dacWrite, `dacRead, `dacReading, `repaint
      modifies if ring != null then {ring} else {}
      ensures Ok()
      ensures Registers() == ApplyEntries(old(Registers()), old(Pending())) && Pending() == []
      ensures ring != null ==> ring.first == ring.last == old(ring.last)
    {
      if ring != null {
        var i: nat := ring.first;
        var end: nat := ring.last;
        ghost var before := Registers();
        ghost var all := ring.entries[..];
        while i != end
          invariant Index(i) && ring.first == old(ring.first) && ring.last == end
          invariant ring.Ok() && ring.entries[..] == all && Valid(Registers())
          invariant EntriesValid(Queued(all, i, end))
          invariant ApplyEntries(before, old(Pending())) == ApplyEntries(Registers(), Queued(all, i, end))
          decreases Span(i, end)
        {
          hide ApplyEntry, ApplyEntries, EntryValid;
          ghost var at := Registers();
          var e := ring.entries[i];
          assert e == all[i];
          WriteEntry(e);
          QueuedHead(all, i, end);
          QueuedValid(all, After(i), end);
          ApplyHead(at, e, Queued(all, After(i), end));
          i := (i + 1) % ENTRIES;
        }
        assert Queued(all, i, end) == [];
        ring.first := end;
      }
    }

    /** One byte of a transfer: written to the port, or read from it into the buffer. */
    method HandleByte(out: bool, port: int, data: array<Byte>, k: nat, status: Byte)
      requires Valid(Registers()) && k < data.Length
      modifies `stores, `acIndex, `acDataNext, `ac, `palette, `dacWrite, `dacRead, `dacReading, `repaint, data
      ensures Registers() == Perform(old(Registers()), if out then Out(port, old(data[k])) else In(port, status))
      ensures data[..] == if out then old(data[..]) else old(data[..])[k := ReadValue(old(Registers()), port, status)]
    {
      if out {
        Write(port, data[k]);
      } else {
        data[k] := Read(port, status);
      }
    }

    /** The buffer once `n` accesses of a transfer are done. */
    ghost function Buffer(r: Regs, out: bool, accesses: seq<Access>, bytes: seq<Byte>, n: nat): seq<Byte>
      requires Valid(r) && n <= |accesses| == |bytes|
    {
      if out then bytes else Replies(r, accesses[..n]) + bytes[n..]
    }

    /** One more access of a transfer. */
    lemma BufferStep(r: Regs, out: bool, port: int, size: nat, bytes: seq<Byte>, status: seq<Byte>, k: nat)
      requires Valid(r) && size > 0 && |status| == |bytes| && k < |bytes|
      requires !out ==> |Replies(r, Transfer(out, port, size, bytes, status)[..k])| == k
      ensures var accesses := Transfer(out, port, size, bytes, status);
              var at := PerformAll(r, accesses[..k]);
              var p := port + k % size;
              && PerformAll(r, accesses[..k + 1]) == Perform(at, if out then Out(p, bytes[k]) else In(p, status[k]))
              && Buffer(r, out, accesses, bytes, k + 1)
                 == (if out then bytes else Buffer(r, out, accesses, bytes, k)[k := ReadValue(at, p, status[k])])
              && (!out ==> |Replies(r, accesses[..k + 1])| == k + 1)
    {
      hide WritePort, ReadEffect, ReadValue, PerformAll, Replies, Valid;
      var accesses := Transfer(out, port, size, bytes, status);
      assert accesses[k] == One(out, port, size, bytes, status, k);
      hide Transfer;
      assert accesses[..k + 1] == accesses[..k] + [accesses[k]];
      RepliesAppend(r, accesses[..k], accesses[k]);
      if !out {
        ReplaceNext(Replies(r, accesses[..k]), bytes,
                    ReadValue(PerformAll(r, accesses[..k]), port + k % size, status[k]));
      }
    }

    lemma ReplaceNext(done: seq<Byte>, bytes: seq<Byte>, value: Byte)
      requires |done| < |bytes|
      ensures (done + [value]) + bytes[|done| + 1..] == (done + bytes[|done|..])[|done| := value]
    {
    }

    /** A transfer from the registers `r` with buffer `bytes` has got to its byte `n`. */
    ghost predicate Reached(r: Regs, out: bool, accesses: seq<Access>, bytes: seq<Byte>, n: nat, data: array<Byte>)
      requires Valid(r) && n <= |accesses| == |bytes|
      reads this, data
    {
      && Registers() == PerformAll(r, accesses[..n])
      && data[..] == Buffer(r, out, accesses, bytes, n)
      && (!out ==> |Replies(r, accesses[..n])| == n)
    }

    method TransactByte(ghost r: Regs, ghost bytes: seq<Byte>, out: bool, port: int, size: nat,
                        data: array<Byte>, status: seq<Byte>, at: nat, i: nat)
      requires Valid(r) && size > 0 && |status| == |bytes| == data.Length
      requires i < size && at % size == 0 && at + i < data.Length
      requires Reached(r, out, Transfer(out, port, size, bytes, status), bytes, at + i, data)
      modifies `stores, `acIndex, `acDataNext, `ac, `palette, `dacWrite, `dacRead, `dacReading, `repaint, data
      ensures Reached(r, out, Transfer(out, port, size, bytes, status), bytes, at + i + 1, data)
    {
      hide WritePort, ReadEffect, ReadValue, PerformAll, Replies, Valid, StoresValid;
      Arith.ModAdd(at, i, size);
      Arith.DivModUnique(i, 0, i, size);
      BufferStep(r, out, port, size, bytes, status, at + i);
      assert out ==> data[at + i] == data[..][at + i] == bytes[at + i];
      HandleByte(out, port + i, data, at + i, status[at + i]);
    }

    /** The bytes of a transfer, unit by unit. */
    method Transact(out: bool, port: int, size: nat, data: array<Byte>, status: seq<Byte>)
      requires Valid(Registers()) && size > 0 && data.Length % size == 0 && |status| == data.Length
      modifies `stores, `acIndex, `acDataNext, `ac, `palette, `dacWrite, `dacRead, `dacReading, `repaint, data
      ensures var accesses := Transfer(out, port, size, old(data[..]), status);
              && Registers() == PerformAll(old(Registers()), accesses)
              && data[..] == if out then old(data[..]) else Replies(old(Registers()), accesses)
    {
      hide WritePort, ReadEffect, ReadValue, PerformAll, Replies, Valid, StoresValid, Transfer;
      ghost var bytes := data[..];
      ghost var r := Registers();
      ghost var accesses := Transfer(out, port, size, bytes, status);
      var at := 0;
      assert accesses[..0] == [];
      NoAccesses(r);
      while at < data.Length
        invariant at % size == 0 && at <= data.Length
        invariant Reached(r, out, accesses, bytes, at, data)
      {
        UnitFits(data.Length, at, size);
        for i := 0 to size
          invariant Reached(r, out, accesses, bytes, at + i, data)
        {
          TransactByte(r, bytes, out, port, size, data, status, at, i);
        }
        at := at + size;
      }
      assert accesses[..at] == accesses;
    }

    /** A trapped access, after what was queued before it. */
    method Handle(out: bool, port: int, size: nat, data: array<Byte>, status: seq<Byte>)
      requires Ok() && size > 0 && data.Length % size == 0 && |status| == data.Length
      requires (data as object) != pageWritten
      modifies `stores, `acIndex, `acDataNext, `ac, `palette, `dacWrite, `dacRead, `dacReading, `repaint
      modifies if ring != null then {ring} else {}
      modifies data
      ensures Ok() && Pending() == []
      ensures var r := ApplyEntries(old(Registers()), old(Pending()));
              var accesses := Transfer(out, port, size, old(data[..]), status);
              && Registers() == PerformAll(r, accesses)
              && data[..] == if out then old(data[..]) else Replies(r, accesses)
    {
      hide ApplyEntries, Transfer, PerformAll, Replies, Valid, StoresValid, Queued;
      ApplyQueuedWrites();
      Transact(out, port, size, data, status);
      NothingPending();
    }

    lemma NothingPending()
      requires Ok() && (ring != null ==> ring.first == ring.last)
      ensures Pending() == []
    {
    }

    lemma UnitFits(n: nat, at: nat, size: nat)
      requires size > 0 && n % size == 0 && at % size == 0 && at < n
      ensures at + size <= n && (at + size) % size == 0
    {
      var units, done := n / size, at / size;
      assert n == units * size && at == done * size;
      assert (units - done) * size == units * size - done * size;
      if done < units {
        Arith.MulAtLeast(units - done, size);
      }
      Arith.ModMultiple(at, 1, size);
    }

    /** Starts a frame: stamps the pages of the bitmap, or all for a repaint,
        and returns the pages stamped after frame `seen`, first to last. */
    method WrittenPages(seen: nat, bitmap: seq<bool>) returns (pages: Option<(nat, nat)>)
      requires Ok() && |bitmap| == PAGES
      modifies `frame, `repaint, pageWritten
      ensures Ok() && frame == old(frame) + 1 && Registers() == old(Registers()).(repaint := false)
      ensures pageWritten[..] == Stamped(old(pageWritten[..]), bitmap, old(repaint), frame)
      ensures ChangedPages(pageWritten[..], seen, pages)
    {
      hide StoresValid, Stamped, ChangedPages, Changed;
      frame := frame + 1;
      StampPages(bitmap);
      repaint := false;
      pages := FindChanged(seen);
    }

    method StampPages(bitmap: seq<bool>)
      requires pageWritten.Length == PAGES == |bitmap|
      modifies pageWritten
      ensures pageWritten[..] == Stamped(old(pageWritten[..]), bitmap, repaint, frame)
    {
      ghost var was := pageWritten[..];
      ghost var stamped := Stamped(was, bitmap, repaint, frame);
      for page := 0 to PAGES
        invariant forall p :: 0 <= p < page ==> pageWritten[p] == stamped[p]
        invariant forall p :: page <= p < PAGES ==> pageWritten[p] == was[p]
      {
        if repaint || bitmap[page] {
          pageWritten[page] := frame;
        }
      }
      assert pageWritten[..] == stamped;
    }

    /** The range from the first page stamped after frame `seen` to the last. */
    method FindChanged(seen: nat) returns (pages: Option<(nat, nat)>)
      requires pageWritten.Length == PAGES
      ensures ChangedPages(pageWritten[..], seen, pages)
    {
      hide Changed;
      var first := 0;
      while first < PAGES && !Changed(pageWritten[..], seen, first)
        invariant first <= PAGES
        invariant forall p :: 0 <= p < first ==> !Changed(pageWritten[..], seen, p)
      {
        first := first + 1;
      }
      if first == PAGES {
        return None;
      }
      var end := PAGES;
      while !Changed(pageWritten[..], seen, end - 1)
        invariant first < end <= PAGES
        invariant forall p :: end <= p < PAGES ==> !Changed(pageWritten[..], seen, p)
        decreases end
      {
        end := end - 1;
      }
      pages := Some((first, end));
    }
  }

  /** The unlocked part of a render. `values[i]` is what the framebuffer holds
      when pixel `i` is read: the guest may be writing it. */
  method Draw(out: array<nat>, pages: (nat, nat), colours: seq<nat>, lit: bool, values: seq<Byte>)
    returns (rows: (nat, nat))
    requires out.Length == PIXELS == |values| && |colours| == COLOURS && pages.0 < pages.1 <= PAGES
    modifies out
    ensures rows == (RowStart(pages.0), RowEnd(pages.1)) && rows.0 < rows.1 <= HEIGHT
    ensures forall i :: 0 <= i < PIXELS ==>
      out[i] == if rows.0 * WIDTH <= i < rows.1 * WIDTH then (if lit then colours[values[i]] else 0) else old(out[i])
  {
    RowsCoverPages(pages.0, pages.1);
    rows := (pages.0 * PAGE / WIDTH,
      ((if pages.1 * PAGE < PIXELS then pages.1 * PAGE else PIXELS) + WIDTH - 1) / WIDTH);
    for i := rows.0 * WIDTH to rows.1 * WIDTH
      invariant forall k :: 0 <= k < PIXELS ==>
        out[k] == if rows.0 * WIDTH <= k < i then (if lit then colours[values[k]] else 0) else old(out[k])
    {
      out[i] := if lit then colours[values[i]] else 0;
    }
  }
}
