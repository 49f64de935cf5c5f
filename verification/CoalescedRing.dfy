/** The ring in which KVM queues writes to the DAC ports instead of exiting
    for each, and why the guest cannot tell.

    The steps are as fine as the shared memory: KVM appends an entry while a
    render drains the ring entry by entry under the device's lock. Beside the
    device runs a reference device that applies every guest write at once, in
    program order; every trapped access and every frame is compared with it. */
module CoalescedRing {
  import opened Common
  import opened VgaRegisters

  /** (4096 - 8) / 24: what fits in the page after the two indices. */
  const ENTRIES := 170

  const ENTRY_DATA := 8

  datatype Entry = Entry(port: int, len: nat, data: seq<Byte>)

  predicate EntryValid(e: Entry) { |e.data| == ENTRY_DATA }

  /** The bytes an entry carries, each for the port after the one before. */
  function EntryAccesses(e: Entry): seq<Access>
    requires EntryValid(e)
  {
    var n := if e.len < ENTRY_DATA then e.len else ENTRY_DATA;
    seq(n, k requires 0 <= k < n => Out(e.port + k, e.data[k]))
  }

  function ApplyEntry(r: Regs, e: Entry): (n: Regs)
    requires Valid(r) && EntryValid(e)
    ensures Valid(n)
  {
    PerformAll(r, EntryAccesses(e))
  }

  predicate EntriesValid(es: seq<Entry>) { forall k :: 0 <= k < |es| ==> EntryValid(es[k]) }

  function ApplyEntries(r: Regs, es: seq<Entry>): (n: Regs)
    requires Valid(r) && EntriesValid(es)
    ensures Valid(n)
    decreases |es|
  {
    if es == [] then r else ApplyEntries(ApplyEntry(r, es[0]), es[1..])
  }

  lemma {:induction false} ApplyEntriesAppend(r: Regs, a: seq<Entry>, b: seq<Entry>)
    requires Valid(r) && EntriesValid(a) && EntriesValid(b)
    ensures ApplyEntries(r, a + b) == ApplyEntries(ApplyEntries(r, a), b)
    decreases |a|
  {
    if a == [] {
      assert a + b == b;
    } else {
      assert (a + b)[1..] == a[1..] + b;
      ApplyEntriesAppend(ApplyEntry(r, a[0]), a[1..], b);
    }
  }

  lemma ApplyOne(r: Regs, e: Entry)
    requires Valid(r) && EntryValid(e)
    ensures ApplyEntries(r, [e]) == ApplyEntry(r, e)
  {
    assert [e][1..] == [];
  }

  /** Applying queued entries, too, asks for a repaint when it changes the picture. */
  lemma {:induction false} EntriesAskForRepaint(r: Regs, es: seq<Entry>)
    requires Valid(r) && EntriesValid(es)
    ensures r.repaint ==> ApplyEntries(r, es).repaint
    ensures var n := ApplyEntries(r, es);
            !n.repaint ==> n.palette == r.palette && DisplayOn(n) == DisplayOn(r)
    decreases |es|
  {
    if es == [] {
    } else {
      ChangesAskForRepaint(r, EntryAccesses(es[0]));
      EntriesAskForRepaint(ApplyEntry(r, es[0]), es[1..]);
    }
  }

  // ----- the ring

  predicate Index(i: nat) { i < ENTRIES }

  function After(i: nat): nat { (i + 1) % ENTRIES }

  function Slot(i: nat, k: nat): nat { (i + k) % ENTRIES }

  /** How many entries there are from index `i` up to `j`. */
  function Span(i: nat, j: nat): nat
    requires Index(i) && Index(j)
  {
    if i <= j then j - i else j + ENTRIES - i
  }

  /** The entries from index `i` up to `j`, oldest first, around the end of the page. */
  function Queued(entries: seq<Entry>, i: nat, j: nat): (q: seq<Entry>)
    requires |entries| == ENTRIES && Index(i) && Index(j)
    ensures |q| == Span(i, j)
  {
    seq(Span(i, j), k requires 0 <= k < Span(i, j) => entries[Slot(i, k)])
  }

  lemma QueuedValid(entries: seq<Entry>, i: nat, j: nat)
    requires |entries| == ENTRIES && Index(i) && Index(j) && EntriesValid(entries)
    ensures EntriesValid(Queued(entries, i, j))
  {
  }

  lemma QueuedHead(entries: seq<Entry>, i: nat, j: nat)
    requires |entries| == ENTRIES && Index(i) && Index(j) && i != j
    ensures Queued(entries, i, j) == [entries[i]] + Queued(entries, After(i), j)
  {
    var rest := Queued(entries, After(i), j);
    forall k | 0 <= k < Span(i, j) ensures Queued(entries, i, j)[k] == ([entries[i]] + rest)[k] {
      if k > 0 {
        assert Slot(After(i), k - 1) == Slot(i, k);
      }
    }
  }

  /** An entry stored at `j` while the ring has room extends what is queued... */
  lemma QueuedAppend(entries: seq<Entry>, i: nat, j: nat, e: Entry)
    requires |entries| == ENTRIES && Index(i) && Index(j) && After(j) != i
    ensures Queued(entries[j := e], i, After(j)) == Queued(entries, i, j) + [e]
  {
    assert Span(i, After(j)) == Span(i, j) + 1;
    assert Slot(i, Span(i, j)) == j;
    forall k | 0 <= k < Span(i, j) ensures Slot(i, k) != j {
    }
  }

  /** ...and leaves what is queued up to any earlier point alone. */
  lemma QueuedUntouched(entries: seq<Entry>, i: nat, m: nat, j: nat, e: Entry)
    requires |entries| == ENTRIES && Index(i) && Index(j) && Index(m) && Span(i, m) <= Span(i, j)
    ensures Queued(entries[j := e], i, m) == Queued(entries, i, m)
  {
    forall k | 0 <= k < Span(i, m) ensures Slot(i, k) != j {
    }
  }

  /** Where the reader is between `first` and `last` survives an append... */
  lemma BetweenAppend(first: nat, at: nat, last: nat)
    requires Index(first) && Index(at) && Index(last) && After(last) != first
    requires Span(first, at) + Span(at, last) == Span(first, last)
    ensures After(last) != at
    ensures Span(at, After(last)) == Span(at, last) + 1
    ensures Span(first, at) + Span(at, After(last)) == Span(first, After(last))
  {
  }

  /** ...and an advance. */
  lemma BetweenAdvance(first: nat, at: nat, end: nat, last: nat)
    requires Index(first) && Index(at) && Index(end) && Index(last) && at != end
    requires Span(first, at) + Span(at, last) == Span(first, last) && Span(at, end) <= Span(at, last)
    ensures at != last
    ensures Span(first, After(at)) + Span(After(at), last) == Span(first, last)
    ensures Span(After(at), end) <= Span(After(at), last)
  {
  }

  // ----- the protocol

  datatype Reader = Vcpu | Renderer

  /** Who holds the device's lock. `target` is the reference device at the
      moment the holder read `last`, which is where its drain takes effect. */
  datatype Phase =
    | Unlocked
    | Draining(reader: Reader, at: nat, end: nat, target: Regs)
    | Drained(reader: Reader, target: Regs)

  datatype State = State(
    entries: seq<Entry>, first: nat, last: nat,
    device: Regs,
    trapped: bool,               // the guest waits for a trapped access
    phase: Phase,
    // history
    direct: Regs,                // the reference device
    issued: seq<Entry>, applied: seq<Entry>,
    replies: seq<seq<Byte>>, wanted: seq<seq<Byte>>,
    frames: seq<Regs>, expected: seq<Regs>)

  datatype Action =
    | Queue(e: Entry)            // KVM queues a guest write
    | Trap                       // the guest's access exits: not a DAC write, or the ring is full
    | Lock(reader: Reader)       // lock the device, read `first` and `last`
    | DrainOne                   // apply one entry
    | DrainEnd                   // free the entries
    | Handle(accesses: seq<Access>)  // the trapped access; unlock, resume the guest
    | Frame                      // copy the palette, take back the repaint flag, unlock

  /** Registers as the guest and the frontends see them: without the repaint flag. */
  function Visible(r: Regs): Regs { r.(repaint := true) }

  function Position(s: State): nat { if s.phase.Draining? then s.phase.at else s.first }

  predicate Enabled(s: State, a: Action) {
    match a
    case Queue(e) => !s.trapped && EntryValid(e) && After(s.last) != s.first
    case Trap => !s.trapped
    case Lock(reader) => s.phase.Unlocked? && (reader.Vcpu? ==> s.trapped)
    case DrainOne => s.phase.Draining? && s.phase.at != s.phase.end
    case DrainEnd => s.phase.Draining? && s.phase.at == s.phase.end
    case Handle(_) => s.phase.Drained? && s.phase.reader.Vcpu?
    case Frame => s.phase.Drained? && s.phase.reader.Renderer?
  }

  ghost predicate WellFormed(s: State) {
    && |s.entries| == ENTRIES && EntriesValid(s.entries)
    && Index(s.first) && Index(s.last) && Valid(s.device) && Valid(s.direct)
    && (s.phase.Draining? ==> Index(s.phase.at) && Index(s.phase.end))
  }

  ghost function Apply(s: State, a: Action): State
    requires WellFormed(s) && Enabled(s, a)
  {
    match a
    case Queue(e) =>
      s.(entries := s.entries[s.last := e], last := After(s.last),
         issued := s.issued + [e], direct := ApplyEntry(s.direct, e))
    case Trap => s.(trapped := true)
    case Lock(reader) => s.(phase := Draining(reader, s.first, s.last, s.direct))
    case DrainOne =>
      var e := s.entries[s.phase.at];
      s.(device := ApplyEntry(s.device, e), applied := s.applied + [e],
         phase := s.phase.(at := After(s.phase.at)))
    case DrainEnd => s.(first := s.phase.end, phase := Drained(s.phase.reader, s.phase.target))
    case Handle(accesses) =>
      s.(device := PerformAll(s.device, accesses), replies := s.replies + [Replies(s.device, accesses)],
         direct := PerformAll(s.direct, accesses), wanted := s.wanted + [Replies(s.direct, accesses)],
         phase := Unlocked, trapped := false)
    case Frame =>
      s.(device := s.device.(repaint := false), frames := s.frames + [Visible(s.device)],
         expected := s.expected + [s.phase.target], phase := Unlocked)
  }

  ghost predicate Inv(s: State) {
    && WellFormed(s)
    && s.direct == Visible(ApplyEntries(s.device, Waiting(s)))
    && s.issued == s.applied + Waiting(s)
    && s.replies == s.wanted && s.frames == s.expected
    && match s.phase
       case Unlocked => true
       case Draining(reader, at, end, target) =>
         && Span(s.first, at) + Span(at, s.last) == Span(s.first, s.last)
         && Span(at, end) <= Span(at, s.last)
         && target == Visible(ApplyEntries(s.device, Queued(s.entries, at, end)))
         && (reader.Vcpu? ==> s.trapped && end == s.last)
       case Drained(reader, target) =>
         && target == Visible(s.device)
         && (reader.Vcpu? ==> s.trapped && s.first == s.last)
  }

  /** What is queued and not yet applied. */
  ghost function Waiting(s: State): (q: seq<Entry>)
    requires WellFormed(s)
    ensures EntriesValid(q)
  {
    Queued(s.entries, Position(s), s.last)
  }

  lemma VisiblePerform(r: Regs, accesses: seq<Access>)
    requires Valid(r)
    ensures PerformAll(Visible(r), accesses) == Visible(PerformAll(r, accesses))
    ensures Replies(Visible(r), accesses) == Replies(r, accesses)
  {
    RepaintIsInvisible(r, accesses, true);
    ChangesAskForRepaint(Visible(r), accesses);
  }

  lemma {:induction false} VisibleEntries(r: Regs, es: seq<Entry>)
    requires Valid(r) && EntriesValid(es)
    ensures ApplyEntries(Visible(r), es) == Visible(ApplyEntries(r, es))
    decreases |es|
  {
    if es == [] {
    } else {
      VisiblePerform(r, EntryAccesses(es[0]));
      VisibleEntries(ApplyEntry(r, es[0]), es[1..]);
    }
  }

  /** The reference device takes a queued write at once; the device takes it after what waits. */
  lemma QueuedLater(device: Regs, waiting: seq<Entry>, e: Entry)
    requires Valid(device) && EntriesValid(waiting) && EntryValid(e)
    ensures ApplyEntry(Visible(ApplyEntries(device, waiting)), e) == Visible(ApplyEntries(device, waiting + [e]))
  {
    ApplyEntriesAppend(device, waiting, [e]);
    ApplyOne(ApplyEntries(device, waiting), e);
    VisiblePerform(ApplyEntries(device, waiting), EntryAccesses(e));
  }

  lemma QueueKeeps(s: State, e: Entry)
    requires Inv(s) && Enabled(s, Queue(e))
    ensures Inv(Apply(s, Queue(e)))
  {
    hide ApplyEntry, PerformAll, EntryAccesses;
    var n := Apply(s, Queue(e));
    var at := Position(s);
    if s.phase.Draining? {
      BetweenAppend(s.first, at, s.last);
      QueuedUntouched(s.entries, at, s.phase.end, s.last, e);
    }
    QueuedAppend(s.entries, at, s.last, e);
    assert Waiting(n) == Waiting(s) + [e];
    QueuedLater(s.device, Waiting(s), e);
    assert s.applied + Waiting(n) == s.applied + Waiting(s) + [e];
  }

  lemma ApplyHead(r: Regs, e: Entry, rest: seq<Entry>)
    requires Valid(r) && EntryValid(e) && EntriesValid(rest)
    ensures ApplyEntries(r, [e] + rest) == ApplyEntries(ApplyEntry(r, e), rest)
  {
    assert ([e] + rest)[1..] == rest;
  }

  lemma DrainOneKeeps(s: State)
    requires Inv(s) && Enabled(s, DrainOne)
    ensures Inv(Apply(s, DrainOne))
  {
    hide ApplyEntry, ApplyEntries, PerformAll, EntryAccesses, Queued;
    var n := Apply(s, DrainOne);
    var at, end := s.phase.at, s.phase.end;
    var e := s.entries[at];
    BetweenAdvance(s.first, at, end, s.last);
    QueuedHead(s.entries, at, end);
    QueuedHead(s.entries, at, s.last);
    QueuedValid(s.entries, After(at), end);
    ApplyHead(s.device, e, Queued(s.entries, After(at), end));
    ApplyHead(s.device, e, Waiting(n));
    assert s.applied + ([e] + Waiting(n)) == n.applied + Waiting(n);
  }

  lemma HandleKeeps(s: State, accesses: seq<Access>)
    requires Inv(s) && Enabled(s, Handle(accesses))
    ensures Inv(Apply(s, Handle(accesses)))
  {
    assert Waiting(s) == [];
    VisiblePerform(s.device, accesses);
  }

  lemma FrameKeeps(s: State)
    requires Inv(s) && Enabled(s, Frame)
    ensures Inv(Apply(s, Frame))
  {
    hide ApplyEntry, ApplyEntries, EntryValid, Span;
    VisibleEntries(s.device, Waiting(s));
    VisibleEntries(s.device.(repaint := false), Waiting(s));
    assert Visible(s.device.(repaint := false)) == Visible(s.device);
  }

  lemma StepKeeps(s: State, a: Action)
    requires Inv(s) && Enabled(s, a)
    ensures Inv(Apply(s, a))
  {
    match a
    case Queue(e) => QueueKeeps(s, e);
    case DrainOne => DrainOneKeeps(s);
    case Handle(accesses) => HandleKeeps(s, accesses);
    case Frame => FrameKeeps(s);
    case DrainEnd => assert Queued(s.entries, s.phase.at, s.phase.end) == [];
    case _ =>
  }

  ghost predicate Init(s: State) {
    && WellFormed(s)
    && s.first == s.last && s.phase.Unlocked? && !s.trapped
    && s.direct == Visible(s.device)
    && s.issued == [] == s.applied && s.replies == [] == s.wanted && s.frames == [] == s.expected
  }

  /** `s` can become `t` by the given actions, each enabled when it happens. */
  ghost predicate Run(s: State, actions: seq<Action>, t: State)
    decreases |actions|
  {
    if actions == [] then s == t
    else WellFormed(s) && Enabled(s, actions[0]) && Run(Apply(s, actions[0]), actions[1..], t)
  }

  lemma {:induction false} RunKeeps(s: State, actions: seq<Action>, t: State)
    requires Inv(s) && Run(s, actions, t)
    ensures Inv(t)
    decreases |actions|
  {
    if actions == [] {
    } else {
      StepKeeps(s, actions[0]);
      RunKeeps(Apply(s, actions[0]), actions[1..], t);
    }
  }

  /** Coalescing is invisible: in every run, whatever fills the ring and
      whatever renders meanwhile, each trapped access got the bytes the
      reference device gives, each frame saw the reference device as it was
      when the frame's drain began, and the entries were applied exactly once
      each in the order the guest wrote them. */
  lemma CoalescingIsInvisible(s: State, actions: seq<Action>, t: State)
    requires Init(s) && Run(s, actions, t)
    ensures t.replies == t.wanted
    ensures t.frames == t.expected
    ensures t.applied <= t.issued
    ensures t.trapped && t.phase.Drained? && t.phase.reader.Vcpu? ==>
              t.applied == t.issued && Visible(t.device) == t.direct
  {
    assert Waiting(s) == [];
    assert Inv(s);
    RunKeeps(s, actions, t);
    if t.trapped && t.phase.Drained? && t.phase.reader.Vcpu? {
      assert Waiting(t) == [];
    }
  }
}
