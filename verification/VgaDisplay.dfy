/** The display as its clients see it: why drawing only the pages the guest
    wrote keeps every client's picture right.

    Guest stores, queued and trapped register writes, and any number of
    clients' renders interleave. A render has a part under the device's lock,
    one step here, and then reads the framebuffer one pixel a step while the
    guest goes on. Framebuffer stores mark their page in KVM's dirty log. */
module VgaDisplay {
  import opened Common
  import opened VgaRegisters
  import opened CoalescedRing

  const WIDTH := 320
  const HEIGHT := 200
  const PIXELS := 64000
  const PAGE := 4096
  const PAGES := 16

  function PageOf(i: nat): nat { i / PAGE }

  // ----- colours

  function Widen(c: Byte): nat
    requires c < 64
  {
    c * 4 + c / 16
  }

  /** 0x00RRGGBB for palette entry `index`. */
  function Rgb(r: Regs, index: Byte): nat
    requires Valid(r)
  {
    Widen(r.palette[3 * index]) * 0x10000 + Widen(r.palette[3 * index + 1]) * 0x100 + Widen(r.palette[3 * index + 2])
  }

  function PaletteRgb(r: Regs): (t: seq<nat>)
    requires Valid(r)
    ensures |t| == COLOURS
  {
    seq(COLOURS, k requires 0 <= k < COLOURS => Rgb(r, k))
  }

  // ----- which pages, which rows

  /** The stamps after a frame: pages in the bitmap, or all for a repaint, were written in it. */
  function Stamped(stamps: seq<nat>, bitmap: seq<bool>, repaint: bool, frame: nat): (n: seq<nat>)
    requires |stamps| == PAGES == |bitmap|
    ensures |n| == PAGES
  {
    seq(PAGES, p requires 0 <= p < PAGES => if repaint || bitmap[p] then frame else stamps[p])
  }

  predicate Changed(stamps: seq<nat>, seen: nat, p: nat)
    requires p < |stamps|
  {
    seen == 0 || stamps[p] > seen
  }

  /** From the first changed page to the last. */
  predicate ChangedPages(stamps: seq<nat>, seen: nat, pages: Option<(nat, nat)>)
    requires |stamps| == PAGES
  {
    match pages
    case None => forall p :: 0 <= p < PAGES ==> !Changed(stamps, seen, p)
    case Some((first, end)) =>
      && first < end <= PAGES
      && Changed(stamps, seen, first) && Changed(stamps, seen, end - 1)
      && forall p :: 0 <= p < PAGES && Changed(stamps, seen, p) ==> first <= p < end
  }

  function RowStart(first: nat): nat { first * PAGE / WIDTH }

  function RowEnd(end: nat): nat {
    ((if end * PAGE < PIXELS then end * PAGE else PIXELS) + WIDTH - 1) / WIDTH
  }

  /** The rows drawn for a range of pages hold every pixel of those pages, and stay on the screen. */
  lemma RowsCoverPages(first: nat, end: nat)
    requires first < end <= PAGES
    ensures RowStart(first) * WIDTH < RowEnd(end) * WIDTH <= PIXELS
    ensures forall i :: 0 <= i < PIXELS && first <= PageOf(i) < end ==>
              RowStart(first) * WIDTH <= i < RowEnd(end) * WIDTH
  {
    forall i | 0 <= i < PIXELS && first <= PageOf(i) < end
      ensures RowStart(first) * WIDTH <= i < RowEnd(end) * WIDTH
    {
      assert first * PAGE <= i < end * PAGE;
    }
  }

  // ----- the system

  datatype Phase =
    | Idle
    // colours and lit: the palette and display-on bit copied under the lock
    | Reading(next: nat, end: nat, colours: seq<nat>, lit: bool)

  datatype Client = Client(out: seq<nat>, seen: nat, phase: Phase)

  datatype State = State(
    mapped: bool,             // guest RAM covers the framebuffer
    logged: bool,             // its pages have a dirty log
    pixels: seq<Byte>, dirty: seq<bool>,
    regs: Regs, queued: seq<Entry>,
    frame: nat, stamps: seq<nat>,
    clients: map<nat, Client>)

  datatype Action =
    | Store(i: nat, value: Byte)               // guest store to the framebuffer
    | QueueWrite(e: Entry)                     // DAC write queued by KVM
    | TrapAccess(accesses: seq<Access>)        // register access that exits
    | Connect(id: nat, out: seq<nat>)          // a client arrives, with any picture
    | Restart(id: nat)                         // a client asks for everything again
    | BeginRender(id: nat, fetched: bool, left: seq<bool>, pages: Option<(nat, nat)>)
                                               // the part under the lock; a failed fetch leaves any log
    | ReadPixel(id: nat)

  predicate ByGuest(a: Action) { a.Store? || a.QueueWrite? || a.TrapAccess? }

  ghost predicate WellFormed(s: State) {
    && |s.pixels| == PIXELS && |s.dirty| == PAGES && |s.stamps| == PAGES
    && Valid(s.regs) && EntriesValid(s.queued)
    && (forall c :: c in s.clients ==> ClientWellFormed(s.clients[c]))
  }

  predicate ClientWellFormed(c: Client) {
    && |c.out| == PIXELS
    && (c.phase.Reading? ==> c.phase.next < c.phase.end <= PIXELS && |c.phase.colours| == COLOURS)
  }

  /** The registers once what is queued has been applied. */
  ghost function Current(s: State): (r: Regs)
    requires WellFormed(s)
    ensures Valid(r)
  {
    ApplyEntries(s.regs, s.queued)
  }

  ghost predicate Lit(s: State)
    requires WellFormed(s)
  {
    s.mapped && DisplayOn(Current(s))
  }

  /** What the screen should show at pixel `i`: a full redraw's value. */
  ghost function Shown(s: State, i: nat): nat
    requires WellFormed(s) && i < PIXELS
  {
    if Lit(s) then Rgb(Current(s), s.pixels[i]) else 0
  }

  /** The bitmap a render works with. */
  ghost function Bitmap(s: State, fetched: bool): (b: seq<bool>)
    requires WellFormed(s)
    ensures |b| == PAGES
  {
    if !s.mapped then seq(PAGES, _ => false)
    else if s.logged && fetched then s.dirty
    else seq(PAGES, _ => true)
  }

  ghost function NewStamps(s: State, fetched: bool): (n: seq<nat>)
    requires WellFormed(s)
    ensures |n| == PAGES
  {
    Stamped(s.stamps, Bitmap(s, fetched), Current(s).repaint, s.frame + 1)
  }

  ghost function NewDirty(s: State, fetched: bool, left: seq<bool>): (d: seq<bool>)
    requires WellFormed(s) && |left| == PAGES
    ensures |d| == PAGES
  {
    if s.mapped && s.logged then (if fetched then seq(PAGES, _ => false) else left) else s.dirty
  }

  ghost predicate Enabled(s: State, a: Action)
    requires WellFormed(s)
  {
    match a
    case Store(i, _) => i < PIXELS && s.mapped
    case QueueWrite(e) => EntryValid(e)
    case TrapAccess(_) => true
    case Connect(id, out) => id !in s.clients && |out| == PIXELS
    case Restart(id) => id in s.clients && s.clients[id].phase.Idle?
    case BeginRender(id, fetched, left, pages) =>
      && id in s.clients && s.clients[id].phase.Idle? && |left| == PAGES
      && ChangedPages(NewStamps(s, fetched), s.clients[id].seen, pages)
    case ReadPixel(id) => id in s.clients && s.clients[id].phase.Reading?
  }

  /** The client after the part of a render under the lock. */
  ghost function Begun(s: State, c: Client, pages: Option<(nat, nat)>): (n: Client)
    requires WellFormed(s) && ClientWellFormed(c)
    requires pages.Some? ==> pages.value.0 < pages.value.1 <= PAGES
    ensures ClientWellFormed(n)
  {
    match pages
    case None => c.(seen := s.frame + 1)
    case Some((first, end)) =>
      RowsCoverPages(first, end);
      c.(seen := s.frame + 1,
         phase := Reading(RowStart(first) * WIDTH, RowEnd(end) * WIDTH, PaletteRgb(Current(s)), Lit(s)))
  }

  /** The value a render draws for pixel `i`. */
  ghost function Drawn(s: State, c: Client, i: nat): nat
    requires WellFormed(s) && c.phase.Reading? && |c.phase.colours| == COLOURS && i < PIXELS
  {
    if c.phase.lit then c.phase.colours[s.pixels[i]] else 0
  }

  ghost function AfterPixel(s: State, c: Client): (n: Client)
    requires WellFormed(s) && ClientWellFormed(c) && c.phase.Reading?
    ensures ClientWellFormed(n)
  {
    var next := c.phase.next;
    Client(c.out[next := Drawn(s, c, next)], c.seen,
           if next + 1 == c.phase.end then Idle else c.phase.(next := next + 1))
  }

  ghost function Apply(s: State, a: Action): (n: State)
    requires WellFormed(s) && Enabled(s, a)
    ensures WellFormed(n)
  {
    match a
    case Store(i, value) => s.(pixels := s.pixels[i := value], dirty := s.dirty[PageOf(i) := true])
    case QueueWrite(e) => s.(queued := s.queued + [e])
    case TrapAccess(accesses) => s.(regs := PerformAll(Current(s), accesses), queued := [])
    case Connect(id, out) => s.(clients := s.clients[id := Client(out, 0, Idle)])
    case Restart(id) => s.(clients := s.clients[id := s.clients[id].(seen := 0)])
    case BeginRender(id, fetched, left, pages) =>
      s.(regs := Current(s).(repaint := false), queued := [],
         frame := s.frame + 1, stamps := NewStamps(s, fetched), dirty := NewDirty(s, fetched, left),
         clients := s.clients[id := Begun(s, s.clients[id], pages)])
    case ReadPixel(id) => s.(clients := s.clients[id := AfterPixel(s, s.clients[id])])
  }

  // ----- coherence

  /** Reasons for which a client will still draw every pixel again. */
  ghost predicate AllOwed(s: State, c: Client)
    requires WellFormed(s)
  {
    c.seen == 0 || Current(s).repaint
  }

  /** Reasons for which it will draw the pixels of a page again. */
  ghost predicate PageOwed(s: State, c: Client, p: nat)
    requires WellFormed(s) && p < PAGES
  {
    (s.mapped && (!s.logged || s.dirty[p])) || s.stamps[p] > c.seen
  }

  ghost predicate Owed(s: State, c: Client, i: nat)
    requires WellFormed(s) && i < PIXELS
  {
    || AllOwed(s, c)
    || PageOwed(s, c, PageOf(i))
    || (c.phase.Reading? && c.phase.next <= i < c.phase.end)
  }

  /** What a render copied under the lock is still what the screen shows, or all is owed again. */
  ghost predicate Fresh(s: State, c: Client)
    requires WellFormed(s) && c.phase.Reading?
  {
    || Current(s).repaint
    || (forall p :: 0 <= p < PAGES ==> s.stamps[p] > c.seen)
    || (c.phase.lit == Lit(s) && (c.phase.lit ==> c.phase.colours == PaletteRgb(Current(s))))
  }

  ghost predicate Coherent(s: State, c: Client)
    requires WellFormed(s) && ClientWellFormed(c)
  {
    && c.seen <= s.frame
    && (c.phase.Reading? ==> c.seen > 0 && Fresh(s, c))
    && forall i :: 0 <= i < PIXELS ==> c.out[i] == Shown(s, i) || Owed(s, c, i)
  }

  /** All the client has yet to draw is ahead of it, and it draws it right. */
  ghost predicate Settled(s: State, c: Client)
    requires WellFormed(s) && ClientWellFormed(c)
  {
    && (c.phase.Reading? ==> c.phase.lit == Lit(s) && c.phase.colours == PaletteRgb(Current(s)))
    && forall i :: 0 <= i < PIXELS && !(c.phase.Reading? && c.phase.next <= i < c.phase.end) ==> c.out[i] == Shown(s, i)
  }

  ghost predicate Inv(s: State) {
    && WellFormed(s)
    && (forall p :: 0 <= p < PAGES ==> s.stamps[p] <= s.frame)
    && (forall id :: id in s.clients ==> Coherent(s, s.clients[id]))
  }

  lemma SameColours(r: Regs, q: Regs)
    requires Valid(r) && Valid(q) && r.palette == q.palette
    ensures PaletteRgb(r) == PaletteRgb(q) && forall k: Byte :: Rgb(r, k) == Rgb(q, k)
  {
    hide Widen;
  }

  /** The screen depends on the pixels, the palette, and whether it is on. */
  lemma ShownStays(s: State, n: State)
    requires WellFormed(s) && WellFormed(n) && n.mapped == s.mapped && n.pixels == s.pixels
    requires Current(n).palette == Current(s).palette && DisplayOn(Current(n)) == DisplayOn(Current(s))
    ensures PaletteRgb(Current(n)) == PaletteRgb(Current(s)) && Lit(n) == Lit(s)
    ensures forall i :: 0 <= i < PIXELS ==> Shown(n, i) == Shown(s, i)
  {
    hide Rgb, PaletteRgb, Current, DisplayOn;
    SameColours(Current(n), Current(s));
  }

  /** A change of registers that asks for a repaint when it shows. */
  lemma RegistersKeep(s: State, n: State, c: Client)
    requires WellFormed(s) && WellFormed(n) && ClientWellFormed(c) && Coherent(s, c)
    requires n == s.(regs := n.regs, queued := n.queued)
    requires Current(s).repaint ==> Current(n).repaint
    requires !Current(n).repaint ==>
               Current(n).palette == Current(s).palette && DisplayOn(Current(n)) == DisplayOn(Current(s))
    ensures Coherent(n, c)
  {
    if !Current(n).repaint {
      ShownStays(s, n);
      hide Rgb, PaletteRgb, Current, Shown, Lit;
      forall i | 0 <= i < PIXELS ensures c.out[i] == Shown(n, i) || Owed(n, c, i) {
        assert Owed(s, c, i) ==> Owed(n, c, i);
      }
    }
  }

  lemma StoreKeeps(s: State, i: nat, value: Byte, c: Client)
    requires WellFormed(s) && Enabled(s, Store(i, value)) && ClientWellFormed(c) && Coherent(s, c)
    ensures Coherent(Apply(s, Store(i, value)), c)
  {
    var n := Apply(s, Store(i, value));
    forall j | 0 <= j < PIXELS ensures c.out[j] == Shown(n, j) || Owed(n, c, j) {
      assert PageOwed(n, c, PageOf(i));
      assert Owed(s, c, j) ==> Owed(n, c, j);
    }
  }

  /** A render, this client's or another's, passes on what was owed. */
  lemma FrameKeeps(s: State, n: State, fetched: bool, c: Client)
    requires WellFormed(s) && WellFormed(n) && ClientWellFormed(c) && Coherent(s, c)
    requires n.mapped == s.mapped && n.logged == s.logged && n.pixels == s.pixels && n.queued == []
    requires n.regs == Current(s).(repaint := false)
    requires n.frame == s.frame + 1 && n.stamps == NewStamps(s, fetched)
    ensures Coherent(n, c)
  {
    assert Current(n) == n.regs;
    hide Rgb, PaletteRgb, Current;
    ShownStays(s, n);
    forall p | 0 <= p < PAGES && (Current(s).repaint || PageOwed(s, c, p))
      ensures n.stamps[p] > c.seen
    {
    }
    forall i | 0 <= i < PIXELS ensures c.out[i] == Shown(n, i) || Owed(n, c, i) {
      assert Shown(n, i) == Shown(s, i);
      if Owed(s, c, i) && !(c.seen == 0) && !(c.phase.Reading? && c.phase.next <= i < c.phase.end) {
        assert n.stamps[PageOf(i)] > c.seen;
      }
    }
  }

  /** A frame does not change what the screen shows. */
  lemma BeginShows(s: State, a: Action)
    requires WellFormed(s) && a.BeginRender? && Enabled(s, a)
    ensures var n := Apply(s, a);
            Current(n) == Current(s).(repaint := false) && PaletteRgb(Current(n)) == PaletteRgb(Current(s))
    ensures forall i :: 0 <= i < PIXELS ==> Shown(Apply(s, a), i) == Shown(s, i)
  {
    hide Rgb, PaletteRgb, NewStamps, NewDirty, Begun;
    var n := Apply(s, a);
    assert Current(n) == n.regs;
    hide Current;
    ShownStays(s, n);
  }

  /** A pixel of a page that did not change since the client's last frame was right all along. */
  lemma UnchangedIsRight(s: State, c: Client, fetched: bool, i: nat)
    requires WellFormed(s) && ClientWellFormed(c) && Coherent(s, c) && c.phase.Idle? && i < PIXELS
    requires !Changed(NewStamps(s, fetched), c.seen, PageOf(i))
    ensures c.out[i] == Shown(s, i)
  {
    assert !Owed(s, c, i);
  }

  /** The rendering client itself: outside the rows it will draw, its pixels are right. */
  lemma BeginKeeps(s: State, a: Action, c: Client)
    requires Inv(s) && a.BeginRender? && Enabled(s, a) && c == s.clients[a.id]
    ensures var n := Apply(s, a);
            Settled(n, n.clients[a.id]) && Coherent(n, n.clients[a.id])
  {
    BeginSettled(s, a, c);
    hide Rgb, PaletteRgb, Current, Shown, Lit, NewStamps, NewDirty, RowStart, RowEnd;
    var n := Apply(s, a);
    var d := n.clients[a.id];
    forall i | 0 <= i < PIXELS ensures d.out[i] == Shown(n, i) || Owed(n, d, i) {
    }
  }

  lemma BeginSettled(s: State, a: Action, c: Client)
    requires Inv(s) && a.BeginRender? && Enabled(s, a) && c == s.clients[a.id]
    ensures var n := Apply(s, a);
            Settled(n, n.clients[a.id])
  {
    BeginShows(s, a);
    var n := Apply(s, a);
    var d := n.clients[a.id];
    assert d.out == c.out;
    forall i | 0 <= i < PIXELS && !(d.phase.Reading? && d.phase.next <= i < d.phase.end)
      ensures d.out[i] == Shown(n, i)
    {
      OutsideUnchanged(s, a, i);
      UnchangedIsRight(s, c, a.fetched, i);
    }
    BegunCopies(s, a);
    hide Rgb, PaletteRgb, Current, Shown, Lit, NewStamps, NewDirty, RowStart, RowEnd, Begun, Inv;
  }

  /** The pixels a render leaves alone are of pages that did not change. */
  lemma OutsideUnchanged(s: State, a: Action, i: nat)
    requires WellFormed(s) && a.BeginRender? && Enabled(s, a) && i < PIXELS
    requires var d := Apply(s, a).clients[a.id];
             !(d.phase.Reading? && d.phase.next <= i < d.phase.end)
    ensures !Changed(NewStamps(s, a.fetched), s.clients[a.id].seen, PageOf(i))
  {
    hide Rgb, PaletteRgb, Current, NewStamps, NewDirty, RowStart, RowEnd;
    if a.pages.Some? {
      RowsCoverPages(a.pages.value.0, a.pages.value.1);
    }
  }

  /** What a render copies under the lock is what the screen shows. */
  lemma BegunCopies(s: State, a: Action)
    requires WellFormed(s) && a.BeginRender? && Enabled(s, a)
    ensures var n := Apply(s, a);
            var d := n.clients[a.id];
            d.phase.Reading? ==> d.phase.lit == Lit(n) && d.phase.colours == PaletteRgb(Current(n))
  {
    BeginShows(s, a);
    hide Rgb, PaletteRgb, NewStamps, NewDirty, RowStart, RowEnd;
    assert Current(Apply(s, a)) == Current(s).(repaint := false);
    hide Current;
  }

  lemma PixelKeeps(s: State, c: Client)
    requires WellFormed(s) && ClientWellFormed(c) && c.phase.Reading? && Coherent(s, c)
    ensures Coherent(s, AfterPixel(s, c))
  {
    var d := AfterPixel(s, c);
    forall i | 0 <= i < PIXELS ensures d.out[i] == Shown(s, i) || Owed(s, d, i) {
      if i == c.phase.next {
        assert Drawn(s, c, i) == Shown(s, i) || AllOwed(s, d) || PageOwed(s, d, PageOf(i));
      } else {
        assert Owed(s, c, i) ==> Owed(s, d, i);
      }
    }
  }

  /** Clients only depend on each other through the frame counter, the stamps and the log. */
  lemma CoherentFrame(s: State, n: State, c: Client)
    requires WellFormed(s) && WellFormed(n) && ClientWellFormed(c) && Coherent(s, c)
    requires n.(clients := s.clients) == s
    ensures Coherent(n, c)
  {
    forall i | 0 <= i < PIXELS ensures c.out[i] == Shown(n, i) || Owed(n, c, i) {
      assert Shown(n, i) == Shown(s, i);
      assert Owed(s, c, i) ==> Owed(n, c, i);
    }
  }

  lemma GuestKeeps(s: State, a: Action)
    requires Inv(s) && Enabled(s, a) && ByGuest(a)
    ensures Inv(Apply(s, a))
  {
    var n := Apply(s, a);
    forall id | id in n.clients ensures Coherent(n, n.clients[id]) {
      var c := s.clients[id];
      match a {
        case Store(i, value) => StoreKeeps(s, i, value, c);
        case QueueWrite(e) =>
          ApplyEntriesAppend(s.regs, s.queued, [e]);
          EntriesAskForRepaint(Current(s), [e]);
          RegistersKeep(s, n, c);
        case TrapAccess(accesses) =>
          ChangesAskForRepaint(Current(s), accesses);
          RegistersKeep(s, n, c);
      }
    }
  }

  lemma ClientKeeps(s: State, a: Action)
    requires Inv(s) && Enabled(s, a) && !ByGuest(a)
    ensures Inv(Apply(s, a))
  {
    hide Rgb, PaletteRgb, Current, Shown, Lit, RowStart, RowEnd, Coherent;
    var n := Apply(s, a);
    forall id | id in n.clients ensures Coherent(n, n.clients[id]) {
      if id != a.id {
        if a.BeginRender? {
          FrameKeeps(s, n, a.fetched, s.clients[id]);
        } else {
          CoherentFrame(s, n, s.clients[id]);
        }
      } else {
        match a {
          case BeginRender(_, _, _, _) => BeginKeeps(s, a, s.clients[id]);
          case ReadPixel(_) =>
            PixelKeeps(s, s.clients[id]);
            CoherentFrame(s, n, n.clients[id]);
          case Connect(_, _) => UnseenIsOwedAll(n, n.clients[id]);
          case Restart(_) => UnseenIsOwedAll(n, n.clients[id]);
          case _ =>
        }
      }
    }
  }

  /** A client that has seen nothing is owed everything. */
  lemma UnseenIsOwedAll(s: State, c: Client)
    requires WellFormed(s) && ClientWellFormed(c) && c.seen == 0 && c.phase.Idle?
    ensures Coherent(s, c)
  {
  }

  ghost predicate Init(s: State) {
    && WellFormed(s) && s.clients == map[] && s.frame == 0
    && s.stamps == seq(PAGES, _ => 0)
  }

  ghost predicate Run(s: State, actions: seq<Action>, t: State)
    decreases |actions|
  {
    && WellFormed(s) && WellFormed(t)
    && if actions == [] then s == t
       else Enabled(s, actions[0]) && Run(Apply(s, actions[0]), actions[1..], t)
  }

  lemma {:induction false} RunKeeps(s: State, actions: seq<Action>, t: State)
    requires Inv(s) && Run(s, actions, t)
    ensures Inv(t)
    decreases |actions|
  {
    if actions == [] {
    } else {
      if ByGuest(actions[0]) {
        GuestKeeps(s, actions[0]);
      } else {
        ClientKeeps(s, actions[0]);
      }
      RunKeeps(Apply(s, actions[0]), actions[1..], t);
    }
  }

  /** Whatever has happened, a pixel that is wrong is owed a redraw. */
  lemma WrongPixelsAreOwed(s: State, actions: seq<Action>, t: State, id: nat, i: nat)
    requires Init(s) && Run(s, actions, t)
    requires id in t.clients && i < PIXELS && t.clients[id].out[i] != Shown(t, i)
    ensures Owed(t, t.clients[id], i)
  {
    RunKeeps(s, actions, t);
    assert Coherent(t, t.clients[id]);
  }

  // ----- once the guest is quiet

  lemma DrawingStaysSettled(s: State, c: Client)
    requires WellFormed(s) && ClientWellFormed(c) && c.phase.Reading? && Settled(s, c)
    ensures Settled(s, AfterPixel(s, c))
  {
    assert Drawn(s, c, c.phase.next) == Shown(s, c.phase.next);
  }

  lemma SettledFrame(s: State, n: State, c: Client)
    requires WellFormed(s) && WellFormed(n) && ClientWellFormed(c) && Settled(s, c)
    requires n.mapped == s.mapped && n.pixels == s.pixels
    requires Current(n).palette == Current(s).palette && DisplayOn(Current(n)) == DisplayOn(Current(s))
    ensures Settled(n, c)
    ensures forall i :: 0 <= i < PIXELS ==> Shown(n, i) == Shown(s, i)
  {
    hide Rgb, PaletteRgb, Current, DisplayOn, Lit, Shown;
    ShownStays(s, n);
  }

  /** What other clients do, or this one drawing a pixel, leaves a settled client settled. */
  lemma SettledKeeps(s: State, a: Action, id: nat)
    requires WellFormed(s) && Enabled(s, a) && !ByGuest(a)
    requires id in s.clients && Settled(s, s.clients[id])
    requires a.BeginRender? ==> a.id != id
    ensures id in Apply(s, a).clients && Settled(Apply(s, a), Apply(s, a).clients[id])
    ensures forall i :: 0 <= i < PIXELS ==> Shown(Apply(s, a), i) == Shown(s, i)
  {
    var n := Apply(s, a);
    var c := s.clients[id];
    if a.BeginRender? {
      BeginShows(s, a);
    } else if a.ReadPixel? && a.id == id {
      DrawingStaysSettled(s, c);
      c := AfterPixel(s, c);
    } else if a.Restart? && a.id == id {
      c := n.clients[id];
    }
    SettledFrame(s, n, c);
  }

  lemma {:induction false} SettledRun(s: State, actions: seq<Action>, t: State, id: nat)
    requires Run(s, actions, t) && WellFormed(s) && id in s.clients && Settled(s, s.clients[id])
    requires forall k :: 0 <= k < |actions| ==>
               !ByGuest(actions[k]) && (actions[k].BeginRender? ==> actions[k].id != id)
    ensures WellFormed(t) && id in t.clients && Settled(t, t.clients[id])
    ensures forall i :: 0 <= i < PIXELS ==> Shown(t, i) == Shown(s, i)
    decreases |actions|
  {
    if actions == [] {
    } else {
      SettledKeeps(s, actions[0], id);
      SettledRun(Apply(s, actions[0]), actions[1..], t, id);
    }
  }

  lemma SettlesAtBegin(t: State, begin: Action)
    requires Inv(t) && begin.BeginRender? && Enabled(t, begin)
    ensures var n := Apply(t, begin);
            begin.id in n.clients && Settled(n, n.clients[begin.id])
    ensures forall i :: 0 <= i < PIXELS ==> Shown(Apply(t, begin), i) == Shown(t, i)
  {
    hide Shown, Settled, Current, NewStamps, NewDirty, ChangedPages;
    BeginKeeps(t, begin, t.clients[begin.id]);
    BeginShows(t, begin);
  }

  /** One whole render, or some of it, with the guest quiet; other clients do what they like. */
  ghost predicate QuietRender(t: State, begin: Action, rest: seq<Action>, u: State) {
    && begin.BeginRender? && WellFormed(t) && Enabled(t, begin) && Run(Apply(t, begin), rest, u)
    && forall k :: 0 <= k < |rest| ==> !ByGuest(rest[k]) && (rest[k].BeginRender? ==> rest[k].id != begin.id)
  }

  lemma QuietRenderSettles(t: State, begin: Action, rest: seq<Action>, u: State)
    requires Inv(t) && QuietRender(t, begin, rest, u)
    ensures WellFormed(u) && begin.id in u.clients && Settled(u, u.clients[begin.id])
    ensures forall i :: 0 <= i < PIXELS ==> Shown(u, i) == Shown(t, i)
  {
    SettlesAtBegin(t, begin);
    hide Inv, Apply, Enabled, Shown, WellFormed, Settled;
    SettledRun(Apply(t, begin), rest, u, begin.id);
  }

  /** After any history: if the guest is quiet while a client renders once
      more, whatever the other clients do meanwhile, the client ends up with
      exactly what a full redraw would have given. */
  lemma OneMoreRender(s: State, history: seq<Action>, t: State, begin: Action, rest: seq<Action>, u: State)
    requires Init(s) && Run(s, history, t) && QuietRender(t, begin, rest, u)
    ensures WellFormed(t) && WellFormed(u) && begin.id in u.clients
    ensures u.clients[begin.id].phase.Idle? ==>
      forall i :: 0 <= i < PIXELS ==> u.clients[begin.id].out[i] == Shown(u, i) == Shown(t, i)
  {
    RunKeeps(s, history, t);
    hide Run, Init, Shown, QuietRender;
    QuietRenderSettles(t, begin, rest, u);
  }

  /** A client that has seen no frame yet gets them all, the first time as any time. */
  lemma FirstRenderDrawsAll(stamps: seq<nat>, pages: Option<(nat, nat)>)
    requires |stamps| == PAGES && ChangedPages(stamps, 0, pages)
    ensures pages == Some((0, PAGES))
    ensures RowStart(0) == 0 && RowEnd(PAGES) == HEIGHT
  {
    assert Changed(stamps, 0, 0) && Changed(stamps, 0, PAGES - 1);
  }
}
