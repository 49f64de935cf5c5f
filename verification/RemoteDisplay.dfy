/** The display as the RFB server knows it: an interleaved render keeps what
    a Display promises, and comes to an end. */
module RemoteDisplay {
  import opened Common
  import opened VgaDisplay
  import Rfb

  /** The rows a render over these pages returns. */
  function RowsOf(pages: Option<(nat, nat)>): Option<(nat, nat)> {
    match pages
    case None => None
    case Some((first, end)) => Some((RowStart(first), RowEnd(end)))
  }

  predicate OutsideRows(i: nat, pages: Option<(nat, nat)>) {
    match pages
    case None => true
    case Some((first, end)) => !(RowStart(first) * WIDTH <= i < RowEnd(end) * WIDTH)
  }

  /** No new render, and no request for everything again, by client `id`. */
  predicate LeavesAlone(actions: seq<Action>, id: nat) {
    forall k :: 0 <= k < |actions| && (actions[k].BeginRender? || actions[k].Restart?) ==> actions[k].id != id
  }

  /** A client in the middle of a render that began with picture `out`. */
  ghost predicate Midway(s: State, id: nat, out: seq<nat>, seen: nat, pages: Option<(nat, nat)>) {
    && WellFormed(s) && id in s.clients && |out| == PIXELS
    && var c := s.clients[id];
    && c.seen == seen
    && (c.phase.Reading? ==>
          && pages.Some?
          && RowStart(pages.value.0) * WIDTH <= c.phase.next
          && c.phase.end == RowEnd(pages.value.1) * WIDTH)
    && forall i :: 0 <= i < PIXELS && OutsideRows(i, pages) ==> c.out[i] == out[i]
  }

  lemma MidwayStep(s: State, a: Action, id: nat, out: seq<nat>, seen: nat, pages: Option<(nat, nat)>)
    requires Midway(s, id, out, seen, pages) && Enabled(s, a) && LeavesAlone([a], id)
    ensures Midway(Apply(s, a), id, out, seen, pages)
  {
    assert [a][0] == a;
    hide RowStart, RowEnd, Current, NewStamps, NewDirty, PaletteRgb;
    var n := Apply(s, a);
    match a
    case Store(_, _) =>
    case QueueWrite(_) =>
    case TrapAccess(_) =>
    case Connect(_, _) =>
    case Restart(_) =>
    case BeginRender(_, _, _, _) =>
    case ReadPixel(other) =>
      if other == id {
        forall i | 0 <= i < PIXELS && OutsideRows(i, pages) ensures n.clients[id].out[i] == out[i] {
          assert i != s.clients[id].phase.next;
        }
      }
  }

  lemma {:induction false} MidwayRun(s: State, actions: seq<Action>, t: State, id: nat, out: seq<nat>, seen: nat,
                                     pages: Option<(nat, nat)>)
    requires Run(s, actions, t) && Midway(s, id, out, seen, pages) && LeavesAlone(actions, id)
    ensures Midway(t, id, out, seen, pages)
    decreases |actions|
  {
    if actions == [] {
    } else {
      MidwayStep(s, actions[0], id, out, seen, pages);
      MidwayRun(Apply(s, actions[0]), actions[1..], t, id, out, seen, pages);
    }
  }

  /** Whatever the guest and other clients do while a client renders: only the
      rows returned change in its picture, all of them are drawn for a client
      that had seen nothing, and it has seen a frame afterwards. */
  lemma RenderKeepsItsPromise(s: State, begin: Action, rest: seq<Action>, u: State)
    requires begin.BeginRender? && WellFormed(s) && Enabled(s, begin)
    requires Run(Apply(s, begin), rest, u) && LeavesAlone(rest, begin.id)
    ensures WellFormed(u) && begin.id in u.clients
    ensures Rfb.Rendered(WIDTH, HEIGHT, s.clients[begin.id].out, s.clients[begin.id].seen,
                         RowsOf(begin.pages), u.clients[begin.id].out, u.clients[begin.id].seen)
  {
    var id, pages, c := begin.id, begin.pages, s.clients[begin.id];
    BeginIsMidway(s, begin);
    MidwayRun(Apply(s, begin), rest, u, id, c.out, s.frame + 1, pages);
    hide Run, Apply, Enabled, RowStart, RowEnd, Midway, WellFormed;
    MidwayMeans(u, id, c.out, s.frame + 1, pages);
    DoneIsRendered(c.out, c.seen, pages, u.clients[id].out, s.frame + 1);
  }

  lemma MidwayMeans(u: State, id: nat, out: seq<nat>, seen: nat, pages: Option<(nat, nat)>)
    requires Midway(u, id, out, seen, pages)
    ensures WellFormed(u) && id in u.clients && |u.clients[id].out| == PIXELS == |out| && u.clients[id].seen == seen
    ensures forall i :: 0 <= i < PIXELS && OutsideRows(i, pages) ==> u.clients[id].out[i] == out[i]
  {
    hide RowStart, RowEnd, Current;
  }

  /** A picture changed only in the rows of these pages is what a render may leave. */
  lemma DoneIsRendered(out: seq<nat>, seen: nat, pages: Option<(nat, nat)>, out': seq<nat>, seen': nat)
    requires |out| == |out'| == PIXELS && seen' > 0
    requires forall i :: 0 <= i < PIXELS && OutsideRows(i, pages) ==> out'[i] == out[i]
    requires pages.Some? ==> pages.value.0 < pages.value.1 <= PAGES
    requires seen == 0 ==> pages == Some((0, PAGES)) && RowStart(0) == 0 && RowEnd(PAGES) == HEIGHT
    ensures Rfb.Rendered(WIDTH, HEIGHT, out, seen, RowsOf(pages), out', seen')
  {
    hide RowStart, RowEnd;
    assert WIDTH * HEIGHT == PIXELS;
    match pages
    case None =>
    case Some((first, end)) => RowsCoverPages(first, end);
  }

  lemma BeginIsMidway(s: State, begin: Action)
    requires begin.BeginRender? && WellFormed(s) && Enabled(s, begin)
    ensures Midway(Apply(s, begin), begin.id, s.clients[begin.id].out, s.frame + 1, begin.pages)
    ensures begin.pages.Some? ==> begin.pages.value.0 < begin.pages.value.1 <= PAGES
    ensures s.clients[begin.id].seen == 0 ==>
              begin.pages == Some((0, PAGES)) && RowStart(0) == 0 && RowEnd(PAGES) == HEIGHT
  {
    var pages := begin.pages;
    if pages.Some? {
      RowsCoverPages(pages.value.0, pages.value.1);
    }
    if s.clients[begin.id].seen == 0 {
      FirstRenderDrawsAll(NewStamps(s, begin.fetched), pages);
    }
    hide RowStart, RowEnd, NewStamps, NewDirty, PaletteRgb, Current;
  }

  lemma ShownIsColour(s: State, i: nat)
    requires WellFormed(s) && i < PIXELS
    ensures Shown(s, i) < 0x100_0000
  {
  }

  /** The whole screen, as a full redraw would give it. */
  ghost function Screen(s: State): (p: seq<Word32>)
    requires WellFormed(s)
    ensures |p| == PIXELS && forall i :: 0 <= i < PIXELS ==> p[i] == Shown(s, i)
  {
    seq(PIXELS, i requires 0 <= i < PIXELS => ShownIsColour(s, i); Shown(s, i))
  }

  /** Left alone, a client in the middle of a render gets to its end. */
  lemma DrawsToEnd(s: State, id: nat) returns (rest: seq<Action>, u: State)
    requires WellFormed(s) && id in s.clients
    ensures WellFormed(u) && Run(s, rest, u) && id in u.clients && u.clients[id].phase.Idle?
    ensures forall k :: 0 <= k < |rest| ==> rest[k] == ReadPixel(id)
    decreases if s.clients[id].phase.Reading? then s.clients[id].phase.end - s.clients[id].phase.next else 0
  {
    if s.clients[id].phase.Idle? {
      rest, u := [], s;
    } else {
      assert ClientWellFormed(s.clients[id]);
      var n := Apply(s, ReadPixel(id));
      var more;
      more, u := DrawsToEnd(n, id);
      rest := [ReadPixel(id)] + more;
      assert rest[0] == ReadPixel(id) && rest[1..] == more;
    }
  }

  /** So every render that begins can be a quiet one. */
  lemma RenderFinishes(t: State, begin: Action) returns (rest: seq<Action>, u: State)
    requires begin.BeginRender? && WellFormed(t) && Enabled(t, begin)
    ensures QuietRender(t, begin, rest, u)
    ensures begin.id in u.clients && u.clients[begin.id].phase.Idle?
  {
    hide NewStamps, NewDirty, RowStart, RowEnd, PaletteRgb, Current;
    rest, u := DrawsToEnd(Apply(t, begin), begin.id);
  }
}
