/** A machine and the connection that shows its display, in one run: what the
    remote picture is, through the dirty-page log, the rows sent and the network. */
module RemoteSession {
  import opened Common
  import opened VgaDisplay
  import opened RemoteDisplay
  import Rfb

  /** What a render began with. */
  datatype Started = Started(out: seq<nat>, seen: nat, pages: Option<(nat, nat)>)

  /** The machine with the sender as its display client `id`; the sender takes
      no request while it renders. */
  datatype Joint = Joint(machine: State, session: Rfb.State, id: nat, render: Option<Started>)

  datatype Move =
    | Elsewhere(a: Action)          // the guest, or another display client
    | Remote(r: Rfb.Action)         // the remote client asks or draws
    | Receive                       // the sender takes a request
    | Begin(begin: Action)          // it calls render: the part under the lock
    | Pixel                         // the part outside
    | Finish                        // render returns, and the update is sent

  predicate OfOther(a: Action, id: nat) { ByGuest(a) || a.id != id }

  /** A frame as the sender holds it. */
  function Words(out: seq<nat>): (w: seq<Word32>)
    ensures |w| == |out|
  {
    seq(|out|, i requires 0 <= i < |out| => out[i] % HALF_WORD)
  }

  ghost function RenderOf(j: Joint): Rfb.Action
    requires j.render.Some? && j.id in j.machine.clients
  {
    var c := j.machine.clients[j.id];
    Rfb.Render(RowsOf(j.render.value.pages), Words(c.out), c.seen)
  }

  /** Everything a move needs from the two systems; a render that has drawn its
      last pixel can always return, see FinishIsEnabled. */
  ghost predicate CanMove(j: Joint, m: Move)
    requires WellFormed(j.machine) && j.id in j.machine.clients
  {
    match m
    case Elsewhere(a) => OfOther(a, j.id) && Enabled(j.machine, a)
    case Remote(r) => (r.Ask? || r.Draw?) && Rfb.Enabled(j.session, r)
    case Receive => j.render.None? && Rfb.Enabled(j.session, Rfb.Take)
    case Begin(b) => j.render.None? && j.session.pending && b.BeginRender? && b.id == j.id && Enabled(j.machine, b)
    case Pixel => j.render.Some? && Enabled(j.machine, ReadPixel(j.id))
    case Finish => j.render.Some? && j.machine.clients[j.id].phase.Idle?
  }

  ghost predicate Inv(j: Joint) {
    && VgaDisplay.Inv(j.machine) && Rfb.Inv(j.session)
    && j.session.width == WIDTH && j.session.height == HEIGHT
    && j.id in j.machine.clients && Small(j.machine.clients[j.id])
    && match j.render
       case None => Tied(j)
       case Some(s) => j.session.pending && Underway(j, s)
  }

  /** Between renders the sender's frame is its client's picture. */
  ghost predicate Tied(j: Joint)
    requires j.id in j.machine.clients
  {
    var c := j.machine.clients[j.id];
    c.phase.Idle? && j.session.frame == c.out && j.session.seen == c.seen
  }

  /** During one the frame is still what the render began with. */
  ghost predicate Underway(j: Joint, s: Started)
    requires j.id in j.machine.clients
  {
    && j.session.frame == s.out && j.session.seen == s.seen && j.machine.clients[j.id].seen > 0
    && Midway(j.machine, j.id, s.out, j.machine.clients[j.id].seen, s.pages)
    && (s.pages.Some? ==> s.pages.value.0 < s.pages.value.1 <= PAGES)
    && (s.seen == 0 ==> s.pages == Some((0, PAGES)))
  }

  /** Pixels and colours fit a word. */
  predicate Small(c: Client) {
    && (forall i :: 0 <= i < |c.out| ==> c.out[i] < HALF_WORD)
    && (c.phase.Reading? ==> forall k :: 0 <= k < |c.phase.colours| ==> c.phase.colours[k] < HALF_WORD)
  }

  lemma WordsAreOut(out: seq<nat>)
    requires forall i :: 0 <= i < |out| ==> out[i] < HALF_WORD
    ensures Words(out) == out
  {
  }

  /** A render that has drawn its last pixel kept what a Display promises, so the sender can go on. */
  lemma FinishIsEnabled(j: Joint)
    requires Inv(j) && j.render.Some? && j.machine.clients[j.id].phase.Idle?
    ensures Rfb.Enabled(j.session, RenderOf(j)) && Words(j.machine.clients[j.id].out) == j.machine.clients[j.id].out
  {
    var s, c := j.render.value, j.machine.clients[j.id];
    WordsAreOut(c.out);
    MidwayMeans(j.machine, j.id, s.out, c.seen, s.pages);
    AllRows();
    hide Midway, VgaDisplay.Inv, Rfb.Inv, Rfb.Rendered;
    DoneIsRendered(s.out, s.seen, s.pages, c.out, c.seen);
  }

  lemma AllRows()
    ensures RowStart(0) == 0 && RowEnd(PAGES) == HEIGHT
  {
  }

  ghost function MoveOf(j: Joint, m: Move): Joint
    requires Inv(j) && CanMove(j, m)
  {
    match m
    case Elsewhere(a) => j.(machine := VgaDisplay.Apply(j.machine, a))
    case Remote(r) => j.(session := Rfb.Apply(j.session, r))
    case Receive =>
      var after := Rfb.Apply(j.session, Rfb.Take);
      j.(session := after, machine := if after.seen == 0 then VgaDisplay.Apply(j.machine, Restart(j.id)) else j.machine)
    case Begin(b) =>
      var c := j.machine.clients[j.id];
      j.(machine := VgaDisplay.Apply(j.machine, b), render := Some(Started(c.out, c.seen, b.pages)))
    case Pixel => j.(machine := VgaDisplay.Apply(j.machine, ReadPixel(j.id)))
    case Finish =>
      FinishIsEnabled(j);
      j.(session := Rfb.Apply(j.session, RenderOf(j)), render := None)
  }

  // ----- each move keeps the tie

  lemma OthersLeaveClient(s: State, a: Action, id: nat)
    requires WellFormed(s) && Enabled(s, a) && OfOther(a, id) && id in s.clients
    ensures id in VgaDisplay.Apply(s, a).clients && VgaDisplay.Apply(s, a).clients[id] == s.clients[id]
  {
    hide Current, NewStamps, NewDirty;
  }

  lemma MachineKeeps(s: State, a: Action)
    requires VgaDisplay.Inv(s) && Enabled(s, a)
    ensures VgaDisplay.Inv(VgaDisplay.Apply(s, a))
  {
    if ByGuest(a) {
      GuestKeeps(s, a);
    } else {
      ClientKeeps(s, a);
    }
  }

  lemma ElsewhereKeeps(j: Joint, a: Action)
    requires Inv(j) && CanMove(j, Elsewhere(a))
    ensures Inv(MoveOf(j, Elsewhere(a)))
  {
    MachineKeeps(j.machine, a);
    OthersLeaveClient(j.machine, a, j.id);
    hide VgaDisplay.Apply, Enabled, Rfb.Inv;
  }

  lemma RemoteKeeps(j: Joint, r: Rfb.Action)
    requires Inv(j) && CanMove(j, Remote(r))
    ensures Inv(MoveOf(j, Remote(r)))
  {
    Rfb.ActionKeeps(j.session, r);
    hide VgaDisplay.Inv, Rfb.Inv, Midway, Small, Rfb.Drawn;
  }

  lemma ReceiveKeeps(j: Joint)
    requires Inv(j) && CanMove(j, Receive)
    ensures Inv(MoveOf(j, Receive))
  {
    Rfb.ActionKeeps(j.session, Rfb.Take);
    MachineKeeps(j.machine, Restart(j.id));
    hide VgaDisplay.Inv, Rfb.Inv, Midway;
  }

  lemma BeginMoveKeeps(j: Joint, b: Action)
    requires Inv(j) && CanMove(j, Begin(b))
    ensures Inv(MoveOf(j, Begin(b)))
  {
    MachineKeeps(j.machine, b);
    BeginIsMidway(j.machine, b);
    BegunIsSmall(j.machine, b);
    hide VgaDisplay.Inv, Rfb.Inv, Midway, Small;
  }

  lemma BegunIsSmall(s: State, b: Action)
    requires WellFormed(s) && b.BeginRender? && Enabled(s, b) && Small(s.clients[b.id])
    ensures Small(VgaDisplay.Apply(s, b).clients[b.id]) && VgaDisplay.Apply(s, b).clients[b.id].seen == s.frame + 1
  {
    hide NewStamps, NewDirty, RowStart, RowEnd;
  }

  lemma PixelMoveKeeps(j: Joint)
    requires Inv(j) && CanMove(j, Pixel)
    ensures Inv(MoveOf(j, Pixel))
  {
    hide Current, NewStamps, NewDirty, RowStart, RowEnd, PaletteRgb;
    var s, a := j.render.value, ReadPixel(j.id);
    MachineKeeps(j.machine, a);
    MidwayStep(j.machine, a, j.id, s.out, j.machine.clients[j.id].seen, s.pages);
    hide VgaDisplay.Inv, Rfb.Inv, Midway;
  }

  lemma FinishKeeps(j: Joint)
    requires Inv(j) && CanMove(j, Finish)
    ensures Inv(MoveOf(j, Finish))
  {
    FinishIsEnabled(j);
    Rfb.ActionKeeps(j.session, RenderOf(j));
    hide VgaDisplay.Inv, Rfb.Inv, Midway, Small, Rfb.Rendered, Words;
  }

  lemma MoveKeeps(j: Joint, m: Move)
    requires Inv(j) && CanMove(j, m)
    ensures Inv(MoveOf(j, m))
  {
    hide Inv, MoveOf, CanMove;
    match m
    case Elsewhere(a) => ElsewhereKeeps(j, a);
    case Remote(r) => RemoteKeeps(j, r);
    case Receive => ReceiveKeeps(j);
    case Begin(b) => BeginMoveKeeps(j, b);
    case Pixel => PixelMoveKeeps(j);
    case Finish => FinishKeeps(j);
  }

  ghost predicate JointRun(j: Joint, moves: seq<Move>, k: Joint)
    requires Inv(j)
    decreases |moves|
  {
    if moves == [] then j == k
    else CanMove(j, moves[0]) && (MoveKeeps(j, moves[0]); JointRun(MoveOf(j, moves[0]), moves[1..], k))
  }

  lemma {:induction false} JointRunKeeps(j: Joint, moves: seq<Move>, k: Joint)
    requires Inv(j) && JointRun(j, moves, k)
    ensures Inv(k) && k.id == j.id
    decreases |moves|
  {
    if moves == [] {
    } else {
      MoveKeeps(j, moves[0]);
      JointRunKeeps(MoveOf(j, moves[0]), moves[1..], k);
    }
  }

  /** A connection just made, to a machine with any history. */
  lemma ConnectionStarts(s: State, history: seq<Action>, t: State, id: nat, c: Rfb.State)
    requires Init(s) && Run(s, history, t) && id !in t.clients
    requires Rfb.Init(c) && c.width == WIDTH && c.height == HEIGHT
    ensures WellFormed(t) && Enabled(t, Connect(id, c.frame))
    ensures Inv(Joint(VgaDisplay.Apply(t, Connect(id, c.frame)), c, id, None))
  {
    VgaDisplay.RunKeeps(s, history, t);
    assert WIDTH * HEIGHT == PIXELS;
    ConnectedTies(t, id, c);
    hide VgaDisplay.Inv, Rfb.Enabled, Init, Run, Inv;
  }

  lemma ConnectedTies(t: State, id: nat, c: Rfb.State)
    requires VgaDisplay.Inv(t) && id !in t.clients && Enabled(t, Connect(id, c.frame))
    requires Rfb.Init(c) && c.width == WIDTH && c.height == HEIGHT
    ensures Inv(Joint(VgaDisplay.Apply(t, Connect(id, c.frame)), c, id, None))
  {
    MachineKeeps(t, Connect(id, c.frame));
    hide VgaDisplay.Inv, Current, NewStamps, NewDirty;
  }

  // ----- what the remote client sees

  /** In every joint run, with no render under way: what the remote client has,
      with what is on the wire drawn, encodes the sender's picture once it has
      seen one, and every pixel of that which differs from a full redraw is still owed. */
  lemma RemoteWrongPixelsAreOwed(j: Joint, moves: seq<Move>, k: Joint, i: nat)
    requires Inv(j) && JointRun(j, moves, k) && k.render.None? && k.session.seen != 0 && i < PIXELS
    ensures k.id in k.machine.clients && WellFormed(k.machine)
    ensures Rfb.Caught(k.session.picture, k.session.wire) == Rfb.EncodedPixels(k.session.format, k.session.frame)
    ensures |k.session.frame| == PIXELS
    ensures k.session.frame[i] != Shown(k.machine, i) ==> Owed(k.machine, k.machine.clients[k.id], i)
  {
    JointRunKeeps(j, moves, k);
    assert Coherent(k.machine, k.machine.clients[k.id]);
  }

  predicate Quiet(m: Move) { m.Elsewhere? ==> !ByGuest(m.a) }

  /** The sender's client has only right pixels, but for those it is about to draw right. */
  ghost predicate Settling(j: Joint) {
    Inv(j) && j.render.Some? && Settled(j.machine, j.machine.clients[j.id])
  }

  lemma QuietMove(j: Joint, m: Move)
    requires Settling(j) && CanMove(j, m) && Quiet(m) && m != Finish
    ensures Settling(MoveOf(j, m)) && Screen(MoveOf(j, m).machine) == Screen(j.machine)
  {
    MoveKeeps(j, m);
    match m
    case Elsewhere(a) =>
      OthersLeaveClient(j.machine, a, j.id);
      SettledKeeps(j.machine, a, j.id);
    case Pixel => SettledKeeps(j.machine, ReadPixel(j.id), j.id);
    case Remote(_) =>
  }

  lemma BeginSettles(j: Joint, b: Action)
    requires Inv(j) && CanMove(j, Begin(b))
    ensures Settling(MoveOf(j, Begin(b))) && Screen(MoveOf(j, Begin(b)).machine) == Screen(j.machine)
  {
    MoveKeeps(j, Begin(b));
    BeginKeeps(j.machine, b, j.machine.clients[j.id]);
    BeginShows(j.machine, b);
  }

  lemma SettledIsScreen(s: State, c: Client)
    requires WellFormed(s) && ClientWellFormed(c) && Settled(s, c) && c.phase.Idle?
    ensures Screen(s) == c.out
  {
  }

  lemma SettledFinish(j: Joint)
    requires Settling(j) && CanMove(j, Finish)
    ensures var e := MoveOf(j, Finish);
            && Inv(e) && Screen(e.machine) == Screen(j.machine)
            && Rfb.Caught(e.session.picture, e.session.wire) == Rfb.EncodedPixels(e.session.format, Screen(j.machine))
  {
    SettledIsScreen(j.machine, j.machine.clients[j.id]);
    FinishIsEnabled(j);
    FinishKeeps(j);
    hide VgaDisplay.Inv, Settled, Midway, Small, Words;
  }

  lemma {:induction false} QuietToFinish(j: Joint, moves: seq<Move>, e: Joint)
    requires Settling(j) && JointRun(j, moves + [Finish], e)
    requires forall n :: 0 <= n < |moves| ==> Quiet(moves[n]) && moves[n] != Finish
    ensures Inv(e) && Screen(e.machine) == Screen(j.machine)
    ensures Rfb.Caught(e.session.picture, e.session.wire) == Rfb.EncodedPixels(e.session.format, Screen(j.machine))
    decreases |moves|
  {
    hide Settled, CanMove, MoveOf, VgaDisplay.Inv, Rfb.Inv;
    var all := moves + [Finish];
    if moves == [] {
      assert all == [Finish] && all[1..] == [];
      SettledFinish(j);
    } else {
      assert all[0] == moves[0] && all[1..] == moves[1..] + [Finish];
      QuietMove(j, moves[0]);
      QuietToFinish(MoveOf(j, moves[0]), moves[1..], e);
    }
  }

  /** From any joint history: a render during which the guest is quiet, whatever
      other clients do and the remote client asks meanwhile, and the update it
      gives rise to, if any, make the remote picture an encoding of the whole screen. */
  lemma RemoteClientSeesScreen(j: Joint, history: seq<Move>, t: Joint, b: Action, moves: seq<Move>, e: Joint)
    requires Inv(j) && JointRun(j, history, t)
    requires (JointRunKeeps(j, history, t); JointRun(t, [Begin(b)] + (moves + [Finish]), e))
    requires forall n :: 0 <= n < |moves| ==> Quiet(moves[n]) && moves[n] != Finish
    ensures Inv(t) && Inv(e) && Screen(e.machine) == Screen(t.machine)
    ensures Rfb.Caught(e.session.picture, e.session.wire) == Rfb.EncodedPixels(e.session.format, Screen(e.machine))
  {
    JointRunKeeps(j, history, t);
    var all := [Begin(b)] + (moves + [Finish]);
    assert all[0] == Begin(b) && all[1..] == moves + [Finish];
    BeginSettles(t, b);
    hide CanMove, MoveOf, Inv, Settling;
    QuietToFinish(MoveOf(t, Begin(b)), moves, e);
  }
}
