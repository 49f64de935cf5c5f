/** Frames on their way from the tap to the guest: the thread that reads the
    tap, the vcpu threads that poll the device or handle the driver's
    notifications, and the driver, all interleaved. The kick protocol
    underneath is the one of VmControl, unchanged. */
module NetRx {
  import opened Common
  import C = VmControl

  const RX_PENDING_MAX := 256

  type Frame = seq<Byte>

  /** The tap thread; a kick is due once it has made the queue non-empty. */
  datatype TapPc = Reading | StoreKick | SendKick

  /** A thread inside the device's queue loop for the receive queue. */
  datatype LoopPc =
    | WaitLock
    | CheckFrame              // can_process
    | TakeChain               // pop_avail
    | TakeFrame               // process: take the frame that fills the chain
    | Return(frame: Frame)    // push_used, interrupt

  /** What became of a frame the tap gave; `backlog` were pending then. */
  datatype Tapped = Tapped(frame: Frame, backlog: nat)

  /** What became of a frame taken for a chain. */
  datatype Outcome = Outcome(frame: Frame, delivered: bool)

  datatype State = State(
    ctl: C.State,
    tap: TapPc,
    pending: seq<Frame>,
    ready: bool,              // the driver has enabled the queue
    avail: nat,               // chains published and not taken
    owes: bool,               // the driver has posted and not notified yet
    lock: Option<C.Tid>,
    loops: map<C.Tid, LoopPc>,
    // history
    tapped: seq<Tapped>, outcomes: seq<Outcome>)

  datatype Action =
    | Tap(frame: Frame)
    | TapKick                 // the next step of the tap thread's kick()
    | Control(a: C.Action)    // anything else the threads of the machine do
    | Notify(t: C.Tid)        // the guest on `t` writes the notify register
    | Post                    // the driver publishes a chain
    | SetReady(ready: bool)   // the driver enables or disables the queue
    | Acquire(t: C.Tid)
    | Serve(t: C.Tid)         // the next step of the queue loop
    | Abort(t: C.Tid)         // an error ends the poll or the handling early

  /** The frames that were kept: all but those that found a full backlog. */
  function Kept(tapped: seq<Tapped>): seq<Frame> {
    if tapped == [] then []
    else
      var last := tapped[|tapped| - 1];
      Kept(tapped[..|tapped| - 1]) + (if last.backlog < RX_PENDING_MAX then [last.frame] else [])
  }

  /** The frames taken, in order. */
  function Frames(outcomes: seq<Outcome>): (f: seq<Frame>)
    ensures |f| == |outcomes|
  {
    seq(|outcomes|, k requires 0 <= k < |outcomes| => outcomes[k].frame)
  }

  /** Those of them that reached the guest, in order. */
  function Delivered(outcomes: seq<Outcome>): seq<Frame> {
    if outcomes == [] then []
    else
      var last := outcomes[|outcomes| - 1];
      Delivered(outcomes[..|outcomes| - 1]) + (if last.delivered then [last.frame] else [])
  }

  predicate NoneLost(outcomes: seq<Outcome>) {
    forall k :: 0 <= k < |outcomes| ==> outcomes[k].delivered
  }

  lemma {:induction false} AllDelivered(outcomes: seq<Outcome>)
    requires NoneLost(outcomes)
    ensures Delivered(outcomes) == Frames(outcomes)
    decreases |outcomes|
  {
    if outcomes == [] {
    } else {
      AllDelivered(outcomes[..|outcomes| - 1]);
      assert Frames(outcomes) == Frames(outcomes[..|outcomes| - 1]) + [outcomes[|outcomes| - 1].frame];
    }
  }

  lemma FramesAppend(outcomes: seq<Outcome>, last: Outcome)
    ensures Frames(outcomes + [last]) == Frames(outcomes) + [last.frame]
    ensures NoneLost(outcomes + [last]) <==> NoneLost(outcomes) && last.delivered
  {
    assert (outcomes + [last])[|outcomes|] == last;
    assert forall k :: 0 <= k < |outcomes| ==> (outcomes + [last])[k] == outcomes[k];
  }

  predicate PollStarts(s: C.State, a: C.Action)
    requires C.Enabled(s, a)
  {
    a.Step? && s.threads[a.t].pc.TakePending? && s.devicesPending
  }

  predicate Enabled(s: State, a: Action) {
    match a
    case Tap(_) => s.tap.Reading?
    case TapKick => s.tap.StoreKick? || (s.tap.SendKick? && s.ctl.kickCalls > 0)
    case Control(c) =>
      && C.Enabled(s.ctl, c)
      // the loop has to be over before the thread goes on
      && (c.Step? ==> c.t !in s.loops)
      // the tap thread's own call is not someone else's
      && (c.KickSend? && s.tap.SendKick? ==> s.ctl.kickCalls > 1)
    case Notify(t) => C.Enabled(s.ctl, C.Leave(t, false)) && t !in s.loops
    case Post => true
    case SetReady(_) => s.lock.None?
    case Acquire(t) => t in s.loops && s.loops[t].WaitLock? && s.lock.None?
    case Serve(t) => t in s.loops && s.lock == Some(t) && !s.loops[t].WaitLock?
      && (s.loops[t].TakeFrame? ==> s.pending != [])
    case Abort(t) => t in s.loops && C.Enabled(s.ctl, C.Step(t, false))
  }

  function Finish(s: State, t: C.Tid): State { s.(lock := None, loops := s.loops - {t}) }

  function Apply(s: State, a: Action): State
    requires Enabled(s, a)
  {
    match a
    case Tap(frame) =>
      var t := s.(tapped := s.tapped + [Tapped(frame, |s.pending|)]);
      if |s.pending| >= RX_PENDING_MAX then t
      else t.(pending := s.pending + [frame], tap := if s.pending == [] then StoreKick else Reading)
    case TapKick =>
      if s.tap.StoreKick? then s.(ctl := C.Apply(s.ctl, C.KickStore), tap := SendKick)
      else s.(ctl := C.Apply(s.ctl, C.KickSend), tap := Reading)
    case Control(c) =>
      s.(ctl := C.Apply(s.ctl, c), loops := if PollStarts(s.ctl, c) then s.loops[c.t := WaitLock] else s.loops)
    case Notify(t) =>
      s.(ctl := C.Apply(s.ctl, C.Leave(t, false)), loops := s.loops[t := WaitLock], owes := false)
    case Post => s.(avail := s.avail + 1, owes := true)
    case SetReady(ready) => s.(ready := ready, owes := s.owes || s.avail > 0)
    case Acquire(t) =>
      if s.ready then s.(lock := Some(t), loops := s.loops[t := CheckFrame]) else Finish(s, t)
    case Serve(t) =>
      (match s.loops[t]
       case CheckFrame => if s.pending == [] then Finish(s, t) else s.(loops := s.loops[t := TakeChain])
       case TakeChain =>
         if s.avail == 0 then Finish(s, t)
         else s.(avail := s.avail - 1, loops := s.loops[t := TakeFrame])
       case TakeFrame => s.(pending := s.pending[1..], loops := s.loops[t := Return(s.pending[0])])
       case Return(frame) => s.(outcomes := s.outcomes + [Outcome(frame, true)], loops := s.loops[t := CheckFrame])
       case WaitLock => s)
    case Abort(t) =>
      s.(ctl := C.Apply(s.ctl, C.Step(t, false)), loops := s.loops - {t},
         lock := if s.lock == Some(t) then None else s.lock,
         outcomes := if s.loops[t].Return? then s.outcomes + [Outcome(s.loops[t].frame, false)] else s.outcomes)
  }

  // ----- the invariant

  /** A thread is in a loop only while it polls or handles an exit, and past
      the lock only while it holds it. */
  ghost predicate LoopsOk(s: State) {
    && (forall t :: t in s.loops ==>
          t in s.ctl.threads && (s.ctl.threads[t].pc.Poll? || s.ctl.threads[t].pc.HandleExit?))
    && (forall t :: t in s.loops ==> (s.lock == Some(t) <==> !s.loops[t].WaitLock?))
    && (s.lock.Some? ==> s.lock.value in s.loops)
  }

  /** The frame taken for a chain and not yet returned. */
  ghost function InHand(s: State): seq<Frame> {
    if s.lock.Some? && s.lock.value in s.loops && s.loops[s.lock.value].Return? then
      [s.loops[s.lock.value].frame]
    else []
  }

  /** The holder of the lock saw a frame, and only the holder takes frames. */
  ghost predicate FrameSeen(s: State) {
    (s.lock.Some? && s.lock.value in s.loops && (s.loops[s.lock.value].TakeChain? || s.loops[s.lock.value].TakeFrame?))
    ==> s.pending != []
  }

  ghost predicate Stopping(s: C.State) {
    s.shouldStop || exists t :: t in s.threads && (s.threads[t].pc.Unregister? || C.Gone(s.threads[t].pc))
  }

  predicate Deliverable(s: State) { s.pending != [] && s.avail > 0 && s.ready }

  /** Someone is going to look at the queue again. */
  ghost predicate WakeupOwed(s: State) {
    || s.tap.StoreKick?
    || s.ctl.devicesPending
    || s.loops != map[]
    || s.owes
    || Stopping(s.ctl)
  }

  ghost predicate Inv(s: State) {
    && C.Inv(s.ctl)
    && LoopsOk(s) && FrameSeen(s)
    && (s.tap.SendKick? ==> s.ctl.kickCalls > 0)
    && |s.pending| <= RX_PENDING_MAX
    && Kept(s.tapped) == Frames(s.outcomes) + InHand(s) + s.pending
    && (Deliverable(s) ==> WakeupOwed(s))
    && (NoneLost(s.outcomes) || Stopping(s.ctl))
  }

  lemma StoppingKeeps(s: C.State, a: C.Action)
    requires C.Enabled(s, a) && Stopping(s)
    ensures Stopping(C.Apply(s, a))
  {
    if s.shouldStop {
      C.FlagStays(s, a);
    } else {
      var t :| t in s.threads && (s.threads[t].pc.Unregister? || C.Gone(s.threads[t].pc));
      if C.OwnedBy(a, t) {
        C.OwnStepFromGone(s, t, a.fine);
      } else {
        C.OnlyOwnStepsMove(s, a, t);
      }
    }
  }

  /** The part of the state the control steps leave alone. */
  lemma LoopsStay(s: State, c: C.Action, n: State)
    requires LoopsOk(s) && C.Enabled(s.ctl, c) && n.ctl == C.Apply(s.ctl, c)
    requires forall t :: t in s.loops ==> !C.OwnedBy(c, t)
    ensures forall t :: t in s.loops ==> t in n.ctl.threads && n.ctl.threads[t].pc == s.ctl.threads[t].pc
  {
    forall t | t in s.loops ensures t in n.ctl.threads && n.ctl.threads[t].pc == s.ctl.threads[t].pc {
      C.OnlyOwnStepsMove(s.ctl, c, t);
    }
  }

  lemma KeptAppend(tapped: seq<Tapped>, last: Tapped)
    ensures Kept(tapped + [last]) == Kept(tapped) + if last.backlog < RX_PENDING_MAX then [last.frame] else []
  {
    assert (tapped + [last])[..|tapped|] == tapped;
  }

  lemma TapKeeps(s: State, frame: Frame)
    requires Inv(s) && Enabled(s, Tap(frame))
    ensures Inv(Apply(s, Tap(frame)))
  {
    hide Frames, Kept, NoneLost, C.Inv, Stopping, InHand;
    var n := Apply(s, Tap(frame));
    KeptAppend(s.tapped, Tapped(frame, |s.pending|));
    TapInHand(s, frame);
    var done := Frames(s.outcomes) + InHand(s);
    assert done + s.pending + [frame] == done + (s.pending + [frame]);
  }

  lemma TapInHand(s: State, frame: Frame)
    requires Enabled(s, Tap(frame))
    ensures InHand(Apply(s, Tap(frame))) == InHand(s)
  {
  }

  lemma TapKickKeeps(s: State)
    requires Inv(s) && Enabled(s, TapKick)
    ensures Inv(Apply(s, TapKick))
  {
    var n := Apply(s, TapKick);
    var c := if s.tap.StoreKick? then C.KickStore else C.KickSend;
    C.ActionKeeps(s.ctl, c);
    LoopsStay(s, c, n);
    if Stopping(s.ctl) {
      StoppingKeeps(s.ctl, c);
    }
  }

  lemma PollStartsAt(s: C.State, c: C.Action)
    requires C.Enabled(s, c) && PollStarts(s, c)
    ensures c.t in C.Apply(s, c).threads && C.Apply(s, c).threads[c.t].pc.Poll?
  {
  }

  lemma CallsStay(s: C.State, c: C.Action)
    requires C.Enabled(s, c) && (c.KickSend? ==> s.kickCalls > 1) && s.kickCalls > 0
    ensures C.Apply(s, c).kickCalls > 0
  {
    hide C.Moved, C.Without, C.Everyone, C.Signalled, C.First, C.Handler;
  }

  /** No thread in a loop takes a control step of its own. */
  lemma LoopersDoNotStep(s: State, c: C.Action)
    requires LoopsOk(s) && Enabled(s, Control(c))
    ensures forall t :: t in s.loops ==> !C.OwnedBy(c, t)
  {
  }

  lemma ControlKeepsLoops(s: State, c: C.Action)
    requires Inv(s) && Enabled(s, Control(c))
    ensures LoopsOk(Apply(s, Control(c))) && s.loops.Keys <= Apply(s, Control(c)).loops.Keys
    ensures InHand(Apply(s, Control(c))) == InHand(s) && FrameSeen(Apply(s, Control(c)))
  {
    hide C.Apply, C.Inv, Stopping, Kept, Frames, NoneLost, Deliverable;
    var n := Apply(s, Control(c));
    LoopersDoNotStep(s, c);
    LoopsStay(s, c, n);
    if PollStarts(s.ctl, c) {
      PollStartsAt(s.ctl, c);
    }
  }

  lemma ControlKeeps(s: State, c: C.Action)
    requires Inv(s) && Enabled(s, Control(c))
    ensures Inv(Apply(s, Control(c)))
  {
    hide C.Apply, C.Inv;
    var n := Apply(s, Control(c));
    C.ActionKeeps(s.ctl, c);
    ControlKeepsLoops(s, c);
    if s.tap.SendKick? {
      CallsStay(s.ctl, c);
    }
    if Stopping(s.ctl) {
      StoppingKeeps(s.ctl, c);
    } else if Deliverable(s) {
      if s.ctl.devicesPending {
        if c.Step? && s.ctl.threads[c.t].pc.TakePending? {
          assert c.t in n.loops;
        } else {
          C.PendingStays(s.ctl, c);
        }
      } else if s.loops != map[] {
        var t :| t in s.loops;
        assert t in n.loops;
      }
    }
  }

  lemma NotifyKeeps(s: State, t: C.Tid)
    requires Inv(s) && Enabled(s, Notify(t))
    ensures Inv(Apply(s, Notify(t)))
  {
    var c := C.Leave(t, false);
    C.ActionKeeps(s.ctl, c);
    if Stopping(s.ctl) {
      StoppingKeeps(s.ctl, c);
    }
    NotifyLoops(s, t);
    hide C.Inv, C.Apply, C.Enabled, Stopping, Frames, Kept, NoneLost, LoopsOk, Deliverable;
    var n := Apply(s, Notify(t));
    assert t in n.loops;
  }

  lemma NotifyLoops(s: State, t: C.Tid)
    requires Inv(s) && Enabled(s, Notify(t))
    ensures var n := Apply(s, Notify(t));
            && LoopsOk(n) && FrameSeen(n) && InHand(n) == InHand(s) && n.ctl.kickCalls == s.ctl.kickCalls
  {
    hide C.Inv, Stopping, Frames, Kept, NoneLost;
    LoopsStay(s, C.Leave(t, false), Apply(s, Notify(t)));
  }

  lemma AcquireKeeps(s: State, t: C.Tid)
    requires Inv(s) && Enabled(s, Acquire(t))
    ensures Inv(Apply(s, Acquire(t)))
  {
    var n := Apply(s, Acquire(t));
    if s.ready {
      assert t in n.loops;
    }
    assert InHand(n) == [] == InHand(s);
  }

  lemma TakeFrameKeeps(s: State, t: C.Tid)
    requires Inv(s) && Enabled(s, Serve(t)) && s.loops[t].TakeFrame?
    ensures Inv(Apply(s, Serve(t)))
  {
    var n := Apply(s, Serve(t));
    assert t in n.loops;
    assert s.pending == [s.pending[0]] + s.pending[1..];
    assert Frames(s.outcomes) + InHand(s) + s.pending == Frames(n.outcomes) + InHand(n) + n.pending;
  }

  lemma ReturnKeeps(s: State, t: C.Tid)
    requires Inv(s) && Enabled(s, Serve(t)) && s.loops[t].Return?
    ensures Inv(Apply(s, Serve(t)))
  {
    var n := Apply(s, Serve(t));
    FramesAppend(s.outcomes, Outcome(s.loops[t].frame, true));
    assert t in n.loops;
    assert Frames(s.outcomes) + InHand(s) + s.pending == Frames(n.outcomes) + InHand(n) + n.pending;
  }

  lemma ServeKeeps(s: State, t: C.Tid)
    requires Inv(s) && Enabled(s, Serve(t))
    ensures Inv(Apply(s, Serve(t)))
  {
    match s.loops[t]
    case TakeFrame => TakeFrameKeeps(s, t);
    case Return(_) => ReturnKeeps(s, t);
    case CheckFrame => CheckKeeps(s, t);
    case TakeChain => CheckKeeps(s, t);
  }

  /** The two checks of the loop: it goes on, or it is over and nothing is left to deliver. */
  lemma CheckKeeps(s: State, t: C.Tid)
    requires Inv(s) && Enabled(s, Serve(t)) && (s.loops[t].CheckFrame? || s.loops[t].TakeChain?)
    ensures Inv(Apply(s, Serve(t)))
  {
    hide C.Inv, Frames, Kept, NoneLost, Stopping;
    var n := Apply(s, Serve(t));
    assert (if s.loops[t].CheckFrame? then s.pending != [] else s.avail > 0) ==> t in n.loops;
    assert InHand(n) == InHand(s);
  }

  lemma GivesUp(s: C.State, t: C.Tid)
    requires C.Enabled(s, C.Step(t, false)) && (s.threads[t].pc.Poll? || s.threads[t].pc.HandleExit?)
    ensures var n := C.Apply(s, C.Step(t, false));
            t in n.threads && n.threads[t].pc.Unregister? && n.kickCalls == s.kickCalls
  {
    hide C.Without, C.Everyone, C.Signalled;
  }

  /** An error while a frame is in hand loses it; the machine stops then. */
  lemma AbortKeeps(s: State, t: C.Tid)
    requires Inv(s) && Enabled(s, Abort(t))
    ensures Inv(Apply(s, Abort(t)))
  {
    C.ActionKeeps(s.ctl, C.Step(t, false));
    AbortLoops(s, t);
    AbortAccounts(s, t);
    hide C.Inv, C.Apply, C.Enabled, Kept, Deliverable, Frames, NoneLost, LoopsOk, Stopping, InHand, FrameSeen;
  }

  lemma AbortLoops(s: State, t: C.Tid)
    requires Inv(s) && Enabled(s, Abort(t))
    ensures var n := Apply(s, Abort(t));
            LoopsOk(n) && FrameSeen(n) && Stopping(n.ctl) && n.ctl.kickCalls == s.ctl.kickCalls
  {
    GivesUp(s.ctl, t);
    hide C.Inv, C.Apply, C.Enabled, Kept, Deliverable, Frames, NoneLost;
    var c, n := C.Step(t, false), Apply(s, Abort(t));
    forall u | u in n.loops ensures u in n.ctl.threads && n.ctl.threads[u].pc == s.ctl.threads[u].pc {
      C.OnlyOwnStepsMove(s.ctl, c, u);
    }
  }

  /** The frame in hand, if it is this thread's, joins the outcomes. */
  lemma AbortAccounts(s: State, t: C.Tid)
    requires LoopsOk(s) && Enabled(s, Abort(t))
    ensures var n := Apply(s, Abort(t));
            Frames(n.outcomes) + InHand(n) == Frames(s.outcomes) + InHand(s)
  {
    hide C.Apply, C.Enabled, Frames;
    if s.loops[t].Return? {
      FramesAppend(s.outcomes, Outcome(s.loops[t].frame, false));
      var f := Frames(s.outcomes);
      assert f + [s.loops[t].frame] + [] == f + [s.loops[t].frame];
    }
  }

  lemma ActionKeeps(s: State, a: Action)
    requires Inv(s) && Enabled(s, a)
    ensures Inv(Apply(s, a))
  {
    match a
    case Tap(frame) => TapKeeps(s, frame);
    case TapKick => TapKickKeeps(s);
    case Control(c) => ControlKeeps(s, c);
    case Notify(t) => NotifyKeeps(s, t);
    case Post =>
    case SetReady(ready) =>
    case Acquire(t) => AcquireKeeps(s, t);
    case Serve(t) => ServeKeeps(s, t);
    case Abort(t) => AbortKeeps(s, t);
  }

  const INITIAL := State(C.INITIAL, Reading, [], false, 0, false, None, map[], [], [])

  ghost predicate Run(s: State, actions: seq<Action>, t: State)
    decreases |actions|
  {
    if actions == [] then s == t
    else
      Enabled(s, actions[0]) && Run(Apply(s, actions[0]), actions[1..], t)
  }

  lemma {:induction false} RunKeeps(s: State, actions: seq<Action>, t: State)
    requires Inv(s) && Run(s, actions, t)
    ensures Inv(t)
    decreases |actions|
  {
    if actions == [] {
    } else {
      ActionKeeps(s, actions[0]);
      RunKeeps(Apply(s, actions[0]), actions[1..], t);
    }
  }

  /** A frame that could be delivered is never stranded: either someone is
      about to look, or the request to poll is stored and the first vcpu
      thread has yet to see it or is on its way out of the guest. */
  lemma NoStrandedFrame(actions: seq<Action>, s: State)
    requires Run(INITIAL, actions, s) && Deliverable(s)
    ensures WakeupOwed(s)
    ensures forall t :: t in s.ctl.registered ==> t in s.ctl.threads
    ensures s.tap.Reading? && s.loops == map[] && !s.owes && !Stopping(s.ctl) ==>
      && s.ctl.devicesPending
      && (s.ctl.kickCalls > 0 || C.FirstAwake(s.ctl))
  {
    RunKeeps(INITIAL, actions, s);
    if C.SomeoneGone(s.ctl) {
      var t :| t in s.ctl.threads && C.Gone(s.ctl.threads[t].pc);
      assert Stopping(s.ctl);
    }
  }

  lemma FirstPart(f: seq<Frame>, h: seq<Frame>, p: seq<Frame>)
    ensures f <= f + h + p && |f + h + p| == |f| + |h| + |p|
  {
  }

  /** Frames are taken in the order the tap gave them, but for those that found
      256 pending, and what the guest has got is those taken, in order. One that
      was taken is only lost to an error that stops the machine. */
  lemma DeliveredInOrder(actions: seq<Action>, s: State)
    requires Run(INITIAL, actions, s)
    ensures Frames(s.outcomes) <= Kept(s.tapped)
    ensures |Kept(s.tapped)| <= |s.outcomes| + 1 + |s.pending|
    ensures |s.pending| <= RX_PENDING_MAX
    ensures !Stopping(s.ctl) ==> Delivered(s.outcomes) == Frames(s.outcomes)
  {
    RunKeeps(INITIAL, actions, s);
    hide Run, C.Inv, LoopsOk, FrameSeen, Deliverable, Stopping, Frames, NoneLost, Kept;
    if !Stopping(s.ctl) {
      AllDelivered(s.outcomes);
    }
    assert |InHand(s)| <= 1;
    hide *;
    FirstPart(Frames(s.outcomes), InHand(s), s.pending);
  }
}
