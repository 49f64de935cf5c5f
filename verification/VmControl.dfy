/** Stopping the machine and kicking a vcpu out of the guest: flags, a signal
    and `immediate_exit`.

    Every thread that runs a vcpu has a program counter; callers of stop() and
    kick() sit between storing their flag and sending their signals. Steps of
    all of them interleave, and a signal is delivered at any later moment. */
module VmControl {
  import opened Common

  type Tid = nat

  /** Where a vcpu thread is, named after what it does next. */
  datatype Pc =
    | SetPointer     // publish kvm_run for the handler
    | Register
    | CheckStop      // top of the loop
    | TakePending
    | Poll           // polling the devices
    | EnterGuest     // about to call KVM_RUN
    | InGuest
    | ClearExit      // KVM_RUN returned EINTR
    | HandleExit     // KVM_RUN returned an exit
    | Unregister     // left the loop
    | ClearPointer
    | StoreStop      // run() is over: its own stop()
    | SendStop
    | Done

  /** `signals` are sent and not yet delivered; `exitNow` is immediate_exit. */
  datatype Thread = Thread(pc: Pc, pointer: bool, signals: nat, exitNow: bool)

  datatype State = State(
    shouldStop: bool, devicesPending: bool,
    registered: seq<Tid>,
    threads: map<Tid, Thread>,
    stopCalls: nat,      // calls of stop() that have stored the flag and not sent the signals
    kickCalls: nat,
    // history
    stopSent: bool,      // some stop() has sent its signals
    kickSent: bool,      // some kick() has sent its signal since devices were last found pending
    kicked: set<Tid>)    // the threads those signals went to

  datatype Action =
    | Spawn(t: Tid)
    | Step(t: Tid, fine: bool)     // `fine`: the poll or the handled exit succeeded
    | Leave(t: Tid, eintr: bool)   // KVM_RUN returns with EINTR or an exit
    | Fail(t: Tid)                 // an exit, or an error of KVM_RUN, that ends the loop
    | Deliver(t: Tid)              // a pending signal reaches its handler
    | StopStore | StopSend | KickStore | KickSend

  predicate InLoop(pc: Pc) {
    pc.CheckStop? || pc.TakePending? || pc.Poll? || pc.EnterGuest? || pc.InGuest? || pc.ClearExit? || pc.HandleExit?
  }

  predicate IsRegistered(pc: Pc) { InLoop(pc) || pc.Unregister? }

  predicate HasPointer(pc: Pc) { pc.Register? || IsRegistered(pc) || pc.ClearPointer? }

  /** The list without a thread; every registration is of a different one. */
  function Without(ts: seq<Tid>, t: Tid): (r: seq<Tid>)
    ensures forall u :: u in r <==> u in ts && u != t
  {
    if ts == [] then []
    else
      var others := Without(ts[..|ts| - 1], t);
      if ts[|ts| - 1] == t then others else others + [ts[|ts| - 1]]
  }

  lemma {:induction false} WithoutDistinct(ts: seq<Tid>, t: Tid)
    requires Distinct(ts)
    ensures Distinct(Without(ts, t))
  {
    if ts == [] {
    } else {
      WithoutDistinct(ts[..|ts| - 1], t);
      assert ts[|ts| - 1] !in Without(ts[..|ts| - 1], t);
    }
  }

  predicate Distinct(ts: seq<Tid>) { forall i, j :: 0 <= i < j < |ts| ==> ts[i] != ts[j] }

  /** Every thread in `targets` has one more signal pending. */
  function Signalled(threads: map<Tid, Thread>, targets: set<Tid>): (n: map<Tid, Thread>)
    ensures n.Keys == threads.Keys
  {
    map t | t in threads :: if t in targets then threads[t].(signals := threads[t].signals + 1) else threads[t]
  }

  /** kick_handler: without a pointer it does nothing. */
  function Handler(th: Thread): Thread
    requires th.signals > 0
  {
    th.(signals := th.signals - 1, exitNow := th.exitNow || th.pointer)
  }

  predicate Enabled(s: State, a: Action) {
    match a
    case Spawn(t) => t !in s.threads
    case Step(t, _) => t in s.threads && !s.threads[t].pc.InGuest? && !s.threads[t].pc.Done?
    case Leave(t, _) => t in s.threads && s.threads[t].pc.InGuest?
    case Fail(t) => t in s.threads && s.threads[t].pc.InGuest?
    case Deliver(t) => t in s.threads && !s.threads[t].pc.InGuest? && !s.threads[t].pc.Done? && s.threads[t].signals > 0
    case StopStore => true
    case StopSend => s.stopCalls > 0
    case KickStore => true
    case KickSend => s.kickCalls > 0
  }

  function Put(s: State, t: Tid, th: Thread): State { s.(threads := s.threads[t := th]) }

  function Everyone(s: State): set<Tid> { set t | t in s.registered }

  function First(s: State): set<Tid> { if s.registered == [] then {} else {s.registered[0]} }

  /** KVM_RUN returns EINTR at once when told to or when a signal is pending;
      the handler of that signal runs on the way out. */
  function TryEnter(th: Thread): Thread {
    if th.exitNow then th.(pc := ClearExit)
    else if th.signals > 0 then Handler(th).(pc := ClearExit)
    else th.(pc := InGuest)
  }

  /** The thread itself after its next step. */
  function Moved(s: State, t: Tid, fine: bool): Thread
    requires Enabled(s, Step(t, fine))
  {
    var th := s.threads[t];
    match th.pc
    case SetPointer => th.(pc := Register, pointer := true)
    case Register => th.(pc := CheckStop)
    case CheckStop => th.(pc := if s.shouldStop then Unregister else TakePending)
    case TakePending => th.(pc := if s.devicesPending then Poll else EnterGuest)
    case Poll => th.(pc := if fine then EnterGuest else Unregister)
    case EnterGuest => TryEnter(th)
    case ClearExit => th.(pc := CheckStop, exitNow := false)
    case HandleExit => th.(pc := if fine then CheckStop else Unregister)
    case Unregister => th.(pc := ClearPointer)
    case ClearPointer => th.(pc := StoreStop, pointer := false)
    case StoreStop => th.(pc := SendStop)
    case SendStop => th.(pc := Done)
  }

  function StepOf(s: State, t: Tid, fine: bool): State
    requires Enabled(s, Step(t, fine))
  {
    var n := Put(s, t, Moved(s, t, fine));
    match s.threads[t].pc
    case Register => n.(registered := s.registered + [t])
    case TakePending => n.(devicesPending := false, kickSent := false, kicked := {})
    case Unregister => n.(registered := Without(s.registered, t))
    case StoreStop => n.(shouldStop := true)
    case SendStop => Put(s.(threads := Signalled(s.threads, Everyone(s)), stopSent := true), t, Moved(s, t, fine))
    case _ => n
  }

  function Apply(s: State, a: Action): State
    requires Enabled(s, a)
  {
    match a
    case Spawn(t) => Put(s, t, Thread(SetPointer, false, 0, false))
    case Step(t, fine) => StepOf(s, t, fine)
    case Leave(t, eintr) =>
      var th := s.threads[t];
      if eintr then Put(s, t, (if th.signals > 0 then Handler(th) else th).(pc := ClearExit))
      else Put(s, t, th.(pc := HandleExit))
    case Fail(t) => Put(s, t, s.threads[t].(pc := Unregister))
    case Deliver(t) => Put(s, t, Handler(s.threads[t]))
    case StopStore => s.(shouldStop := true, stopCalls := s.stopCalls + 1)
    case StopSend =>
      s.(threads := Signalled(s.threads, Everyone(s)), stopCalls := s.stopCalls - 1, stopSent := true)
    case KickStore => s.(devicesPending := true, kickCalls := s.kickCalls + 1)
    case KickSend =>
      s.(threads := Signalled(s.threads, First(s)), kickCalls := s.kickCalls - 1,
          kickSent := s.devicesPending, kicked := if s.devicesPending then s.kicked + First(s) else {})
  }

  // ----- the invariant

  /** The thread will not look at `shouldStop` again before it calls KVM_RUN, or is in it. */
  predicate PastStopCheck(pc: Pc) { pc.TakePending? || pc.Poll? || pc.EnterGuest? || pc.InGuest? }

  predicate PastPendingCheck(pc: Pc) { pc.Poll? || pc.EnterGuest? || pc.InGuest? }

  /** KVM_RUN is bound to return. */
  predicate Summoned(th: Thread) { th.signals > 0 || th.exitNow }

  predicate Gone(pc: Pc) { pc.ClearPointer? || pc.StoreStop? || pc.SendStop? || pc.Done? }

  ghost predicate ThreadOk(s: State, t: Tid)
    requires t in s.threads
  {
    var th := s.threads[t];
    && (t in s.registered <==> IsRegistered(th.pc))
    && (th.pointer <==> HasPointer(th.pc))
    && (th.pc.InGuest? ==> !th.exitNow)
    && (th.pc.SetPointer? || th.pc.Register? ==> th.signals == 0)
    && (th.pc.SendStop? || th.pc.Done? ==> s.shouldStop)
    && (th.pc.Done? ==> s.stopSent)
    && (s.stopSent && PastStopCheck(th.pc) ==> Summoned(th))
    && (t in s.kicked ==> IsRegistered(th.pc) || Gone(th.pc))
    && (t in s.kicked && PastPendingCheck(th.pc) ==> Summoned(th))
  }

  ghost predicate SomeoneGone(s: State) { exists t :: t in s.threads && Gone(s.threads[t].pc) }

  ghost predicate SomeoneSending(s: State) { exists t :: t in s.threads && s.threads[t].pc.SendStop? }

  /** The first registered thread has yet to look at `devicesPending`, or must leave the guest. */
  ghost predicate FirstAwake(s: State)
    requires forall t :: t in s.registered ==> t in s.threads
  {
    s.registered == [] ||
      (var th := s.threads[s.registered[0]]; PastPendingCheck(th.pc) ==> Summoned(th))
  }

  ghost predicate Inv(s: State) {
    && Distinct(s.registered)
    && (forall t :: t in s.registered ==> t in s.threads)
    && (forall t :: t in s.threads ==> ThreadOk(s, t))
    && (s.stopSent || s.stopCalls > 0 ==> s.shouldStop)
    && (s.shouldStop ==> s.stopSent || s.stopCalls > 0 || SomeoneSending(s))
    && (s.kickSent ==> s.devicesPending && (FirstAwake(s) || SomeoneGone(s)))
    && (s.kicked != {} ==> s.kickSent)
    && (forall t :: t in s.kicked ==> t in s.threads)
    && (s.devicesPending ==> s.kickSent || s.kickCalls > 0)
  }

  /** What a step of thread `t` that stays in the list, and stores no flag, has to keep. */
  lemma PutKeeps(s: State, t: Tid, th: Thread)
    requires Inv(s) && t in s.threads
    requires ThreadOk(Put(s, t, th), t)
    requires IsRegistered(th.pc) == IsRegistered(s.threads[t].pc)
    requires Gone(s.threads[t].pc) ==> Gone(th.pc)
    requires s.threads[t].pc.SendStop? ==> th.pc.SendStop? || s.stopSent
    requires s.kickSent && s.registered != [] && s.registered[0] == t && PastPendingCheck(th.pc) ==>
      Summoned(th) || SomeoneGone(s)
    ensures Inv(Put(s, t, th))
  {
    var n := Put(s, t, th);
    forall u | u in n.threads ensures ThreadOk(n, u) {
      if u != t {
        assert ThreadOk(s, u);
      }
    }
    if SomeoneGone(s) {
      var u :| u in s.threads && Gone(s.threads[u].pc);
      assert Gone(n.threads[u].pc);
    }
    if SomeoneSending(s) {
      var u :| u in s.threads && s.threads[u].pc.SendStop?;
      assert n.threads[u].pc.SendStop? || s.stopSent;
    }
  }

  lemma FlagsKeep(s: State, n: State)
    requires Inv(s) && n == s.(shouldStop := n.shouldStop, devicesPending := n.devicesPending,
                               stopCalls := n.stopCalls, kickCalls := n.kickCalls)
    requires s.shouldStop ==> n.shouldStop
    requires s.devicesPending ==> n.devicesPending
    requires n.stopCalls >= s.stopCalls && n.kickCalls >= s.kickCalls
    requires n.shouldStop && !s.shouldStop ==> n.stopCalls > 0
    requires n.stopCalls > 0 ==> n.shouldStop
    requires n.devicesPending && !s.devicesPending ==> n.kickCalls > 0
    ensures Inv(n)
  {
    forall u | u in n.threads ensures ThreadOk(n, u) {
      assert ThreadOk(s, u);
    }
    if SomeoneGone(s) {
      var u :| u in s.threads && Gone(s.threads[u].pc);
      assert Gone(n.threads[u].pc);
    }
    if SomeoneSending(s) {
      var u :| u in s.threads && s.threads[u].pc.SendStop?;
      assert n.threads[u].pc.SendStop?;
    }
  }

  /** Sending signals to registered threads, whoever does it. */
  lemma SignalsKeep(s: State, targets: set<Tid>)
    requires Inv(s) && forall t :: t in targets ==> t in s.registered
    ensures Inv(s.(threads := Signalled(s.threads, targets)))
  {
    var n := s.(threads := Signalled(s.threads, targets));
    forall u | u in n.threads ensures ThreadOk(n, u) {
      assert ThreadOk(s, u);
    }
    if SomeoneGone(s) {
      var u :| u in s.threads && Gone(s.threads[u].pc);
      assert Gone(n.threads[u].pc);
    }
    if SomeoneSending(s) {
      var u :| u in s.threads && s.threads[u].pc.SendStop?;
      assert n.threads[u].pc.SendStop?;
    }
  }

  /** Once every registered thread has a signal, the stop is as good as done. */
  lemma AllSignalled(s: State, n: State)
    requires Inv(s) && s.shouldStop
    requires n == s.(threads := Signalled(s.threads, Everyone(s)), stopSent := true, stopCalls := n.stopCalls)
    ensures Inv(n)
  {
    SignalsKeep(s, Everyone(s));
    var m := s.(threads := Signalled(s.threads, Everyone(s)));
    forall u | u in n.threads ensures ThreadOk(n, u) {
      assert ThreadOk(m, u);
      assert ThreadOk(s, u);
    }
  }

  lemma KickSendKeeps(s: State)
    requires Inv(s) && Enabled(s, KickSend)
    ensures Inv(Apply(s, KickSend))
  {
    var n := Apply(s, KickSend);
    SignalsKeep(s, First(s));
    var m := s.(threads := Signalled(s.threads, First(s)));
    forall u | u in n.threads ensures ThreadOk(n, u) {
      assert ThreadOk(m, u);
    }
    if SomeoneSending(m) {
      var u :| u in m.threads && m.threads[u].pc.SendStop?;
      assert n.threads[u].pc.SendStop?;
    }
    assert FirstAwake(n);
  }

  /** A thread whose own part of the state did not change. */
  lemma OtherStaysOk(s: State, n: State, u: Tid)
    requires u in s.threads && u in n.threads && n.threads[u] == s.threads[u] && ThreadOk(s, u)
    requires (u in n.registered <==> u in s.registered) && (s.shouldStop ==> n.shouldStop)
    requires n.stopSent == s.stopSent && (u in n.kicked ==> u in s.kicked)
    ensures ThreadOk(n, u)
  {
  }

  /** The steps that change more than the thread. */
  lemma OwnStepOk(s: State, t: Tid)
    requires t in s.threads && ThreadOk(s, t)
    requires var pc := s.threads[t].pc;
             pc.Register? || pc.Unregister? || pc.TakePending? || pc.StoreStop?
    ensures ThreadOk(StepOf(s, t, true), t)
  {
    hide Signalled, Everyone, TryEnter, Handler;
  }

  lemma RegisterKeeps(s: State, t: Tid)
    requires Inv(s) && t in s.threads && s.threads[t].pc.Register?
    ensures Inv(StepOf(s, t, true))
  {
    var n := StepOf(s, t, true);
    OwnStepOk(s, t);
    hide ThreadOk, Moved;
    forall u | u in n.threads ensures ThreadOk(n, u) {
      if u != t {
        OtherStaysOk(s, n, u);
      }
    }
    OthersStay(s, n, t);
  }

  lemma UnregisterKeeps(s: State, t: Tid)
    requires Inv(s) && t in s.threads && s.threads[t].pc.Unregister?
    ensures Inv(StepOf(s, t, true))
  {
    var n := StepOf(s, t, true);
    OwnStepOk(s, t);
    hide ThreadOk, Moved;
    forall u | u in n.threads ensures ThreadOk(n, u) {
      if u != t {
        OtherStaysOk(s, n, u);
      }
    }
    assert Gone(n.threads[t].pc);
    WithoutDistinct(s.registered, t);
    OthersStay(s, n, t);
  }

  lemma OthersStay(s: State, n: State, t: Tid)
    requires t in s.threads && t in n.threads && n.threads == s.threads[t := n.threads[t]]
    requires Gone(s.threads[t].pc) ==> Gone(n.threads[t].pc)
    ensures SomeoneGone(s) ==> SomeoneGone(n)
    ensures SomeoneSending(s) && !s.threads[t].pc.SendStop? ==> SomeoneSending(n)
  {
    if SomeoneGone(s) {
      var u :| u in s.threads && Gone(s.threads[u].pc);
      assert Gone(n.threads[u].pc);
    }
    if SomeoneSending(s) && !s.threads[t].pc.SendStop? {
      var u :| u in s.threads && s.threads[u].pc.SendStop?;
      assert n.threads[u].pc.SendStop?;
    }
  }

  lemma TakePendingKeeps(s: State, t: Tid)
    requires Inv(s) && t in s.threads && s.threads[t].pc.TakePending?
    ensures Inv(StepOf(s, t, true))
  {
    var n := StepOf(s, t, true);
    OwnStepOk(s, t);
    hide ThreadOk, Moved;
    forall u | u in n.threads ensures ThreadOk(n, u) {
      if u != t {
        OtherStaysOk(s, n, u);
      }
    }
    OthersStay(s, n, t);
  }

  lemma StoreStopKeeps(s: State, t: Tid)
    requires Inv(s) && t in s.threads && s.threads[t].pc.StoreStop?
    ensures Inv(StepOf(s, t, true))
  {
    var n := StepOf(s, t, true);
    OwnStepOk(s, t);
    hide ThreadOk, Moved;
    forall u | u in n.threads ensures ThreadOk(n, u) {
      if u != t {
        OtherStaysOk(s, n, u);
      }
    }
    assert n.threads[t].pc.SendStop?;
  }

  lemma SendStopKeeps(s: State, t: Tid)
    requires Inv(s) && t in s.threads && s.threads[t].pc.SendStop?
    ensures Inv(StepOf(s, t, true))
  {
    assert ThreadOk(s, t);
    var m := s.(threads := Signalled(s.threads, Everyone(s)), stopSent := true);
    AllSignalled(s, m);
    assert StepOf(s, t, true) == Put(m, t, s.threads[t].(pc := Done));
    PutKeeps(m, t, s.threads[t].(pc := Done));
  }

  /** The steps that touch nothing but the thread. */
  lemma PlainStepKeeps(s: State, t: Tid, fine: bool)
    requires Inv(s) && Enabled(s, Step(t, fine))
    requires var pc := s.threads[t].pc;
             pc.SetPointer? || pc.CheckStop? || pc.Poll? || pc.EnterGuest? || pc.ClearExit? || pc.HandleExit?
             || pc.ClearPointer?
    ensures Inv(StepOf(s, t, fine))
  {
    assert ThreadOk(s, t);
    PlainStepIsOk(s, t, fine);
    hide Moved, ThreadOk, SomeoneGone, SomeoneSending, FirstAwake;
    PutKeeps(s, t, Moved(s, t, fine));
  }

  lemma PlainStepIsOk(s: State, t: Tid, fine: bool)
    requires Enabled(s, Step(t, fine)) && ThreadOk(s, t) && (s.stopSent ==> s.shouldStop)
    requires var pc := s.threads[t].pc;
             pc.SetPointer? || pc.CheckStop? || pc.Poll? || pc.EnterGuest? || pc.ClearExit? || pc.HandleExit?
             || pc.ClearPointer?
    ensures var th, was := Moved(s, t, fine), s.threads[t];
            && ThreadOk(Put(s, t, th), t) && IsRegistered(th.pc) == IsRegistered(was.pc)
            && (Gone(was.pc) ==> Gone(th.pc)) && !was.pc.SendStop?
            && (PastPendingCheck(th.pc) ==> PastPendingCheck(was.pc) && (Summoned(was) ==> Summoned(th)))
  {
  }

  lemma StepKeeps(s: State, t: Tid, fine: bool)
    requires Inv(s) && Enabled(s, Step(t, fine))
    ensures Inv(StepOf(s, t, fine))
  {
    var th := s.threads[t];
    assert ThreadOk(s, t);
    match th.pc
    case Register => RegisterKeeps(s, t);
    case Unregister => UnregisterKeeps(s, t);
    case TakePending => TakePendingKeeps(s, t);
    case StoreStop => StoreStopKeeps(s, t);
    case SendStop => SendStopKeeps(s, t);
    case _ => PlainStepKeeps(s, t, fine);
  }

  lemma SpawnKeeps(s: State, t: Tid)
    requires Inv(s) && Enabled(s, Spawn(t))
    ensures Inv(Apply(s, Spawn(t)))
  {
    var n := Apply(s, Spawn(t));
    forall u | u in n.threads ensures ThreadOk(n, u) {
      assert u != t ==> ThreadOk(s, u);
    }
    SpawnStays(s, t);
  }

  lemma LeaveKeeps(s: State, t: Tid, eintr: bool)
    requires Inv(s) && Enabled(s, Leave(t, eintr))
    ensures Inv(Apply(s, Leave(t, eintr)))
  {
    assert ThreadOk(s, t);
    hide Inv;
    PutKeeps(s, t, Apply(s, Leave(t, eintr)).threads[t]);
  }

  lemma DeliverKeeps(s: State, t: Tid)
    requires Inv(s) && Enabled(s, Deliver(t))
    ensures Inv(Apply(s, Deliver(t)))
  {
    assert ThreadOk(s, t);
    assert s.registered != [] && s.registered[0] == t && s.kickSent ==> FirstAwake(s) || SomeoneGone(s);
    PutKeeps(s, t, Handler(s.threads[t]));
  }

  /** The steps of stop() and kick(). */
  lemma CallKeeps(s: State, a: Action)
    requires Inv(s) && Enabled(s, a) && (a.StopStore? || a.StopSend? || a.KickStore? || a.KickSend?)
    ensures Inv(Apply(s, a))
  {
    hide Signalled, StepOf, ThreadOk;
    if a.StopSend? {
      AllSignalled(s, Apply(s, a));
    } else if a.KickSend? {
      KickSendKeeps(s);
    } else {
      FlagsKeep(s, Apply(s, a));
    }
  }

  lemma ActionKeeps(s: State, a: Action)
    requires Inv(s) && Enabled(s, a)
    ensures Inv(Apply(s, a))
  {
    hide Signalled, StepOf;
    match a
    case Spawn(t) => SpawnKeeps(s, t);
    case Step(t, fine) => StepKeeps(s, t, fine);
    case Leave(t, eintr) => LeaveKeeps(s, t, eintr);
    case Fail(t) => assert ThreadOk(s, t); hide Inv; PutKeeps(s, t, s.threads[t].(pc := Unregister));
    case Deliver(t) => DeliverKeeps(s, t);
    case _ => CallKeeps(s, a);
  }

  lemma SpawnStays(s: State, t: Tid)
    requires t !in s.threads
    ensures SomeoneGone(s) ==> SomeoneGone(Apply(s, Spawn(t)))
    ensures SomeoneSending(s) ==> SomeoneSending(Apply(s, Spawn(t)))
  {
    var n := Apply(s, Spawn(t));
    if SomeoneGone(s) {
      var u :| u in s.threads && Gone(s.threads[u].pc);
      assert Gone(n.threads[u].pc);
    }
    if SomeoneSending(s) {
      var u :| u in s.threads && s.threads[u].pc.SendStop?;
      assert n.threads[u].pc.SendStop?;
    }
  }

  lemma SignalsMoveNone(threads: map<Tid, Thread>, targets: set<Tid>)
    ensures forall t :: t in threads ==> Signalled(threads, targets)[t].pc == threads[t].pc
  {
  }

  lemma StepMovesNoOther(s: State, u: Tid, fine: bool, t: Tid)
    requires Enabled(s, Step(u, fine)) && t in s.threads && t != u
    ensures t in StepOf(s, u, fine).threads && StepOf(s, u, fine).threads[t].pc == s.threads[t].pc
  {
    ThreadsAfter(s, u, fine);
    SignalsMoveNone(s.threads, Everyone(s));
    hide Moved, Everyone, Signalled, StepOf;
  }

  lemma ThreadsAfter(s: State, u: Tid, fine: bool)
    requires Enabled(s, Step(u, fine))
    ensures StepOf(s, u, fine).threads
         == (if s.threads[u].pc.SendStop? then Signalled(s.threads, Everyone(s)) else s.threads)[u := Moved(s, u, fine)]
  {
    hide Moved, Without, Everyone, Signalled;
  }

  /** The thread an action belongs to, if it is a thread's own. */
  predicate OwnedBy(a: Action, t: Tid) {
    match a
    case Step(u, _) => u == t
    case Leave(u, _) => u == t
    case Fail(u) => u == t
    case _ => false
  }

  /** Only a thread's own steps move it. */
  lemma OnlyOwnStepsMove(s: State, a: Action, t: Tid)
    requires Enabled(s, a) && t in s.threads && !OwnedBy(a, t)
    ensures t in Apply(s, a).threads && Apply(s, a).threads[t].pc == s.threads[t].pc
  {
    match a
    case Step(u, fine) => StepMovesNoOther(s, u, fine, t);
    case _ =>
  }

  lemma OwnStepFromGone(s: State, t: Tid, fine: bool)
    requires Enabled(s, Step(t, fine)) && (s.threads[t].pc.Unregister? || Gone(s.threads[t].pc))
    ensures t in StepOf(s, t, fine).threads && Gone(StepOf(s, t, fine).threads[t].pc)
  {
  }

  lemma FlagStays(s: State, a: Action)
    requires Enabled(s, a) && s.shouldStop
    ensures Apply(s, a).shouldStop
  {
  }

  lemma PendingStays(s: State, a: Action)
    requires Enabled(s, a) && s.devicesPending && !(a.Step? && s.threads[a.t].pc.TakePending?)
    ensures Apply(s, a).devicesPending
  {
  }

  const INITIAL := State(false, false, [], map[], 0, 0, false, false, {})

  ghost predicate Run(s: State, actions: seq<Action>, t: State)
    decreases |actions|
  {
    if actions == [] then s == t
    else Enabled(s, actions[0]) && Run(Apply(s, actions[0]), actions[1..], t)
  }

  lemma {:induction false} RunKeeps(s: State, actions: seq<Action>, t: State)
    requires Inv(s) && Run(s, actions, t)
    ensures Inv(t)
    decreases |actions|
  {
    if actions == [] {
    } else {
      ActionKeeps(s, actions[0]);
      RunKeeps(Apply(s, actions[0]), actions[1..], t);
    }
  }

  // ----- what it is for

  /** After a stop() has completed no thread is stuck past its check: it has a
      signal pending or will be sent straight out of KVM_RUN. */
  lemma NoLostStop(actions: seq<Action>, s: State, t: Tid)
    requires Run(INITIAL, actions, s) && t in s.threads
    ensures s.stopSent && PastStopCheck(s.threads[t].pc) ==> Summoned(s.threads[t])
    ensures s.stopSent && s.threads[t].pc.InGuest? ==> s.threads[t].signals > 0
    ensures s.shouldStop ==> s.stopSent || s.stopCalls > 0 || SomeoneSending(s)
  {
    RunKeeps(INITIAL, actions, s);
    assert ThreadOk(s, t);
  }

  /** How many steps of its own a thread can be from leaving the loop once the machine stops. */
  function StopDistance(pc: Pc): nat {
    match pc
    case TakePending => 6
    case Poll => 5
    case EnterGuest => 4
    case InGuest => 3
    case ClearExit => 2
    case HandleExit => 2
    case CheckStop => 1
    case _ => 0
  }

  /** Every step of its own then brings it nearer, and none goes back into the guest. */
  lemma StopIsPrompt(actions: seq<Action>, s: State, a: Action)
    requires Run(INITIAL, actions, s) && s.stopSent && Enabled(s, a)
    requires a.Step? || a.Leave? || a.Fail?
    requires InLoop(s.threads[a.t].pc)
    ensures StopDistance(Apply(s, a).threads[a.t].pc) < StopDistance(s.threads[a.t].pc)
    ensures !Apply(s, a).threads[a.t].pc.InGuest?
  {
    RunKeeps(INITIAL, actions, s);
    assert ThreadOk(s, a.t);
    hide Run, Inv, Without, Everyone, Signalled;
    if a.Step? {
      StepIsPrompt(s, a.t, a.fine);
      hide Moved;
    }
  }

  lemma StepIsPrompt(s: State, t: Tid, fine: bool)
    requires s.shouldStop && Enabled(s, Step(t, fine)) && InLoop(s.threads[t].pc) && ThreadOk(s, t) && s.stopSent
    ensures StopDistance(Moved(s, t, fine).pc) < StopDistance(s.threads[t].pc) && !Moved(s, t, fine).pc.InGuest?
  {
  }

  /** After a kick() has completed, and until some thread takes the request:
      every thread it signalled that is past its check is bound to leave
      KVM_RUN, whatever else happens; one that ended instead stops the machine.
      And the thread now first in the list has yet to look or is bound to leave
      KVM_RUN, unless a thread has ended. */
  lemma NoLostKick(actions: seq<Action>, s: State)
    requires Run(INITIAL, actions, s)
    ensures forall t :: t in s.registered ==> t in s.threads
    ensures s.devicesPending ==> s.kickSent || s.kickCalls > 0
    ensures s.kicked != {} ==> s.kickSent
    ensures forall t :: t in s.kicked ==>
      && t in s.threads && (IsRegistered(s.threads[t].pc) || Gone(s.threads[t].pc))
      && (PastPendingCheck(s.threads[t].pc) ==> Summoned(s.threads[t]))
      && (s.threads[t].pc.InGuest? ==> s.threads[t].signals > 0)
    ensures s.kickSent ==> s.devicesPending && (FirstAwake(s) || SomeoneGone(s))
  {
    RunKeeps(INITIAL, actions, s);
    forall t | t in s.kicked ensures ThreadOk(s, t) {
    }
  }

  /** Signals go to threads that are alive and have told the handler where their kvm_run is. */
  lemma SignalsReachRegisteredOnly(actions: seq<Action>, s: State, t: Tid)
    requires Run(INITIAL, actions, s) && (t in Everyone(s) || t in First(s))
    ensures t in s.threads && IsRegistered(s.threads[t].pc) && s.threads[t].pointer
  {
    RunKeeps(INITIAL, actions, s);
    assert ThreadOk(s, t);
  }

  // ----- the shared object

  /** The flags and the thread list. Sending signals is returned as the list of targets. */
  class Control {
    var shouldStop: bool
    var devicesPending: bool
    var vcpuThreads: seq<Tid>

    constructor ()
      ensures !shouldStop && !devicesPending && vcpuThreads == []
    {
      shouldStop := false;
      devicesPending := false;
      vcpuThreads := [];
    }

    method Stop() returns (killed: seq<Tid>)
      modifies `shouldStop
      ensures shouldStop && killed == vcpuThreads
    {
      shouldStop := true;
      killed := [];
      for i := 0 to |vcpuThreads|
        invariant killed == vcpuThreads[..i]
      {
        killed := killed + [vcpuThreads[i]];
      }
    }

    method Kick() returns (killed: Option<Tid>)
      modifies `devicesPending
      ensures devicesPending
      ensures killed == if vcpuThreads == [] then None else Some(vcpuThreads[0])
    {
      devicesPending := true;
      killed := if |vcpuThreads| > 0 then Some(vcpuThreads[0]) else None;
    }

    method TakeDevicesPending() returns (was: bool)
      modifies `devicesPending
      ensures was == old(devicesPending) && !devicesPending
    {
      was := devicesPending;
      devicesPending := false;
    }

    method RegisterVcpuThread(self: Tid)
      modifies `vcpuThreads
      ensures vcpuThreads == old(vcpuThreads) + [self]
    {
      vcpuThreads := vcpuThreads + [self];
    }

    method UnregisterVcpuThread(self: Tid)
      modifies `vcpuThreads
      ensures vcpuThreads == Without(old(vcpuThreads), self)
    {
      var kept := [];
      for i := 0 to |vcpuThreads|
        invariant vcpuThreads == old(vcpuThreads)
        invariant kept == Without(vcpuThreads[..i], self)
      {
        assert vcpuThreads[..i + 1][..i] == vcpuThreads[..i];
        if vcpuThreads[i] != self {
          kept := kept + [vcpuThreads[i]];
        }
      }
      assert vcpuThreads[..|vcpuThreads|] == vcpuThreads;
      vcpuThreads := kept;
    }
  }
}
