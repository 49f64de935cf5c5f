/** The guest's sleep: it halts on a one-shot timer, in loads that fit the
    timer's register, and cannot miss the interrupt that ends one. */
module Sleep {
  import opened Common
  import Arith

  const MAX_LOAD := 0xffff_ffff

  // ----- the loads

  /** The longest time the timer can count at this rate, and at most what is left. */
  function Chunk(ms: Word32, ticks: Word32): Word32
    requires ticks > 0
  {
    if ms < MAX_LOAD / ticks then ms else MAX_LOAD / ticks
  }

  function Load(chunk: nat, ticks: nat): nat { chunk * ticks }

  /** A chunk is never empty and its load never overflows the register. */
  lemma ChunkFits(ms: Word32, ticks: Word32)
    requires ms > 0 && ticks > 0
    ensures 0 < Chunk(ms, ticks) <= ms && 0 < Load(Chunk(ms, ticks), ticks) <= MAX_LOAD
  {
    var limit := MAX_LOAD / ticks;
    assert MAX_LOAD == limit * ticks + MAX_LOAD % ticks;
    assert limit * ticks > 0;
    var chunk := Chunk(ms, ticks);
    Arith.MulAtLeast(chunk, ticks);
    Arith.MulSplit(limit, chunk, ticks);
  }

  function Sum(loads: seq<nat>): nat
    decreases |loads|
  {
    if loads == [] then 0 else Sum(loads[..|loads| - 1]) + loads[|loads| - 1]
  }

  /** What sleep_ms writes to the timer: any time, in loads that add up to exactly it. */
  method SleepLoads(ms: Word32, ticks: Word32) returns (loads: seq<nat>)
    requires ticks > 0
    ensures forall k :: 0 <= k < |loads| ==> 0 < loads[k] <= MAX_LOAD
    ensures Sum(loads) == Load(ms, ticks)
  {
    loads := [];
    var left: nat := ms;
    while left > 0
      invariant left <= ms
      invariant forall k :: 0 <= k < |loads| ==> 0 < loads[k] <= MAX_LOAD
      invariant Sum(loads) + Load(left, ticks) == Load(ms, ticks)
      decreases left
    {
      var chunk := Chunk(left, ticks);
      ChunkFits(left, ticks);
      Arith.MulSplit(left, chunk, ticks);
      left := left - chunk;
      ghost var before := loads;
      loads := loads + [Load(chunk, ticks)];
      assert loads[..|loads| - 1] == before;
    }
  }

  // ----- against the timer and its interrupt

  /** Where sleep_ms is. Interrupts are off at Check and Leave; `sti; hlt` is one step, as
      interrupts are only taken after the hlt. */
  datatype Pc = Top | Clear | Arm | Cli | Check | Halted | Leave | Done

  datatype State = State(
    pc: Pc, ms: nat, chunk: nat,
    fired: bool,          // timer_fired
    enabled: bool,        // interrupts
    timer: nat,           // what the timer still has to count, 0 when stopped
    pending: bool,        // its interrupt, not yet taken
    ticked: nat, loads: seq<nat>)   // history

  datatype Action =
    | Step                // the next step of sleep_ms
    | Tick                // the timer counts
    | Interrupt           // the timer's interrupt is taken
    | Other               // another device's is

  predicate Enabled(s: State, a: Action) {
    match a
    case Step => s.pc != Halted && s.pc != Done
    case Tick => s.timer > 0
    case Interrupt => s.pending && s.enabled
    case Other => s.enabled
  }

  function Woken(pc: Pc): Pc { if pc == Halted then Cli else pc }

  function StepOf(s: State, ticks: Word32): State
    requires s.pc != Halted && s.pc != Done && s.ms <= MAX_LOAD && ticks > 0
  {
    match s.pc
    case Top =>
      if s.ms == 0 then s.(pc := Done)
      else s.(pc := Clear, chunk := Chunk(s.ms, ticks), ms := s.ms - Chunk(s.ms, ticks))
    case Clear => s.(pc := Arm, fired := false)
    case Arm => s.(pc := Cli, timer := Load(s.chunk, ticks), loads := s.loads + [Load(s.chunk, ticks)])
    case Cli => s.(pc := Check, enabled := false)
    case Check => if s.fired then s.(pc := Leave) else s.(pc := Halted, enabled := true)
    case Leave => s.(pc := Top, enabled := true)
  }

  ghost function Apply(s: State, a: Action, ticks: Word32): State
    requires Enabled(s, a) && s.ms <= MAX_LOAD && ticks > 0
  {
    match a
    case Step => (ChunkNotMore(s.ms, ticks); StepOf(s, ticks))
    case Tick => s.(timer := s.timer - 1, ticked := s.ticked + 1, pending := s.pending || s.timer == 1)
    case Interrupt => s.(pending := false, fired := true, pc := Woken(s.pc))
    case Other => s.(pc := Woken(s.pc))
  }

  lemma ChunkNotMore(ms: nat, ticks: Word32)
    requires ms <= MAX_LOAD && ticks > 0
    ensures Chunk(ms, ticks) <= ms
  {
  }

  predicate Armed(pc: Pc) { pc == Cli || pc == Check || pc == Halted }

  predicate TimerQuiet(s: State) { s.timer == 0 && !s.pending }

  /** Ticks loaded or still to be loaded. */
  function Ahead(s: State, ticks: nat): nat {
    Load(s.ms, ticks) + (if s.pc == Clear || s.pc == Arm then Load(s.chunk, ticks) else 0)
  }

  ghost predicate Inv(s: State, total: nat, ticks: Word32) {
    && s.ms <= MAX_LOAD && 0 < ticks && s.chunk <= MAX_LOAD
    && (s.enabled <==> s.pc != Check && s.pc != Leave)
    && (s.pc == Clear || s.pc == Arm ==> 0 < Load(s.chunk, ticks) <= MAX_LOAD)
    && (s.pc == Arm ==> !s.fired)
    && (s.pc == Halted ==> !s.fired)
    && (if Armed(s.pc) then
          if s.fired then TimerQuiet(s) else (s.timer > 0 <==> !s.pending)
        else TimerQuiet(s))
    && (s.pc == Done ==> s.ms == 0)
    && s.ticked + s.timer + Ahead(s, ticks) == total
    && Sum(s.loads) == s.ticked + s.timer
    && (forall k :: 0 <= k < |s.loads| ==> 0 < s.loads[k] <= MAX_LOAD)
  }

  lemma StepKeeps(s: State, total: nat, ticks: Word32)
    requires Inv(s, total, ticks) && Enabled(s, Step)
    ensures Inv(Apply(s, Step, ticks), total, ticks)
  {
    if s.pc == Top && s.ms > 0 {
      ChunkFits(s.ms, ticks);
      Arith.MulSplit(s.ms, Chunk(s.ms, ticks), ticks);
      hide Chunk;
    } else if s.pc == Arm {
      var n := Apply(s, Step, ticks);
      assert n.loads[..|n.loads| - 1] == s.loads;
      hide Load;
    } else {
      hide Load, Chunk;
    }
  }

  lemma ActionKeeps(s: State, a: Action, total: nat, ticks: Word32)
    requires Inv(s, total, ticks) && Enabled(s, a)
    ensures Inv(Apply(s, a, ticks), total, ticks)
  {
    if a == Step {
      StepKeeps(s, total, ticks);
    } else {
      hide Load, Chunk;
    }
  }

  ghost predicate Run(s: State, actions: seq<Action>, t: State, ticks: Word32)
    decreases |actions|
  {
    && s.ms <= MAX_LOAD && ticks > 0
    && if actions == [] then s == t
       else Enabled(s, actions[0]) && Run(Apply(s, actions[0], ticks), actions[1..], t, ticks)
  }

  /** The start of a sleep: the timer is stopped and its last interrupt has been taken. */
  predicate Starts(s: State, ms: Word32) {
    s.pc == Top && s.ms == ms && s.chunk == 0 && s.enabled && TimerQuiet(s) && s.ticked == 0 && s.loads == []
  }

  lemma {:induction false} RunKeeps(s: State, actions: seq<Action>, t: State, total: nat, ticks: Word32)
    requires Inv(s, total, ticks) && Run(s, actions, t, ticks)
    ensures Inv(t, total, ticks)
    decreases |actions|
  {
    if actions == [] {
    } else {
      ActionKeeps(s, actions[0], total, ticks);
      RunKeeps(Apply(s, actions[0], ticks), actions[1..], t, total, ticks);
    }
  }

  /** In every interleaving: it never halts with the flag set, nor without a
      running timer or its pending interrupt to wake it; no load is empty or too
      big; and when it returns, exactly the ticks asked for have passed. */
  lemma NeverSleepsForever(s: State, ms: Word32, actions: seq<Action>, t: State, ticks: Word32)
    requires Starts(s, ms) && ticks > 0 && Run(s, actions, t, ticks)
    ensures t.pc == Halted ==> !t.fired && t.enabled && (t.timer > 0 || t.pending)
    ensures forall k :: 0 <= k < |t.loads| ==> 0 < t.loads[k] <= MAX_LOAD
    ensures t.pc == Done ==> t.ticked == Sum(t.loads) == Load(ms, ticks) && TimerQuiet(t)
    ensures t.ticked <= Load(ms, ticks)
  {
    RunKeeps(s, actions, t, Load(ms, ticks), ticks);
  }

  // ----- it gets there

  const PER_MS := 20

  function Work(ms: nat, ticks: nat): nat { ms * (ticks + PER_MS) }

  function StepsLeft(pc: Pc): nat {
    match pc
    case Done => 0
    case Top => 1
    case Leave => 2
    case Halted => 2
    case Check => 3
    case Cli => 4
    case Arm => 5
    case Clear => 6
  }

  /** A timer that has yet to fire will wake the processor once more. */
  function WakeLeft(s: State): nat {
    if s.pc == Clear || s.pc == Arm || (Armed(s.pc) && !s.fired) then 5 else 0
  }

  function Left(s: State, ticks: nat): nat {
    Work(s.ms, ticks)
    + (if s.pc == Clear || s.pc == Arm then Load(s.chunk, ticks) else 0)
    + s.timer + StepsLeft(s.pc) + WakeLeft(s)
  }

  /** Each step, tick or timer interrupt leaves less to do; another interrupt costs at most two steps more. */
  lemma ActionLeavesLess(s: State, a: Action, total: nat, ticks: Word32)
    requires Inv(s, total, ticks) && Enabled(s, a)
    ensures Left(Apply(s, a, ticks), ticks) + 1 <= Left(s, ticks) + (if a == Other then 3 else 0)
  {
    if a == Step && s.pc == Top && s.ms > 0 {
      ChunkFits(s.ms, ticks);
      Arith.MulSplit(s.ms, Chunk(s.ms, ticks), ticks + PER_MS);
      assert Chunk(s.ms, ticks) * (ticks + PER_MS) == Load(Chunk(s.ms, ticks), ticks) + Chunk(s.ms, ticks) * PER_MS;
      hide Chunk;
    } else {
      hide Work, Load, Chunk;
    }
  }

  function Others(actions: seq<Action>): nat {
    if actions == [] then 0 else (if actions[0] == Other then 1 else 0) + Others(actions[1..])
  }

  lemma {:induction false} RunIsBounded(s: State, actions: seq<Action>, t: State, total: nat, ticks: Word32)
    requires Inv(s, total, ticks) && Run(s, actions, t, ticks)
    ensures |actions| + Left(t, ticks) <= Left(s, ticks) + 3 * Others(actions)
    decreases |actions|
  {
    hide Left;
    if actions == [] {
    } else {
      ActionKeeps(s, actions[0], total, ticks);
      ActionLeavesLess(s, actions[0], total, ticks);
      RunIsBounded(Apply(s, actions[0], ticks), actions[1..], t, total, ticks);
    }
  }

  /** It never gets stuck, and its length is bounded by the time asked for and the other
      interrupts it has to take, so as time passes every sleep ends. */
  lemma SleepEnds(s: State, ms: Word32, actions: seq<Action>, t: State, ticks: Word32)
    requires Starts(s, ms) && ticks > 0 && Run(s, actions, t, ticks)
    ensures |actions| <= Work(ms, ticks) + 1 + 3 * Others(actions)
    ensures t.pc != Done ==> Enabled(t, Step) || Enabled(t, Tick) || Enabled(t, Interrupt)
  {
    RunKeeps(s, actions, t, Load(ms, ticks), ticks);
    RunIsBounded(s, actions, t, Load(ms, ticks), ticks);
  }
}
