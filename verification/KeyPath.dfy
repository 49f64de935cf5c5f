/** From a key on the host to a key in Doom: the controller, the interrupt,
    the guest's ring of bytes and its decoder. */
module KeyPath {
  import opened Common
  import opened Keys
  import opened I8042
  import Arith

  const QUEUE_SIZE := 64
  const WRAP := 0x1_0000_0000

  /** DG_GetKey on the bytes in the ring: the first event, what it leaves, and the prefix flag after it. */
  function NextEvent(extended: bool, ring: seq<Byte>): (Option<Event>, seq<Byte>, bool)
    decreases |ring|
  {
    if ring == [] then (None, [], extended)
    else
      var e := EventOf(extended, ring[0]);
      if e != [] then (Some(e[0]), ring[1..], false)
      else NextEvent(ring[0] == 0xe0, ring[1..])
  }

  function AsSeq(e: Option<Event>): seq<Event> { match e case Some(v) => [v] case None => [] }

  /** Taking events one at a time loses none and invents none. */
  lemma {:induction false} NextEventIsFirst(extended: bool, ring: seq<Byte>)
    ensures var (e, rest, x) := NextEvent(extended, ring);
            && Events(extended, ring) == AsSeq(e) + Events(x, rest)
            && PrefixAfter(extended, ring) == PrefixAfter(x, rest)
            && (e.None? ==> rest == [] && Events(extended, ring) == [])
            && |rest| <= |ring|
    decreases |ring|
  {
    if ring == [] {
    } else {
      EventsAppend(extended, [ring[0]], ring[1..]);
      assert ring == [ring[0]] + ring[1..];
      if EventOf(extended, ring[0]) == [] {
        NextEventIsFirst(ring[0] == 0xe0, ring[1..]);
      }
    }
  }

  // ----- the whole path

  /** The handler is off, about to look at the status, or about to read. */
  datatype Isr = Off | Look | Read

  datatype State = State(
    kbc: Kbc,
    latched: bool,          // an edge the guest has not taken its interrupt for
    isr: Isr,
    ring: seq<Byte>,
    extended: bool,
    // history
    typed: seq<(bool, Word32)>, got: seq<Event>)

  datatype Action =
    | Press(down: bool, keysym: Word32)   // on the host, at any time
    | Interrupt
    | IsrStep
    | GetKey                              // between interrupts

  predicate Enabled(s: State, a: Action) {
    match a
    case Press(_, _) => true
    case Interrupt => s.latched && s.isr.Off?
    // the ring does not overflow
    case IsrStep => s.isr.Look? || (s.isr.Read? && |s.ring| < QUEUE_SIZE)
    case GetKey => s.isr.Off?
  }

  ghost function Operate(s: State, op: Op): State {
    var k := Step(s.kbc, op);
    s.(kbc := k, latched := s.latched || k.edges > s.kbc.edges)
  }

  ghost function Apply(s: State, a: Action): State
    requires Enabled(s, a)
  {
    match a
    case Press(down, keysym) => Operate(s, Key(Scancodes(down, keysym))).(typed := s.typed + [(down, keysym)])
    case Interrupt => s.(latched := false, isr := Look)
    case IsrStep =>
      if s.isr.Look? then
        Operate(s, ReadStatus).(isr := if Reply(s.kbc, ReadStatus).value % 2 == 1 then Read else Off)
      else
        Operate(s, ReadData).(isr := Look, ring := s.ring + [Reply(s.kbc, ReadData).value])
    case GetKey =>
      var (e, rest, x) := NextEvent(s.extended, s.ring);
      s.(ring := rest, extended := x, got := s.got + AsSeq(e))
  }

  /** What all the typing means to Doom. */
  ghost function Meanings(typed: seq<(bool, Word32)>): seq<Event> {
    if typed == [] then []
    else Meanings(typed[..|typed| - 1]) + Meaning(typed[|typed| - 1].0, typed[|typed| - 1].1)
  }

  /** Bytes on the way: already in the guest's ring, then still in the controller. */
  ghost function OnTheWay(s: State): seq<Byte> { s.ring + Fifo(s.kbc) }

  ghost predicate Inv(s: State) {
    && I8042.Inv(s.kbc) && Listening(s.kbc) && Has(s.kbc.config, CONFIG_KBD_INT)
    && s.got + Events(s.extended, OnTheWay(s)) == Meanings(s.typed)
    && !PrefixAfter(s.extended, OnTheWay(s))
    // a byte in the controller has an interrupt coming, or a handler that has yet to see it
    && (Fifo(s.kbc) != [] ==> s.latched || !s.isr.Off?)
    && (s.isr.Read? ==> Fifo(s.kbc) != [])
  }

  lemma ConfigStays(k: Kbc, op: Op)
    requires op.ReadData? || op.ReadStatus? || op.Key?
    ensures Step(k, op).config == k.config && Step(k, op).scanning == k.scanning
  {
  }

  /** A byte that arrives at an empty output raises the line. */
  lemma ArrivalRaisesLine(k: Kbc, op: Op)
    requires I8042.Inv(k) && Has(k.config, CONFIG_KBD_INT) && (op.ReadData? || op.ReadStatus? || op.Key?)
    requires Fifo(Step(k, op)) != [] && (Fifo(k) == [] || op.ReadData?)
    ensures Step(k, op).edges > k.edges
  {
    ConfigStays(k, op);
    StepIsFifo(k, op);
    if !op.ReadData? {
      StepPipe(k, op);
    }
  }

  lemma PressKeeps(s: State, down: bool, keysym: Word32)
    requires Inv(s)
    ensures Inv(Apply(s, Press(down, keysym)))
  {
    hide Step, Fifo, Scancodes, Listening, Has, Meaning, Events, PrefixAfter;
    var n := Apply(s, Press(down, keysym));
    var codes := Scancodes(down, keysym);
    var op := Key(codes);
    KeyFifo(s.kbc, codes);
    assert n.typed[..|s.typed|] == s.typed;
    assert OnTheWay(n) == OnTheWay(s) + codes;
    EventsAppend(s.extended, OnTheWay(s), codes);
    ScancodesDecode(down, keysym);
    Regroup(s.got, [], Events(s.extended, OnTheWay(s)), Meaning(down, keysym));
    assert s.got + [] == s.got && [] + Events(s.extended, OnTheWay(s)) == Events(s.extended, OnTheWay(s));
    assert s.got + (Events(s.extended, OnTheWay(s)) + Meaning(down, keysym))
        == s.got + Events(s.extended, OnTheWay(s)) + Meaning(down, keysym);
    if Fifo(s.kbc) == [] && Fifo(n.kbc) != [] {
      ArrivalRaisesLine(s.kbc, op);
    }
  }

  lemma KeyFifo(k: Kbc, codes: seq<Byte>)
    requires I8042.Inv(k) && Listening(k)
    ensures var n := Step(k, Key(codes));
            && I8042.Inv(n) && Fifo(n) == Fifo(k) + codes && (codes == [] ==> n == k)
            && Listening(n) && n.config == k.config
  {
    StepIsFifo(k, Key(codes));
    ConfigStays(k, Key(codes));
  }

  lemma LookKeeps(s: State)
    requires Inv(s) && s.isr.Look?
    ensures Inv(Apply(s, IsrStep))
  {
    StepIsFifo(s.kbc, ReadStatus);
    ConfigStays(s.kbc, ReadStatus);
  }

  /** What a read returns and leaves when there is a byte. */
  lemma ReadReplies(k: Kbc)
    requires I8042.Inv(k) && Fifo(k) != []
    ensures Reply(k, ReadData).value == Fifo(k)[0] && Fifo(Step(k, ReadData)) == Fifo(k)[1..]
  {
    StepIsFifo(k, ReadData);
  }

  lemma ReadKeeps(s: State)
    requires Inv(s) && s.isr.Read? && |s.ring| < QUEUE_SIZE
    ensures Inv(Apply(s, IsrStep))
  {
    ReadStep(s);
    var n := Apply(s, IsrStep);
    hide I8042.Inv, Step, Fifo, Events, PrefixAfter, Meanings, Reply, Has, Listening, Apply, OnTheWay;
    assert Events(n.extended, OnTheWay(n)) == Events(s.extended, OnTheWay(s));
  }

  /** A read moves the controller's first byte to the ring. */
  lemma ReadStep(s: State)
    requires Inv(s) && s.isr.Read? && |s.ring| < QUEUE_SIZE
    ensures var n := Apply(s, IsrStep);
            && OnTheWay(n) == OnTheWay(s) && n.got == s.got && n.typed == s.typed && n.extended == s.extended
            && n.isr == Look
            && I8042.Inv(n.kbc) && Listening(n.kbc) && Has(n.kbc.config, CONFIG_KBD_INT)
  {
    StepIsFifo(s.kbc, ReadData);
    ConfigStays(s.kbc, ReadData);
    ReadReplies(s.kbc);
    hide I8042.Inv, Step, Fifo, Events, PrefixAfter, Meanings, Reply, Has;
    var fifo := Fifo(s.kbc);
    assert s.ring + [fifo[0]] + fifo[1..] == s.ring + fifo;
  }

  lemma Regroup(got: seq<Event>, e: seq<Event>, r: seq<Event>, t: seq<Event>)
    ensures got + ((e + r) + t) == (got + e) + (r + t)
  {
  }

  lemma GetKeyKeeps(s: State)
    requires Inv(s) && s.isr.Off?
    ensures Inv(Apply(s, GetKey))
  {
    hide Events, PrefixAfter, Fifo, NextEvent, Meanings;
    var n := Apply(s, GetKey);
    var bytes := Fifo(s.kbc);
    var (e, rest, x) := NextEvent(s.extended, s.ring);
    NextEventIsFirst(s.extended, s.ring);
    EventsAppend(s.extended, s.ring, bytes);
    EventsAppend(x, rest, bytes);
    Regroup(s.got, AsSeq(e), Events(x, rest), Events(PrefixAfter(x, rest), bytes));
  }

  ghost predicate Init(s: State) {
    && I8042.Inv(s.kbc) && Listening(s.kbc) && Has(s.kbc.config, CONFIG_KBD_INT)
    && Fifo(s.kbc) == [] && s.ring == [] && !s.extended && s.isr.Off?
    && s.typed == [] && s.got == []
  }

  ghost predicate Run(s: State, actions: seq<Action>, t: State)
    decreases |actions|
  {
    if actions == [] then s == t
    else Enabled(s, actions[0]) && Run(Apply(s, actions[0]), actions[1..], t)
  }

  lemma {:induction false} RunKeeps(s: State, actions: seq<Action>, t: State)
    requires Inv(s) && Run(s, actions, t)
    ensures Inv(t)
    decreases |actions|
  {
    if actions == [] {
    } else {
      match actions[0] {
        case Press(down, keysym) => PressKeeps(s, down, keysym);
        case Interrupt =>
        case IsrStep =>
          if s.isr.Look? {
            LookKeeps(s);
          } else {
            ReadKeeps(s);
          }
        case GetKey => GetKeyKeeps(s);
      }
      RunKeeps(Apply(s, actions[0]), actions[1..], t);
    }
  }

  /** What Doom has got is, in order, what the typing means; nothing is
      missing once nothing is on the way, and a byte in the controller always
      has an interrupt coming or a handler at work. */
  lemma KeysArrive(s: State, actions: seq<Action>, t: State)
    requires Init(s) && Run(s, actions, t)
    ensures t.got <= Meanings(t.typed)
    ensures OnTheWay(t) == [] ==> t.got == Meanings(t.typed)
    ensures Fifo(t.kbc) != [] ==> t.latched || !t.isr.Off?
  {
    assert OnTheWay(s) == [];
    RunKeeps(s, actions, t);
  }

  lemma NothingNext(extended: bool)
    ensures NextEvent(extended, []) == (None, [], extended)
  {
  }

  lemma NextEventStep(extended: bool, ring: seq<Byte>)
    requires ring != []
    ensures var key := if extended then ExtendedKey(ring[0] % 0x80) else PlainKey(ring[0] % 0x80);
            NextEvent(extended, ring)
            == if ring[0] == 0xe0 then NextEvent(true, ring[1..])
               else if key.None? then NextEvent(false, ring[1..])
               else (Some(Event(ring[0] < 0x80, key.value)), ring[1..], false)
  {
  }

  // ----- the guest's ring

  class Keyboard {
    const queue: array<Byte>
    var head: Word32
    var tail: Word32
    var extended: bool

    constructor ()
      ensures Ok() && Contents() == [] && !extended && fresh(queue)
    {
      queue := new Byte[QUEUE_SIZE](_ => 0);
      head, tail, extended := 0, 0, false;
    }

    /** How many bytes are in the ring: the indices run freely and wrap at 2^32. */
    function Count(): nat
      reads `head, `tail
    {
      (head - tail) % WRAP
    }

    ghost predicate Ok()
      reads `head, `tail
    {
      queue.Length == QUEUE_SIZE && Count() <= QUEUE_SIZE
    }

    ghost function Contents(): (c: seq<Byte>)
      requires Ok()
      reads `head, `tail, queue
      ensures |c| == Count()
    {
      var (t, q) := (tail, queue[..]);
      seq(Count(), (k: nat) requires |q| == QUEUE_SIZE => q[Place(t, k)])
    }

    static function Place(index: Word32, k: nat): (p: nat)
      ensures p < QUEUE_SIZE
    {
      (index + k) % WRAP % QUEUE_SIZE
    }

    /** Wrapping does not disturb the places: 64 divides 2^32. */
    static lemma PlaceIsMod(index: Word32, k: nat)
      ensures Place(index, k) == (index + k) % QUEUE_SIZE
    {
      Arith.ModMod(index + k, QUEUE_SIZE, WRAP / QUEUE_SIZE);
    }

    static lemma PlacesDiffer(index: Word32, j: nat, k: nat)
      requires j < k < QUEUE_SIZE
      ensures Place(index, j) != Place(index, k)
    {
      PlaceIsMod(index, j);
      PlaceIsMod(index, k);
      Arith.NearbyDiffer(index + j, index + k, QUEUE_SIZE);
    }

    static lemma NextPlace(index: Word32, k: nat)
      ensures Place((index + 1) % WRAP, k) == Place(index, k + 1)
    {
      Arith.ModAdd(index + 1, k, WRAP);
    }

    static lemma HeadPlace(head: Word32, tail: Word32)
      ensures Place(tail, (head - tail) % WRAP) == head % QUEUE_SIZE
    {
    }

    static lemma CountUp(head: Word32, tail: Word32)
      requires (head - tail) % WRAP < QUEUE_SIZE
      ensures ((head + 1) % WRAP - tail) % WRAP == (head - tail) % WRAP + 1
    {
    }

    static lemma CountDown(head: Word32, tail: Word32)
      requires head != tail
      ensures (head - (tail + 1) % WRAP) % WRAP == (head - tail) % WRAP - 1
    {
    }

    /** A byte goes to the end; one that finds the ring full is lost. */
    method QueuePush(byte: Byte)
      requires Ok()
      modifies `head, queue
      ensures Ok()
      ensures Contents() == if |old(Contents())| < QUEUE_SIZE then old(Contents()) + [byte] else old(Contents())
    {
      if (head - tail) % WRAP < QUEUE_SIZE {
        ghost var was, n := Contents(), Count();
        HeadPlace(head, tail);
        CountUp(head, tail);
        queue[head % QUEUE_SIZE] := byte;
        head := (head + 1) % WRAP;
        forall k | 0 <= k < n ensures queue[Place(tail, k)] == was[k] {
          PlacesDiffer(tail, k, n);
        }
        assert Contents() == was + [byte];
      }
    }

    /** keyboard_read: the oldest byte, if there is one. */
    method KeyboardRead() returns (scancode: Option<Byte>)
      requires Ok()
      modifies `tail
      ensures Ok()
      ensures old(Contents()) == [] ==> scancode.None? && Contents() == []
      ensures old(Contents()) != [] ==> scancode == Some(old(Contents())[0]) && Contents() == old(Contents())[1..]
    {
      if tail == head {
        return None;
      }
      ghost var was, start := Contents(), tail;
      CountDown(head, tail);
      assert Place(tail, 0) == tail % QUEUE_SIZE;
      scancode := Some(queue[tail % QUEUE_SIZE]);
      tail := (tail + 1) % WRAP;
      forall k | 0 <= k < Count() ensures queue[Place(tail, k)] == was[k + 1] {
        NextPlace(start, k);
      }
      assert Contents() == was[1..];
    }

    /** The handler: moves what the controller has to the ring, as far as it fits. */
    method KeyboardInterrupt(kbc: Controller)
      requires Ok() && I8042.Inv(kbc.View())
      modifies kbc, `head, queue
      ensures Ok() && I8042.Inv(kbc.View()) && Fifo(kbc.View()) == []
      ensures var all := old(Contents()) + Fifo(old(kbc.View()));
              Contents() == if |all| <= QUEUE_SIZE then all else all[..QUEUE_SIZE]
    {
      hide Step, Contents, Count, Fifo, PipeOk, Level;
      ghost var all := Contents() + Fifo(kbc.View());
      ghost var moved := Contents();
      while true
        invariant Ok() && I8042.Inv(kbc.View())
        invariant moved + Fifo(kbc.View()) == all
        invariant Contents() == if |moved| <= QUEUE_SIZE then moved else moved[..QUEUE_SIZE]
        decreases |Fifo(kbc.View())|
      {
        StepIsFifo(kbc.View(), ReadStatus);
        var status := kbc.Handle(false, COMMAND_PORT, 0);
        if status.value % 2 == 0 {
          break;
        }
        ghost var before := kbc.View();
        StepIsFifo(before, ReadData);
        var data := kbc.Handle(false, DATA_PORT, 0);
        QueuePush(data.value);
        assert moved + [data.value] + Fifo(kbc.View()) == moved + Fifo(before);
        moved := moved + [data.value];
      }
      assert moved == all;
    }

    /** DG_GetKey: the next event Doom has a key for. */
    method GetKey() returns (event: Option<Event>)
      requires Ok()
      modifies `tail, `extended
      ensures Ok()
      ensures (event, Contents(), extended) == NextEvent(old(extended), old(Contents()))
    {
      hide NextEvent, EventOf, PlainKey, ExtendedKey, Contents, Count, Ok;
      ghost var start, ring := extended, Contents();
      while true
        invariant Ok()
        invariant NextEvent(extended, Contents()) == NextEvent(start, ring)
        decreases |Contents()|
      {
        NothingNext(extended);
        if Contents() != [] {
          NextEventStep(extended, Contents());
        }
        var scancode := KeyboardRead();
        if scancode.None? {
          return None;
        }
        var byte := scancode.value;
        if byte == 0xe0 {
          extended := true;
          continue;
        }
        var key := if extended then ExtendedKey(byte % 0x80) else PlainKey(byte % 0x80);
        extended := false;
        if key.Some? {
          return Some(Event(byte < 0x80, key.value));
        }
      }
    }
  }
}
