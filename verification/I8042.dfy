/** The PS/2 controller with a keyboard on it: a byte FIFO behind an
    edge-triggered interrupt line. */
module I8042 {
  import opened Common

  const DATA_PORT := 0x60
  const COMMAND_PORT := 0x64

  // ----- configuration byte

  const CONFIG_KBD_INT: bv8 := 0x01
  const CONFIG_SYS: bv8 := 0x04
  const CONFIG_KBD_DISABLE: bv8 := 0x10
  const CONFIG_AUX_DISABLE: bv8 := 0x20
  const CONFIG_TRANSLATE: bv8 := 0x40

  predicate Has(c: bv8, m: bv8) { c & m != 0 }

  function With(c: bv8, m: bv8): bv8 { c | m }

  function Minus(c: bv8, m: bv8): bv8 { c & !m }

  function ToByte(c: bv8): Byte { c as Byte }

  function ToConfig(b: Byte): bv8 { b as bv8 }

  // ----- commands

  const CMD_READ_CONFIG := 0x20
  const CMD_WRITE_CONFIG: Byte := 0x60
  const CMD_AUX_DISABLE := 0xa7
  const CMD_AUX_ENABLE := 0xa8
  const CMD_SELF_TEST := 0xaa
  const CMD_KBD_TEST := 0xab
  const CMD_KBD_DISABLE := 0xad
  const CMD_KBD_ENABLE := 0xae
  const CMD_WRITE_OUTPUT_PORT: Byte := 0xd1
  const CMD_WRITE_KBD_OUTPUT: Byte := 0xd2
  const CMD_PULSE_RESET := 0xfe

  const KBD_SET_LEDS := 0xed
  const KBD_ECHO: Byte := 0xee
  const KBD_SCANCODE_SET: Byte := 0xf0
  const KBD_GET_ID := 0xf2
  const KBD_SET_TYPEMATIC := 0xf3
  const KBD_ENABLE := 0xf4
  const KBD_DISABLE := 0xf5
  const KBD_RESET := 0xff
  const KBD_ACK: Byte := 0xfa
  const KBD_SELF_TEST_OK: Byte := 0xaa

  /** The output byte, what is queued behind it, and how many bytes have become the output. */
  datatype Pipe = Pipe(output: Option<Byte>, queue: seq<Byte>, loads: nat)

  datatype Kbc = Kbc(
    config: bv8,
    pipe: Pipe,
    controllerParam: Option<Byte>, keyboardParam: Option<Byte>,
    statusCmd: bool, scanning: bool, irqLevel: bool,
    stopped: bool,       // the guest asked for a reset
    edges: nat)          // times the line has risen

  const RESET_CONFIG: bv8 := CONFIG_KBD_INT | CONFIG_SYS | CONFIG_AUX_DISABLE | CONFIG_TRANSLATE

  const RESET := Kbc(RESET_CONFIG, Pipe(None, [], 0), None, None, false, true, false, false, 0)

  function Push(p: Pipe, byte: Byte): Pipe {
    if p.output.None? then
      var q := p.queue + [byte];
      Pipe(Some(q[0]), q[1..], p.loads + 1)
    else p.(queue := p.queue + [byte])
  }

  function PushAll(p: Pipe, bytes: seq<Byte>): Pipe
    decreases |bytes|
  {
    if bytes == [] then p else PushAll(Push(p, bytes[0]), bytes[1..])
  }

  /** The next queued byte becomes the output. */
  function Load(p: Pipe): Pipe {
    if p.queue == [] then p.(output := None) else Pipe(Some(p.queue[0]), p.queue[1..], p.loads + 1)
  }

  function Send(k: Kbc, bytes: seq<Byte>): Kbc { k.(pipe := PushAll(k.pipe, bytes)) }

  function Level(k: Kbc): bool { k.pipe.output.Some? && Has(k.config, CONFIG_KBD_INT) }

  function UpdateIrq(k: Kbc): Kbc {
    if Level(k) != k.irqLevel then k.(irqLevel := Level(k), edges := if Level(k) then k.edges + 1 else k.edges) else k
  }

  /** The line drops before the next byte is loaded. */
  function TakeOutput(k: Kbc): Kbc {
    var dropped := UpdateIrq(k.(pipe := k.pipe.(output := None)));
    dropped.(pipe := Load(dropped.pipe))
  }

  function StatusByte(k: Kbc): Byte {
    0x10
    + (if k.pipe.output.Some? then 0x01 else 0)
    + (if Has(k.config, CONFIG_SYS) then 0x04 else 0)
    + (if k.statusCmd then 0x08 else 0)
  }

  function ControllerCommand(k: Kbc, cmd: Byte): Kbc {
    if cmd == CMD_READ_CONFIG then Send(k, [ToByte(k.config)])
    else if cmd == CMD_WRITE_CONFIG || cmd == CMD_WRITE_OUTPUT_PORT || cmd == CMD_WRITE_KBD_OUTPUT then
      k.(controllerParam := Some(cmd))
    else if cmd == CMD_AUX_DISABLE then k.(config := With(k.config, CONFIG_AUX_DISABLE))
    else if cmd == CMD_AUX_ENABLE then k.(config := Minus(k.config, CONFIG_AUX_DISABLE))
    else if cmd == CMD_SELF_TEST then Send(k.(config := With(k.config, CONFIG_SYS)), [0x55])
    else if cmd == CMD_KBD_TEST then Send(k, [0x00])
    else if cmd == CMD_KBD_DISABLE then k.(config := With(k.config, CONFIG_KBD_DISABLE))
    else if cmd == CMD_KBD_ENABLE then k.(config := Minus(k.config, CONFIG_KBD_DISABLE))
    else if cmd == CMD_PULSE_RESET then k.(stopped := true)
    else k
  }

  function ControllerParam(k: Kbc, cmd: Byte, byte: Byte): Kbc {
    if cmd == CMD_WRITE_CONFIG then k.(config := ToConfig(byte))
    else if cmd == CMD_WRITE_OUTPUT_PORT && byte % 2 == 0 then ControllerCommand(k, CMD_PULSE_RESET)
    else if cmd == CMD_WRITE_KBD_OUTPUT then Send(k, [byte])
    else k
  }

  /** What the keyboard answers to a byte, after a command that awaits a parameter or not. */
  function Answers(param: Option<Byte>, byte: Byte): seq<Byte> {
    if param.Some? then (if param.value == KBD_SCANCODE_SET && byte == 0 then [KBD_ACK, 1] else [KBD_ACK])
    else if byte == KBD_ECHO then [KBD_ECHO]
    else if byte == KBD_GET_ID then [KBD_ACK, 0xab, 0x83]
    else if byte == KBD_RESET then [KBD_ACK, KBD_SELF_TEST_OK]
    else [KBD_ACK]
  }

  predicate Resets(param: Option<Byte>, byte: Byte) { param.None? && byte == KBD_RESET }

  function KeyboardCommand(k: Kbc, byte: Byte): Kbc {
    var m := k.(config := Minus(k.config, CONFIG_KBD_DISABLE));
    var answers := Answers(k.keyboardParam, byte);
    if k.keyboardParam.Some? then Send(m.(keyboardParam := None), answers)
    else if byte == KBD_SET_LEDS || byte == KBD_SCANCODE_SET || byte == KBD_SET_TYPEMATIC then
      Send(m.(keyboardParam := Some(byte)), answers)
    else if byte == KBD_ENABLE then Send(m.(scanning := true), answers)
    else if byte == KBD_DISABLE then Send(m.(scanning := false), answers)
    else if byte == KBD_RESET then Send(m.(scanning := true, pipe := m.pipe.(queue := [])), answers)
    else Send(m, answers)
  }

  // ----- what can happen to it

  /** `Key` carries the bytes of a key event; other ports read as 0xff and ignore writes. */
  datatype Op =
    | ReadData | ReadStatus | ReadOther
    | WriteData(byte: Byte) | WriteCommand(byte: Byte) | WriteOther
    | Key(codes: seq<Byte>)

  predicate Listening(k: Kbc) { k.scanning && !Has(k.config, CONFIG_KBD_DISABLE) }

  function WriteDataByte(k: Kbc, byte: Byte): Kbc {
    var m := k.(statusCmd := false, controllerParam := None);
    match k.controllerParam
    case Some(cmd) => ControllerParam(m, cmd, byte)
    case None => KeyboardCommand(m, byte)
  }

  function Step(k: Kbc, op: Op): Kbc {
    match op
    case ReadData => UpdateIrq(TakeOutput(k))
    case WriteData(byte) => UpdateIrq(WriteDataByte(k, byte))
    case WriteCommand(byte) => UpdateIrq(ControllerCommand(k.(statusCmd := true, controllerParam := None), byte))
    case Key(codes) => if Listening(k) && codes != [] then UpdateIrq(Send(k, codes)) else k
    case _ => UpdateIrq(k)
  }

  function Reply(k: Kbc, op: Op): Option<Byte> {
    match op
    case ReadData => Some(match k.pipe.output case Some(b) => b case None => 0)
    case ReadStatus => Some(StatusByte(k))
    case ReadOther => Some(0xff)
    case _ => None
  }

  /** All the bytes still to be read, oldest first. */
  function Bytes(p: Pipe): seq<Byte> {
    match p.output case Some(b) => [b] + p.queue case None => p.queue
  }

  function Fifo(k: Kbc): seq<Byte> { Bytes(k.pipe) }

  ghost predicate PipeOk(p: Pipe) { p.output.None? ==> p.queue == [] }

  ghost predicate Inv(k: Kbc) { PipeOk(k.pipe) && k.irqLevel == Level(k) }

  /** One more byte has become the output, or none. */
  function Loaded(p: Pipe, bytes: seq<Byte>): nat { if p.output.None? && bytes != [] then 1 else 0 }

  lemma {:induction false} PushAllExtends(p: Pipe, bytes: seq<Byte>)
    requires PipeOk(p)
    ensures var n := PushAll(p, bytes);
            PipeOk(n) && Bytes(n) == Bytes(p) + bytes && n.loads == p.loads + Loaded(p, bytes)
    decreases |bytes|
  {
    if bytes != [] {
      var m := Push(p, bytes[0]);
      assert Bytes(m) == Bytes(p) + [bytes[0]];
      PushAllExtends(m, bytes[1..]);
      assert Bytes(p) + [bytes[0]] + bytes[1..] == Bytes(p) + bytes;
    } else {
      assert Bytes(p) + bytes == Bytes(p);
    }
  }

  /** The bytes an operation adds. */
  function Pushed(k: Kbc, op: Op): seq<Byte> {
    match op
    case WriteCommand(byte) =>
      if byte == CMD_READ_CONFIG then [ToByte(k.config)]
      else if byte == CMD_SELF_TEST then [0x55]
      else if byte == CMD_KBD_TEST then [0x00]
      else []
    case WriteData(byte) =>
      (match k.controllerParam
       case Some(cmd) => if cmd == CMD_WRITE_KBD_OUTPUT then [byte] else []
       case None => Answers(k.keyboardParam, byte))
    case Key(codes) => if Listening(k) then codes else []
    case _ => []
  }

  predicate ClearsQueue(k: Kbc, op: Op) {
    op.WriteData? && k.controllerParam.None? && Resets(k.keyboardParam, op.byte)
  }

  /** What an operation leaves of the bytes before it: all, all but the one
      read, or, after a keyboard reset, only the one already at the output. */
  function Left(k: Kbc, op: Op): seq<Byte> {
    if op.ReadData? && Fifo(k) != [] then Fifo(k)[1..]
    else if ClearsQueue(k, op) && Fifo(k) != [] then [Fifo(k)[0]]
    else Fifo(k)
  }

  /** How an operation that writes changes the pipe: it clears the queue or not, then pushes. */
  function PipeAfter(k: Kbc, op: Op): Pipe {
    PushAll(if ClearsQueue(k, op) then k.pipe.(queue := []) else k.pipe, Pushed(k, op))
  }

  lemma WriteDataPipe(k: Kbc, byte: Byte)
    ensures var n := WriteDataByte(k, byte);
            n.pipe == PipeAfter(k, WriteData(byte)) && n.irqLevel == k.irqLevel && n.edges == k.edges
  {
    hide PushAll, ToConfig, ToByte, Has;
    PushNothing(k.pipe);
  }

  lemma PushNothing(p: Pipe)
    ensures PushAll(p, []) == p
  {
  }

  lemma WriteCommandPipe(k: Kbc, byte: Byte)
    ensures var n := ControllerCommand(k.(statusCmd := true, controllerParam := None), byte);
            n.pipe == PipeAfter(k, WriteCommand(byte)) && n.irqLevel == k.irqLevel && n.edges == k.edges
  {
    hide PushAll, ToConfig, ToByte, Has;
    PushNothing(k.pipe);
  }

  lemma PipeAfterFacts(k: Kbc, op: Op)
    requires PipeOk(k.pipe) && !op.ReadData?
    ensures var n := PipeAfter(k, op);
            && PipeOk(n) && Bytes(n) == Left(k, op) + Pushed(k, op)
            && n.loads == k.pipe.loads + Loaded(k.pipe, Pushed(k, op))
            && (n.output.Some? <==> k.pipe.output.Some? || Pushed(k, op) != [])
  {
    var p := if ClearsQueue(k, op) then k.pipe.(queue := []) else k.pipe;
    PushAllExtends(p, Pushed(k, op));
    assert Bytes(p) == Left(k, op);
  }

  lemma StepPipe(k: Kbc, op: Op)
    requires !op.ReadData?
    ensures Step(k, op).pipe == PipeAfter(k, op)
    ensures op.Key? || Step(k, op).irqLevel == Level(Step(k, op))
    ensures Step(k, op).irqLevel == (if Step(k, op) == k then k.irqLevel else Level(Step(k, op)))
    ensures Step(k, op).edges == k.edges + (if !k.irqLevel && Step(k, op).irqLevel then 1 else 0)
  {
    match op
    case WriteData(byte) => WriteDataPipe(k, byte);
    case WriteCommand(byte) => WriteCommandPipe(k, byte);
    case _ =>
  }

  /** Every operation keeps the output filled from the queue and the line up
      to date, treats the bytes as a FIFO, and answers a data read with its head. */
  lemma StepIsFifo(k: Kbc, op: Op)
    requires Inv(k)
    ensures Inv(Step(k, op))
    ensures Fifo(Step(k, op)) == Left(k, op) + Pushed(k, op)
    ensures op.ReadData? ==> Reply(k, op) == Some(if Fifo(k) == [] then 0 else Fifo(k)[0])
    ensures op.ReadStatus? ==> (Reply(k, op).value % 2 == 1 <==> Fifo(k) != [])
  {
    if op.ReadData? {
      ReadIsFifo(k);
    } else {
      StepPipe(k, op);
      PipeAfterFacts(k, op);
    }
  }

  lemma ReadIsFifo(k: Kbc)
    requires Inv(k)
    ensures var n := Step(k, ReadData);
            Inv(n) && Fifo(n) == (if Fifo(k) == [] then [] else Fifo(k)[1..])
    ensures Reply(k, ReadData) == Some(if Fifo(k) == [] then 0 else Fifo(k)[0])
  {
    hide Has;
  }

  /** While interrupts are enabled the line rises once for every byte that becomes the output. */
  lemma OneEdgePerByte(k: Kbc, op: Op)
    requires Inv(k) && Has(k.config, CONFIG_KBD_INT) && Has(Step(k, op).config, CONFIG_KBD_INT)
    ensures Step(k, op).edges - k.edges == Step(k, op).pipe.loads - k.pipe.loads
  {
    if !op.ReadData? {
      StepPipe(k, op);
      PipeAfterFacts(k, op);
    }
  }

  // ----- runs

  function After(k: Kbc, ops: seq<Op>): Kbc
    decreases |ops|
  {
    if ops == [] then k else Step(After(k, ops[..|ops| - 1]), ops[|ops| - 1])
  }

  /** The bytes the guest has read from a full output. */
  function Reads(k: Kbc, ops: seq<Op>): seq<Byte>
    decreases |ops|
  {
    if ops == [] then []
    else
      var m := After(k, ops[..|ops| - 1]);
      var op := ops[|ops| - 1];
      Reads(k, ops[..|ops| - 1]) + (if op.ReadData? && m.pipe.output.Some? then [m.pipe.output.value] else [])
  }

  /** All bytes pushed, in order, less those a keyboard reset took out of the queue. */
  function Stream(k: Kbc, ops: seq<Op>): seq<Byte>
    decreases |ops|
  {
    if ops == [] then Fifo(k)
    else
      var m := After(k, ops[..|ops| - 1]);
      var op := ops[|ops| - 1];
      var before := Stream(k, ops[..|ops| - 1]);
      (if ClearsQueue(m, op) && |m.pipe.queue| <= |before| then before[..|before| - |m.pipe.queue|]
       else before) + Pushed(m, op)
  }

  /** In every run an empty output means an empty queue, the line follows the
      output, and the guest reads exactly the pushed bytes, in order. */
  lemma {:induction false} ReadsWhatWasPushed(k: Kbc, ops: seq<Op>)
    requires Inv(k)
    ensures Inv(After(k, ops))
    ensures Reads(k, ops) + Fifo(After(k, ops)) == Stream(k, ops)
    decreases |ops|
  {
    if ops == [] {
    } else {
      var front, op := ops[..|ops| - 1], ops[|ops| - 1];
      ReadsWhatWasPushed(k, front);
      var m := After(k, front);
      StepIsFifo(m, op);
      StreamStep(Reads(k, front), m, op);
    }
  }

  /** The bytes read so far and those still there make up the stream; an operation keeps it so. */
  lemma StreamStep(got: seq<Byte>, m: Kbc, op: Op)
    requires Inv(m)
    ensures var before := got + Fifo(m);
            var read := if op.ReadData? && m.pipe.output.Some? then [m.pipe.output.value] else [];
            got + read + (Left(m, op) + Pushed(m, op))
            == (if ClearsQueue(m, op) && |m.pipe.queue| <= |before| then before[..|before| - |m.pipe.queue|]
                else before) + Pushed(m, op)
  {
    hide Pushed, Resets;
    var before := got + Fifo(m);
    if ClearsQueue(m, op) {
      assert before[..|before| - |m.pipe.queue|] == got + Left(m, op);
    } else if op.ReadData? && m.pipe.output.Some? {
      assert got + [m.pipe.output.value] + Left(m, op) == before;
    } else {
      assert got + [] + Left(m, op) == before;
    }
  }

  ghost predicate EnabledThroughout(k: Kbc, ops: seq<Op>) {
    forall n :: 0 <= n <= |ops| ==> Has(After(k, ops[..n]).config, CONFIG_KBD_INT)
  }

  /** Over a whole run with interrupts enabled, edges and bytes at the output match one for one. */
  lemma {:induction false} EdgesMatchBytes(k: Kbc, ops: seq<Op>)
    requires Inv(k) && EnabledThroughout(k, ops)
    ensures After(k, ops).edges - k.edges == After(k, ops).pipe.loads - k.pipe.loads
    decreases |ops|
  {
    if ops == [] {
    } else {
      var front := ops[..|ops| - 1];
      assert EnabledThroughout(k, front) by {
        forall n | 0 <= n <= |front| ensures Has(After(k, front[..n]).config, CONFIG_KBD_INT) {
          assert front[..n] == ops[..n];
        }
      }
      EdgesMatchBytes(k, front);
      ReadsWhatWasPushed(k, front);
      assert ops[..|ops|] == ops;
      OneEdgePerByte(After(k, front), ops[|ops| - 1]);
    }
  }

  // ----- the object

  class Controller {
    var config: bv8
    var output: Option<Byte>
    var queue: seq<Byte>
    var controllerParam: Option<Byte>
    var keyboardParam: Option<Byte>
    var statusCmd: bool
    var scanning: bool
    var irqLevel: bool
    var stopped: bool
    ghost var loads: nat
    var edges: nat

    ghost function View(): Kbc
      reads this
    {
      Kbc(config, Pipe(output, queue, loads), controllerParam, keyboardParam, statusCmd, scanning, irqLevel, stopped,
          edges)
    }

    constructor ()
      ensures View() == RESET
    {
      config := RESET_CONFIG;
      output, queue, controllerParam, keyboardParam := None, [], None, None;
      statusCmd, scanning, irqLevel, stopped := false, true, false, false;
      loads, edges := 0, 0;
    }

    method PushByte(byte: Byte)
      modifies `output, `queue, `loads
      ensures View() == old(View()).(pipe := Push(old(View().pipe), byte))
    {
      queue := queue + [byte];
      if output.None? {
        output := Some(queue[0]);
        queue := queue[1..];
        loads := loads + 1;
      }
    }

    method PushBytes(bytes: seq<Byte>)
      modifies `output, `queue, `loads
      ensures View() == Send(old(View()), bytes)
    {
      for i := 0 to |bytes|
        invariant Send(View(), bytes[i..]) == Send(old(View()), bytes)
      {
        assert bytes[i..][0] == bytes[i] && bytes[i..][1..] == bytes[i + 1..];
        PushByte(bytes[i]);
      }
    }

    method UpdateLine()
      modifies `irqLevel, `edges
      ensures View() == UpdateIrq(old(View()))
    {
      var level := output.Some? && Has(config, CONFIG_KBD_INT);
      if level != irqLevel {
        irqLevel := level;
        if level {
          edges := edges + 1;
        }
      }
    }

    method TakeData() returns (byte: Byte)
      modifies `output, `queue, `irqLevel, `edges, `loads
      ensures View() == TakeOutput(old(View()))
      ensures Some(byte) == Reply(old(View()), ReadData)
    {
      byte := match output case Some(b) => b case None => 0;
      output := None;
      UpdateLine();
      if |queue| > 0 {
        output := Some(queue[0]);
        queue := queue[1..];
        loads := loads + 1;
      }
    }

    method RunControllerCommand(cmd: Byte)
      modifies this
      ensures View() == ControllerCommand(old(View()), cmd)
    {
      hide PushAll, ToConfig, ToByte, Has, Level, UpdateIrq, With, Minus;
      if cmd == CMD_READ_CONFIG || cmd == CMD_SELF_TEST || cmd == CMD_KBD_TEST {
        var byte: Byte := 0x00;
        if cmd == CMD_READ_CONFIG {
          byte := ToByte(config);
        } else if cmd == CMD_SELF_TEST {
          config := With(config, CONFIG_SYS);
          byte := 0x55;
        }
        PushBytes([byte]);
      } else if cmd == CMD_WRITE_CONFIG || cmd == CMD_WRITE_OUTPUT_PORT || cmd == CMD_WRITE_KBD_OUTPUT {
        controllerParam := Some(cmd);
      } else if cmd == CMD_AUX_DISABLE {
        config := With(config, CONFIG_AUX_DISABLE);
      } else if cmd == CMD_AUX_ENABLE {
        config := Minus(config, CONFIG_AUX_DISABLE);
      } else if cmd == CMD_KBD_DISABLE {
        config := With(config, CONFIG_KBD_DISABLE);
      } else if cmd == CMD_KBD_ENABLE {
        config := Minus(config, CONFIG_KBD_DISABLE);
      } else if cmd == CMD_PULSE_RESET {
        stopped := true;
      }
    }

    method RunControllerParam(cmd: Byte, byte: Byte)
      modifies this
      ensures View() == ControllerParam(old(View()), cmd, byte)
    {
      hide PushAll, ToConfig, ToByte;
      if cmd == CMD_WRITE_CONFIG {
        config := ToConfig(byte);
      } else if cmd == CMD_WRITE_OUTPUT_PORT && byte % 2 == 0 {
        RunControllerCommand(CMD_PULSE_RESET);
      } else if cmd == CMD_WRITE_KBD_OUTPUT {
        PushBytes([byte]);
      }
    }

    method RunKeyboardCommand(byte: Byte)
      modifies this
      ensures View() == KeyboardCommand(old(View()), byte)
    {
      hide PushAll, ToConfig, ToByte, Has, Level, UpdateIrq, With, Minus;
      config := Minus(config, CONFIG_KBD_DISABLE);
      var answers := [KBD_ACK];
      if keyboardParam.Some? {
        if keyboardParam.value == KBD_SCANCODE_SET && byte == 0 {
          answers := [KBD_ACK, 1];
        }
        keyboardParam := None;
      } else if byte == KBD_SET_LEDS || byte == KBD_SCANCODE_SET || byte == KBD_SET_TYPEMATIC {
        keyboardParam := Some(byte);
      } else if byte == KBD_ECHO {
        answers := [KBD_ECHO];
      } else if byte == KBD_GET_ID {
        answers := [KBD_ACK, 0xab, 0x83];
      } else if byte == KBD_ENABLE {
        scanning := true;
      } else if byte == KBD_DISABLE {
        scanning := false;
      } else if byte == KBD_RESET {
        scanning := true;
        queue := [];
        answers := [KBD_ACK, KBD_SELF_TEST_OK];
      }
      PushBytes(answers);
    }

    /** A port access of the guest; `byte` is what it writes, the result what it reads. */
    method Handle(out: bool, port: int, byte: Byte) returns (reply: Option<Byte>)
      modifies this
      ensures var op := if port == DATA_PORT then (if out then WriteData(byte) else ReadData)
                        else if port == COMMAND_PORT then (if out then WriteCommand(byte) else ReadStatus)
                        else (if out then WriteOther else ReadOther);
              View() == Step(old(View()), op) && reply == Reply(old(View()), op)
    {
      hide PushAll, ToConfig, ToByte;
      reply := None;
      if !out && port == DATA_PORT {
        var b := TakeData();
        reply := Some(b);
      } else if !out && port == COMMAND_PORT {
        var status := 0x10;
        if output.Some? {
          status := status + 0x01;
        }
        if Has(config, CONFIG_SYS) {
          status := status + 0x04;
        }
        if statusCmd {
          status := status + 0x08;
        }
        reply := Some(status);
      } else if out && port == DATA_PORT {
        statusCmd := false;
        var param := controllerParam;
        controllerParam := None;
        match param {
          case Some(cmd) => RunControllerParam(cmd, byte);
          case None => RunKeyboardCommand(byte);
        }
      } else if out && port == COMMAND_PORT {
        statusCmd := true;
        controllerParam := None;
        RunControllerCommand(byte);
      } else if !out {
        reply := Some(0xff);
      }
      UpdateLine();
    }

    /** A key goes down or up; `codes` are its scancodes, none for a key without. */
    method KeyEvent(codes: seq<Byte>)
      modifies this
      ensures View() == Step(old(View()), Key(codes))
    {
      if !scanning || Has(config, CONFIG_KBD_DISABLE) {
        return;
      }
      if |codes| == 0 {
        return;
      }
      PushBytes(codes);
      UpdateLine();
    }
  }
}
