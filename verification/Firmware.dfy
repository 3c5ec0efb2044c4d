/**
 * The ESP32 as a step system. The UART task gives up control at its read and at the two delays inside
 * emergency_brake; one joystick packet is handled in one step. Between those points nothing interleaves.
 */
module Firmware {
  import opened Decimal
  import opened StateLink
  import opened Motors

  type Int8 = n: int | -128 <= n < 128

  const LIMIT: int := 60
  const BRAKE_DUTY: real := 50.0
  const HEX_OFFSET: int := 48
  const JOYSTICK_OFFSET: int := 200

  /** The callback reads bytes 1 to 6 of its buffer, whatever length the packet announced. */
  type Packet = p: seq<Byte> | |p| >= 7 witness seq(7, _ => 0)

  // ------------------------------------------------------------- motor commands

  /** Assigning an int to an int8_t keeps the low byte, as two's complement. */
  function ToInt8(n: int): Int8 {
    (n + 128) % 256 - 128
  }

  function Axis(hundreds: Byte, tens: Byte, units: Byte): Int8 {
    ToInt8((hundreds - HEX_OFFSET) * 100 + (tens - HEX_OFFSET) * 10 + (units - HEX_OFFSET) - JOYSTICK_OFFSET)
  }

  function XAxis(p: Packet): Int8 { Axis(p[1], p[2], p[3]) }
  function YAxis(p: Packet): Int8 { Axis(p[4], p[5], p[6]) }

  function Magnitude(n: Int8): real { (if n < 0 then -(n as int) else n as int) as real }

  /** What mcpwm_motor_control wants of the left and the right motor. */
  function Wanted(state: Byte, x: Int8, y: Int8): (Command, Command) {
    if state == BRAKE then
      if y < -LIMIT then (Backward(Magnitude(y)), Backward(Magnitude(y))) else (Stop, Stop)
    else if x > LIMIT then (Forward(Magnitude(x)), Forward(Magnitude(x) / 3.0))
    else if x < -LIMIT then (Forward(Magnitude(x) / 3.0), Forward(Magnitude(x)))
    else if y > LIMIT then (Forward(Magnitude(y)), Forward(Magnitude(y)))
    else if y < -LIMIT then (Backward(Magnitude(y)), Backward(Magnitude(y)))
    else (Stop, Stop)
  }

  function ControlCalls(state: Byte, x: Int8, y: Int8): seq<Call> {
    var (l, r) := Wanted(state, x, y);
    BothCalls(l, r)
  }

  /** Up to the first delay of emergency_brake: stop, then full reverse pulse. */
  function PulseCalls(): seq<Call> {
    BothCalls(Stop, Stop) + BothCalls(Backward(BRAKE_DUTY), Backward(BRAKE_DUTY))
  }

  // ------------------------------------------------------------------ the steps

  /** Where the UART task waits: at its read, or in one of the two delays of emergency_brake. */
  datatype Pc = AtRead | InPulse | InHold

  /** calls, chunks and brakes are the history: every driver call, every chunk read, every brake begun. */
  datatype Esp32 = Esp32(current: Byte, pc: Pc, x: Int8, y: Int8,
                         calls: seq<Call>, chunks: seq<seq<Byte>>, brakes: nat)

  /** What the scheduler lets happen next; an event whose task is not at its point does nothing. */
  datatype Event = Uart(chunk: seq<Byte>) | DelayOver | Joystick(packet: Packet)

  const BOOT := Esp32(0, AtRead, 0, 0, [], [], 0)

  function MotorsOf(s: Esp32): Pair { Replay(POWER_ON, s.calls) }

  function OnUart(s: Esp32, chunk: seq<Byte>): Esp32 {
    if s.pc != AtRead || chunk == [] then s else
      var t := s.(current := DecodeState(chunk), chunks := s.chunks + [chunk]);
      if t.current != s.current && t.current == BRAKE
      then t.(pc := InPulse, calls := s.calls + PulseCalls(), brakes := s.brakes + 1)
      else t
  }

  function OnDelayOver(s: Esp32): Esp32 {
    match s.pc
    case AtRead => s
    case InPulse => s.(pc := InHold, calls := s.calls + BothCalls(Stop, Stop))
    case InHold => s.(pc := AtRead)
  }

  function OnJoystick(s: Esp32, p: Packet): Esp32 {
    s.(x := XAxis(p), y := YAxis(p), calls := s.calls + ControlCalls(s.current, XAxis(p), YAxis(p)))
  }

  function Next(s: Esp32, e: Event): Esp32 {
    match e
    case Uart(chunk) => OnUart(s, chunk)
    case DelayOver => OnDelayOver(s)
    case Joystick(p) => OnJoystick(s, p)
  }

  function Exec(s: Esp32, events: seq<Event>): Esp32 {
    if events == [] then s else Next(Exec(s, events[..|events| - 1]), events[|events| - 1])
  }

  // ------------------------------------------------------------------ invariant

  ghost predicate LinkOk(s: Esp32) {
    && (forall i :: 0 <= i < |s.chunks| ==> s.chunks[i] != [])
    && s.current == (if s.chunks == [] then 0 else DecodeState(s.chunks[|s.chunks| - 1]))
    && s.brakes == RisingEdges(0, DecodeAll(s.chunks))
  }

  ghost predicate MotorsOk(s: Esp32) {
    && SafeCalls(POWER_ON, s.calls)
    && Exclusive(MotorsOf(s))
    && (s.current == BRAKE ==> NoForward(MotorsOf(s)))
    && (s.pc != AtRead ==> s.current == BRAKE)
  }

  lemma LinkKept(s: Esp32, e: Event)
    requires LinkOk(s)
    ensures LinkOk(Next(s, e))
  {
    if e.Uart? && s.pc == AtRead && e.chunk != [] {
      var t := Next(s, e);
      assert DecodeAll(t.chunks) == DecodeAll(s.chunks) + [DecodeState(e.chunk)];
      EdgesSnoc(0, DecodeAll(s.chunks), DecodeState(e.chunk));
    }
  }

  /** Appending a command pair keeps every call safe and leaves the motors exactly as commanded. */
  lemma PairKept(calls: seq<Call>, left: Command, right: Command)
    requires SafeCalls(POWER_ON, calls) && NonNegative(left) && NonNegative(right)
    ensures SafeCalls(POWER_ON, calls + BothCalls(left, right))
    ensures var r := Replay(POWER_ON, calls + BothCalls(left, right));
            Exclusive(r) && Drive(r.left) == Signed(left) && Drive(r.right) == Signed(right)
  {
    assert calls[..|calls|] == calls;
    PairEffect(Replay(POWER_ON, calls), left, right);
    SafeConcat(POWER_ON, calls, BothCalls(left, right));
    ReplayConcat(POWER_ON, calls, BothCalls(left, right));
  }

  /** Each motor ends up with exactly the commanded signed duty, whatever it was doing before. */
  lemma ControlEffect(calls: seq<Call>, state: Byte, x: Int8, y: Int8)
    requires SafeCalls(POWER_ON, calls)
    ensures SafeCalls(POWER_ON, calls + ControlCalls(state, x, y))
    ensures var r := Replay(POWER_ON, calls + ControlCalls(state, x, y)); var w := Wanted(state, x, y);
            Exclusive(r) && Drive(r.left) == Signed(w.0) && Drive(r.right) == Signed(w.1)
  {
    var (l, r) := Wanted(state, x, y);
    PairKept(calls, l, r);
  }

  lemma PulseEffect(calls: seq<Call>)
    requires SafeCalls(POWER_ON, calls)
    ensures SafeCalls(POWER_ON, calls + PulseCalls())
    ensures var r := Replay(POWER_ON, calls + PulseCalls());
            Exclusive(r) && Drive(r.left) == -BRAKE_DUTY && Drive(r.right) == -BRAKE_DUTY
  {
    var stop, back := BothCalls(Stop, Stop), BothCalls(Backward(BRAKE_DUTY), Backward(BRAKE_DUTY));
    PairKept(calls, Stop, Stop);
    PairKept(calls + stop, Backward(BRAKE_DUTY), Backward(BRAKE_DUTY));
    assert calls + PulseCalls() == calls + stop + back;
  }

  lemma MotorsKept(s: Esp32, e: Event)
    requires MotorsOk(s)
    ensures MotorsOk(Next(s, e))
  {
    hide Replay, SafeCalls, BothCalls, Drive;
    match e
    case Uart(chunk) =>
      PulseEffect(s.calls);
      NoForwardIsDrive(Replay(POWER_ON, s.calls + PulseCalls()));
    case DelayOver =>
      PairKept(s.calls, Stop, Stop);
      NoForwardIsDrive(Replay(POWER_ON, s.calls + BothCalls(Stop, Stop)));
    case Joystick(p) =>
      ControlEffect(s.calls, s.current, XAxis(p), YAxis(p));
      NoForwardIsDrive(MotorsOf(Next(s, e)));
  }

  lemma {:induction false} AlwaysOk(events: seq<Event>)
    ensures LinkOk(Exec(BOOT, events)) && MotorsOk(Exec(BOOT, events))
  {
    if events == [] {
      assert forall k :: 0 <= k <= |BOOT.calls| ==> BOOT.calls[..k] == [];
    } else {
      var s := Exec(BOOT, events[..|events| - 1]);
      AlwaysOk(events[..|events| - 1]);
      LinkKept(s, events[|events| - 1]);
      MotorsKept(s, events[|events| - 1]);
    }
  }

  // ------------------------------------------------------------------- theorems

  /** For any bytes and any joystick packets: in AUTOBRAKE no motor is driven forward, even while braking sleeps. */
  lemma NeverForwardInAutobrake(events: seq<Event>)
    ensures var s := Exec(BOOT, events);
            (s.current == BRAKE || s.pc != AtRead) ==> NoForward(MotorsOf(s))
  {
    AlwaysOk(events);
  }

  /** At no single driver call of any run are both outputs of a bridge driven. */
  lemma BridgesNeverShorted(events: seq<Event>, k: nat)
    requires k <= |Exec(BOOT, events).calls|
    ensures Exclusive(Replay(POWER_ON, Exec(BOOT, events).calls[..k]))
  {
    AlwaysOk(events);
  }

  /** The brake sequence has run exactly once per rising edge into AUTOBRAKE among the chunks read. */
  lemma OneBrakePerEdge(events: seq<Event>)
    ensures var s := Exec(BOOT, events);
            && (forall i :: 0 <= i < |s.chunks| ==> s.chunks[i] != [])
            && s.brakes == RisingEdges(0, DecodeAll(s.chunks))
  {
    AlwaysOk(events);
  }

  /** The joystick packets p, handled one after the other. */
  function Joysticks(ps: seq<Packet>): (es: seq<Event>)
    ensures |es| == |ps|
  {
    seq(|ps|, i requires 0 <= i < |ps| => Joystick(ps[i]))
  }

  /**
   * During the reverse pulse both motors pull backward iff no packet has arrived since it began or the
   * latest packet itself asks for reverse: a centred stick cuts the braking pulse short.
   */
  lemma PulseHeldExactly(events: seq<Event>, chunk: seq<Byte>, ps: seq<Packet>)
    requires var s := Exec(BOOT, events); s.pc == AtRead && OnUart(s, chunk).pc == InPulse
    ensures var m := MotorsOf(Exec(OnUart(Exec(BOOT, events), chunk), Joysticks(ps)));
            (Drive(m.left) < 0.0 && Drive(m.right) < 0.0)
            <==> ps == [] || YAxis(ps[|ps| - 1]) < -60
  {
    hide Replay, SafeCalls, BothCalls, Drive;
    AlwaysOk(events);
    var s := Exec(BOOT, events);
    var t := OnUart(s, chunk);
    PulseEffect(s.calls);
    JoysticksKeep(t, ps);
    if ps != [] {
      var p := ps[|ps| - 1];
      var u := Exec(t, Joysticks(ps[..|ps| - 1]));
      assert Joysticks(ps)[..|ps| - 1] == Joysticks(ps[..|ps| - 1]);
      JoysticksKeep(t, ps[..|ps| - 1]);
      ControlEffect(u.calls, u.current, XAxis(p), YAxis(p));
    }
  }

  lemma {:induction false} JoysticksKeep(t: Esp32, ps: seq<Packet>)
    requires SafeCalls(POWER_ON, t.calls)
    ensures var u := Exec(t, Joysticks(ps));
            u.current == t.current && u.pc == t.pc && SafeCalls(POWER_ON, u.calls)
  {
    hide Replay, SafeCalls, BothCalls;
    if ps != [] {
      var p := ps[..|ps| - 1];
      JoysticksKeep(t, p);
      assert Joysticks(ps)[..|ps| - 1] == Joysticks(p);
      var u := Exec(t, Joysticks(p));
      ControlEffect(u.calls, u.current, XAxis(ps[|ps| - 1]), YAxis(ps[|ps| - 1]));
    }
  }

  /** The packet that reports this stick position: a letter, then three digits of position + 200 for each axis. */
  function StickPacket(letter: Byte, x: int, y: int): Packet
    requires 0 <= x + 200 < 1000 && 0 <= y + 200 < 1000
  {
    var m, n := x + 200, y + 200;
    [letter, ZERO + m / 100, ZERO + m / 10 % 10, ZERO + m % 10, ZERO + n / 100, ZERO + n / 10 % 10, ZERO + n % 10]
  }

  /** What three digit bytes stand for, before it is narrowed to eight bits. */
  function Reported(hundreds: Byte, tens: Byte, units: Byte): int {
    100 * (hundreds - 48) + 10 * (tens - 48) + (units - 48) - 200
  }

  lemma HundredsUnique(n: nat, hundreds: nat, rest: nat)
    requires n == 100 * hundreds + rest && rest < 100
    ensures n / 100 == hundreds
  {
  }

  lemma ThreeDigits(n: nat)
    ensures n == 100 * (n / 100) + 10 * (n / 10 % 10) + n % 10
  {
    var tens, units := n / 10, n % 10;
    HundredsUnique(n, tens / 10, 10 * (tens % 10) + units);
  }

  lemma ReportedDigits(v: int)
    requires 0 <= v + 200 < 1000
    ensures var n := v + 200; Reported(ZERO + n / 100, ZERO + n / 10 % 10, ZERO + n % 10) == v
  {
    ThreeDigits(v + 200);
  }

  lemma AxisOfDigits(v: int)
    requires 0 <= v + 200 < 1000
    ensures var n := v + 200;
            Axis(ZERO + n / 100, ZERO + n / 10 % 10, ZERO + n % 10) == ToInt8(v)
  {
    hide ToInt8;
    ReportedDigits(v);
    AxisIsReported(ZERO + (v + 200) / 100, ZERO + (v + 200) / 10 % 10, ZERO + (v + 200) % 10);
  }

  lemma AxisIsReported(hundreds: Byte, tens: Byte, units: Byte)
    ensures Axis(hundreds, tens, units) == ToInt8(Reported(hundreds, tens, units))
  {
    hide ToInt8;
  }

  lemma NarrowedToInt8(v: int)
    ensures ToInt8(v) == v <==> -128 <= v < 128
    ensures (ToInt8(v) - v) % 256 == 0
  {
    var k := (v + 128) / 256;
    assert ToInt8(v) == v - 256 * k;
    assert (-k * 256) % 256 == 0;
  }

  /** A reported position arrives unchanged iff both axes fit an int8_t, and otherwise modulo 256. */
  lemma JoystickRoundTrip(letter: Byte, x: int, y: int)
    requires 0 <= x + 200 < 1000 && 0 <= y + 200 < 1000
    ensures var p := StickPacket(letter, x, y);
            && (XAxis(p) == x && YAxis(p) == y <==> -128 <= x < 128 && -128 <= y < 128)
            && (XAxis(p) - x) % 256 == 0 && (YAxis(p) - y) % 256 == 0
  {
    hide Axis, ToInt8;
    AxisOfDigits(x);
    AxisOfDigits(y);
    NarrowedToInt8(x);
    NarrowedToInt8(y);
  }

  /** The drives of the two motors after a stick position was handled in a state of some run. */
  ghost predicate Driving(calls: seq<Call>, state: Byte, x: Int8, y: Int8, left: real, right: real) {
    var m := Replay(POWER_ON, calls + ControlCalls(state, x, y));
    left == Drive(m.left) && right == Drive(m.right)
  }

  /**
   * The drives a stick position asks for. Outside AUTOBRAKE sideways wins: the outer motor runs forward at full
   * duty, three times the inner one; then forward and reverse; inside the dead zone both stop. In AUTOBRAKE
   * only reverse is obeyed.
   */
  ghost predicate StickDrives(state: Byte, x: int, y: int, left: real, right: real) {
    && (state != 2 ==>
          && (left > right <==> x > 60)
          && (left < right <==> x < -60)
          && (left > right ==> left == 3.0 * right && left == x as real)
          && (left < right ==> right == 3.0 * left && right == -(x as real))
          && (left == right ==> left == if -60 <= y <= 60 then 0.0 else y as real))
    && (state == 2 ==> left == right == if y < -60 then y as real else 0.0)
  }

  /** What the stick does to the motors, whatever they did before. */
  lemma StickMeaning(calls: seq<Call>, state: Byte, x: Int8, y: Int8, left: real, right: real)
    requires SafeCalls(POWER_ON, calls) && Driving(calls, state, x, y, left, right)
    ensures StickDrives(state, x, y, left, right)
  {
    hide Replay, SafeCalls, BothCalls, Drive;
    ControlEffect(calls, state, x, y);
  }

  lemma ExecSnoc(s: Esp32, events: seq<Event>, e: Event)
    ensures Exec(s, events + [e]) == Next(Exec(s, events), e)
  {
    hide Next;
    assert (events + [e])[..|events|] == events;
  }

  /** Of the ten driver calls made, the first four stop both motors. */
  ghost predicate StopsThenReverses(before: seq<Call>, after: seq<Call>) {
    && |after| == |before| + 10 && before == after[..|before|]
    && (var m := Replay(POWER_ON, after[..|before| + 4]); Drive(m.left) == Drive(m.right) == 0.0)
  }

  lemma PulseStopsFirst(calls: seq<Call>)
    requires SafeCalls(POWER_ON, calls)
    ensures StopsThenReverses(calls, calls + PulseCalls())
  {
    hide Replay, SafeCalls, Drive;
    var stop := BothCalls(Stop, Stop);
    PairKept(calls, Stop, Stop);
    assert PulseCalls()[..4] == stop;
    assert (calls + PulseCalls())[..|calls| + 4] == calls + stop;
  }

  /**
   * A read, told from the first byte alone: the chunk is recorded, its state taken on, and the brake sequence begun
   * with both motors at half reverse iff the byte is '2' and the state was not AUTOBRAKE; else no motor is touched.
   */
  lemma UartMeaning(events: seq<Event>, chunk: seq<Byte>)
    requires Exec(BOOT, events).pc == AtRead && chunk != []
    ensures var s, t := Exec(BOOT, events), Exec(BOOT, events + [Uart(chunk)]);
            && t.chunks == s.chunks + [chunk] && t.current == (chunk[0] as int - 48) % 256
            && t.x == s.x && t.y == s.y
            && if chunk[0] == 50 && s.current != 2
               then t.brakes == s.brakes + 1 && t.pc == InPulse && StopsThenReverses(s.calls, t.calls)
                    && Drive(MotorsOf(t).left) == Drive(MotorsOf(t).right) == -50.0
               else t.brakes == s.brakes && t.pc == AtRead && MotorsOf(t) == MotorsOf(s)
  {
    hide Replay, SafeCalls, Drive, Exec, StopsThenReverses, PulseCalls;
    ExecSnoc(BOOT, events, Uart(chunk));
    AlwaysOk(events);
    PulseEffect(Exec(BOOT, events).calls);
    PulseStopsFirst(Exec(BOOT, events).calls);
  }

  /** The event is a read of at least one byte that finds the UART task waiting for it. */
  predicate IsRead(s: Esp32, e: Event) {
    e.Uart? && e.chunk != [] && s.pc == AtRead
  }

  /** Every other event leaves the state, the chunks and the count of brake sequences alone. */
  lemma OnlyReadsCount(events: seq<Event>, e: Event)
    requires !IsRead(Exec(BOOT, events), e)
    ensures var s, t := Exec(BOOT, events), Exec(BOOT, events + [e]);
            && t.current == s.current && t.chunks == s.chunks && t.brakes == s.brakes
            && (!e.Joystick? ==> t.x == s.x && t.y == s.y)
            && (!e.DelayOver? ==> t.pc == s.pc)
            && (e.Uart? ==> MotorsOf(t) == MotorsOf(s))
  {
    hide Replay, BothCalls, Exec;
    ExecSnoc(BOOT, events, e);
  }

  /** The chunks read in a run, told from its events. */
  function ChunksRead(events: seq<Event>): seq<seq<Byte>> {
    if events == [] then [] else
      var before, e := events[..|events| - 1], events[|events| - 1];
      ChunksRead(before) + (if IsRead(Exec(BOOT, before), e) then [e.chunk] else [])
  }

  /** No chunk read goes unnoticed: over a whole run exactly those are recorded, and they alone start braking. */
  lemma {:induction false} EveryReadCounts(events: seq<Event>)
    ensures Exec(BOOT, events).chunks == ChunksRead(events)
    ensures (forall i :: 0 <= i < |ChunksRead(events)| ==> ChunksRead(events)[i] != [])
            && Exec(BOOT, events).brakes == RisingEdges(0, DecodeAll(ChunksRead(events)))
  {
    if events != [] {
      hide Next, Exec, RisingEdges;
      var before, e := events[..|events| - 1], events[|events| - 1];
      EveryReadCounts(before);
      assert before + [e] == events;
      if IsRead(Exec(BOOT, before), e) {
        UartMeaning(before, e.chunk);
      } else {
        OnlyReadsCount(before, e);
      }
    } else {
      assert Exec(BOOT, events) == BOOT;
    }
    OneBrakePerEdge(events);
  }

  /** The end of a delay, in any run: the pulse is followed by both motors stopped, that by the next read. */
  lemma DelayMeaning(events: seq<Event>)
    ensures var s, t := Exec(BOOT, events), Exec(BOOT, events + [DelayOver]);
            match s.pc
            case AtRead => t == s
            case InPulse => t.pc == InHold && t.current == 2
                            && Drive(MotorsOf(t).left) == Drive(MotorsOf(t).right) == 0.0
            case InHold => t.pc == AtRead && t.current == 2 && MotorsOf(t) == MotorsOf(s)
  {
    hide Replay, SafeCalls, BothCalls, Drive, Exec;
    ExecSnoc(BOOT, events, DelayOver);
    AlwaysOk(events);
    PairKept(Exec(BOOT, events).calls, Stop, Stop);
  }

  /** Any packet in any run: each axis is what its three bytes report modulo 256, and the drives are its own. */
  lemma PacketMeaning(events: seq<Event>, p: Packet)
    ensures var s, t := Exec(BOOT, events), Exec(BOOT, events + [Joystick(p)]);
            && (t.x - Reported(p[1], p[2], p[3])) % 256 == 0 && (t.y - Reported(p[4], p[5], p[6])) % 256 == 0
            && StickDrives(s.current, t.x, t.y, Drive(MotorsOf(t).left), Drive(MotorsOf(t).right))
  {
    hide Replay, SafeCalls, BothCalls, Drive, Exec, ToInt8, StickDrives;
    ExecSnoc(BOOT, events, Joystick(p));
    AlwaysOk(events);
    var s, t := Exec(BOOT, events), Exec(BOOT, events + [Joystick(p)]);
    NarrowedToInt8(Reported(p[1], p[2], p[3]));
    NarrowedToInt8(Reported(p[4], p[5], p[6]));
    StickMeaning(s.calls, s.current, t.x, t.y, Drive(MotorsOf(t).left), Drive(MotorsOf(t).right));
  }

  /** The stick through the whole ESP32: a reported position that fits is stored and gives its own drives. */
  lemma StickThroughPacket(events: seq<Event>, letter: Byte, x: int, y: int)
    requires -128 <= x < 128 && -128 <= y < 128
    ensures var s, t := Exec(BOOT, events), Exec(BOOT, events + [Joystick(StickPacket(letter, x, y))]);
            && t.x == x && t.y == y
            && StickDrives(s.current, x, y, Drive(MotorsOf(t).left), Drive(MotorsOf(t).right))
  {
    hide MotorsOf, Drive, Exec, StickDrives;
    var p := StickPacket(letter, x, y);
    PacketMeaning(events, p);
    ReportedDigits(x);
    ReportedDigits(y);
  }

  /** Left to itself the brake sequence reverses both motors at half duty, stops them, and returns to the read. */
  lemma BrakeSequence(events: seq<Event>, chunk: seq<Byte>)
    requires var s := Exec(BOOT, events); s.pc == AtRead && OnUart(s, chunk).pc == InPulse
    ensures var t := OnUart(Exec(BOOT, events), chunk);
            var u := Next(t, DelayOver);
            var v := Next(u, DelayOver);
            && Drive(MotorsOf(t).left) == Drive(MotorsOf(t).right) == -50.0
            && Drive(MotorsOf(u).left) == Drive(MotorsOf(u).right) == 0.0 && u.pc == InHold
            && MotorsOf(v) == MotorsOf(u) && v.pc == AtRead && v.current == BRAKE
  {
    hide Replay, SafeCalls, BothCalls, Drive;
    AlwaysOk(events);
    var s := Exec(BOOT, events);
    PulseEffect(s.calls);
    PairKept(s.calls + PulseCalls(), Stop, Stop);
  }

  // ------------------------------------------------------------ the C functions

  /** The ESP32's globals, its motor outputs, and the point its UART task has reached. */
  class Controller {
    var currentState: Byte
    var lastState: Byte
    var xAxis: Int8
    var yAxis: Int8
    var motors: Pair
    var pc: Pc
    ghost var calls: seq<Call>
    ghost var chunks: seq<seq<Byte>>
    ghost var brakes: nat

    ghost predicate Valid()
      reads this
    {
      motors == Replay(POWER_ON, calls)
    }

    ghost function State(): Esp32
      reads this
    {
      Esp32(currentState, pc, xAxis, yAxis, calls, chunks, brakes)
    }

    constructor ()
      ensures Valid() && State() == BOOT
    {
      currentState, lastState, xAxis, yAxis := 0, 0, 0, 0;
      motors, pc := POWER_ON, AtRead;
      calls, chunks, brakes := [], [], 0;
    }

    method Driver(c: Call)
      requires Valid()
      modifies this`motors, this`calls
      ensures Valid() && calls == old(calls) + [c]
    {
      motors := Apply(motors, c);
      calls := calls + [c];
      assert calls[..|calls| - 1] == old(calls);
    }

    method BrushedMotorForward(timer: Timer, dutyCycle: real)
      requires Valid()
      modifies this`motors, this`calls
      ensures Valid() && calls == old(calls) + Calls(timer, Forward(dutyCycle))
    {
      Driver(SetSignalLow(timer, OprB));
      Driver(SetDuty(timer, OprA, dutyCycle));
      Driver(SetDutyType(timer, OprA));
    }

    method BrushedMotorBackward(timer: Timer, dutyCycle: real)
      requires Valid()
      modifies this`motors, this`calls
      ensures Valid() && calls == old(calls) + Calls(timer, Backward(dutyCycle))
    {
      Driver(SetSignalLow(timer, OprA));
      Driver(SetDuty(timer, OprB, dutyCycle));
      Driver(SetDutyType(timer, OprB));
    }

    method BrushedMotorStop(timer: Timer)
      requires Valid()
      modifies this`motors, this`calls
      ensures Valid() && calls == old(calls) + Calls(timer, Stop)
    {
      Driver(SetSignalLow(timer, OprA));
      Driver(SetSignalLow(timer, OprB));
    }

    method McpwmMotorControl(x: Int8, y: Int8)
      requires Valid()
      modifies this`motors, this`calls
      ensures Valid() && calls == old(calls) + ControlCalls(currentState, x, y)
    {
      var dutyY, dutyX := Magnitude(y), Magnitude(x);
      if currentState == 2 {
        if y < -LIMIT {
          BrushedMotorBackward(Timer0, dutyY);
          BrushedMotorBackward(Timer1, dutyY);
        } else {
          BrushedMotorStop(Timer0);
          BrushedMotorStop(Timer1);
        }
      } else if x > LIMIT {
        BrushedMotorForward(Timer0, dutyX);
        BrushedMotorForward(Timer1, dutyX / 3.0);
      } else if x < -LIMIT {
        BrushedMotorForward(Timer0, dutyX / 3.0);
        BrushedMotorForward(Timer1, dutyX);
      } else if y > LIMIT {
        BrushedMotorForward(Timer0, dutyY);
        BrushedMotorForward(Timer1, dutyY);
      } else if y < -LIMIT {
        BrushedMotorBackward(Timer0, dutyY);
        BrushedMotorBackward(Timer1, dutyY);
      } else {
        BrushedMotorStop(Timer0);
        BrushedMotorStop(Timer1);
      }
    }

    /** emergency_brake up to its first delay. */
    method EmergencyBrake()
      requires Valid()
      modifies this`motors, this`calls, this`pc, this`brakes
      ensures Valid() && calls == old(calls) + PulseCalls()
      ensures pc == InPulse && brakes == old(brakes) + 1
    {
      BrushedMotorStop(Timer0);
      BrushedMotorStop(Timer1);
      BrushedMotorBackward(Timer0, BRAKE_DUTY);
      BrushedMotorBackward(Timer1, BRAKE_DUTY);
      pc := InPulse;
      brakes := brakes + 1;
    }

    /** emergency_brake going on after one of its delays. */
    method ResumeAfterDelay()
      requires Valid()
      modifies this
      ensures Valid() && State() == Next(old(State()), DelayOver)
    {
      if pc == InPulse {
        BrushedMotorStop(Timer0);
        BrushedMotorStop(Timer1);
        pc := InHold;
      } else if pc == InHold {
        pc := AtRead;
      }
    }

    /** One round of the UART task's loop, up to where it next waits. */
    method GetEcuSerialParameters(data: seq<Byte>)
      requires Valid() && pc == AtRead
      modifies this
      ensures Valid() && State() == Next(old(State()), Uart(data))
      ensures data != [] ==> lastState == old(currentState) && currentState == (data[0] as int - 48) % 256
      ensures data != [] ==> chunks == old(chunks) + [data]
      ensures brakes == old(brakes) + if data != [] && data[0] == 50 && old(currentState) != 2 then 1 else 0
    {
      if |data| > 0 {
        chunks := chunks + [data];
        lastState := currentState;
        currentState := (data[0] as int - 48) % 256;
        if currentState != lastState && currentState == 2 {
          EmergencyBrake();
        }
      }
    }

    /** The data-indication branch of the Bluetooth callback. */
    method SppDataInd(data: Packet)
      requires Valid()
      modifies this
      ensures Valid() && State() == Next(old(State()), Joystick(data))
      ensures (xAxis - Reported(data[1], data[2], data[3])) % 256 == 0
      ensures (yAxis - Reported(data[4], data[5], data[6])) % 256 == 0
      ensures SafeCalls(POWER_ON, old(calls))
              ==> StickDrives(currentState, xAxis, yAxis, Drive(motors.left), Drive(motors.right))
    {
      hide SafeCalls, Replay, BothCalls, Drive, StickDrives, ToInt8;
      xAxis := ToInt8((data[1] - HEX_OFFSET) * 100 + (data[2] - HEX_OFFSET) * 10 + (data[3] - HEX_OFFSET)
                      - JOYSTICK_OFFSET);
      yAxis := ToInt8((data[4] - HEX_OFFSET) * 100 + (data[5] - HEX_OFFSET) * 10 + (data[6] - HEX_OFFSET)
                      - JOYSTICK_OFFSET);
      NarrowedToInt8(Reported(data[1], data[2], data[3]));
      NarrowedToInt8(Reported(data[4], data[5], data[6]));
      ghost var before := calls;
      McpwmMotorControl(xAxis, yAxis);
      if SafeCalls(POWER_ON, before) {
        StickMeaning(before, currentState, xAxis, yAxis, Drive(motors.left), Drive(motors.right));
      }
    }

    /** Any schedule of the three: the controller is at every point in the state the step system says. */
    method Schedule(events: seq<Event>)
      requires Valid() && State() == BOOT
      modifies this
      ensures Valid() && State() == Exec(BOOT, events)
      ensures currentState == BRAKE ==> NoForward(motors)
      ensures Exclusive(motors)
    {
      for k := 0 to |events|
        invariant Valid() && State() == Exec(BOOT, events[..k])
      {
        assert events[..k + 1][..k] == events[..k];
        match events[k]
        case Uart(chunk) =>
          if pc == AtRead {
            GetEcuSerialParameters(chunk);
          }
        case DelayOver => ResumeAfterDelay();
        case Joystick(p) => SppDataInd(p);
      }
      assert events[..|events|] == events;
      AlwaysOk(events);
    }
  }
}
