/**
 * The two H-bridges and the driver calls that move them (mcpwm_brushed_dc_control.c). Of the PWM hardware
 * only the state of an output is kept: forced low or in PWM mode, and its duty.
 */
module Motors {
  datatype Timer = Timer0 | Timer1
  datatype Opr = OprA | OprB
  datatype Mode = SignalLow | DutyMode0

  datatype Output = Output(mode: Mode, duty: real)
  datatype HBridge = HBridge(a: Output, b: Output)
  datatype Pair = Pair(left: HBridge, right: HBridge)

  datatype Call =
    | SetSignalLow(timer: Timer, opr: Opr)
    | SetDuty(timer: Timer, opr: Opr, duty: real)
    | SetDutyType(timer: Timer, opr: Opr)

  /** After mcpwm_init: every output in PWM mode with duty zero. */
  const POWER_ON := Pair(HBridge(Output(DutyMode0, 0.0), Output(DutyMode0, 0.0)),
                         HBridge(Output(DutyMode0, 0.0), Output(DutyMode0, 0.0)))

  function ApplyOutput(o: Output, c: Call): Output {
    match c
    case SetSignalLow(_, _) => o.(mode := SignalLow)
    case SetDuty(_, _, d) => o.(duty := d)
    case SetDutyType(_, _) => o.(mode := DutyMode0)
  }

  function ApplyBridge(h: HBridge, c: Call): HBridge {
    if c.opr == OprA then h.(a := ApplyOutput(h.a, c)) else h.(b := ApplyOutput(h.b, c))
  }

  function Apply(m: Pair, c: Call): Pair {
    if c.timer == Timer0 then m.(left := ApplyBridge(m.left, c)) else m.(right := ApplyBridge(m.right, c))
  }

  function Replay(m: Pair, calls: seq<Call>): Pair {
    if calls == [] then m else Apply(Replay(m, calls[..|calls| - 1]), calls[|calls| - 1])
  }

  predicate Driven(o: Output) { o.mode == DutyMode0 && o.duty > 0.0 }

  predicate Exclusive(m: Pair) {
    && !(Driven(m.left.a) && Driven(m.left.b))
    && !(Driven(m.right.a) && Driven(m.right.b))
  }

  predicate NoForward(m: Pair) { !Driven(m.left.a) && !Driven(m.right.a) }

  /** Net duty of one motor: positive forward, negative backward. */
  function Drive(h: HBridge): real {
    (if Driven(h.a) then h.a.duty else 0.0) - (if Driven(h.b) then h.b.duty else 0.0)
  }

  // ------------------------------------------------------------- call sequences

  function ForwardCalls(t: Timer, duty: real): seq<Call> {
    [SetSignalLow(t, OprB), SetDuty(t, OprA, duty), SetDutyType(t, OprA)]
  }

  function BackwardCalls(t: Timer, duty: real): seq<Call> {
    [SetSignalLow(t, OprA), SetDuty(t, OprB, duty), SetDutyType(t, OprB)]
  }

  function StopCalls(t: Timer): seq<Call> {
    [SetSignalLow(t, OprA), SetSignalLow(t, OprB)]
  }

  /** What one motor is told to do, with the duty to do it at. */
  datatype Command = Forward(duty: real) | Backward(duty: real) | Stop

  function Calls(t: Timer, c: Command): seq<Call> {
    match c
    case Forward(d) => ForwardCalls(t, d)
    case Backward(d) => BackwardCalls(t, d)
    case Stop => StopCalls(t)
  }

  function BothCalls(left: Command, right: Command): seq<Call> {
    Calls(Timer0, left) + Calls(Timer1, right)
  }

  function Signed(c: Command): real {
    match c case Forward(d) => d case Backward(d) => -d case Stop => 0.0
  }

  predicate NonNegative(c: Command) {
    c.Stop? || c.duty >= 0.0
  }

  // --------------------------------------------------------------------- laws

  lemma {:induction false} ReplayConcat(m: Pair, a: seq<Call>, b: seq<Call>)
    ensures Replay(m, a + b) == Replay(Replay(m, a), b)
    decreases |b|
  {
    if b == [] {
      assert a + b == a;
    } else {
      var c := b[..|b| - 1];
      ReplayConcat(m, a, c);
      assert (a + b)[..|a + b| - 1] == a + c;
    }
  }

  /** No prefix of the calls, applied from m, drives both sides of a bridge at once. */
  ghost predicate SafeCalls(m: Pair, calls: seq<Call>) {
    forall k :: 0 <= k <= |calls| ==> Exclusive(Replay(m, calls[..k]))
  }

  lemma SafeConcat(m: Pair, a: seq<Call>, b: seq<Call>)
    requires SafeCalls(m, a) && SafeCalls(Replay(m, a), b)
    ensures SafeCalls(m, a + b)
  {
    forall k | 0 <= k <= |a + b| ensures Exclusive(Replay(m, (a + b)[..k])) {
      if k <= |a| {
        assert (a + b)[..k] == a[..k];
      } else {
        assert (a + b)[..k] == a + b[..k - |a|];
        ReplayConcat(m, a, b[..k - |a|]);
      }
    }
  }

  lemma ReplayShort(m: Pair, c: seq<Call>)
    requires 2 <= |c| <= 3
    ensures Replay(m, c[..0]) == m
    ensures Replay(m, c[..1]) == Apply(m, c[0])
    ensures Replay(m, c[..2]) == Apply(Apply(m, c[0]), c[1])
    ensures |c| == 3 ==> Replay(m, c) == Apply(Apply(Apply(m, c[0]), c[1]), c[2])
    ensures |c| == 2 ==> Replay(m, c) == Apply(Apply(m, c[0]), c[1])
  {
    assert c[..1][..0] == [] && c[..2][..1] == c[..1];
    if |c| == 3 {
      assert c[..3] == c && c[..3][..2] == c[..2];
    } else {
      assert c[..2] == c;
    }
  }

  /** Commanding one motor is safe at every call, leaves the other alone and gives it exactly this drive. */
  lemma CommandEffect(m: Pair, t: Timer, c: Command)
    requires Exclusive(m) && NonNegative(c)
    ensures SafeCalls(m, Calls(t, c))
    ensures var r := Replay(m, Calls(t, c));
            if t == Timer0 then r.right == m.right && Drive(r.left) == Signed(c)
            else r.left == m.left && Drive(r.right) == Signed(c)
  {
    var cs := Calls(t, c);
    ReplayShort(m, cs);
    forall k | 0 <= k <= |cs| ensures Exclusive(Replay(m, cs[..k])) {
      assert cs[..|cs|] == cs;
      assert k == 0 || k == 1 || k == 2 || k == |cs|;
    }
  }

  /** The same for a command pair: safe at every call, and the drives are exactly those commanded. */
  lemma PairEffect(m: Pair, left: Command, right: Command)
    requires Exclusive(m) && NonNegative(left) && NonNegative(right)
    ensures SafeCalls(m, BothCalls(left, right))
    ensures var r := Replay(m, BothCalls(left, right));
            Exclusive(r) && Drive(r.left) == Signed(left) && Drive(r.right) == Signed(right)
  {
    var a, b := Calls(Timer0, left), Calls(Timer1, right);
    CommandEffect(m, Timer0, left);
    assert a[..|a|] == a;
    var m1 := Replay(m, a);
    CommandEffect(m1, Timer1, right);
    assert b[..|b|] == b;
    ReplayConcat(m, a, b);
    SafeConcat(m, a, b);
  }

  /** On an exclusive bridge, no forward output is driven iff the net drive is not positive. */
  lemma NoForwardIsDrive(m: Pair)
    requires Exclusive(m)
    ensures NoForward(m) <==> Drive(m.left) <= 0.0 && Drive(m.right) <= 0.0
  {
  }
}
