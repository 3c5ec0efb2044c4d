/**
 * The whole loop: echo samples through the Pi's interleaved threads, the false-alarm filter and the serial link
 * to the motors, under any interleaving on either side and any chunking into whole messages.
 */
module EndToEnd {
  import opened Sequences
  import opened Decimal
  import opened FalseAlarmFilter
  import opened FilterLaws
  import opened Distances
  import opened SpeedLine
  import opened StateLink
  import opened PiThreads
  import opened Motors
  import opened Firmware

  /** The ESP32 has read, chunk by chunk, these groups of whole messages, the first the Pi has sent. */
  ghost predicate Delivered(groups: seq<seq<Message>>, p: Pi, s: Esp32) {
    && NonEmptyGroups(groups)
    && s.chunks == Chunks(groups)
    && Flatten(groups) <= p.sent
  }

  /** The tick whose message the ESP32 acted on last. */
  function ActedOn(groups: seq<seq<Message>>): nat
    requires groups != []
  {
    |Flatten(groups[..|groups| - 1])|
  }

  /** The ESP32's state is the state the filter had after that tick. */
  lemma CurrentIsFilterState(choices: seq<Choice>, events: seq<Event>, groups: seq<seq<Message>>)
    requires groups != [] && Delivered(groups, Interleave(choices), Exec(BOOT, events))
    ensures var p := Interleave(choices); var t := ActedOn(groups);
            t < |p.zones| && Exec(BOOT, events).current == After(p.zones[..t + 1]).current
  {
    var p, s, n := Interleave(choices), Exec(BOOT, events), |groups| - 1;
    DecisionsFollowBatches(choices);
    AlwaysOk(events);
    WholeChunksDecode(groups);
    assert DecodeAll(s.chunks)[n] == States(Heads(groups))[n];
    FlattenHead(groups, n);
    MessageAt(p.zones, ActedOn(groups));
  }

  // ------------------------------------------------------------------- braking

  /** In tick k some sensor had a strict majority of its samples below 16 cm. */
  predicate CertainDanger(p: Pi, k: nat) {
    || (k < |p.channel0.batches| && MajorityBelow(p.channel0.batches[k], AUTOBRAKE_DIST))
    || (k < |p.channel1.batches| && MajorityBelow(p.channel1.batches[k], AUTOBRAKE_DIST))
  }

  /** So in the eight ticks up to t. */
  ghost predicate EightCertainDangers(p: Pi, t: nat) {
    t >= 7 && forall k: nat :: t - 7 <= k <= t ==> CertainDanger(p, k)
  }

  lemma EightDangers(choices: seq<Choice>, t: nat)
    requires t < |Interleave(choices).zones| && EightCertainDangers(Interleave(choices), t)
    ensures After(Interleave(choices).zones[..t + 1]).current == AUTOBRAKE_STATE_ID
  {
    hide Interleave, Messages, Run, MajorityBelow, TickZone;
    var p := Interleave(choices);
    DecisionsFollowBatches(choices);
    var a, b := p.zones[..t - 7], p.zones[t - 7..t + 1];
    forall i | 0 <= i < |b| ensures b[i] == Danger {
      var k := t - 7 + i;
      assert CertainDanger(p, k);
      MajorityDecides(p.channel0.batches[k], p.channel1.batches[k]);
    }
    assert p.zones[..t + 1] == a + b;
    RunConcat(INITIAL, a, b);
    Latency(Run(INITIAL, a), b, Danger);
  }

  /**
   * Detection: if in each of the eight ticks up to the one last acted on some sensor had a strict majority of
   * samples below 16 cm, the brake sequence has run and no motor is driven forward, whatever the joystick does.
   */
  lemma ObstacleStopsCar(choices: seq<Choice>, events: seq<Event>, groups: seq<seq<Message>>)
    requires groups != [] && Delivered(groups, Interleave(choices), Exec(BOOT, events))
    requires EightCertainDangers(Interleave(choices), ActedOn(groups))
    ensures var s := Exec(BOOT, events);
            s.current == BRAKE && s.brakes >= 1 && NoForward(MotorsOf(s))
  {
    hide Interleave, Exec, After, RisingEdges, EightCertainDangers, MotorsOk, MotorsOf, NoForward;
    CurrentIsFilterState(choices, events, groups);
    EightDangers(choices, ActedOn(groups));
    NeverForwardInAutobrake(events);
    OneBrakePerEdge(events);
    var s := Exec(BOOT, events);
    AlwaysOk(events);
    assert DecodeAll(s.chunks)[|s.chunks| - 1] == s.current;
    NoEdgeWithoutBrake(0, DecodeAll(s.chunks));
  }

  // -------------------------------------------------------------- no false brake

  /** Whole-message delivery never brakes more often than the filter entered AUTOBRAKE. */
  lemma BrakesBounded(choices: seq<Choice>, events: seq<Event>, groups: seq<seq<Message>>)
    requires Delivered(groups, Interleave(choices), Exec(BOOT, events))
    ensures Exec(BOOT, events).brakes <= AutobrakeEntries(Interleave(choices).sent)
  {
    var p := Interleave(choices);
    OneBrakePerEdge(events);
    WholeDeliveryEdges(groups);
    var n := |Flatten(groups)|;
    assert Flatten(groups) == p.sent[..n];
    PrefixNeverAddsEdges(0, States(p.sent[..n]), States(p.sent[n..]));
    assert States(p.sent) == States(p.sent[..n]) + States(p.sent[n..]);
  }

  /** A tick is close if a live sensor had at least half of its samples below 25 cm. */
  function CloseTicks(p: Pi): (zs: seq<Zone>)
    requires |p.zones| <= |p.channel0.batches| && |p.zones| <= |p.channel1.batches|
    ensures |zs| == |p.zones|
  {
    seq(|p.zones|, k requires 0 <= k < |p.zones| =>
      if HalfBelow(p.channel0.batches[k], COLLISION_DIST) || HalfBelow(p.channel1.batches[k], COLLISION_DIST)
      then Warning else Safe)
  }

  lemma NonSafeAreClose(choices: seq<Choice>, n: nat)
    requires n <= |Interleave(choices).zones|
    ensures |Interleave(choices).zones| <= |Interleave(choices).channel0.batches|
    ensures |Interleave(choices).zones| <= |Interleave(choices).channel1.batches|
    ensures NonSafe(Recent(Interleave(choices).zones[..n])) <= NonSafe(Recent(CloseTicks(Interleave(choices))[..n]))
  {
    var p := Interleave(choices);
    DecisionsFollowBatches(choices);
    var a, b := p.zones[..n], CloseTicks(p)[..n];
    forall k | 0 <= k < n ensures b[k] == Safe ==> a[k] == Safe {
      ZoneHasCause(p.channel0.batches[k], p.channel1.batches[k]);
    }
    FewerOccurrences(Recent(a), Recent(b), Safe);
  }

  /** A history that never enters AUTOBRAKE sends no message of that state. */
  lemma QuietMessages(h: seq<Zone>)
    requires !EverAutobrake(h)
    ensures forall k :: 0 <= k < |h| ==> Messages(h)[k].state != AUTOBRAKE_STATE_ID
  {
    forall k | 0 <= k < |h| ensures Messages(h)[k].state != AUTOBRAKE_STATE_ID {
      MessageAt(h, k);
    }
  }

  /**
   * Immunity: if no twenty consecutive ticks contain more than six close ticks, the car never brakes by itself
   * and never refuses the driver, for any interleaving of the threads, joystick and chunk boundaries.
   */
  lemma FalseAlarmsNeverBrake(choices: seq<Choice>, events: seq<Event>, groups: seq<seq<Message>>)
    requires Delivered(groups, Interleave(choices), Exec(BOOT, events))
    requires var p := Interleave(choices);
             |p.zones| <= |p.channel0.batches| && |p.zones| <= |p.channel1.batches| && AtMostIn20(CloseTicks(p), 6)
    ensures Exec(BOOT, events).brakes == 0 && Exec(BOOT, events).current != BRAKE
  {
    var p, s := Interleave(choices), Exec(BOOT, events);
    forall n | 0 <= n <= |p.zones| ensures NonSafe(Recent(p.zones[..n])) <= 6 {
      NonSafeAreClose(choices, n);
    }
    SixFalseAlarmsTolerated(p.zones);
    QuietMessages(p.zones);
    DecisionsFollowBatches(choices);
    BrakesBounded(choices, events, groups);
    NoEdgeWithoutBrake(0, States(p.sent));
    if groups != [] {
      CurrentIsFilterState(choices, events, groups);
      MessageAt(p.zones, ActedOn(groups));
    } else {
      AlwaysOk(events);
    }
  }

  // ------------------------------------------------------------------- release

  /** In tick k neither sensor had half of its samples below 16 cm. */
  predicate CertainlyNoDanger(p: Pi, k: nat) {
    && k < |p.channel0.batches| && !HalfBelow(p.channel0.batches[k], AUTOBRAKE_DIST)
    && k < |p.channel1.batches| && !HalfBelow(p.channel1.batches[k], AUTOBRAKE_DIST)
  }

  /** So in the eleven ticks up to t. */
  ghost predicate ElevenWithoutDanger(p: Pi, t: nat) {
    t >= 10 && forall k: nat :: t - 10 <= k <= t ==> CertainlyNoDanger(p, k)
  }

  lemma ElevenQuiet(choices: seq<Choice>, t: nat)
    requires t < |Interleave(choices).zones| && ElevenWithoutDanger(Interleave(choices), t)
    ensures After(Interleave(choices).zones[..t + 1]).current != AUTOBRAKE_STATE_ID
  {
    hide Interleave, Messages, Run, HalfBelow, TickZone;
    var p := Interleave(choices);
    DecisionsFollowBatches(choices);
    var a, b := p.zones[..t - 10], p.zones[t - 10..t + 1];
    forall i | 0 <= i < |b| ensures b[i] != Danger {
      var k := t - 10 + i;
      assert CertainlyNoDanger(p, k);
      ZoneHasCause(p.channel0.batches[k], p.channel1.batches[k]);
    }
    assert p.zones[..t + 1] == a + b;
    RunConcat(INITIAL, a, b);
    BoundedRelease(Run(INITIAL, a), b);
  }

  /**
   * Release: after eleven ticks without danger the driver is obeyed again: the next packet that pushes the
   * stick straight ahead drives both motors forward with exactly that duty.
   */
  lemma ClearRoadReleasesCar(choices: seq<Choice>, events: seq<Event>, groups: seq<seq<Message>>, packet: Packet)
    requires groups != [] && Delivered(groups, Interleave(choices), Exec(BOOT, events))
    requires ElevenWithoutDanger(Interleave(choices), ActedOn(groups))
    requires YAxis(packet) > LIMIT && -LIMIT <= XAxis(packet) <= LIMIT
    ensures var m := MotorsOf(Next(Exec(BOOT, events), Joystick(packet)));
            Drive(m.left) == YAxis(packet) as real && Drive(m.right) == YAxis(packet) as real
  {
    hide Replay, SafeCalls, BothCalls, Drive, Interleave, Exec, Run;
    CurrentIsFilterState(choices, events, groups);
    ElevenQuiet(choices, ActedOn(groups));
    AlwaysOk(events);
    var s := Exec(BOOT, events);
    ControlEffect(s.calls, s.current, XAxis(packet), YAxis(packet));
  }

  // ------------------------------------------------- chunks cut inside messages

  /** For every interleaving and every cut: the exact number of brake sequences, and when AUTOBRAKE is on. */
  lemma CutDelivery(choices: seq<Choice>, events: seq<Event>)
    requires IsCut(Interleave(choices).sent, Exec(BOOT, events).chunks)
    ensures var ms, s := Interleave(choices).sent, Exec(BOOT, events);
            && s.brakes == |BrakingChunks(ms, s.chunks)|
            && (s.current == BRAKE <==> s.chunks != [] && ReadAsBrake(ms, Offset(s.chunks, |s.chunks| - 1)))
            && (HonestCut(ms, s.chunks) ==> s.brakes <= AutobrakeEntries(ms))
  {
    hide ReadAsBrake, Offset, DecodeState, BrakingChunks, HonestCut, Interleave, Exec, EncodeAll, RisingEdges;
    var ms, s := Interleave(choices).sent, Exec(BOOT, events);
    AlwaysOk(events);
    CutEdgesExactly(ms, s.chunks);
    if s.chunks != [] {
      CutChunkDecodes(ms, s.chunks, |s.chunks| - 1);
    }
    if HonestCut(ms, s.chunks) {
      HonestCutNeverOverBrakes(ms, s.chunks);
    }
  }

  /** The first tick after power-on never leaves NORMAL. */
  lemma FirstTickNormal(z: Zone)
    ensures After([z]).current == NORMAL_STATE_ID
  {
    QuietStart([]);
    AfterSnoc([], z);
    CountsSum(INITIAL);
    assert [] + [z] == [z];
  }

  /** The run has read exactly these messages and started n brake sequences. */
  ghost predicate ReadAllAndBraked(events: seq<Event>, ms: seq<Message>, n: nat) {
    Flatten(Exec(BOOT, events).chunks) == EncodeAll(ms) && Exec(BOOT, events).brakes == n
  }

  /** Three or more messages, cut in two before the last byte of the third. */
  function SlotTwoCut(ms: seq<Message>): (chunks: seq<seq<Byte>>)
    requires |ms| >= 3
    ensures |chunks| == 2
  {
    var n := |Encode(ms[2])| - 1;
    [EncodeAll(ms[..2]) + Encode(ms[2])[..n], Encode(ms[2])[n..] + EncodeAll(ms[3..])]
  }

  /** The second chunk starts with the 2 of slot number 2. */
  lemma SlotTwoDecodes(ms: seq<Message>)
    requires |ms| >= 3 && ms[0].state == NORMAL_STATE_ID && ms[2].slot == 2
    ensures var cs := SlotTwoCut(ms);
            && cs[0] != [] && DecodeState(cs[0]) == 0 && cs[1] != [] && DecodeState(cs[1]) == BRAKE
            && Flatten(cs) == EncodeAll(ms)
  {
    hide EncodeAll, Flatten, Encode;
    var m := Encode(ms[2]);
    var n := |m| - 1;
    var front, tail := EncodeAll(ms[..2]), EncodeAll(ms[3..]);
    FirstByte(ms[..2]);
    TwoInMessage(ms[2], n);
    FlattenTwo(front + m[..n], m[n..] + tail);
    EncodeAround(ms, 2);
    assert front + m[..n] + (m[n..] + tail) == front + m + tail;
  }

  lemma EncodeThree(front: seq<Message>, m: Message, tail: seq<Message>)
    ensures EncodeAll(front + [m] + tail) == EncodeAll(front) + Encode(m) + EncodeAll(tail)
  {
    hide EncodeAll, Encode;
    EncodeConcat(front + [m], tail);
    EncodeConcat(front, [m]);
    SingleEncode(m);
  }

  lemma EncodeAround(ms: seq<Message>, k: nat)
    requires k < |ms|
    ensures EncodeAll(ms) == EncodeAll(ms[..k]) + Encode(ms[k]) + EncodeAll(ms[k + 1..])
  {
    hide EncodeAll, Encode;
    EncodeThree(ms[..k], ms[k], ms[k + 1..]);
    assert ms[..k] + [ms[k]] + ms[k + 1..] == ms;
  }

  lemma FlattenTwo<T>(a: seq<T>, b: seq<T>)
    ensures Flatten([a, b]) == a + b
  {
    FlattenSnoc([], a);
    FlattenSnoc([a], b);
    assert [a] + [b] == [a, b];
  }

  /** The first two messages after power-on hold no digit 2. */
  lemma NoTwoYet(h: seq<Zone>, p: nat)
    requires |h| <= 2
    ensures !ReadAsBrake(Messages(h), p)
  {
    hide EncodeAll, Encode, After, PlaceIn, Messages;
    forall k | 0 <= k < |h| ensures Messages(h)[k].state == NORMAL_STATE_ID && Messages(h)[k].slot == k {
      MessageAt(h, k);
      CalmStart(h, k + 1);
    }
  }

  lemma CalmStart(h: seq<Zone>, n: nat)
    requires n <= |h| <= 2
    ensures After(h[..n]).current == NORMAL_STATE_ID
  {
    forall k | 0 <= k < n ensures !Alarming(h, k) {
      RecentBounds(h, k);
    }
    CalmRun(h, n);
  }

  /** So no cut of them is taken for AUTOBRAKE. */
  lemma TwoTicksNeverBrake(h: seq<Zone>, events: seq<Event>)
    requires |h| <= 2 && IsCut(Messages(h), Exec(BOOT, events).chunks)
    ensures Exec(BOOT, events).brakes == 0
  {
    hide EncodeAll, Flatten, RisingEdges, DecodeState, Exec, Offset, Messages, ReadAsBrake;
    var ms, s := Messages(h), Exec(BOOT, events);
    AlwaysOk(events);
    forall i | 0 <= i < |s.chunks| ensures DecodeState(s.chunks[i]) != BRAKE {
      CutChunkDecodes(ms, s.chunks, i);
      NoTwoYet(h, Offset(s.chunks, i));
    }
    NoEdgeWithoutBrake(0, DecodeAll(s.chunks));
  }

  /** The messages of h, the last of them cut after its first byte, then the message of one more tick. */
  function CutStream(h: seq<Zone>, z: Zone): seq<seq<Byte>>
    requires |h| >= 2
  {
    var n := |h| - 1;
    InsideCut(Messages(h[..n]), Message(After(h).current, n % EVENTS_ARRAY_SIZE),
              [Message(After(h + [z]).current, |h| % EVENTS_ARRAY_SIZE)])
  }

  lemma FirstMessageNormal(h: seq<Zone>)
    requires h != []
    ensures Messages(h)[0].state == NORMAL_STATE_ID
  {
    hide Messages, After;
    MessageAt(h, 0);
    assert h[..1] == [h[0]];
    FirstTickNormal(h[0]);
  }

  lemma MessageParts(h: seq<Zone>, z: Zone)
    requires |h| >= 2
    ensures var n := |h| - 1; var first := Messages(h[..n]);
            var m := Message(After(h).current, n % EVENTS_ARRAY_SIZE);
            && first[0].state == NORMAL_STATE_ID
            && Messages(h) == first + [m]
            && Messages(h + [z]) == first + [m] + [Message(After(h + [z]).current, |h| % EVENTS_ARRAY_SIZE)]
  {
    hide After, Messages;
    var n := |h| - 1;
    LastSplit(h);
    MessagesSnoc(h[..n], h[n]);
    MessagesSnoc(h, z);
    FirstMessageNormal(h[..n]);
  }

  lemma CutStreamDecodes(h: seq<Zone>, z: Zone)
    requires |h| >= 2
    ensures IsCut(Messages(h + [z]), CutStream(h, z))
    ensures Flatten(CutStream(h, z)) == EncodeAll(Messages(h + [z]))
    ensures Flatten(CutStream(h, z)[..3]) == EncodeAll(Messages(h))
    ensures DecodeAll(CutStream(h, z)) == [0, After(h).current as Byte, 47, After(h + [z]).current as Byte]
  {
    hide After, EncodeAll, Encode, Flatten, Messages, InsideCut, DecodeAll;
    var n := |h| - 1;
    var first, m := Messages(h[..n]), Message(After(h).current, n % EVENTS_ARRAY_SIZE);
    var next := Message(After(h + [z]).current, |h| % EVENTS_ARRAY_SIZE);
    var cs := InsideCut(first, m, [next]);
    assert CutStream(h, z) == cs;
    MessageParts(h, z);
    InsideCutDecodes(first, m, [next]);
    assert DecodeAll(cs) == [first[0].state as Byte, m.state as Byte, 47, next.state as Byte];
  }

  /** The ESP32 reads the first three of these chunks, its brake delays running out in between. */
  function CutReads(h: seq<Zone>, z: Zone): seq<Event>
    requires |h| >= 2
  {
    var cs := CutStream(h, z);
    [Uart(cs[0]), Uart(cs[1]), DelayOver, DelayOver, Uart(cs[2])]
  }

  /** A chunk read as NORMAL and one read as AUTOBRAKE. */
  lemma NormalThenBrake(a: seq<Byte>, b: seq<Byte>)
    requires a != [] && DecodeState(a) == 0 && b != [] && DecodeState(b) == BRAKE
    ensures var s := Exec(BOOT, [Uart(a), Uart(b)]);
            s.chunks == [a, b] && s.pc == InPulse && s.brakes == 1
  {
    hide PulseCalls, DecodeState, Exec;
    EmptyExec(BOOT);
    ExecSnoc(BOOT, [], Uart(a));
    ExecSnoc(BOOT, [Uart(a)], Uart(b));
    assert [] + [Uart(a)] == [Uart(a)] && [Uart(a)] + [Uart(b)] == [Uart(a), Uart(b)];
  }

  /** Then the two delays and a chunk read as something else. */
  lemma BrakeThenOther(a: seq<Byte>, b: seq<Byte>, c: seq<Byte>)
    requires a != [] && DecodeState(a) == 0 && b != [] && DecodeState(b) == BRAKE
    requires c != [] && DecodeState(c) != BRAKE
    ensures var s := Exec(BOOT, [Uart(a), Uart(b), DelayOver, DelayOver, Uart(c)]);
            && s.chunks == [a, b, c] && s.pc == AtRead && s.current == DecodeState(c) && s.brakes == 1
  {
    hide BothCalls, DecodeState, Exec;
    var es := [Uart(a), Uart(b)];
    NormalThenBrake(a, b);
    ExecSnoc(BOOT, es, DelayOver);
    ExecSnoc(BOOT, es + [DelayOver], DelayOver);
    ExecSnoc(BOOT, es + [DelayOver] + [DelayOver], Uart(c));
    assert es + [DelayOver] + [DelayOver] + [Uart(c)] == [Uart(a), Uart(b), DelayOver, DelayOver, Uart(c)];
  }

  lemma EmptyExec(s: Esp32)
    ensures Exec(s, []) == s
  {
  }

  lemma CutReadsState(h: seq<Zone>, z: Zone)
    requires |h| >= 2 && After(h).current == AUTOBRAKE_STATE_ID
    ensures var s := Exec(BOOT, CutReads(h, z));
            && s.chunks == CutStream(h, z)[..3] && s.pc == AtRead && s.current == 47 && s.brakes == 1
  {
    hide After, EncodeAll, Encode, Flatten, DecodeState, CutStream, Exec;
    CutStreamDecodes(h, z);
    var cs := CutStream(h, z);
    var states := DecodeAll(cs);
    assert states[0] == 0 && states[1] == BRAKE && states[2] == 47;
    BrakeThenOther(cs[0], cs[1], cs[2]);
    assert cs[..3] == [cs[0], cs[1], cs[2]];
  }

  /** The run has read exactly these messages, and the packet then drives both motors forward with its duty. */
  ghost predicate ReadAllButObeys(events: seq<Event>, ms: seq<Message>, packet: Packet) {
    var s := Exec(BOOT, events);
    var m := MotorsOf(Next(s, Joystick(packet)));
    && Flatten(s.chunks) == EncodeAll(ms)
    && Drive(m.left) == YAxis(packet) as real && Drive(m.right) == YAxis(packet) as real
  }

  lemma AutobrakeTakesTwo(h: seq<Zone>)
    requires After(h).current == AUTOBRAKE_STATE_ID
    ensures |h| >= 2
  {
    QuietStart([]);
    if |h| == 1 {
      FirstTickNormal(h[0]);
    }
  }

  /**
   * A lost AUTOBRAKE: for every history that ends in AUTOBRAKE there is a run in which the ESP32 has read all of
   * its messages and yet obeys a stick pushed forward, because the last one was cut.
   */
  lemma CutLosesAutobrake(h: seq<Zone>, packet: Packet)
    requires After(h).current == AUTOBRAKE_STATE_ID
    requires YAxis(packet) > LIMIT && -LIMIT <= XAxis(packet) <= LIMIT
    ensures exists events :: ReadAllButObeys(events, Messages(h), packet)
  {
    hide After, EncodeAll, Flatten, Replay, SafeCalls, BothCalls, Drive, CutReads, CutStream, Exec, DecodeAll;
    AutobrakeTakesTwo(h);
    CutStreamDecodes(h, Danger);
    CutReadsState(h, Danger);
    AlwaysOk(CutReads(h, Danger));
    var s := Exec(BOOT, CutReads(h, Danger));
    ControlEffect(s.calls, s.current, XAxis(packet), YAxis(packet));
    assert ReadAllButObeys(CutReads(h, Danger), Messages(h), packet);
  }

  /** The states sent over nine danger ticks from power-on enter AUTOBRAKE once. */
  lemma NineDangersEnterOnce(h: seq<Zone>)
    requires All(h, Danger) && |h| == 9
    ensures AutobrakeEntries(Messages(h)) == 1
  {
    var states := States(Messages(h));
    forall k | 0 <= k < 9 ensures states[k] == if k >= 7 then BRAKE else 0 {
      MessageAt(h, k);
      InitialLatencyTight(h[..k + 1], Danger);
    }
    var a := states[..7];
    assert states == a + [BRAKE, BRAKE];
    EdgesConcat(0, a, [BRAKE, BRAKE]);
    NoEdgeWithoutBrake(0, a);
    assert [BRAKE, BRAKE][1..] == [BRAKE];
    NoEdgeWithoutBrake(BRAKE, []);
  }

  /**
   * A brake out of nothing: whatever was seen, there is a run that has read all messages and braked exactly if
   * these are at least three, since the number of the third slot is 2.
   */
  lemma SpuriousBrakeExactly(h: seq<Zone>)
    ensures (exists events, n :: n > 0 && ReadAllAndBraked(events, Messages(h), n)) <==> |h| >= 3
    ensures |h| >= 3 ==> exists events :: ReadAllAndBraked(events, Messages(h), 1)
  {
    hide Exec, Encode, EncodeAll, DecodeState, Messages, After, SlotTwoCut;
    if |h| >= 3 {
      var ms := Messages(h);
      MessageAt(h, 2);
      FirstMessageNormal(h);
      SlotTwoDecodes(ms);
      var cs := SlotTwoCut(ms);
      NormalThenBrake(cs[0], cs[1]);
      assert cs == [cs[0], cs[1]];
      assert ReadAllAndBraked([Uart(cs[0]), Uart(cs[1])], ms, 1);
    } else {
      forall events, n | ReadAllAndBraked(events, Messages(h), n) ensures n == 0 {
        AlwaysOk(events);
        TwoTicksNeverBrake(h, events);
      }
    }
  }

  /** So a car that sees nothing can brake: of three safe ticks the Pi sends "0_00_10_2". */
  lemma SpuriousEdgeHappens()
    ensures AutobrakeEntries(Messages([Safe, Safe, Safe])) == 0
    ensures exists events :: ReadAllAndBraked(events, Messages([Safe, Safe, Safe]), 1)
  {
    hide ReadAllAndBraked, RisingEdges;
    var h := [Safe, Safe, Safe];
    SpuriousBrakeExactly(h);
    forall k | 0 <= k < 3 ensures Messages(h)[k].state == NORMAL_STATE_ID {
      MessageAt(h, k);
      CalmRun(h, k + 1);
    }
    NoEdgeWithoutBrake(0, States(Messages(h)));
  }

  /** Over-braking by a cut: one entry into AUTOBRAKE on the Pi can start two brake sequences. */
  lemma CutBrakesTwice()
    ensures exists h, events :: AutobrakeEntries(Messages(h)) == 1 && ReadAllAndBraked(events, Messages(h), 2)
  {
    hide EncodeAll, Flatten, CutReads, CutStream, PulseCalls, Messages, Run, Exec, AutobrakeEntries, DecodeState;
    var h := seq(8, _ => Danger);
    Latency(INITIAL, h, Danger);
    Latency(INITIAL, h + [Danger], Danger);
    NineDangersEnterOnce(h + [Danger]);
    CutStreamDecodes(h, Danger);
    CutReadsState(h, Danger);
    var cs := CutStream(h, Danger);
    ExecSnoc(BOOT, CutReads(h, Danger), Uart(cs[3]));
    assert DecodeAll(cs)[3] == BRAKE && cs[3] != [];
    assert cs[..3] + [cs[3]] == cs;
    assert ReadAllAndBraked(CutReads(h, Danger) + [Uart(cs[3])], Messages(h + [Danger]), 2);
  }

  // -------------------------------------------------------------- the speed line

  /** If all speeds stored so far are below 80, the decision thread is alive and its tick can complete. */
  lemma SlowSpeedsDecide(choices: seq<Choice>)
    requires forall i :: 0 <= i < |SpeedsRead(choices)| ==> SpeedsRead(choices)[i] < 80.0
    ensures !Interleave(choices).pc.Died?
    ensures exists more: seq<Choice> :: |more| <= 18 &&
              |Interleave(choices + more).zones| == |Interleave(choices).zones| + 1
  {
    hide Interleave;
    forall k | 0 <= k < |choices| && choices[k].SpeedRead? ensures choices[k].speed < 80.0 {
      EachSpeedRead(choices, k);
    }
    SlowCarNeverKills(choices);
    TickCompletes(choices);
    var more :| |more| <= 18 && CompletesTick(choices, more);
    SlowCarNeverKills(choices + more);
  }

  /**
   * If the ESP32 only ever prints speeds of magnitude below 80 and the Pi stores what it parses from that stream,
   * in any interleaving and read as far as it likes, the decision thread never dies and completes every tick.
   */
  lemma SlowCarDecidesForever(choices: seq<Choice>, vs: seq<real>)
    requires forall i :: 0 <= i < |vs| ==> SpeedLine.Abs(vs[i]) < 80.0
    requires SpeedsRead(choices) <= Received(Lines(Flatten(PrintAll(vs))))
    ensures !Interleave(choices).pc.Died?
    ensures exists more: seq<Choice> :: |more| <= 18 &&
              |Interleave(choices + more).zones| == |Interleave(choices).zones| + 1
  {
    hide Interleave, Lines, Received, PrintAll, Truncated;
    StreamRoundTrip(vs);
    var speeds := SpeedsRead(choices);
    assert forall i :: 0 <= i < |speeds| ==> speeds[i] == TruncatedAll(vs)[i];
    SlowSpeedsDecide(choices);
  }

  /** The rest of the first line is worth less than 80, or is refused, which leaves the speed at its initial 0. */
  predicate HarmlessJoin(v: real, k: nat)
    requires k < |PrintSpeed(v)|
  {
    Joined(v, k).Some? ==> Joined(v, k).value < 80.0
  }

  /**
   * The Pi joins the stream of a slow car at byte k of line i: no interleaving kills the decision thread iff that
   * join is harmless. Joined behind the point, 0.9999 is read as 9999 and can kill the first tick.
   */
  lemma JoinedCarDecidesExactly(vs: seq<real>, i: nat, k: nat, missed: seq<Byte>, rest: seq<Byte>)
    requires forall j :: 0 <= j < |vs| ==> SpeedLine.Abs(vs[j]) < 80.0
    requires i < |vs| && k < |PrintSpeed(vs[i])|
    requires missed + rest == Flatten(PrintAll(vs)) && |missed| == |Flatten(PrintAll(vs[..i]))| + k
    ensures (forall choices :: SpeedsRead(choices) <= Received(Lines(rest)) ==> !Interleave(choices).pc.Died?)
            <==> HarmlessJoin(vs[i], k)
  {
    hide Interleave, Lines, Received, PrintAll, PrintSpeed, Truncated, Joined, Flatten;
    JoinedStream(vs, i, k, missed, rest);
    if HarmlessJoin(vs[i], k) {
      forall choices | SpeedsRead(choices) <= Received(Lines(rest)) ensures !Interleave(choices).pc.Died? {
        StreamRoundTrip(vs[i + 1..]);
        SlowSpeedsDecide(choices);
      }
    } else {
      var v := Joined(vs[i], k).value;
      FastStartKills(v);
      HastySpeeds(v);
      assert SpeedsRead(HastyTick(v)) <= Received(Lines(rest));
    }
  }
}
