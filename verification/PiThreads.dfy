/**
 * The threads of the Pi, interleaved one statement at a time: two sensor threads that append under a lock, the
 * decision thread that drains both lists under the same locks, and the speed reader that overwrites the shared
 * speed at any moment (ECU_RASP/main.py:86-99, 169-178, 221-263, 268-323).
 */
module PiThreads {
  import opened Sequences
  import opened FalseAlarmFilter
  import opened Distances
  import opened SpeedStages
  import opened StateLink

  datatype Sensor = Sensor0 | Sensor1

  /** A sensor thread: measuring, blocked on the lock, inside it, about to release it. */
  datatype ProducerPc = Measuring | Acquiring(d: real) | Appending(d: real) | Releasing

  datatype Owner = Nobody | Producer | Consumer

  /** A shared list with its lock. appended and batches are history: all appends, and what each tick consumed. */
  datatype Channel = Channel(list: seq<real>, owner: Owner, producer: ProducerPc,
                             appended: seq<real>, batches: seq<seq<real>>)

  /** The statement the decision thread executes next. */
  datatype DecisionPc =
    | AtAcquire(sensor: Sensor)
    | AtLen(sensor: Sensor)
    | AtMedian(sensor: Sensor)
    | AtClear(sensor: Sensor, batch: seq<real>)  // the list the median was taken of
    | AtRelease(sensor: Sensor)
    | AtStage1 | AtStage2 | AtStage3
    | AtDecide
    | Died(error: Error)

  datatype Error = StatisticsError | UnboundLocal

  /** found, zones and sent are history: the speeds all comparisons so far have found, all zones, all messages. */
  datatype Pi = Pi(channel0: Channel, channel1: Channel, pc: DecisionPc, median0: real, median1: real,
                   speed: real, limits: Option<Limits>, i: Slot, filter: Filter,
                   found: seq<real>, zones: seq<Zone>, sent: seq<Message>)

  const IDLE := Channel([], Nobody, Measuring, [], [])
  const START := Pi(IDLE, IDLE, AtAcquire(Sensor0), 0.0, 0.0, 0.0, None, 0, INITIAL, [], [], [])

  /** The scheduler's choice: which thread moves, and what the outside world gives it. */
  datatype Choice = Sense(sensor: Sensor, distance: real) | Decide | SpeedRead(speed: real)

  function Of(p: Pi, s: Sensor): Channel {
    if s == Sensor0 then p.channel0 else p.channel1
  }

  function With(p: Pi, s: Sensor, c: Channel): Pi {
    if s == Sensor0 then p.(channel0 := c) else p.(channel1 := c)
  }

  function WithMedian(p: Pi, s: Sensor, m: real): Pi {
    if s == Sensor0 then p.(median0 := m) else p.(median1 := m)
  }

  function MedianOf(p: Pi, s: Sensor): real {
    if s == Sensor0 then p.median0 else p.median1
  }

  function ProducerStep(c: Channel, distance: real): Channel {
    match c.producer
    case Measuring => c.(producer := Acquiring(distance))
    case Acquiring(d) => if c.owner == Nobody then c.(owner := Producer, producer := Appending(d)) else c
    case Appending(d) => c.(list := c.list + [d], appended := c.appended + [d], producer := Releasing)
    case Releasing => c.(owner := Nobody, producer := Measuring)
  }

  function DrainStep(p: Pi): Pi
    requires Draining(p.pc)
  {
    var s := p.pc.sensor;
    var c := Of(p, s);
    match p.pc
    case AtAcquire(_) =>
      if c.owner == Nobody then With(p, s, c.(owner := Consumer)).(pc := AtLen(s)) else p
    case AtLen(_) =>
      if |c.list| > 0 then p.(pc := AtMedian(s))
      else WithMedian(With(p, s, c.(batches := c.batches + [[]])), s, NO_SAMPLE_DISTANCE).(pc := AtRelease(s))
    case AtMedian(_) =>
      if c.list == [] then p.(pc := Died(StatisticsError))
      else WithMedian(p, s, Median(c.list)).(pc := AtClear(s, c.list))
    case AtClear(_, batch) =>
      With(p, s, c.(list := [], batches := c.batches + [batch])).(pc := AtRelease(s))
    case AtRelease(_) =>
      With(p, s, c.(owner := Nobody)).(pc := if s == Sensor0 then AtAcquire(Sensor1) else AtStage1)
  }

  /** Is the next statement one of the three comparisons with the speed? */
  predicate Comparing(pc: DecisionPc) {
    pc.AtStage1? || pc.AtStage2? || pc.AtStage3?
  }

  function StageStep(p: Pi): Pi
    requires Comparing(p.pc)
  {
    var q := p.(found := p.found + [p.speed]);
    match p.pc
    case AtStage1 =>
      if p.speed < LESS_THAN_VALUE_STAGE_1 then q.(limits := Some(STAGE_1), pc := AtDecide) else q.(pc := AtStage2)
    case AtStage2 =>
      if p.speed < LESS_THAN_VALUE_STAGE_2 then q.(limits := Some(STAGE_2), pc := AtDecide) else q.(pc := AtStage3)
    case AtStage3 =>
      if p.speed < LESS_THAN_VALUE_STAGE_3 then q.(limits := Some(STAGE_3), pc := AtDecide) else q.(pc := AtDecide)
  }

  function DecideStep(p: Pi): Pi
    requires p.pc == AtDecide
  {
    match p.limits
    case None => p.(pc := Died(UnboundLocal))
    case Some(l) =>
      var z := Classify(Min(p.median0, p.median1), l.autobrake, l.collision);
      var f := Step(p.filter, z);
      p.(filter := f, zones := p.zones + [z], sent := p.sent + [Message(f.current, p.i)],
         i := if p.i >= EVENTS_ARRAY_SIZE - 1 then 0 else p.i + 1, pc := AtAcquire(Sensor0))
  }

  function Move(p: Pi, choice: Choice): Pi {
    match choice
    case Sense(s, d) => With(p, s, ProducerStep(Of(p, s), d))
    case SpeedRead(v) => p.(speed := v)
    case Decide =>
      match p.pc
      case Died(_) => p
      case AtStage1 => StageStep(p)
      case AtStage2 => StageStep(p)
      case AtStage3 => StageStep(p)
      case AtDecide => DecideStep(p)
      case _ => DrainStep(p)
  }

  function Interleave(choices: seq<Choice>): Pi {
    if choices == [] then START else Move(Interleave(choices[..|choices| - 1]), choices[|choices| - 1])
  }

  // ------------------------------------------------------------------ invariant

  /** Does the decision thread hold the lock of s? */
  predicate InSection(pc: DecisionPc, s: Sensor) {
    (pc.AtLen? || pc.AtMedian? || pc.AtClear? || pc.AtRelease?) && pc.sensor == s
  }

  predicate Draining(pc: DecisionPc) {
    pc.AtAcquire? || pc.AtLen? || pc.AtMedian? || pc.AtClear? || pc.AtRelease?
  }

  /** Has the decision thread already consumed this tick's batch of s? */
  predicate Consumed(pc: DecisionPc, s: Sensor) {
    || pc == AtRelease(s)
    || pc.AtStage1? || pc.AtStage2? || pc.AtStage3? || pc.AtDecide? || pc == Died(UnboundLocal)
    || (s == Sensor0 && Draining(pc) && pc.sensor == Sensor1)
  }

  /** Mutual exclusion, and nothing lost, repeated or reordered. */
  ghost predicate ChannelOk(c: Channel, pc: DecisionPc, s: Sensor) {
    && (c.owner == Producer <==> c.producer.Appending? || c.producer.Releasing?)
    && (c.owner == Consumer <==> InSection(pc, s))
    && Flatten(c.batches) + c.list == c.appended
    && (pc == AtMedian(s) ==> c.list != [])
    && (pc.AtClear? && pc.sensor == s ==> c.list == pc.batch && c.list != [])
  }

  ghost predicate MedianOk(p: Pi, s: Sensor) {
    var c := Of(p, s);
    && |c.batches| == |p.zones| + (if Consumed(p.pc, s) then 1 else 0)
    && (Consumed(p.pc, s) ==> MedianOf(p, s) == SensorDistance(c.batches[|p.zones|]))
    && (p.pc.AtClear? && p.pc.sensor == s ==> MedianOf(p, s) == SensorDistance(p.pc.batch))
  }

  ghost predicate ZonesOk(p: Pi) {
    && |p.zones| <= |p.channel0.batches| && |p.zones| <= |p.channel1.batches|
    && forall k :: 0 <= k < |p.zones| ==> p.zones[k] == TickZone(p.channel0.batches[k], p.channel1.batches[k])
  }

  ghost predicate DecisionOk(p: Pi) {
    && p.filter == After(p.zones)
    && p.sent == Messages(p.zones)
    && p.i == |p.zones| % EVENTS_ARRAY_SIZE
    && (p.limits.Some? ==> p.limits.value == STAGE_1)
    && (p.zones != [] ==> p.limits.Some?)
    && (p.pc.Died? ==> p.pc.error == UnboundLocal && p.zones == [])
  }

  ghost predicate PiOk(p: Pi) {
    && ChannelOk(p.channel0, p.pc, Sensor0) && ChannelOk(p.channel1, p.pc, Sensor1)
    && MedianOk(p, Sensor0) && MedianOk(p, Sensor1)
    && ZonesOk(p) && DecisionOk(p)
  }

  lemma ProducerKeepsChannel(c: Channel, pc: DecisionPc, s: Sensor, d: real)
    requires ChannelOk(c, pc, s)
    ensures ChannelOk(ProducerStep(c, d), pc, s)
    ensures ProducerStep(c, d).batches == c.batches
  {
    hide Flatten;
    if c.producer.Appending? {
      Associative(Flatten(c.batches), c.list, [c.producer.d]);
    }
  }

  lemma ProducerKeeps(p: Pi, s: Sensor, d: real)
    requires PiOk(p)
    ensures PiOk(With(p, s, ProducerStep(Of(p, s), d)))
  {
    hide SensorDistance, TickZone, After, Messages, ChannelOk, ProducerStep;
    ProducerKeepsChannel(Of(p, s), p.pc, s, d);
  }

  lemma DrainKeepsChannels(p: Pi)
    requires PiOk(p) && Draining(p.pc)
    ensures ChannelOk(DrainStep(p).channel0, DrainStep(p).pc, Sensor0)
    ensures ChannelOk(DrainStep(p).channel1, DrainStep(p).pc, Sensor1)
  {
    hide MedianOk, ZonesOk, DecisionOk, Flatten, Median;
    var c := Of(p, p.pc.sensor);
    if p.pc.AtLen? {
      FlattenSnoc(c.batches, []);
    } else if p.pc.AtClear? {
      FlattenSnoc(c.batches, p.pc.batch);
    }
  }

  lemma DrainKeepsMedians(p: Pi)
    requires PiOk(p) && Draining(p.pc)
    ensures MedianOk(DrainStep(p), Sensor0) && MedianOk(DrainStep(p), Sensor1)
  {
    hide ZonesOk, DecisionOk, Flatten, Median;
  }

  lemma DrainKeepsZones(p: Pi)
    requires PiOk(p) && Draining(p.pc)
    ensures ZonesOk(DrainStep(p)) && DecisionOk(DrainStep(p))
  {
    hide TickZone, After, Messages, Flatten, Median, SensorDistance;
  }

  lemma DecideKeepsDecision(p: Pi)
    requires PiOk(p) && p.pc == AtDecide
    ensures DecisionOk(DecideStep(p))
  {
    hide ChannelOk, MedianOk, ZonesOk, After, Classify, Step, Messages;
    match p.limits
    case None =>
    case Some(l) =>
      var z := Classify(Min(p.median0, p.median1), l.autobrake, l.collision);
      AfterSnoc(p.zones, z);
      MessagesSnoc(p.zones, z);
  }

  lemma DecideKeeps(p: Pi)
    requires PiOk(p) && p.pc == AtDecide
    ensures PiOk(DecideStep(p))
  {
    hide SensorDistance, After, Flatten, Classify, Step, Messages;
    DecideKeepsDecision(p);
  }

  /** Between the drains and the decision nothing the channels are judged by depends on the statement. */
  lemma ChannelUntouched(c: Channel, pc: DecisionPc, next: DecisionPc, s: Sensor)
    requires ChannelOk(c, pc, s) && !Draining(pc) && !Draining(next)
    ensures ChannelOk(c, next, s)
  {
  }

  lemma StageKeeps(p: Pi)
    requires PiOk(p) && Comparing(p.pc)
    ensures PiOk(StageStep(p))
  {
    hide TickZone, After, Messages, SensorDistance, ChannelOk;
    ChannelUntouched(p.channel0, p.pc, StageStep(p).pc, Sensor0);
    ChannelUntouched(p.channel1, p.pc, StageStep(p).pc, Sensor1);
  }

  lemma {:induction false} AlwaysPiOk(choices: seq<Choice>)
    ensures PiOk(Interleave(choices))
  {
    if choices != [] {
      var p, choice := Interleave(choices[..|choices| - 1]), choices[|choices| - 1];
      AlwaysPiOk(choices[..|choices| - 1]);
      MoveKeeps(p, choice);
    }
  }

  lemma MoveKeeps(p: Pi, choice: Choice)
    requires PiOk(p)
    ensures PiOk(Move(p, choice))
  {
    hide TickZone, After, Messages, Flatten, Median, DrainStep, DecideStep, StageStep, ProducerStep, SensorDistance;
    match choice
    case Sense(s, d) => ProducerKeeps(p, s, d);
    case SpeedRead(v) =>
    case Decide =>
      match p.pc
      case Died(_) =>
      case AtStage1 => StageKeeps(p);
      case AtStage2 => StageKeeps(p);
      case AtStage3 => StageKeeps(p);
      case AtDecide => DecideKeeps(p);
      case _ =>
        DrainKeepsChannels(p);
        DrainKeepsMedians(p);
        DrainKeepsZones(p);
  }

  // ------------------------------------------------------------------- theorems

  /**
   * Under every interleaving a list's two threads are never both between acquire and release, and the list the
   * decision thread is about to clear is still exactly the one it took the median of.
   */
  lemma SectionsExclusive(choices: seq<Choice>, s: Sensor)
    ensures var p := Interleave(choices); var c := Of(p, s);
            && !(InSection(p.pc, s) && (c.producer.Appending? || c.producer.Releasing?))
            && (p.pc.AtClear? && p.pc.sensor == s
                ==> c.list == p.pc.batch && c.list != [] && MedianOf(p, s) == Median(c.list))
  {
    AlwaysPiOk(choices);
  }

  /** Under every interleaving, what was consumed from a sensor followed by what is pending is what was appended. */
  lemma SamplesConserved(choices: seq<Choice>, s: Sensor)
    ensures var c := Of(Interleave(choices), s); Flatten(c.batches) + c.list == c.appended
  {
    AlwaysPiOk(choices);
  }

  /** Under every interleaving the zones, the state and the messages are those of the batches consumed. */
  lemma DecisionsFollowBatches(choices: seq<Choice>)
    ensures var p := Interleave(choices);
            && |p.zones| <= |p.channel0.batches| <= |p.zones| + 1
            && |p.zones| <= |p.channel1.batches| <= |p.zones| + 1
            && (forall k :: 0 <= k < |p.zones| ==> p.zones[k] == TickZone(p.channel0.batches[k], p.channel1.batches[k]))
            && p.filter == After(p.zones)
            && p.sent == Messages(p.zones)
  {
    AlwaysPiOk(choices);
  }

  /** Under every interleaving a tick drains sensor 0, then sensor 1, and only then compares speeds and decides. */
  lemma TickOrder(choices: seq<Choice>)
    ensures var p := Interleave(choices); var m, n := |p.channel0.batches|, |p.channel1.batches|;
            match p.pc
            case AtAcquire(s) => n == |p.zones| && m == |p.zones| + if s == Sensor1 then 1 else 0
            case AtStage1 => m == n == |p.zones| + 1
            case AtStage2 => m == n == |p.zones| + 1
            case AtStage3 => m == n == |p.zones| + 1
            case AtDecide => m == n == |p.zones| + 1
            case _ => true
  {
    AlwaysPiOk(choices);
  }

  /** The decision thread can only die in its first tick, of unset thresholds. */
  lemma OnlyFirstTickCanKill(choices: seq<Choice>)
    ensures var p := Interleave(choices); p.pc.Died? ==> p.pc.error == UnboundLocal && p.zones == []
  {
    AlwaysPiOk(choices);
  }

  /** The decision thread is alive, the speed is below 80, and thresholds are set when they are needed. */
  predicate Alive(p: Pi) {
    !p.pc.Died? && p.speed < 80.0 && (p.pc == AtDecide ==> p.limits.Some?)
  }

  lemma MoveStaysAlive(p: Pi, choice: Choice)
    requires PiOk(p) && Alive(p)
    requires choice.SpeedRead? ==> choice.speed < 80.0
    ensures Alive(Move(p, choice))
  {
    hide Median, Flatten, Step, Classify, MedianOk, ZonesOk, DecisionOk;
  }

  /** It lives for ever if no speed of 80 or more is read. */
  lemma {:induction false} SlowCarNeverKills(choices: seq<Choice>)
    requires forall k :: 0 <= k < |choices| ==> choices[k].SpeedRead? ==> choices[k].speed < 80.0
    ensures Alive(Interleave(choices))
  {
    if choices != [] {
      hide Alive, PiOk, Move;
      SlowCarNeverKills(choices[..|choices| - 1]);
      AlwaysPiOk(choices[..|choices| - 1]);
      MoveStaysAlive(Interleave(choices[..|choices| - 1]), choices[|choices| - 1]);
    }
  }

  // ------------------------------------------------------------------- death

  /** The first three comparisons, all of the first tick then, matched no stage. */
  predicate Doomed(found: seq<real>) {
    |found| >= 3 && found[0] >= 5.0 && found[1] >= 25.0 && found[2] >= 80.0
  }

  /** Some comparison of the first tick matched. */
  predicate Settled(found: seq<real>) {
    || (|found| >= 1 && found[0] < LESS_THAN_VALUE_STAGE_1)
    || (|found| >= 2 && found[1] < LESS_THAN_VALUE_STAGE_2)
    || (|found| >= 3 && found[2] < LESS_THAN_VALUE_STAGE_3)
  }

  /** How many comparisons a tick has made before this statement, if none of them matched. */
  function ComparisonsMade(pc: DecisionPc): nat {
    match pc
    case AtStage2 => 1
    case AtStage3 => 2
    case AtDecide => 3
    case Died(_) => 3
    case _ => 0
  }

  ghost predicate StagesOk(p: Pi) {
    && (p.limits.Some? <==> Settled(p.found))
    && (p.limits.None? ==> |p.found| == ComparisonsMade(p.pc))
    && (p.pc.Died? ==> p.limits.None?)
    && (var n := |p.found|;
        && (p.pc.AtStage2? ==> n >= 1 && p.found[n - 1] >= 5.0)
        && (p.pc.AtStage3? ==> n >= 2 && p.found[n - 2] >= 5.0 && p.found[n - 1] >= 25.0))
  }

  lemma DrainKeepsStages(p: Pi)
    requires PiOk(p) && StagesOk(p) && Draining(p.pc)
    ensures StagesOk(DrainStep(p))
  {
    hide Median, Flatten, MedianOk, ZonesOk, DecisionOk, Settled;
  }

  lemma MoveKeepsStages(p: Pi, choice: Choice)
    requires PiOk(p) && StagesOk(p)
    ensures StagesOk(Move(p, choice))
  {
    hide PiOk, Step, Classify, DrainStep, ProducerStep;
    if choice.Decide? && Draining(p.pc) {
      DrainKeepsStages(p);
    }
  }

  lemma {:induction false} AlwaysStagesOk(choices: seq<Choice>)
    ensures StagesOk(Interleave(choices))
  {
    if choices != [] {
      hide StagesOk, PiOk, Move;
      AlwaysStagesOk(choices[..|choices| - 1]);
      AlwaysPiOk(choices[..|choices| - 1]);
      MoveKeepsStages(Interleave(choices[..|choices| - 1]), choices[|choices| - 1]);
    } else {
      assert StagesOk(START);
    }
  }

  /** Under every interleaving a tick compares the speed with a later stage only after the earlier ones failed. */
  lemma ComparisonsStop(choices: seq<Choice>)
    ensures var p := Interleave(choices); var n := |p.found|;
            && (p.pc.AtStage2? ==> n >= 1 && p.found[n - 1] >= 5.0)
            && (p.pc.AtStage3? ==> n >= 2 && p.found[n - 2] >= 5.0 && p.found[n - 1] >= 25.0)
  {
    AlwaysStagesOk(choices);
  }

  /**
   * Under every interleaving: the decision thread has died iff it has gone on after a first tick whose three
   * comparisons found speeds of at least 5, 25 and 80, however the speed changed between them.
   */
  lemma DeathExactly(choices: seq<Choice>)
    ensures var p := Interleave(choices); p.pc.Died? <==> Doomed(p.found) && p.pc != AtDecide
  {
    AlwaysStagesOk(choices);
    AlwaysPiOk(choices);
  }

  lemma InterleaveSnoc(choices: seq<Choice>, c: Choice)
    ensures Interleave(choices + [c]) == Move(Interleave(choices), c)
  {
    hide Move;
    assert (choices + [c])[..|choices|] == choices;
  }

  /** A speed read, then only moves of the decision thread: nothing sensed, one whole tick long. */
  function HastyTick(v: real): seq<Choice> {
    [SpeedRead(v)] + seq(10, _ => Decide)
  }

  /** The Pi after n moves of the decision thread. */
  function Decides(p: Pi, n: nat): Pi
    decreases n
  {
    if n == 0 then p else Decides(Move(p, Decide), n - 1)
  }

  lemma {:induction false} DecidesMoves(choices: seq<Choice>, n: nat)
    ensures Interleave(choices + seq(n, _ => Decide)) == Decides(Interleave(choices), n)
    decreases n
  {
    hide Move, Interleave;
    var more := seq(n, _ => Decide);
    if n == 0 {
      assert choices + more == choices;
    } else {
      InterleaveSnoc(choices, Decide);
      DecidesMoves(choices + [Decide], n - 1);
      assert choices + more == choices + [Decide] + seq(n - 1, _ => Decide);
    }
  }

  /** Three moves drain an empty, free list. */
  lemma DrainsEmpty(p: Pi, s: Sensor, n: nat)
    requires p.pc == AtAcquire(s) && Of(p, s).owner == Nobody && Of(p, s).list == [] && n >= 3
    ensures var c := Of(p, s); var next := if s == Sensor0 then AtAcquire(Sensor1) else AtStage1;
            Decides(p, n) == Decides(WithMedian(With(p, s, c.(batches := c.batches + [[]])), s, NO_SAMPLE_DISTANCE)
                                     .(pc := next), n - 3)
  {
    var c := Of(p, s);
    var p1 := With(p, s, c.(owner := Consumer)).(pc := AtLen(s));
    assert Decides(p, n) == Decides(p1, n - 1);
    assert Decides(p1, n - 1) == Decides(Move(p1, Decide), n - 2);
  }

  lemma DecidesFirst(p: Pi, n: nat)
    requires n > 0
    ensures Decides(p, n) == Decides(Move(p, Decide), n - 1)
    ensures Decides(p, 0) == p && Decides(Move(p, Decide), 0) == Move(p, Decide)
  {
  }

  lemma FastComparison(p: Pi)
    requires Comparing(p.pc) && p.speed >= 80.0 && p.limits == None
    ensures var q := Move(p, Decide);
            && q.pc == (if p.pc.AtStage1? then AtStage2 else if p.pc.AtStage2? then AtStage3 else AtDecide)
            && q.speed == p.speed && q.limits == None
  {
  }

  lemma UnsetDecides(p: Pi)
    requires p.pc == AtDecide && p.limits == None
    ensures Move(p, Decide).pc == Died(UnboundLocal)
  {
  }

  /** Four moves from the first comparison kill it if no threshold is set and the speed holds still at 80 or more. */
  lemma FastStages(p: Pi)
    requires p.pc == AtStage1 && p.speed >= 80.0 && p.limits == None
    ensures Decides(p, 4).pc == Died(UnboundLocal)
  {
    hide Decides, Move;
    var p2 := Move(p, Decide);
    var p3 := Move(p2, Decide);
    var p4 := Move(p3, Decide);
    FastComparison(p);
    FastComparison(p2);
    FastComparison(p3);
    UnsetDecides(p4);
    DecidesFirst(p, 4);
    DecidesFirst(p2, 3);
    DecidesFirst(p3, 2);
    DecidesFirst(p4, 1);
  }

  /** Death is reachable: any speed of at least 80 read before the first tick kills it. */
  lemma FastStartKills(v: real)
    requires v >= 80.0
    ensures Interleave(HastyTick(v)).pc == Died(UnboundLocal)
  {
    hide Decides;
    NothingChosen();
    InterleaveSnoc([], SpeedRead(v));
    assert [] + [SpeedRead(v)] == [SpeedRead(v)];
    DecidesMoves([SpeedRead(v)], 10);
    var p := START.(speed := v);
    assert Interleave([SpeedRead(v)]) == p;
    DrainsEmpty(p, Sensor0, 10);
    var drained := IDLE.(batches := [] + [[]]);
    var q := WithMedian(With(p, Sensor0, drained), Sensor0, NO_SAMPLE_DISTANCE).(pc := AtAcquire(Sensor1));
    DrainsEmpty(q, Sensor1, 7);
    var r := WithMedian(With(q, Sensor1, drained), Sensor1, NO_SAMPLE_DISTANCE).(pc := AtStage1);
    assert Decides(q, 7) == Decides(r, 4);
    FastStages(r);
  }

  lemma NothingChosen()
    ensures Interleave([]) == START
  {
  }

  // ------------------------------------------------------- what the outside did

  /** The distances a sensor thread has measured: it takes one whenever it moves while it measures. */
  function Sensed(choices: seq<Choice>, s: Sensor): seq<real> {
    if choices == [] then [] else
      var before, c := choices[..|choices| - 1], choices[|choices| - 1];
      Sensed(before, s)
      + (if c.Sense? && c.sensor == s && Of(Interleave(before), s).producer == Measuring then [c.distance] else [])
  }

  /** The sample a sensor thread holds but has not appended yet. */
  function InFlight(c: Channel): seq<real> {
    if c.producer.Acquiring? || c.producer.Appending? then [c.producer.d] else []
  }

  lemma SampleMoves(p: Pi, choice: Choice, s: Sensor)
    requires PiOk(p)
    ensures var c, d := Of(p, s), Of(Move(p, choice), s);
            d.appended + InFlight(d)
            == c.appended + InFlight(c)
               + (if choice.Sense? && choice.sensor == s && c.producer == Measuring then [choice.distance] else [])
  {
    hide Median, Flatten, StageStep, DecideStep, MedianOk, ZonesOk, DecisionOk, ChannelOk;
    var c, d := Of(p, s), Of(Move(p, choice), s);
    if choice.Decide? {
      DecisionLeavesSamples(p, s);
    } else if choice.Sense? && choice.sensor == s && c.producer.Appending? {
      assert d.appended + InFlight(d) == c.appended + InFlight(c) + [];
    }
  }

  lemma DecisionLeavesSamples(p: Pi, s: Sensor)
    ensures Of(Move(p, Decide), s).appended == Of(p, s).appended
    ensures Of(Move(p, Decide), s).producer == Of(p, s).producer
  {
    hide Median, Classify, Step;
  }

  /** Under every interleaving no sample is invented, changed or dropped: all appended, then the one in flight. */
  lemma {:induction false} SamplesAppended(choices: seq<Choice>, s: Sensor)
    ensures var c := Of(Interleave(choices), s); c.appended + InFlight(c) == Sensed(choices, s)
  {
    hide Move, PiOk, InFlight;
    if choices == [] {
      NothingInFlight(s);
    } else {
      var before := choices[..|choices| - 1];
      SamplesAppended(before, s);
      AlwaysPiOk(before);
      SampleMoves(Interleave(before), choices[|choices| - 1], s);
    }
  }

  lemma NothingInFlight(s: Sensor)
    ensures Of(Interleave([]), s).appended + InFlight(Of(Interleave([]), s)) == []
  {
  }

  /** Under every interleaving, what was consumed and what is pending, with the sample in flight, is what was sensed. */
  lemma EverySampleCounts(choices: seq<Choice>, s: Sensor)
    ensures var c := Of(Interleave(choices), s); Flatten(c.batches) + c.list + InFlight(c) == Sensed(choices, s)
  {
    SamplesConserved(choices, s);
    SamplesAppended(choices, s);
  }

  /** A sensor thread that finds its lock free has appended its next sample after four moves and freed the lock. */
  lemma SampleArrives(choices: seq<Choice>, s: Sensor, v: real, w: real)
    requires var c := Of(Interleave(choices), s); c.producer == Measuring && c.owner == Nobody
    ensures var p := Interleave(choices);
            var q := Interleave(choices + [Sense(s, v)] + [Sense(s, w)] + [Sense(s, w)] + [Sense(s, w)]);
            && Of(q, s).list == Of(p, s).list + [v] && Of(q, s).appended == Of(p, s).appended + [v]
            && Of(q, s).producer == Measuring && Of(q, s).owner == Nobody && q.pc == p.pc
  {
    hide Interleave;
    InterleaveSnoc(choices, Sense(s, v));
    InterleaveSnoc(choices + [Sense(s, v)], Sense(s, w));
    InterleaveSnoc(choices + [Sense(s, v)] + [Sense(s, w)], Sense(s, w));
    InterleaveSnoc(choices + [Sense(s, v)] + [Sense(s, w)] + [Sense(s, w)], Sense(s, w));
  }

  /** After a drain, before the lock is released, nothing is pending. */
  ghost predicate Drained(p: Pi, s: Sensor) {
    p.pc == AtRelease(s) ==> Of(p, s).list == []
  }

  lemma MoveDrains(p: Pi, choice: Choice, s: Sensor)
    requires PiOk(p) && Drained(p, s)
    ensures Drained(Move(p, choice), s)
  {
    hide Median, Flatten, MedianOk, ZonesOk, DecisionOk, Classify, Step;
  }

  /** A tick consumes the whole list: when the decision thread is done with it, everything appended is consumed. */
  lemma DrainTakesAll(choices: seq<Choice>, s: Sensor)
    requires Interleave(choices).pc == AtRelease(s)
    ensures var c := Of(Interleave(choices), s); c.list == [] && Flatten(c.batches) == c.appended
  {
    AlwaysDrained(choices, s);
    SamplesConserved(choices, s);
  }

  lemma {:induction false} AlwaysDrained(choices: seq<Choice>, s: Sensor)
    ensures Drained(Interleave(choices), s)
  {
    if choices != [] {
      hide Move, PiOk, Drained;
      AlwaysDrained(choices[..|choices| - 1], s);
      AlwaysPiOk(choices[..|choices| - 1]);
      MoveDrains(Interleave(choices[..|choices| - 1]), choices[|choices| - 1], s);
    }
  }

  /** The speeds the Pi's reader thread has stored, in order. */
  function SpeedsRead(choices: seq<Choice>): seq<real> {
    if choices == [] then [] else
      var c := choices[|choices| - 1];
      SpeedsRead(choices[..|choices| - 1]) + (if c.SpeedRead? then [c.speed] else [])
  }

  lemma {:induction false} EachSpeedRead(choices: seq<Choice>, k: nat)
    requires k < |choices| && choices[k].SpeedRead?
    ensures choices[k].speed in SpeedsRead(choices)
  {
    if k < |choices| - 1 {
      EachSpeedRead(choices[..|choices| - 1], k);
    }
  }

  /** The speed the Pi has: the last one stored. */
  function LastSpeed(choices: seq<Choice>): real {
    var speeds := SpeedsRead(choices);
    if speeds == [] then 0.0 else speeds[|speeds| - 1]
  }

  /** The speeds found at the comparisons, told from the schedule: the last one stored before each. */
  function Compared(choices: seq<Choice>): seq<real> {
    if choices == [] then [] else
      var before, c := choices[..|choices| - 1], choices[|choices| - 1];
      Compared(before) + (if c.Decide? && Comparing(Interleave(before).pc) then [LastSpeed(before)] else [])
  }

  lemma SpeedMoves(p: Pi, c: Choice)
    ensures var q := Move(p, c);
            && q.speed == (if c.SpeedRead? then c.speed else p.speed)
            && q.found == p.found + (if c.Decide? && Comparing(p.pc) then [p.speed] else [])
  {
    hide Median, Classify, Step;
  }

  /** Under every interleaving each comparison finds the last speed stored. */
  lemma {:induction false} SpeedsFound(choices: seq<Choice>)
    ensures Interleave(choices).speed == LastSpeed(choices)
    ensures Interleave(choices).found == Compared(choices)
  {
    if choices != [] {
      hide Move;
      SpeedsFound(choices[..|choices| - 1]);
      SpeedMoves(Interleave(choices[..|choices| - 1]), choices[|choices| - 1]);
    }
  }

  lemma {:induction false} NoSpeedsRead(choices: seq<Choice>, more: seq<Choice>)
    requires forall k :: 0 <= k < |more| ==> !more[k].SpeedRead?
    ensures SpeedsRead(choices + more) == SpeedsRead(choices)
    decreases |more|
  {
    if more == [] {
      assert choices + more == choices;
    } else {
      NoSpeedsRead(choices, more[..|more| - 1]);
      assert (choices + more)[..|choices + more| - 1] == choices + more[..|more| - 1];
    }
  }

  lemma HastySpeeds(v: real)
    ensures SpeedsRead(HastyTick(v)) == [v]
  {
    NoSpeedsRead([SpeedRead(v)], seq(10, _ => Decide));
    assert SpeedsRead([SpeedRead(v)]) == SpeedsRead([SpeedRead(v)][..0]) + [v];
  }

  // ------------------------------------------------------------------- progress

  /** Who moves the tick on: the sensor thread that holds the awaited lock, else the decision thread. */
  function Helper(p: Pi): Choice {
    if p.pc.AtAcquire? && Of(p, p.pc.sensor).owner == Producer then Sense(p.pc.sensor, 0.0) else Decide
  }

  /** How many moves of such threads the tick still takes at most. */
  function MovesLeft(p: Pi): (n: nat)
    ensures n <= 18
  {
    match p.pc
    case Died(_) => 0
    case AtDecide => 1
    case AtStage3 => 2
    case AtStage2 => 3
    case AtStage1 => 4
    case AtRelease(s) => if s == Sensor1 then 5 else 12
    case AtClear(s, _) => if s == Sensor1 then 6 else 13
    case AtMedian(s) => if s == Sensor1 then 7 else 14
    case AtLen(s) => if s == Sensor1 then 8 else 15
    case AtAcquire(s) =>
      (if s == Sensor1 then 9 else 16)
      + (if Of(p, s).owner != Producer then 0 else if Of(p, s).producer.Appending? then 2 else 1)
  }

  lemma HelperHelps(p: Pi)
    requires PiOk(p) && !p.pc.Died?
    ensures var q := Move(p, Helper(p));
            || (q.zones == p.zones && (q.pc.Died? || MovesLeft(q) < MovesLeft(p)))
            || |q.zones| == |p.zones| + 1
  {
    hide MedianOk, ZonesOk, DecisionOk, Median, Classify, Step, Flatten;
  }

  /** The moves that complete the tick begun. */
  lemma {:induction false} Completion(choices: seq<Choice>) returns (more: seq<Choice>)
    requires !Interleave(choices).pc.Died?
    ensures |more| <= MovesLeft(Interleave(choices))
    ensures forall k :: 0 <= k < |more| ==> !more[k].SpeedRead?
    ensures var p, q := Interleave(choices), Interleave(choices + more);
            |q.zones| == |p.zones| + 1 || (q.pc.Died? && q.zones == p.zones)
    decreases MovesLeft(Interleave(choices))
  {
    hide Move, PiOk, MovesLeft;
    var p := Interleave(choices);
    var c := Helper(p);
    AlwaysPiOk(choices);
    HelperHelps(p);
    InterleaveSnoc(choices, c);
    var q := Move(p, c);
    if |q.zones| == |p.zones| + 1 || q.pc.Died? {
      more := [c];
      MovesLeftPositive(p);
    } else {
      var rest := Completion(choices + [c]);
      more := [c] + rest;
      assert choices + more == choices + [c] + rest;
    }
  }

  lemma MovesLeftPositive(p: Pi)
    requires !p.pc.Died?
    ensures MovesLeft(p) > 0
  {
  }

  /**
   * No deadlock: from every reachable state the tick begun is completed by at most 18 further moves of the
   * threads that hold it up, or, in the very first tick only, the decision thread dies of unset thresholds.
   */
  lemma TickCompletes(choices: seq<Choice>)
    requires !Interleave(choices).pc.Died?
    ensures exists more: seq<Choice> :: |more| <= 18 && CompletesTick(choices, more)
  {
    var more := Completion(choices);
    OnlyFirstTickCanKill(choices + more);
    assert CompletesTick(choices, more);
  }

  ghost predicate CompletesTick(choices: seq<Choice>, more: seq<Choice>) {
    var p, q := Interleave(choices), Interleave(choices + more);
    && (forall k :: 0 <= k < |more| ==> !more[k].SpeedRead?)
    && (|q.zones| == |p.zones| + 1 || (q.pc == Died(UnboundLocal) && p.zones == []))
  }
}
