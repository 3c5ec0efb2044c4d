/**
 * The speed-dependent thresholds (ECU_RASP/main.py:29-38, 255-263). Inside the thread function both thresholds
 * are local variables: they persist when no stage matches, and reading them before any stage has matched is
 * an UnboundLocalError that ends the thread. Each comparison reads the shared speed afresh.
 */
module SpeedStages {
  import opened Sequences
  import opened FalseAlarmFilter
  import opened Distances

  datatype Limits = Limits(autobrake: real, collision: real)

  const STAGE_1 := Limits(16.0, 25.0)
  const STAGE_2 := Limits(16.0, 25.0)
  const STAGE_3 := Limits(16.0, 25.0)

  const LESS_THAN_VALUE_STAGE_1: real := 5.0
  const LESS_THAN_VALUE_STAGE_2: real := 25.0
  const LESS_THAN_VALUE_STAGE_3: real := 80.0

  /** The values of the shared speed at the three comparisons of one tick. */
  datatype Speeds = Speeds(first: real, second: real, third: real)

  function SelectLimits(limits: Option<Limits>, v: Speeds): Option<Limits> {
    if v.first < LESS_THAN_VALUE_STAGE_1 then Some(STAGE_1)
    else if v.second < LESS_THAN_VALUE_STAGE_2 then Some(STAGE_2)
    else if v.third < LESS_THAN_VALUE_STAGE_3 then Some(STAGE_3)
    else limits
  }

  datatype Tick = Tick(speeds: Speeds, distance: real)

  datatype Staged = Running(filter: Filter, limits: Option<Limits>) | UnboundLocalError

  function StagedStep(s: Staged, t: Tick): Staged {
    match s
    case UnboundLocalError => UnboundLocalError
    case Running(f, limits) =>
      match SelectLimits(limits, t.speeds)
      case None => UnboundLocalError
      case Some(l) => Running(Step(f, Classify(t.distance, l.autobrake, l.collision)), Some(l))
  }

  function StagedRun(ticks: seq<Tick>): Staged {
    if ticks == [] then Running(INITIAL, None)
    else StagedStep(StagedRun(ticks[..|ticks| - 1]), ticks[|ticks| - 1])
  }

  /** The zones under the fixed thresholds. */
  function FixedZones(ticks: seq<Tick>): (zs: seq<Zone>)
    ensures |zs| == |ticks|
  {
    seq(|ticks|, i requires 0 <= i < |ticks| => Classify(ticks[i].distance, AUTOBRAKE_DIST, COLLISION_DIST))
  }

  predicate SomeStageMatches(v: Speeds) {
    || v.first < LESS_THAN_VALUE_STAGE_1
    || v.second < LESS_THAN_VALUE_STAGE_2
    || v.third < LESS_THAN_VALUE_STAGE_3
  }

  /**
   * The staged filter equals the filter with fixed thresholds iff some stage matches in the very first
   * tick; otherwise the thread has died there.
   */
  lemma {:induction false} StagesIrrelevantExactly(ticks: seq<Tick>)
    requires ticks != []
    ensures SomeStageMatches(ticks[0].speeds)
            ==> StagedRun(ticks) == Running(After(FixedZones(ticks)), Some(STAGE_1))
    ensures !SomeStageMatches(ticks[0].speeds) ==> StagedRun(ticks) == UnboundLocalError
  {
    hide Step, Classify;
    var p, t := ticks[..|ticks| - 1], ticks[|ticks| - 1];
    var z := Classify(t.distance, AUTOBRAKE_DIST, COLLISION_DIST);
    assert FixedZones(ticks) == FixedZones(p) + [z];
    RunSnoc(INITIAL, FixedZones(p), z);
    if p == [] {
      assert StagedRun(p) == Running(INITIAL, None);
    } else {
      StagesIrrelevantExactly(p);
    }
  }

  /** With a speed that holds still during the first tick, the condition is that it is below 80. */
  lemma SteadyFirstSpeed(ticks: seq<Tick>, v: real)
    requires ticks != [] && ticks[0].speeds == Speeds(v, v, v)
    ensures StagedRun(ticks).Running? <==> v < 80.0
    ensures v < 80.0 ==> StagedRun(ticks).filter == After(FixedZones(ticks))
  {
    StagesIrrelevantExactly(ticks);
  }
}
