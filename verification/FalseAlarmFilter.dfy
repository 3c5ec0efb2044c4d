/**
 * The false-alarm filter of the decision thread as a pure function of the zone
 * history (ECU_RASP/main.py, get_median_distances_thread). The ring of the last
 * twenty slots appears here as a window read from oldest to newest.
 */
module FalseAlarmFilter {
  import opened Sequences

  const NORMAL_STATE_ID: StateId := 0
  const PRECOLLISION_STATE_ID: StateId := 1
  const AUTOBRAKE_STATE_ID: StateId := 2

  const EVENTS_ARRAY_SIZE: nat := 20
  const COUNT_AUTOBRAKE_FALSE_ALARM: nat := 6
  const COUNT_PRECOLLISION_FALSE_ALARM: nat := 4
  const COUNT_NORMAL_FALSE_ALARM: nat := 4

  type StateId = n: int | 0 <= n <= 2
  type Window = w: seq<StateId> | |w| == EVENTS_ARRAY_SIZE witness seq(EVENTS_ARRAY_SIZE, _ => 0)

  /** What one tick saw: the zone the measured distance falls into. */
  datatype Zone = Safe | Warning | Danger

  /** Every value of this type is a well-formed state, reachable or not. */
  datatype Filter = Filter(window: Window, current: StateId)

  /** The window whose twenty slots all hold x. */
  function Uniform(x: StateId): (w: Window)
    ensures forall i :: 0 <= i < EVENTS_ARRAY_SIZE ==> w[i] == x
  {
    seq(EVENTS_ARRAY_SIZE, _ => x)
  }

  const INITIAL := Filter(Uniform(NORMAL_STATE_ID), NORMAL_STATE_ID)

  function Zeros(f: Filter): nat { Occurrences(f.window, NORMAL_STATE_ID) }
  function Ones(f: Filter): nat { Occurrences(f.window, PRECOLLISION_STATE_ID) }
  function Twos(f: Filter): nat { Occurrences(f.window, AUTOBRAKE_STATE_ID) }

  /** Does this tick change the latched state? */
  predicate Fires(f: Filter, z: Zone) {
    match z
    case Danger => Ones(f) + Twos(f) > COUNT_AUTOBRAKE_FALSE_ALARM
    case Warning => Ones(f) > COUNT_PRECOLLISION_FALSE_ALARM
    case Safe => Zeros(f) > COUNT_NORMAL_FALSE_ALARM
  }

  /** The state a firing tick latches. */
  function Target(z: Zone): StateId {
    match z
    case Danger => AUTOBRAKE_STATE_ID
    case Warning => PRECOLLISION_STATE_ID
    case Safe => NORMAL_STATE_ID
  }

  /** The value written into the slot: a danger tick that does not fire is kept as a warning. */
  function Written(f: Filter, z: Zone): StateId {
    if z.Danger? && !Fires(f, z) then PRECOLLISION_STATE_ID else Target(z)
  }

  function Step(f: Filter, z: Zone): Filter {
    Filter(f.window[1..] + [Written(f, z)], if Fires(f, z) then Target(z) else f.current)
  }

  /** The filter after the ticks zs, started in f. */
  function Run(f: Filter, zs: seq<Zone>): Filter {
    if zs == [] then f else Step(Run(f, zs[..|zs| - 1]), zs[|zs| - 1])
  }

  /** The filter after the history h since power-on. */
  function After(h: seq<Zone>): Filter {
    Run(INITIAL, h)
  }

  /** The values written by the ticks zs, in order. */
  function Entries(f: Filter, zs: seq<Zone>): (es: seq<StateId>)
    ensures |es| == |zs|
  {
    if zs == [] then []
    else Entries(f, zs[..|zs| - 1]) + [Written(Run(f, zs[..|zs| - 1]), zs[|zs| - 1])]
  }

  /** The last twenty ticks of a run from INITIAL; ticks before the start count as safe. */
  function Recent(h: seq<Zone>): (r: seq<Zone>)
    ensures |r| == EVENTS_ARRAY_SIZE
  {
    (seq(EVENTS_ARRAY_SIZE, _ => Safe) + h)[|h|..]
  }

  function NonSafe(zs: seq<Zone>): int {
    |zs| - Occurrences(zs, Safe)
  }

  lemma RunSnoc(f: Filter, zs: seq<Zone>, z: Zone)
    ensures Run(f, zs + [z]) == Step(Run(f, zs), z)
  {
    hide Step;
    assert (zs + [z])[..|zs|] == zs;
  }

  lemma AfterSnoc(h: seq<Zone>, z: Zone)
    ensures After(h + [z]) == Step(After(h), z)
  {
    RunSnoc(INITIAL, h, z);
  }

  lemma EntriesSnoc(f: Filter, zs: seq<Zone>, z: Zone)
    ensures Entries(f, zs + [z]) == Entries(f, zs) + [Written(Run(f, zs), z)]
  {
    hide Step, Written, Run;
    assert (zs + [z])[..|zs|] == zs;
  }

  lemma {:induction false} RunConcat(f: Filter, a: seq<Zone>, b: seq<Zone>)
    ensures Run(f, a + b) == Run(Run(f, a), b)
    decreases |b|
  {
    hide Step;
    if b == [] {
      assert a + b == a;
    } else {
      var c, z := b[..|b| - 1], b[|b| - 1];
      RunConcat(f, a, c);
      RunSnoc(f, a + c, z);
      RunSnoc(Run(f, a), c, z);
      assert b == c + [z] && a + b == (a + c) + [z];
    }
  }

  /** The three counts cover the window. */
  lemma {:induction false} SlotCounts(w: seq<StateId>)
    ensures Occurrences(w, 0) + Occurrences(w, 1) + Occurrences(w, 2) == |w|
  {
    if w != [] {
      SlotCounts(w[1..]);
      assert w == [w[0]] + w[1..];
    }
  }

  lemma CountsSum(f: Filter)
    ensures Zeros(f) + Ones(f) + Twos(f) == EVENTS_ARRAY_SIZE
  {
    SlotCounts(f.window);
  }

  lemma StepWindow(f: Filter, z: Zone)
    ensures multiset(Step(f, z).window) == multiset(f.window) - multiset{f.window[0]} + multiset{Written(f, z)}
  {
    SlideOccurrences(f.window, Written(f, z));
  }

  /** The window is the last twenty entries of the starting window followed by everything written since. */
  lemma {:induction false} WindowIsSuffix(f: Filter, zs: seq<Zone>)
    ensures Run(f, zs).window == (f.window + Entries(f, zs))[|zs|..]
  {
    hide Written, Fires, Target;
    if zs != [] {
      var p, z := zs[..|zs| - 1], zs[|zs| - 1];
      WindowIsSuffix(f, p);
      var e := Written(Run(f, p), z);
      assert f.window + Entries(f, zs) == (f.window + Entries(f, p)) + [e];
      assert (f.window + Entries(f, zs))[|zs|..] == (f.window + Entries(f, p))[|p|..][1..] + [e];
    }
  }

  /** What is written tells safe ticks from the others; only warnings and quiet dangers write 1. */
  lemma {:induction false} EntriesMatchZones(f: Filter, zs: seq<Zone>)
    ensures forall i :: 0 <= i < |zs| ==> (Entries(f, zs)[i] == 0 <==> zs[i] == Safe)
    ensures forall i :: 0 <= i < |zs| ==> zs[i] == Warning ==> Entries(f, zs)[i] == 1
  {
    if zs != [] {
      EntriesMatchZones(f, zs[..|zs| - 1]);
    }
  }

  /** Slot by slot, zero in the window means a safe tick: whichever of 1 or 2 was written. */
  lemma {:induction false} WindowMatchesRecent(h: seq<Zone>)
    ensures forall i :: 0 <= i < EVENTS_ARRAY_SIZE ==> (After(h).window[i] == 0 <==> Recent(h)[i] == Safe)
  {
    hide Run, Entries;
    WindowIsSuffix(INITIAL, h);
    EntriesMatchZones(INITIAL, h);
  }

  /** The number of non-zero slots is the number of non-safe ticks among the last twenty. */
  lemma NonZeroIsNonSafe(h: seq<Zone>)
    ensures Ones(After(h)) + Twos(After(h)) == NonSafe(Recent(h))
  {
    var f := After(h);
    WindowMatchesRecent(h);
    SameOccurrences(f.window, 0, Recent(h), Safe);
    CountsSum(f);
  }

  /** The written values count the ticks: safe ones exactly, warnings at least, and exactly without danger ticks. */
  ghost predicate CountsMatch(es: seq<StateId>, zs: seq<Zone>) {
    && Occurrences(es, 0) == Occurrences(zs, Safe)
    && Occurrences(es, 1) >= Occurrences(zs, Warning)
    && (Danger !in zs ==> Occurrences(es, 1) == Occurrences(zs, Warning))
  }

  lemma CountsMatchSnoc(es: seq<StateId>, zs: seq<Zone>, e: StateId, z: Zone)
    requires CountsMatch(es, zs)
    requires (e == 0 <==> z == Safe) && (z == Warning ==> e == 1)
    ensures CountsMatch(es + [e], zs + [z])
  {
    hide Occurrences;
    OccurrencesSnoc(zs, z, Safe);
    OccurrencesSnoc(zs, z, Warning);
    OccurrencesSnoc(es, e, 0);
    OccurrencesSnoc(es, e, 1);
    assert Danger !in zs + [z] ==> Danger !in zs && z != Danger;
  }

  lemma EntryCountsSnoc(f: Filter, p: seq<Zone>, z: Zone)
    requires CountsMatch(Entries(f, p), p)
    ensures CountsMatch(Entries(f, p + [z]), p + [z])
  {
    hide Entries, Run, CountsMatch;
    EntriesSnoc(f, p, z);
    CountsMatchSnoc(Entries(f, p), p, Written(Run(f, p), z), z);
  }

  lemma {:induction false} EntryCounts(f: Filter, zs: seq<Zone>)
    ensures CountsMatch(Entries(f, zs), zs)
  {
    if zs == [] {
      assert Entries(f, zs) == [];
    } else {
      var p, z := zs[..|zs| - 1], zs[|zs| - 1];
      EntryCounts(f, p);
      EntryCountsSnoc(f, p, z);
      LastSplit(zs);
    }
  }

  /** From any state, up to twenty recent ticks are all still counted. */
  lemma RecentTicksCounted(f: Filter, zs: seq<Zone>)
    requires |zs| <= EVENTS_ARRAY_SIZE
    ensures Zeros(Run(f, zs)) >= Occurrences(zs, Safe)
    ensures Ones(Run(f, zs)) >= Occurrences(zs, Warning)
    ensures Ones(Run(f, zs)) + Twos(Run(f, zs)) >= NonSafe(zs)
  {
    var es := Entries(f, zs);
    WindowIsSuffix(f, zs);
    assert Run(f, zs).window == f.window[|zs|..] + es;
    EntryCounts(f, zs);
    SlotCounts(es);
    SlotCounts(f.window[|zs|..]);
  }
}
