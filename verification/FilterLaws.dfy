/** What the false-alarm filter guarantees over whole runs (ECU_RASP/main.py:268-306). */
module FilterLaws {
  import opened Sequences
  import opened FalseAlarmFilter

  function NonZero(f: Filter): nat { Ones(f) + Twos(f) }

  // ---------------------------------------------------------------- the latch

  /** The latch may lag behind the window, but never by more than this. */
  ghost predicate LatchOk(f: Filter) {
    && (f.current == AUTOBRAKE_STATE_ID ==> NonZero(f) >= 7)
    && (f.current == PRECOLLISION_STATE_ID ==> NonZero(f) >= 5)
  }

  /** A tick moves the number of non-zero slots by at most one, in its own direction. */
  lemma StepNonZero(f: Filter, z: Zone)
    ensures z == Safe ==> NonZero(f) - 1 <= NonZero(Step(f, z)) <= NonZero(f)
    ensures z != Safe ==> NonZero(f) <= NonZero(Step(f, z)) <= NonZero(f) + 1
  {
    StepWindow(f, z);
  }

  lemma LatchKept(f: Filter, z: Zone)
    requires LatchOk(f)
    ensures LatchOk(Step(f, z))
  {
    StepNonZero(f, z);
    CountsSum(f);
  }

  /** Whole-run latch invariant. */
  lemma {:induction false} LatchInvariant(h: seq<Zone>)
    ensures LatchOk(After(h))
  {
    if h != [] {
      LatchInvariant(h[..|h| - 1]);
      LatchKept(After(h[..|h| - 1]), h[|h| - 1]);
    }
  }

  /** After a danger tick the state is AUTOBRAKE iff at least 7 of the preceding 20 ticks were not safe. */
  lemma DangerTickDecides(h: seq<Zone>)
    ensures After(h + [Danger]).current == AUTOBRAKE_STATE_ID <==> NonSafe(Recent(h)) >= 7
    ensures NonSafe(Recent(h)) < 7 ==> After(h + [Danger]).current == After(h).current
  {
    RunSnoc(INITIAL, h, Danger);
    NonZeroIsNonSafe(h);
    LatchInvariant(h);
  }

  // -------------------------------------------------------- detection latency

  /** From any state: seven non-safe ticks among the last at most twenty, then a danger tick. */
  lemma DangerAfterSevenNonSafe(f: Filter, zs: seq<Zone>)
    requires |zs| <= EVENTS_ARRAY_SIZE && NonSafe(zs) >= 7
    ensures Run(f, zs + [Danger]).current == AUTOBRAKE_STATE_ID
  {
    RunSnoc(f, zs, Danger);
    RecentTicksCounted(f, zs);
  }

  predicate All(zs: seq<Zone>, z: Zone) {
    forall i :: 0 <= i < |zs| ==> zs[i] == z
  }

  lemma {:induction false} AllOccurrences(zs: seq<Zone>, z: Zone)
    requires All(zs, z)
    ensures Occurrences(zs, z) == |zs|
    ensures z != Safe ==> NonSafe(zs) == |zs|
  {
    SameOccurrences(zs, z, zs, z);
    if zs != [] {
      AllOccurrences(zs[1..], z);
      assert zs == [zs[0]] + zs[1..];
    }
  }

  function Needed(z: Zone): nat {
    if z == Danger then 8 else 6
  }

  lemma EqualTicksFire(f: Filter, zs: seq<Zone>, z: Zone)
    requires All(zs, z) && |zs| == Needed(z) - 1
    ensures Fires(Run(f, zs), z)
  {
    RecentTicksCounted(f, zs);
    AllOccurrences(zs, z);
  }

  /** From any state, this many equal ticks in a row reach their state, and it then holds on. */
  lemma Latency(f: Filter, zs: seq<Zone>, z: Zone)
    requires All(zs, z) && |zs| >= Needed(z)
    ensures Run(f, zs).current == Target(z)
  {
    var p, cut := zs[..|zs| - 1], |zs| - Needed(z);
    assert All(p[cut..], z) && p[..cut] + p[cut..] == p;
    LastSplit(zs);
    RunSnoc(f, p, z);
    hide Run, All, Occurrences;
    EqualTicksFire(Run(f, p[..cut]), p[cut..], z);
    RunConcat(f, p[..cut], p[cut..]);
  }

  /** From power-on the latencies are exact: one tick fewer leaves the state NORMAL. */
  lemma InitialLatencyTight(zs: seq<Zone>, z: Zone)
    requires All(zs, z) && z != Safe
    ensures After(zs).current == if |zs| >= Needed(z) then Target(z) else NORMAL_STATE_ID
  {
    if |zs| >= Needed(z) {
      Latency(INITIAL, zs, z);
    } else {
      QuietStart(zs);
    }
  }

  /** The first five warning or seven danger ticks after power-on never fire. */
  lemma {:induction false} QuietStart(zs: seq<Zone>)
    requires |zs| <= 7
    requires All(zs, Danger) || (|zs| <= 5 && All(zs, Warning))
    ensures After(zs).current == NORMAL_STATE_ID
    ensures NonZero(After(zs)) <= |zs|
  {
    if zs != [] {
      QuietStart(zs[..|zs| - 1]);
      StepNonZero(After(zs[..|zs| - 1]), zs[|zs| - 1]);
    }
  }

  // ------------------------------------------------------------ bounded release

  predicate NoDanger(zs: seq<Zone>) {
    forall i :: 0 <= i < |zs| ==> zs[i] != Danger
  }

  lemma {:induction false} NoDangerLength(zs: seq<Zone>)
    requires NoDanger(zs)
    ensures |zs| == Occurrences(zs, Safe) + Occurrences(zs, Warning)
  {
    if zs != [] {
      NoDangerLength(zs[1..]);
      assert zs == [zs[0]] + zs[1..];
    }
  }

  /** From any state: AUTOBRAKE outlives at most five safe and five warning ticks, in any order. */
  lemma {:induction false} HoldBudget(f: Filter, zs: seq<Zone>)
    requires NoDanger(zs)
    requires Run(f, zs).current == AUTOBRAKE_STATE_ID
    ensures Occurrences(zs, Safe) <= 5 && Occurrences(zs, Warning) <= 5
  {
    if zs != [] {
      var p, z := zs[..|zs| - 1], zs[|zs| - 1];
      HoldBudget(f, p);
      NoDangerLength(p);
      QuietTickBudget(f, p, z);
      assert zs == p + [z];
      OccurrencesConcat(p, [z], Safe);
      OccurrencesConcat(p, [z], Warning);
    }
  }

  /** A tick that does not fire found at most four of its kind in the window. */
  lemma QuietTickBudget(f: Filter, p: seq<Zone>, z: Zone)
    requires |p| <= EVENTS_ARRAY_SIZE && z != Danger && !Fires(Run(f, p), z)
    ensures Occurrences(p, z) <= 4
  {
    RecentTicksCounted(f, p);
  }

  /** Eleven ticks without danger leave AUTOBRAKE, whatever the state before. */
  lemma BoundedRelease(f: Filter, zs: seq<Zone>)
    requires NoDanger(zs) && |zs| >= 11
    ensures Run(f, zs).current != AUTOBRAKE_STATE_ID
  {
    if Run(f, zs).current == AUTOBRAKE_STATE_ID {
      HoldBudget(f, zs);
      NoDangerLength(zs);
    }
  }

  const SATURATED := Filter(Uniform(AUTOBRAKE_STATE_ID), AUTOBRAKE_STATE_ID)

  lemma SaturatedSlots(k: nat)
    requires k <= EVENTS_ARRAY_SIZE
    ensures Occurrences(SATURATED.window[k..], 0) == 0 && Occurrences(SATURATED.window[k..], 1) == 0
  {
    var w := SATURATED.window[k..];
    assert forall i :: 0 <= i < |w| ==> w[i] == 2;
    assert 0 !in multiset(w) && 1 !in multiset(w);
  }

  /** From a saturated ring the counts are exactly those of the ticks since. */
  lemma SaturatedCounts(zs: seq<Zone>)
    requires NoDanger(zs) && |zs| <= EVENTS_ARRAY_SIZE
    ensures Zeros(Run(SATURATED, zs)) == Occurrences(zs, Safe)
    ensures Ones(Run(SATURATED, zs)) == Occurrences(zs, Warning)
  {
    hide Occurrences, Run;
    var w, es := SATURATED.window[|zs|..], Entries(SATURATED, zs);
    WindowIsSuffix(SATURATED, zs);
    assert Run(SATURATED, zs).window == w + es;
    EntryCounts(SATURATED, zs);
    assert Danger !in zs;
    SaturatedSlots(|zs|);
    OccurrencesConcat(w, es, 0);
    OccurrencesConcat(w, es, 1);
  }

  /** With a saturated ring the budget is exact: AUTOBRAKE holds iff neither count exceeds five. */
  lemma {:induction false} SaturatedHoldsExactly(zs: seq<Zone>)
    requires NoDanger(zs)
    ensures Run(SATURATED, zs).current == AUTOBRAKE_STATE_ID
            <==> Occurrences(zs, Safe) <= 5 && Occurrences(zs, Warning) <= 5
  {
    hide Occurrences, Entries;
    if Run(SATURATED, zs).current == AUTOBRAKE_STATE_ID {
      HoldBudget(SATURATED, zs);
    } else if zs != [] {
      var p, z := zs[..|zs| - 1], zs[|zs| - 1];
      SaturatedHoldsExactly(p);
      assert zs == p + [z];
      OccurrencesSnoc(p, z, Safe);
      OccurrencesSnoc(p, z, Warning);
      NoDangerLength(p);
      if Occurrences(p, Safe) <= 5 && Occurrences(p, Warning) <= 5 {
        SaturatedCounts(p);
      }
    }
  }

  lemma {:induction false} DangerKeepsSeven(f: Filter, zs: seq<Zone>)
    requires NonZero(f) >= 7 && All(zs, Danger)
    ensures NonZero(Run(f, zs)) >= 7
    ensures forall i :: 0 <= i < |zs| ==> Entries(f, zs)[i] == AUTOBRAKE_STATE_ID
  {
    if zs != [] {
      DangerKeepsSeven(f, zs[..|zs| - 1]);
      StepNonZero(Run(f, zs[..|zs| - 1]), Danger);
    }
  }

  /** The saturated ring is reachable, so ten ticks without danger may not be enough to release. */
  lemma SaturatedReachable(zs: seq<Zone>)
    requires All(zs, Danger) && |zs| == 27
    ensures After(zs) == SATURATED
  {
    hide Occurrences;
    var a, b := zs[..7], zs[7..];
    var f := After(a);
    RecentTicksCounted(INITIAL, a);
    AllOccurrences(a, Danger);
    DangerKeepsSeven(f, b);
    WindowIsSuffix(f, b);
    RunConcat(INITIAL, a, b);
    assert zs == a + b;
    assert Run(f, b).window == Entries(f, b);
    Latency(INITIAL, zs, Danger);
  }

  // -------------------------------------------------------- false-alarm immunity

  predicate EverAutobrake(h: seq<Zone>) {
    exists k :: 0 <= k <= |h| && After(h[..k]).current == AUTOBRAKE_STATE_ID
  }

  /** Tick k is a danger tick preceded by seven non-safe ticks among twenty. */
  predicate Confirmed(h: seq<Zone>, k: nat)
    requires k < |h|
  {
    h[k] == Danger && NonSafe(Recent(h[..k])) >= 7
  }

  lemma RunPrefix(h: seq<Zone>, k: nat)
    requires k < |h|
    ensures h[..k + 1] == h[..k] + [h[k]]
    ensures After(h[..k + 1]) == Step(After(h[..k]), h[k])
  {
    assert h[..k + 1] == h[..k] + [h[k]];
    RunSnoc(INITIAL, h[..k], h[k]);
  }

  lemma {:induction false} AutobrakeHasCause(h: seq<Zone>, k: nat) returns (j: nat)
    requires k <= |h| && After(h[..k]).current == AUTOBRAKE_STATE_ID
    ensures j < k && Confirmed(h, j)
  {
    assert k > 0;
    RunPrefix(h, k - 1);
    if h[k - 1] == Danger && Fires(After(h[..k - 1]), Danger) {
      NonZeroIsNonSafe(h[..k - 1]);
      j := k - 1;
    } else {
      j := AutobrakeHasCause(h, k - 1);
    }
  }

  /** AUTOBRAKE is ever entered iff some danger tick has seven non-safe ticks among the twenty before it. */
  lemma AutobrakeIffConfirmed(h: seq<Zone>)
    ensures EverAutobrake(h) <==> exists k :: 0 <= k < |h| && Confirmed(h, k)
  {
    if EverAutobrake(h) {
      var k :| 0 <= k <= |h| && After(h[..k]).current == AUTOBRAKE_STATE_ID;
      var j := AutobrakeHasCause(h, k);
    }
    if k :| 0 <= k < |h| && Confirmed(h, k) {
      DangerTickDecides(h[..k]);
      RunPrefix(h, k);
      assert After(h[..k + 1]).current == AUTOBRAKE_STATE_ID;
    }
  }

  /** No twenty consecutive ticks (the time before the start counting as safe) hold more than m non-safe ones. */
  ghost predicate AtMostIn20(h: seq<Zone>, m: nat) {
    forall k :: 0 <= k <= |h| ==> NonSafe(Recent(h[..k])) <= m
  }

  lemma SixFalseAlarmsTolerated(h: seq<Zone>)
    requires AtMostIn20(h, 6)
    ensures !EverAutobrake(h)
  {
    AutobrakeIffConfirmed(h);
  }

  /** Tick k confirms a danger or a warning. */
  predicate Alarming(h: seq<Zone>, k: nat)
    requires k < |h|
  {
    || Confirmed(h, k)
    || (h[k] == Warning && NonSafe(Recent(h[..k])) >= 5)
  }

  lemma {:induction false} CalmRun(h: seq<Zone>, n: nat)
    requires n <= |h|
    requires forall k :: 0 <= k < n ==> !Alarming(h, k)
    ensures After(h[..n]).current == NORMAL_STATE_ID
    ensures Twos(After(h[..n])) == 0
  {
    if n > 0 {
      CalmRun(h, n - 1);
      RunPrefix(h, n - 1);
      assert !Alarming(h, n - 1);
      NonZeroIsNonSafe(h[..n - 1]);
      StepWindow(After(h[..n - 1]), h[n - 1]);
    }
  }

  /** The run up to the first alarming tick is calm; that tick leaves NORMAL. */
  lemma {:induction false} FirstAlarm(h: seq<Zone>, k: nat) returns (j: nat)
    requires k < |h| && Alarming(h, k)
    ensures j < |h| && After(h[..j + 1]).current != NORMAL_STATE_ID
  {
    if i :| 0 <= i < k && Alarming(h, i) {
      j := FirstAlarm(h, i);
    } else {
      j := k;
      CalmRun(h, k);
      RunPrefix(h, k);
      NonZeroIsNonSafe(h[..k]);
    }
  }

  /** The state stays NORMAL for the whole run iff no tick is alarming. */
  lemma StaysNormalExactly(h: seq<Zone>)
    ensures (forall n :: 0 <= n <= |h| ==> After(h[..n]).current == NORMAL_STATE_ID)
            <==> (forall k :: 0 <= k < |h| ==> !Alarming(h, k))
  {
    if k :| 0 <= k < |h| && Alarming(h, k) {
      var j := FirstAlarm(h, k);
      assert After(h[..j + 1]).current != NORMAL_STATE_ID;
    } else {
      forall n | 0 <= n <= |h| ensures After(h[..n]).current == NORMAL_STATE_ID {
        CalmRun(h, n);
      }
    }
  }

  lemma FourFalseAlarmsTolerated(h: seq<Zone>, n: nat)
    requires AtMostIn20(h, 4) && n <= |h|
    ensures After(h[..n]).current == NORMAL_STATE_ID
  {
    StaysNormalExactly(h);
  }

  // --------------------------------------------------------------- closed form

  /** What tick k of a run from power-on wrote, told from the zones alone. */
  function SlotValue(h: seq<Zone>, k: nat): StateId
    requires k < |h|
  {
    if h[k] == Safe then NORMAL_STATE_ID
    else if Confirmed(h, k) then AUTOBRAKE_STATE_ID
    else PRECOLLISION_STATE_ID
  }

  lemma SlotValueOfPrefix(p: seq<Zone>, z: Zone, k: nat)
    requires k < |p|
    ensures SlotValue(p + [z], k) == SlotValue(p, k)
  {
    hide Recent, NonSafe;
    assert (p + [z])[..k] == p[..k];
  }

  lemma LastSlotValue(p: seq<Zone>, z: Zone)
    ensures Written(After(p), z) == SlotValue(p + [z], |p|)
  {
    hide After, Recent, NonSafe;
    NonZeroIsNonSafe(p);
    assert (p + [z])[..|p|] == p;
  }

  lemma {:induction false} EntryClosedForm(h: seq<Zone>, k: nat)
    requires k < |h|
    ensures Entries(INITIAL, h)[k] == SlotValue(h, k)
  {
    hide SlotValue, Entries, Written, Run;
    var p, z := h[..|h| - 1], h[|h| - 1];
    LastSplit(h);
    EntriesSnoc(INITIAL, p, z);
    if k < |p| {
      EntryClosedForm(p, k);
      SlotValueOfPrefix(p, z, k);
    } else {
      LastSlotValue(p, z);
    }
  }

  /** The ring in closed form: slot by slot, what the last twenty ticks wrote, told from the zones alone. */
  lemma WindowClosedForm(h: seq<Zone>, i: nat)
    requires i < EVENTS_ARRAY_SIZE
    ensures var k := |h| + i - EVENTS_ARRAY_SIZE;
            After(h).window[i] == if k < 0 then NORMAL_STATE_ID else SlotValue(h, k)
  {
    hide SlotValue;
    WindowIsSuffix(INITIAL, h);
    var k := |h| + i - EVENTS_ARRAY_SIZE;
    if k >= 0 {
      EntryClosedForm(h, k);
    }
  }

  /** The last twenty of k ticks hold at most k non-safe ones, and lose only the safe ticks of the run. */
  lemma RecentBounds(h: seq<Zone>, k: nat)
    requires k <= |h|
    ensures NonSafe(Recent(h[..k])) <= k
    ensures NonSafe(Recent(h[..k])) >= (if k < EVENTS_ARRAY_SIZE then k else EVENTS_ARRAY_SIZE) - Occurrences(h, Safe)
  {
    var c := if k < EVENTS_ARRAY_SIZE then 0 else k - EVENTS_ARRAY_SIZE;
    var pad := seq(EVENTS_ARRAY_SIZE - (k - c), _ => Safe);
    assert Recent(h[..k]) == pad + h[c..k];
    assert h == h[..c] + h[c..k] + h[k..];
    AllOccurrences(pad, Safe);
  }

  /** The ring told from the zones alone, from oldest to newest. */
  function RingValues(h: seq<Zone>): (r: seq<StateId>)
    ensures |r| == EVENTS_ARRAY_SIZE
  {
    seq(EVENTS_ARRAY_SIZE, i requires 0 <= i < EVENTS_ARRAY_SIZE => ClosedSlot(h, i))
  }

  function ClosedSlot(h: seq<Zone>, i: nat): StateId
    requires i < EVENTS_ARRAY_SIZE
  {
    var k := |h| + i - EVENTS_ARRAY_SIZE;
    if k < 0 then NORMAL_STATE_ID else SlotValue(h, k)
  }

  lemma RingClosedForm(h: seq<Zone>)
    ensures After(h).window == RingValues(h)
  {
    hide After, SlotValue;
    forall i | 0 <= i < EVENTS_ARRAY_SIZE ensures After(h).window[i] == RingValues(h)[i] {
      WindowClosedForm(h, i);
    }
  }

  /** A safe tick returns to NORMAL iff at most 15 of the 20 before it were not safe, and else changes nothing. */
  lemma SafeTickDecides(h: seq<Zone>)
    ensures After(h + [Safe]).current == if NonSafe(Recent(h)) <= 15 then NORMAL_STATE_ID else After(h).current
  {
    hide After, Recent, Occurrences;
    AfterSnoc(h, Safe);
    NonZeroIsNonSafe(h);
    CountsSum(After(h));
  }

  /** A warning tick gives PRECOLLISION iff five slots of the ring hold 1, and else changes nothing. */
  lemma WarningTickDecides(h: seq<Zone>)
    ensures After(h + [Warning]).current
            == if Occurrences(RingValues(h), 1) >= 5 then PRECOLLISION_STATE_ID else After(h).current
  {
    hide After, RingValues;
    AfterSnoc(h, Warning);
    RingClosedForm(h);
  }

  /** What a tick z after the history h makes of the state, told from the zones alone. */
  ghost predicate Latched(h: seq<Zone>, z: Zone, before: StateId, after: StateId) {
    match z
    case Safe => after == if NonSafe(Recent(h)) <= 15 then 0 else before
    case Warning => after == if Occurrences(RingValues(h), 1) >= 5 then 1 else before
    case Danger => after == if NonSafe(Recent(h)) >= 7 then 2 else before
  }

  lemma LatchedByStep(h: seq<Zone>, z: Zone)
    ensures Latched(h, z, After(h).current, Step(After(h), z).current)
  {
    hide Recent, RingValues, After, Step;
    AfterSnoc(h, z);
    SafeTickDecides(h);
    WarningTickDecides(h);
    DangerTickDecides(h);
  }

  /** Tick k decides the state, told from the zones up to it alone. */
  predicate Deciding(h: seq<Zone>, k: nat)
    requires k < |h|
  {
    match h[k]
    case Safe => NonSafe(Recent(h[..k])) <= 15
    case Warning => Occurrences(RingValues(h[..k]), 1) >= 5
    case Danger => NonSafe(Recent(h[..k])) >= 7
  }

  lemma TickDecides(h: seq<Zone>, k: nat)
    requires k < |h|
    ensures After(h[..k + 1]).current
            == if !Deciding(h, k) then After(h[..k]).current
               else if h[k] == Safe then 0 else if h[k] == Warning then 1 else 2
  {
    hide After, Recent, RingValues;
    assert h[..k + 1] == h[..k] + [h[k]];
    SafeTickDecides(h[..k]);
    WarningTickDecides(h[..k]);
    DangerTickDecides(h[..k]);
  }

  lemma {:induction false} NothingDecides(h: seq<Zone>, m: nat, n: nat)
    requires m <= n <= |h| && forall k :: m <= k < n ==> !Deciding(h, k)
    ensures After(h[..n]).current == After(h[..m]).current
    decreases n
  {
    hide After, Deciding;
    if m < n {
      NothingDecides(h, m, n - 1);
      TickDecides(h, n - 1);
    }
  }

  /**
   * The whole filter in closed form: the state after any run is that of the zone of the last tick that decides,
   * and NORMAL if there is none. Which ticks decide is told from the zones alone.
   */
  lemma LastDecisionCounts(h: seq<Zone>, k: nat)
    requires k <= |h| && forall j :: k <= j < |h| ==> !Deciding(h, j)
    ensures k == 0 ==> After(h).current == 0
    ensures k > 0 && Deciding(h, k - 1)
            ==> After(h).current == if h[k - 1] == Safe then 0 else if h[k - 1] == Warning then 1 else 2
  {
    hide Run, Deciding;
    NothingDecides(h, k, |h|);
    assert h[..|h|] == h;
    if k == 0 {
      QuietStart(h[..0]);
    } else {
      TickDecides(h, k - 1);
    }
  }
}
