/**
 * When does a more dangerous run lead to a higher state? Two runs are compared tick by tick; what decides is which
 * pairs of zones (milder, more dangerous) may stand side by side (ECU_RASP/main.py:268-306).
 */
module Monotonicity {
  import opened Sequences
  import opened FalseAlarmFilter
  import opened FilterLaws

  function Severity(z: Zone): nat {
    match z case Safe => 0 case Warning => 1 case Danger => 2
  }

  /** b is pointwise at least as dangerous as a. */
  predicate Milder(a: seq<Zone>, b: seq<Zone>) {
    |a| == |b| && forall i :: 0 <= i < |a| ==> Severity(a[i]) <= Severity(b[i])
  }

  lemma MilderRecent(a: seq<Zone>, b: seq<Zone>)
    requires Milder(a, b)
    ensures NonSafe(Recent(a)) <= NonSafe(Recent(b))
  {
    FewerOccurrences(Recent(a), Recent(b), Safe);
  }

  predicate EndsIn(h: seq<Zone>, z: Zone) {
    h != [] && h[|h| - 1] == z
  }

  /** If the more dangerous run ends in a danger tick it brakes whenever the milder one does, however that ends. */
  lemma DangerEndMonotone(a: seq<Zone>, b: seq<Zone>)
    requires Milder(a, b) && EndsIn(b, Danger)
    requires After(a).current == AUTOBRAKE_STATE_ID
    ensures After(b).current == AUTOBRAKE_STATE_ID
  {
    hide Run, Recent;
    var p, q, z := a[..|a| - 1], b[..|b| - 1], a[|a| - 1];
    LastSplit(a);
    LastSplit(b);
    AfterSnoc(p, z);
    LatchInvariant(p);
    NonZeroIsNonSafe(p);
    MilderRecent(p, q);
    DangerTickDecides(q);
  }

  /** Over whole runs no danger restriction is needed: a more dangerous run never misses a braking. */
  lemma EverAutobrakeMonotone(a: seq<Zone>, b: seq<Zone>)
    requires Milder(a, b) && EverAutobrake(a)
    ensures EverAutobrake(b)
  {
    AutobrakeIffConfirmed(a);
    var k :| 0 <= k < |a| && Confirmed(a, k);
    MilderRecent(a[..k], b[..k]);
    assert Severity(a[k]) <= Severity(b[k]);
    assert Confirmed(b, k);
    AutobrakeIffConfirmed(b);
  }

  /** The state itself is not monotone: six warnings reach PRECOLLISION, six dangers stay NORMAL. */
  lemma StateNotMonotone()
    ensures exists a, b :: Milder(a, b) && After(a).current > After(b).current
  {
    var a, b := seq(6, _ => Warning), seq(6, _ => Danger);
    InitialLatencyTight(a, Warning);
    InitialLatencyTight(b, Danger);
    assert Milder(a, b);
  }

  /** After a saturated ring: four ticks y, two warning ticks and a tick z hold AUTOBRAKE iff y is safe. */
  lemma SaturatedThenSeven(d: seq<Zone>, t: seq<Zone>, w: seq<Zone>, y: Zone, z: Zone)
    requires All(d, Danger) && |d| == 27
    requires y != Danger && All(t, y) && |t| == 4 && All(w, Warning) && |w| == 2 && z != Danger
    ensures After(d + (t + w + [z])).current == AUTOBRAKE_STATE_ID <==> y == Safe
  {
    hide Occurrences, Run;
    SaturatedReachable(d);
    RunConcat(INITIAL, d, t + w + [z]);
    SaturatedHoldsExactly(t + w + [z]);
    AllOccurrences(t, y);
    AllOccurrences(w, Warning);
    NoDangerLength(t);
    NoDangerLength(w);
    forall x ensures Occurrences(t + w + [z], x)
                     == Occurrences(t, x) + Occurrences(w, x) + (if z == x then 1 else 0) {
      OccurrencesConcat(t, w, x);
      OccurrencesSnoc(t + w, z, x);
    }
  }

  /** Whichever other zone the more dangerous run ends in, there are runs in which it has left AUTOBRAKE already. */
  lemma AutobrakeNotMonotone(z: Zone)
    requires z != Danger
    ensures exists a, b :: Milder(a, b) && EndsIn(b, z)
                        && After(a).current == AUTOBRAKE_STATE_ID && After(b).current != AUTOBRAKE_STATE_ID
  {
    var d, s := seq(27, _ => Danger), seq(4, _ => Safe);
    var v, w := seq(4, _ => Warning), seq(2, _ => Warning);
    SaturatedThenSeven(d, s, w, Safe, z);
    SaturatedThenSeven(d, v, w, Warning, z);
    var a, b := d + (s + w + [z]), d + (v + w + [z]);
    assert Milder(a, b) && EndsIn(b, z);
  }

  /** Over all pairs of runs whose more dangerous one ends in z, being in AUTOBRAKE is monotone iff z is Danger. */
  lemma AutobrakeByLastZone(z: Zone)
    ensures (forall a, b :: Milder(a, b) && EndsIn(b, z) && After(a).current == AUTOBRAKE_STATE_ID
                            ==> After(b).current == AUTOBRAKE_STATE_ID)
            <==> z == Danger
  {
    hide After, Milder;
    if z == Danger {
      forall a, b | Milder(a, b) && EndsIn(b, z) && After(a).current == AUTOBRAKE_STATE_ID
        ensures After(b).current == AUTOBRAKE_STATE_ID
      {
        DangerEndMonotone(a, b);
      }
    } else {
      AutobrakeNotMonotone(z);
    }
  }

  // ------------------------------------------------------- which pairs of ticks

  /** Pairs (milder, more dangerous) of zones that may stand at the same tick of two runs. */
  type Pairs = set<(Zone, Zone)>

  ghost predicate Ordered(P: Pairs) {
    forall p :: p in P ==> Severity(p.0) <= Severity(p.1)
  }

  ghost predicate Over(P: Pairs, a: seq<Zone>, b: seq<Zone>) {
    |a| == |b| && forall i :: 0 <= i < |a| ==> (a[i], b[i]) in P
  }

  /** The pairs that let a release of AUTOBRAKE come earlier in the more dangerous run. */
  predicate ReleasesEarlier(P: Pairs) {
    || ((Safe, Warning) in P && (Danger, Danger) in P)
    || ((Safe, Danger) in P && (Warning, Warning) in P && (Danger, Danger) in P)
  }

  /** Over these pairs the more dangerous run can be out of AUTOBRAKE while the milder one is in it. */
  ghost predicate AutobrakeLost(P: Pairs) {
    exists a, b :: Over(P, a, b) && After(a).current == AUTOBRAKE_STATE_ID && After(b).current != AUTOBRAKE_STATE_ID
  }

  lemma OverMilder(P: Pairs, a: seq<Zone>, b: seq<Zone>)
    requires Ordered(P) && Over(P, a, b)
    ensures Milder(a, b)
  {
    forall i | 0 <= i < |a| ensures Severity(a[i]) <= Severity(b[i]) {
      assert (a[i], b[i]) in P;
    }
  }

  lemma OverPrefix(P: Pairs, a: seq<Zone>, b: seq<Zone>, k: nat)
    requires Ordered(P) && Over(P, a, b) && k <= |a|
    ensures Over(P, a[..k], b[..k]) && Milder(a[..k], b[..k])
  {
    OverMilder(P, a[..k], b[..k]);
  }

  lemma MilderZeros(a: seq<Zone>, b: seq<Zone>)
    requires Milder(a, b)
    ensures Zeros(After(b)) <= Zeros(After(a))
  {
    hide After, Recent, Occurrences;
    MilderRecent(a, b);
    NonZeroIsNonSafe(a);
    NonZeroIsNonSafe(b);
    CountsSum(After(a));
    CountsSum(After(b));
  }

  lemma AutobrakeNeedsDanger(a: seq<Zone>)
    requires After(a).current == AUTOBRAKE_STATE_ID
    ensures exists k :: 0 <= k < |a| && a[k] == Danger
  {
    assert a[..|a|] == a;
    var j := AutobrakeHasCause(a, |a|);
  }

  /** With the same safe ticks, a slot the more dangerous run writes 1 into gets a 1 in the milder one too. */
  lemma SameSafeOnes(P: Pairs, a: seq<Zone>, b: seq<Zone>)
    requires Ordered(P) && Over(P, a, b) && (Safe, Warning) !in P && (Safe, Danger) !in P
    ensures Ones(After(b)) <= Ones(After(a))
  {
    hide After, Recent, Occurrences;
    forall i | 0 <= i < EVENTS_ARRAY_SIZE ensures After(b).window[i] == 1 ==> After(a).window[i] == 1 {
      WindowClosedForm(a, i);
      WindowClosedForm(b, i);
      var k := |a| + i - EVENTS_ARRAY_SIZE;
      if k >= 0 {
        assert (a[k], b[k]) in P;
        OverPrefix(P, a, b, k);
        MilderRecent(a[..k], b[..k]);
      }
    }
    FewerOccurrences(After(a).window, After(b).window, 1);
  }

  lemma AutobrakeBeforeQuiet(p: seq<Zone>, z: Zone)
    requires After(p + [z]).current == AUTOBRAKE_STATE_ID && z != Danger
    ensures After(p).current == AUTOBRAKE_STATE_ID
  {
    AfterSnoc(p, z);
  }

  /** A tick without danger that leaves f in AUTOBRAKE leaves g there, if g counts no more of what could release. */
  lemma QuietTickKeeps(f: Filter, g: Filter, y: Zone, z: Zone)
    requires g.current == AUTOBRAKE_STATE_ID == Step(f, y).current
    requires z != Danger && Severity(y) <= Severity(z) && !(y == Safe && z == Warning)
    requires z == Safe ==> Zeros(g) <= Zeros(f)
    requires z == Warning ==> Ones(g) <= Ones(f)
    ensures Step(g, z).current == AUTOBRAKE_STATE_ID
  {
    hide Occurrences;
  }

  lemma QuietTickKeepsOver(P: Pairs, p: seq<Zone>, q: seq<Zone>, y: Zone, z: Zone)
    requires Ordered(P) && Over(P, p, q) && !ReleasesEarlier(P)
    requires (Danger, Danger) in P && (y, z) in P && z != Danger
    requires After(p + [y]).current == AUTOBRAKE_STATE_ID && After(q).current == AUTOBRAKE_STATE_ID
    ensures After(q + [z]).current == AUTOBRAKE_STATE_ID
  {
    hide After, Step, Recent, Occurrences;
    AfterSnoc(p, y);
    AfterSnoc(q, z);
    if z == Safe {
      OverMilder(P, p, q);
      MilderZeros(p, q);
    } else {
      SameSafeOnes(P, p, q);
    }
    QuietTickKeeps(After(p), After(q), y, z);
  }

  /** Without those pairs the more dangerous run is in AUTOBRAKE whenever the milder one is. */
  lemma {:induction false} AutobrakeMonotoneOver(P: Pairs, a: seq<Zone>, b: seq<Zone>)
    requires Ordered(P) && Over(P, a, b) && !ReleasesEarlier(P)
    requires After(a).current == AUTOBRAKE_STATE_ID
    ensures After(b).current == AUTOBRAKE_STATE_ID
  {
    hide After, ReleasesEarlier;
    AutobrakeNeedsDanger(a);
    var k :| 0 <= k < |a| && a[k] == Danger;
    assert (a[k], b[k]) in P;
    var n := |a| - 1;
    var p, q := a[..n], b[..n];
    LastSplit(a);
    LastSplit(b);
    OverPrefix(P, a, b, n);
    assert (a[n], b[n]) in P;
    if b[n] == Danger {
      OverMilder(P, a, b);
      DangerEndMonotone(a, b);
    } else {
      AutobrakeBeforeQuiet(p, a[n]);
      AutobrakeMonotoneOver(P, p, q);
      QuietTickKeepsOver(P, p, q, a[n], b[n]);
    }
  }

  lemma {:induction false} PrecollisionNeedsWarning(a: seq<Zone>)
    requires After(a).current == PRECOLLISION_STATE_ID
    ensures exists k :: 0 <= k < |a| && a[k] == Warning
  {
    var p, z := a[..|a| - 1], a[|a| - 1];
    LastSplit(a);
    AfterSnoc(p, z);
    if z == Warning {
      assert a[|a| - 1] == Warning;
    } else {
      PrecollisionNeedsWarning(p);
      var k :| 0 <= k < |p| && p[k] == Warning;
      assert a[k] == Warning;
    }
  }

  /** Without danger in the milder run, if its warnings stay warnings, the more dangerous one writes 1 there too. */
  lemma WarningsKept(P: Pairs, a: seq<Zone>, b: seq<Zone>)
    requires Ordered(P) && Over(P, a, b) && (Danger, Danger) !in P && (Warning, Danger) !in P
    ensures Ones(After(a)) <= Ones(After(b))
  {
    hide After, Recent, Occurrences;
    forall i | 0 <= i < EVENTS_ARRAY_SIZE ensures After(a).window[i] == 1 ==> After(b).window[i] == 1 {
      WindowClosedForm(a, i);
      WindowClosedForm(b, i);
      var k := |a| + i - EVENTS_ARRAY_SIZE;
      if k >= 0 {
        assert (a[k], b[k]) in P;
      }
    }
    FewerOccurrences(After(b).window, After(a).window, 1);
  }

  lemma {:induction false} AlarmKept(P: Pairs, a: seq<Zone>, b: seq<Zone>)
    requires Ordered(P) && Over(P, a, b) && (Danger, Danger) !in P && (Warning, Danger) !in P
    requires After(a).current != NORMAL_STATE_ID
    ensures After(b).current != NORMAL_STATE_ID
  {
    assert a != [];
    hide Run, Recent, Occurrences;
    var n := |a| - 1;
    var p, q := a[..n], b[..n];
    LastSplit(a);
    LastSplit(b);
    OverPrefix(P, a, b, n);
    AfterSnoc(p, a[n]);
    AfterSnoc(q, b[n]);
    assert (a[n], b[n]) in P;
    WarningsKept(P, p, q);
    MilderZeros(p, q);
    if After(p).current != NORMAL_STATE_ID {
      AlarmKept(P, p, q);
    }
  }

  /** If moreover no warning is raised to a danger, the state of the more dangerous run is never lower. */
  lemma StateMonotoneOver(P: Pairs, a: seq<Zone>, b: seq<Zone>)
    requires Ordered(P) && Over(P, a, b) && !ReleasesEarlier(P) && (Warning, Danger) !in P
    ensures After(a).current <= After(b).current
  {
    hide After;
    if After(a).current == AUTOBRAKE_STATE_ID {
      AutobrakeMonotoneOver(P, a, b);
    } else if After(a).current == PRECOLLISION_STATE_ID {
      if (Danger, Danger) !in P {
        AlarmKept(P, a, b);
      } else {
        PrecollisionNeedsWarning(a);
        var k :| 0 <= k < |a| && a[k] == Warning;
        assert (a[k], b[k]) in P;
        assert a == b by {
          forall i | 0 <= i < |a| ensures a[i] == b[i] {
            assert (a[i], b[i]) in P;
          }
        }
      }
    }
  }

  /** Without danger ticks the state is monotone at every time. */
  lemma NoDangerStateMonotone(a: seq<Zone>, b: seq<Zone>)
    requires Milder(a, b) && NoDanger(b)
    ensures After(a).current <= After(b).current
  {
    var P: Pairs := {(Safe, Safe), (Safe, Warning), (Warning, Warning)};
    forall i | 0 <= i < |a| ensures (a[i], b[i]) in P {
      assert Severity(a[i]) <= Severity(b[i]) && b[i] != Danger;
    }
    StateMonotoneOver(P, a, b);
  }

  // ------------------------------------------------------------------ witnesses

  /** Sixteen danger ticks leave at least five 1s and four 0s in the ring. */
  lemma SixteenDangers(d: seq<Zone>)
    requires All(d, Danger) && |d| == 16
    ensures After(d).current == AUTOBRAKE_STATE_ID && Ones(After(d)) >= 5 && Zeros(After(d)) <= 4
  {
    hide Occurrences, Recent;
    Latency(INITIAL, d, Danger);
    AllOccurrences(d, Danger);
    assert d[..16] == d;
    RecentBounds(d, 16);
    NonZeroIsNonSafe(d);
    CountsSum(After(d));
    forall i | 4 <= i < 11 ensures After(d).window[i] == 1 {
      WindowClosedForm(d, i);
      RecentBounds(d, i - 4);
    }
    RangeOccurrences(After(d).window, 4, 11, 1);
  }

  /** After those a warning tick releases, a safe one does not. */
  lemma WarningReleasesFirst(P: Pairs)
    requires (Safe, Warning) in P && (Danger, Danger) in P
    ensures AutobrakeLost(P)
  {
    hide After;
    var d := seq(16, _ => Danger);
    SixteenDangers(d);
    AfterSnoc(d, Safe);
    AfterSnoc(d, Warning);
    assert Over(P, d + [Safe], d + [Warning]);
  }

  /** Three warnings, two ticks y, three warnings, then danger. */
  function Interrupted(y: Zone): (h: seq<Zone>)
    ensures |h| == 23
  {
    seq(3, _ => Warning) + seq(2, _ => y) + seq(3, _ => Warning) + seq(15, _ => Danger)
  }

  lemma InterruptedSafe()
    ensures After(Interrupted(Safe)).current == AUTOBRAKE_STATE_ID && Ones(After(Interrupted(Safe))) <= 4
  {
    var h := Interrupted(Safe);
    OutsideOccurrences(h, 3, 5, Safe);
    RecentBounds(h, 22);
    DangerTickDecides(h[..22]);
    LastSplit(h);
    forall i | 0 <= i < EVENTS_ARRAY_SIZE && After(h).window[i] == 1 ensures 2 <= i < 6 {
      WindowClosedForm(h, i);
      RecentBounds(h, i + 3);
    }
    OutsideOccurrences(After(h).window, 2, 6, 1);
  }

  lemma InterruptedDanger()
    ensures Ones(After(Interrupted(Danger))) >= 5
  {
    var h := Interrupted(Danger);
    forall i | 0 <= i < 5 ensures After(h).window[i] == 1 {
      WindowClosedForm(h, i);
      RecentBounds(h, i + 3);
    }
    RangeOccurrences(After(h).window, 0, 5, 1);
  }

  /** Two dangers in the place of safe ticks leave 1s in the ring that a later warning tick counts. */
  lemma QuietDangersRelease(P: Pairs)
    requires (Safe, Danger) in P && (Warning, Warning) in P && (Danger, Danger) in P
    ensures AutobrakeLost(P)
  {
    hide After;
    var a, b := Interrupted(Safe), Interrupted(Danger);
    InterruptedSafe();
    InterruptedDanger();
    AfterSnoc(a, Warning);
    AfterSnoc(b, Warning);
    assert Over(P, a + [Warning], b + [Warning]);
  }

  /** Over which pairs of ticks AUTOBRAKE is monotone at every time. */
  lemma AutobrakeMonotoneExactly(P: Pairs)
    requires Ordered(P)
    ensures (forall a, b :: Over(P, a, b) && After(a).current == AUTOBRAKE_STATE_ID
                            ==> After(b).current == AUTOBRAKE_STATE_ID)
            <==> !ReleasesEarlier(P)
  {
    hide After, Over;
    if ReleasesEarlier(P) {
      if (Safe, Warning) in P {
        WarningReleasesFirst(P);
      } else {
        QuietDangersRelease(P);
      }
    } else {
      forall a, b | Over(P, a, b) && After(a).current == AUTOBRAKE_STATE_ID
        ensures After(b).current == AUTOBRAKE_STATE_ID
      {
        AutobrakeMonotoneOver(P, a, b);
      }
    }
  }

  /** Over which pairs of ticks the state itself is monotone at every time. */
  lemma StateMonotoneExactly(P: Pairs)
    requires Ordered(P)
    ensures (forall a, b :: Over(P, a, b) ==> After(a).current <= After(b).current)
            <==> (Warning, Danger) !in P && !ReleasesEarlier(P)
  {
    hide After;
    if (Warning, Danger) in P {
      var a, b := seq(6, _ => Warning), seq(6, _ => Danger);
      InitialLatencyTight(a, Warning);
      InitialLatencyTight(b, Danger);
      assert Over(P, a, b);
    } else if ReleasesEarlier(P) {
      AutobrakeMonotoneExactly(P);
    } else {
      forall a, b | Over(P, a, b) ensures After(a).current <= After(b).current {
        StateMonotoneOver(P, a, b);
      }
    }
  }
}
