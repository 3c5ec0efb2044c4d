/** From the samples of one tick to a zone (ECU_RASP/main.py:221-250). Distances are reals, in centimetres. */
module Distances {
  import opened FalseAlarmFilter

  /** What an empty sample list stands for. */
  const NO_SAMPLE_DISTANCE: real := 123.44

  const AUTOBRAKE_DIST: real := 16.0
  const COLLISION_DIST: real := 25.0

  function Insert(x: real, s: seq<real>): seq<real> {
    if s == [] || x <= s[0] then [x] + s else [s[0]] + Insert(x, s[1..])
  }

  function Sorted(s: seq<real>): (r: seq<real>)
    ensures |r| == |s|
  {
    if s == [] then [] else
      InsertLength(s[0], Sorted(s[1..]));
      Insert(s[0], Sorted(s[1..]))
  }

  lemma {:induction false} InsertLength(x: real, s: seq<real>)
    ensures |Insert(x, s)| == |s| + 1
  {
    if s != [] {
      InsertLength(x, s[1..]);
    }
  }

  /** Python's `statistics.median` of a non-empty list. */
  function Median(samples: seq<real>): real
    requires samples != []
  {
    var s, n := Sorted(samples), |samples|;
    if n % 2 == 1 then s[n / 2] else (s[n / 2 - 1] + s[n / 2]) / 2.0
  }

  function SensorDistance(samples: seq<real>): real {
    if samples == [] then NO_SAMPLE_DISTANCE else Median(samples)
  }

  function Min(a: real, b: real): real {
    if b < a then b else a
  }

  function Classify(distance: real, autobrakeDist: real, collisionDist: real): Zone {
    if distance < autobrakeDist then Danger
    else if distance < collisionDist then Warning
    else Safe
  }

  /** The zone of a tick that drained these two sample lists. */
  function TickZone(samples0: seq<real>, samples1: seq<real>): Zone {
    Classify(Min(SensorDistance(samples0), SensorDistance(samples1)), AUTOBRAKE_DIST, COLLISION_DIST)
  }

  // ------------------------------------------------------- order statistics

  predicate Ascending(s: seq<real>) {
    forall i, j :: 0 <= i <= j < |s| ==> s[i] <= s[j]
  }

  /** How many samples lie below t. */
  function Below(s: seq<real>, t: real): (n: nat)
    ensures n <= |s|
  {
    if s == [] then 0 else (if s[0] < t then 1 else 0) + Below(s[1..], t)
  }

  lemma {:induction false} InsertMultiset(x: real, s: seq<real>)
    ensures multiset(Insert(x, s)) == multiset{x} + multiset(s)
  {
    if s != [] && x > s[0] {
      InsertMultiset(x, s[1..]);
      assert s == [s[0]] + s[1..];
    }
  }

  lemma {:induction false} InsertAscending(x: real, s: seq<real>)
    requires Ascending(s)
    ensures Ascending(Insert(x, s))
  {
    if s != [] && x > s[0] {
      InsertAscending(x, s[1..]);
      InsertLowerBound(x, s[1..], s[0]);
    }
  }

  lemma {:induction false} InsertLowerBound(x: real, s: seq<real>, low: real)
    requires low <= x && forall i :: 0 <= i < |s| ==> low <= s[i]
    ensures forall i :: 0 <= i < |Insert(x, s)| ==> low <= Insert(x, s)[i]
  {
    if s != [] && x > s[0] {
      InsertLowerBound(x, s[1..], low);
    }
  }

  lemma {:induction false} SortedAscending(s: seq<real>)
    ensures Ascending(Sorted(s))
    ensures multiset(Sorted(s)) == multiset(s)
  {
    if s != [] {
      SortedAscending(s[1..]);
      InsertAscending(s[0], Sorted(s[1..]));
      InsertMultiset(s[0], Sorted(s[1..]));
      assert s == [s[0]] + s[1..];
    }
  }

  lemma {:induction false} InsertBelow(x: real, s: seq<real>, t: real)
    ensures Below(Insert(x, s), t) == Below([x] + s, t)
  {
    assert ([x] + s)[1..] == s;
    if s != [] && x > s[0] {
      InsertBelow(x, s[1..], t);
      assert Insert(x, s)[1..] == Insert(x, s[1..]);
      assert ([x] + s[1..])[1..] == s[1..];
    }
  }

  lemma {:induction false} SortedBelow(s: seq<real>, t: real)
    ensures Below(Sorted(s), t) == Below(s, t)
  {
    if s != [] {
      SortedBelow(s[1..], t);
      InsertBelow(s[0], Sorted(s[1..]), t);
      assert ([s[0]] + Sorted(s[1..]))[1..] == Sorted(s[1..]);
    }
  }

  /** In ascending order exactly the first Below(s, t) elements lie below t. */
  lemma {:induction false} AscendingBelow(s: seq<real>, t: real, i: nat)
    requires Ascending(s) && i < |s|
    ensures s[i] < t <==> i < Below(s, t)
  {
    if i > 0 {
      AscendingBelow(s[1..], t, i - 1);
      if s[0] >= t {
        NoneBelow(s[1..], t);
      }
    } else if s[0] >= t {
      NoneBelow(s[1..], t);
    }
  }

  lemma {:induction false} NoneBelow(s: seq<real>, t: real)
    requires forall i :: 0 <= i < |s| ==> s[i] >= t
    ensures Below(s, t) == 0
  {
    if s != [] {
      NoneBelow(s[1..], t);
    }
  }

  /** The median depends only on which samples there are, not on the order they came in. */
  lemma MedianOrderFree(a: seq<real>, b: seq<real>)
    requires a != [] && multiset(a) == multiset(b)
    ensures b != [] && Median(a) == Median(b)
  {
    SortedAscending(a);
    SortedAscending(b);
    assert |multiset(a)| == |a| && |multiset(b)| == |b|;
    AscendingUnique(Sorted(a), Sorted(b));
  }

  lemma TailMultiset(a: seq<real>)
    requires a != []
    ensures multiset(a[1..]) == multiset(a) - multiset{a[0]}
  {
    assert a == [a[0]] + a[1..];
  }

  lemma AscendingHead(a: seq<real>, b: seq<real>)
    requires Ascending(a) && Ascending(b) && multiset(a) == multiset(b) && a != [] && b != []
    ensures a[0] == b[0]
  {
    assert a[0] in multiset(b) && b[0] in multiset(a);
  }

  lemma {:induction false} AscendingUnique(a: seq<real>, b: seq<real>)
    requires Ascending(a) && Ascending(b) && multiset(a) == multiset(b)
    ensures a == b
  {
    assert |multiset(a)| == |a| && |multiset(b)| == |b|;
    if a != [] {
      AscendingHead(a, b);
      TailMultiset(a);
      TailMultiset(b);
      AscendingUnique(a[1..], b[1..]);
      assert a == [a[0]] + a[1..] && b == [b[0]] + b[1..];
    }
  }

  /**
   * The order-statistic bound. For an odd number of samples the median lies below t iff more than half of
   * them do; for an even number more than half suffices and at least half is necessary.
   */
  lemma MedianBelow(s: seq<real>, t: real)
    requires s != []
    ensures 2 * Below(s, t) > |s| ==> Median(s) < t
    ensures Median(s) < t ==> 2 * Below(s, t) >= |s|
    ensures |s| % 2 == 1 ==> (Median(s) < t <==> 2 * Below(s, t) > |s|)
  {
    var r, n := Sorted(s), |s|;
    SortedAscending(s);
    SortedBelow(s, t);
    AscendingBelow(r, t, n / 2);
    if n % 2 == 0 {
      AscendingBelow(r, t, n / 2 - 1);
    }
  }

  /** x is a sample with exactly k samples before it in ascending order, said without sorting. */
  ghost predicate HasRank(s: seq<real>, x: real, k: nat) {
    x in s && Below(s, x) <= k && forall t: real :: x < t ==> Below(s, t) > k
  }

  lemma SortedRank(s: seq<real>, k: nat)
    requires k < |s|
    ensures HasRank(s, Sorted(s)[k], k)
  {
    var r, x := Sorted(s), Sorted(s)[k];
    SortedAscending(s);
    assert x in multiset(r);
    forall t: real ensures Below(s, t) > k <==> x < t {
      SortedBelow(s, t);
      AscendingBelow(r, t, k);
    }
  }

  /** m lies halfway between the samples of ranks i and j. */
  ghost predicate HalfwayBetween(s: seq<real>, m: real, i: nat, j: nat) {
    exists lo, hi :: HasRank(s, lo, i) && HasRank(s, hi, j) && m - lo == hi - m
  }

  /** The median is the sample of middle rank, or lies halfway between the two samples of middle ranks. */
  lemma MedianIsMiddle(s: seq<real>)
    requires s != []
    ensures |s| % 2 == 1 ==> HasRank(s, Median(s), |s| / 2)
    ensures |s| % 2 == 0 ==> HalfwayBetween(s, Median(s), |s| / 2 - 1, |s| / 2)
  {
    hide HasRank;
    var k := |s| / 2;
    SortedRank(s, k);
    if |s| % 2 == 0 {
      SortedRank(s, k - 1);
      assert Median(s) - Sorted(s)[k - 1] == Sorted(s)[k] - Median(s);
    }
  }

  // ------------------------------------------------------------ zone of a tick

  /** The distance decided on is one of the two and not above either. */
  lemma MinIsLeast(a: real, b: real)
    ensures Min(a, b) == a || Min(a, b) == b
    ensures Min(a, b) <= a && Min(a, b) <= b
  {
  }

  /** The zone of a tick: what some sensor that has samples puts its median below; silent sensors never alarm. */
  lemma TickZoneExactly(samples0: seq<real>, samples1: seq<real>)
    ensures TickZone(samples0, samples1) == Danger
            <==> (samples0 != [] && Median(samples0) < 16.0) || (samples1 != [] && Median(samples1) < 16.0)
    ensures TickZone(samples0, samples1) != Safe
            <==> (samples0 != [] && Median(samples0) < 25.0) || (samples1 != [] && Median(samples1) < 25.0)
  {
    hide Median;
  }

  predicate MajorityBelow(samples: seq<real>, t: real) {
    2 * Below(samples, t) > |samples|
  }

  predicate HalfBelow(samples: seq<real>, t: real) {
    samples != [] && 2 * Below(samples, t) >= |samples|
  }

  /** A majority of close samples at one sensor decides the zone from above, whatever the other reports. */
  lemma MajorityDecides(samples0: seq<real>, samples1: seq<real>)
    ensures MajorityBelow(samples0, AUTOBRAKE_DIST) || MajorityBelow(samples1, AUTOBRAKE_DIST)
            ==> TickZone(samples0, samples1) == Danger
    ensures MajorityBelow(samples0, COLLISION_DIST) || MajorityBelow(samples1, COLLISION_DIST)
            ==> TickZone(samples0, samples1) != Safe
  {
    if samples0 != [] {
      MedianBelow(samples0, AUTOBRAKE_DIST);
      MedianBelow(samples0, COLLISION_DIST);
    }
    if samples1 != [] {
      MedianBelow(samples1, AUTOBRAKE_DIST);
      MedianBelow(samples1, COLLISION_DIST);
    }
  }

  /** Conversely a tick that is not safe has a live sensor with half its samples below the limit of that zone. */
  lemma ZoneHasCause(samples0: seq<real>, samples1: seq<real>)
    ensures TickZone(samples0, samples1) == Danger
            ==> HalfBelow(samples0, AUTOBRAKE_DIST) || HalfBelow(samples1, AUTOBRAKE_DIST)
    ensures TickZone(samples0, samples1) != Safe
            ==> HalfBelow(samples0, COLLISION_DIST) || HalfBelow(samples1, COLLISION_DIST)
  {
    if samples0 != [] {
      MedianBelow(samples0, AUTOBRAKE_DIST);
      MedianBelow(samples0, COLLISION_DIST);
    }
    if samples1 != [] {
      MedianBelow(samples1, AUTOBRAKE_DIST);
      MedianBelow(samples1, COLLISION_DIST);
    }
  }
}
