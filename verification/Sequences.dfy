/** Small facts about sequences that the other modules share. */
module Sequences {

  datatype Option<+T> = None | Some(value: T)

  /** Number of occurrences, as Python's `list.count`. */
  function Occurrences<T(==)>(s: seq<T>, x: T): nat {
    multiset(s)[x]
  }

  function Flatten<T>(ss: seq<seq<T>>): seq<T> {
    if ss == [] then [] else ss[0] + Flatten(ss[1..])
  }

  lemma Associative<T>(a: seq<T>, b: seq<T>, c: seq<T>)
    ensures a + (b + c) == (a + b) + c
  {
  }

  lemma {:induction false} FlattenConcat<T>(a: seq<seq<T>>, b: seq<seq<T>>)
    ensures Flatten(a + b) == Flatten(a) + Flatten(b)
  {
    if a == [] {
      assert a + b == b;
    } else {
      FlattenConcat(a[1..], b);
      assert (a + b)[0] == a[0] && (a + b)[1..] == a[1..] + b;
      Associative(a[0], Flatten(a[1..]), Flatten(b));
    }
  }

  lemma FlattenSnoc<T>(ss: seq<seq<T>>, s: seq<T>)
    ensures Flatten(ss + [s]) == Flatten(ss) + s
  {
    FlattenConcat(ss, [s]);
    assert Flatten([s]) == s + Flatten([s][1..]);
  }

  /** The first element of part i stands where the parts before it end. */
  lemma FlattenHead<T>(ss: seq<seq<T>>, i: nat)
    requires i < |ss| && ss[i] != []
    ensures |Flatten(ss[..i])| < |Flatten(ss)|
    ensures Flatten(ss)[|Flatten(ss[..i])|] == ss[i][0]
  {
    assert ss == ss[..i] + ss[i..];
    FlattenConcat(ss[..i], ss[i..]);
  }

  /** Sliding a window by one drops its first element and takes in the new one. */
  lemma SlideOccurrences<T>(w: seq<T>, e: T)
    requires |w| > 0
    ensures multiset(w[1..] + [e]) == multiset(w) - multiset{w[0]} + multiset{e}
  {
    assert w == [w[0]] + w[1..];
  }

  lemma OccurrencesConcat<T>(a: seq<T>, b: seq<T>, x: T)
    ensures Occurrences(a + b, x) == Occurrences(a, x) + Occurrences(b, x)
  {
  }

  lemma OccurrencesSnoc<T>(s: seq<T>, e: T, x: T)
    ensures Occurrences(s + [e], x) == Occurrences(s, x) + (if e == x then 1 else 0)
  {
  }

  lemma LastSplit<T>(s: seq<T>)
    requires s != []
    ensures s[..|s| - 1] + [s[|s| - 1]] == s
  {
  }

  /** Rotating a list changes no count. */
  lemma RotationOccurrences<T>(s: seq<T>, i: nat)
    requires i <= |s|
    ensures multiset(s[i..] + s[..i]) == multiset(s)
  {
    assert s == s[..i] + s[i..];
  }

  /** If x stands in a exactly where y stands in b, both occur equally often. */
  lemma {:induction false} SameOccurrences<S, T>(a: seq<S>, x: S, b: seq<T>, y: T)
    requires |a| == |b|
    requires forall i :: 0 <= i < |a| ==> (a[i] == x <==> b[i] == y)
    ensures Occurrences(a, x) == Occurrences(b, y)
  {
    if a != [] {
      SameOccurrences(a[1..], x, b[1..], y);
      assert a == [a[0]] + a[1..] && b == [b[0]] + b[1..];
    }
  }

  /** If y stands in b only where x stands in a, it occurs at most as often. */
  lemma {:induction false} FewerOccurrences<T>(a: seq<T>, b: seq<T>, x: T)
    requires |a| == |b|
    requires forall i :: 0 <= i < |a| ==> b[i] == x ==> a[i] == x
    ensures Occurrences(b, x) <= Occurrences(a, x)
  {
    if a != [] {
      FewerOccurrences(a[1..], b[1..], x);
      assert a == [a[0]] + a[1..] && b == [b[0]] + b[1..];
    }
  }

  /** x fills the places lo to hi. */
  lemma RangeOccurrences<T>(s: seq<T>, lo: nat, hi: nat, x: T)
    requires lo <= hi <= |s|
    requires forall i :: lo <= i < hi ==> s[i] == x
    ensures Occurrences(s, x) >= hi - lo
  {
    if lo < hi {
      RangeOccurrences(s[..hi - 1], lo, hi - 1, x);
      assert s == s[..hi - 1] + [s[hi - 1]] + s[hi..];
    }
  }

  /** x stands at places lo to hi at most. */
  lemma OutsideOccurrences<T>(s: seq<T>, lo: nat, hi: nat, x: T)
    requires lo <= hi <= |s|
    requires forall i :: 0 <= i < |s| && s[i] == x ==> lo <= i < hi
    ensures Occurrences(s, x) <= hi - lo
  {
    if lo == hi {
      assert x !in s;
    } else {
      var t := s[..hi - 1];
      OutsideOccurrences(t, lo, hi - 1, x);
      assert s == t + [s[hi - 1]] + s[hi..];
      assert x !in s[hi..];
    }
  }
}
