/** How often things occur in lists. */
module Counting {
  function Without<T>(s: seq<T>, k: nat): seq<T>
    requires k < |s|
  {
    s[..k] + s[k + 1..]
  }

  function One(b: bool): nat {
    if b then 1 else 0
  }

  /** How often `x` occurs. */
  function Occ<T(==)>(s: seq<T>, x: T): nat {
    if s == [] then 0 else Occ(s[..|s| - 1], x) + One(s[|s| - 1] == x)
  }

  lemma {:induction false} OccMore<T>(s: seq<T>, y: T, x: T)
    ensures Occ(s + [y], x) == Occ(s, x) + One(y == x)
  {
    assert (s + [y])[..|s|] == s;
  }

  lemma {:induction false} OccPlus<T>(s: seq<T>, r: seq<T>, x: T)
    ensures Occ(s + r, x) == Occ(s, x) + Occ(r, x)
  {
    if r == [] {
      assert s + r == s;
    } else {
      var m := |r| - 1;
      OccPlus(s, r[..m], x);
      assert (s + r)[..|s + r| - 1] == s + r[..m];
    }
  }

  lemma {:induction false} OccWithout<T>(s: seq<T>, k: nat, x: T)
    requires k < |s|
    ensures Occ(Without(s, k), x) + One(s[k] == x) == Occ(s, x)
  {
    OccPlus(s[..k], s[k + 1..], x);
    OccPlus(s[..k + 1], s[k + 1..], x);
    assert s[..k + 1] + s[k + 1..] == s;
    assert s[..k + 1][..k] == s[..k];
  }

  lemma {:induction false} OccHead<T>(s: seq<T>, x: T)
    requires s != []
    ensures Occ(s[1..], x) + One(s[0] == x) == Occ(s, x)
  {
    OccWithout(s, 0, x);
    assert Without(s, 0) == s[1..];
  }

  lemma {:induction false} OccMember<T>(s: seq<T>, k: nat)
    requires k < |s|
    ensures Occ(s, s[k]) > 0
  {
    OccWithout(s, k, s[k]);
  }

  lemma {:induction false} Absent<T>(s: seq<T>, x: T)
    requires x !in s
    ensures Occ(s, x) == 0
  {
    if s == [] {
    } else {
      Absent(s[..|s| - 1], x);
    }
  }

  lemma {:induction false} Present<T>(s: seq<T>, x: T)
    requires x in s
    ensures Occ(s, x) > 0
  {
    var k :| 0 <= k < |s| && s[k] == x;
    OccMember(s, k);
  }

  /** No two places hold the same thing. */
  ghost predicate Distinct<T(!new)>(s: seq<T>) {
    forall i, j :: 0 <= i < j < |s| ==> s[i] != s[j]
  }

  lemma {:induction false} DistinctAt<T(!new)>(s: seq<T>, i: nat, j: nat)
    requires Distinct(s) && i < j < |s|
    ensures s[i] != s[j]
  {
  }

  lemma {:induction false} OnceMeansDistinct<T>(s: seq<T>, i: nat, j: nat)
    requires i < j < |s| && Occ(s, s[i]) <= 1
    ensures s[i] != s[j]
  {
    OccWithout(s, j, s[i]);
    OccWithout(Without(s, j), i, s[i]);
    assert Without(s, j)[i] == s[i];
  }

  /** A list without repetitions is as long as the set of its members is large. */
  lemma {:induction false} SizeOfSet<T>(s: seq<T>, members: set<T>)
    requires forall i, j :: 0 <= i < j < |s| ==> s[i] != s[j]
    requires forall x :: x in s <==> x in members
    ensures |s| == |members|
  {
    if s == [] {
      assert members == {};
    } else {
      var n := |s| - 1;
      assert s == s[..n] + [s[n]];
      assert s[n] !in s[..n];
      SizeOfSet(s[..n], members - {s[n]});
    }
  }
}
