/** Cardinalities of finite sets and of sequences without repetitions. */
module Sets {

  /** A set containing every index below `n` has at least `n` elements. */
  lemma {:induction false} AllBelow(s: set<nat>, n: nat)
    requires forall i: nat :: i < n ==> i in s
    ensures |s| >= n
  {
    if n > 0 { AllBelow(s - {n - 1}, n - 1); }
  }

  lemma {:induction false} Subset<T>(a: set<T>, b: set<T>)
    requires a <= b
    ensures |a| <= |b|
  {
    if x :| x in a { Subset(a - {x}, b - {x}); }
  }

  /** Disjoint sets of indexes below `n` have at most `n` elements together. */
  lemma {:induction false} Disjoint(a: set<nat>, b: set<nat>, n: nat)
    requires a !! b && forall i :: i in a || i in b ==> i < n
    ensures |a| + |b| <= n
  {
    if n == 0 {
      assert a == {} && b == {};
    } else {
      Disjoint(a - {n - 1}, b - {n - 1}, n - 1);
    }
  }

  ghost function Members<T>(s: seq<T>): set<T> {
    set x | x in s
  }

  lemma {:induction false} MembersAtMost<T>(s: seq<T>)
    ensures |Members(s)| <= |s|
  {
    if s != [] {
      MembersAtMost(s[1..]);
      assert Members(s) == {s[0]} + Members(s[1..]);
    }
  }

  ghost predicate Unrepeated<T>(s: seq<T>) {
    forall i, j :: 0 <= i < j < |s| ==> s[i] != s[j]
  }

  lemma {:induction false} MembersExactly<T>(s: seq<T>)
    requires Unrepeated(s)
    ensures |Members(s)| == |s|
  {
    if s != [] {
      MembersExactly(s[1..]);
      assert Members(s) == {s[0]} + Members(s[1..]);
      assert s[0] !in s[1..];
    }
  }

  /** A sequence without repetitions that draws from another is no longer than it. */
  lemma DrawnAtMost<T>(s: seq<T>, from: seq<T>)
    requires Unrepeated(s) && forall x :: x in s ==> x in from
    ensures |s| <= |from|
  {
    MembersExactly(s);
    MembersAtMost(from);
    Subset(Members(s), Members(from));
  }
}
