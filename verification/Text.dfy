/** Joining strings with a separator, taking them apart again, hexadecimal digits, and maps over
 sequences. */
module Text {

  /** The text does not contain the separator. */
  predicate Free(s: string, sep: char) {
    sep !in s
  }

  /** A hexadecimal digit of either case. */
  predicate IsHex(c: char) {
    '0' <= c <= '9' || 'a' <= c <= 'f' || 'A' <= c <= 'F'
  }

  function HexValue(c: char): (v: nat)
    requires IsHex(c)
    ensures v < 16
  {
    if '0' <= c <= '9' then (c as int) - ('0' as int)
    else if 'a' <= c <= 'f' then (c as int) - ('a' as int) + 10
    else (c as int) - ('A' as int) + 10
  }

  function Join(parts: seq<string>, sep: char): string {
    if parts == [] then "" else if |parts| == 1 then parts[0] else parts[0] + [sep] + Join(parts[1..], sep)
  }

  /** Where the first separator is, both sides agree. */
  lemma {:induction false} CutFirst(x: string, s: string, y: string, t: string, sep: char)
    requires Free(x, sep) && Free(y, sep) && x + [sep] + s == y + [sep] + t
    ensures x == y && s == t
  {
    if x == [] || y == [] {
      assert (x + [sep] + s)[0] == (y + [sep] + t)[0];
      assert x == [] && y == [];
      assert s == (x + [sep] + s)[1..] == (y + [sep] + t)[1..] == t;
    } else {
      assert x[0] == (x + [sep] + s)[0] == (y + [sep] + t)[0] == y[0];
      assert (x + [sep] + s)[1..] == x[1..] + [sep] + s;
      assert (y + [sep] + t)[1..] == y[1..] + [sep] + t;
      CutFirst(x[1..], s, y[1..], t, sep);
    }
  }

  /** Where the last separator is, both sides agree. */
  lemma CutLast(x: string, s: string, y: string, t: string, sep: char)
    requires Free(s, sep) && Free(t, sep) && x + [sep] + s == y + [sep] + t
    ensures x == y && s == t
  {
    var a, b := x + [sep] + s, y + [sep] + t;
    assert a[|x|] == sep && b[|y|] == sep;
    assert forall i :: |x| < i < |a| ==> a[i] == s[i - |x| - 1];
    assert forall i :: |y| < i < |b| ==> b[i] == t[i - |y| - 1];
    assert |x| == |y|;
    assert x == a[..|x|] == b[..|y|] == y;
    assert s == a[|x| + 1..] == b[|y| + 1..] == t;
  }

  ghost predicate Joinable(parts: seq<string>, sep: char) {
    forall i :: 0 <= i < |parts| ==> parts[i] != "" && Free(parts[i], sep)
  }

  lemma JoinHasSep(parts: seq<string>, sep: char)
    requires |parts| > 1
    ensures sep in Join(parts, sep)
  {
    assert Join(parts, sep)[|parts[0]|] == sep;
  }

  /** Joining non-empty, separator-free parts is injective. */
  lemma {:induction false} JoinInjective(a: seq<string>, b: seq<string>, sep: char)
    requires Joinable(a, sep) && Joinable(b, sep) && Join(a, sep) == Join(b, sep)
    ensures a == b
  {
    if |a| > 1 { JoinHasSep(a, sep); }
    if |b| > 1 { JoinHasSep(b, sep); }
    assert |a| > 1 <==> |b| > 1;
    if |a| > 1 {
      CutFirst(a[0], Join(a[1..], sep), b[0], Join(b[1..], sep), sep);
      JoinInjective(a[1..], b[1..], sep);
      assert a == [a[0]] + a[1..] && b == [b[0]] + b[1..];
    }
  }

  lemma {:induction false} JoinFree(parts: seq<string>, sep: char, c: char)
    requires c != sep && forall i :: 0 <= i < |parts| ==> Free(parts[i], c)
    ensures Free(Join(parts, sep), c)
  {
    if |parts| > 1 { JoinFree(parts[1..], sep, c); }
  }

  // ---- Maps and sums over sequences ----

  function Map<X, Y>(f: X -> Y, s: seq<X>): (r: seq<Y>)
    ensures |r| == |s| && forall i :: 0 <= i < |s| ==> r[i] == f(s[i])
  {
    if s == [] then [] else [f(s[0])] + Map(f, s[1..])
  }

  ghost function Sum<X, Y>(h: X -> multiset<Y>, s: seq<X>): multiset<Y> {
    if s == [] then multiset{} else h(s[0]) + Sum(h, s[1..])
  }

  lemma {:induction false} SumSplit<X, Y>(h: X -> multiset<Y>, s: seq<X>, i: nat)
    requires i < |s|
    ensures Sum(h, s) == h(s[i]) + Sum(h, s[..i] + s[i + 1..])
  {
    if i > 0 {
      SumSplit(h, s[1..], i - 1);
      assert (s[..i] + s[i + 1..])[1..] == s[1..][..i - 1] + s[1..][i..];
    } else {
      assert s[..0] + s[1..] == s[1..];
    }
  }

  lemma {:induction false} MapSplit<X, Y>(f: X -> Y, s: seq<X>, i: nat)
    requires i < |s|
    ensures multiset(Map(f, s)) == multiset{f(s[i])} + multiset(Map(f, s[..i] + s[i + 1..]))
  {
    var rest := s[..i] + s[i + 1..];
    var m := Map(f, s);
    assert m == m[..i] + [m[i]] + m[i + 1..];
    assert Map(f, rest) == m[..i] + m[i + 1..];
  }

  lemma FindKey<X, K>(f: X -> K, b: seq<X>, k: K) returns (i: nat)
    requires k in multiset(Map(f, b))
    ensures i < |b| && f(b[i]) == k
  {
    i :| i < |b| && Map(f, b)[i] == k;
  }

  /** The first function's values determine the second's, across the two sequences. */
  ghost predicate Determines<X(!new), K, L>(f: X -> K, h: X -> L, a: seq<X>, b: seq<X>) {
    forall x, y :: x in a && y in b && f(x) == f(y) ==> h(x) == h(y)
  }

  lemma DeterminesRest<X(!new), K, L>(f: X -> K, h: X -> L, a: seq<X>, b: seq<X>, i: nat)
    requires Determines(f, h, a, b) && a != [] && i < |b|
    ensures Determines(f, h, a[1..], b[..i] + b[i + 1..])
  {
    assert forall x :: x in a[1..] ==> x in a;
    assert forall y :: y in b[..i] + b[i + 1..] ==> y in b;
  }

  lemma Cancel<K>(k: K, a: multiset<K>, b: multiset<K>)
    requires multiset{k} + a == multiset{k} + b
    ensures a == b
  {
    assert a == (multiset{k} + a) - multiset{k};
    assert b == (multiset{k} + b) - multiset{k};
  }

  /** A sum depends only on what the key function tells apart. */
  lemma {:induction false} SumByKey<X(!new), K, Y>(f: X -> K, h: X -> multiset<Y>, a: seq<X>, b: seq<X>)
    requires multiset(Map(f, a)) == multiset(Map(f, b)) && Determines(f, h, a, b)
    ensures Sum(h, a) == Sum(h, b)
  {
    assert |multiset(Map(f, a))| == |multiset(Map(f, b))|;
    if a != [] {
      MapSplit(f, a, 0);
      var i := FindKey(f, b, f(a[0]));
      var tail, rest := a[1..], b[..i] + b[i + 1..];
      assert a[..0] + a[1..] == tail;
      MapSplit(f, b, i);
      Cancel(f(a[0]), multiset(Map(f, tail)), multiset(Map(f, rest)));
      DeterminesRest(f, h, a, b, i);
      SumByKey(f, h, tail, rest);
      SumSplit(h, b, i);
      assert h(a[0]) == h(b[i]);
    }
  }

  lemma {:induction false} SumOfSingles<X, K>(g: X -> K, s: seq<X>)
    ensures Sum((x: X) => multiset{g(x)}, s) == multiset(Map(g, s))
  {
    var h := (x: X) => multiset{g(x)};
    if s != [] {
      SumOfSingles(g, s[1..]);
      MapSplit(g, s, 0);
      assert s[..0] + s[1..] == s[1..];
      assert Sum(h, s) == h(s[0]) + Sum(h, s[1..]);
    }
  }

  /** If one key determines the other, equal multisets of the one give equal multisets of the other. */
  lemma MultisetByKey<X(!new), K, L>(f: X -> K, g: X -> L, a: seq<X>, b: seq<X>)
    requires multiset(Map(f, a)) == multiset(Map(f, b)) && Determines(f, g, a, b)
    ensures multiset(Map(g, a)) == multiset(Map(g, b))
  {
    SumByKey(f, (x: X) => multiset{g(x)}, a, b);
    SumOfSingles(g, a);
    SumOfSingles(g, b);
  }
}
