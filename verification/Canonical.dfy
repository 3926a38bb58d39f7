/**
 Signature Version 4 canonical forms: percent-encoding and the canonical query string.
 A string is a sequence of bytes, one character per byte.
 */
module Canonical {
  import opened Text
  import Lex
  import Sorting

  // ---- Percent-encoding ----

  ghost predicate ByteString(s: string) {
    forall i :: 0 <= i < |s| ==> s[i] as int < 256
  }

  /** The unreserved characters of section 2.3 of RFC 3986. */
  predicate Unreserved(c: char) {
    'A' <= c <= 'Z' || 'a' <= c <= 'z' || '0' <= c <= '9' || c == '-' || c == '_' || c == '.' || c == '~'
  }

  predicate IsUpperHex(c: char) {
    '0' <= c <= '9' || 'A' <= c <= 'F'
  }

  function UpperHex(d: nat): (c: char)
    requires d < 16
    ensures IsUpperHex(c) && IsHex(c) && HexValue(c) == d
  {
    if d < 10 then (('0' as int) + d) as char else (('A' as int) + d - 10) as char
  }

  predicate Kept(c: char, encodeSlash: bool) {
    Unreserved(c) || (c == '/' && !encodeSlash)
  }

  function EncodeChar(c: char, encodeSlash: bool): string
    requires c as int < 256
  {
    if Kept(c, encodeSlash) then [c] else ['%', UpperHex(c as int / 16), UpperHex(c as int % 16)]
  }

  function Encode(s: string, encodeSlash: bool): string
    requires ByteString(s)
  {
    if s == [] then [] else EncodeChar(s[0], encodeSlash) + Encode(s[1..], encodeSlash)
  }

  /** Percent-decoding, as section 2.1 of RFC 3986 defines it. */
  function Decode(s: string): string {
    if s == [] then []
    else if s[0] == '%' && |s| >= 3 && IsHex(s[1]) && IsHex(s[2]) then
      [(HexValue(s[1]) * 16 + HexValue(s[2])) as char] + Decode(s[3..])
    else [s[0]] + Decode(s[1..])
  }

  lemma EncodeStep(s: string, encodeSlash: bool, i: nat, r: string)
    requires ByteString(s) && i < |s|
    ensures r + Encode(s[i..], encodeSlash) == r + EncodeChar(s[i], encodeSlash) + Encode(s[i + 1..], encodeSlash)
  {
    assert s[i..][1..] == s[i + 1..];
  }

  method AwsUriEncode(s: string, encodeSlash: bool) returns (r: string)
    requires ByteString(s)
    ensures r == Encode(s, encodeSlash)
  {
    r := [];
    for i := 0 to |s|
      invariant r + Encode(s[i..], encodeSlash) == Encode(s, encodeSlash)
    {
      var c := s[i];
      EncodeStep(s, encodeSlash, i, r);
      if Unreserved(c) || (c == '/' && !encodeSlash) {
        r := r + [c];
      } else {
        r := r + ['%', UpperHex(c as int / 16), UpperHex(c as int % 16)];
      }
    }
  }

  lemma DecodeChar(c: char, encodeSlash: bool, rest: string)
    requires c as int < 256
    ensures Decode(EncodeChar(c, encodeSlash) + rest) == [c] + Decode(rest)
  {
    var e := EncodeChar(c, encodeSlash) + rest;
    if Kept(c, encodeSlash) {
      assert e[1..] == rest;
    } else {
      assert e[3..] == rest;
    }
  }

  /** Encoding can be undone, for every byte string. */
  lemma {:induction false} EncodeRoundTrip(s: string, encodeSlash: bool)
    requires ByteString(s)
    ensures Decode(Encode(s, encodeSlash)) == s
  {
    if s != [] {
      EncodeRoundTrip(s[1..], encodeSlash);
      DecodeChar(s[0], encodeSlash, Encode(s[1..], encodeSlash));
      assert s == [s[0]] + s[1..];
    }
  }

  lemma {:induction false} EncodeFree(s: string, encodeSlash: bool, c: char)
    requires ByteString(s) && !Kept(c, encodeSlash) && c != '%' && !IsUpperHex(c)
    ensures Free(Encode(s, encodeSlash), c)
  {
    if s != [] { EncodeFree(s[1..], encodeSlash, c); }
  }

  // ---- The canonical query ----

  datatype Pair = Pair(k: string, v: string)

  /** One parameter with its values, as the request's query map yields them. */
  datatype Parameter = Parameter(key: string, values: seq<string>)

  function ValuesOf(key: string, values: seq<string>): (r: seq<Pair>)
    ensures |r| == |values| && forall i :: 0 <= i < |r| ==> r[i] == Pair(key, values[i])
  {
    if values == [] then [] else ValuesOf(key, values[..|values| - 1]) + [Pair(key, values[|values| - 1])]
  }

  /** The (key, value) pairs that are not excluded. */
  function Pairs(query: seq<Parameter>, exclude: set<string>): seq<Pair> {
    if query == [] then []
    else
      var p := query[|query| - 1];
      Pairs(query[..|query| - 1], exclude) + if p.key in exclude then [] else ValuesOf(p.key, p.values)
  }

  ghost predicate BytePairs(pairs: seq<Pair>) {
    forall i :: 0 <= i < |pairs| ==> BytePair(pairs[i])
  }

  ghost predicate BytePair(p: Pair) {
    ByteString(p.k) && ByteString(p.v)
  }

  predicate PairAtMost(a: Pair, b: Pair) {
    if a.k != b.k then Lex.Less(a.k, b.k) else Lex.AtMost(a.v, b.v)
  }

  function PairText(p: Pair): string {
    p.k + ['='] + p.v
  }

  /** The pairs with both parts encoded. */
  function Encoded(pairs: seq<Pair>): (r: seq<Pair>)
    requires BytePairs(pairs)
    ensures |r| == |pairs| && forall i :: 0 <= i < |r| ==> BytePair(pairs[i]) && r[i] == EncodePair(pairs[i])
  {
    if pairs == [] then [] else Encoded(pairs[..|pairs| - 1]) + [EncodePair(pairs[|pairs| - 1])]
  }

  function EncodePair(p: Pair): Pair
    requires BytePair(p)
  {
    Pair(Encode(p.k, true), Encode(p.v, true))
  }

  function DecodePair(p: Pair): Pair {
    Pair(Decode(p.k), Decode(p.v))
  }

  /** Encoded pairs in order of key, then value, joined. */
  function QueryText(pairs: seq<Pair>): string
    requires BytePairs(pairs)
  {
    Join(Map(PairText, Sorting.Sort(Encoded(pairs), PairAtMost)), '&')
  }

  lemma PairOrder()
    ensures Sorting.Preorder(PairAtMost)
    ensures forall s :: Sorting.Strict(PairAtMost, s)
  {
    Lex.AtMostOrder();
    forall x, y
      ensures PairAtMost(x, y) || PairAtMost(y, x)
      ensures PairAtMost(x, y) && PairAtMost(y, x) ==> x == y
    {
      Lex.Total(x.k, y.k);
      if Lex.Less(x.k, y.k) { Lex.Asymmetric(x.k, y.k); }
      assert Sorting.Strict(Lex.AtMost, [x.v, y.v]);
    }
    forall x, y, z | PairAtMost(x, y) && PairAtMost(y, z)
      ensures PairAtMost(x, z)
    {
      if Lex.Less(x.k, y.k) && Lex.Less(y.k, z.k) {
        Lex.Transitive(x.k, y.k, z.k);
        Lex.Asymmetric(x.k, z.k);
      }
    }
  }

  lemma DecodeEncoded(pairs: seq<Pair>)
    requires BytePairs(pairs)
    ensures Map(DecodePair, Encoded(pairs)) == pairs
  {
    var e := Encoded(pairs);
    forall i | 0 <= i < |pairs|
      ensures DecodePair(e[i]) == pairs[i]
    {
      EncodeRoundTrip(pairs[i].k, true);
      EncodeRoundTrip(pairs[i].v, true);
    }
  }

  lemma DecodedApart(a: seq<Pair>, b: seq<Pair>, x: Pair, y: Pair)
    requires BytePairs(a) && BytePairs(b) && x in Encoded(a) && y in Encoded(b) && DecodePair(x) == DecodePair(y)
    ensures x == y
  {
    DecodeEncoded(a);
    DecodeEncoded(b);
    var i :| 0 <= i < |Encoded(a)| && Encoded(a)[i] == x;
    var j :| 0 <= j < |Encoded(b)| && Encoded(b)[j] == y;
    assert Map(DecodePair, Encoded(a))[i] == a[i] && Map(DecodePair, Encoded(b))[j] == b[j];
  }

  function Same(p: Pair): Pair {
    p
  }

  lemma MapSame(s: seq<Pair>)
    ensures Map(Same, s) == s
  {
  }

  /** Encoding tells pairs apart, counting repetitions. */
  lemma EncodedSame(a: seq<Pair>, b: seq<Pair>)
    requires BytePairs(a) && BytePairs(b)
    ensures multiset(Encoded(a)) == multiset(Encoded(b)) <==> multiset(a) == multiset(b)
  {
    var ea, eb := Encoded(a), Encoded(b);
    DecodeEncoded(a);
    DecodeEncoded(b);
    MapSame(ea);
    MapSame(eb);
    if multiset(ea) == multiset(eb) { MultisetByKey(Same, DecodePair, ea, eb); }
    if multiset(a) == multiset(b) {
      forall x, y | x in ea && y in eb && DecodePair(x) == DecodePair(y)
        ensures Same(x) == Same(y)
      {
        DecodedApart(a, b, x, y);
      }
      MultisetByKey(DecodePair, Same, ea, eb);
    }
  }

  /** Neither separator survives encoding. */
  ghost predicate Separable(p: Pair) {
    Free(p.k, '=') && Free(p.k, '&') && Free(p.v, '&')
  }

  lemma EncodedSeparable(pairs: seq<Pair>, sorted: seq<Pair>)
    requires BytePairs(pairs) && multiset(sorted) == multiset(Encoded(pairs))
    ensures forall p :: p in sorted ==> Separable(p)
  {
    forall p | p in sorted
      ensures Separable(p)
    {
      Sorting.SameMembers(sorted, Encoded(pairs), p);
      var i :| 0 <= i < |pairs| && Encoded(pairs)[i] == p;
      EncodeFree(pairs[i].k, true, '=');
      EncodeFree(pairs[i].k, true, '&');
      EncodeFree(pairs[i].v, true, '&');
    }
  }

  /** The joined text determines the sorted pairs. */
  lemma TextInjective(a: seq<Pair>, b: seq<Pair>)
    requires (forall p :: p in a ==> Separable(p)) && (forall p :: p in b ==> Separable(p))
    requires Join(Map(PairText, a), '&') == Join(Map(PairText, b), '&')
    ensures a == b
  {
    var ta, tb := Map(PairText, a), Map(PairText, b);
    forall i | 0 <= i < |ta|
      ensures ta[i] != "" && Free(ta[i], '&')
    {
      assert a[i] in a;
    }
    forall i | 0 <= i < |tb|
      ensures tb[i] != "" && Free(tb[i], '&')
    {
      assert b[i] in b;
    }
    JoinInjective(ta, tb, '&');
    forall i | 0 <= i < |a|
      ensures a[i] == b[i]
    {
      assert a[i] in a && b[i] in b && ta[i] == tb[i];
      CutFirst(a[i].k, a[i].v, b[i].k, b[i].v, '=');
    }
  }

  /** Two queries have the same canonical text exactly when they have the same pairs, each
      as often, in whatever order. */
  lemma CanonicalIff(a: seq<Pair>, b: seq<Pair>)
    requires BytePairs(a) && BytePairs(b)
    ensures QueryText(a) == QueryText(b) <==> multiset(a) == multiset(b)
  {
    EncodedSame(a, b);
    PairOrder();
    var sa, sb := Sorting.Sort(Encoded(a), PairAtMost), Sorting.Sort(Encoded(b), PairAtMost);
    Sorting.SortCanonical(Encoded(a), Encoded(b), PairAtMost);
    EncodedSeparable(a, sa);
    EncodedSeparable(b, sb);
    if QueryText(a) == QueryText(b) { TextInjective(sa, sb); }
  }

  // ---- The program's own way ----

  ghost predicate ByteQuery(query: seq<Parameter>) {
    forall i :: 0 <= i < |query| ==> ByteString(query[i].key) && forall j :: 0 <= j < |query[i].values| ==>
      ByteString(query[i].values[j])
  }

  lemma ValuesBytes(key: string, values: seq<string>)
    requires ByteString(key) && forall j :: 0 <= j < |values| ==> ByteString(values[j])
    ensures BytePairs(ValuesOf(key, values))
  {
  }

  lemma {:induction false} PairsBytes(query: seq<Parameter>, exclude: set<string>)
    requires ByteQuery(query)
    ensures BytePairs(Pairs(query, exclude))
  {
    if query != [] {
      PairsBytes(query[..|query| - 1], exclude);
      ValuesBytes(query[|query| - 1].key, query[|query| - 1].values);
    }
  }

  lemma {:induction false} EncodedJoin(a: seq<Pair>, b: seq<Pair>)
    requires BytePairs(a) && BytePairs(b)
    ensures BytePairs(a + b) && Encoded(a + b) == Encoded(a) + Encoded(b)
  {
  }

  lemma PairsStep(query: seq<Parameter>, exclude: set<string>, i: nat)
    requires i < |query|
    ensures Pairs(query[..i + 1], exclude)
         == Pairs(query[..i], exclude) + if query[i].key in exclude then [] else ValuesOf(query[i].key, query[i].values)
  {
    assert query[..i + 1][..i] == query[..i];
  }

  /** Collect the encoded values of one parameter. */
  method AddValues(acc: seq<Pair>, p: Parameter) returns (out: seq<Pair>)
    requires ByteString(p.key) && forall j :: 0 <= j < |p.values| ==> ByteString(p.values[j])
    ensures BytePairs(ValuesOf(p.key, p.values)) && out == acc + Encoded(ValuesOf(p.key, p.values))
  {
    out := acc;
    var ek := AwsUriEncode(p.key, true);
    ValuesBytes(p.key, p.values);
    ghost var all := Encoded(ValuesOf(p.key, p.values));
    for j := 0 to |p.values|
      invariant out == acc + all[..j]
    {
      var ev := AwsUriEncode(p.values[j], true);
      assert all[j] == Pair(ek, ev);
      out := out + [Pair(ek, ev)];
    }
  }

  /** The canonical query string of a request, from its parameters in any order. */
  method CanonicalQuery(query: seq<Parameter>, exclude: set<string>) returns (text: string)
    requires ByteQuery(query)
    ensures BytePairs(Pairs(query, exclude)) && text == QueryText(Pairs(query, exclude))
  {
    var pairs: seq<Pair> := [];
    for i := 0 to |query|
      invariant BytePairs(Pairs(query[..i], exclude)) && pairs == Encoded(Pairs(query[..i], exclude))
    {
      PairsStep(query, exclude, i);
      if query[i].key in exclude { continue; }
      ghost var had := Pairs(query[..i], exclude);
      pairs := AddValues(pairs, query[i]);
      EncodedJoin(had, ValuesOf(query[i].key, query[i].values));
    }
    assert query[..|query|] == query;
    pairs := Sorting.Sort(pairs, PairAtMost);
    text := JoinPairs(pairs);
  }

  lemma JoinStep(pairs: seq<Pair>, i: nat)
    requires i < |pairs|
    ensures Join(Map(PairText, pairs[..i + 1]), '&')
         == if i == 0 then PairText(pairs[i]) else Join(Map(PairText, pairs[..i]), '&') + ['&'] + PairText(pairs[i])
  {
    assert Map(PairText, pairs[..i + 1]) == Map(PairText, pairs[..i]) + [PairText(pairs[i])];
    JoinLast(Map(PairText, pairs[..i]), PairText(pairs[i]), '&');
  }

  method JoinPairs(pairs: seq<Pair>) returns (text: string)
    ensures text == Join(Map(PairText, pairs), '&')
  {
    text := [];
    for i := 0 to |pairs|
      invariant i == 0 ==> text == []
      invariant 0 < i ==> text == Join(Map(PairText, pairs[..i]), '&')
    {
      JoinStep(pairs, i);
      if i > 0 { text := text + ['&']; }
      text := text + pairs[i].k + ['='] + pairs[i].v;
    }
    assert pairs[..|pairs|] == pairs;
  }

  lemma {:induction false} JoinLast(parts: seq<string>, x: string, sep: char)
    ensures Join(parts + [x], sep) == if parts == [] then x else Join(parts, sep) + [sep] + x
  {
    if parts == [] {
      assert parts + [x] == [x];
    } else {
      assert (parts + [x])[1..] == parts[1..] + [x];
      JoinLast(parts[1..], x, sep);
      if |parts| == 1 { assert parts[1..] == []; }
    }
  }
}
