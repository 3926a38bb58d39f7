/**
 Multipart uploads: the in-memory backend as the simple specification, and the cluster
 backend, which keeps parts as objects under generated keys and streams them into the
 final write, refining it.
 */
module Multipart {
  import opened Records
  import opened Text
  import Decimals
  import Lex
  import Sorting

  const PART_WIDTH: nat := 5

  // ---- Part keys ----

  function PartKey(upload: string, n: nat): string {
    upload + ['/'] + Decimals.Padded(n, PART_WIDTH)
  }

  /** What follows the first separator, or nothing. */
  function AfterFirst(s: string, sep: char): string {
    if s == [] then [] else if s[0] == sep then s[1..] else AfterFirst(s[1..], sep)
  }

  predicate AllDigits(s: string) {
    s != [] && forall i :: 0 <= i < |s| ==> Decimals.IsDigit(s[i])
  }

  /** The part number of a key; zero when there is no numeral. */
  function PartNumber(key: string): nat {
    var num := AfterFirst(key, '/');
    if AllDigits(num) then Decimals.Value(num) else 0
  }

  lemma {:induction false} AfterFirstJoin(x: string, y: string, sep: char)
    requires Free(x, sep)
    ensures AfterFirst(x + [sep] + y, sep) == y
  {
    if x == [] {
      assert (x + [sep] + y)[1..] == y;
    } else {
      AfterFirstJoin(x[1..], y, sep);
      assert (x + [sep] + y)[1..] == x[1..] + [sep] + y;
    }
  }

  /** A part's number can be read back from its key, whatever its size. */
  lemma PartRoundTrip(upload: string, n: nat)
    requires Free(upload, '/')
    ensures PartNumber(PartKey(upload, n)) == n
  {
    AfterFirstJoin(upload, Decimals.Padded(n, PART_WIDTH), '/');
    Decimals.ValuePadded(n, PART_WIDTH);
  }

  /** Keys of one upload with numerals of one width are listed in part order. */
  lemma {:induction false} PrefixOrder(x: string, s: string, t: string)
    ensures Lex.Less(x + s, x + t) <==> Lex.Less(s, t)
  {
    if x == [] {
      assert x + s == s && x + t == t;
    } else {
      PrefixOrder(x[1..], s, t);
      assert (x + s)[1..] == x[1..] + s && (x + t)[1..] == x[1..] + t;
    }
  }

  lemma PartOrder(upload: string, a: nat, b: nat)
    requires a < 100000 && b < 100000
    ensures Lex.Less(PartKey(upload, a), PartKey(upload, b)) <==> a < b
  {
    assert Decimals.Pow10(5) == 100000 by {
      assert Decimals.Pow10(2) == 10 * (10 * Decimals.Pow10(0)) == 100;
      assert Decimals.Pow10(4) == 10 * (10 * Decimals.Pow10(2)) == 10000;
    }
    Decimals.DecLength(a, PART_WIDTH);
    Decimals.DecLength(b, PART_WIDTH);
    var s, t := Decimals.Padded(a, PART_WIDTH), Decimals.Padded(b, PART_WIDTH);
    Decimals.ValuePadded(a, PART_WIDTH);
    Decimals.ValuePadded(b, PART_WIDTH);
    Decimals.SameWidthOrder(s, t);
    PrefixOrder(upload + ['/'], s, t);
  }

  /** One part number past the padding and the listing order is wrong. */
  lemma PartOrderBreaks(upload: string)
    ensures Lex.Less(PartKey(upload, 100000), PartKey(upload, 99999))
  {
    var s, t := Decimals.Padded(100000, PART_WIDTH), Decimals.Padded(99999, PART_WIDTH);
    NumeralsAt99999();
    assert s[0] == '1' && t[0] == '9';
    assert Lex.Less(s, t);
    PrefixOrder(upload + ['/'], s, t);
  }

  lemma NumeralsAt99999()
    ensures Decimals.Padded(100000, PART_WIDTH) == "100000" && Decimals.Padded(99999, PART_WIDTH) == "99999"
  {
    assert Decimals.Dec(1) == "1" && Decimals.Dec(9) == "9";
    assert Decimals.Dec(10) == "10" && Decimals.Dec(99) == "99";
    assert Decimals.Dec(100) == "100" && Decimals.Dec(999) == "999";
    assert Decimals.Dec(1000) == "1000" && Decimals.Dec(9999) == "9999";
    assert Decimals.Dec(10000) == "10000" && Decimals.Dec(99999) == "99999";
    assert Decimals.Dec(100000) == "100000";
  }

  /** Listing order is part order up to a number exactly when that number fits the padding. */
  lemma PartOrderIff(upload: string, max: nat)
    ensures (forall a: nat, b: nat | a < b <= max :: Lex.Less(PartKey(upload, a), PartKey(upload, b))) <==> max < 100000
  {
    if max < 100000 {
      forall a: nat, b: nat | a < b <= max
        ensures Lex.Less(PartKey(upload, a), PartKey(upload, b))
      {
        PartOrder(upload, a, b);
      }
    } else {
      PartOrderBreaks(upload);
      Lex.Asymmetric(PartKey(upload, 100000), PartKey(upload, 99999));
      assert !Lex.Less(PartKey(upload, 99999), PartKey(upload, 100000));
    }
  }

  // ---- The specification ----

  /** A composite tag: the digests of the parts used, and how many were asked for. */
  datatype CompositeTag = CompositeTag(digests: seq<Digest>, count: nat)

  datatype Completed = Completed(content: Bytes, size: nat, etag: CompositeTag)

  type Parts = map<nat, Bytes>

  /** A part number's latest upload replaces earlier ones. */
  function WithPart(parts: Parts, n: nat, data: Bytes): Parts {
    parts[n := data]
  }

  predicate NumberAtMost(a: nat, b: nat) {
    a <= b
  }

  /** The uploaded contents of the requested numbers, those that are missing left out. */
  function Chosen(parts: Parts, numbers: seq<nat>): seq<Bytes> {
    if numbers == [] then []
    else
      var rest := Chosen(parts, numbers[..|numbers| - 1]);
      var n := numbers[|numbers| - 1];
      if n in parts then rest + [parts[n]] else rest
  }

  function Concat(chunks: seq<Bytes>): Bytes {
    if chunks == [] then [] else Concat(chunks[..|chunks| - 1]) + chunks[|chunks| - 1]
  }

  function DigestsOf(chunks: seq<Bytes>): (r: seq<Digest>)
    ensures |r| == |chunks| && forall i :: 0 <= i < |r| ==> r[i] == Md5(chunks[i])
  {
    seq(|chunks|, i requires 0 <= i < |chunks| => Md5(chunks[i]))
  }

  /** What completing an upload means: ascending part order, duplicates repeated, missing
      numbers skipped but counted. */
  function Completion(parts: Parts, requested: seq<nat>): Completed {
    var chosen := Chosen(parts, Sorting.Sort(requested, NumberAtMost));
    Completed(Concat(chosen), |Concat(chosen)|, CompositeTag(DigestsOf(chosen), |requested|))
  }

  lemma ChosenStep(parts: Parts, numbers: seq<nat>, i: nat)
    requires i < |numbers|
    ensures Chosen(parts, numbers[..i + 1])
         == if numbers[i] in parts then Chosen(parts, numbers[..i]) + [parts[numbers[i]]]
           else Chosen(parts, numbers[..i])
  {
    assert numbers[..i + 1][..i] == numbers[..i];
  }

  lemma SnocFacts(chunks: seq<Bytes>, x: Bytes)
    ensures Concat(chunks + [x]) == Concat(chunks) + x
    ensures DigestsOf(chunks + [x]) == DigestsOf(chunks) + [Md5(x)]
  {
    assert (chunks + [x])[..|chunks|] == chunks;
  }

  lemma SortLength(requested: seq<nat>)
    ensures |Sorting.Sort(requested, NumberAtMost)| == |requested|
  {
    assert |multiset(requested)| == |requested|;
    assert |multiset(Sorting.Sort(requested, NumberAtMost))| == |Sorting.Sort(requested, NumberAtMost)|;
  }

  // ---- The in-memory backend ----

  /** One bucket's uploads: an upload is known by its ID, its parts by number. */
  class MemoryStorage {
    var uploads: map<string, Parts>

    constructor ()
      ensures uploads == map[]
    {
      uploads := map[];
    }

    method Create(id: string)
      modifies this
      ensures uploads == old(uploads)[id := map[]]
    {
      uploads := uploads[id := map[]];
    }

    method UploadPart(id: string, n: nat, data: Bytes) returns (ok: bool)
      modifies this
      ensures ok <==> id in old(uploads)
      ensures uploads == if ok then old(uploads)[id := WithPart(old(uploads)[id], n, data)] else old(uploads)
    {
      ok := id in uploads;
      if ok { uploads := uploads[id := WithPart(uploads[id], n, data)]; }
    }

    method Complete(id: string, requested: seq<nat>) returns (r: Option<Completed>)
      modifies this
      ensures r.Some? <==> id in old(uploads)
      ensures r.Some? ==> r.value == Completion(old(uploads)[id], requested)
      ensures uploads == old(uploads) - {id}
    {
      if id !in uploads { return None; }
      var parts := uploads[id];
      var numbers := Sorting.Sort(requested, NumberAtMost);
      SortLength(requested);
      var data: Bytes, sums: seq<Digest> := [], [];
      for i := 0 to |numbers|
        invariant data == Concat(Chosen(parts, numbers[..i])) && sums == DigestsOf(Chosen(parts, numbers[..i]))
        invariant uploads == old(uploads)
      {
        ChosenStep(parts, numbers, i);
        if numbers[i] in parts {
          SnocFacts(Chosen(parts, numbers[..i]), parts[numbers[i]]);
          data, sums := data + parts[numbers[i]], sums + [Md5(parts[numbers[i]])];
        }
      }
      assert numbers[..|numbers|] == numbers;
      uploads := uploads - {id};
      r := Some(Completed(data, |data|, CompositeTag(sums, |numbers|)));
    }
  }

  // ---- Parts as objects ----

  type Objects = map<string, Bytes>

  /** The objects with an upload's key prefix are exactly its parts. */
  ghost predicate Stores(objs: Objects, id: string, parts: Parts) {
    && (forall n: nat :: n in parts <==> PartKey(id, n) in objs)
    && (forall n: nat :: n in parts ==> objs[PartKey(id, n)] == parts[n])
    && (forall k :: k in objs && id + ['/'] <= k ==> exists n: nat :: k == PartKey(id, n))
  }

  /** IDs without a slash keep uploads apart. */
  lemma PrefixApart(id: string, other: string, n: nat)
    requires Free(id, '/') && Free(other, '/') && id + ['/'] <= PartKey(other, n)
    ensures id == other
  {
    var k := PartKey(other, n);
    assert k == id + ['/'] + k[|id| + 1..];
    CutFirst(id, k[|id| + 1..], other, Decimals.Padded(n, PART_WIDTH), '/');
  }

  lemma PartKeyInjective(id: string, n: nat, m: nat)
    requires Free(id, '/') && PartKey(id, n) == PartKey(id, m)
    ensures n == m
  {
    PartRoundTrip(id, n);
    PartRoundTrip(id, m);
  }

  /** Uploading or re-uploading a part keeps the objects a picture of the parts, for this
      upload and for every other one. */
  lemma UploadStores(objs: Objects, id: string, n: nat, data: Bytes, other: string, parts: Parts)
    requires Free(id, '/') && Free(other, '/') && Stores(objs, other, parts)
    ensures Stores(objs[PartKey(id, n) := data], other, if other == id then WithPart(parts, n, data) else parts)
  {
    var now := objs[PartKey(id, n) := data];
    if other == id {
      forall m: nat
        ensures PartKey(id, m) == PartKey(id, n) <==> m == n
      {
        if PartKey(id, m) == PartKey(id, n) { PartKeyInjective(id, m, n); }
      }
    } else {
      forall m: nat
        ensures PartKey(other, m) != PartKey(id, n)
      {
        if PartKey(other, m) == PartKey(id, n) {
          assert other + ['/'] <= PartKey(other, m);
          PrefixApart(other, id, n);
        }
      }
      forall k | k in now && other + ['/'] <= k
        ensures exists m: nat :: k == PartKey(other, m)
      {
        if k == PartKey(id, n) { PrefixApart(other, id, n); }
      }
    }
  }

  // ---- Reading parts back ----

  datatype Status = More | Eof | Fault

  /** The streamed parts, opened one at a time as they are reached. */
  class PartsReader {
    const objs: Objects
    /** Every part that is opened opens and is read to its end. */
    const reliable: bool
    var keys: seq<string>
    var open: bool
    /** What is left of the open part. */
    var cur: Bytes

    constructor (objs: Objects, keys: seq<string>, reliable: bool)
      ensures this.objs == objs && this.keys == keys && this.reliable == reliable && !open && cur == []
    {
      this.objs, this.keys, this.reliable := objs, keys, reliable;
      open, cur := false, [];
    }

    ghost predicate Valid()
      reads this
    {
      && (!open ==> cur == [])
      && forall k :: k in keys ==> k in objs
    }

    /** Everything still to be delivered. */
    ghost function Left(): Bytes
      reads this
      requires Valid()
    {
      cur + Tail(objs, keys)
    }

    /** Read some bytes of the open part: any number up to the buffer, the end reported
        with the last bytes or after them. */
    method ReadCur(max: nat) returns (chunk: Bytes, st: Status)
      requires Valid() && open
      modifies this`cur
      ensures Valid() && |chunk| <= max
      ensures chunk + cur == old(cur)
      ensures st.Eof? ==> cur == []
      ensures st.More? && max > 0 ==> chunk != []
      ensures reliable ==> !st.Fault?
    {
      var broken := *;
      if broken && !reliable { return [], Fault; }
      if cur == [] { return [], Eof; }
      if max == 0 { return [], More; }
      var n: nat :| 0 < n <= max && n <= |cur|;
      chunk := cur[..n];
      cur := cur[n..];
      var last := *;
      st := if cur == [] && last then Eof else More;
    }

    method Read(max: nat) returns (chunk: Bytes, st: Status)
      requires Valid()
      modifies this
      ensures Valid() && |chunk| <= max
      ensures chunk + Left() == old(Left())
      ensures st.Eof? ==> chunk == [] && Left() == []
      ensures st.More? && max > 0 ==> chunk != []
      ensures reliable ==> !st.Fault?
    {
      while true
        invariant Valid() && Left() == old(Left())
        decreases |keys|, open
      {
        if !open {
          if keys == [] { return [], Eof; }
          var opens := *;
          if !opens && !reliable { return [], Fault; }
          TailStep(objs, keys);
          assert keys[0] in keys;
          assert forall k :: k in keys[1..] ==> k in keys;
          cur := objs[keys[0]];
          keys := keys[1..];
          open := true;
        }
        chunk, st := ReadCur(max);
        if !st.Eof? { return; }
        open := false;
        if chunk != [] { return chunk, More; }
      }
    }
  }

  ghost function Tail(objs: Objects, keys: seq<string>): Bytes
    requires forall k :: k in keys ==> k in objs
  {
    if keys == [] then [] else objs[keys[0]] + Tail(objs, keys[1..])
  }

  lemma TailStep(objs: Objects, keys: seq<string>)
    requires keys != [] && forall k :: k in keys ==> k in objs
    ensures Tail(objs, keys) == objs[keys[0]] + Tail(objs, keys[1..])
  {
  }

  /** Copy exactly `size` bytes with buffers of any sizes, as the final write does. */
  method CopyExactly(r: PartsReader, size: nat) returns (d: Option<Bytes>)
    requires r.Valid()
    modifies r
    ensures d.Some? ==> size <= |old(r.Left())| && d.value == old(r.Left())[..size]
    ensures r.reliable && size <= |old(r.Left())| ==> d.Some?
  {
    var got: Bytes := [];
    while |got| < size
      invariant r.Valid() && got + r.Left() == old(r.Left()) && |got| <= size
      decreases size - |got|
    {
      var max: nat :| 0 < max <= size - |got|;
      var chunk, st := r.Read(max);
      if st.Fault? || st.Eof? { return None; }
      got := got + chunk;
    }
    assert got == old(r.Left())[..size];
    d := Some(got);
  }

  // ---- The cluster backend ----

  datatype Answer = NoUpload | Failed | Created | Uploaded | Ok(completed: Completed)

  lemma {:induction false} TailSnoc(objs: Objects, keys: seq<string>, k: string)
    requires k in objs && forall x :: x in keys ==> x in objs
    ensures Tail(objs, keys + [k]) == Tail(objs, keys) + objs[k]
  {
    if keys == [] {
      assert keys + [k] == [k];
      assert Tail(objs, [k]) == objs[k] + Tail(objs, []);
    } else {
      assert (keys + [k])[1..] == keys[1..] + [k];
      TailSnoc(objs, keys[1..], k);
    }
  }

  /** What can go wrong with one request: it is refused, though a refused write may have left
      its record; the upload's record is not listed; or it is served, but a completion did not
      see the unlisted parts, and the upload stays afterwards without the parts deleted. */
  datatype Trouble = Refused(applied: bool) | Hidden | Served(unlisted: set<nat>, stays: Option<set<nat>>)

  const CALM := Served({}, None)

  /** The keys under an upload's prefix. */
  function KeysOf(objs: Objects, id: string): set<string> {
    set k | k in objs && id + ['/'] <= k
  }

  function Without(objs: Objects, id: string): Objects {
    map k | k in objs && !(id + ['/'] <= k) :: objs[k]
  }

  /** Nothing but objects of the upload is gone. */
  ghost predicate Pruned(was: Objects, now: Objects, id: string) {
    && (forall k :: k in now ==> k in was && now[k] == was[k])
    && (forall k :: k in was && k !in now ==> id + ['/'] <= k)
  }

  /** The numbers whose objects are not among the given keys. */
  ghost function Unlisted(parts: Parts, id: string, keys: set<string>): set<nat> {
    set n | n in parts && PartKey(id, n) !in keys
  }

  /** The key of every uploaded number that was listed. */
  ghost predicate Indexed(index: map<nat, string>, id: string, parts: Parts, keys: set<string>) {
    forall n: nat ::
      (n in index <==> n in parts && PartKey(id, n) in keys) && (n in index ==> index[n] == PartKey(id, n))
  }

  lemma IndexStep(index: map<nat, string>, objs: Objects, id: string, parts: Parts, keys: set<string>, k: string)
    requires Free(id, '/') && Stores(objs, id, parts) && Indexed(index, id, parts, keys) && k in KeysOf(objs, id)
    ensures Indexed(index[PartNumber(k) := k], id, parts, keys + {k})
  {
    var m: nat :| k == PartKey(id, m);
    PartRoundTrip(id, m);
    forall n: nat | n != m
      ensures PartKey(id, n) != k
    {
      if PartKey(id, n) == k { PartKeyInjective(id, n, m); }
    }
  }

  /** An index gives the contents of the parts it lists. */
  ghost predicate Locates(index: map<nat, string>, objs: Objects, parts: Parts) {
    && index.Keys == parts.Keys
    && forall n :: n in index ==> index[n] in objs && objs[index[n]] == parts[n]
  }

  lemma IndexLocates(index: map<nat, string>, objs: Objects, id: string, parts: Parts, keys: set<string>)
    requires Stores(objs, id, parts) && Indexed(index, id, parts, keys)
    ensures Locates(index, objs, parts - Unlisted(parts, id, keys))
  {
    var sub := parts - Unlisted(parts, id, keys);
    assert forall n :: n in index <==> n in sub;
  }

  /** What is left of an upload is a picture of the parts that were not deleted. */
  lemma PrunedStores(was: Objects, now: Objects, id: string, parts: Parts)
    requires Stores(was, id, parts) && Pruned(was, now, id)
    ensures Stores(now, id, parts - Unlisted(parts, id, now.Keys))
  {
    var left := parts - Unlisted(parts, id, now.Keys);
    forall n: nat
      ensures n in left <==> PartKey(id, n) in now
    {
      if PartKey(id, n) in now { assert PartKey(id, n) in was; }
    }
  }

  datatype Lookup = Lost | Missing | Present

  /** One bucket's uploads: their records, and their parts as objects. */
  class ClusterStorage {
    var uploads: set<string>
    var objs: Objects
    /** No request is refused. */
    const reliable: bool
    /** Every scan of a listing answers, so no listing misses a record. */
    const whole: bool

    constructor (reliable: bool, whole: bool)
      ensures uploads == {} && objs == map[] && this.reliable == reliable && this.whole == whole
    {
      uploads, objs, this.reliable, this.whole := {}, map[], reliable, whole;
    }

    /** Requests may be refused, unless the storage is reliable. */
    method Accepts() returns (ok: bool)
      ensures reliable ==> ok
    {
      ok := *;
      ok := ok || reliable;
    }

    method Create(id: string) returns (ok: bool, ghost t: Trouble)
      modifies this`uploads
      ensures (if ok then t == CALM else t.Refused?) && (reliable ==> ok)
      ensures uploads == if Creates(t) then old(uploads) + {id} else old(uploads)
    {
      t := CALM;
      ok := Accepts();
      var left := *;
      if ok || left { uploads := uploads + {id}; }
      if !ok { t := Refused(left); }
    }

    /** Resolve an upload by listing its record. */
    method FindUpload(id: string) returns (r: Lookup)
      ensures r.Present? ==> id in uploads
      ensures whole && r.Missing? ==> id !in uploads
      ensures reliable ==> !r.Lost?
    {
      var ok := Accepts();
      if !ok { return Lost; }
      var seen := *;
      r := if id in uploads && (seen || whole) then Present else Missing;
    }

    method UploadPart(id: string, n: nat, data: Bytes) returns (r: Answer, ghost t: Trouble)
      modifies this`objs
      ensures r == if t.Refused? then Failed else if id !in uploads || t.Hidden? then NoUpload else Uploaded
      ensures objs == if id in uploads && Applies(t) then old(objs)[PartKey(id, n) := data] else old(objs)
      ensures (reliable ==> !t.Refused?) && (whole ==> !t.Hidden?) && (t.Served? ==> t == CALM)
    {
      t := CALM;
      var found := FindUpload(id);
      if found.Lost? { return Failed, Refused(false); }
      if found.Missing? { return NoUpload, if id in uploads then Hidden else CALM; }
      var ok := Accepts();
      var left := *;
      if ok || left { objs := objs[PartKey(id, n) := data]; }
      if ok { r := Uploaded; } else { r, t := Failed, Refused(left); }
    }

    /** List an upload's part records. */
    method ListParts(id: string) returns (keys: Option<set<string>>)
      ensures keys.Some? ==> keys.value <= KeysOf(objs, id) && (whole ==> keys.value == KeysOf(objs, id))
      ensures reliable ==> keys.Some?
    {
      var ok := Accepts();
      if !ok { return None; }
      var missed: set<string> := *;
      keys := Some(if whole then KeysOf(objs, id) else KeysOf(objs, id) - missed);
    }

    /** Index the listed records by the number in their key. */
    method Index(id: string, keys: set<string>, ghost parts: Parts) returns (index: map<nat, string>)
      requires Free(id, '/') && Stores(objs, id, parts) && keys <= KeysOf(objs, id)
      ensures Indexed(index, id, parts, keys)
    {
      index := map[];
      var todo := keys;
      while todo != {}
        invariant todo <= keys && Indexed(index, id, parts, keys - todo)
      {
        var k :| k in todo;
        IndexStep(index, objs, id, parts, keys - todo, k);
        assert keys - todo + {k} == keys - (todo - {k});
        index := index[PartNumber(k) := k];
        todo := todo - {k};
      }
      assert keys - todo == keys;
    }

    /** Size, digests and part keys of the selection. */
    method Select(numbers: seq<nat>, index: map<nat, string>, ghost parts: Parts)
      returns (size: nat, keys: seq<string>, sums: seq<Digest>)
      requires Locates(index, objs, parts)
      ensures forall k :: k in keys ==> k in objs
      ensures Tail(objs, keys) == Concat(Chosen(parts, numbers)) && size == |Concat(Chosen(parts, numbers))|
      ensures sums == DigestsOf(Chosen(parts, numbers))
    {
      size, keys, sums := 0, [], [];
      for i := 0 to |numbers|
        invariant forall k :: k in keys ==> k in objs
        invariant Tail(objs, keys) == Concat(Chosen(parts, numbers[..i]))
        invariant size == |Concat(Chosen(parts, numbers[..i]))|
        invariant sums == DigestsOf(Chosen(parts, numbers[..i]))
      {
        ChosenStep(parts, numbers, i);
        if numbers[i] in index {
          var k := index[numbers[i]];
          SnocFacts(Chosen(parts, numbers[..i]), objs[k]);
          TailSnoc(objs, keys, k);
          size, keys, sums := size + |objs[k]|, keys + [k], sums + [Md5(objs[k])];
        }
      }
      assert numbers[..|numbers|] == numbers;
    }

    /** Stream the selected parts into one write. */
    method Assemble(keys: seq<string>, size: nat) returns (content: Option<Bytes>)
      requires (forall k :: k in keys ==> k in objs) && size == |Tail(objs, keys)|
      ensures content.Some? ==> content.value == Tail(objs, keys)
      ensures reliable ==> content.Some?
    {
      var reader := new PartsReader(objs, keys, reliable);
      ghost var all := reader.Left();
      assert all == Tail(objs, keys);
      content := CopyExactly(reader, size);
      assert all[..size] == all;
      var ok := Accepts();
      if !ok { content := None; }
    }

    /** Delete the parts that a listing shows, then the record; failures are ignored. */
    method DeleteUpload(id: string)
      modifies this
      ensures Pruned(old(objs), objs, id) && (uploads == old(uploads) || uploads == old(uploads) - {id})
      ensures reliable ==> uploads == old(uploads) - {id}
      ensures reliable && whole ==> objs == Without(old(objs), id)
    {
      var keys := ListParts(id);
      if keys.Some? {
        var todo := keys.value;
        while todo != {}
          invariant todo <= keys.value && Pruned(old(objs), objs, id) && uploads == old(uploads)
          invariant reliable ==> forall k :: k in keys.value && k !in todo ==> k !in objs
        {
          var k :| k in todo;
          var ok := Accepts();
          if ok { objs := objs - {k}; }
          todo := todo - {k};
        }
      }
      var ok := Accepts();
      if ok { uploads := uploads - {id}; }
    }

    /** Stream the selected parts into one write, then drop the upload. */
    method Complete(id: string, requested: seq<nat>, ghost parts: Parts) returns (r: Answer, ghost t: Trouble)
      requires Free(id, '/') && (id in uploads ==> Stores(objs, id, parts))
      modifies this
      ensures r.Failed? || r.NoUpload? || r.Ok?
      ensures r.Failed? <==> t.Refused?
      ensures r.NoUpload? <==> t.Hidden? || (t.Served? && id !in old(uploads))
      ensures r.Ok? ==> t.Served? && r.completed == Completion(parts - t.unlisted, requested)
      ensures reliable ==> !t.Refused? && (t.Served? ==> t.stays.None?)
      ensures whole ==> !t.Hidden? && (t.Served? ==> t.unlisted == {})
      ensures !r.Ok? ==> uploads == old(uploads) && objs == old(objs)
      ensures r.Ok? ==> Pruned(old(objs), objs, id)
      ensures r.Ok? ==> uploads == if t.stays.Some? then old(uploads) else old(uploads) - {id}
      ensures r.Ok? && t.stays.Some? ==> Stores(objs, id, parts - t.stays.value)
      ensures r.Ok? && reliable && whole ==> objs == Without(old(objs), id)
    {
      t := Refused(false);
      var found := FindUpload(id);
      if found.Lost? { return Failed, t; }
      if found.Missing? { return NoUpload, if id in uploads then Hidden else CALM; }
      var keys := ListParts(id);
      if keys.None? { return Failed, t; }
      var index := Index(id, keys.value, parts);
      ghost var unlisted := Unlisted(parts, id, keys.value);
      IndexLocates(index, objs, id, parts, keys.value);
      var numbers := Sorting.Sort(requested, NumberAtMost);
      SortLength(requested);
      var size, chosen, sums := Select(numbers, index, parts - unlisted);
      var content := Assemble(chosen, size);
      if content.None? { return Failed, t; }
      if whole { AllListed(objs, id, parts); }
      DeleteUpload(id);
      PrunedStores(old(objs), objs, id, parts);
      t := Served(unlisted, if id in uploads then Some(Unlisted(parts, id, objs.Keys)) else None);
      r := Ok(Completed(content.value, size, CompositeTag(sums, |numbers|)));
    }
  }

  lemma AllListed(objs: Objects, id: string, parts: Parts)
    requires Stores(objs, id, parts)
    ensures Unlisted(parts, id, KeysOf(objs, id)) == {}
  {
    forall n: nat | n in parts
      ensures PartKey(id, n) in KeysOf(objs, id)
    {
      assert id + ['/'] <= PartKey(id, n);
    }
  }

  // ---- Refinement ----

  datatype Op = CreateOp(id: string) | UploadOp(id: string, n: nat, data: Bytes) | CompleteOp(id: string,
    requested: seq<nat>)

  /** Upload IDs are generated without a slash, and each is created once. */
  ghost predicate GoodOps(ops: seq<Op>) {
    && (forall i :: 0 <= i < |ops| ==> Free(ops[i].id, '/'))
    && (forall i, j :: 0 <= i < j < |ops| && ops[i].CreateOp? && ops[j].CreateOp? ==> ops[i].id != ops[j].id)
  }

  function PartsOf(uploads: map<string, Parts>, id: string): Parts {
    if id in uploads then uploads[id] else map[]
  }

  /** The cluster's objects are a picture of the uploads in progress, and hold nothing of an
      upload that was never created. */
  ghost predicate Pictures(uploads: map<string, Parts>, used: set<string>, ids: set<string>, objs: Objects) {
    && ids == uploads.Keys <= used
    && forall id :: Free(id, '/') && (id in uploads || id !in used) ==> Stores(objs, id, PartsOf(uploads, id))
  }

  lemma PicturesUpload(uploads: map<string, Parts>, used: set<string>, ids: set<string>, objs: Objects, id: string,
                       n: nat, data: Bytes)
    requires Pictures(uploads, used, ids, objs) && Free(id, '/') && id in uploads
    ensures Pictures(uploads[id := WithPart(uploads[id], n, data)], used, ids, objs[PartKey(id, n) := data])
  {
    var now := uploads[id := WithPart(uploads[id], n, data)];
    forall other | Free(other, '/') && (other in uploads || other !in used)
      ensures Stores(objs[PartKey(id, n) := data], other, PartsOf(now, other))
    {
      UploadStores(objs, id, n, data, other, PartsOf(uploads, other));
    }
  }

  /** Deleting objects of one upload leaves the picture of every other one. */
  lemma PrunedApart(was: Objects, now: Objects, id: string, other: string, parts: Parts)
    requires Free(id, '/') && Free(other, '/') && id != other && Stores(was, other, parts) && Pruned(was, now, id)
    ensures Stores(now, other, parts)
  {
    forall n: nat
      ensures PartKey(other, n) in now <==> PartKey(other, n) in was
    {
      if id + ['/'] <= PartKey(other, n) { PrefixApart(id, other, n); }
    }
  }

  lemma PicturesComplete(uploads: map<string, Parts>, used: set<string>, ids: set<string>, was: Objects, now: Objects,
                         id: string, stays: Option<set<nat>>)
    requires Pictures(uploads, used, ids, was) && Free(id, '/') && id in uploads && Pruned(was, now, id)
    requires stays.Some? ==> Stores(now, id, uploads[id] - stays.value)
    ensures stays.Some? ==> Pictures(uploads[id := uploads[id] - stays.value], used, ids, now)
    ensures stays.None? ==> Pictures(uploads - {id}, used, ids - {id}, now)
  {
    forall other | Free(other, '/') && (other in uploads || other !in used) && other != id
      ensures Stores(now, other, PartsOf(uploads, other))
    {
      PrunedApart(was, now, id, other, PartsOf(uploads, other));
    }
  }

  // ---- The specification of a history ----

  /** An upload was created; a part was stored. */
  predicate Creates(t: Trouble) {
    t.Refused? ==> t.applied
  }

  predicate Applies(t: Trouble) {
    t.Served? || (t.Refused? && t.applied)
  }

  /** One request against the uploads in progress, given what goes wrong with it. */
  function Reply(uploads: map<string, Parts>, op: Op, t: Trouble): Answer {
    if t.Refused? then Failed
    else
      match op
      case CreateOp(_) => Created
      case UploadOp(id, _, _) => if id !in uploads || t.Hidden? then NoUpload else Uploaded
      case CompleteOp(id, requested) =>
        if id !in uploads || t.Hidden? then NoUpload else Ok(Completion(uploads[id] - t.unlisted, requested))
  }

  function Changed(uploads: map<string, Parts>, op: Op, t: Trouble): map<string, Parts> {
    match op
    case CreateOp(id) => if Creates(t) then uploads[id := map[]] else uploads
    case UploadOp(id, n, data) =>
      if id in uploads && Applies(t) then uploads[id := WithPart(uploads[id], n, data)] else uploads
    case CompleteOp(id, _) =>
      if id !in uploads || !t.Served? then uploads
      else if t.stays.Some? then uploads[id := uploads[id] - t.stays.value]
      else uploads - {id}
  }

  /** The uploads in progress after a history, given what goes wrong with each request. */
  function InProgress(ops: seq<Op>, ts: seq<Trouble>): map<string, Parts>
    requires |ts| == |ops|
  {
    if ops == [] then map[]
    else var n := |ops| - 1; Changed(InProgress(ops[..n], ts[..n]), ops[n], ts[n])
  }

  function Replies(ops: seq<Op>, ts: seq<Trouble>): (r: seq<Answer>)
    requires |ts| == |ops|
    ensures |r| == |ops|
  {
    if ops == [] then []
    else var n := |ops| - 1; Replies(ops[..n], ts[..n]) + [Reply(InProgress(ops[..n], ts[..n]), ops[n], ts[n])]
  }

  function Calm(n: nat): (ts: seq<Trouble>)
    ensures |ts| == n && forall i :: 0 <= i < n ==> ts[i] == CALM
  {
    seq(n, _ => CALM)
  }

  lemma Replied(ops: seq<Op>, ts: seq<Trouble>, op: Op, t: Trouble)
    requires |ts| == |ops|
    ensures InProgress(ops + [op], ts + [t]) == Changed(InProgress(ops, ts), op, t)
    ensures Replies(ops + [op], ts + [t]) == Replies(ops, ts) + [Reply(InProgress(ops, ts), op, t)]
  {
    assert (ops + [op])[..|ops|] == ops && (ts + [t])[..|ts|] == ts;
  }

  /** The request was turned away and left nothing. */
  predicate TurnedAway(op: Op, t: Trouble) {
    t == Refused(false) || (t.Hidden? && !op.CreateOp?)
  }

  lemma AwayChangesNothing(uploads: map<string, Parts>, op: Op, t: Trouble)
    requires TurnedAway(op, t)
    ensures Changed(uploads, op, t) == uploads
  {
  }

  /** The requests that were served, and a history's answers to them. */
  function Heard(ops: seq<Op>, ts: seq<Trouble>): seq<Op>
    requires |ts| == |ops|
  {
    if ops == [] then []
    else var n := |ops| - 1; Heard(ops[..n], ts[..n]) + if ts[n].Served? then [ops[n]] else []
  }

  function HeardAnswers(answers: seq<Answer>, ts: seq<Trouble>): seq<Answer>
    requires |ts| == |answers|
  {
    if answers == [] then []
    else var n := |answers| - 1; HeardAnswers(answers[..n], ts[..n]) + if ts[n].Served? then [answers[n]] else []
  }

  lemma HeardAnswersStep(answers: seq<Answer>, ts: seq<Trouble>, answer: Answer, t: Trouble)
    requires |ts| == |answers|
    ensures HeardAnswers(answers + [answer], ts + [t]) ==
      HeardAnswers(answers, ts) + if t.Served? then [answer] else []
  {
    assert (answers + [answer])[..|answers|] == answers && (ts + [t])[..|ts|] == ts;
  }

  lemma CalmStep(ops: seq<Op>, op: Op)
    ensures InProgress(ops + [op], Calm(|ops| + 1)) == Changed(InProgress(ops, Calm(|ops|)), op, CALM)
    ensures Replies(ops + [op], Calm(|ops| + 1)) ==
      Replies(ops, Calm(|ops|)) + [Reply(InProgress(ops, Calm(|ops|)), op, CALM)]
  {
    Replied(ops, Calm(|ops|), op, CALM);
    assert Calm(|ops| + 1) == Calm(|ops|) + [CALM];
  }

  /** Served requests in the one history, all of them in the other. */
  ghost predicate Matches(ops: seq<Op>, ts: seq<Trouble>)
    requires |ts| == |ops|
  {
    var heard := Heard(ops, ts);
    && InProgress(ops, ts) == InProgress(heard, Calm(|heard|))
    && HeardAnswers(Replies(ops, ts), ts) == Replies(heard, Calm(|heard|))
  }

  lemma MatchesStep(ops: seq<Op>, ts: seq<Trouble>, op: Op, t: Trouble)
    requires |ts| == |ops| && Matches(ops, ts) && (t == CALM || TurnedAway(op, t))
    ensures Matches(ops + [op], ts + [t])
  {
    var heard, more := Heard(ops, ts), Heard(ops + [op], ts + [t]);
    assert more == heard + if t.Served? then [op] else [] by {
      assert (ops + [op])[..|ops|] == ops && (ts + [t])[..|ts|] == ts;
    }
    Replied(ops, ts, op, t);
    HeardAnswersStep(Replies(ops, ts), ts, Reply(InProgress(ops, ts), op, t), t);
    if t.Served? {
      CalmStep(heard, op);
    } else {
      AwayChangesNothing(InProgress(ops, ts), op, t);
      assert more == heard;
    }
  }

  /** Requests that are turned away only delay: the others are answered as if these had never
      been made, whatever is retried and how often. */
  lemma {:induction false} OnlyDelays(ops: seq<Op>, ts: seq<Trouble>)
    requires |ts| == |ops| && forall i :: 0 <= i < |ts| ==> ts[i] == CALM || TurnedAway(ops[i], ts[i])
    ensures var heard := Heard(ops, ts);
      && InProgress(ops, ts) == InProgress(heard, Calm(|heard|))
      && HeardAnswers(Replies(ops, ts), ts) == Replies(heard, Calm(|heard|))
  {
    if ops != [] {
      var n := |ops| - 1;
      OnlyDelays(ops[..n], ts[..n]);
      MatchesStep(ops[..n], ts[..n], ops[n], ts[n]);
      assert ops == ops[..n] + [ops[n]] && ts == ts[..n] + [ts[n]];
    }
  }

  /** A completion that failed, tried again at once, answers what the first try should have. */
  lemma RetryAnswers(ops: seq<Op>, ts: seq<Trouble>, op: Op, applied: bool)
    requires |ts| == |ops| && op.CompleteOp?
    ensures Replies(ops + [op, op], ts + [Refused(applied), CALM])[|ops| + 1] == Reply(InProgress(ops, ts), op, CALM)
    ensures InProgress(ops + [op, op], ts + [Refused(applied), CALM]) == InProgress(ops + [op], ts + [CALM])
  {
    Replied(ops, ts, op, Refused(applied));
    Replied(ops + [op], ts + [Refused(applied)], op, CALM);
    Replied(ops, ts, op, CALM);
    assert ops + [op] + [op] == ops + [op, op];
    assert ts + [Refused(applied)] + [CALM] == ts + [Refused(applied), CALM];
  }

  /** A completed upload can be completed again exactly when its record could not be deleted,
      and then by what is left of its parts. */
  lemma CompletesAgainIff(ops: seq<Op>, ts: seq<Trouble>, id: string, requested: seq<nat>, again: seq<nat>, t: Trouble)
    requires |ts| == |ops| && id in InProgress(ops, ts) && t.Served?
    ensures var op, more := CompleteOp(id, requested), CompleteOp(id, again);
      var answers, parts := Replies(ops + [op, more], ts + [t, CALM]), InProgress(ops, ts)[id];
      && answers[|ops|] == Ok(Completion(parts - t.unlisted, requested))
      && answers[|ops| + 1] == if t.stays.Some? then Ok(Completion(parts - t.stays.value, again)) else NoUpload
  {
    var op, more := CompleteOp(id, requested), CompleteOp(id, again);
    Replied(ops, ts, op, t);
    Replied(ops + [op], ts + [t], more, CALM);
    assert ops + [op] + [more] == ops + [op, more] && ts + [t] + [CALM] == ts + [t, CALM];
    if t.stays.Some? {
      var left := InProgress(ops, ts)[id] - t.stays.value;
      assert left - {} == left;
    }
  }

  lemma {:induction false} ChosenLess(parts: Parts, gone: set<nat>, numbers: seq<nat>)
    ensures |Chosen(parts - gone, numbers)| <= |Chosen(parts, numbers)|
    ensures (forall n :: n in numbers && n in parts ==> n !in gone) ==>
      Chosen(parts - gone, numbers) == Chosen(parts, numbers)
    ensures (exists n :: n in numbers && n in parts && n in gone) ==>
      |Chosen(parts - gone, numbers)| < |Chosen(parts, numbers)|
  {
    if numbers != [] {
      var init, last := numbers[..|numbers| - 1], numbers[|numbers| - 1];
      ChosenLess(parts, gone, init);
      assert numbers == init + [last];
    }
  }

  /** A completion that did not see some parts answers the same exactly when none of those was
      asked for; otherwise it leaves them out and still succeeds. */
  lemma UnlistedIff(parts: Parts, gone: set<nat>, requested: seq<nat>)
    ensures Completion(parts - gone, requested) == Completion(parts, requested)
      <==> forall n :: n in requested && n in parts ==> n !in gone
  {
    var numbers := Sorting.Sort(requested, NumberAtMost);
    assert forall n :: n in numbers <==> n in multiset(numbers);
    assert forall n :: n in requested <==> n in multiset(requested);
    ChosenLess(parts, gone, numbers);
    assert |DigestsOf(Chosen(parts, numbers))| == |Chosen(parts, numbers)|;
  }

  /** One request against the in-memory backend. */
  method ServeMemory(mem: MemoryStorage, op: Op) returns (answer: Answer)
    modifies mem
    ensures answer == Reply(old(mem.uploads), op, CALM) && mem.uploads == Changed(old(mem.uploads), op, CALM)
  {
    match op {
      case CreateOp(id) =>
        mem.Create(id);
        answer := Created;
      case UploadOp(id, n, data) =>
        var ok := mem.UploadPart(id, n, data);
        answer := if ok then Uploaded else NoUpload;
      case CompleteOp(id, requested) =>
        if id in mem.uploads { assert mem.uploads[id] - {} == mem.uploads[id]; }
        var done := mem.Complete(id, requested);
        answer := if done.Some? then Ok(done.value) else NoUpload;
    }
  }

  /** The in-memory backend answers every history as specified. */
  method RunMemory(ops: seq<Op>) returns (answers: seq<Answer>)
    ensures answers == Replies(ops, Calm(|ops|))
  {
    var mem := new MemoryStorage();
    answers := [];
    for i := 0 to |ops|
      invariant fresh(mem)
      invariant answers == Replies(ops[..i], Calm(i)) && mem.uploads == InProgress(ops[..i], Calm(i))
    {
      CalmStep(ops[..i], ops[i]);
      assert ops[..i + 1] == ops[..i] + [ops[i]];
      var answer := ServeMemory(mem, ops[i]);
      answers := answers + [answer];
    }
    assert ops[..|ops|] == ops;
  }

  /** What storage with these promises can do to a request. */
  ghost predicate Possible(t: Trouble, reliable: bool, whole: bool) {
    && (reliable ==> !t.Refused? && (t.Served? ==> t.stays.None?))
    && (whole ==> !t.Hidden? && (t.Served? ==> t.unlisted == {}))
  }

  function Used(used: set<string>, op: Op): set<string> {
    if op.CreateOp? then used + {op.id} else used
  }

  /** One request against the cluster backend. */
  method Serve(clu: ClusterStorage, op: Op, ghost uploads: map<string, Parts>, ghost used: set<string>)
    returns (answer: Answer, ghost t: Trouble)
    requires Pictures(uploads, used, clu.uploads, clu.objs) && Free(op.id, '/') && (op.CreateOp? ==> op.id !in used)
    modifies clu
    ensures answer == Reply(uploads, op, t) && Possible(t, clu.reliable, clu.whole)
    ensures Pictures(Changed(uploads, op, t), Used(used, op), clu.uploads, clu.objs)
  {
    match op {
      case CreateOp(id) =>
        var ok;
        ok, t := clu.Create(id);
        answer := if ok then Created else Failed;
      case UploadOp(id, n, data) =>
        if id in uploads { PicturesUpload(uploads, used, clu.uploads, clu.objs, id, n, data); }
        answer, t := clu.UploadPart(id, n, data);
      case CompleteOp(id, requested) =>
        ghost var was, ids := clu.objs, clu.uploads;
        answer, t := clu.Complete(id, requested, PartsOf(uploads, id));
        if answer.Ok? { PicturesComplete(uploads, used, ids, was, clu.objs, id, t.stays); }
    }
  }

  /** The cluster backend answers every history as specified for what went wrong with each
      request. On reliable storage nothing is refused and completed uploads are gone; with
      whole listings nothing is missed. */
  method RunCluster(ops: seq<Op>, reliable: bool, whole: bool) returns (answers: seq<Answer>, ghost ts: seq<Trouble>)
    requires GoodOps(ops)
    ensures |ts| == |ops| && answers == Replies(ops, ts)
    ensures forall i :: 0 <= i < |ts| ==> Possible(ts[i], reliable, whole)
    ensures reliable && whole ==> ts == Calm(|ops|)
  {
    var clu := new ClusterStorage(reliable, whole);
    answers, ts := [], [];
    ghost var used: set<string> := {};
    for i := 0 to |ops|
      invariant fresh(clu) && clu.reliable == reliable && clu.whole == whole && |ts| == i
      invariant forall k :: 0 <= k < i ==> Possible(ts[k], reliable, whole)
      invariant forall id :: id in used ==> exists k :: 0 <= k < i && ops[k] == CreateOp(id)
      invariant answers == Replies(ops[..i], ts) && Pictures(InProgress(ops[..i], ts), used, clu.uploads, clu.objs)
    {
      var answer; ghost var t;
      answer, t := Serve(clu, ops[i], InProgress(ops[..i], ts), used);
      Replied(ops[..i], ts, ops[i], t);
      assert ops[..i + 1] == ops[..i] + [ops[i]];
      answers, ts, used := answers + [answer], ts + [t], Used(used, ops[i]);
    }
    assert ops[..|ops|] == ops;
  }

  /** Both backends answer every history of uploads and completions alike: same content,
      same size, same composite tag, same refusals. */
  method SameAnswers(ops: seq<Op>) returns (a: seq<Answer>, b: seq<Answer>)
    requires GoodOps(ops)
    ensures a == b == Replies(ops, Calm(|ops|))
  {
    a := RunMemory(ops);
    ghost var ts;
    b, ts := RunCluster(ops, true, true);
  }
}
