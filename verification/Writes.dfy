/**
 The write path: quorum write with commit and rollback, its asynchronous remainder, the
 cleanup of a superseded generation, and delete. No other node writes the object
 meanwhile; peers fail as they like.
 */
module Writes {
  import opened Records
  import opened Peers
  import Sets

  // ---- Committed and readable ----

  /** Some disk holds fragment `i` of the record's generation at its planned size. */
  ghost predicate HasPiece(files: Store, r: Sidecar, i: nat)
    requires ValidScheme(r.scheme)
  {
    exists at :: RightSize(files, Loc(at, Frag(r.gen, i)), r)
  }

  ghost function Pieces(files: Store, r: Sidecar): set<nat>
    requires ValidScheme(r.scheme)
  {
    set i: nat | i < Copies(r.scheme) && HasPiece(files, r, i)
  }

  /** A full replica, or as many distinct shards as data shards, exists. */
  ghost predicate Readable(files: Store, r: Sidecar) {
    && ValidScheme(r.scheme)
    && if r.scheme.EC? then r.size == 0 || |Pieces(files, r)| >= r.scheme.k
       else exists i: nat :: i < FullReplicas(r.scheme) && HasPiece(files, r, i)
  }

  /** Every newest record names a readable generation. */
  ghost predicate MaxReadable(files: Store) {
    forall r :: IsRecord(files, r) && (forall q :: IsRecord(files, q) ==> Dominates(r, q)) ==> Readable(files, r)
  }

  ghost predicate AllMaxReadable(log: seq<Act>, from: nat) {
    forall k :: from <= k < |log| ==> MaxReadable(After(log[k]))
  }

  /** Fragments of one generation are the same. */
  ghost predicate SameGen(a: Store, b: Store, gen: string) {
    forall l: Loc :: l.name.Frag? && l.name.gen == gen ==> (l in a <==> l in b) && (l in a ==> a[l] == b[l])
  }

  /** Fragments of every other generation are the same. */
  ghost predicate OtherGens(a: Store, b: Store, gen: string) {
    forall l: Loc :: l.name.Frag? && l.name.gen != gen ==> (l in a <==> l in b) && (l in a ==> a[l] == b[l])
  }

  lemma SameGenReadable(a: Store, b: Store, r: Sidecar)
    requires SameGen(a, b, r.gen) && Readable(a, r)
    ensures Readable(b, r)
  {
    forall i: nat, at | RightSize(a, Loc(at, Frag(r.gen, i)), r)
      ensures RightSize(b, Loc(at, Frag(r.gen, i)), r)
    {
    }
    if r.scheme.EC? && r.size != 0 {
      forall i | i in Pieces(a, r)
        ensures i in Pieces(b, r)
      {
        var at :| RightSize(a, Loc(at, Frag(r.gen, i)), r);
        assert RightSize(b, Loc(at, Frag(r.gen, i)), r);
      }
      Sets.Subset(Pieces(a, r), Pieces(b, r));
    } else if !r.scheme.EC? {
      var i: nat :| i < FullReplicas(r.scheme) && HasPiece(a, r, i);
      var at :| RightSize(a, Loc(at, Frag(r.gen, i)), r);
      assert RightSize(b, Loc(at, Frag(r.gen, i)), r);
      assert HasPiece(b, r, i);
    }
  }

  /** The new record rules: it is stored, it is readable, and every other record is older. */
  ghost predicate Crowned(files: Store, sc: Sidecar) {
    && IsRecord(files, sc)
    && Readable(files, sc)
    && forall r :: IsRecord(files, r) ==> r == sc || Supersedes(sc, r)
  }

  lemma CrownedReadable(files: Store, sc: Sidecar)
    requires Crowned(files, sc)
    ensures MaxReadable(files)
  {
  }

  /** What the write starts from: readable, the generation is new, and `prev` is the newest
      record (or there is none). */
  ghost predicate Clear(base: Store, gen: string, prev: Option<Sidecar>) {
    && MaxReadable(base)
    && (forall l: Loc :: l in base && l.name.Frag? ==> l.name.gen != gen)
    && (forall r :: IsRecord(base, r) ==> r.gen != gen && prev.Some? && Dominates(prev.value, r))
    && (prev.Some? ==> IsRecord(base, prev.value))
  }

  /** A state between the start of a write and its outcome: other generations untouched,
      records only old ones and the new one, and whichever of the two rules is stored. */
  ghost predicate Midway(base: Store, files: Store, sc: Sidecar, prev: Option<Sidecar>) {
    && OtherGens(base, files, sc.gen)
    && (forall r :: IsRecord(files, r) ==> r == sc || IsRecord(base, r))
    && (IsRecord(files, sc) ==> Readable(files, sc))
    && (prev.Some? ==> IsRecord(files, prev.value) || IsRecord(files, sc))
  }

  ghost predicate AllMidway(log: seq<Act>, from: nat, base: Store, sc: Sidecar, prev: Option<Sidecar>) {
    forall k :: from <= k < |log| ==> Midway(base, After(log[k]), sc, prev)
  }

  lemma MidwayReadable(base: Store, files: Store, sc: Sidecar, prev: Option<Sidecar>)
    requires Clear(base, sc.gen, prev) && Midway(base, files, sc, prev)
    requires prev.Some? ==> Supersedes(sc, prev.value)
    ensures MaxReadable(files)
  {
    forall r | IsRecord(files, r) && (forall q :: IsRecord(files, q) ==> Dominates(r, q))
      ensures Readable(files, r)
    {
      if r != sc {
        if IsRecord(files, sc) { DominatesTransitive(prev.value, r, sc); }
        forall q | IsRecord(base, q)
          ensures Dominates(r, q)
        {
          DominatesTransitive(r, prev.value, q);
        }
        SameGenReadable(base, files, r);
      }
    }
  }

  lemma AllMidwayReadable(log: seq<Act>, from: nat, base: Store, sc: Sidecar, prev: Option<Sidecar>)
    requires Clear(base, sc.gen, prev) && AllMidway(log, from, base, sc, prev)
    requires prev.Some? ==> Supersedes(sc, prev.value)
    ensures AllMaxReadable(log, from)
  {
    forall k | from <= k < |log|
      ensures MaxReadable(After(log[k]))
    {
      MidwayReadable(base, After(log[k]), sc, prev);
    }
  }

  // ---- What a mutation touches ----

  /** A record, or a fragment of one of the generations. */
  predicate Touches(a: Act, gens: set<string>) {
    a.loc.name.Meta? || (a.loc.name.Frag? && a.loc.name.gen in gens)
  }

  ghost predicate AllTouch(log: seq<Act>, from: nat, gens: set<string>) {
    forall k :: from <= k < |log| ==> Touches(log[k], gens)
  }

  /** Two stretches, one after the other. */
  lemma TouchJoin(log: seq<Act>, more: seq<Act>, from: nat, a: set<string>, b: set<string>)
    requires from <= |log| && log <= more && AllTouch(log, from, a) && AllTouch(more, |log|, b)
    ensures AllTouch(more, from, a + b)
  {
    forall k | from <= k < |more|
      ensures Touches(more[k], a + b)
    {
      if k < |log| { assert more[k] == log[k]; }
    }
  }

  // ---- Fragments ----

  /** Only fragments of one generation differ. */
  ghost predicate OnlyGen(a: Store, b: Store, gen: string) {
    forall l: Loc :: !(l.name.Frag? && l.name.gen == gen) ==> (l in a <==> l in b) && (l in a ==> a[l] == b[l])
  }

  ghost predicate AllOnlyGen(log: seq<Act>, from: nat, base: Store, gen: string) {
    forall k :: from <= k < |log| ==> OnlyGen(base, After(log[k]), gen)
  }

  lemma OnlyGenMidway(base: Store, files: Store, sc: Sidecar, prev: Option<Sidecar>)
    requires Clear(base, sc.gen, prev) && OnlyGen(base, files, sc.gen)
    ensures Midway(base, files, sc, prev)
  {
    forall at
      ensures RecordAt(files, at) == RecordAt(base, at)
    {
      assert Loc(at, Meta) in files <==> Loc(at, Meta) in base;
    }
    if prev.Some? {
      var at :| RecordAt(base, at) == Some(prev.value);
      assert RecordAt(files, at) == Some(prev.value);
    }
    assert forall r :: IsRecord(files, r) ==> IsRecord(base, r);
    assert IsRecord(files, sc) ==> IsRecord(base, sc);
  }

  /** The store with fragments lo to hi-1 of a content in place. */
  function Filled(files: Store, layout: Layout, s: Scheme, gen: string, c: Bytes, lo: nat, hi: nat): Store
    requires lo <= hi <= |layout|
    decreases hi
  {
    if lo == hi then files
    else Filled(files, layout, s, gen, c, lo, hi - 1)[Slot(layout, gen, hi - 1) := Data(Piece(s, c, hi - 1))]
  }

  lemma {:induction false} FilledFacts(files: Store, layout: Layout, s: Scheme, gen: string, c: Bytes, lo: nat, hi: nat)
    requires lo <= hi <= |layout|
    ensures OnlyGen(files, Filled(files, layout, s, gen, c, lo, hi), gen)
    ensures forall i: nat :: lo <= i < hi ==>
      Slot(layout, gen, i) in Filled(files, layout, s, gen, c, lo, hi) &&
      Filled(files, layout, s, gen, c, lo, hi)[Slot(layout, gen, i)] == Data(Piece(s, c, i))
    ensures forall i: nat :: i < lo && Slot(layout, gen, i) in files ==>
      Slot(layout, gen, i) in Filled(files, layout, s, gen, c, lo, hi) &&
      Filled(files, layout, s, gen, c, lo, hi)[Slot(layout, gen, i)] == files[Slot(layout, gen, i)]
    decreases hi
  {
    if lo < hi { FilledFacts(files, layout, s, gen, c, lo, hi - 1); }
  }

  /** Stream fragments lo to hi-1 to their targets; every sink is attempted. */
  method WriteFragments(cl: Cluster, layout: Layout, s: Scheme, gen: string, c: Bytes, lo: nat, hi: nat)
    returns (ok: bool)
    requires lo <= hi <= |layout|
    requires cl.Valid()
    modifies cl`files, cl`log
    ensures cl.Valid()
    ensures old(cl.log) <= cl.log && AllOnlyGen(cl.log, |old(cl.log)|, old(cl.files), gen)
    ensures OnlyGen(old(cl.files), cl.files, gen)
    ensures ok ==> cl.files == Filled(old(cl.files), layout, s, gen, c, lo, hi)
    ensures (forall i :: lo <= i < hi ==> layout[i] in cl.up) ==> ok
    ensures InPlace(old(cl.files), layout, s, gen, c, lo) ==>
      InPlace(cl.files, layout, s, gen, c, lo) && AllInPlace(cl.log, |old(cl.log)|, layout, s, gen, c, lo)
    ensures AllTouch(cl.log, |old(cl.log)|, {gen})
  {
    ok := true;
    for i := lo to hi
      invariant cl.Valid()
      invariant AllTouch(cl.log, |old(cl.log)|, {gen})
      invariant old(cl.log) <= cl.log && AllOnlyGen(cl.log, |old(cl.log)|, old(cl.files), gen)
      invariant OnlyGen(old(cl.files), cl.files, gen)
      invariant ok ==> cl.files == Filled(old(cl.files), layout, s, gen, c, lo, i)
      invariant (forall i :: lo <= i < hi ==> layout[i] in cl.up) ==> ok
      invariant InPlace(old(cl.files), layout, s, gen, c, lo) ==>
        InPlace(cl.files, layout, s, gen, c, lo) && AllInPlace(cl.log, |old(cl.log)|, layout, s, gen, c, lo)
    {
      var put := cl.Put(Slot(layout, gen, i), Data(Piece(s, c, i)));
      ok := ok && put;
    }
  }

  /** The store without the generation's first `n` fragments, but those in `kept`. */
  function Discarded(files: Store, layout: Layout, gen: string, n: nat, kept: set<nat>): Store
    requires n <= |layout|
  {
    if n == 0 then files
    else
      var rest := Discarded(files, layout, gen, n - 1, kept);
      if n - 1 in kept then rest else rest - {Slot(layout, gen, n - 1)}
  }

  lemma {:induction false} DiscardedSame(files: Store, layout: Layout, gen: string, n: nat, a: set<nat>, b: set<nat>)
    requires n <= |layout| && forall i: nat :: i < n ==> (i in a <==> i in b)
    ensures Discarded(files, layout, gen, n, a) == Discarded(files, layout, gen, n, b)
  {
    if n > 0 { DiscardedSame(files, layout, gen, n - 1, a, b); }
  }

  /** Exactly the fragments whose target refused remain. */
  lemma {:induction false} DiscardedFacts(files: Store, layout: Layout, gen: string, n: nat, kept: set<nat>)
    requires n <= |layout|
    ensures OnlyGen(files, Discarded(files, layout, gen, n, kept), gen)
    ensures Contains(files, Discarded(files, layout, gen, n, kept))
    ensures forall i: nat :: i < |layout| ==>
      var now := Discarded(files, layout, gen, n, kept);
      Slot(layout, gen, i) in now <==> (i in kept || i >= n) && Slot(layout, gen, i) in files
  {
    if n > 0 { DiscardedFacts(files, layout, gen, n - 1, kept); }
  }

  /** The first store has every file of the second. */
  ghost predicate Contains(a: Store, b: Store) {
    forall l :: l in b ==> l in a && a[l] == b[l]
  }

  ghost predicate AllContain(log: seq<Act>, from: nat, files: Store) {
    forall k :: from <= k < |log| ==> Contains(After(log[k]), files)
  }

  /** Best-effort removal of a refused generation's fragments; `kept` are those whose delete
      failed. */
  method DiscardGeneration(cl: Cluster, layout: Layout, gen: string) returns (ghost kept: set<nat>)
    requires cl.Valid()
    modifies cl`files, cl`log
    ensures cl.Valid()
    ensures cl.files == Discarded(old(cl.files), layout, gen, |layout|, kept)
    ensures forall i :: i in kept ==> i < |layout| && layout[i] !in cl.up
    ensures old(cl.log) <= cl.log && AllOnlyGen(cl.log, |old(cl.log)|, old(cl.files), gen)
    ensures OnlyGen(old(cl.files), cl.files, gen) && AllContain(cl.log, |old(cl.log)|, cl.files)
    ensures AllTouch(cl.log, |old(cl.log)|, {gen})
  {
    kept := {};
    for i := 0 to |layout|
      invariant cl.Valid()
      invariant AllTouch(cl.log, |old(cl.log)|, {gen})
      invariant cl.files == Discarded(old(cl.files), layout, gen, i, kept)
      invariant forall n :: n in kept ==> n < i && layout[n] !in cl.up
      invariant old(cl.log) <= cl.log && AllOnlyGen(cl.log, |old(cl.log)|, old(cl.files), gen)
      invariant OnlyGen(old(cl.files), cl.files, gen) && AllContain(cl.log, |old(cl.log)|, cl.files)
    {
      var gone := cl.Delete(Slot(layout, gen, i));
      if gone.Failed? {
        DiscardedSame(old(cl.files), layout, gen, i, kept, kept + {i});
        kept := kept + {i};
      }
    }
  }

  /** How many leading fragments the body stream produces; the rest is derived from them. */
  function DataCount(s: Scheme, size: nat): (n: nat)
    ensures n <= Copies(s)
  {
    if !s.EC? then 2 else if size == 0 then s.k + s.m else s.k
  }

  ghost predicate InPlace(files: Store, layout: Layout, s: Scheme, gen: string, c: Bytes, n: nat)
    requires n <= |layout|
  {
    forall i: nat :: i < n ==> Slot(layout, gen, i) in files && files[Slot(layout, gen, i)] == Data(Piece(s, c, i))
  }

  ghost predicate AllInPlace(log: seq<Act>, from: nat, layout: Layout, s: Scheme, gen: string, c: Bytes, n: nat)
    requires n <= |layout|
  {
    forall k :: from <= k < |log| ==> InPlace(After(log[k]), layout, s, gen, c, n)
  }

  /** Quorum fragments make the generation readable. */
  lemma InPlaceReadable(files: Store, layout: Layout, sc: Sidecar, c: Bytes)
    requires ValidScheme(sc.scheme) && |layout| == Copies(sc.scheme) && |c| == sc.size
    requires InPlace(files, layout, sc.scheme, sc.gen, c, WriteQuorum(sc.scheme))
    ensures Readable(files, sc)
  {
    forall i: nat | i < WriteQuorum(sc.scheme)
      ensures HasPiece(files, sc, i)
    {
      PieceSize(sc.scheme, c, i);
      assert RightSize(files, Slot(layout, sc.gen, i), sc);
    }
    if sc.scheme.EC? {
      Sets.AllBelow(Pieces(files, sc), WriteQuorum(sc.scheme));
    } else {
      assert HasPiece(files, sc, 0);
    }
  }

  /** Read the content back from the data fragments just written. */
  method Reopen(cl: Cluster, layout: Layout, s: Scheme, gen: string, size: nat, ghost c: Bytes)
    returns (d: Option<Bytes>)
    requires ValidScheme(s) && |layout| == Copies(s)
    ensures |c| == size && InPlace(cl.files, layout, s, gen, c, DataCount(s, size)) && d.Some? ==> d.value == c
    ensures |c| == size && InPlace(cl.files, layout, s, gen, c, DataCount(s, size)) ==>
      ((forall at :: at in layout ==> at in cl.up) ==> d.Some?)
  {
    if !s.EC? {
      var b := cl.Get(Slot(layout, gen, 0));
      if !b.Found? || !b.value.Data? || !b.value.payload.Replica? || |b.value.payload.content| != size { return None; }
      return Some(b.value.payload.content);
    }
    d := None;
    for i := 0 to s.k
      invariant |c| == size && InPlace(cl.files, layout, s, gen, c, DataCount(s, size)) && d.Some? ==> d.value == c
      invariant i > 0 ==> d.Some?
    {
      var b := cl.Get(Slot(layout, gen, i));
      if !b.Found? || !b.value.Data? || !b.value.payload.Shard? { return None; }
      if d.None? { d := Some(b.value.payload.content); }
      if b.value.payload != Piece(s, d.value, i) { return None; }
    }
  }

  /** Derive and write the remaining fragments: parity, trailing replica or parity shards. */
  method EncodeParity(cl: Cluster, layout: Layout, s: Scheme, gen: string, size: nat, ghost c: Bytes) returns (ok: bool)
    requires ValidScheme(s) && |layout| == Copies(s)
    requires |c| == size && InPlace(cl.files, layout, s, gen, c, DataCount(s, size))
    requires cl.Valid()
    modifies cl`files, cl`log
    ensures cl.Valid()
    ensures old(cl.log) <= cl.log && AllOnlyGen(cl.log, |old(cl.log)|, old(cl.files), gen)
    ensures OnlyGen(old(cl.files), cl.files, gen)
    ensures ok ==> cl.files == Filled(old(cl.files), layout, s, gen, c, DataCount(s, size), |layout|)
    ensures (forall at :: at in layout ==> at in cl.up) ==> ok
    ensures InPlace(cl.files, layout, s, gen, c, DataCount(s, size))
    ensures AllInPlace(cl.log, |old(cl.log)|, layout, s, gen, c, DataCount(s, size))
    ensures AllTouch(cl.log, |old(cl.log)|, {gen})
  {
    if s.EC? && size == 0 { return true; }
    var d := Reopen(cl, layout, s, gen, size, c);
    if d.None? { return false; }
    ok := WriteFragments(cl, layout, s, gen, d.value, DataCount(s, size), |layout|);
  }

  // ---- Records ----

  /** The store with the record on the first `n` targets. */
  function WithRecords(files: Store, layout: Layout, sc: Sidecar, n: nat): Store
    requires n <= |layout|
  {
    if n == 0 then files else WithRecords(files, layout, sc, n - 1)[Loc(layout[n - 1], Meta) := Record(sc)]
  }

  lemma {:induction false} WithRecordsFacts(files: Store, layout: Layout, sc: Sidecar, n: nat)
    requires n <= |layout|
    ensures forall l: Loc :: l.name != Meta ==>
      (l in WithRecords(files, layout, sc, n) <==> l in files) && (l in files ==>
        WithRecords(files, layout, sc, n)[l] == files[l])
    ensures forall i :: 0 <= i < n ==> RecordAt(WithRecords(files, layout, sc, n), layout[i]) == Some(sc)
    ensures forall at :: var r := RecordAt(WithRecords(files, layout, sc, n), at);
      r == RecordAt(files, at) || r == Some(sc)
  {
    if n > 0 { WithRecordsFacts(files, layout, sc, n - 1); }
  }

  /** Only records differ. */
  ghost predicate MetaOnly(a: Store, b: Store) {
    forall l: Loc :: l.name != Meta ==> (l in a <==> l in b) && (l in a ==> a[l] == b[l])
  }

  ghost predicate AllMetaOnly(log: seq<Act>, from: nat, base: Store) {
    forall k :: from <= k < |log| ==> MetaOnly(base, After(log[k]))
  }

  /** Undo of a record write on one target. */
  function Undone(files: Store, at: DiskRef, prev: Option<Sidecar>): Store {
    if prev.Some? then files[Loc(at, Meta) := Record(prev.value)] else files - {Loc(at, Meta)}
  }

  /** Writing the new record, or undoing it, moves between midway states. */
  lemma CommitMidway(base: Store, files: Store, sc: Sidecar, prev: Option<Sidecar>, at: DiskRef)
    requires Midway(base, files, sc, prev) && Readable(files, sc)
    ensures Midway(base, files[Loc(at, Meta) := Record(sc)], sc, prev)
    ensures Readable(files[Loc(at, Meta) := Record(sc)], sc)
  {
    var now := files[Loc(at, Meta) := Record(sc)];
    SameGenReadable(files, now, sc);
    assert RecordAt(now, at) == Some(sc);
    forall r | IsRecord(now, r)
      ensures r == sc || IsRecord(base, r)
    {
      var a :| RecordAt(now, a) == Some(r);
      if a != at { assert RecordAt(files, a) == Some(r); }
    }
  }

  lemma UndoMidway(base: Store, files: Store, sc: Sidecar, prev: Option<Sidecar>, at: DiskRef)
    requires Midway(base, files, sc, prev) && Readable(files, sc)
    requires prev.Some? ==> IsRecord(base, prev.value)
    ensures Midway(base, Undone(files, at, prev), sc, prev) && Readable(Undone(files, at, prev), sc)
  {
    var now := Undone(files, at, prev);
    SameGenReadable(files, now, sc);
    if prev.Some? { assert RecordAt(now, at) == Some(prev.value); }
    forall r | IsRecord(now, r)
      ensures r == sc || IsRecord(base, r)
    {
      var a :| RecordAt(now, a) == Some(r);
      if a != at { assert RecordAt(files, a) == Some(r); }
    }
  }

  /** Restore the previous record on one target. */
  method UndoRecord(cl: Cluster, at: DiskRef, sc: Sidecar, prev: Option<Sidecar>, ghost base: Store,
                    ghost clear: bool)
    returns (ghost ok: bool)
    requires RecordAt(cl.files, at) == Some(sc)
    requires clear ==>
      Midway(base, cl.files, sc, prev) && Readable(cl.files, sc) && (prev.Some? ==> IsRecord(base, prev.value))
    requires cl.Valid()
    modifies cl`files, cl`log
    ensures cl.Valid()
    ensures old(cl.log) <= cl.log && (clear ==> AllMidway(cl.log, |old(cl.log)|, base, sc, prev))
    ensures MetaOnly(old(cl.files), cl.files) && AllMetaOnly(cl.log, |old(cl.log)|, old(cl.files))
    ensures clear ==> Midway(base, cl.files, sc, prev) && Readable(cl.files, sc)
    ensures cl.files == if ok then Undone(old(cl.files), at, prev) else old(cl.files)
    ensures at in cl.up ==> ok
    ensures AllTouch(cl.log, |old(cl.log)|, {})
  {
    if clear { UndoMidway(base, cl.files, sc, prev, at); }
    if prev.Some? {
      var put := cl.Put(Loc(at, Meta), Record(prev.value));
      ok := put;
    } else {
      var gone := cl.Delete(Loc(at, Meta));
      ok := !gone.Failed?;
    }
  }

  lemma UndoneRecords(files: Store, at: DiskRef, prev: Option<Sidecar>, x: DiskRef)
    ensures RecordAt(Undone(files, at, prev), x) == if x == at then prev else RecordAt(files, x)
  {
  }

  lemma MetaOnlyChain(a: Store, b: Store, log: seq<Act>, from: nat)
    requires MetaOnly(a, b) && AllMetaOnly(log, from, b)
    ensures AllMetaOnly(log, from, a)
  {
    forall k | from <= k < |log|
      ensures MetaOnly(a, After(log[k]))
    {
      assert MetaOnly(b, After(log[k]));
    }
  }

  /** The store with the record write undone on those of the first `n` targets in `undone`. */
  function UndoAll(files: Store, layout: Layout, prev: Option<Sidecar>, n: nat, undone: set<nat>): Store
    requires n <= |layout|
  {
    if n == 0 then files
    else
      var rest := UndoAll(files, layout, prev, n - 1, undone);
      if n - 1 in undone then Undone(rest, layout[n - 1], prev) else rest
  }

  lemma {:induction false} UndoAllSame(files: Store, layout: Layout, prev: Option<Sidecar>, n: nat, a: set<nat>,
                                       b: set<nat>)
    requires n <= |layout| && forall i: nat :: i < n ==> (i in a <==> i in b)
    ensures UndoAll(files, layout, prev, n, a) == UndoAll(files, layout, prev, n, b)
  {
    if n > 0 { UndoAllSame(files, layout, prev, n - 1, a, b); }
  }

  ghost predicate UndoneOn(layout: Layout, n: nat, undone: set<nat>, at: DiskRef)
    requires n <= |layout|
  {
    exists i: nat :: i < n && i in undone && layout[i] == at
  }

  lemma {:induction false} UndoAllFacts(files: Store, layout: Layout, prev: Option<Sidecar>, n: nat, undone: set<nat>,
                                        at: DiskRef)
    requires n <= |layout|
    ensures MetaOnly(files, UndoAll(files, layout, prev, n, undone))
    ensures RecordAt(UndoAll(files, layout, prev, n, undone), at)
      == if UndoneOn(layout, n, undone, at) then prev else RecordAt(files, at)
  {
    if n > 0 {
      UndoAllFacts(files, layout, prev, n - 1, undone, at);
      if n - 1 in undone {
        UndoneRecords(UndoAll(files, layout, prev, n - 1, undone), layout[n - 1], prev, at);
        if layout[n - 1] != at { assert UndoneOn(layout, n, undone, at) ==> UndoneOn(layout, n - 1, undone, at); }
      } else {
        assert UndoneOn(layout, n, undone, at) ==> UndoneOn(layout, n - 1, undone, at);
      }
    }
  }

  /** Restore the previous record (or none) on targets already committed; `undone` are those
      that took it back. */
  method RollbackSidecar(cl: Cluster, layout: Layout, n: nat, sc: Sidecar, prev: Option<Sidecar>, ghost base: Store,
                         ghost clear: bool)
    returns (ghost undone: set<nat>)
    requires n <= |layout|
    requires forall i, j :: 0 <= i < j < |layout| ==> layout[i] != layout[j]
    requires forall i :: 0 <= i < n ==> RecordAt(cl.files, layout[i]) == Some(sc)
    requires clear ==>
      Midway(base, cl.files, sc, prev) && Readable(cl.files, sc) && (prev.Some? ==> IsRecord(base, prev.value))
    requires cl.Valid()
    modifies cl`files, cl`log
    ensures cl.Valid()
    ensures cl.files == UndoAll(old(cl.files), layout, prev, n, undone)
    ensures forall i :: i in undone ==> i < n
    ensures forall i: nat :: i < n && i !in undone ==> layout[i] !in cl.up
    ensures old(cl.log) <= cl.log && (clear ==> AllMidway(cl.log, |old(cl.log)|, base, sc, prev))
    ensures MetaOnly(old(cl.files), cl.files) && AllMetaOnly(cl.log, |old(cl.log)|, old(cl.files))
    ensures clear ==> Midway(base, cl.files, sc, prev)
    ensures AllTouch(cl.log, |old(cl.log)|, {})
  {
    undone := {};
    for i := 0 to n
      invariant cl.Valid()
      invariant AllTouch(cl.log, |old(cl.log)|, {})
      invariant cl.files == UndoAll(old(cl.files), layout, prev, i, undone)
      invariant forall x :: x in undone ==> x < i
      invariant forall x: nat :: x < i && x !in undone ==> layout[x] !in cl.up
      invariant old(cl.log) <= cl.log && (clear ==> AllMidway(cl.log, |old(cl.log)|, base, sc, prev))
      invariant MetaOnly(old(cl.files), cl.files) && AllMetaOnly(cl.log, |old(cl.log)|, old(cl.files))
      invariant clear ==> Midway(base, cl.files, sc, prev) && Readable(cl.files, sc)
    {
      ghost var was, from := cl.files, |cl.log|;
      UndoAllFacts(old(cl.files), layout, prev, i, undone, layout[i]);
      var ok := UndoRecord(cl, layout[i], sc, prev, base, clear);
      MetaOnlyChain(old(cl.files), was, cl.log, from);
      if ok {
        UndoAllSame(old(cl.files), layout, prev, i, undone, undone + {i});
        undone := undone + {i};
      }
    }
  }

  /** Every one of the first `n` targets took the record back. */
  ghost predicate Reached(undone: set<nat>, n: nat) {
    forall i: nat :: i < n ==> i in undone
  }

  /** Write the record to the first `quorum` targets in turn; a failure rolls the touched
      ones back and refuses the write. */
  method CommitSidecar(cl: Cluster, layout: Layout, sc: Sidecar, prev: Option<Sidecar>, quorum: nat,
                       ghost base: Store, ghost clear: bool)
    returns (ok: bool, ghost failedAt: nat, ghost undone: set<nat>)
    requires quorum <= |layout| && forall i, j :: 0 <= i < j < |layout| ==> layout[i] != layout[j]
    requires clear ==>
      Midway(base, cl.files, sc, prev) && Readable(cl.files, sc) && (prev.Some? ==> IsRecord(base, prev.value))
    requires cl.Valid()
    modifies cl`files, cl`log
    ensures cl.Valid()
    ensures old(cl.log) <= cl.log && (clear ==> AllMidway(cl.log, |old(cl.log)|, base, sc, prev))
    ensures MetaOnly(old(cl.files), cl.files) && AllMetaOnly(cl.log, |old(cl.log)|, old(cl.files))
    ensures clear ==> Midway(base, cl.files, sc, prev)
    ensures ok ==> cl.files == WithRecords(old(cl.files), layout, sc, quorum) && |cl.log| == |old(cl.log)| + quorum
    ensures !ok ==> failedAt < quorum && layout[failedAt] !in cl.up && forall i :: i in undone ==> i < failedAt
    ensures !ok ==> forall i: nat :: i < failedAt && i !in undone ==> layout[i] !in cl.up
    ensures !ok ==> cl.files == TakenBack(old(cl.files), layout, sc, prev, failedAt, undone)
    ensures AllTouch(cl.log, |old(cl.log)|, {})
  {
    failedAt, undone := 0, {};
    for i := 0 to quorum
      invariant cl.Valid()
      invariant AllTouch(cl.log, |old(cl.log)|, {})
      invariant old(cl.log) <= cl.log && (clear ==> AllMidway(cl.log, |old(cl.log)|, base, sc, prev))
      invariant MetaOnly(old(cl.files), cl.files) && AllMetaOnly(cl.log, |old(cl.log)|, old(cl.files))
      invariant clear ==> Midway(base, cl.files, sc, prev) && Readable(cl.files, sc)
      invariant cl.files == WithRecords(old(cl.files), layout, sc, i) && |cl.log| == |old(cl.log)| + i
    {
      WithRecordsFacts(old(cl.files), layout, sc, i);
      if clear { CommitMidway(base, cl.files, sc, prev, layout[i]); }
      ok := cl.Put(Loc(layout[i], Meta), Record(sc));
      if !ok {
        ghost var touched, from := cl.files, |cl.log|;
        failedAt := i;
        undone := RollbackSidecar(cl, layout, i, sc, prev, base, clear);
        MetaOnlyChain(old(cl.files), touched, cl.log, from);
        return;
      }
    }
    ok := true;
  }

  /** The store after a commit that failed at one target and was taken back on some of the
      targets before it. */
  function TakenBack(files: Store, layout: Layout, sc: Sidecar, prev: Option<Sidecar>, failedAt: nat,
                     undone: set<nat>): Store
    requires failedAt <= |layout|
  {
    UndoAll(WithRecords(files, layout, sc, failedAt), layout, prev, failedAt, undone)
  }

  /** A target that did not take the record back still stores it. */
  lemma TakenBackRecords(files: Store, layout: Layout, sc: Sidecar, prev: Option<Sidecar>, failedAt: nat,
                         undone: set<nat>)
    requires failedAt <= |layout| && forall i, j :: 0 <= i < j < |layout| ==> layout[i] != layout[j]
    ensures MetaOnly(files, TakenBack(files, layout, sc, prev, failedAt, undone))
    ensures Reached(undone, failedAt) ==>
      forall at :: var r := RecordAt(TakenBack(files, layout, sc, prev, failedAt, undone), at);
      r == RecordAt(files, at) || r == prev
    ensures !Reached(undone, failedAt) ==> IsRecord(TakenBack(files, layout, sc, prev, failedAt, undone), sc)
  {
    var with, back := WithRecords(files, layout, sc, failedAt), TakenBack(files, layout, sc, prev, failedAt, undone);
    WithRecordsFacts(files, layout, sc, failedAt);
    forall at
      ensures MetaOnly(with, back)
      ensures RecordAt(back, at) == if UndoneOn(layout, failedAt, undone, at) then prev else RecordAt(with, at)
    {
      UndoAllFacts(with, layout, prev, failedAt, undone, at);
    }
    if Reached(undone, failedAt) {
      forall at
        ensures RecordAt(back, at) == RecordAt(files, at) || RecordAt(back, at) == prev
      {
        if i: nat :| i < failedAt && layout[i] == at {
          assert UndoneOn(layout, failedAt, undone, at);
        } else {
          WithRecordsElsewhere(files, layout, sc, failedAt, at);
        }
      }
    } else {
      var i: nat :| i < failedAt && i !in undone;
      assert !UndoneOn(layout, failedAt, undone, layout[i]);
      assert RecordAt(back, layout[i]) == Some(sc);
    }
  }

  lemma {:induction false} WithRecordsElsewhere(files: Store, layout: Layout, sc: Sidecar, n: nat, at: DiskRef)
    requires n <= |layout| && forall i :: 0 <= i < n ==> layout[i] != at
    ensures RecordAt(WithRecords(files, layout, sc, n), at) == RecordAt(files, at)
  {
    if n > 0 { WithRecordsElsewhere(files, layout, sc, n - 1, at); }
  }

  // ---- Put ----

  datatype PutRequest = PutRequest(body: Bytes, etag: Option<string>, attrs: string)

  /** The record a write commits: one sequence number past the previous one. */
  function NewRecord(req: PutRequest, s: Scheme, gen: string, now: int, prev: Option<Sidecar>): (sc: Sidecar)
    ensures prev.Some? ==> Supersedes(sc, prev.value)
  {
    Sidecar(s, |req.body|, gen, if prev.Some? then prev.value.seqNo + 1 else 1, now,
            if req.etag.Some? then Given(req.etag.value) else OfContent(Md5(req.body)),
            Md5(req.body), req.attrs)
  }

  /** What an acknowledged write leaves behind. */
  function Acked(files: Store, layout: Layout, sc: Sidecar, c: Bytes): Store
    requires |layout| == Copies(sc.scheme)
  {
    var q := WriteQuorum(sc.scheme);
    WithRecords(Filled(files, layout, sc.scheme, sc.gen, c, 0, q), layout, sc, q)
  }

  lemma {:induction false} FilledSplit(files: Store, layout: Layout, s: Scheme, gen: string, c: Bytes, lo: nat,
                                       mid: nat, hi: nat)
    requires lo <= mid <= hi <= |layout|
    ensures Filled(Filled(files, layout, s, gen, c, lo, mid), layout, s, gen, c, mid, hi) == Filled(files, layout, s,
      gen, c, lo, hi)
  {
    if mid < hi { FilledSplit(files, layout, s, gen, c, lo, mid, hi - 1); }
  }

  /** The synchronous fragment phase: the quorum's fragments, and for EC the parity too. */
  method WriteQuorumFragments(cl: Cluster, layout: Layout, s: Scheme, gen: string, c: Bytes) returns (ok: bool)
    requires ValidScheme(s) && |layout| == Copies(s)
    requires cl.Valid()
    modifies cl`files, cl`log
    ensures cl.Valid()
    ensures old(cl.log) <= cl.log && AllOnlyGen(cl.log, |old(cl.log)|, old(cl.files), gen)
    ensures OnlyGen(old(cl.files), cl.files, gen)
    ensures ok ==> cl.files == Filled(old(cl.files), layout, s, gen, c, 0, WriteQuorum(s))
    ensures ok ==> InPlace(cl.files, layout, s, gen, c, WriteQuorum(s))
    ensures (forall at :: at in layout ==> at in cl.up) ==> ok
  {
    var n := DataCount(s, |c|);
    ok := WriteFragments(cl, layout, s, gen, c, 0, n);
    if !ok { return; }
    FilledFacts(old(cl.files), layout, s, gen, c, 0, n);
    if s.EC? {
      ok := EncodeParity(cl, layout, s, gen, |c|, c);
      FilledSplit(old(cl.files), layout, s, gen, c, 0, n, |layout|);
      FilledFacts(old(cl.files), layout, s, gen, c, 0, |layout|);
    }
  }

  lemma OnlyGenRecords(a: Store, b: Store, gen: string)
    requires OnlyGen(a, b, gen)
    ensures forall at :: RecordAt(a, at) == RecordAt(b, at)
    ensures forall r :: IsRecord(a, r) <==> IsRecord(b, r)
  {
    forall at
      ensures RecordAt(a, at) == RecordAt(b, at)
    {
      assert Loc(at, Meta) in a <==> Loc(at, Meta) in b;
    }
  }

  /** While no record names the new generation, its fragments come and go freely. */
  lemma DiscardAllMidway(base: Store, was: Store, now: Store, log: seq<Act>, from: nat, sc: Sidecar,
                         prev: Option<Sidecar>)
    requires Clear(base, sc.gen, prev) && OtherGens(base, was, sc.gen)
    requires forall r :: IsRecord(was, r) ==> r != sc && IsRecord(base, r)
    requires prev.Some? ==> IsRecord(was, prev.value)
    requires OnlyGen(was, now, sc.gen) && AllOnlyGen(log, from, was, sc.gen)
    ensures Midway(base, now, sc, prev) && AllMidway(log, from, base, sc, prev)
    ensures forall r :: IsRecord(now, r) <==> IsRecord(was, r)
  {
    OnlyGenRecords(was, now, sc.gen);
    forall k | from <= k < |log|
      ensures Midway(base, After(log[k]), sc, prev)
    {
      OnlyGenRecords(was, After(log[k]), sc.gen);
    }
  }

  /** After a complete rollback no record names the refused generation. */
  lemma NoneNamed(base: Store, written: Store, now: Store, sc: Sidecar, prev: Option<Sidecar>)
    requires Clear(base, sc.gen, prev) && OnlyGen(base, written, sc.gen) && Midway(base, now, sc, prev)
    requires forall at :: RecordAt(now, at) == RecordAt(written, at) || RecordAt(now, at) == prev
    ensures forall r :: IsRecord(now, r) ==> r.gen != sc.gen && IsRecord(base, r)
    ensures prev.Some? ==> IsRecord(now, prev.value)
  {
    OnlyGenRecords(base, written, sc.gen);
    forall r | IsRecord(now, r)
      ensures r.gen != sc.gen && IsRecord(base, r)
    {
      var at :| RecordAt(now, at) == Some(r);
      assert RecordAt(written, at) == Some(r) || prev == Some(r);
    }
  }

  lemma MidwayCrowned(base: Store, files: Store, sc: Sidecar, prev: Option<Sidecar>)
    requires Clear(base, sc.gen, prev) && Midway(base, files, sc, prev) && IsRecord(files, sc)
    requires prev.Some? ==> Supersedes(sc, prev.value)
    ensures Crowned(files, sc)
  {
    forall r | IsRecord(files, r) && r != sc
      ensures Supersedes(sc, r)
    {
      SupersedesDominated(sc, prev.value, r);
    }
  }

  /** A refused write that was rolled back: other generations are untouched, no record names
      the new one, and the previous record is still the newest. */
  ghost predicate Undisturbed(base: Store, files: Store, gen: string, prev: Option<Sidecar>) {
    && OtherGens(base, files, gen)
    && (forall r :: IsRecord(files, r) ==> IsRecord(base, r) && r.gen != gen && prev.Some? && Dominates(prev.value, r))
    && (prev.Some? ==> IsRecord(files, prev.value))
  }

  /** How peers answered a write. A refused commit failed at one target, was taken back on
      the targets in `undone`, and left the fragments in `kept` behind. */
  datatype PutAnswers = AllWritten | NoQuorum | NoCommit(failedAt: nat, undone: set<nat>, kept: set<nat>)

  /** Failures come from targets that do not always answer. */
  ghost predicate Plausible(ans: PutAnswers, layout: Layout, quorum: nat, up: set<DiskRef>) {
    ans.NoCommit? ==>
      && ans.failedAt < quorum <= |layout| && layout[ans.failedAt] !in up
      && (forall i :: i in ans.undone ==> i < ans.failedAt)
      && (forall i: nat :: i < ans.failedAt && i !in ans.undone ==> layout[i] !in up)
      && (forall i :: i in ans.kept ==> i < |layout| && layout[i] !in up)
  }

  predicate RolledBack(ans: PutAnswers) {
    ans.NoCommit? ==> forall i: nat :: i < ans.failedAt ==> i in ans.undone
  }

  /** What a refused commit of fully written fragments leaves behind. */
  function Refused(files: Store, layout: Layout, sc: Sidecar, prev: Option<Sidecar>, ans: PutAnswers): Store
    requires ans.NoCommit? && ans.failedAt <= |layout|
  {
    Discarded(TakenBack(files, layout, sc, prev, ans.failedAt, ans.undone), layout, sc.gen, |layout|, ans.kept)
  }

  /** The undeleted fragments among the first `n` still make up the object. */
  ghost predicate EnoughKept(sc: Sidecar, n: nat, kept: set<nat>) {
    if sc.scheme.EC? then sc.size == 0 || |set i | i in kept && i < n| >= sc.scheme.k
    else exists i :: i in kept && i < n && i < FullReplicas(sc.scheme)
  }

  /** The generation's fragments are its first `n`, where they belong. */
  ghost predicate Staged(files: Store, layout: Layout, sc: Sidecar, c: Bytes, n: nat)
    requires n <= |layout|
  {
    && InPlace(files, layout, sc.scheme, sc.gen, c, n)
    && forall l :: l in files && l.name.Frag? && l.name.gen == sc.gen ==>
      l.name.index < n && l == Slot(layout, sc.gen, l.name.index)
  }

  lemma {:induction false} FilledStaged(base: Store, layout: Layout, sc: Sidecar, c: Bytes, n: nat)
    requires n <= |layout| && forall l: Loc :: l in base && l.name.Frag? ==> l.name.gen != sc.gen
    ensures Staged(Filled(base, layout, sc.scheme, sc.gen, c, 0, n), layout, sc, c, n)
  {
    FilledFacts(base, layout, sc.scheme, sc.gen, c, 0, n);
    if n > 0 { FilledStaged(base, layout, sc, c, n - 1); }
  }

  lemma KeptPieces(staged: Store, back: Store, layout: Layout, sc: Sidecar, c: Bytes, n: nat, kept: set<nat>, i: nat)
    requires ValidScheme(sc.scheme) && |layout| == Copies(sc.scheme) && |c| == sc.size && n <= |layout| && i < |layout|
    requires Staged(staged, layout, sc, c, n) && MetaOnly(staged, back)
    ensures HasPiece(Discarded(back, layout, sc.gen, |layout|, kept), sc, i) <==> i in kept && i < n
  {
    var now := Discarded(back, layout, sc.gen, |layout|, kept);
    DiscardedFacts(back, layout, sc.gen, |layout|, kept);
    if i in kept && i < n {
      PieceSize(sc.scheme, c, i);
      assert Slot(layout, sc.gen, i) in staged;
      assert RightSize(now, Slot(layout, sc.gen, i), sc);
    }
    if HasPiece(now, sc, i) {
      var at :| RightSize(now, Loc(at, Frag(sc.gen, i)), sc);
      assert Loc(at, Frag(sc.gen, i)) in staged;
      assert Slot(layout, sc.gen, i) in now;
    }
  }

  /** What the deletes left decides whether the refused generation could be read. */
  lemma KeptReadable(staged: Store, back: Store, layout: Layout, sc: Sidecar, c: Bytes, n: nat, kept: set<nat>)
    requires ValidScheme(sc.scheme) && |layout| == Copies(sc.scheme) && |c| == sc.size && n <= |layout|
    requires Staged(staged, layout, sc, c, n) && MetaOnly(staged, back)
    ensures Readable(Discarded(back, layout, sc.gen, |layout|, kept), sc) <==> EnoughKept(sc, n, kept)
  {
    var now := Discarded(back, layout, sc.gen, |layout|, kept);
    forall i: nat | i < |layout|
      ensures HasPiece(now, sc, i) <==> i in kept && i < n
    {
      KeptPieces(staged, back, layout, sc, c, n, kept, i);
    }
    if sc.scheme.EC? { assert Pieces(now, sc) == set i | i in kept && i < n; }
  }

  lemma ContainsReadable(a: Store, b: Store, r: Sidecar)
    requires Contains(a, b) && Readable(b, r)
    ensures Readable(a, r)
  {
    forall i: nat | HasPiece(b, r, i)
      ensures HasPiece(a, r, i)
    {
      var at :| RightSize(b, Loc(at, Frag(r.gen, i)), r);
      assert RightSize(a, Loc(at, Frag(r.gen, i)), r);
    }
    if r.scheme.EC? { Sets.Subset(Pieces(b, r), Pieces(a, r)); }
  }

  /** A record left behind by a rollback rules, so all is readable exactly while its
      generation is. */
  lemma LeftBehind(base: Store, back: Store, files: Store, log: seq<Act>, from: nat, sc: Sidecar, prev: Option<Sidecar>)
    requires Clear(base, sc.gen, prev) && (prev.Some? ==> Supersedes(sc, prev.value))
    requires Midway(base, back, sc, prev) && IsRecord(back, sc)
    requires OnlyGen(back, files, sc.gen) && AllOnlyGen(log, from, back, sc.gen) && AllContain(log, from, files)
    ensures MaxReadable(files) <==> Readable(files, sc)
    ensures Readable(files, sc) ==> AllMidway(log, from, base, sc, prev)
  {
    OnlyGenRecords(back, files, sc.gen);
    forall r | IsRecord(files, r)
      ensures Dominates(sc, r)
    {
      if r != sc { SupersedesDominated(sc, prev.value, r); }
      SupersedesTotal(sc, r);
    }
    if Readable(files, sc) {
      forall k | from <= k < |log|
        ensures Midway(base, After(log[k]), sc, prev)
      {
        OnlyGenRecords(back, After(log[k]), sc.gen);
        ContainsReadable(After(log[k]), files, sc);
      }
      MidwayReadable(base, files, sc, prev);
    }
  }

  /** The exact outcome of a refused commit: the newest record is readable at every step and
      at the end exactly when every committed target took its record back, or the fragments
      that could not be deleted still make up the object. */
  lemma RefusedReadableIff(base: Store, staged: Store, layout: Layout, sc: Sidecar, c: Bytes, prev: Option<Sidecar>,
                           n: nat, ans: PutAnswers,
                           log: seq<Act>, more: seq<Act>, from: nat)
    requires ValidScheme(sc.scheme) && ValidLayout(layout, sc.scheme) && |c| == sc.size && n <= |layout|
    requires Clear(base, sc.gen, prev) && (prev.Some? ==> Supersedes(sc, prev.value))
    requires OnlyGen(base, staged, sc.gen) && Staged(staged, layout, sc, c, n)
    requires ans.NoCommit? && ans.failedAt <= |layout| && from <= |log| && log <= more
    requires Midway(base, TakenBack(staged, layout, sc, prev, ans.failedAt, ans.undone), sc, prev)
    requires AllMidway(log, from, base, sc, prev)
    requires AllOnlyGen(more, |log|, TakenBack(staged, layout, sc, prev, ans.failedAt, ans.undone), sc.gen)
    requires AllContain(more, |log|, Refused(staged, layout, sc, prev, ans))
    ensures MaxReadable(Refused(staged, layout, sc, prev, ans)) && AllMaxReadable(more, from)
      <==> RolledBack(ans) || EnoughKept(sc, n, ans.kept)
    ensures RolledBack(ans) ==> Undisturbed(base, Refused(staged, layout, sc, prev, ans), sc.gen, prev)
    ensures RolledBack(ans) <==> forall q :: IsRecord(Refused(staged, layout, sc, prev, ans), q) ==> q.gen != sc.gen
    ensures RolledBack(ans) <==> !IsRecord(Refused(staged, layout, sc, prev, ans), sc)
  {
    var back, now := TakenBack(staged, layout, sc, prev, ans.failedAt, ans.undone), Refused(staged, layout, sc, prev,
                               ans);
    TakenBackRecords(staged, layout, sc, prev, ans.failedAt, ans.undone);
    DiscardedFacts(back, layout, sc.gen, |layout|, ans.kept);
    OnlyGenRecords(back, now, sc.gen);
    if RolledBack(ans) {
      NoneNamed(base, staged, back, sc, prev);
      DiscardAllMidway(base, back, now, more, |log|, sc, prev);
      MidwayReadable(base, now, sc, prev);
      AllMidwayJoin(log, more, from, base, sc, prev);
    } else {
      LeftBehind(base, back, now, more, |log|, sc, prev);
      KeptReadable(staged, back, layout, sc, c, n, ans.kept);
      if Readable(now, sc) { AllMidwayJoin(log, more, from, base, sc, prev); }
    }
  }

  lemma AllMidwayJoin(log: seq<Act>, more: seq<Act>, from: nat, base: Store, sc: Sidecar, prev: Option<Sidecar>)
    requires Clear(base, sc.gen, prev) && (prev.Some? ==> Supersedes(sc, prev.value)) && from <= |log| && log <= more
    requires AllMidway(log, from, base, sc, prev) && AllMidway(more, |log|, base, sc, prev)
    ensures AllMidway(more, from, base, sc, prev) && AllMaxReadable(more, from)
  {
    forall k | from <= k < |more|
      ensures Midway(base, After(more[k]), sc, prev)
    {
      if k < |log| { assert more[k] == log[k]; }
    }
    AllMidwayReadable(more, from, base, sc, prev);
  }

  ghost predicate AllOtherGens(log: seq<Act>, from: nat, base: Store, gen: string) {
    forall k :: from <= k < |log| ==> OtherGens(base, After(log[k]), gen)
  }

  lemma OtherGensOn(base: Store, was: Store, log: seq<Act>, from: nat, gen: string)
    requires OtherGens(base, was, gen) && (AllOnlyGen(log, from, was, gen) || AllMetaOnly(log, from, was))
    ensures AllOtherGens(log, from, base, gen)
  {
    forall k | from <= k < |log|
      ensures OtherGens(base, After(log[k]), gen)
    {
    }
  }

  lemma OnlyGenJoin(base: Store, was: Store, log: seq<Act>, more: seq<Act>, from: nat, gen: string)
    requires from <= |log| && log <= more && OnlyGen(base, was, gen)
    requires AllOnlyGen(log, from, base, gen) && AllOnlyGen(more, |log|, was, gen)
    ensures AllOnlyGen(more, from, base, gen)
  {
    forall k | from <= k < |more|
      ensures OnlyGen(base, After(more[k]), gen)
    {
      if k < |log| { assert more[k] == log[k]; } else { assert OnlyGen(was, After(more[k]), gen); }
    }
  }

  /** While no record names the new generation, all stays readable and nothing else changes. */
  lemma FragmentsReadable(base: Store, files: Store, log: seq<Act>, from: nat, sc: Sidecar, prev: Option<Sidecar>)
    requires Clear(base, sc.gen, prev) && (prev.Some? ==> Supersedes(sc, prev.value))
    requires OnlyGen(base, files, sc.gen) && AllOnlyGen(log, from, base, sc.gen)
    ensures MaxReadable(files) && AllMaxReadable(log, from) && Undisturbed(base, files, sc.gen, prev)
  {
    DiscardAllMidway(base, base, files, log, from, sc, prev);
    AllMidwayReadable(log, from, base, sc, prev);
    MidwayReadable(base, files, sc, prev);
  }

  lemma PhasesJoin(log: seq<Act>, more: seq<Act>, from: nat, base: Store, gen: string)
    requires from <= |log| && log <= more
    ensures AllOtherGens(log, from, base, gen) && AllOtherGens(more, |log|, base, gen) ==>
      AllOtherGens(more, from, base, gen)
    ensures AllMaxReadable(log, from) ==> (AllMaxReadable(more, from) <==> AllMaxReadable(more, |log|))
  {
    assert forall k :: from <= k < |log| ==> more[k] == log[k];
  }

  /** Commit fully written fragments; refused, they go. */
  method CommitOrDiscard(cl: Cluster, layout: Layout, sc: Sidecar, prev: Option<Sidecar>, quorum: nat,
                         ghost base: Store, ghost clear: bool, ghost c: Bytes)
    returns (ok: bool, ghost ans: PutAnswers)
    requires ValidScheme(sc.scheme) && ValidLayout(layout, sc.scheme) && |c| == sc.size
    requires WriteQuorum(sc.scheme) <= quorum <= |layout|
    requires OnlyGen(base, cl.files, sc.gen)
    requires clear ==>
      Clear(base, sc.gen, prev) && Staged(cl.files, layout, sc, c, quorum) && (prev.Some? ==>
        Supersedes(sc, prev.value))
    requires cl.Valid()
    modifies cl`files, cl`log
    ensures cl.Valid()
    ensures old(cl.log) <= cl.log && (ok <==> ans.AllWritten?) && !ans.NoQuorum?
    ensures ok ==> cl.files == WithRecords(old(cl.files), layout, sc, quorum) && |cl.log| == |old(cl.log)| + quorum
    ensures Plausible(ans, layout, quorum, cl.up)
    ensures ans.NoCommit? ==> cl.files == Refused(old(cl.files), layout, sc, prev, ans)
    ensures OtherGens(base, cl.files, sc.gen) && AllOtherGens(cl.log, |old(cl.log)|, base, sc.gen)
    ensures clear && ok ==> Crowned(cl.files, sc)
    ensures clear && !ok && RolledBack(ans) ==> Undisturbed(base, cl.files, sc.gen, prev)
    ensures clear && !ok ==> (RolledBack(ans) <==> forall q :: IsRecord(cl.files, q) ==> q.gen != sc.gen)
    ensures clear ==> (MaxReadable(cl.files) && AllMaxReadable(cl.log, |old(cl.log)|)
      <==> RolledBack(ans) || EnoughKept(sc, quorum, ans.kept))
  {
    ghost var written := cl.files;
    if clear {
      OnlyGenMidway(base, written, sc, prev);
      InPlaceReadable(written, layout, sc, c);
    }
    ghost var failedAt, undone;
    ok, failedAt, undone := CommitSidecar(cl, layout, sc, prev, quorum, base, clear);
    OtherGensOn(base, written, cl.log, |old(cl.log)|, sc.gen);
    ghost var committed, log := cl.files, cl.log;
    if !ok {
      ghost var kept := DiscardGeneration(cl, layout, sc.gen);
      ans := NoCommit(failedAt, undone, kept);
      OtherGensOn(base, committed, cl.log, |log|, sc.gen);
      if clear { RefusedReadableIff(base, written, layout, sc, c, prev, quorum, ans, log, cl.log, |old(cl.log)|); }
      return;
    }
    ans := AllWritten;
    WithRecordsFacts(written, layout, sc, quorum);
    if clear {
      AllMidwayReadable(cl.log, |old(cl.log)|, base, sc, prev);
      assert RecordAt(cl.files, layout[0]) == Some(sc);
      MidwayCrowned(base, cl.files, sc, prev);
      CrownedReadable(cl.files, sc);
    }
  }

  /** Write an object: acknowledged once the quorum is durable, refused otherwise. `prev` is
      what the read path returned as the current record. */
  method Put(cl: Cluster, layout: Layout, s: Scheme, gen: string, now: int, req: PutRequest, prev: Option<Sidecar>)
    returns (r: Option<Sidecar>, ghost ans: PutAnswers)
    requires ValidScheme(s) && ValidLayout(layout, s)
    requires cl.Valid()
    modifies cl`files, cl`log
    ensures cl.Valid()
    ensures old(cl.log) <= cl.log
    ensures r.Some? <==> ans.AllWritten?
    ensures r.Some? ==>
      r.value == NewRecord(req, s, gen, now, prev) && cl.files == Acked(old(cl.files), layout, r.value, req.body)
    ensures ans.NoQuorum? ==>
      OnlyGen(old(cl.files), cl.files, gen) && exists i :: 0 <= i < |layout| && layout[i] !in cl.up
    ensures Plausible(ans, layout, WriteQuorum(s), cl.up)
    ensures ans.NoCommit? ==>
      cl.files == Refused(Filled(old(cl.files), layout, s, gen, req.body, 0, WriteQuorum(s)), layout,
        NewRecord(req, s, gen, now, prev), prev, ans)
    ensures OtherGens(old(cl.files), cl.files, gen) && AllOtherGens(cl.log, |old(cl.log)|, old(cl.files), gen)
    ensures old(Clear(cl.files, gen, prev)) && r.Some? ==> Crowned(cl.files, r.value)
    ensures old(Clear(cl.files, gen, prev)) && r.None? && RolledBack(ans) ==>
      Undisturbed(old(cl.files), cl.files, gen, prev)
    ensures old(Clear(cl.files, gen, prev)) && r.None? ==>
      (RolledBack(ans) <==> forall q :: IsRecord(cl.files, q) ==> q.gen != gen)
    ensures old(Clear(cl.files, gen, prev)) ==> (MaxReadable(cl.files) && AllMaxReadable(cl.log, |old(cl.log)|)
      <==> RolledBack(ans) || EnoughKept(NewRecord(req, s, gen, now, prev), WriteQuorum(s), ans.kept))
    ensures (forall at :: at in layout ==> at in cl.up) ==> r.Some?
  {
    ghost var base := cl.files;
    ghost var clear := Clear(base, gen, prev);
    var sc := NewRecord(req, s, gen, now, prev);
    var ok := WriteQuorumFragments(cl, layout, s, gen, req.body);
    ghost var written, log := cl.files, cl.log;
    if !ok {
      ghost var _ := DiscardGeneration(cl, layout, gen);
      OnlyGenJoin(base, written, log, cl.log, |old(cl.log)|, gen);
      OtherGensOn(base, base, cl.log, |old(cl.log)|, gen);
      if clear { FragmentsReadable(base, cl.files, cl.log, |old(cl.log)|, sc, prev); }
      return None, NoQuorum;
    }
    OtherGensOn(base, base, log, |old(cl.log)|, gen);
    if clear {
      FragmentsReadable(base, written, log, |old(cl.log)|, sc, prev);
      FilledStaged(base, layout, sc, req.body, WriteQuorum(s));
    }
    ok, ans := CommitOrDiscard(cl, layout, sc, prev, WriteQuorum(s), base, clear, req.body);
    PhasesJoin(log, cl.log, |old(cl.log)|, base, gen);
    r := if ok then Some(sc) else None;
  }

  /** The rollback can leave a committed object nobody can read: nothing was stored before,
      the record reaches the first of three replicas, fails on the second, and the first
      does not answer again until its fragment was to be deleted. */
  lemma OrphanedWrite(layout: Layout, gen: string, now: int, attrs: string)
    requires ValidLayout(layout, RF3)
    ensures var sc := NewRecord(PutRequest([7], None, attrs), RF3, gen, now, None);
      var ans := NoCommit(1, {}, {});
      var left := Refused(Filled(map[], layout, RF3, gen, [7], 0, 2), layout, sc, None, ans);
      && Clear(map[], gen, None)
      && Plausible(ans, layout, WriteQuorum(RF3), {})
      && IsRecord(left, sc)
      && !MaxReadable(left)
  {
    var sc := NewRecord(PutRequest([7], None, attrs), RF3, gen, now, None);
    var ans := NoCommit(1, {}, {});
    var staged := Filled(map[], layout, RF3, gen, [7], 0, 2);
    var back, left := TakenBack(staged, layout, sc, None, 1, {}), Refused(staged, layout, sc, None, ans);
    FilledStaged(map[], layout, sc, [7], 2);
    TakenBackRecords(staged, layout, sc, None, 1, {});
    DiscardedFacts(back, layout, gen, 3, {});
    OnlyGenRecords(back, left, gen);
    KeptReadable(staged, back, layout, sc, [7], 2, {});
    FilledFacts(map[], layout, RF3, gen, [7], 0, 2);
    OnlyGenRecords(map[], staged, gen);
    forall r | IsRecord(left, r)
      ensures Dominates(sc, r)
    {
      var at :| RecordAt(back, at) == Some(r);
      WithRecordsFacts(staged, layout, sc, 1);
      UndoAllFacts(WithRecords(staged, layout, sc, 1), layout, None, 1, {}, at);
      SupersedesTotal(sc, r);
    }
    assert !Readable(left, sc);
  }

  // ---- Retiring a superseded generation ----

  /** The record may be retired with generation `sc`: it names it, or does not supersede it. */
  predicate Stale(r: Sidecar, sc: Sidecar) {
    r.gen == sc.gen || !Supersedes(r, sc)
  }

  /** Only fragments of the retired generation, and stale records outside the new placement,
      were deleted. */
  ghost predicate Pruned(base: Store, files: Store, sc: Sidecar, covered: Layout) {
    && (forall l :: l in files ==> l in base && files[l] == base[l])
    && (forall l :: l in base && l !in files ==>
          if l.name.Frag? then l.name.gen == sc.gen
          else l.name == Meta && l.at !in covered && base[l].Record? && Stale(base[l].sc, sc))
  }

  ghost predicate AllPruned(log: seq<Act>, from: nat, base: Store, sc: Sidecar, covered: Layout) {
    forall k :: from <= k < |log| ==> Pruned(base, After(log[k]), sc, covered)
  }

  /** Bookkeeping of a cleanup: what was handled, and whether something failed. */
  datatype Progress = Progress(frags: set<(DiskRef, nat)>, metas: set<DiskRef>, failed: bool)

  ghost predicate CleanupDone(files: Store, base: Store, pr: Progress, sc: Sidecar, looks: seq<Reading>, from: nat) {
    && (forall f :: f in pr.frags && !pr.failed ==> Loc(f.0, Frag(sc.gen, f.1)) !in files)
    && (forall at :: at in pr.metas && !pr.failed && !Unanswered(looks, from, at) && RecordAt(files, at).Some? ==>
          !Stale(RecordAt(files, at).value, sc))
    && (forall at :: Unanswered(looks, from, at) ==> at in pr.metas)
    && (forall at :: Unanswered(looks, from, at) || at !in pr.metas ==> RecordAt(files, at) == RecordAt(base, at))
  }

  /** A cleanup that began at reading `from`. */
  ghost predicate Cleaning(cl: Cluster, base: Store, pr: Progress, sc: Sidecar, covered: Layout, from: nat)
    reads cl
  {
    from <= |cl.looks| && Pruned(base, cl.files, sc, covered) && CleanupDone(cl.files, base, pr, sc, cl.looks, from)
  }

  lemma UnansweredMore(looks: seq<Reading>, from: nat, r: Reading, at: DiskRef)
    requires from <= |looks|
    ensures Unanswered(looks + [r], from, at) <==> Unanswered(looks, from, at) || (r.at == at && !r.answered)
  {
    var more := looks + [r];
    if Unanswered(looks, from, at) {
      var k :| from <= k < |looks| && looks[k].at == at && !looks[k].answered;
      assert more[k] == looks[k];
    }
    assert more[|looks|] == r;
  }

  /** Fragment deletes are deduplicated by (disk, index). */
  method CleanupFragment(cl: Cluster, at: DiskRef, i: nat, sc: Sidecar, covered: Layout, was: Progress,
                         ghost base: Store, ghost from: nat)
    returns (pr: Progress)
    requires Cleaning(cl, base, was, sc, covered, from)
    requires cl.Valid()
    modifies cl`files, cl`log
    ensures cl.Valid()
    ensures old(cl.log) <= cl.log && AllPruned(cl.log, |old(cl.log)|, base, sc, covered)
    ensures Cleaning(cl, base, pr, sc, covered, from)
    ensures pr == was.(frags := was.frags + {(at, i)}, failed := pr.failed) && (was.failed ==> pr.failed)
    ensures at in cl.up ==> pr.failed == was.failed
    ensures AllTouch(cl.log, |old(cl.log)|, {sc.gen})
  {
    pr := was;
    if (at, i) in pr.frags {
      assert pr.frags + {(at, i)} == pr.frags;
      return;
    }
    pr := pr.(frags := pr.frags + {(at, i)});
    var gone := cl.Delete(Loc(at, Frag(sc.gen, i)));
    if gone.Failed? { pr := pr.(failed := true); }
    assert forall a :: RecordAt(cl.files, a) == RecordAt(old(cl.files), a);
  }

  /** A target outside the new placement gives up a record that is not newer. */
  method CleanupRecord(cl: Cluster, at: DiskRef, sc: Sidecar, covered: Layout, was: Progress, ghost base: Store,
                       ghost from: nat)
    returns (pr: Progress)
    requires Cleaning(cl, base, was, sc, covered, from)
    requires cl.Valid()
    modifies cl`files, cl`log, cl`looks
    ensures cl.Valid() && old(cl.looks) <= cl.looks
    ensures old(cl.log) <= cl.log && AllPruned(cl.log, |old(cl.log)|, base, sc, covered)
    ensures Cleaning(cl, base, pr, sc, covered, from)
    ensures pr.frags == was.frags && was.metas <= pr.metas && (was.failed ==> pr.failed)
    ensures at in covered || at in pr.metas
    ensures at in cl.up ==> pr.failed == was.failed
    ensures AllTouch(cl.log, |old(cl.log)|, {sc.gen})
  {
    pr := was;
    if at in covered || at in pr.metas { return; }
    pr := pr.(metas := pr.metas + {at});
    var cur := cl.ReadRecord(at);
    forall a
      ensures Unanswered(cl.looks, from, a) <==> Unanswered(old(cl.looks), from, a) || (a == at && cur.Failed?)
    {
      UnansweredMore(old(cl.looks), from, Reading(at, cl.files, !cur.Failed?, |cl.log|), a);
    }
    if !cur.Found? || !Stale(cur.value, sc) { return; }
    var gone := cl.Delete(Loc(at, Meta));
    if gone.Failed? { pr := pr.(failed := true); }
    assert forall a :: a != at ==> RecordAt(cl.files, a) == RecordAt(old(cl.files), a);
  }

  /** One (target, index) of one epoch's plan. */
  method CleanupItem(cl: Cluster, at: DiskRef, i: nat, sc: Sidecar, covered: Layout, was: Progress, ghost base: Store,
                     ghost from: nat)
    returns (pr: Progress)
    requires Cleaning(cl, base, was, sc, covered, from)
    requires cl.Valid()
    modifies cl`files, cl`log, cl`looks
    ensures cl.Valid() && old(cl.looks) <= cl.looks
    ensures old(cl.log) <= cl.log && AllPruned(cl.log, |old(cl.log)|, base, sc, covered)
    ensures Cleaning(cl, base, pr, sc, covered, from)
    ensures was.frags <= pr.frags && was.metas <= pr.metas && (was.failed ==> pr.failed)
    ensures !pr.failed ==> (at, i) in pr.frags && (at in covered || at in pr.metas)
    ensures at in cl.up ==> pr.failed == was.failed
    ensures AllTouch(cl.log, |old(cl.log)|, {sc.gen})
  {
    var dialed := cl.Answers(at);
    if !dialed { return was.(failed := true); }
    pr := CleanupFragment(cl, at, i, sc, covered, was, base, from);
    pr := CleanupRecord(cl, at, sc, covered, pr, base, from);
  }

  ghost predicate Covered(pr: Progress, plans: seq<Layout>, covered: Layout, p: nat, i: nat)
    requires p < |plans| && i < |plans[p]|
  {
    (plans[p][i], i) in pr.frags && (plans[p][i] in covered || plans[p][i] in pr.metas)
  }

  /** Remove a superseded generation across every remembered epoch's placement, and its
      records on targets outside the new placement. */
  method CleanupGeneration(cl: Cluster, covered: Layout, sc: Sidecar, plans: seq<Layout>) returns (failed: bool)
    requires cl.Valid()
    modifies cl`files, cl`log, cl`looks
    ensures cl.Valid() && old(cl.looks) <= cl.looks
    ensures old(cl.log) <= cl.log && AllPruned(cl.log, |old(cl.log)|, old(cl.files), sc, covered)
    ensures Pruned(old(cl.files), cl.files, sc, covered)
    ensures !failed ==>
      forall p, i: nat :: 0 <= p < |plans| && i < |plans[p]| ==> Slot(plans[p], sc.gen, i) !in cl.files
    ensures !failed ==> forall p, i :: 0 <= p < |plans| && 0 <= i < |plans[p]| && plans[p][i] !in covered ==>
      StaleGone(old(cl.files), cl.files, sc, plans[p][i], Unanswered(cl.looks, |old(cl.looks)|, plans[p][i]))
    ensures (forall p, i :: 0 <= p < |plans| && 0 <= i < |plans[p]| ==> plans[p][i] in cl.up) ==> !failed
    ensures AllTouch(cl.log, |old(cl.log)|, {sc.gen})
  {
    var pr := Progress({}, {}, false);
    for p := 0 to |plans|
      invariant cl.Valid() && old(cl.looks) <= cl.looks
      invariant AllTouch(cl.log, |old(cl.log)|, {sc.gen})
      invariant old(cl.log) <= cl.log && AllPruned(cl.log, |old(cl.log)|, old(cl.files), sc, covered)
      invariant Cleaning(cl, old(cl.files), pr, sc, covered, |old(cl.looks)|)
      invariant !pr.failed ==> forall q, n: nat :: 0 <= q < p && n < |plans[q]| ==> Covered(pr, plans, covered, q, n)
      invariant (forall p, i :: 0 <= p < |plans| && 0 <= i < |plans[p]| ==> plans[p][i] in cl.up) ==> !pr.failed
    {
      for i := 0 to |plans[p]|
        invariant cl.Valid() && old(cl.looks) <= cl.looks
        invariant AllTouch(cl.log, |old(cl.log)|, {sc.gen})
        invariant old(cl.log) <= cl.log && AllPruned(cl.log, |old(cl.log)|, old(cl.files), sc, covered)
        invariant Cleaning(cl, old(cl.files), pr, sc, covered, |old(cl.looks)|)
        invariant !pr.failed ==> forall q, n: nat :: 0 <= q < p && n < |plans[q]| ==> Covered(pr, plans, covered, q, n)
        invariant !pr.failed ==> forall n: nat :: n < i ==> Covered(pr, plans, covered, p, n)
        invariant (forall p, i :: 0 <= p < |plans| && 0 <= i < |plans[p]| ==> plans[p][i] in cl.up) ==> !pr.failed
      {
        ghost var was := pr;
        pr := CleanupItem(cl, plans[p][i], i, sc, covered, pr, old(cl.files), |old(cl.looks)|);
        assert forall q, n: nat :: 0 <= q < |plans| && n < |plans[q]| && Covered(was, plans, covered, q, n) ==>
          Covered(pr, plans, covered, q, n);
      }
    }
    failed := pr.failed;
    if !failed {
      forall p, i: nat | 0 <= p < |plans| && i < |plans[p]|
        ensures Slot(plans[p], sc.gen, i) !in cl.files
        ensures plans[p][i] !in covered ==>
          StaleGone(old(cl.files), cl.files, sc, plans[p][i], Unanswered(cl.looks, |old(cl.looks)|, plans[p][i]))
      {
        assert Covered(pr, plans, covered, p, i);
      }
    }
  }

  /** On a target that told its record, a stale record is gone; on one that did not, the
      record is what it was. A superseding record always stays. */
  ghost predicate StaleGone(base: Store, files: Store, sc: Sidecar, at: DiskRef, untold: bool) {
    if !untold && RecordAt(base, at).Some? && Stale(RecordAt(base, at).value, sc)
    then RecordAt(files, at) == None
    else RecordAt(files, at) == RecordAt(base, at)
  }

  lemma PrunedCrowned(base: Store, files: Store, old_: Sidecar, covered: Layout, sc: Sidecar)
    requires Pruned(base, files, old_, covered) && Crowned(base, sc) && old_.gen != sc.gen
    requires |covered| > 0 && RecordAt(base, covered[0]) == Some(sc)
    ensures Crowned(files, sc)
  {
    SameGenReadable(base, files, sc);
    assert RecordAt(files, covered[0]) == Some(sc);
    forall r | IsRecord(files, r)
      ensures r == sc || Supersedes(sc, r)
    {
      var at :| RecordAt(files, at) == Some(r);
      assert RecordAt(base, at) == Some(r);
    }
  }

  // ---- The asynchronous remainder ----

  ghost predicate AllCrowned(log: seq<Act>, from: nat, sc: Sidecar) {
    forall k :: from <= k < |log| ==> Crowned(After(log[k]), sc)
  }

  lemma AllCrownedReadable(log: seq<Act>, from: nat, sc: Sidecar)
    requires AllCrowned(log, from, sc)
    ensures AllMaxReadable(log, from)
  {
    forall k | from <= k < |log|
      ensures MaxReadable(After(log[k]))
    {
      CrownedReadable(After(log[k]), sc);
    }
  }

  lemma OnlyGenCrowned(was: Store, now: Store, layout: Layout, sc: Sidecar, c: Bytes)
    requires Crowned(was, sc) && OnlyGen(was, now, sc.gen)
    requires |layout| == Copies(sc.scheme) && |c| == sc.size
    requires InPlace(now, layout, sc.scheme, sc.gen, c, WriteQuorum(sc.scheme))
    ensures Crowned(now, sc)
  {
    OnlyGenRecords(was, now, sc.gen);
    InPlaceReadable(now, layout, sc, c);
  }

  lemma ExtendCrowned(was: Store, sc: Sidecar, at: DiskRef)
    requires Crowned(was, sc)
    ensures Crowned(was[Loc(at, Meta) := Record(sc)], sc)
  {
    var now := was[Loc(at, Meta) := Record(sc)];
    SameGenReadable(was, now, sc);
    assert RecordAt(now, at) == Some(sc);
    forall r | IsRecord(now, r)
      ensures r == sc || Supersedes(sc, r)
    {
      var a :| RecordAt(now, a) == Some(r);
      if a != at { assert RecordAt(was, a) == Some(r); }
    }
  }

  /** Every target of the layout has the record. */
  ghost predicate RecordedOn(files: Store, layout: Layout, sc: Sidecar, n: nat)
    requires n <= |layout|
  {
    forall i :: 0 <= i < n ==> RecordAt(files, layout[i]) == Some(sc)
  }

  /** Produce the fragments and records the quorum left out. */
  method ExtendWrite(cl: Cluster, layout: Layout, sc: Sidecar, ghost c: Bytes) returns (ok: bool)
    requires ValidScheme(sc.scheme) && ValidLayout(layout, sc.scheme) && |c| == sc.size
    requires Crowned(cl.files, sc) && RecordedOn(cl.files, layout, sc, WriteQuorum(sc.scheme))
    requires InPlace(cl.files, layout, sc.scheme, sc.gen, c, WriteQuorum(sc.scheme))
    requires cl.Valid()
    modifies cl`files, cl`log
    ensures cl.Valid()
    ensures old(cl.log) <= cl.log && AllCrowned(cl.log, |old(cl.log)|, sc)
    ensures Crowned(cl.files, sc) && RecordedOn(cl.files, layout, sc, WriteQuorum(sc.scheme))
    ensures ok ==>
      RecordedOn(cl.files, layout, sc, |layout|) && InPlace(cl.files, layout, sc.scheme, sc.gen, c, |layout|)
    ensures (forall at :: at in layout ==> at in cl.up) ==> ok
  {
    if sc.scheme.EC? { return true; }
    ok := EncodeParity(cl, layout, sc.scheme, sc.gen, sc.size, c);
    ghost var encoded := cl.files;
    OnlyGenCrowned(old(cl.files), cl.files, layout, sc, c);
    OnlyGenRecords(old(cl.files), cl.files, sc.gen);
    forall k | |old(cl.log)| <= k < |cl.log|
      ensures Crowned(After(cl.log[k]), sc)
    {
      OnlyGenCrowned(old(cl.files), After(cl.log[k]), layout, sc, c);
    }
    if !ok { return; }
    FilledFacts(old(cl.files), layout, sc.scheme, sc.gen, c, 2, 3);
    assert InPlace(cl.files, layout, sc.scheme, sc.gen, c, |layout|);
    for i := WriteQuorum(sc.scheme) to |layout|
      invariant cl.Valid()
      invariant old(cl.log) <= cl.log && AllCrowned(cl.log, |old(cl.log)|, sc)
      invariant Crowned(cl.files, sc) && RecordedOn(cl.files, layout, sc, i)
      invariant InPlace(cl.files, layout, sc.scheme, sc.gen, c, |layout|)
    {
      ExtendCrowned(cl.files, sc, layout[i]);
      ok := cl.Put(Loc(layout[i], Meta), Record(sc));
      if !ok { return; }
    }
  }

  /** The remainder of an acknowledged write: extend it to every target, then retire the
      previous generation. `plans` are the previous object's remembered layouts. */
  method CompleteWrite(cl: Cluster, layout: Layout, sc: Sidecar, prev: Option<Sidecar>, plans: seq<Layout>,
                       ghost c: Bytes)
    returns (done: bool)
    requires ValidScheme(sc.scheme) && ValidLayout(layout, sc.scheme) && |c| == sc.size
    requires Crowned(cl.files, sc) && RecordedOn(cl.files, layout, sc, WriteQuorum(sc.scheme))
    requires InPlace(cl.files, layout, sc.scheme, sc.gen, c, WriteQuorum(sc.scheme))
    requires prev.Some? ==> prev.value.gen != sc.gen
    requires cl.Valid()
    modifies cl`files, cl`log, cl`looks
    ensures cl.Valid() && old(cl.looks) <= cl.looks
    ensures old(cl.log) <= cl.log && AllMaxReadable(cl.log, |old(cl.log)|)
    ensures Crowned(cl.files, sc)
    ensures done ==>
      RecordedOn(cl.files, layout, sc, |layout|) && InPlace(cl.files, layout, sc.scheme, sc.gen, c, |layout|)
    ensures done && prev.Some? ==>
      forall p, i: nat :: 0 <= p < |plans| && i < |plans[p]| ==> Slot(plans[p], prev.value.gen, i) !in cl.files
  {
    done := ExtendWrite(cl, layout, sc, c);
    AllCrownedReadable(cl.log, |old(cl.log)|, sc);
    if !done || prev.None? { return; }
    ghost var was, mid := cl.files, |cl.log|;
    var failed := CleanupGeneration(cl, layout, prev.value, plans);
    PrunedCrowned(was, cl.files, prev.value, layout, sc);
    forall k | mid <= k < |cl.log|
      ensures MaxReadable(After(cl.log[k]))
    {
      PrunedCrowned(was, After(cl.log[k]), prev.value, layout, sc);
      CrownedReadable(After(cl.log[k]), sc);
    }
    assert forall i :: 0 <= i < |layout| ==> RecordAt(cl.files, layout[i]) == RecordAt(was, layout[i]);
    done := !failed;
  }

  /** A write and its remainder, back to back: at every step the newest record is readable,
      unless a refused write could not be rolled back. */
  method PutAndComplete(cl: Cluster, layout: Layout, s: Scheme, gen: string, now: int, req: PutRequest,
                        prev: Option<Sidecar>, plans: seq<Layout>)
    returns (r: Option<Sidecar>, ghost ans: PutAnswers)
    requires ValidScheme(s) && ValidLayout(layout, s) && Clear(cl.files, gen, prev)
    requires cl.Valid()
    modifies cl`files, cl`log, cl`looks
    ensures cl.Valid() && old(cl.looks) <= cl.looks
    ensures old(cl.log) <= cl.log && Plausible(ans, layout, WriteQuorum(s), cl.up)
    ensures MaxReadable(cl.files) && AllMaxReadable(cl.log, |old(cl.log)|)
      <==> RolledBack(ans) || EnoughKept(NewRecord(req, s, gen, now, prev), WriteQuorum(s), ans.kept)
    ensures r.Some? <==> ans.AllWritten?
    ensures r.Some? ==> Crowned(cl.files, r.value) && r.value == NewRecord(req, s, gen, now, prev)
  {
    r, ans := Put(cl, layout, s, gen, now, req, prev);
    if r.Some? {
      AckedFacts(old(cl.files), layout, r.value, req.body);
      var _ := CompleteWrite(cl, layout, r.value, prev, plans, req.body);
      CrownedReadable(cl.files, r.value);
    }
  }

  lemma AckedFacts(files: Store, layout: Layout, sc: Sidecar, c: Bytes)
    requires |layout| == Copies(sc.scheme)
    ensures RecordedOn(Acked(files, layout, sc, c), layout, sc, WriteQuorum(sc.scheme))
    ensures InPlace(Acked(files, layout, sc, c), layout, sc.scheme, sc.gen, c, WriteQuorum(sc.scheme))
  {
    var q := WriteQuorum(sc.scheme);
    FilledFacts(files, layout, sc.scheme, sc.gen, c, 0, q);
    WithRecordsFacts(Filled(files, layout, sc.scheme, sc.gen, c, 0, q), layout, sc, q);
  }

  // ---- Delete ----

  /** What a delete handled so far. */
  ghost predicate Deleted(files: Store, sc: Sidecar, metas: set<DiskRef>, frags: set<(DiskRef, nat)>, failed: bool) {
    && (forall at :: at in metas && !failed ==> Loc(at, Meta) !in files)
    && (forall f :: f in frags && !failed ==> Loc(f.0, Frag(sc.gen, f.1)) !in files)
  }

  /** Files were only deleted: records and this generation's fragments, on the object's targets. */
  ghost predicate OnlyObject(base: Store, files: Store, sc: Sidecar, plans: seq<Layout>) {
    && (forall l :: l in files ==> l in base && files[l] == base[l])
    && (forall l :: l in base && l !in files ==>
          (l.name == Meta || (l.name.Frag? && l.name.gen == sc.gen)) && exists p, i ::
            0 <= p < |plans| && 0 <= i < |plans[p]| && plans[p][i] == l.at)
  }

  /** A fragment goes only once its target's record is gone. */
  ghost predicate RecordFirst(a: Act) {
    a.Erase? && (a.loc.name.Frag? ==> Loc(a.loc.at, Meta) !in a.before)
  }

  ghost predicate AllRecordFirst(log: seq<Act>, from: nat) {
    forall k :: from <= k < |log| ==> RecordFirst(log[k])
  }

  /** One (target, index): the record first, then the fragment. */
  method DeleteItem(cl: Cluster, at: DiskRef, i: nat, sc: Sidecar, metas0: set<DiskRef>, frags0: set<(DiskRef, nat)>,
                    failed0: bool, ghost base: Store, ghost plans: seq<Layout>)
    returns (metas: set<DiskRef>, frags: set<(DiskRef, nat)>, failed: bool)
    requires Deleted(cl.files, sc, metas0, frags0, failed0) && OnlyObject(base, cl.files, sc, plans)
    requires exists p, i :: 0 <= p < |plans| && 0 <= i < |plans[p]| && plans[p][i] == at
    requires cl.Valid()
    modifies cl`files, cl`log
    ensures cl.Valid()
    ensures Deleted(cl.files, sc, metas, frags, failed) && OnlyObject(base, cl.files, sc, plans)
    ensures old(cl.log) <= cl.log && (!failed ==> AllRecordFirst(cl.log, |old(cl.log)|))
    ensures metas0 <= metas && frags0 <= frags && (failed0 ==> failed)
    ensures !failed ==> at in metas && (at, i) in frags
    ensures at in cl.up ==> failed == failed0
  {
    metas, frags, failed := metas0, frags0, failed0;
    var dialed := cl.Answers(at);
    if !dialed { failed := true; return; }
    if at !in metas {
      metas := metas + {at};
      var gone := cl.Delete(Loc(at, Meta));
      if gone.Failed? { failed := true; return; }
    }
    if (at, i) in frags { return; }
    frags := frags + {(at, i)};
    var gone := cl.Delete(Loc(at, Frag(sc.gen, i)));
    if gone.Failed? { failed := true; }
  }

  /** Remove an object's records and fragments across every remembered epoch's placement. */
  method Delete(cl: Cluster, sc: Sidecar, plans: seq<Layout>) returns (failed: bool)
    requires cl.Valid()
    modifies cl`files, cl`log
    ensures cl.Valid()
    ensures OnlyObject(old(cl.files), cl.files, sc, plans)
    ensures old(cl.log) <= cl.log && (!failed ==> AllRecordFirst(cl.log, |old(cl.log)|))
    ensures !failed ==> forall p, i: nat :: 0 <= p < |plans| && i < |plans[p]| ==>
      Loc(plans[p][i], Meta) !in cl.files && Slot(plans[p], sc.gen, i) !in cl.files
    ensures (forall p, i :: 0 <= p < |plans| && 0 <= i < |plans[p]| ==> plans[p][i] in cl.up) ==> !failed
  {
    var metas, frags := {}, {};
    failed := false;
    for p := 0 to |plans|
      invariant cl.Valid()
      invariant Deleted(cl.files, sc, metas, frags, failed) && OnlyObject(old(cl.files), cl.files, sc, plans)
      invariant old(cl.log) <= cl.log && (!failed ==> AllRecordFirst(cl.log, |old(cl.log)|))
      invariant !failed ==>
        forall q, n: nat :: 0 <= q < p && n < |plans[q]| ==> plans[q][n] in metas && (plans[q][n], n) in frags
      invariant (forall p, i :: 0 <= p < |plans| && 0 <= i < |plans[p]| ==> plans[p][i] in cl.up) ==> !failed
    {
      for i := 0 to |plans[p]|
        invariant cl.Valid()
        invariant Deleted(cl.files, sc, metas, frags, failed) && OnlyObject(old(cl.files), cl.files, sc, plans)
        invariant old(cl.log) <= cl.log && (!failed ==> AllRecordFirst(cl.log, |old(cl.log)|))
        invariant !failed ==>
          forall q, n: nat :: 0 <= q < p && n < |plans[q]| ==> plans[q][n] in metas && (plans[q][n], n) in frags
        invariant !failed ==> forall n: nat :: n < i ==> plans[p][n] in metas && (plans[p][n], n) in frags
        invariant (forall p, i :: 0 <= p < |plans| && 0 <= i < |plans[p]| ==> plans[p][i] in cl.up) ==> !failed
      {
        metas, frags, failed := DeleteItem(cl, plans[p][i], i, sc, metas, frags, failed, old(cl.files), plans);
      }
    }
  }
}
