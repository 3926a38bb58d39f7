/**
 The memory of recently observed topology epochs that keeps objects reachable until
 relocation completes. It keeps at most four snapshots with pairwise distinct placement
 signatures; an observation drops what it duplicates and evicts the oldest epoch.
 */
module Epochs {
  import opened Topologies
  import Sorting

  const MAX_REMEMBERED: nat := 4

  datatype Remembered = Remembered(topo: Topology, mark: string)

  /** The placement signature of a snapshot. */
  type Signer = Topology -> string

  /** Strictly decreasing by epoch. */
  ghost predicate Newest(s: seq<Topology>) {
    forall i, j :: 0 <= i < j < |s| ==> s[i].epoch > s[j].epoch
  }

  ghost predicate DistinctSigs(s: seq<Topology>, sig: Signer) {
    forall i, j :: 0 <= i < j < |s| ==> sig(s[i]) != sig(s[j])
  }

  predicate NewerEpoch(a: Topology, b: Topology) {
    a.epoch >= b.epoch
  }

  // ---- What one observation does to the remembered list ----

  /** Everything the new snapshot does not replace: another epoch with another signature. */
  function Spared(s: seq<Topology>, t: Topology, sig: Signer): seq<Topology> {
    if s == [] then []
    else if sig(s[0]) == sig(t) || s[0].epoch == t.epoch then Spared(s[1..], t, sig)
    else [s[0]] + Spared(s[1..], t, sig)
  }

  function Take<T>(s: seq<T>, n: nat): seq<T> {
    if |s| < n then s else s[..n]
  }

  /** The list with the snapshot at its epoch's place. */
  function Placed(s: seq<Topology>, t: Topology, sig: Signer): seq<Topology> {
    Sorting.Insert(t, Spared(s, t, sig), NewerEpoch)
  }

  function Observed(s: seq<Topology>, t: Topology, sig: Signer): seq<Topology> {
    Take(Placed(s, t, sig), MAX_REMEMBERED)
  }

  lemma {:induction false} SparedIs(s: seq<Topology>, t: Topology, sig: Signer, x: Topology)
    ensures x in Spared(s, t, sig) <==> x in s && sig(x) != sig(t) && x.epoch != t.epoch
  {
    if s != [] {
      SparedIs(s[1..], t, sig, x);
      assert x in s <==> x == s[0] || x in s[1..];
    }
  }

  lemma {:induction false} SparedNewest(s: seq<Topology>, t: Topology, sig: Signer)
    requires Newest(s)
    ensures Newest(Spared(s, t, sig))
  {
    if s != [] {
      SparedNewest(s[1..], t, sig);
      forall x | x in Spared(s[1..], t, sig)
        ensures s[0].epoch > x.epoch
      {
        SparedIs(s[1..], t, sig, x);
      }
    }
  }

  lemma {:induction false} InsertNewest(s: seq<Topology>, t: Topology)
    requires Newest(s) && forall x :: x in s ==> x.epoch != t.epoch
    ensures Newest(Sorting.Insert(t, s, NewerEpoch))
  {
    if s != [] && !NewerEpoch(t, s[0]) {
      InsertNewest(s[1..], t);
      var r := Sorting.Insert(t, s[1..], NewerEpoch);
      forall x | x in r
        ensures s[0].epoch > x.epoch
      {
        Sorting.SameMembers(r, s[1..] + [t], x);
      }
    }
  }

  lemma PlacedIs(s: seq<Topology>, t: Topology, sig: Signer)
    requires Newest(s)
    ensures Newest(Placed(s, t, sig))
    ensures forall x :: x in Placed(s, t, sig) <==> x == t || (x in s && sig(x) != sig(t) && x.epoch != t.epoch)
  {
    forall x
      ensures x in Spared(s, t, sig) <==> x in s && sig(x) != sig(t) && x.epoch != t.epoch
      ensures x in Placed(s, t, sig) <==> x == t || x in Spared(s, t, sig)
    {
      SparedIs(s, t, sig, x);
      Sorting.SameMembers(Placed(s, t, sig), Spared(s, t, sig) + [t], x);
    }
    SparedNewest(s, t, sig);
    InsertNewest(Spared(s, t, sig), t);
  }

  /** Two lists in strict epoch order with the same members are the same list. */
  lemma {:induction false} NewestUnique(a: seq<Topology>, b: seq<Topology>)
    requires Newest(a) && Newest(b) && forall x :: x in a <==> x in b
    ensures a == b
  {
    if a != [] && b != [] {
      assert a[0] in b && b[0] in a;
      assert a[0] == b[0];
      forall x
        ensures x in a[1..] <==> x in b[1..]
      {
        assert x in a <==> x == a[0] || x in a[1..];
        assert x in b <==> x == b[0] || x in b[1..];
      }
      NewestUnique(a[1..], b[1..]);
      assert a == [a[0]] + a[1..] && b == [b[0]] + b[1..];
    } else {
      SameEmpty(a, b);
    }
  }

  lemma SameEmpty<T(!new)>(a: seq<T>, b: seq<T>)
    requires forall x :: x in a <==> x in b
    ensures a == [] <==> b == []
  {
    if a != [] { assert a[0] in b; }
    if b != [] { assert b[0] in a; }
  }

  lemma SortedNewest(s: seq<Topology>)
    requires Sorting.Sorted(s, NewerEpoch)
    requires forall i, j :: 0 <= i < j < |s| ==> s[i].epoch != s[j].epoch
    ensures Newest(s)
  {
    forall i, j | 0 <= i < j < |s|
      ensures s[i].epoch > s[j].epoch
    {
      Sorting.SortedAt(s, NewerEpoch, i, j);
    }
  }

  lemma DistinctEpochs(a: seq<Topology>, b: seq<Topology>)
    requires multiset(a) == multiset(b)
    requires forall i, j :: 0 <= i < j < |a| ==> a[i].epoch != a[j].epoch
    ensures forall i, j :: 0 <= i < j < |b| ==> b[i].epoch != b[j].epoch
  {
    Sorting.Unrepeated(a, b);
    forall i, j | 0 <= i < j < |b|
      ensures b[i].epoch != b[j].epoch
    {
      Sorting.SameMembers(a, b, b[i]);
      Sorting.SameMembers(a, b, b[j]);
      var p :| 0 <= p < |a| && a[p] == b[i];
      var q :| 0 <= q < |a| && a[q] == b[j];
    }
  }

  // ---- The memory ----

  class EpochMemory {
    var epochs: map<nat, Remembered>
    var memoTopo: (bool, Topology)
    var memoSig: string
    const sig: Signer
    /** The remembered snapshots, newest epoch first. */
    ghost var order: seq<Topology>

    ghost predicate Valid()
      reads this
    {
      && (memoTopo.0 ==> memoSig == sig(memoTopo.1))
      && Listed(epochs, order, sig)
    }

    constructor (sig: Signer)
      ensures Valid() && order == [] && this.sig == sig
    {
      this.sig := sig;
      epochs := map[];
      memoTopo := (false, Topology(0, []));
      memoSig := "";
      order := [];
    }

    /** Record a snapshot; all remembered snapshots, newest first. */
    method Observe(topo: Topology) returns (out: seq<Topology>)
      requires Valid()
      modifies this
      ensures Valid()
      ensures out == order == Observed(old(order), topo, sig)
    {
      if !memoTopo.0 || memoTopo.1 != topo {
        memoTopo := (true, topo);
        memoSig := sig(topo);
      }
      Forget(topo);
      epochs := epochs[topo.epoch := Remembered(topo, memoSig)];
      FullListed(old(epochs), old(order), epochs, topo, sig);
      out := Collect(Placed(order, topo, sig));
      out := Evict(out);
    }

    /** Drop the oldest epochs beyond the bound. */
    method Evict(full: seq<Topology>) returns (out: seq<Topology>)
      requires Listed(epochs, full, sig)
      modifies this`epochs, this`order
      ensures out == order == Take(full, MAX_REMEMBERED) && Listed(epochs, order, sig)
    {
      out := full;
      while |out| > MAX_REMEMBERED
        invariant out <= full && (|out| == |full| || |out| >= MAX_REMEMBERED)
        invariant Listed(epochs, out, sig)
      {
        ListedDrop(epochs, out, sig);
        epochs := epochs - {out[|out| - 1].epoch};
        out := out[..|out| - 1];
      }
      order := out;
    }

    /** Drop other epochs with the memoized signature. */
    method Forget(topo: Topology)
      modifies this`epochs
      ensures forall e :: e in epochs <==> e in old(epochs) && !(old(epochs)[e].mark == memoSig && e != topo.epoch)
      ensures forall e :: e in epochs ==> epochs[e] == old(epochs)[e]
    {
      var keys := epochs.Keys;
      while keys != {}
        invariant keys <= old(epochs).Keys
        invariant forall e :: e in epochs ==> e in old(epochs)
        invariant forall e | e in old(epochs) ::
          e in epochs <==> e in keys || !(old(epochs)[e].mark == memoSig && e != topo.epoch)
        invariant forall e :: e in epochs ==> epochs[e] == old(epochs)[e]
      {
        var e :| e in keys;
        if epochs[e].mark == memoSig && e != topo.epoch { epochs := epochs - {e}; }
        keys := keys - {e};
      }
    }

    /** The remembered snapshots in whatever order the map yields them, then sorted. */
    method Collect(ghost full: seq<Topology>) returns (out: seq<Topology>)
      requires Listed(epochs, full, sig)
      ensures out == full
    {
      var keys := epochs.Keys;
      var got: seq<Topology> := [];
      while keys != {}
        invariant keys <= epochs.Keys && Gathered(epochs, keys, got)
      {
        var e :| e in keys;
        GatheredStep(epochs, keys, got, full, sig, e);
        got := got + [epochs[e].topo];
        keys := keys - {e};
      }
      out := Sorting.Sort(got, NewerEpoch);
      CollectedIs(epochs, got, out, full, sig);
    }
  }

  /** Exactly the snapshots of the epochs no longer to be visited, each once. */
  ghost predicate Gathered(epochs: map<nat, Remembered>, keys: set<nat>, got: seq<Topology>) {
    && (forall x :: x in got <==> x.epoch in epochs && x.epoch !in keys && epochs[x.epoch].topo == x)
    && (forall i, j :: 0 <= i < j < |got| ==> got[i].epoch != got[j].epoch)
  }

  lemma GatheredStep(epochs: map<nat, Remembered>, keys: set<nat>, got: seq<Topology>, full: seq<Topology>,
                     sig: Signer, e: nat)
    requires Listed(epochs, full, sig) && keys <= epochs.Keys && e in keys && Gathered(epochs, keys, got)
    ensures Gathered(epochs, keys - {e}, got + [epochs[e].topo])
  {
    var i :| 0 <= i < |full| && full[i].epoch == e;
    var t := epochs[e].topo;
    assert t.epoch == e;
    forall x
      ensures x in got + [t] <==> x.epoch in epochs && x.epoch !in keys - {e} && epochs[x.epoch].topo == x
    {
    }
    assert forall k :: 0 <= k < |got| ==> got[k] in got;
  }

  lemma ListedDrop(epochs: map<nat, Remembered>, order: seq<Topology>, sig: Signer)
    requires Listed(epochs, order, sig) && order != []
    ensures Listed(epochs - {order[|order| - 1].epoch}, order[..|order| - 1], sig)
  {
    var last := |order| - 1;
    var rest, left := order[..last], epochs - {order[last].epoch};
    forall e | e in left
      ensures exists i :: 0 <= i < |rest| && rest[i].epoch == e
    {
      var i :| 0 <= i < |order| && order[i].epoch == e;
      assert rest[i].epoch == e;
    }
    forall i | 0 <= i < |rest|
      ensures rest[i].epoch in left && left[rest[i].epoch] == Remembered(rest[i], sig(rest[i]))
    {
      assert rest[i] == order[i] && order[i].epoch != order[last].epoch;
    }
  }

  /** The list holds exactly the map's snapshots, each with its signature, newest first. */
  ghost predicate Listed(epochs: map<nat, Remembered>, order: seq<Topology>, sig: Signer) {
    && Newest(order)
    && (forall i :: 0 <= i < |order| ==>
      order[i].epoch in epochs && epochs[order[i].epoch] == Remembered(order[i], sig(order[i])))
    && (forall e :: e in epochs ==> exists i :: 0 <= i < |order| && order[i].epoch == e)
  }

  lemma ListedMember(epochs: map<nat, Remembered>, order: seq<Topology>, sig: Signer, x: Topology)
    requires Listed(epochs, order, sig)
    ensures x in order <==> x.epoch in epochs && epochs[x.epoch].topo == x
    ensures x in order ==> epochs[x.epoch].mark == sig(x)
  {
    if x.epoch in epochs {
      var i :| 0 <= i < |order| && order[i].epoch == x.epoch;
    }
  }

  lemma CollectedIs(epochs: map<nat, Remembered>, got: seq<Topology>, out: seq<Topology>, full: seq<Topology>,
                    sig: Signer)
    requires Listed(epochs, full, sig) && out == Sorting.Sort(got, NewerEpoch)
    requires Gathered(epochs, {}, got)
    ensures out == full
  {
    Sorting.SortSorts(got, NewerEpoch);
    DistinctEpochs(got, out);
    SortedNewest(out);
    forall x
      ensures x in out <==> x in full
    {
      Sorting.SameMembers(out, got, x);
      ListedMember(epochs, full, sig, x);
    }
    NewestUnique(out, full);
  }

  /** After dropping duplicates and inserting, the map lists exactly the placed sequence. */
  lemma FullListed(was: map<nat, Remembered>, order: seq<Topology>, now: map<nat, Remembered>, t: Topology, sig: Signer)
    requires Listed(was, order, sig)
    requires forall e :: e in now <==> e == t.epoch || (e in was && was[e].mark != sig(t))
    requires forall e :: e in now ==> now[e] == if e == t.epoch then Remembered(t, sig(t)) else was[e]
    ensures Listed(now, Placed(order, t, sig), sig)
  {
    var full := Placed(order, t, sig);
    PlacedIs(order, t, sig);
    forall i | 0 <= i < |full|
      ensures full[i].epoch in now && now[full[i].epoch] == Remembered(full[i], sig(full[i]))
    {
      assert full[i] in full;
      if full[i] != t { ListedMember(was, order, sig, full[i]); }
    }
    forall e | e in now
      ensures exists i :: 0 <= i < |full| && full[i].epoch == e
    {
      if e == t.epoch { assert t in full; } else {
        var i :| 0 <= i < |order| && order[i].epoch == e;
        assert order[i] in full;
      }
    }
  }

  // ---- The memory as a function of the whole history ----

  /** What a fresh memory remembers after a history of observations. */
  function Memory(h: seq<Topology>, sig: Signer): seq<Topology> {
    if h == [] then [] else Observed(Memory(h[..|h| - 1], sig), h[|h| - 1], sig)
  }

  /** Everything but the snapshots of one signature. */
  function Without(s: seq<Topology>, mark: string, sig: Signer): seq<Topology> {
    if s == [] then []
    else if sig(s[0]) == mark then Without(s[1..], mark, sig)
    else [s[0]] + Without(s[1..], mark, sig)
  }

  /** The reference: every signature of the history once, most recently seen first,
      each by its latest snapshot. Nothing is ever evicted. */
  function Recent(h: seq<Topology>, sig: Signer): seq<Topology> {
    if h == [] then []
    else var t := h[|h| - 1]; [t] + Without(Recent(h[..|h| - 1], sig), sig(t), sig)
  }

  /** Observed epochs never go back, and an epoch has one signature. */
  ghost predicate Steady(h: seq<Topology>, sig: Signer) {
    forall i, j :: 0 <= i < j < |h| ==>
      h[i].epoch <= h[j].epoch && (h[i].epoch == h[j].epoch ==> sig(h[i]) == sig(h[j]))
  }

  lemma {:induction false} WithoutIs(s: seq<Topology>, mark: string, sig: Signer, x: Topology)
    ensures x in Without(s, mark, sig) <==> x in s && sig(x) != mark
  {
    if s != [] {
      WithoutIs(s[1..], mark, sig, x);
      assert x in s <==> x == s[0] || x in s[1..];
    }
  }

  lemma {:induction false} WithoutKeeps(s: seq<Topology>, mark: string, sig: Signer)
    requires Newest(s) && DistinctSigs(s, sig)
    ensures Newest(Without(s, mark, sig)) && DistinctSigs(Without(s, mark, sig), sig)
  {
    if s != [] {
      var r := Without(s[1..], mark, sig);
      WithoutKeeps(s[1..], mark, sig);
      forall i | 0 <= i < |r|
        ensures s[0].epoch > r[i].epoch && sig(s[0]) != sig(r[i])
      {
        WithoutIs(s[1..], mark, sig, r[i]);
        var k :| 0 <= k < |s[1..]| && s[1..][k] == r[i];
        assert s[k + 1] == r[i];
      }
    }
  }

  lemma {:induction false} WithoutNone(s: seq<Topology>, mark: string, sig: Signer)
    requires forall x :: x in s ==> sig(x) != mark
    ensures Without(s, mark, sig) == s
  {
    if s != [] { WithoutNone(s[1..], mark, sig); }
  }

  lemma TakeStep<T>(x: T, s: seq<T>, n: nat)
    ensures Take([x] + s, n + 1) == [x] + Take(s, n)
  {
  }

  lemma WithoutStep(x: Topology, s: seq<Topology>, mark: string, sig: Signer)
    ensures Without([x] + s, mark, sig) == if sig(x) == mark then Without(s, mark, sig) else [x] + Without(s, mark, sig)
  {
    assert ([x] + s)[1..] == s;
  }

  lemma DistinctRest(s: seq<Topology>, sig: Signer)
    requires DistinctSigs(s, sig) && s != []
    ensures DistinctSigs(s[1..], sig) && s == [s[0]] + s[1..]
    ensures forall x :: x in s[1..] ==> sig(x) != sig(s[0])
  {
    assert forall i :: 0 <= i < |s[1..]| ==> s[1..][i] == s[i + 1];
  }

  /** At most one snapshot goes, so one more than needed is enough to keep. */
  lemma {:induction false} WithoutTake(s: seq<Topology>, mark: string, sig: Signer, n: nat)
    requires DistinctSigs(s, sig)
    ensures Take(Without(Take(s, n + 1), mark, sig), n) == Take(Without(s, mark, sig), n)
  {
    if s != [] && n > 0 {
      var x, rest := s[0], s[1..];
      DistinctRest(s, sig);
      TakeStep(x, rest, n);
      WithoutStep(x, rest, mark, sig);
      WithoutStep(x, Take(rest, n), mark, sig);
      if sig(x) == mark {
        WithoutNone(rest, mark, sig);
        WithoutNone(Take(rest, n), mark, sig);
      } else {
        WithoutTake(rest, mark, sig, n - 1);
        TakeStep(x, Without(rest, mark, sig), n - 1);
        TakeStep(x, Without(Take(rest, n), mark, sig), n - 1);
      }
    }
  }

  lemma FirstKeeps(t: Topology, rest: seq<Topology>, sig: Signer)
    requires Newest(rest) && DistinctSigs(rest, sig) && forall x :: x in rest ==> t.epoch > x.epoch && sig(x) != sig(t)
    ensures Newest([t] + rest) && DistinctSigs([t] + rest, sig)
  {
    assert forall i :: 0 <= i < |rest| ==> rest[i] in rest;
  }

  lemma {:induction false} RecentMembers(h: seq<Topology>, sig: Signer)
    ensures forall x :: x in Recent(h, sig) ==> x in h
  {
    if h != [] {
      var t, before := h[|h| - 1], h[..|h| - 1];
      RecentMembers(before, sig);
      forall x | x in Recent(h, sig)
        ensures x in h
      {
        WithoutIs(Recent(before, sig), sig(t), sig, x);
      }
    }
  }

  lemma {:induction false} RecentIs(h: seq<Topology>, sig: Signer)
    requires Steady(h, sig)
    ensures Newest(Recent(h, sig)) && DistinctSigs(Recent(h, sig), sig)
    ensures forall x :: x in Recent(h, sig) ==> x in h
  {
    RecentMembers(h, sig);
    if h != [] {
      var t, before := h[|h| - 1], h[..|h| - 1];
      RecentIs(before, sig);
      var rest := Without(Recent(before, sig), sig(t), sig);
      WithoutKeeps(Recent(before, sig), sig(t), sig);
      forall x | x in rest
        ensures t.epoch > x.epoch && sig(x) != sig(t)
      {
        WithoutIs(Recent(before, sig), sig(t), sig, x);
        var k :| 0 <= k < |before| && before[k] == x;
        assert h[k] == x;
      }
      FirstKeeps(t, rest, sig);
    }
  }

  lemma {:induction false} SparedIsWithout(s: seq<Topology>, t: Topology, sig: Signer)
    requires forall x :: x in s && x.epoch == t.epoch ==> sig(x) == sig(t)
    ensures Spared(s, t, sig) == Without(s, sig(t), sig)
  {
    if s != [] { SparedIsWithout(s[1..], t, sig); }
  }

  lemma InsertFirst(s: seq<Topology>, t: Topology)
    requires forall x :: x in s ==> x.epoch <= t.epoch
    ensures Sorting.Insert(t, s, NewerEpoch) == [t] + s
  {
  }

  /** Observing a snapshot that is not older puts it first and drops its signature's past. */
  lemma ObservedFirst(kept: seq<Topology>, t: Topology, sig: Signer)
    requires forall x :: x in kept ==> x.epoch <= t.epoch && (x.epoch == t.epoch ==> sig(x) == sig(t))
    ensures Observed(kept, t, sig) == Take([t] + Without(kept, sig(t), sig), MAX_REMEMBERED)
  {
    SparedIsWithout(kept, t, sig);
    forall x | x in Without(kept, sig(t), sig)
      ensures x.epoch <= t.epoch
    {
      WithoutIs(kept, sig(t), sig, x);
    }
    InsertFirst(Without(kept, sig(t), sig), t);
  }

  lemma RecentOlder(h: seq<Topology>, sig: Signer, x: Topology)
    requires h != [] && Steady(h, sig) && x in Recent(h[..|h| - 1], sig)
    ensures var t := h[|h| - 1]; x.epoch <= t.epoch && (x.epoch == t.epoch ==> sig(x) == sig(t))
  {
    var before := h[..|h| - 1];
    RecentIs(before, sig);
    var k :| 0 <= k < |before| && before[k] == x;
    assert h[k] == x;
  }

  /** The bounded memory is exactly the four most recent of the unbounded reference. */
  lemma {:induction false} MemoryIsRecent(h: seq<Topology>, sig: Signer)
    requires Steady(h, sig)
    ensures Memory(h, sig) == Take(Recent(h, sig), MAX_REMEMBERED)
  {
    if h != [] {
      var t, before := h[|h| - 1], h[..|h| - 1];
      var all := Recent(before, sig);
      var kept := Take(all, MAX_REMEMBERED);
      MemoryIsRecent(before, sig);
      RecentIs(before, sig);
      forall x | x in kept
        ensures x.epoch <= t.epoch && (x.epoch == t.epoch ==> sig(x) == sig(t))
      {
        RecentOlder(h, sig, x);
      }
      ObservedFirst(kept, t, sig);
      WithoutTake(all, sig(t), sig, MAX_REMEMBERED - 1);
      TakeStep(t, Without(all, sig(t), sig), MAX_REMEMBERED - 1);
      TakeStep(t, Without(kept, sig(t), sig), MAX_REMEMBERED - 1);
    }
  }

  /** Only observed snapshots are remembered. */
  lemma MemoryFrom(h: seq<Topology>, sig: Signer)
    requires Steady(h, sig)
    ensures forall t :: t in Memory(h, sig) ==> t in h
  {
    MemoryIsRecent(h, sig);
    RecentMembers(h, sig);
    assert forall t :: t in Memory(h, sig) ==> t in Recent(h, sig);
  }

  /** At most four, in strict epoch order, distinct signatures, the observed one first. */
  lemma MemoryShape(h: seq<Topology>, sig: Signer)
    requires Steady(h, sig) && h != []
    ensures var m := Memory(h, sig);
      0 < |m| <= MAX_REMEMBERED && m[0] == h[|h| - 1] && Newest(m) && DistinctSigs(m, sig)
  {
    MemoryIsRecent(h, sig);
    RecentIs(h, sig);
  }

  // ---- Which signatures are remembered ----

  ghost predicate Remembers(s: seq<Topology>, mark: string, sig: Signer) {
    exists t :: t in s && sig(t) == mark
  }

  /** The other signatures observed since the last sighting of one. */
  function Since(h: seq<Topology>, mark: string, sig: Signer): set<string> {
    if h == [] || sig(h[|h| - 1]) == mark then {}
    else {sig(h[|h| - 1])} + Since(h[..|h| - 1], mark, sig)
  }

  /** The signatures listed before the first snapshot with the given one. */
  function Before(s: seq<Topology>, mark: string, sig: Signer): set<string> {
    if s == [] || sig(s[0]) == mark then {} else {sig(s[0])} + Before(s[1..], mark, sig)
  }

  lemma {:induction false} BeforeWithout(s: seq<Topology>, gone: string, mark: string, sig: Signer)
    requires gone != mark
    ensures Before(Without(s, gone, sig), mark, sig) == Before(s, mark, sig) - {gone}
  {
    if s != [] { BeforeWithout(s[1..], gone, mark, sig); }
  }

  lemma {:induction false} RecentSince(h: seq<Topology>, mark: string, sig: Signer)
    requires Remembers(h, mark, sig)
    ensures Remembers(Recent(h, sig), mark, sig)
    ensures Before(Recent(h, sig), mark, sig) == Since(h, mark, sig)
  {
    var t, before := h[|h| - 1], h[..|h| - 1];
    var all := Recent(before, sig);
    if sig(t) == mark {
      assert t in Recent(h, sig);
    } else {
      var x :| x in h && sig(x) == mark;
      assert x in before;
      RecentSince(before, mark, sig);
      var y :| y in all && sig(y) == mark;
      WithoutIs(all, sig(t), sig, y);
      assert y in Recent(h, sig);
      BeforeWithout(all, sig(t), mark, sig);
    }
  }

  /** Among distinct signatures, a place in the first `n` means fewer than `n` before it. */
  lemma {:induction false} TakeBefore(s: seq<Topology>, mark: string, sig: Signer, n: nat)
    requires DistinctSigs(s, sig) && Remembers(s, mark, sig)
    ensures Remembers(Take(s, n), mark, sig) <==> |Before(s, mark, sig)| < n
  {
    var x, rest := s[0], s[1..];
    DistinctRest(s, sig);
    if n > 0 { TakeStep(x, rest, n - 1); }
    if sig(x) == mark {
      assert n > 0 ==> x in Take(s, n);
    } else {
      BeforeMembers(rest, mark, sig);
      assert sig(x) !in Before(rest, mark, sig);
      if n > 0 {
        RemembersRest(x, rest, mark, sig);
        TakeBefore(rest, mark, sig, n - 1);
        RemembersRest(x, Take(rest, n - 1), mark, sig);
      }
    }
  }

  lemma RemembersRest(x: Topology, rest: seq<Topology>, mark: string, sig: Signer)
    requires sig(x) != mark
    ensures Remembers([x] + rest, mark, sig) <==> Remembers(rest, mark, sig)
  {
    if t :| t in [x] + rest && sig(t) == mark { assert t in rest; }
    if t :| t in rest && sig(t) == mark { assert t in [x] + rest; }
  }

  lemma {:induction false} BeforeMembers(s: seq<Topology>, mark: string, sig: Signer)
    ensures forall m :: m in Before(s, mark, sig) ==> Remembers(s, m, sig)
  {
    if s != [] {
      BeforeMembers(s[1..], mark, sig);
      assert s[0] in s;
      forall m | m in Before(s[1..], mark, sig)
        ensures Remembers(s, m, sig)
      {
        var t :| t in s[1..] && sig(t) == m;
        assert t in s;
      }
    }
  }

  /** A placement stays remembered exactly while fewer than four other placements were
      observed since it was last seen, however long the history and however often
      placements alternate. */
  lemma RememberedIff(h: seq<Topology>, mark: string, sig: Signer)
    requires Steady(h, sig)
    ensures Remembers(Memory(h, sig), mark, sig) <==> Remembers(h, mark, sig) && |Since(h, mark, sig)| < MAX_REMEMBERED
  {
    MemoryIsRecent(h, sig);
    RecentIs(h, sig);
    if Remembers(h, mark, sig) {
      RecentSince(h, mark, sig);
      TakeBefore(Recent(h, sig), mark, sig, MAX_REMEMBERED);
    } else {
      assert forall t :: t in Memory(h, sig) ==> t in Recent(h, sig);
    }
  }

  // ---- When epochs go back ----

  /** The observed snapshot comes first exactly when no remembered epoch with another
      signature is newer. */
  lemma FirstIff(s: seq<Topology>, t: Topology, sig: Signer)
    requires Newest(s)
    ensures var r := Observed(s, t, sig);
      |r| > 0 && (r[0] == t <==> forall x :: x in s && x.epoch > t.epoch ==> sig(x) == sig(t))
  {
    var full := Placed(s, t, sig);
    PlacedIs(s, t, sig);
    assert t in full;
    var r := Observed(s, t, sig);
    assert r[0] == full[0];
    NewestFirst(full);
    if r[0] != t { assert full[0] in full; }
  }

  lemma NewestFirst(s: seq<Topology>)
    requires Newest(s)
    ensures forall x :: x in s ==> x == s[0] || x.epoch < s[0].epoch
  {
    forall x | x in s
      ensures x == s[0] || x.epoch < s[0].epoch
    {
      var i :| 0 <= i < |s| && s[i] == x;
    }
  }

  /** An epoch that goes back is not the first element, whatever the documentation says:
      a replica of the registry that lags behind is enough. */
  lemma StaleIsNotFirst(sig: Signer, a: Topology, b: Topology)
    requires a.epoch > b.epoch && sig(a) != sig(b)
    ensures Memory([a, b], sig) == [a, b]
  {
    assert [a, b][..1] == [a] && [a][..0] == [];
    assert Memory([], sig) == [];
    assert Memory([a], sig) == Observed([], a, sig) == [a];
    assert Spared([a], b, sig) == [a] + Spared([], b, sig) == [a];
    assert Sorting.Insert(b, [a], NewerEpoch) == [a] + Sorting.Insert(b, [], NewerEpoch) == [a, b];
  }
}
