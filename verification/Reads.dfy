/**
 The read path: the commit record from the first reachable candidate, then the payload
 from the first replica that opens or from any k shards, with every lookup falling back
 across the remembered topology epochs.
 */
module Reads {
  import opened Records
  import opened Peers
  import opened Topologies
  import opened Epochs
  import opened Placement
  import Sets

  /** Targets of the default replica scheme and of the default erasure-coded scheme. */
  const DEFAULT_COPIES: nat := 3
  const DEFAULT_EC_COPIES: nat := 6

  /** What a read answers. */
  datatype Answer<+T> = Ok(value: T) | NotFound | Fault

  // ---- Where to look ----

  function Widest(counts: seq<nat>): nat {
    if counts == [] then 0
      else var w := Widest(counts[..|counts| - 1]); if counts[|counts| - 1] > w then counts[|counts| - 1] else w
  }

  lemma {:induction false} WidestBounds(counts: seq<nat>, n: nat)
    requires n in counts
    ensures n <= Widest(counts)
  {
    if n != counts[|counts| - 1] { WidestBounds(counts[..|counts| - 1], n); }
  }

  /** The counts tried: the bucket's scheme, the two defaults, the cached override. */
  function Counts(bucket: nat, cached: Option<nat>): seq<nat> {
    [bucket, DEFAULT_COPIES, DEFAULT_EC_COPIES] + if cached.Some? then [cached.value] else []
  }

  /** Whatever scheme the bucket has by now, the first six targets are always consulted. */
  lemma CountsReach(bucket: nat, cached: Option<nat>)
    ensures Widest(Counts(bucket, cached)) >= DEFAULT_EC_COPIES
    ensures Widest(Counts(bucket, cached)) >= bucket
  {
    var counts := Counts(bucket, cached);
    assert counts[0] == bucket && counts[2] == DEFAULT_EC_COPIES;
    WidestBounds(counts, bucket);
    WidestBounds(counts, DEFAULT_EC_COPIES);
  }

  /** The layouts of the object under the topologies that can host the scheme, in order. */
  function Plans(topos: seq<Topology>, s: Scheme, place: Placer): seq<Layout> {
    if topos == [] then []
    else
      var rest := Plans(topos[..|topos| - 1], s, place);
      var p := Plan(place, topos[|topos| - 1], s);
      if p.Some? then rest + [p.value] else rest
  }

  lemma {:induction false} PlansAre(topos: seq<Topology>, s: Scheme, place: Placer)
    requires GoodPlace(place)
    ensures forall l :: l in Plans(topos, s, place) ==> ValidLayout(l, s)
    ensures forall t :: t in topos && Plan(place, t, s).Some? ==> Plan(place, t, s).value in Plans(topos, s, place)
  {
    if topos != [] {
      var last := topos[|topos| - 1];
      PlansAre(topos[..|topos| - 1], s, place);
      assert forall t :: t in topos <==> t == last || t in topos[..|topos| - 1];
    }
  }

  /** Append what is not there yet. */
  function Merged(acc: seq<DiskRef>, more: seq<DiskRef>): (r: seq<DiskRef>)
    ensures forall x :: x in r <==> x in acc || x in more
    ensures Sets.Unrepeated(acc) ==> Sets.Unrepeated(r)
  {
    if more == [] then acc
    else
      var acc' := Merged(acc, more[..|more| - 1]);
      var x := more[|more| - 1];
      if x in acc' then acc' else acc' + [x]
  }

  /** Record candidates across topologies: each topology's placement at its widest count. */
  function RecordTargets(topos: seq<Topology>, counts: seq<nat>, place: Placer): seq<DiskRef> {
    if topos == [] then []
    else Merged(RecordTargets(topos[..|topos| - 1], counts, place), place(topos[|topos| - 1], Widest(counts)))
  }

  lemma {:induction false} RecordTargetsAre(topos: seq<Topology>, counts: seq<nat>, place: Placer)
    ensures Sets.Unrepeated(RecordTargets(topos, counts, place))
    ensures forall at ::
      at in RecordTargets(topos, counts, place) <==> exists t :: t in topos && at in place(t, Widest(counts))
  {
    if topos != [] {
      RecordTargetsAre(topos[..|topos| - 1], counts, place);
      assert forall t :: t in topos <==> t == topos[|topos| - 1] || t in topos[..|topos| - 1];
    }
  }

  // ---- What can be read ----

  /** Some layout's target that always answers has the fragment at its planned size. */
  ghost predicate Reaches(files: Store, up: set<DiskRef>, plans: seq<Layout>, sc: Sidecar, i: nat)
    requires ValidScheme(sc.scheme)
  {
    exists p ::
      0 <= p < |plans| && i < |plans[p]| && plans[p][i] in up && RightSize(files, Slot(plans[p], sc.gen, i), sc)
  }

  /** No target has the fragment at its planned size. */
  ghost predicate Gone(files: Store, sc: Sidecar, i: nat)
    requires ValidScheme(sc.scheme)
  {
    forall at :: !RightSize(files, Loc(at, Frag(sc.gen, i)), sc)
  }

  /** Files of the planned size are what they claim to be. */
  ghost predicate Sound(files: Store, sc: Sidecar, c: Bytes)
    requires ValidScheme(sc.scheme)
  {
    forall at, i: nat :: i < Copies(sc.scheme) && RightSize(files, Loc(at, Frag(sc.gen, i)), sc) ==>
      Intact(files, Loc(at, Frag(sc.gen, i)), sc, c)
  }

  /** The fragments some always-answering target has. */
  ghost function ReachSet(files: Store, up: set<DiskRef>, plans: seq<Layout>, sc: Sidecar): set<nat>
    requires ValidScheme(sc.scheme)
  {
    set i: nat | i < Copies(sc.scheme) && Reaches(files, up, plans, sc, i)
  }

  /** Some remembered target has the fragment at its planned size, answering or not. */
  ghost predicate Held(files: Store, plans: seq<Layout>, sc: Sidecar, i: nat)
    requires ValidScheme(sc.scheme)
  {
    exists p :: 0 <= p < |plans| && i < |plans[p]| && RightSize(files, Slot(plans[p], sc.gen, i), sc)
  }

  /** The answers of a degraded read's two rounds: the shards that opened at first, and of the
      data shards among them those that opened again. Parity is only opened when data is
      missing. */
  ghost predicate Rounds(files: Store, up: set<DiskRef>, plans: seq<Layout>, sc: Sidecar, first: set<nat>,
                         again: set<nat>)
    requires ValidScheme(sc.scheme) && sc.scheme.EC?
  {
    && (forall i :: i in first ==> i < Copies(sc.scheme) && Held(files, plans, sc, i))
    && (forall i: nat ::
      i < Copies(sc.scheme) && Reaches(files, up, plans, sc, i) && (i < sc.scheme.k || !AllData(sc, first)) ==>
          i in first)
    && (forall i :: i in again ==> i in first && i < sc.scheme.k)
    && (forall i: nat :: i in first && i < sc.scheme.k && Reaches(files, up, plans, sc, i) ==> i in again)
  }

  /** Every data shard opened. */
  ghost predicate AllData(sc: Sidecar, first: set<nat>)
    requires sc.scheme.EC?
  {
    forall i: nat :: i < sc.scheme.k ==> i in first
  }

  /** What the two rounds yield: all data at once, or k shards of which every data shard opens
      a second time. */
  ghost predicate Joins(sc: Sidecar, first: set<nat>, again: set<nat>)
    requires sc.scheme.EC?
  {
    AllData(sc, first) || (|first| >= sc.scheme.k && forall i: nat :: i < sc.scheme.k && i in first ==> i in again)
  }

  /** Enough shards to decode, and no data shard that comes and goes while another is out. */
  ghost predicate Decodable(files: Store, up: set<DiskRef>, plans: seq<Layout>, sc: Sidecar)
    requires ValidScheme(sc.scheme) && sc.scheme.EC?
  {
    && |ReachSet(files, up, plans, sc)| >= sc.scheme.k
    && forall i: nat, j: nat | i < sc.scheme.k && j < sc.scheme.k && i != j
         && !Reaches(files, up, plans, sc, i) && !Reaches(files, up, plans, sc, j)
         :: !Held(files, plans, sc, i)
  }

  /** Every admissible pair of rounds. */
  ghost predicate SurelyOpens(files: Store, up: set<DiskRef>, plans: seq<Layout>, sc: Sidecar)
    requires ValidScheme(sc.scheme) && sc.scheme.EC?
  {
    forall first: set<nat>, again: set<nat> :: Rounds(files, up, plans, sc, first, again) ==> Joins(sc, first, again)
  }

  lemma DecodableJoins(files: Store, up: set<DiskRef>, plans: seq<Layout>, sc: Sidecar, first: set<nat>,
                       again: set<nat>)
    requires ValidScheme(sc.scheme) && sc.scheme.EC? && Decodable(files, up, plans, sc)
    requires Rounds(files, up, plans, sc, first, again)
    ensures Joins(sc, first, again)
  {
    if !AllData(sc, first) {
      var j: nat :| j < sc.scheme.k && j !in first;
      Sets.Subset(ReachSet(files, up, plans, sc), first);
      forall i: nat | i < sc.scheme.k && i in first
        ensures i in again
      {
        assert !Reaches(files, up, plans, sc, j);
        assert Reaches(files, up, plans, sc, i);
      }
    }
  }

  /** A degraded read opens whatever the peers answer exactly when k shards are on answering
      targets and no data shard that may come and go is missing together with another. */
  lemma SurelyOpensIff(files: Store, up: set<DiskRef>, plans: seq<Layout>, sc: Sidecar)
    requires ValidScheme(sc.scheme) && sc.scheme.EC?
    ensures SurelyOpens(files, up, plans, sc) <==> Decodable(files, up, plans, sc)
  {
    var k, reach := sc.scheme.k, ReachSet(files, up, plans, sc);
    if Decodable(files, up, plans, sc) {
      forall first: set<nat>, again: set<nat> | Rounds(files, up, plans, sc, first, again)
        ensures Joins(sc, first, again)
      {
        DecodableJoins(files, up, plans, sc, first, again);
      }
    } else if |reach| < k {
      var again := set i | i in reach && i < k;
      assert Rounds(files, up, plans, sc, reach, again);
      if AllData(sc, reach) { Sets.AllBelow(reach, k); }
      assert !Joins(sc, reach, again);
    } else {
      var i: nat, j: nat :| i < k && j < k && i != j && !Reaches(files, up, plans, sc, i) &&
        !Reaches(files, up, plans, sc, j)
        && Held(files, plans, sc, i);
      var first := reach + {i};
      var again := set n | n in reach && n < k;
      assert j !in first && i !in again;
      assert Rounds(files, up, plans, sc, first, again);
      assert !Joins(sc, first, again);
    }
  }

  /** The second of four shards is lost. */
  function OneLost(layout: Layout, sc: Sidecar, c: Bytes): Store
    requires |layout| == 4
  {
    map[Slot(layout, sc.gen, 0) := Data(Piece(sc.scheme, c, 0)),
        Slot(layout, sc.gen, 2) := Data(Piece(sc.scheme, c, 2)),
        Slot(layout, sc.gen, 3) := Data(Piece(sc.scheme, c, 3))]
  }

  /** Two shards of four suffice and two always answer, yet the read fails: the first data
      shard answers once and not again, and the second is lost. */
  lemma FlakyShard(layout: Layout, sc: Sidecar, c: Bytes)
    requires sc.scheme == EC(2, 2) && ValidLayout(layout, sc.scheme) && |c| == sc.size
    ensures |ReachSet(OneLost(layout, sc, c), {layout[2], layout[3]}, [layout], sc)| >= sc.scheme.k
    ensures Rounds(OneLost(layout, sc, c), {layout[2], layout[3]}, [layout], sc, {0, 2, 3}, {})
    ensures !Joins(sc, {0, 2, 3}, {})
  {
    var files, up, plans := OneLost(layout, sc, c), {layout[2], layout[3]}, [layout];
    forall i: nat | i in {0, 2, 3}
      ensures RightSize(files, Slot(plans[0], sc.gen, i), sc) && Held(files, plans, sc, i)
    {
      PieceSize(sc.scheme, c, i);
      assert RightSize(files, Slot(plans[0], sc.gen, i), sc);
    }
    forall i: nat
      ensures i < 4 ==> (Reaches(files, up, plans, sc, i) <==> i in {2, 3})
    {
      if i in {2, 3} { assert plans[0][i] in up && RightSize(files, Slot(plans[0], sc.gen, i), sc); }
    }
    assert ReachSet(files, up, plans, sc) == {2, 3};
    var first, again: set<nat> := {0, 2, 3}, {};
    assert 1 < sc.scheme.k && 1 !in first && 0 in first && 0 !in again;
  }

  /** The payload of an object as the read path can assemble it from fragments: complete
      shards of one content decode to it, anything else is not that content. */
  predicate Agree(parts: map<nat, Payload>, s: Scheme, c: Bytes) {
    forall i :: i in parts ==> parts[i] == Piece(s, c, i)
  }

  /** Complete shards of one content decode to it; shards that disagree decode to noise. */
  function Decoded(parts: map<nat, Payload>, sc: Sidecar, i: nat): Payload
    requires i in parts
  {
    if parts[i].Shard? && Agree(parts, sc.scheme, parts[i].content) then Replica(parts[i].content) else Other(sc.size)
  }

  // ---- An object nobody touches ----

  /** One committed record, and fragments that are what they claim to be. */
  ghost predicate Untouched(files: Store, sc: Sidecar, c: Bytes) {
    && ValidScheme(sc.scheme)
    && |c| == sc.size
    && (forall at :: RecordAt(files, at).Some? ==> RecordAt(files, at).value == sc)
    && Sound(files, sc, c)
  }

  /** A fragment at its place in the layout it was written under, on a target that answers. */
  ghost predicate AtHome(files: Store, up: set<DiskRef>, home: Layout, sc: Sidecar, i: nat)
    requires ValidScheme(sc.scheme)
  {
    i < |home| && home[i] in up && RightSize(files, Slot(home, sc.gen, i), sc)
  }

  ghost function HomeSet(files: Store, up: set<DiskRef>, home: Layout, sc: Sidecar): set<nat>
    requires ValidScheme(sc.scheme)
  {
    set i: nat | i < Copies(sc.scheme) && AtHome(files, up, home, sc, i)
  }

  /** One reachable replica, or k reachable shards with at most one data shard away, or those
      away really gone. */
  ghost predicate Available(files: Store, up: set<DiskRef>, home: Layout, sc: Sidecar)
    requires ValidScheme(sc.scheme)
  {
    if sc.scheme.EC? then
      || sc.size == 0
      || (&& |HomeSet(files, up, home, sc)| >= sc.scheme.k
          && forall i: nat, j: nat | i < sc.scheme.k && j < sc.scheme.k && i != j
               && !AtHome(files, up, home, sc, i) && !AtHome(files, up, home, sc, j)
               :: Gone(files, sc, i))
    else
      exists i: nat :: i < FullReplicas(sc.scheme) && AtHome(files, up, home, sc, i)
  }

  ghost predicate RecordReachable(files: Store, up: set<DiskRef>, cands: seq<DiskRef>) {
    exists at :: at in cands && at in up && RecordAt(files, at).Some?
  }

  lemma HomeReaches(files: Store, up: set<DiskRef>, plans: seq<Layout>, home: Layout, sc: Sidecar)
    requires ValidScheme(sc.scheme) && home in plans
    ensures forall i: nat :: AtHome(files, up, home, sc, i) ==> Reaches(files, up, plans, sc, i)
    ensures |HomeSet(files, up, home, sc)| <= |ReachSet(files, up, plans, sc)|
    ensures forall i: nat :: Gone(files, sc, i) ==> !Held(files, plans, sc, i)
    ensures sc.scheme.EC? && sc.size > 0 && Available(files, up, home, sc) ==> Decodable(files, up, plans, sc)
  {
    var p :| 0 <= p < |plans| && plans[p] == home;
    assert forall i: nat :: AtHome(files, up, home, sc, i) ==> Reaches(files, up, plans, sc, i);
    Sets.Subset(HomeSet(files, up, home, sc), ReachSet(files, up, plans, sc));
  }

  // ---- Reading ----

  /** No answering candidate before this one has a record. */
  ghost predicate FirstRecord(files: Store, up: set<DiskRef>, cands: seq<DiskRef>, i: nat)
    requires i <= |cands|
  {
    forall k :: 0 <= k < i ==> !(cands[k] in up && RecordAt(files, cands[k]).Some?)
  }

  /** No answering target of an earlier layout has the fragment at its planned size. */
  ghost predicate FirstCopy(files: Store, up: set<DiskRef>, plans: seq<Layout>, sc: Sidecar, i: nat, p: nat)
    requires ValidScheme(sc.scheme) && p <= |plans|
  {
    forall q :: 0 <= q < p && i < |plans[q]| ==> !(plans[q][i] in up && RightSize(files, Slot(plans[q], sc.gen, i), sc))
  }

  ghost predicate CopyAt(files: Store, layout: Layout, sc: Sidecar, i: nat, payload: Payload)
    requires ValidScheme(sc.scheme)
  {
    i < |layout| && RightSize(files, Slot(layout, sc.gen, i), sc) && files[Slot(layout, sc.gen, i)] == Data(payload)
  }

  /** The record of the first candidate that has one. Absence is only reported when
      every candidate answered that it has none. */
  method FetchSidecar(cl: Cluster, cands: seq<DiskRef>) returns (r: Answer<Sidecar>)
    requires cl.Valid()
    modifies cl`files
    ensures cl.Valid() && cl.Still()
    ensures cl.quiet && r.Ok? ==>
      exists i ::
        0 <= i < |cands| && FirstRecord(cl.files, cl.up, cands, i) && RecordAt(cl.files, cands[i]) == Some(r.value)
    ensures cl.quiet && r.NotFound? ==> forall at :: at in cands ==> Loc(at, Meta) !in cl.files
    ensures cl.quiet && (exists at :: at in cands && at in cl.up && RecordAt(cl.files, at).Some?) ==> r.Ok?
  {
    var failed := false;
    for i := 0 to |cands|
      invariant cl.Valid() && cl.Still()
      invariant cl.quiet && !failed ==> forall k :: 0 <= k < i ==> Loc(cands[k], Meta) !in cl.files
      invariant cl.quiet ==> FirstRecord(cl.files, cl.up, cands, i)
    {
      cl.Others();
      var b := cl.Get(Loc(cands[i], Meta));
      if b.Failed? || (b.Found? && !b.value.Record?) { failed := true; continue; }
      if b.Found? { return Ok(b.value.sc); }
    }
    r := if failed then Fault else NotFound;
  }

  /** One fragment by index, trying each remembered layout's target once. Torn copies
      are skipped. */
  method OpenFragment(cl: Cluster, plans: seq<Layout>, sc: Sidecar, i: nat) returns (r: Option<Payload>)
    requires ValidScheme(sc.scheme)
    requires cl.Valid()
    modifies cl`files
    ensures cl.Valid() && cl.Still()
    ensures cl.quiet && r.Some? ==>
      exists p ::
        0 <= p < |plans| && FirstCopy(cl.files, cl.up, plans, sc, i, p) && CopyAt(cl.files, plans[p], sc, i, r.value)
    ensures cl.quiet && Reaches(cl.files, cl.up, plans, sc, i) ==> r.Some?
  {
    var seen: set<DiskRef> := {};
    for p := 0 to |plans|
      invariant cl.Valid() && cl.Still()
      invariant forall q :: 0 <= q < p && i < |plans[q]| ==> plans[q][i] in seen
      invariant cl.quiet ==> FirstCopy(cl.files, cl.up, plans, sc, i, p)
      invariant cl.quiet ==>
        forall at :: at in seen && at in cl.up ==> !RightSize(cl.files, Loc(at, Frag(sc.gen, i)), sc)
    {
      if i >= |plans[p]| || plans[p][i] in seen { continue; }
      seen := seen + {plans[p][i]};
      cl.Others();
      var b := cl.Get(Slot(plans[p], sc.gen, i));
      if !b.Found? || !b.value.Data? || SizeOf(b.value.payload) != PlannedSize(sc.scheme, sc.size, i) { continue; }
      return Some(b.value.payload);
    }
    r := None;
  }

  /** The first full replica that opens. */
  method OpenReplica(cl: Cluster, plans: seq<Layout>, sc: Sidecar) returns (r: Option<Payload>)
    requires ValidScheme(sc.scheme) && !sc.scheme.EC?
    requires cl.Valid()
    modifies cl`files
    ensures cl.Valid() && cl.Still()
    ensures cl.quiet && (exists i: nat :: i < FullReplicas(sc.scheme) && Reaches(cl.files, cl.up, plans, sc, i)) ==>
      r.Some?
    ensures forall c :: cl.quiet && Sound(cl.files, sc, c) && r.Some? ==> r.value == Replica(c)
  {
    for i := 0 to FullReplicas(sc.scheme)
      invariant cl.Valid() && cl.Still()
      invariant cl.quiet ==> forall k: nat :: k < i ==> !Reaches(cl.files, cl.up, plans, sc, k)
    {
      r := OpenFragment(cl, plans, sc, i);
      if r.Some? { return; }
    }
    r := None;
  }

  /** Shards in a range of indexes that open, added to those at hand. */
  method OpenShards(cl: Cluster, plans: seq<Layout>, sc: Sidecar, from: nat, to: nat, had: map<nat, Payload>,
                    ghost c: Bytes)
    returns (parts: map<nat, Payload>)
    requires ValidScheme(sc.scheme) && sc.scheme.EC? && from <= to <= Copies(sc.scheme)
    requires cl.quiet && Sound(cl.files, sc, c) ==> Agree(had, sc.scheme, c)
    requires cl.Valid()
    modifies cl`files
    ensures cl.Valid() && cl.Still()
    ensures forall i :: i in parts ==> i in had || from <= i < to
    ensures forall i :: i in had ==> i in parts
    ensures cl.quiet ==> forall i: nat :: from <= i < to && Reaches(cl.files, cl.up, plans, sc, i) ==> i in parts
    ensures cl.quiet ==> forall i: nat :: i in parts && i !in had ==> Held(cl.files, plans, sc, i)
    ensures cl.quiet && Sound(cl.files, sc, c) ==> Agree(parts, sc.scheme, c)
  {
    parts := had;
    for i := from to to
      invariant cl.Valid() && cl.Still()
      invariant forall n :: n in parts ==> n in had || from <= n < i
      invariant forall n :: n in had ==> n in parts
      invariant cl.quiet ==> forall n: nat :: from <= n < i && Reaches(cl.files, cl.up, plans, sc, n) ==> n in parts
      invariant cl.quiet ==> forall n: nat :: n in parts && n !in had ==> Held(cl.files, plans, sc, n)
      invariant cl.quiet && Sound(cl.files, sc, c) ==> Agree(parts, sc.scheme, c)
    {
      var r := OpenFragment(cl, plans, sc, i);
      if r.Some? { parts := parts[i := r.value]; }
    }
  }

  /** Data shards opened a second time, now that the lost ones are rebuilt in memory; the
      first that does not open ends it. */
  method Reopen(cl: Cluster, plans: seq<Layout>, sc: Sidecar, parts: map<nat, Payload>)
    returns (ok: bool, ghost again: set<nat>)
    requires ValidScheme(sc.scheme) && sc.scheme.EC?
    requires cl.Valid()
    modifies cl`files
    ensures cl.Valid() && cl.Still()
    ensures ok <==> forall i: nat :: i < sc.scheme.k && i in parts ==> i in again
    ensures forall i :: i in again ==> i in parts && i < sc.scheme.k
    ensures cl.quiet ==>
      forall i: nat :: i in parts && i < sc.scheme.k && Reaches(cl.files, cl.up, plans, sc, i) ==> i in again
  {
    again := set i | i in parts && i < sc.scheme.k;
    for i := 0 to sc.scheme.k
      invariant cl.Valid() && cl.Still()
      invariant again == set i | i in parts && i < sc.scheme.k
    {
      if i in parts {
        var r := OpenFragment(cl, plans, sc, i);
        if r.None? {
          again := again - {i};
          return false, again;
        }
      }
    }
    ok := true;
  }

  /** A read with a data shard missing: parity, too, and every data shard a second time. */
  method OpenDegraded(cl: Cluster, plans: seq<Layout>, sc: Sidecar, data: map<nat, Payload>, ghost c: Bytes)
    returns (r: Option<Payload>, ghost first: set<nat>, ghost again: set<nat>)
    requires ValidScheme(sc.scheme) && sc.scheme.EC? && !AllData(sc, data.Keys) && forall i :: i in data ==>
      i < sc.scheme.k
    requires cl.quiet && Sound(cl.files, sc, c) ==> Agree(data, sc.scheme, c)
    requires cl.quiet ==> forall i: nat :: i < sc.scheme.k && Reaches(cl.files, cl.up, plans, sc, i) ==> i in data
    requires cl.quiet ==> forall i: nat :: i in data ==> Held(cl.files, plans, sc, i)
    requires cl.Valid()
    modifies cl`files
    ensures cl.Valid() && cl.Still()
    ensures cl.quiet && Sound(cl.files, sc, c) && r.Some? ==> r.value == Replica(c)
    ensures r.Some? <==> Joins(sc, first, again)
    ensures cl.quiet ==> Rounds(cl.files, cl.up, plans, sc, first, again)
  {
    var parts := OpenShards(cl, plans, sc, sc.scheme.k, Copies(sc.scheme), data, c);
    first, again := parts.Keys, set i | i in parts && i < sc.scheme.k;
    assert |first| == |parts|;
    if |parts| < sc.scheme.k { return None, first, again; }
    var ok;
    ok, again := Reopen(cl, plans, sc, parts);
    var i :| i in parts;
    r := if ok then Some(Decoded(parts, sc, i)) else None;
  }

  /** Join the data shards, rebuilding lost ones from parity. A degraded read opens every
      data shard twice, so a shard that answers once and not again fails it. */
  method OpenEC(cl: Cluster, plans: seq<Layout>, sc: Sidecar, ghost c: Bytes)
    returns (r: Option<Payload>, ghost first: set<nat>, ghost again: set<nat>)
    requires ValidScheme(sc.scheme) && sc.scheme.EC?
    requires cl.Valid()
    modifies cl`files
    ensures cl.Valid() && cl.Still()
    ensures sc.size == 0 ==> r == Some(Replica([]))
    ensures cl.quiet && Sound(cl.files, sc, c) && r.Some? && sc.size > 0 ==> r.value == Replica(c)
    ensures sc.size > 0 ==> (r.Some? <==> Joins(sc, first, again))
    ensures cl.quiet && sc.size > 0 ==> Rounds(cl.files, cl.up, plans, sc, first, again)
    ensures cl.quiet && Decodable(cl.files, cl.up, plans, sc) ==> r.Some?
  {
    first, again := {}, {};
    if sc.size == 0 { return Some(Replica([])), first, again; }
    var data := OpenShards(cl, plans, sc, 0, sc.scheme.k, map[], c);
    if exists i: nat :: i < sc.scheme.k && i !in data {
      r, first, again := OpenDegraded(cl, plans, sc, data, c);
    } else {
      first, again := data.Keys, data.Keys;
      r := Some(Decoded(data, sc, 0));
    }
    if cl.quiet && Decodable(cl.files, cl.up, plans, sc) { DecodableJoins(cl.files, cl.up, plans, sc, first, again); }
  }

  /** The record lookup and the layout computation each observe the topology. */
  function Twice(order: seq<Topology>, first: Topology, second: Topology, sig: Signer): seq<Topology> {
    Observed(Observed(order, first, sig), second, sig)
  }

  /** Some record candidate answers with a record, and the object's own layout is consulted. */
  ghost predicate Consulted(files: Store, up: set<DiskRef>, order: seq<Topology>, first: Topology, second: Topology,
                            counts: seq<nat>,
                            s: Scheme, place: Placer, sig: Signer, home: Layout)
  {
    && RecordReachable(files, up, RecordTargets(Observed(order, first, sig), counts, place))
    && home in Plans(Twice(order, first, second, sig), s, place)
  }

  class Coordinator {
    const cl: Cluster
    const memory: EpochMemory
    const place: Placer

    constructor (cl: Cluster, memory: EpochMemory, place: Placer)
      ensures this.cl == cl && this.memory == memory && this.place == place
    {
      this.cl, this.memory, this.place := cl, memory, place;
    }

    /** Record candidates under one topology: however many layouts overlap, this is the
        placement at the widest of the counts, in placement order. */
    method SidecarCandidates(t: Topology, counts: seq<nat>) returns (out: seq<DiskRef>)
      requires GoodPlace(place)
      ensures out == place(t, Widest(counts))
    {
      out := [];
      for k := 0 to |counts|
        invariant out == place(t, Widest(counts[..k]))
      {
        assert counts[..k + 1][..k] == counts[..k];
        out := Widen(t, Widest(counts[..k]), counts[k], out);
      }
      assert counts[..|counts|] == counts;
    }

    method Widen(t: Topology, ghost w: nat, n: nat, had: seq<DiskRef>) returns (out: seq<DiskRef>)
      requires GoodPlace(place) && had == place(t, w)
      ensures out == place(t, if n > w then n else w)
    {
      out := had;
      ghost var all := place(t, if n > w then n else w);
      var more := place(t, n);
      assert if n > w then Extends(had, more, w) else Extends(more, had, n);
      for i := 0 to |more|
        invariant out <= all && |out| == if i > |had| then i else |had|
      {
        assert more[i] == all[i];
        if more[i] !in out { out := out + [more[i]]; }
      }
    }

    /** Record candidates across every remembered epoch, each target once. */
    method AllSidecarCandidates(now: Topology, counts: seq<nat>) returns (out: seq<DiskRef>)
      requires memory.Valid() && GoodPlace(place)
      modifies memory
      ensures memory.Valid() && memory.order == Observed(old(memory.order), now, memory.sig)
      ensures out == RecordTargets(memory.order, counts, place)
    {
      var topos := memory.Observe(now);
      out := CandidatesOver(topos, counts);
    }

    method CandidatesOver(topos: seq<Topology>, counts: seq<nat>) returns (out: seq<DiskRef>)
      requires GoodPlace(place)
      ensures out == RecordTargets(topos, counts, place)
    {
      out := [];
      for k := 0 to |topos|
        invariant out == RecordTargets(topos[..k], counts, place)
      {
        assert topos[..k + 1][..k] == topos[..k];
        var more := SidecarCandidates(topos[k], counts);
        out := Merge(out, more);
      }
      assert topos[..|topos|] == topos;
    }

    method Merge(had: seq<DiskRef>, more: seq<DiskRef>) returns (out: seq<DiskRef>)
      ensures out == Merged(had, more)
    {
      out := had;
      for i := 0 to |more|
        invariant out == Merged(had, more[..i])
      {
        assert more[..i + 1][..i] == more[..i];
        if more[i] !in out { out := out + [more[i]]; }
      }
      assert more[..|more|] == more;
    }

    /** The object's layout under every remembered epoch, newest first. */
    method EpochPlans(now: Topology, s: Scheme) returns (plans: seq<Layout>)
      requires memory.Valid()
      modifies memory
      ensures memory.Valid() && memory.order == Observed(old(memory.order), now, memory.sig)
      ensures plans == Plans(memory.order, s, place)
    {
      var topos := memory.Observe(now);
      plans := PlansOver(topos, s);
    }

    method PlansOver(topos: seq<Topology>, s: Scheme) returns (plans: seq<Layout>)
      ensures plans == Plans(topos, s, place)
    {
      plans := [];
      for k := 0 to |topos|
        invariant plans == Plans(topos[..k], s, place)
      {
        assert topos[..k + 1][..k] == topos[..k];
        var p := Plan(place, topos[k], s);
        if p.None? { continue; }
        plans := plans + [p.value];
      }
      assert topos[..|topos|] == topos;
    }

    /** Open the payload a record names. */
    method OpenBody(plans: seq<Layout>, sc: Sidecar, ghost home: Layout, ghost c: Bytes) returns (body: Option<Payload>)
      requires ValidScheme(sc.scheme)
      requires cl.Valid()
      modifies cl`files
      ensures cl.Valid() && cl.Still()
      ensures cl.quiet && Untouched(cl.files, sc, c) && Available(cl.files, cl.up, home, sc) && home in plans ==>
        body == Some(Replica(c))
    {
      if home in plans { HomeReaches(cl.files, cl.up, plans, home, sc); }
      if sc.scheme.EC? {
        ghost var first, again;
        body, first, again := OpenEC(cl, plans, sc, c);
      } else {
        body := OpenReplica(cl, plans, sc);
      }
    }

    /** The object's record, from the candidates of every remembered epoch. */
    method Lookup(now: Topology, counts: seq<nat>, ghost sc: Sidecar, ghost c: Bytes) returns (rec: Answer<Sidecar>)
      requires memory.Valid() && GoodPlace(place) && cl.Valid()
      modifies memory, cl`files
      ensures memory.Valid() && cl.Valid() && cl.Still()
      ensures memory.order == Observed(old(memory.order), now, memory.sig)
      ensures cl.quiet && rec.NotFound? ==>
        forall at :: at in RecordTargets(memory.order, counts, place) ==> Loc(at, Meta) !in cl.files
      ensures cl.quiet && Untouched(cl.files, sc, c) ==>
        (RecordReachable(cl.files, cl.up, RecordTargets(memory.order, counts, place)) ==> rec == Ok(sc))
    {
      var cands := AllSidecarCandidates(now, counts);
      rec := FetchSidecar(cl, cands);
    }

    /** The payload a record names, at the layouts of every remembered epoch. */
    method OpenObject(now: Topology, sc: Sidecar, ghost home: Layout, ghost c: Bytes) returns (body: Option<Payload>)
      requires memory.Valid() && cl.Valid()
      modifies memory, cl`files
      ensures memory.Valid() && cl.Valid() && cl.Still()
      ensures memory.order == Observed(old(memory.order), now, memory.sig)
      ensures cl.quiet && Untouched(cl.files, sc, c) && Available(cl.files, cl.up, home, sc) ==>
        (home in Plans(memory.order, sc.scheme, place) ==> body == Some(Replica(c)))
    {
      var plans := EpochPlans(now, sc.scheme);
      if !ValidScheme(sc.scheme) || plans == [] { return None; }
      body := OpenBody(plans, sc, home, c);
    }

    /** Open an object: its record and its payload. */
    method Get(first: Topology, second: Topology, counts: seq<nat>, ghost home: Layout, ghost sc: Sidecar,
               ghost c: Bytes,
               ghost h: seq<Topology>, ghost t0: Topology)
      returns (r: Answer<(Sidecar, Payload)>)
      requires memory.Valid() && GoodPlace(place) && cl.Valid()
      modifies memory, cl`files
      ensures memory.Valid() && cl.Valid() && cl.Still()
      ensures r.Ok? ==> memory.order == Twice(old(memory.order), first, second, memory.sig)
      ensures cl.quiet && r.NotFound? ==>
        forall at :: at in RecordTargets(Observed(old(memory.order), first, memory.sig), counts, place) ==>
          Loc(at, Meta) !in cl.files
      ensures cl.quiet && Untouched(cl.files, sc, c) && Available(cl.files, cl.up, home, sc) ==>
        (Consulted(cl.files, cl.up, old(memory.order), first, second, counts, sc.scheme, place, memory.sig, home) ==>
           r == Ok((sc, Replica(c))))
      ensures cl.quiet && Untouched(cl.files, sc, c) && Available(cl.files, cl.up, home, sc) ==>
        (RecordAtHome(cl.files, cl.up, home, counts) && old(memory.order) == Memory(h, memory.sig) ==>
           (Survives(h, first, second, t0, sc.scheme, place, memory.sig, home) ==> r == Ok((sc, Replica(c)))))
    {
      if RecordAtHome(cl.files, cl.up, home, counts) && memory.order == Memory(h, memory.sig)
         && Survives(h, first, second, t0, sc.scheme, place, memory.sig, home) {
        SurvivesRead(cl.files, cl.up, h, first, second, t0, sc.scheme, place, counts, memory.sig, home);
      }
      var rec := Lookup(first, counts, sc, c);
      if !rec.Ok? { return if rec.NotFound? then NotFound else Fault; }
      var body := OpenObject(second, rec.value, home, c);
      r := if body.Some? then Ok((rec.value, body.value)) else Fault;
    }
  }

  // ---- Reads survive topology changes ----

  /** A remembered snapshot with the signature an object was placed under contributes the
      object's own layout and its record targets. */
  lemma RememberedLayout(topos: seq<Topology>, t0: Topology, s: Scheme, place: Placer, counts: seq<nat>, sig: Signer,
                         home: Layout)
    requires GoodPlace(place) && Decides(sig, place, Sets.Members(topos) + {t0})
    requires Remembers(topos, sig(t0), sig) && Plan(place, t0, s) == Some(home)
    ensures home in Plans(topos, s, place)
    ensures forall i :: 0 <= i < |home| && i < Widest(counts) ==> home[i] in RecordTargets(topos, counts, place)
  {
    var t :| t in topos && sig(t) == sig(t0);
    assert t in Sets.Members(topos);
    var n, w := Copies(s), Widest(counts);
    assert place(t, n) == place(t0, n) && place(t, w) == place(t0, w);
    assert Plan(place, t, s) == Some(home) && home == place(t0, n);
    PlansAre(topos, s, place);
    RecordTargetsAre(topos, counts, place);
    assert if w <= n then Extends(place(t0, w), home, w) else Extends(home, place(t0, w), n);
    forall i | 0 <= i < |home| && i < w
      ensures home[i] in RecordTargets(topos, counts, place)
    {
      assert home[i] == place(t0, w)[i];
      assert home[i] in place(t, w);
    }
  }

  lemma DecidesFewer(h: seq<Topology>, m: seq<Topology>, t0: Topology, place: Placer, sig: Signer)
    requires Decides(sig, place, Sets.Members(h)) && t0 in h && forall t :: t in m ==> t in h
    ensures Decides(sig, place, Sets.Members(m) + {t0})
  {
    assert Sets.Members(m) + {t0} <= Sets.Members(h);
  }

  /** Whatever topologies were observed since, as long as fewer than four other placements
      were, the layout an object was written under is still consulted. */
  lemma SurvivesHistory(h: seq<Topology>, t0: Topology, s: Scheme, place: Placer, counts: seq<nat>, sig: Signer,
                        home: Layout)
    requires GoodPlace(place) && Decides(sig, place, Sets.Members(h))
    requires Steady(h, sig) && t0 in h && |Since(h, sig(t0), sig)| < MAX_REMEMBERED
    requires Plan(place, t0, s) == Some(home)
    ensures home in Plans(Memory(h, sig), s, place)
    ensures forall i :: 0 <= i < |home| && i < Widest(counts) ==>
      home[i] in RecordTargets(Memory(h, sig), counts, place)
  {
    RememberedIff(h, sig(t0), sig);
    MemoryFrom(h, sig);
    assert Remembers(h, sig(t0), sig);
    DecidesFewer(h, Memory(h, sig), t0, place, sig);
    RememberedLayout(Memory(h, sig), t0, s, place, counts, sig, home);
  }

  /** A target of the object's own layout that is still asked for records answers and has one. */
  ghost predicate RecordAtHome(files: Store, up: set<DiskRef>, home: Layout, counts: seq<nat>) {
    exists i :: 0 <= i < |home| && i < Widest(counts) && home[i] in up && RecordAt(files, home[i]).Some?
  }

  /** The object was placed under a topology of the history, and through the two observations
      of a read fewer than four other placements were observed since. */
  ghost predicate Survives(h: seq<Topology>, first: Topology, second: Topology, t0: Topology, s: Scheme,
                           place: Placer, sig: Signer, home: Layout) {
    && Decides(sig, place, Sets.Members(h + [first, second]))
    && Steady(h + [first, second], sig)
    && t0 in h
    && Plan(place, t0, s) == Some(home)
    && |Since(h + [first], sig(t0), sig)| < MAX_REMEMBERED
    && |Since(h + [first, second], sig(t0), sig)| < MAX_REMEMBERED
  }

  /** A read after any such history consults the object's own layout and finds its record. */
  lemma SurvivesRead(files: Store, up: set<DiskRef>, h: seq<Topology>, first: Topology, second: Topology,
                     t0: Topology, s: Scheme, place: Placer, counts: seq<nat>,
                     sig: Signer, home: Layout)
    requires GoodPlace(place) && Survives(h, first, second, t0, s, place, sig, home)
    requires RecordAtHome(files, up, home, counts)
    ensures Consulted(files, up, Memory(h, sig), first, second, counts, s, place, sig, home)
  {
    var one, two := h + [first], h + [first, second];
    TwoMore(h, first, second, sig);
    assert Sets.Members(one) <= Sets.Members(two) by { assert forall t :: t in one ==> t in two; }
    SurvivesHistory(one, t0, s, place, counts, sig, home);
    SurvivesHistory(two, t0, s, place, counts, sig, home);
    var i :| 0 <= i < |home| && i < Widest(counts) && home[i] in up && RecordAt(files, home[i]).Some?;
    assert home[i] in RecordTargets(Memory(one, sig), counts, place);
  }

  lemma TwoMore(h: seq<Topology>, first: Topology, second: Topology, sig: Signer)
    ensures Memory(h + [first], sig) == Observed(Memory(h, sig), first, sig)
    ensures Memory(h + [first, second], sig) == Twice(Memory(h, sig), first, second, sig)
    ensures Steady(h + [first, second], sig) ==> Steady(h + [first], sig)
  {
    var one, two := h + [first], h + [first, second];
    assert one[..|one| - 1] == h && two[..|two| - 1] == one;
    assert forall i :: 0 <= i < |one| ==> one[i] == two[i];
  }

  /** The same for the program's own signature and placement. */
  lemma SurvivesChanges(h: seq<Topology>, t0: Topology, s: Scheme, key: string, score: Score, counts: seq<nat>,
                        fmt: Format, ws: set<real>, home: Layout)
    requires GoodFormat(fmt, ws) && forall t :: t in h ==> Proper(t) && Weighs(t, ws)
    requires var sig := SignatureOf(fmt); Steady(h, sig) && t0 in h && |Since(h, sig(t0), sig)| < MAX_REMEMBERED
    requires Plan(PlaceOf(key, score), t0, s) == Some(home)
    ensures home in Plans(Memory(h, SignatureOf(fmt)), s, PlaceOf(key, score))
    ensures forall i :: 0 <= i < |home| && i < Widest(counts) ==>
      home[i] in RecordTargets(Memory(h, SignatureOf(fmt)), counts, PlaceOf(key, score))
  {
    PlaceOfGood(key, score);
    SignatureDecides(key, score, fmt, ws, Sets.Members(h));
    SurvivesHistory(h, t0, s, PlaceOf(key, score), counts, SignatureOf(fmt), home);
  }

  /** The program's own signature and placement meet what the survival of a read asks of them. */
  lemma OwnSurvives(h: seq<Topology>, first: Topology, second: Topology, t0: Topology, s: Scheme, key: string,
                    score: Score, fmt: Format, ws: set<real>, home: Layout)
    requires GoodFormat(fmt, ws) && forall t :: t in h + [first, second] ==> Proper(t) && Weighs(t, ws)
    requires var sig := SignatureOf(fmt);
      && Steady(h + [first, second], sig)
      && |Since(h + [first], sig(t0), sig)| < MAX_REMEMBERED
      && |Since(h + [first, second], sig(t0), sig)| < MAX_REMEMBERED
    requires t0 in h && Plan(PlaceOf(key, score), t0, s) == Some(home)
    ensures GoodPlace(PlaceOf(key, score))
    ensures Survives(h, first, second, t0, s, PlaceOf(key, score), SignatureOf(fmt), home)
  {
    PlaceOfGood(key, score);
    SignatureDecides(key, score, fmt, ws, Sets.Members(h + [first, second]));
  }
}
