/**
 Failure-domain-aware placement over a topology. The rendezvous score of a disk is a
 function of (key, node, disk, weight), so a parameter; everything else is modelled.
 */
module Placement {
  import opened Records
  import opened Peers
  import opened Text
  import opened Topologies
  import Lex
  import Sorting
  import Sets

  type Score = (string, string, string, real) -> real

  datatype Candidate = Candidate(at: DiskRef, rack: string, score: real)

  /** Placeable disks of one node: drained disks (weight <= 0) are never chosen. */
  function NodeCandidates(n: Node, disks: seq<Disk>, key: string, score: Score): seq<Candidate> {
    if disks == [] then []
    else
      var d := disks[0];
      (if d.weight <= 0.0 then []
        else [Candidate(DiskRef(n.id, d.id), FailureDomain(n), score(key, n.id, d.id, d.weight))])
      + NodeCandidates(n, disks[1..], key, score)
  }

  function Candidates(nodes: seq<Node>, key: string, score: Score): seq<Candidate> {
    if nodes == [] then []
      else NodeCandidates(nodes[0], nodes[0].disks, key, score) + Candidates(nodes[1..], key, score)
  }

  /** Highest score first, ties by node, then by disk. */
  predicate Ahead(a: Candidate, b: Candidate) {
    if a.score != b.score then a.score > b.score
    else if a.at.node != b.at.node then Lex.Less(a.at.node, b.at.node)
    else Lex.AtMost(a.at.disk, b.at.disk)
  }

  // ---- Selection ----

  predicate TakenDisk(sel: seq<Candidate>, at: DiskRef) {
    exists i :: 0 <= i < |sel| && sel[i].at == at
  }

  predicate TakenNode(sel: seq<Candidate>, node: string) {
    exists i :: 0 <= i < |sel| && sel[i].at.node == node
  }

  predicate TakenRack(sel: seq<Candidate>, rack: string) {
    exists i :: 0 <= i < |sel| && sel[i].rack == rack
  }

  /** Relaxation levels: 0 needs an unused rack, 1 an unused node, 2 an unused disk. */
  predicate Admits(level: nat, c: Candidate, sel: seq<Candidate>) {
    && !TakenDisk(sel, c.at)
    && (level == 0 ==> !TakenRack(sel, c.rack))
    && (level == 1 ==> !TakenNode(sel, c.at.node))
  }

  /** One scan of the score-sorted candidates at a level. */
  function Scan(level: nat, cands: seq<Candidate>, sel: seq<Candidate>, count: nat): seq<Candidate> {
    if cands == [] || |sel| >= count then sel
    else Scan(level, cands[1..], if Admits(level, cands[0], sel) then sel + [cands[0]] else sel, count)
  }

  function Select(cands: seq<Candidate>, count: nat): seq<Candidate> {
    Scan(2, cands, Scan(1, cands, Scan(0, cands, [], count), count), count)
  }

  function Ranked(t: Topology, key: string, score: Score): seq<Candidate> {
    Sorting.Sort(Candidates(t.nodes, key, score), Ahead)
  }

  function Least(a: nat, b: nat): nat {
    if a < b then a else b
  }

  function At(c: Candidate): DiskRef {
    c.at
  }

  /** The ordered targets of an object, primary first: never more than there are candidates. */
  function Placed(t: Topology, key: string, count: nat, score: Score): seq<DiskRef> {
    var cands := Ranked(t, key, score);
    Map(At, Select(cands, Least(count, |cands|)))
  }

  /** Placement as the program runs it: three levels, each a scan with an early stop. */
  method Place(t: Topology, key: string, count: int, score: Score) returns (r: seq<DiskRef>)
    ensures count <= 0 ==> r == []
    ensures count > 0 ==> r == Placed(t, key, count, score)
  {
    if count <= 0 { return []; }
    var cands := Ranked(t, key, score);
    var want := if count > |cands| then |cands| else count;
    var sel: seq<Candidate> := [];
    var level := 0;
    while level < 3 && |sel| < want
      invariant 0 <= level <= 3
      invariant level == 0 ==> sel == []
      invariant level == 1 ==> sel == Scan(0, cands, [], want)
      invariant level == 2 ==> sel == Scan(1, cands, Scan(0, cands, [], want), want)
      invariant level == 3 ==> sel == Select(cands, want)
    {
      ghost var start := sel;
      var i := 0;
      while i < |cands| && |sel| < want
        invariant 0 <= i <= |cands|
        invariant Scan(level, cands, start, want) == Scan(level, cands[i..], sel, want)
      {
        assert cands[i..][1..] == cands[i + 1..];
        if Admits(level, cands[i], sel) { sel := sel + [cands[i]]; }
        i := i + 1;
      }
      level := level + 1;
    }
    r := Map(At, sel);
  }

  /** Where one object goes: the ordered targets under a topology, for a count. */
  type Placer = (Topology, nat) -> seq<DiskRef>

  function PlaceOf(key: string, score: Score): Placer {
    (t: Topology, count: nat) => Placed(t, key, count, score)
  }

  /** The fragment layout of a scheme, or none when the topology cannot host it. */
  function Plan(place: Placer, t: Topology, s: Scheme): Option<Layout> {
    var targets := place(t, Copies(s));
    if |targets| < Copies(s) then None else Some(targets)
  }

  // ---- What a selection is ----

  /** No disk is chosen twice. */
  ghost predicate DistinctDisks(sel: seq<Candidate>) {
    forall i, j :: 0 <= i < j < |sel| ==> sel[i].at != sel[j].at
  }

  ghost predicate DistinctNodes(sel: seq<Candidate>) {
    forall i, j :: 0 <= i < j < |sel| ==> sel[i].at.node != sel[j].at.node
  }

  ghost predicate DistinctRacks(sel: seq<Candidate>) {
    forall i, j :: 0 <= i < j < |sel| ==> sel[i].rack != sel[j].rack
  }

  ghost predicate Drawn(sel: seq<Candidate>, cands: seq<Candidate>) {
    forall i :: 0 <= i < |sel| ==> sel[i] in cands
  }

  /** A level is used up: nothing the scan passed could still be admitted. */
  ghost predicate Exhausted(level: nat, cands: seq<Candidate>, sel: seq<Candidate>) {
    forall c :: c in cands ==> !Admits(level, c, sel)
  }

  lemma TakenGrows(sel: seq<Candidate>, more: seq<Candidate>, c: Candidate, level: nat)
    requires sel <= more && !Admits(level, c, sel)
    ensures !Admits(level, c, more)
  {
    assert forall i :: 0 <= i < |sel| ==> sel[i] == more[i];
  }

  /** A scan only appends, only candidates, only unused disks, and stops short of its
      count only when the level is used up. */
  lemma {:induction false} ScanGrows(level: nat, cands: seq<Candidate>, sel: seq<Candidate>, count: nat)
    requires |sel| <= count && DistinctDisks(sel)
    ensures var r := Scan(level, cands, sel, count);
      && sel <= r && |r| <= count && DistinctDisks(r)
      && (forall i :: |sel| <= i < |r| ==> r[i] in cands)
      && (|r| < count ==> Exhausted(level, cands, r))
    decreases |cands|
  {
    if cands != [] && |sel| < count {
      var c := cands[0];
      var next := if Admits(level, c, sel) then sel + [c] else sel;
      ScanGrows(level, cands[1..], next, count);
      var r := Scan(level, cands, sel, count);
      assert forall i :: 0 <= i < |sel| ==> next[i] == sel[i];
      if |next| > |sel| {
        assert r[|sel|] == next[|sel|] == c;
        assert TakenDisk(next, c.at);
      }
      TakenGrows(next, r, c, level);
      forall x | x in cands && |r| < count
        ensures !Admits(level, x, r)
      {
        if x != c { assert x in cands[1..]; }
      }
      forall i | |sel| <= i < |r|
        ensures r[i] in cands
      {
        if i >= |next| { assert r[i] in cands[1..]; }
      }
    }
  }

  lemma {:induction false} ScanKeepsRacks(cands: seq<Candidate>, sel: seq<Candidate>, count: nat)
    requires DistinctRacks(sel)
    ensures DistinctRacks(Scan(0, cands, sel, count))
    decreases |cands|
  {
    if cands != [] && |sel| < count {
      ScanKeepsRacks(cands[1..], if Admits(0, cands[0], sel) then sel + [cands[0]] else sel, count);
    }
  }

  lemma {:induction false} ScanKeepsNodes(cands: seq<Candidate>, sel: seq<Candidate>, count: nat)
    requires DistinctNodes(sel)
    ensures DistinctNodes(Scan(1, cands, sel, count))
    decreases |cands|
  {
    if cands != [] && |sel| < count {
      ScanKeepsNodes(cands[1..], if Admits(1, cands[0], sel) then sel + [cands[0]] else sel, count);
    }
  }

  /** A smaller count takes a prefix of what a larger one takes. */
  lemma {:induction false} ScanPrefix(level: nat, cands: seq<Candidate>, sel: seq<Candidate>, n: nat, m: nat)
    requires |sel| <= n <= m && DistinctDisks(sel)
    ensures var r := Scan(level, cands, sel, m);
      Scan(level, cands, sel, n) == if |r| < n then r else r[..n]
    decreases |cands|
  {
    ScanGrows(level, cands, sel, m);
    if cands != [] && |sel| < n {
      var next := if Admits(level, cands[0], sel) then sel + [cands[0]] else sel;
      ScanGrows(level, cands[1..], sel, n);
      ScanPrefix(level, cands[1..], next, n, m);
    }
  }

  ghost function First(sel: seq<Candidate>, n: nat): seq<Candidate> {
    if |sel| < n then sel else sel[..n]
  }

  lemma SelectPrefix(cands: seq<Candidate>, n: nat, m: nat)
    requires n <= m
    ensures Select(cands, n) == First(Select(cands, m), n)
  {
    var a, b := Scan(0, cands, [], n), Scan(0, cands, [], m);
    ScanGrows(0, cands, [], n);
    ScanGrows(0, cands, [], m);
    ScanPrefix(0, cands, [], n, m);
    var c, d := Scan(1, cands, a, n), Scan(1, cands, b, m);
    ScanGrows(1, cands, a, n);
    ScanGrows(1, cands, b, m);
    if |b| < n { ScanPrefix(1, cands, a, n, m); }
    ScanGrows(2, cands, c, n);
    ScanGrows(2, cands, d, m);
    if |d| < n { ScanPrefix(2, cands, c, n, m); }
  }

  /** Candidates on one node share its failure domain. */
  ghost predicate RackOfNode(cands: seq<Candidate>) {
    forall a, b :: a in cands && b in cands && a.at.node == b.at.node ==> a.rack == b.rack
  }

  /** The three scans of a selection, one extending the other. */
  lemma SelectScans(cands: seq<Candidate>, count: nat) returns (a: seq<Candidate>, b: seq<Candidate>, r: seq<Candidate>)
    ensures a == Scan(0, cands, [], count) && b == Scan(1, cands, a, count) && r == Select(cands, count)
    ensures a <= b <= r && |r| <= count && Drawn(r, cands) && DistinctDisks(r)
    ensures |a| < count ==> Exhausted(0, cands, a)
    ensures |b| < count ==> Exhausted(1, cands, b)
    ensures |r| < count ==> Exhausted(2, cands, r)
    ensures |a| == count ==> a == r
    ensures |b| == count ==> b == r
  {
    a := Scan(0, cands, [], count);
    ScanGrows(0, cands, [], count);
    b := Scan(1, cands, a, count);
    ScanGrows(1, cands, a, count);
    r := Scan(2, cands, b, count);
    ScanGrows(2, cands, b, count);
  }

  lemma SelectRacks(cands: seq<Candidate>, a: seq<Candidate>, r: seq<Candidate>)
    requires RackOfNode(cands) && a <= r && Drawn(r, cands) && Exhausted(0, cands, a)
    ensures forall c :: c in cands ==> TakenRack(r, c.rack)
  {
    forall c | c in cands
      ensures TakenRack(r, c.rack)
    {
      assert !Admits(0, c, a);
      assert forall i :: 0 <= i < |a| ==> a[i] == r[i];
    }
  }

  lemma SelectNodes(cands: seq<Candidate>, b: seq<Candidate>, r: seq<Candidate>)
    requires b <= r && Exhausted(1, cands, b)
    ensures forall c :: c in cands ==> TakenNode(r, c.at.node)
  {
    forall c | c in cands
      ensures TakenNode(r, c.at.node)
    {
      assert !Admits(1, c, b);
      assert forall i :: 0 <= i < |b| ==> b[i] == r[i];
    }
  }

  /** Copies spread over racks, then nodes, then disks, each level given up only when used up. */
  lemma SelectSpreads(cands: seq<Candidate>, count: nat)
    ensures var r := Select(cands, count);
      && Drawn(r, cands) && DistinctDisks(r) && |r| <= count
      && (|r| < count ==> forall c :: c in cands ==> TakenDisk(r, c.at))
      && (RackOfNode(cands) ==> DistinctRacks(r) || forall c :: c in cands ==> TakenRack(r, c.rack))
      && (RackOfNode(cands) ==> DistinctNodes(r) || forall c :: c in cands ==> TakenNode(r, c.at.node))
  {
    var a, b, r := SelectScans(cands, count);
    assert |r| < count ==> forall c :: c in cands ==> !Admits(2, c, r);
    if RackOfNode(cands) {
      ScanKeepsRacks(cands, [], count);
      if |a| < count { SelectRacks(cands, a, r); }
      DistinctRacksNodes(cands, a, r);
      ScanKeepsNodes(cands, a, count);
      if |b| < count { SelectNodes(cands, b, r); }
    }
  }

  lemma DistinctRacksNodes(cands: seq<Candidate>, a: seq<Candidate>, r: seq<Candidate>)
    requires RackOfNode(cands) && a <= r && Drawn(r, cands) && DistinctRacks(a)
    ensures DistinctNodes(a)
  {
    assert forall i :: 0 <= i < |a| ==> a[i] == r[i] && r[i] in cands;
  }

  // ---- The placement of an object ----

  /** Every node ID names one failure domain. */
  ghost predicate Unambiguous(t: Topology) {
    forall n, m :: n in t.nodes && m in t.nodes && n.id == m.id ==> n.rack == m.rack
  }

  /** The disks a topology offers. */
  ghost predicate Usable(t: Topology, at: DiskRef) {
    exists n, d :: n in t.nodes && d in n.disks && at == DiskRef(n.id, d.id) && d.weight > 0.0
  }

  ghost predicate FromDisk(n: Node, d: Disk, c: Candidate, key: string, score: Score) {
    d.weight > 0.0 && c == Candidate(DiskRef(n.id, d.id), FailureDomain(n), score(key, n.id, d.id, d.weight))
  }

  lemma {:induction false} NodeCandidatesAre(n: Node, disks: seq<Disk>, key: string, score: Score, c: Candidate)
    ensures c in NodeCandidates(n, disks, key, score) <==> exists d :: d in disks && FromDisk(n, d, c, key, score)
  {
    if disks != [] {
      NodeCandidatesAre(n, disks[1..], key, score, c);
      assert disks[0] in disks;
      assert forall d :: d in disks <==> d == disks[0] || d in disks[1..];
    }
  }

  lemma {:induction false} CandidatesAre(nodes: seq<Node>, key: string, score: Score, c: Candidate)
    ensures c in Candidates(nodes, key, score)
        <==> exists n, d :: n in nodes && d in n.disks && FromDisk(n, d, c, key, score)
  {
    if nodes != [] {
      CandidatesAre(nodes[1..], key, score, c);
      NodeCandidatesAre(nodes[0], nodes[0].disks, key, score, c);
      assert nodes[0] in nodes;
      assert forall n :: n in nodes <==> n == nodes[0] || n in nodes[1..];
    }
  }

  lemma RankedAre(t: Topology, key: string, score: Score, c: Candidate)
    ensures c in Ranked(t, key, score)
        <==> exists n, d :: n in t.nodes && d in n.disks && FromDisk(n, d, c, key, score)
  {
    CandidatesAre(t.nodes, key, score, c);
    Sorting.SameMembers(Ranked(t, key, score), Candidates(t.nodes, key, score), c);
  }

  lemma RankedRacks(t: Topology, key: string, score: Score)
    requires Unambiguous(t)
    ensures RackOfNode(Ranked(t, key, score))
  {
    forall c
      ensures c in Ranked(t, key, score) ==>
        exists n, d :: n in t.nodes && d in n.disks && FromDisk(n, d, c, key, score)
    {
      RankedAre(t, key, score, c);
    }
  }

  ghost predicate InDomain(t: Topology, at: DiskRef, domain: string) {
    exists n :: n in t.nodes && n.id == at.node && FailureDomain(n) == domain
  }

  /** Some failure domain holds both disks. */
  ghost predicate Together(t: Topology, a: DiskRef, b: DiskRef) {
    exists d :: InDomain(t, a, d) && InDomain(t, b, d)
  }

  /** The chosen disks lie in different failure domains, or every usable domain is covered. */
  ghost predicate RackSpread(t: Topology, r: seq<DiskRef>) {
    || (forall i, j :: 0 <= i < j < |r| ==> !Together(t, r[i], r[j]))
    || (forall at :: Usable(t, at) ==> exists i :: 0 <= i < |r| && Together(t, r[i], at))
  }

  ghost predicate NodeSpread(t: Topology, r: seq<DiskRef>) {
    || (forall i, j :: 0 <= i < j < |r| ==> r[i].node != r[j].node)
    || (forall at :: Usable(t, at) ==> exists i :: 0 <= i < |r| && r[i].node == at.node)
  }

  /** The cap on the count is never felt: there are no more distinct disks than candidates. */
  lemma SelectCapped(cands: seq<Candidate>, count: nat)
    ensures Select(cands, Least(count, |cands|)) == Select(cands, count)
  {
    if count > |cands| {
      var r := Select(cands, count);
      SelectSpreads(cands, count);
      Sets.DrawnAtMost(r, cands);
      SelectPrefix(cands, |cands|, count);
    }
  }

  lemma PlacedIs(t: Topology, key: string, count: nat, score: Score)
    ensures Placed(t, key, count, score) == Map(At, Select(Ranked(t, key, score), count))
  {
    SelectCapped(Ranked(t, key, score), count);
  }

  lemma DomainOf(t: Topology, key: string, score: Score, c: Candidate, d: string)
    requires Unambiguous(t) && c in Ranked(t, key, score)
    ensures InDomain(t, c.at, d) <==> d == c.rack
    ensures Usable(t, c.at)
  {
    RankedAre(t, key, score, c);
    var n, disk :| n in t.nodes && disk in n.disks && FromDisk(n, disk, c, key, score);
  }

  lemma UsableRanked(t: Topology, key: string, score: Score, at: DiskRef) returns (c: Candidate)
    requires Usable(t, at)
    ensures c in Ranked(t, key, score) && c.at == at
  {
    var n, d :| n in t.nodes && d in n.disks && at == DiskRef(n.id, d.id) && d.weight > 0.0;
    c := Candidate(at, FailureDomain(n), score(key, n.id, d.id, d.weight));
    assert FromDisk(n, d, c, key, score);
    RankedAre(t, key, score, c);
  }

  /** Targets are distinct usable disks, as many as asked for unless all are taken. */
  lemma PlacedTargets(t: Topology, key: string, count: nat, score: Score)
    ensures var r := Placed(t, key, count, score);
      && Sets.Unrepeated(r) && |r| <= count
      && (forall at :: at in r ==> Usable(t, at))
      && (|r| < count ==> forall at :: Usable(t, at) ==> at in r)
  {
    var cands := Ranked(t, key, score);
    var sel, r := Select(cands, count), Placed(t, key, count, score);
    PlacedIs(t, key, count, score);
    SelectSpreads(cands, count);
    forall at | at in r
      ensures Usable(t, at)
    {
      var i :| 0 <= i < |r| && r[i] == at;
      RankedAre(t, key, score, sel[i]);
    }
    forall at | Usable(t, at) && |r| < count
      ensures at in r
    {
      var c := UsableRanked(t, key, score, at);
      var i :| 0 <= i < |sel| && sel[i].at == c.at;
      assert r[i] == at;
    }
  }

  lemma PlacedRacks(t: Topology, key: string, count: nat, score: Score)
    requires Unambiguous(t)
    ensures RackSpread(t, Placed(t, key, count, score))
  {
    var cands := Ranked(t, key, score);
    var sel, r := Select(cands, count), Placed(t, key, count, score);
    PlacedIs(t, key, count, score);
    RankedRacks(t, key, score);
    SelectSpreads(cands, count);
    forall i, d | 0 <= i < |sel|
      ensures InDomain(t, r[i], d) <==> d == sel[i].rack
    {
      DomainOf(t, key, score, sel[i], d);
    }
    if !DistinctRacks(sel) {
      forall at | Usable(t, at)
        ensures exists i :: 0 <= i < |r| && Together(t, r[i], at)
      {
        var c := UsableRanked(t, key, score, at);
        DomainOf(t, key, score, c, c.rack);
        var i :| 0 <= i < |sel| && sel[i].rack == c.rack;
        assert Together(t, r[i], at);
      }
    }
  }

  lemma SpreadNodes(t: Topology, key: string, score: Score, sel: seq<Candidate>, r: seq<DiskRef>)
    requires r == Map(At, sel)
    requires DistinctNodes(sel) || forall c :: c in Ranked(t, key, score) ==> TakenNode(sel, c.at.node)
    ensures NodeSpread(t, r)
  {
    if !DistinctNodes(sel) {
      forall at | Usable(t, at)
        ensures exists i :: 0 <= i < |r| && r[i].node == at.node
      {
        var c := UsableRanked(t, key, score, at);
        assert TakenNode(sel, at.node);
        var i :| 0 <= i < |sel| && sel[i].at.node == at.node;
        assert r[i].node == at.node;
      }
    } else {
      assert forall i :: 0 <= i < |r| ==> r[i] == sel[i].at;
    }
  }

  lemma PlacedNodes(t: Topology, key: string, count: nat, score: Score)
    requires Unambiguous(t)
    ensures NodeSpread(t, Placed(t, key, count, score))
  {
    var cands := Ranked(t, key, score);
    PlacedIs(t, key, count, score);
    RankedRacks(t, key, score);
    SelectSpreads(cands, count);
    SpreadNodes(t, key, score, Select(cands, count), Placed(t, key, count, score));
  }

  /** Asking for fewer targets gives a prefix of asking for more. */
  lemma PlacedPrefix(t: Topology, key: string, n: nat, m: nat, score: Score)
    requires n <= m
    ensures var r := Placed(t, key, m, score);
      Placed(t, key, n, score) == if |r| < n then r else r[..n]
  {
    PlacedIs(t, key, n, score);
    PlacedIs(t, key, m, score);
    SelectPrefix(Ranked(t, key, score), n, m);
  }

  lemma AheadOrder()
    ensures Sorting.Preorder(Ahead)
  {
    forall x, y
      ensures Ahead(x, y) || Ahead(y, x)
    {
      Lex.Total(x.at.node, y.at.node);
      Lex.Total(x.at.disk, y.at.disk);
    }
    Lex.AtMostOrder();
    forall x, y, z | Ahead(x, y) && Ahead(y, z)
      ensures Ahead(x, z)
    {
      if Lex.Less(x.at.node, y.at.node) && Lex.Less(y.at.node, z.at.node) {
        Lex.Transitive(x.at.node, y.at.node, z.at.node);
        Lex.Asymmetric(x.at.node, z.at.node);
      }
    }
  }

  lemma SelectFirst(cands: seq<Candidate>, count: nat)
    requires count > 0 && cands != []
    ensures |Select(cands, count)| > 0 && Select(cands, count)[0] == cands[0]
  {
    var a := Scan(0, cands, [], count);
    assert Admits(0, cands[0], []);
    assert [] + [cands[0]] == [cands[0]];
    ScanGrows(0, cands[1..], [cands[0]], count);
    ScanGrows(1, cands, a, count);
    ScanGrows(2, cands, Scan(1, cands, a, count), count);
  }

  lemma RankedFirst(t: Topology, key: string, score: Score, c: Candidate)
    requires c in Ranked(t, key, score)
    ensures c == Ranked(t, key, score)[0] || Ahead(Ranked(t, key, score)[0], c)
  {
    var cands := Ranked(t, key, score);
    AheadOrder();
    Sorting.SortSorts(Candidates(t.nodes, key, score), Ahead);
    var i :| 0 <= i < |cands| && cands[i] == c;
    if i > 0 { Sorting.SortedAt(cands, Ahead, 0, i); }
  }

  /** The primary is the winner of the rendezvous over all usable disks, so disks that
      lose to it never move it. */
  lemma PrimaryWins(t: Topology, key: string, count: nat, score: Score, at: DiskRef)
    requires count > 0 && Usable(t, at)
    ensures var r := Placed(t, key, count, score);
      && |r| > 0
      && exists w, c :: w in Ranked(t, key, score) && c in Ranked(t, key, score)
           && w.at == r[0] && c.at == at && (w == c || Ahead(w, c))
  {
    var cands := Ranked(t, key, score);
    PlacedIs(t, key, count, score);
    var c := UsableRanked(t, key, score, at);
    RankedFirst(t, key, score, c);
    SelectFirst(cands, count);
    var w := cands[0];
    assert w in cands && w.at == Placed(t, key, count, score)[0];
  }

  // ---- Placement depends only on membership ----

  function Offer(n: Node, d: Disk, key: string, score: Score): multiset<Candidate> {
    if d.weight <= 0.0 then multiset{}
    else multiset{Candidate(DiskRef(n.id, d.id), FailureDomain(n), score(key, n.id, d.id, d.weight))}
  }

  function OfferOf(n: Node, key: string, score: Score): Disk -> multiset<Candidate> {
    (d: Disk) => Offer(n, d, key, score)
  }

  lemma {:induction false} NodeCandidatesSum(n: Node, disks: seq<Disk>, key: string, score: Score)
    ensures multiset(NodeCandidates(n, disks, key, score)) == Sum(OfferOf(n, key, score), disks)
  {
    if disks != [] { NodeCandidatesSum(n, disks[1..], key, score); }
  }

  ghost function NodeOffer(key: string, score: Score): Node -> multiset<Candidate> {
    (n: Node) => multiset(NodeCandidates(n, n.disks, key, score))
  }

  lemma {:induction false} CandidatesSum(nodes: seq<Node>, key: string, score: Score)
    ensures multiset(Candidates(nodes, key, score)) == Sum(NodeOffer(key, score), nodes)
  {
    if nodes != [] { CandidatesSum(nodes[1..], key, score); }
  }

  lemma SameNodeOffer(n: Node, m: Node, key: string, score: Score)
    requires NodeKey(n) == NodeKey(m)
    ensures NodeOffer(key, score)(n) == NodeOffer(key, score)(m)
  {
    NodeCandidatesSum(n, n.disks, key, score);
    NodeCandidatesSum(m, m.disks, key, score);
    var f := OfferOf(n, key, score);
    assert FailureDomain(n) == FailureDomain(m);
    forall d, e | DiskKey(d) == DiskKey(e)
      ensures f(d) == OfferOf(m, key, score)(e)
    {
    }
    SumPointwise(f, OfferOf(m, key, score), m.disks);
    SumByKey(DiskKey, f, n.disks, m.disks);
  }

  lemma {:induction false} SumPointwise<X(!new), Y>(f: X -> multiset<Y>, g: X -> multiset<Y>, s: seq<X>)
    requires forall x :: f(x) == g(x)
    ensures Sum(f, s) == Sum(g, s)
  {
    if s != [] { SumPointwise(f, g, s[1..]); }
  }

  /** Same membership, same placement of every object at every count. */
  lemma MembershipPlaces(a: Topology, b: Topology, key: string, count: nat, score: Score)
    requires Unambiguous(a) && SameMembership(a, b)
    ensures Placed(a, key, count, score) == Placed(b, key, count, score)
  {
    var ca, cb := Candidates(a.nodes, key, score), Candidates(b.nodes, key, score);
    var h := NodeOffer(key, score);
    forall n, m | NodeKey(n) == NodeKey(m)
      ensures h(n) == h(m)
    {
      SameNodeOffer(n, m, key, score);
    }
    CandidatesSum(a.nodes, key, score);
    CandidatesSum(b.nodes, key, score);
    SumByKey(NodeKey, h, a.nodes, b.nodes);
    AheadOrder();
    RankedStrict(a, key, score);
    Sorting.SortCanonical(ca, cb, Ahead);
  }

  lemma RankedStrict(t: Topology, key: string, score: Score)
    requires Unambiguous(t)
    ensures Sorting.Strict(Ahead, Candidates(t.nodes, key, score))
  {
    var c := Candidates(t.nodes, key, score);
    RankedRacks(t, key, score);
    Lex.AtMostOrder();
    forall x, y | x in c && y in c && Ahead(x, y) && Ahead(y, x)
      ensures x == y
    {
      Sorting.SameMembers(Ranked(t, key, score), c, x);
      Sorting.SameMembers(Ranked(t, key, score), c, y);
      if Lex.Less(x.at.node, y.at.node) { Lex.Asymmetric(x.at.node, y.at.node); }
      assert Sorting.Strict(Lex.AtMost, [x.at.disk, y.at.disk]);
    }
  }

  /** Equal signatures place every object identically: dropping the older of two such
      epochs loses no place where a fragment could be. */
  lemma SignaturePlaces(a: Topology, b: Topology, key: string, count: nat, score: Score, fmt: Format, ws: set<real>)
    requires GoodFormat(fmt, ws) && Weighs(a, ws) && Weighs(b, ws)
    requires PlainTopology(a) && PlainTopology(b) && Unambiguous(a)
    requires SignatureText(a, fmt) == SignatureText(b, fmt)
    ensures Placed(a, key, count, score) == Placed(b, key, count, score)
  {
    SignatureCanonical(a, b, fmt, ws);
    MembershipPlaces(a, b, key, count, score);
  }

  // ---- What the rest of the store relies on ----

  ghost predicate Extends(short: seq<DiskRef>, long: seq<DiskRef>, n: nat) {
    short == if |long| < n then long else long[..n]
  }

  /** Distinct targets, no more than asked for, and prefixes of one another. */
  ghost predicate GoodPlace(place: Placer) {
    && (forall t, n :: Sets.Unrepeated(place(t, n)) && |place(t, n)| <= n)
    && (forall t, n, m :: n <= m ==> Extends(place(t, n), place(t, m), n))
  }

  lemma PlaceOfGood(key: string, score: Score)
    ensures GoodPlace(PlaceOf(key, score))
  {
    var place := PlaceOf(key, score);
    forall t, n
      ensures Sets.Unrepeated(place(t, n)) && |place(t, n)| <= n
    {
      PlacedTargets(t, key, n, score);
    }
    forall t, n, m | n <= m
      ensures Extends(place(t, n), place(t, m), n)
    {
      PlacedPrefix(t, key, n, m, score);
    }
  }

  /** Names free of separators, and one failure domain per node: what makes a signature
      determine placement. */
  ghost predicate Proper(t: Topology) {
    PlainTopology(t) && Unambiguous(t)
  }

  /** Equal signatures, equal placement. */
  ghost predicate Decides(sig: Topology -> string, place: Placer, topos: set<Topology>) {
    forall a, b, n | a in topos && b in topos && sig(a) == sig(b) :: place(a, n) == place(b, n)
  }

  function SignatureOf(fmt: Format): Topology -> string {
    (t: Topology) => SignatureText(t, fmt)
  }

  /** The real signature decides the real placement. */
  lemma SignatureDecides(key: string, score: Score, fmt: Format, ws: set<real>, topos: set<Topology>)
    requires GoodFormat(fmt, ws) && forall t :: t in topos ==> Proper(t) && Weighs(t, ws)
    ensures Decides(SignatureOf(fmt), PlaceOf(key, score), topos)
  {
    var sig, place := SignatureOf(fmt), PlaceOf(key, score);
    forall a, b, n | a in topos && b in topos && sig(a) == sig(b)
      ensures place(a, n) == place(b, n)
    {
      SignaturePlaces(a, b, key, n, score, fmt, ws);
    }
  }

  /** A plan is a valid layout on usable disks, and is refused exactly when there are
      fewer usable disks than the scheme has fragments. */
  lemma PlanValid(t: Topology, s: Scheme, key: string, score: Score)
    ensures var p := Plan(PlaceOf(key, score), t, s);
      && (p.Some? ==> ValidLayout(p.value, s) && forall at :: at in p.value ==> Usable(t, at))
      && (p.None? <==> exists all: seq<DiskRef> ::
            |all| < Copies(s) && forall at :: Usable(t, at) ==> at in all)
  {
    var r := Placed(t, key, Copies(s), score);
    PlacedTargets(t, key, Copies(s), score);
    if all: seq<DiskRef> :| |all| < Copies(s) && forall at :: Usable(t, at) ==> at in all {
      Sets.DrawnAtMost(r, all);
    }
  }
}
