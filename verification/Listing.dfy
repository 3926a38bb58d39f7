/**
 The scatter-gather listing: the nodes are scanned concurrently, the disks of one node in
 turn, and all scans feed one shared map under a lock. A run is some interleaving of what
 the nodes deliver; the result is the same for every interleaving, except for records of
 different nodes that tie.
 */
module Listing {
  import opened Records
  import Lex
  import Sorting

  datatype Entry = Entry(key: string, sc: Sidecar)

  /** What a scan does to the shared state: deliver a record, deliver something that cannot
      be fetched or decoded, or give up on its disk; a node that cannot be reached gives up
      on all of its disks at once. */
  datatype Event = Arrive(entry: Entry) | Garbled | FailScan | FailNode(disks: nat)

  /** A disk whose records cannot be listed, or what listing and fetching them yields. */
  datatype Disk = Unlisted | Listed(found: seq<Option<Entry>>)

  datatype Node = Unreachable(count: nat) | Reachable(disks: seq<Disk>)

  function DiskEvents(d: Disk): seq<Event> {
    match d
    case Unlisted => [FailScan]
    case Listed(found) => seq(|found|, i requires 0 <= i < |found| => if found[i].Some? then Arrive(found[i].value)
      else Garbled)
  }

  function DisksEvents(disks: seq<Disk>): seq<Event> {
    if disks == [] then [] else DisksEvents(disks[..|disks| - 1]) + DiskEvents(disks[|disks| - 1])
  }

  /** What one node delivers, in the order it does. */
  function NodeEvents(n: Node): seq<Event> {
    match n
    case Unreachable(count) => [FailNode(count)]
    case Reachable(disks) => DisksEvents(disks)
  }

  function Queues(nodes: seq<Node>): seq<seq<Event>> {
    seq(|nodes|, i requires 0 <= i < |nodes| => NodeEvents(nodes[i]))
  }

  /** The events are those of all the queues, and those of each queue in its order. */
  ghost predicate Interleaves(events: seq<Event>, queues: seq<seq<Event>>)
    decreases |events|
  {
    if events == [] then forall i :: 0 <= i < |queues| ==> queues[i] == []
    else exists i :: 0 <= i < |queues| && Last(events, queues, i)
  }

  /** The last event is the last of queue `i`, and what is before it interleaves the rest. */
  ghost predicate Last(events: seq<Event>, queues: seq<seq<Event>>, i: nat)
    requires events != [] && i < |queues|
    decreases |events|, 0
  {
    && queues[i] != []
    && queues[i][|queues[i]| - 1] == events[|events| - 1]
    && Interleaves(events[..|events| - 1], queues[i := queues[i][..|queues[i]| - 1]])
  }

  type Merged = map<string, Sidecar>

  /** A record replaces the one gathered before when it supersedes it. */
  function Step(recs: Merged, ev: Event): Merged {
    if ev.Arrive? && (ev.entry.key !in recs || Supersedes(ev.entry.sc, recs[ev.entry.key]))
    then recs[ev.entry.key := ev.entry.sc]
    else recs
  }

  function Fold(events: seq<Event>): Merged {
    if events == [] then map[] else Step(Fold(events[..|events| - 1]), events[|events| - 1])
  }

  function Failed(ev: Event): nat {
    match ev
    case FailScan => 1
    case FailNode(disks) => disks
    case _ => 0
  }

  function Failures(events: seq<Event>): nat {
    if events == [] then 0
    else Failures(events[..|events| - 1]) + Failed(events[|events| - 1])
  }

  /** Every gathered key with a newest record among those that arrived for it. */
  ghost predicate IsNewest(recs: Merged, events: seq<Event>) {
    && (forall e :: Arrive(e) in events ==> e.key in recs && Dominates(recs[e.key], e.sc))
    && (forall k :: k in recs ==> Arrive(Entry(k, recs[k])) in events)
  }

  lemma {:induction false} FoldIsNewest(events: seq<Event>)
    ensures IsNewest(Fold(events), events)
  {
    if events != [] {
      var before, last := events[..|events| - 1], events[|events| - 1];
      FoldIsNewest(before);
      assert forall ev :: ev in events <==> ev == last || ev in before;
      if last.Arrive? { StepDominates(Fold(before), before, last.entry); }
    }
  }

  lemma StepDominates(recs: Merged, before: seq<Event>, x: Entry)
    requires IsNewest(recs, before)
    ensures forall e :: Arrive(e) in before || e == x ==>
      e.key in Step(recs, Arrive(x)) && Dominates(Step(recs, Arrive(x))[e.key], e.sc)
  {
    SupersedesTotal(x.sc, x.sc);
    forall e | Arrive(e) in before || e == x
      ensures e.key in Step(recs, Arrive(x)) && Dominates(Step(recs, Arrive(x))[e.key], e.sc)
    {
      if e.key == x.key && x.key in recs && Supersedes(x.sc, recs[x.key]) && e != x {
        SupersedesDominated(x.sc, recs[x.key], e.sc);
        SupersedesTotal(x.sc, e.sc);
      }
    }
  }

  // ---- Interleavings ----

  /** Node `i`'s own newest record of the key is superseded by no node's. */
  ghost predicate Top(queues: seq<seq<Event>>, i: nat, k: string) {
    && i < |queues|
    && k in Fold(queues[i])
    && forall j :: 0 <= j < |queues| && k in Fold(queues[j]) ==> Dominates(Fold(queues[i])[k], Fold(queues[j])[k])
  }

  ghost predicate HasTop(recs: Merged, queues: seq<seq<Event>>, k: string)
    requires k in recs
  {
    exists i: nat :: Top(queues, i, k) && recs[k] == Fold(queues[i])[k]
  }

  /** The merge of the nodes' own merges: every key any of them has, with one of the newest. */
  ghost predicate Merges(recs: Merged, queues: seq<seq<Event>>) {
    && (forall i, k :: 0 <= i < |queues| && k in Fold(queues[i]) ==> k in recs)
    && (forall k :: k in recs ==> HasTop(recs, queues, k))
  }

  /** One more delivery of a node, for one key. */
  lemma MergeKey(recs: Merged, queues: seq<seq<Event>>, i: nat, ev: Event, k: string)
    requires Merges(recs, queues) && i < |queues|
    requires k in Step(recs, ev)
    ensures HasTop(Step(recs, ev), queues[i := queues[i] + [ev]], k)
  {
    var now := queues[i := queues[i] + [ev]];
    assert (queues[i] + [ev])[..|queues[i]|] == queues[i];
    assert Fold(now[i]) == Step(Fold(queues[i]), ev);
    if ev.Arrive? && ev.entry.key == k && (k !in recs || Supersedes(ev.entry.sc, recs[k])) {
      NewTop(recs, queues, i, ev.entry);
    } else {
      assert HasTop(recs, queues, k);
      var j: nat :| Top(queues, j, k) && recs[k] == Fold(queues[j])[k];
      forall m | 0 <= m < |now| && k in Fold(now[m])
        ensures Dominates(recs[k], Fold(now[m])[k])
      {
        if m != i { assert now[m] == queues[m]; }
      }
      if j != i { assert now[j] == queues[j]; }
      assert Top(now, j, k);
    }
  }

  lemma NewTop(recs: Merged, queues: seq<seq<Event>>, i: nat, e: Entry)
    requires Merges(recs, queues) && i < |queues| && (e.key !in recs || Supersedes(e.sc, recs[e.key]))
    requires Fold(queues[i] + [Arrive(e)]) == Step(Fold(queues[i]), Arrive(e))
    ensures HasTop(Step(recs, Arrive(e)), queues[i := queues[i] + [Arrive(e)]], e.key)
  {
    var now := queues[i := queues[i] + [Arrive(e)]];
    SupersedesTotal(e.sc, e.sc);
    forall m | 0 <= m < |queues| && e.key in Fold(queues[m])
      ensures Supersedes(e.sc, Fold(queues[m])[e.key]) && Dominates(e.sc, Fold(queues[m])[e.key])
    {
      assert HasTop(recs, queues, e.key);
      var j: nat :| Top(queues, j, e.key) && recs[e.key] == Fold(queues[j])[e.key];
      SupersedesDominated(e.sc, recs[e.key], Fold(queues[m])[e.key]);
      SupersedesTotal(e.sc, Fold(queues[m])[e.key]);
    }
    assert e.key in Fold(now[i]) && Fold(now[i])[e.key] == e.sc;
    assert forall m :: 0 <= m < |now| && m != i ==> now[m] == queues[m];
    assert Top(now, i, e.key);
  }

  /** One more delivery of a node. */
  lemma MergeStep(recs: Merged, queues: seq<seq<Event>>, i: nat, ev: Event)
    requires Merges(recs, queues) && i < |queues|
    ensures Merges(Step(recs, ev), queues[i := queues[i] + [ev]])
  {
    var now := queues[i := queues[i] + [ev]];
    assert (queues[i] + [ev])[..|queues[i]|] == queues[i];
    forall m, k | 0 <= m < |now| && k in Fold(now[m])
      ensures k in Step(recs, ev)
    {
      if m != i { assert now[m] == queues[m]; }
    }
    forall k | k in Step(recs, ev)
      ensures HasTop(Step(recs, ev), now, k)
    {
      MergeKey(recs, queues, i, ev, k);
    }
  }

  /** However the nodes' deliveries interleave, the outcome merges the nodes' own merges. */
  lemma {:induction false} InterleavedMerges(events: seq<Event>, queues: seq<seq<Event>>)
    requires Interleaves(events, queues)
    ensures Merges(Fold(events), queues)
    decreases |events|
  {
    if events != [] {
      var i :| 0 <= i < |queues| && Last(events, queues, i);
      var n := |queues[i]| - 1;
      var before := queues[i := queues[i][..n]];
      InterleavedMerges(events[..|events| - 1], before);
      MergeStep(Fold(events[..|events| - 1]), before, i, events[|events| - 1]);
      assert queues[i][..n] + [queues[i][n]] == queues[i];
      assert before[i := before[i] + [events[|events| - 1]]] == queues;
    }
  }

  /** Two interleavings have the same keys and equal stamps. */
  lemma MergesAgree(a: Merged, b: Merged, queues: seq<seq<Event>>)
    requires Merges(a, queues) && Merges(b, queues)
    ensures a.Keys == b.Keys && forall k :: k in a ==> Stamp(a[k]) == Stamp(b[k])
  {
    forall k | k in a
      ensures k in b && Stamp(a[k]) == Stamp(b[k])
    {
      SameStamp(a, b, queues, k);
    }
    forall k | k in b
      ensures k in a
    {
      SameStamp(b, a, queues, k);
    }
  }

  lemma SameStamp(a: Merged, b: Merged, queues: seq<seq<Event>>, k: string)
    requires Merges(a, queues) && Merges(b, queues) && k in a
    ensures k in b && Stamp(a[k]) == Stamp(b[k])
  {
    assert HasTop(a, queues, k);
    var i: nat :| Top(queues, i, k) && a[k] == Fold(queues[i])[k];
    assert HasTop(b, queues, k);
    var j: nat :| Top(queues, j, k) && b[k] == Fold(queues[j])[k];
    SupersedesTotal(a[k], b[k]);
  }

  /** Nodes whose own newest record of a key no node supersedes have the same one. */
  ghost predicate Agreed(queues: seq<seq<Event>>) {
    forall i: nat, j: nat, k :: Top(queues, i, k) && Top(queues, j, k) ==> Fold(queues[i])[k] == Fold(queues[j])[k]
  }

  lemma AgreedSame(a: Merged, b: Merged, queues: seq<seq<Event>>)
    requires Merges(a, queues) && Merges(b, queues) && Agreed(queues)
    ensures a == b
  {
    MergesAgree(a, b, queues);
    forall k | k in a
      ensures a[k] == b[k]
    {
      assert HasTop(a, queues, k) && HasTop(b, queues, k);
    }
  }

  // ---- One node first ----

  /** Node `i` first, then the others below `n` in turn. */
  ghost function Ahead(queues: seq<seq<Event>>, i: nat, n: nat): seq<Event>
    requires i < |queues| && n <= |queues|
  {
    if n == 0 then queues[i] else Ahead(queues, i, n - 1) + if n - 1 == i then [] else queues[n - 1]
  }

  /** The queues of node `i` and of those below `n`; the others empty. */
  ghost function Part(queues: seq<seq<Event>>, i: nat, n: nat): seq<seq<Event>> {
    seq(|queues|, m requires 0 <= m < |queues| => if m == i || m < n then queues[m] else [])
  }

  /** A queue appended at the end is still in its order. */
  lemma {:induction false} Appended(events: seq<Event>, queues: seq<seq<Event>>, m: nat, more: seq<Event>)
    requires Interleaves(events, queues) && m < |queues|
    ensures Interleaves(events + more, queues[m := queues[m] + more])
    decreases |more|
  {
    if more == [] {
      assert events + more == events && queues[m] + more == queues[m] && queues[m := queues[m]] == queues;
    } else {
      var n := |more| - 1;
      Appended(events, queues, m, more[..n]);
      var all, now := events + more, queues[m := queues[m] + more];
      assert all[..|all| - 1] == events + more[..n];
      assert now[m][..|now[m]| - 1] == queues[m] + more[..n];
      assert now[m := queues[m] + more[..n]] == queues[m := queues[m] + more[..n]];
      assert Last(all, now, m);
    }
  }

  lemma AloneInterleaves(queues: seq<seq<Event>>, i: nat)
    requires i < |queues|
    ensures Interleaves(queues[i], Part(queues, i, 0))
  {
    var none: seq<seq<Event>> := seq(|queues|, _ => []);
    Appended([], none, i, queues[i]);
    assert [] + queues[i] == queues[i];
    assert none[i := queues[i]] == Part(queues, i, 0);
  }

  lemma NextInterleaves(queues: seq<seq<Event>>, i: nat, n: nat, events: seq<Event>)
    requires i < |queues| && n < |queues| && n != i && Interleaves(events, Part(queues, i, n))
    ensures Interleaves(events + queues[n], Part(queues, i, n + 1))
  {
    var part := Part(queues, i, n);
    Appended(events, part, n, queues[n]);
    assert part[n] + queues[n] == queues[n];
    assert part[n := queues[n]] == Part(queues, i, n + 1);
  }

  lemma {:induction false} AheadInterleaves(queues: seq<seq<Event>>, i: nat, n: nat)
    requires i < |queues| && n <= |queues|
    ensures Interleaves(Ahead(queues, i, n), Part(queues, i, n))
  {
    if n == 0 {
      AloneInterleaves(queues, i);
    } else {
      AheadInterleaves(queues, i, n - 1);
      if n - 1 == i {
        assert Ahead(queues, i, n) == Ahead(queues, i, n - 1) && Part(queues, i, n) == Part(queues, i, n - 1);
      } else {
        NextInterleaves(queues, i, n - 1, Ahead(queues, i, n - 1));
      }
    }
  }

  /** Deliveries that do not supersede a gathered record leave it. */
  lemma {:induction false} Unmoved(before: seq<Event>, more: seq<Event>, k: string)
    requires k in Fold(before)
    requires forall e :: Arrive(e) in more && e.key == k ==> Dominates(Fold(before)[k], e.sc)
    ensures k in Fold(before + more) && Fold(before + more)[k] == Fold(before)[k]
    decreases |more|
  {
    if more == [] {
      assert before + more == before;
    } else {
      var n := |more| - 1;
      assert (before + more)[..|before + more| - 1] == before + more[..n];
      Unmoved(before, more[..n], k);
      assert more[n] in more;
    }
  }

  lemma {:induction false} AheadKeeps(queues: seq<seq<Event>>, i: nat, n: nat, k: string)
    requires Top(queues, i, k) && n <= |queues|
    ensures k in Fold(Ahead(queues, i, n)) && Fold(Ahead(queues, i, n))[k] == Fold(queues[i])[k]
  {
    if n > 0 {
      AheadKeeps(queues, i, n - 1, k);
      if n - 1 == i {
        assert Ahead(queues, i, n) == Ahead(queues, i, n - 1);
      } else {
        FoldIsNewest(queues[n - 1]);
        forall e | Arrive(e) in queues[n - 1] && e.key == k
          ensures Dominates(Fold(queues[i])[k], e.sc)
        {
          DominatesTransitive(Fold(queues[i])[k], Fold(queues[n - 1])[k], e.sc);
        }
        Unmoved(Ahead(queues, i, n - 1), queues[n - 1], k);
      }
    }
  }

  /** Any node with a newest record can be the one whose record is listed. */
  lemma TopListed(queues: seq<seq<Event>>, i: nat, k: string) returns (events: seq<Event>)
    requires Top(queues, i, k)
    ensures Interleaves(events, queues) && k in Fold(events) && Fold(events)[k] == Fold(queues[i])[k]
  {
    events := Ahead(queues, i, |queues|);
    AheadInterleaves(queues, i, |queues|);
    assert Part(queues, i, |queues|) == queues;
    AheadKeeps(queues, i, |queues|, k);
  }

  ghost predicate OneOutcome(queues: seq<seq<Event>>) {
    forall a, b :: Interleaves(a, queues) && Interleaves(b, queues) ==> Fold(a) == Fold(b)
  }

  /** The listing is the same for every interleaving of the nodes' scans exactly when nodes
      whose own newest record of a key no node supersedes have the same one. Records that
      tie on one node do no harm: its disks are scanned in turn. */
  lemma OrderIndependentIff(queues: seq<seq<Event>>)
    ensures OneOutcome(queues) <==> Agreed(queues)
  {
    if Agreed(queues) {
      forall a, b | Interleaves(a, queues) && Interleaves(b, queues)
        ensures Fold(a) == Fold(b)
      {
        InterleavedMerges(a, queues);
        InterleavedMerges(b, queues);
        AgreedSame(Fold(a), Fold(b), queues);
      }
    } else {
      Disagree(queues);
    }
  }

  lemma Disagree(queues: seq<seq<Event>>)
    requires !Agreed(queues)
    ensures !OneOutcome(queues)
  {
    var i: nat, j: nat, k :| Top(queues, i, k) && Top(queues, j, k) && Fold(queues[i])[k] != Fold(queues[j])[k];
    var a := TopListed(queues, i, k);
    var b := TopListed(queues, j, k);
    assert Fold(a)[k] != Fold(b)[k];
  }

  // ---- Failures ----

  function TotalFailures(queues: seq<seq<Event>>): nat {
    if queues == [] then 0 else TotalFailures(queues[..|queues| - 1]) + Failures(queues[|queues| - 1])
  }

  lemma {:induction false} TotalMore(queues: seq<seq<Event>>, i: nat, ev: Event)
    requires i < |queues|
    ensures TotalFailures(queues[i := queues[i] + [ev]]) == TotalFailures(queues) + Failed(ev)
  {
    var now, n := queues[i := queues[i] + [ev]], |queues| - 1;
    if i == n {
      assert now[..n] == queues[..n];
      assert (queues[i] + [ev])[..|queues[i]|] == queues[i];
    } else {
      TotalMore(queues[..n], i, ev);
      assert now[..n] == queues[..n][i := queues[i] + [ev]];
    }
  }

  lemma {:induction false} TotalNone(queues: seq<seq<Event>>)
    requires forall i :: 0 <= i < |queues| ==> queues[i] == []
    ensures TotalFailures(queues) == 0
  {
    if queues != [] { TotalNone(queues[..|queues| - 1]); }
  }

  lemma {:induction false} InterleavedFailures(events: seq<Event>, queues: seq<seq<Event>>)
    requires Interleaves(events, queues)
    ensures Failures(events) == TotalFailures(queues)
    decreases |events|
  {
    if events == [] {
      TotalNone(queues);
    } else {
      var i :| 0 <= i < |queues| && Last(events, queues, i);
      var n := |queues[i]| - 1;
      var before := queues[i := queues[i][..n]];
      InterleavedFailures(events[..|events| - 1], before);
      TotalMore(before, i, events[|events| - 1]);
      assert queues[i][..n] + [queues[i][n]] == queues[i];
      assert before[i := before[i] + [events[|events| - 1]]] == queues;
    }
  }

  /** How many scans a listing makes. */
  function Scans(nodes: seq<Node>): nat {
    if nodes == [] then 0 else Scans(nodes[..|nodes| - 1]) + NodeScans(nodes[|nodes| - 1])
  }

  function NodeScans(n: Node): nat {
    if n.Unreachable? then n.count else |n.disks|
  }

  predicate NodeFails(n: Node) {
    n.Unreachable? || forall d :: d in n.disks ==> d.Unlisted?
  }

  /** There is a disk to scan, and every scan of every node fails. */
  ghost predicate EveryScanFails(nodes: seq<Node>) {
    (exists n :: n in nodes && NodeScans(n) > 0) && forall n :: n in nodes ==> NodeFails(n)
  }

  lemma {:induction false} FailuresJoin(a: seq<Event>, b: seq<Event>)
    ensures Failures(a + b) == Failures(a) + Failures(b)
    decreases |b|
  {
    if b == [] {
      assert a + b == a;
    } else {
      assert (a + b)[..|a + b| - 1] == a + b[..|b| - 1];
      FailuresJoin(a, b[..|b| - 1]);
    }
  }

  lemma {:induction false} NoFailures(events: seq<Event>)
    requires forall ev :: ev in events ==> Failed(ev) == 0
    ensures Failures(events) == 0
  {
    if events != [] {
      assert events[|events| - 1] in events;
      NoFailures(events[..|events| - 1]);
    }
  }

  lemma {:induction false} DisksFailures(disks: seq<Disk>)
    ensures Failures(DisksEvents(disks)) <= |disks|
    ensures Failures(DisksEvents(disks)) == |disks| <==> forall d :: d in disks ==> d.Unlisted?
  {
    if disks != [] {
      var rest, d := disks[..|disks| - 1], disks[|disks| - 1];
      DisksFailures(rest);
      FailuresJoin(DisksEvents(rest), DiskEvents(d));
      if d.Listed? { NoFailures(DiskEvents(d)); }
        else { assert Failures([FailScan]) == 1 by { assert [FailScan][..0] == []; } }
      assert forall x :: x in disks <==> x == d || x in rest;
    }
  }

  lemma NodeFailures(n: Node)
    ensures Failures(NodeEvents(n)) <= NodeScans(n)
    ensures Failures(NodeEvents(n)) == NodeScans(n) <==> NodeFails(n)
  {
    if n.Reachable? {
      DisksFailures(n.disks);
    } else {
      assert NodeEvents(n)[..0] == [];
    }
  }

  /** The failures counted are all the scans exactly when every scan failed. */
  lemma {:induction false} AllFailed(nodes: seq<Node>)
    ensures TotalFailures(Queues(nodes)) <= Scans(nodes)
    ensures TotalFailures(Queues(nodes)) == Scans(nodes) <==> forall n :: n in nodes ==> NodeFails(n)
  {
    if nodes != [] {
      var rest, n := nodes[..|nodes| - 1], nodes[|nodes| - 1];
      AllFailed(rest);
      NodeFailures(n);
      assert Queues(nodes)[..|nodes| - 1] == Queues(rest) && Queues(nodes)[|nodes| - 1] == NodeEvents(n);
      assert TotalFailures(Queues(nodes)) == TotalFailures(Queues(rest)) + Failures(NodeEvents(n));
      assert forall x :: x in nodes <==> x == n || x in rest;
    }
  }

  lemma {:induction false} SomeScan(nodes: seq<Node>)
    ensures Scans(nodes) > 0 <==> exists n :: n in nodes && NodeScans(n) > 0
  {
    if nodes != [] {
      var rest, n := nodes[..|nodes| - 1], nodes[|nodes| - 1];
      SomeScan(rest);
      assert forall x :: x in nodes <==> x == n || x in rest;
    }
  }

  // ---- The listing ----

  /** The shared state of a gather, updated under its lock. */
  class Gather {
    var recs: Merged
    var failures: nat
    ghost var events: seq<Event>

    ghost predicate Valid()
      reads this
    {
      recs == Fold(events) && failures == Failures(events)
    }

    constructor ()
      ensures Valid() && events == []
    {
      recs, failures, events := map[], 0, [];
    }

    method Apply(ev: Event)
      requires Valid()
      modifies this
      ensures Valid() && events == old(events) + [ev]
    {
      match ev {
        case Arrive(e) =>
          if e.key !in recs || Supersedes(e.sc, recs[e.key]) { recs := recs[e.key := e.sc]; }
        case Garbled =>
        case FailScan => failures := failures + 1;
        case FailNode(disks) => failures := failures + disks;
      }
      events := events + [ev];
      assert events[..|events| - 1] == old(events);
    }
  }

  /** Strictly increasing by key. */
  ghost predicate KeySorted(out: seq<Entry>) {
    forall i, j :: 0 <= i < j < |out| ==> Lex.Less(out[i].key, out[j].key)
  }

  predicate KeyAtMost(a: Entry, b: Entry) {
    Lex.AtMost(a.key, b.key)
  }

  /** Exactly the merged records under the prefix. */
  ghost predicate PrefixExact(out: seq<Entry>, recs: Merged, prefix: string) {
    forall e :: e in out <==> e.key in recs && recs[e.key] == e.sc && prefix <= e.key
  }

  /** All of a bucket's objects under a prefix, in key order; none when every scan failed.
      `events` is the order in which the nodes' deliveries happen to arrive. */
  method ListObjects(nodes: seq<Node>, events: seq<Event>, prefix: string) returns (r: Option<seq<Entry>>)
    requires Interleaves(events, Queues(nodes))
    ensures r.None? <==> EveryScanFails(nodes)
    ensures r.Some? ==>
      KeySorted(r.value) && PrefixExact(r.value, Fold(events), prefix) && Merges(Fold(events), Queues(nodes))
  {
    var g := new Gather();
    for i := 0 to |events|
      invariant g.Valid() && g.events == events[..i] && fresh(g)
    {
      g.Apply(events[i]);
    }
    assert events[..|events|] == events;
    InterleavedFailures(events, Queues(nodes));
    InterleavedMerges(events, Queues(nodes));
    AllFailed(nodes);
    SomeScan(nodes);
    if Scans(nodes) > 0 && g.failures == Scans(nodes) { return None; }
    var out := Matching(g.recs, prefix);
    r := Some(Sorting.Sort(out, KeyAtMost));
    SortedListing(out, r.value, g.recs, prefix);
  }

  /** The matching records in whatever order the map yields them, each once. */
  method Matching(recs: Merged, prefix: string) returns (out: seq<Entry>)
    ensures PrefixExact(out, recs, prefix)
    ensures forall i, j :: 0 <= i < j < |out| ==> out[i].key != out[j].key
  {
    out := [];
    var keys := recs.Keys;
    while keys != {}
      invariant keys <= recs.Keys
      invariant forall e :: e in out <==> e.key in recs && e.key !in keys && recs[e.key] == e.sc && prefix <= e.key
      invariant forall i, j :: 0 <= i < j < |out| ==> out[i].key != out[j].key
    {
      var k :| k in keys;
      if prefix <= k {
        assert forall i :: 0 <= i < |out| ==> out[i] in out;
        out := out + [Entry(k, recs[k])];
      }
      keys := keys - {k};
    }
  }

  lemma KeyOrder()
    ensures Sorting.Preorder(KeyAtMost)
  {
    Lex.AtMostOrder();
  }

  lemma SortedListing(raw: seq<Entry>, out: seq<Entry>, recs: Merged, prefix: string)
    requires PrefixExact(raw, recs, prefix) && forall i, j :: 0 <= i < j < |raw| ==> raw[i].key != raw[j].key
    requires out == Sorting.Sort(raw, KeyAtMost)
    ensures PrefixExact(out, recs, prefix) && KeySorted(out)
  {
    KeyOrder();
    Sorting.SortSorts(raw, KeyAtMost);
    forall e
      ensures e in out <==> e in raw
    {
      Sorting.SameMembers(out, raw, e);
    }
    forall i, j | 0 <= i < j < |out|
      ensures Lex.Less(out[i].key, out[j].key)
    {
      Sorting.SortedAt(out, KeyAtMost, i, j);
      Sorting.Unrepeated(raw, out);
      assert out[i] in raw && out[j] in raw;
    }
  }
}
