/**
 Cluster membership snapshots and the placement signature: a canonical text of everything
 placement depends on. The SHA-256 over that text is left out, it only shortens it.
 */
module Topologies {
  import Lex
  import Sorting
  import opened Text

  datatype Disk = Disk(id: string, weight: real, totalBytes: nat, freeBytes: nat)
  datatype Node = Node(id: string, addr: string, rack: string, disks: seq<Disk>)
  datatype Topology = Topology(epoch: nat, nodes: seq<Node>)

  /** The coarsest failure domain: the rack, or the node itself when unlabeled. */
  function FailureDomain(n: Node): string {
    if n.rack == "" then "\0node:" + n.id else n.rack
  }

  /** Shortest decimal form of a weight: a function of the weight, so a parameter. */
  type Format = real -> string

  /** On the weights in use, distinct weights have distinct texts and no text holds a separator. */
  ghost predicate GoodFormat(fmt: Format, ws: set<real>) {
    && (forall w, v :: w in ws && v in ws && fmt(w) == fmt(v) ==> w == v)
    && (forall w :: w in ws ==> Free(fmt(w), ',') && Free(fmt(w), '\n') && Free(fmt(w), '='))
  }

  function Strokes(n: nat): (s: string)
    ensures |s| == n && forall c :: c in s ==> c == '1'
  {
    if n == 0 then "" else Strokes(n - 1) + "1"
  }

  /** Tally marks, numbering the given weights. */
  lemma {:induction false} TallyFormat(ws: set<real>) returns (fmt: Format)
    ensures GoodFormat(fmt, ws) && forall w :: w in ws ==> |fmt(w)| < |ws|
    decreases |ws|
  {
    if x :| x in ws {
      var most := TallyFormat(ws - {x});
      var last := Strokes(|ws| - 1);
      fmt := w => if w == x then last else most(w);
    } else {
      fmt := w => "";
    }
  }

  function DiskEntry(d: Disk, fmt: Format): string {
    d.id + "=" + fmt(d.weight)
  }

  function EntryOf(fmt: Format): Disk -> string {
    (d: Disk) => DiskEntry(d, fmt)
  }

  function Entries(n: Node, fmt: Format): seq<string> {
    Sorting.Sort(Map(EntryOf(fmt), n.disks), Lex.AtMost)
  }

  function Line(n: Node, fmt: Format): string {
    n.id + ['\0'] + (n.rack + ['\0'] + Join(Entries(n, fmt), ','))
  }

  function LineOf(fmt: Format): Node -> string {
    (n: Node) => Line(n, fmt)
  }

  function Lines(t: Topology, fmt: Format): seq<string> {
    Sorting.Sort(Map(LineOf(fmt), t.nodes), Lex.AtMost)
  }

  function SignatureText(t: Topology, fmt: Format): string {
    Join(Lines(t, fmt), '\n')
  }

  method NodeLine(n: Node, fmt: Format) returns (line: string)
    ensures line == Line(n, fmt)
  {
    var disks := [];
    for j := 0 to |n.disks|
      invariant disks == Map(EntryOf(fmt), n.disks)[..j]
    {
      disks := disks + [n.disks[j].id + "=" + fmt(n.disks[j].weight)];
    }
    assert disks == Map(EntryOf(fmt), n.disks);
    line := n.id + ['\0'] + (n.rack + ['\0'] + Join(Sorting.Sort(disks, Lex.AtMost), ','));
  }

  ghost predicate AreLines(lines: seq<string>, nodes: seq<Node>, fmt: Format)
    requires |lines| <= |nodes|
  {
    forall k :: 0 <= k < |lines| ==> lines[k] == Line(nodes[k], fmt)
  }

  lemma LinesMapped(lines: seq<string>, nodes: seq<Node>, fmt: Format)
    requires |lines| == |nodes| && AreLines(lines, nodes, fmt)
    ensures lines == Map(LineOf(fmt), nodes)
  {
    var all := Map(LineOf(fmt), nodes);
    forall k | 0 <= k < |nodes|
      ensures lines[k] == all[k]
    {
      assert all[k] == LineOf(fmt)(nodes[k]);
    }
  }

  method AllLines(nodes: seq<Node>, fmt: Format) returns (lines: seq<string>)
    ensures lines == Map(LineOf(fmt), nodes)
  {
    lines := [];
    for i := 0 to |nodes|
      invariant |lines| == i && AreLines(lines, nodes, fmt)
    {
      var line := NodeLine(nodes[i], fmt);
      lines := lines + [line];
    }
    LinesMapped(lines, nodes, fmt);
  }

  /** The signature as the program builds it: entries and lines collected in turn, then sorted. */
  method Signature(t: Topology, fmt: Format) returns (text: string)
    ensures text == SignatureText(t, fmt)
  {
    var lines := AllLines(t.nodes, fmt);
    text := Join(Sorting.Sort(lines, Lex.AtMost), '\n');
  }

  /** What placement can see of a disk and of a node. */
  function DiskKey(d: Disk): (string, real) {
    (d.id, d.weight)
  }

  ghost function NodeKey(n: Node): (string, string, multiset<(string, real)>) {
    (n.id, n.rack, multiset(Map(DiskKey, n.disks)))
  }

  /** Names stay clear of the separators that could confuse them. */
  ghost predicate Plain(n: Node) {
    && Free(n.id, '\0') && Free(n.id, '\n')
    && Free(n.rack, '\0') && Free(n.rack, '\n')
    && forall d :: d in n.disks ==> Free(d.id, ',') && Free(d.id, '\n')
  }

  ghost predicate PlainTopology(t: Topology) {
    forall n :: n in t.nodes ==> Plain(n)
  }

  /** Every disk weight is among the given ones. */
  ghost predicate NodeWeighs(n: Node, ws: set<real>) {
    forall d :: d in n.disks ==> d.weight in ws
  }

  ghost predicate Weighs(t: Topology, ws: set<real>) {
    forall n :: n in t.nodes ==> NodeWeighs(n, ws)
  }

  /** Whatever topologies there are, some format is good for all their weights. */
  lemma FormatExists(topos: set<Topology>)
    ensures exists fmt, ws :: GoodFormat(fmt, ws) && forall t :: t in topos ==> Weighs(t, ws)
  {
    var ws := set t, n, d | t in topos && n in t.nodes && d in n.disks :: d.weight;
    var fmt := TallyFormat(ws);
    assert GoodFormat(fmt, ws) && forall t :: t in topos ==> Weighs(t, ws);
  }

  /** Two topologies agree up to the order of nodes and disks on what placement can see. */
  ghost predicate SameMembership(a: Topology, b: Topology) {
    multiset(Map(NodeKey, a.nodes)) == multiset(Map(NodeKey, b.nodes))
  }

  lemma EntryInjective(d: Disk, e: Disk, fmt: Format, ws: set<real>)
    requires GoodFormat(fmt, ws) && d.weight in ws && e.weight in ws
    ensures DiskEntry(d, fmt) == DiskEntry(e, fmt) <==> DiskKey(d) == DiskKey(e)
  {
    if DiskEntry(d, fmt) == DiskEntry(e, fmt) {
      assert d.id + ['='] + fmt(d.weight) == e.id + ['='] + fmt(e.weight);
      CutLast(d.id, fmt(d.weight), e.id, fmt(e.weight), '=');
    }
  }

  /** The entries of two disk lists agree as multisets exactly when their keys do. */
  lemma EntriesKeys(a: seq<Disk>, b: seq<Disk>, fmt: Format, ws: set<real>)
    requires GoodFormat(fmt, ws) && forall d :: d in a || d in b ==> d.weight in ws
    ensures multiset(Map(EntryOf(fmt), a)) == multiset(Map(EntryOf(fmt), b))
        <==> multiset(Map(DiskKey, a)) == multiset(Map(DiskKey, b))
  {
    var entry := EntryOf(fmt);
    forall x, y | x in a && y in b
      ensures entry(x) == entry(y) <==> DiskKey(x) == DiskKey(y)
    {
      EntryInjective(x, y, fmt, ws);
    }
    if multiset(Map(entry, a)) == multiset(Map(entry, b)) { MultisetByKey(entry, DiskKey, a, b); }
    if multiset(Map(DiskKey, a)) == multiset(Map(DiskKey, b)) { MultisetByKey(DiskKey, entry, a, b); }
  }

  lemma EntriesJoinable(n: Node, fmt: Format, ws: set<real>)
    requires GoodFormat(fmt, ws) && Plain(n) && NodeWeighs(n, ws)
    ensures Joinable(Entries(n, fmt), ',')
    ensures Free(Join(Entries(n, fmt), ','), '\n')
  {
    var raw := Map(EntryOf(fmt), n.disks);
    forall i | 0 <= i < |Entries(n, fmt)|
      ensures Entries(n, fmt)[i] != "" && Free(Entries(n, fmt)[i], ',') && Free(Entries(n, fmt)[i], '\n')
    {
      Sorting.SameMembers(Entries(n, fmt), raw, Entries(n, fmt)[i]);
      var k :| 0 <= k < |raw| && raw[k] == Entries(n, fmt)[i];
      assert n.disks[k] in n.disks;
    }
    JoinFree(Entries(n, fmt), ',', '\n');
  }

  /** A node's line tells exactly its key. */
  lemma LineInjective(n: Node, m: Node, fmt: Format, ws: set<real>)
    requires GoodFormat(fmt, ws) && Plain(n) && Plain(m) && NodeWeighs(n, ws) && NodeWeighs(m, ws)
    ensures Line(n, fmt) == Line(m, fmt) <==> NodeKey(n) == NodeKey(m)
  {
    var entry := EntryOf(fmt);
    EntriesKeys(n.disks, m.disks, fmt, ws);
    Lex.AtMostOrder();
    Sorting.SortCanonical(Map(entry, n.disks), Map(entry, m.disks), Lex.AtMost);
    if Line(n, fmt) == Line(m, fmt) {
      var dn, dm := Join(Entries(n, fmt), ','), Join(Entries(m, fmt), ',');
      CutFirst(n.id, n.rack + ['\0'] + dn, m.id, m.rack + ['\0'] + dm, '\0');
      CutFirst(n.rack, dn, m.rack, dm, '\0');
      EntriesJoinable(n, fmt, ws);
      EntriesJoinable(m, fmt, ws);
      JoinInjective(Entries(n, fmt), Entries(m, fmt), ',');
    }
  }

  lemma LineFree(n: Node, fmt: Format, ws: set<real>)
    requires GoodFormat(fmt, ws) && Plain(n) && NodeWeighs(n, ws)
    ensures Line(n, fmt) != "" && Free(Line(n, fmt), '\n')
  {
    EntriesJoinable(n, fmt, ws);
  }

  lemma LinesJoinable(t: Topology, fmt: Format, ws: set<real>)
    requires GoodFormat(fmt, ws) && PlainTopology(t) && Weighs(t, ws)
    ensures Joinable(Lines(t, fmt), '\n')
  {
    var raw, lines := Map(LineOf(fmt), t.nodes), Lines(t, fmt);
    forall i | 0 <= i < |lines|
      ensures lines[i] != "" && Free(lines[i], '\n')
    {
      Sorting.SameMembers(lines, raw, lines[i]);
      var k :| 0 <= k < |raw| && raw[k] == lines[i];
      assert t.nodes[k] in t.nodes;
      LineFree(t.nodes[k], fmt, ws);
    }
  }

  /** The signature is a canonical form: equal exactly for equal membership, whatever the
      epochs, addresses, capacities and the order of registration. */
  lemma SignatureCanonical(a: Topology, b: Topology, fmt: Format, ws: set<real>)
    requires GoodFormat(fmt, ws) && Weighs(a, ws) && Weighs(b, ws) && PlainTopology(a) && PlainTopology(b)
    ensures SignatureText(a, fmt) == SignatureText(b, fmt) <==> SameMembership(a, b)
  {
    var line := LineOf(fmt);
    var la, lb := Map(line, a.nodes), Map(line, b.nodes);
    forall n, m | n in a.nodes && m in b.nodes
      ensures line(n) == line(m) <==> NodeKey(n) == NodeKey(m)
    {
      LineInjective(n, m, fmt, ws);
    }
    if multiset(la) == multiset(lb) { MultisetByKey(line, NodeKey, a.nodes, b.nodes); }
    if SameMembership(a, b) { MultisetByKey(NodeKey, line, a.nodes, b.nodes); }
    Lex.AtMostOrder();
    Sorting.SortCanonical(la, lb, Lex.AtMost);
    if SignatureText(a, fmt) == SignatureText(b, fmt) {
      LinesJoinable(a, fmt, ws);
      LinesJoinable(b, fmt, ws);
      JoinInjective(Lines(a, fmt), Lines(b, fmt), '\n');
    }
  }

  lemma OneEntry(n: Node, fmt: Format)
    requires |n.disks| == 1
    ensures Entries(n, fmt) == [DiskEntry(n.disks[0], fmt)]
  {
    var e := DiskEntry(n.disks[0], fmt);
    assert Map(EntryOf(fmt), n.disks) == [e];
    assert [e][1..] == [];
  }

  lemma TwoEntries(n: Node, fmt: Format)
    requires |n.disks| == 2 && Lex.Less(DiskEntry(n.disks[0], fmt), DiskEntry(n.disks[1], fmt))
    ensures Entries(n, fmt) == [DiskEntry(n.disks[0], fmt), DiskEntry(n.disks[1], fmt)]
  {
    var e, f := DiskEntry(n.disks[0], fmt), DiskEntry(n.disks[1], fmt);
    assert Map(EntryOf(fmt), n.disks) == [e, f];
    assert [e, f][1..] == [f] && [f][1..] == [];
    assert Sorting.Sort([f], Lex.AtMost) == Sorting.Insert(f, [], Lex.AtMost) == [f];
    assert Sorting.Insert(e, [f], Lex.AtMost) == [e] + [f];
  }

  lemma OneLine(t: Topology, fmt: Format)
    requires |t.nodes| == 1
    ensures SignatureText(t, fmt) == Line(t.nodes[0], fmt)
  {
    var l := Line(t.nodes[0], fmt);
    assert LineOf(fmt)(t.nodes[0]) == l;
    assert Map(LineOf(fmt), t.nodes) == [l];
    assert [l][1..] == [];
  }

  /** Two disks, and one disk whose ID spells a comma between them. */
  function Pair(w: real): Node {
    Node("n", "", "", [Disk("a", w, 0, 0), Disk("b", w, 0, 0)])
  }

  function Posing(w: real, fmt: Format): Node {
    Node("n", "", "", [Disk("a=" + fmt(w) + ",b", w, 0, 0)])
  }

  lemma JoinTwo(x: string, y: string, sep: char)
    ensures Join([x, y], sep) == x + [sep] + y
  {
    assert [x, y][1..] == [y];
  }

  lemma SameLine(fmt: Format, w: real)
    ensures Line(Pair(w), fmt) == Line(Posing(w, fmt), fmt)
  {
    var x, y := Pair(w), Posing(w, fmt);
    var ea, eb := DiskEntry(x.disks[0], fmt), DiskEntry(x.disks[1], fmt);
    assert ea[0] == 'a' && eb[0] == 'b';
    TwoEntries(x, fmt);
    OneEntry(y, fmt);
    JoinTwo(ea, eb, ',');
    assert DiskEntry(y.disks[0], fmt) == ea + [','] + eb;
  }

  /** Without that care about names the signature confuses memberships: a disk ID with a
      comma can pose as two disks. */
  lemma CommaConfuses(fmt: Format, w: real)
    ensures var a, b := Topology(1, [Pair(w)]), Topology(1, [Posing(w, fmt)]);
      SignatureText(a, fmt) == SignatureText(b, fmt) && !SameMembership(a, b)
  {
    var a, b := Topology(1, [Pair(w)]), Topology(1, [Posing(w, fmt)]);
    SameLine(fmt, w);
    OneLine(a, fmt);
    OneLine(b, fmt);
    var ka, kb := NodeKey(Pair(w)), NodeKey(Posing(w, fmt));
    assert |ka.2| == 2 && |kb.2| == 1;
    assert Map(NodeKey, a.nodes) == [ka] && Map(NodeKey, b.nodes) == [kb];
    assert ka in multiset([ka]) && ka !in multiset([kb]);
  }
}
