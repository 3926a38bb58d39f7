/**
 The files of one object across the cluster, and the peer operations every protocol
 step is made of. A peer operation is atomic: it succeeds, or it fails and changes
 nothing, and which of the two is up to the environment.
 */
module Peers {
  import opened Records

  /** A physical target: a disk on a node. */
  datatype DiskRef = DiskRef(node: string, disk: string)

  /** Names inside the object's namespace: the sidecar, the fragments, anything else. */
  datatype Name = Meta | Frag(gen: string, index: nat) | Unknown(file: string)

  datatype Loc = Loc(at: DiskRef, name: Name)

  datatype Blob = Record(sc: Sidecar) | Data(payload: Payload) | Garbled

  type Store = map<Loc, Blob>

  /** The decodable record on a target, if any. */
  function RecordAt(files: Store, at: DiskRef): Option<Sidecar> {
    var l := Loc(at, Meta);
    if l in files && files[l].Record? then Some(files[l].sc) else None
  }

  /** Some disk stores the record. */
  ghost predicate IsRecord(files: Store, r: Sidecar) {
    exists at :: RecordAt(files, at) == Some(r)
  }

  /** Fragment layout of one plan: the target of fragment `i` is `layout[i]`. */
  type Layout = seq<DiskRef>

  predicate ValidLayout(layout: Layout, s: Scheme) {
    && |layout| == Copies(s)
    && forall i, j :: 0 <= i < j < |layout| ==> layout[i] != layout[j]
  }

  function Slot(layout: Layout, gen: string, i: nat): Loc
    requires i < |layout|
  {
    Loc(layout[i], Frag(gen, i))
  }

  /** A fragment file with the planned size, which is all that stat can tell. */
  predicate RightSize(files: Store, l: Loc, sc: Sidecar)
    requires ValidScheme(sc.scheme) && l.name.Frag?
  {
    && l in files
    && files[l].Data?
    && SizeOf(files[l].payload) == PlannedSize(sc.scheme, sc.size, l.name.index)
  }

  /** A fragment file holding exactly its piece of the object's content `c`. */
  predicate Intact(files: Store, l: Loc, sc: Sidecar, c: Bytes) {
    && l.name.Frag?
    && l in files
    && files[l] == Data(Piece(sc.scheme, c, l.name.index))
  }

  datatype Fetch<+T> = Failed | Absent | Found(value: T)

  /** One effective mutation, with the state it was applied to. */
  datatype Act =
    | Write(before: Store, loc: Loc, blob: Blob)
    | Erase(before: Store, loc: Loc)

  function After(a: Act): Store {
    match a
    case Write(before, loc, blob) => before[loc := blob]
    case Erase(before, loc) => before - {loc}
  }

  /** One look at a target, at its record or at its names: what the store was, whether the
      target answered, and how many mutations had been performed by then. */
  datatype Reading = Reading(at: DiskRef, files: Store, answered: bool, moment: nat)

  /** The record a reading returned, if any. */
  function Got(r: Reading): Option<Sidecar> {
    if r.answered then RecordAt(r.files, r.at) else None
  }

  /** Some reading from `from` on returned the record. */
  ghost predicate WasRead(looks: seq<Reading>, from: nat, sc: Sidecar) {
    exists k :: from <= k < |looks| && Got(looks[k]) == Some(sc)
  }

  lemma WasReadSince(looks: seq<Reading>, from: nat, earlier: nat, sc: Sidecar)
    requires WasRead(looks, from, sc) && earlier <= from
    ensures WasRead(looks, earlier, sc)
  {
    var k :| from <= k < |looks| && Got(looks[k]) == Some(sc);
  }

  /** Some reading of the target from `from` on got no answer. */
  ghost predicate Unanswered(looks: seq<Reading>, from: nat, at: DiskRef) {
    exists k :: from <= k < |looks| && looks[k].at == at && !looks[k].answered
  }

  /** A listing that named a fragment of the generation. */
  ghost predicate Shows(scan: Reading, g: string) {
    scan.answered && exists i :: Loc(scan.at, Frag(g, i)) in scan.files
  }

  /** The store after the first `n` mutations of a chain that began at `start`. */
  function StateAt(log: seq<Act>, start: Store, n: nat): Store
    requires n <= |log|
  {
    if n == 0 then start else After(log[n - 1])
  }

  /** Each mutation starts from where the one before it ended. */
  ghost predicate Linked(log: seq<Act>, start: Store, k: nat)
    requires k < |log|
  {
    log[k].before == StateAt(log, start, k)
  }

  /** One chain of states from the first to the current one. */
  ghost predicate Chain(log: seq<Act>, start: Store, files: Store) {
    (forall k :: 0 <= k < |log| ==> Linked(log, start, k)) && files == StateAt(log, start, |log|)
  }

  /** Every reading saw the state of its moment. */
  ghost predicate Truthful(log: seq<Act>, start: Store, looks: seq<Reading>) {
    forall k :: 0 <= k < |looks| ==> TrueReading(log, start, looks[k])
  }

  ghost predicate TrueReading(log: seq<Act>, start: Store, r: Reading) {
    r.moment <= |log| && r.files == StateAt(log, start, r.moment)
  }

  /** What every mutation of a stretch keeps holds after each of them. */
  lemma {:induction false} Along(log: seq<Act>, start: Store, files: Store, p: Store -> bool, from: nat, to: nat)
    requires Chain(log, start, files) && from <= to <= |log| && p(StateAt(log, start, from))
    requires forall k :: from <= k < to && p(log[k].before) ==> p(After(log[k]))
    ensures forall k :: from <= k < to ==> p(After(log[k]))
    ensures p(StateAt(log, start, to))
  {
    if from < to {
      Along(log, start, files, p, from, to - 1);
      assert Linked(log, start, to - 1);
    }
  }

  lemma ChainExtends(log: seq<Act>, start: Store, files: Store, a: Act, looks: seq<Reading>, scans: seq<Reading>)
    requires Chain(log, start, files) && a.before == files
    requires Truthful(log, start, looks) && Truthful(log, start, scans)
    ensures Chain(log + [a], start, After(a))
    ensures Truthful(log + [a], start, looks) && Truthful(log + [a], start, scans)
  {
    var more := log + [a];
    forall k | 0 <= k < |more|
      ensures Linked(more, start, k)
    {
      if k < |log| { assert Linked(log, start, k); }
    }
    TruthExtends(log, start, a, looks);
    TruthExtends(log, start, a, scans);
  }

  lemma TruthExtends(log: seq<Act>, start: Store, a: Act, looks: seq<Reading>)
    requires Truthful(log, start, looks)
    ensures Truthful(log + [a], start, looks)
  {
    forall k | 0 <= k < |looks|
      ensures TrueReading(log + [a], start, looks[k])
    {
      assert TrueReading(log, start, looks[k]);
    }
  }

  class Cluster {
    var files: Store
    /** Every mutation performed through this object, oldest first. */
    ghost var log: seq<Act>
    /** Every look at a record through this object, oldest first. */
    ghost var looks: seq<Reading>
    /** Every listing of a target's names through this object, oldest first. */
    ghost var scans: seq<Reading>
    ghost const start: Store
    /** Targets that answer every request. The others may fail any request. */
    const up: set<DiskRef>
    /** No other node changes the object's files. */
    const quiet: bool
    /** A payload that was opened is read to its end. */
    const complete: bool

    constructor (files: Store, up: set<DiskRef>, quiet: bool, complete: bool)
      ensures Valid() && log == [] && looks == [] && scans == []
      ensures this.files == files && this.up == up && this.quiet == quiet && this.complete == complete
    {
      this.files, this.up, this.quiet, this.complete := files, up, quiet, complete;
      start, log, looks, scans := files, [], [], [];
    }

    /** What the histories are worth: targets that always answer did answer every reading,
        and in a quiet cluster the log is one chain of states up to the current one and every
        reading and listing saw one of them. */
    ghost predicate Valid()
      reads this
    {
      && (forall k :: 0 <= k < |looks| && looks[k].at in up ==> looks[k].answered)
      && (quiet ==> Chain(log, start, files) && Truthful(log, start, looks) && Truthful(log, start, scans))
    }

    /** In a quiet cluster, what is not logged did not happen. */
    twostate predicate Still()
      reads this
    {
      quiet && log == old(log) ==> files == old(files)
    }

    /** Other nodes run: arbitrary changes, unless the cluster is quiet. */
    method Others()
      requires Valid()
      modifies this`files
      ensures Valid()
      ensures quiet ==> files == old(files)
    {
      if !quiet { files := *; }
    }

    method Answers(at: DiskRef) returns (ok: bool)
      ensures at in up ==> ok
    {
      ok := *;
      ok := ok || at in up;
    }

    method Put(loc: Loc, blob: Blob) returns (ok: bool)
      requires Valid()
      modifies this`files, this`log
      ensures Valid()
      ensures loc.at in up ==> ok
      ensures !ok ==> files == old(files) && log == old(log)
      ensures ok ==> files == old(files)[loc := blob] && log == old(log) + [Write(old(files), loc, blob)]
    {
      ok := Answers(loc.at);
      if ok {
        if quiet { ChainExtends(log, start, files, Write(files, loc, blob), looks, scans); }
        log := log + [Write(files, loc, blob)];
        files := files[loc := blob];
      }
    }

    method Get(loc: Loc) returns (r: Fetch<Blob>)
      ensures loc.at in up ==> !r.Failed?
      ensures r.Absent? ==> loc !in files
      ensures r.Found? ==> loc in files && r.value == files[loc]
    {
      var ok := Answers(loc.at);
      if !ok { return Failed; }
      r := if loc in files then Found(files[loc]) else Absent;
    }

    /** Reading an opened payload to its end. */
    method Drains() returns (ok: bool)
      ensures complete ==> ok
    {
      ok := *;
      ok := ok || complete;
    }

    /** Size of a fragment file. */
    method Stat(loc: Loc) returns (r: Fetch<nat>)
      ensures loc.at in up ==> !r.Failed?
      ensures r.Absent? ==> loc !in files || !files[loc].Data?
      ensures r.Found? ==> loc in files && files[loc].Data? && r.value == SizeOf(files[loc].payload)
    {
      var b := Get(loc);
      match b
      case Failed => r := Failed;
      case Absent => r := Absent;
      case Found(x) => r := if x.Data? then Found(SizeOf(x.payload)) else Absent;
    }

    method Delete(loc: Loc) returns (r: Fetch<()>)
      requires Valid()
      modifies this`files, this`log
      ensures Valid()
      ensures loc.at in up ==> !r.Failed?
      ensures r.Failed? ==> files == old(files) && log == old(log)
      ensures r.Absent? ==> files == old(files) && log == old(log) && loc !in files
      ensures r.Found? ==>
        loc in old(files) && files == old(files) - {loc} && log == old(log) + [Erase(old(files), loc)]
    {
      var ok := Answers(loc.at);
      if !ok { return Failed; }
      if loc !in files { return Absent; }
      if quiet { ChainExtends(log, start, files, Erase(files, loc), looks, scans); }
      log := log + [Erase(files, loc)];
      files := files - {loc};
      return Found(());
    }

    method List(at: DiskRef) returns (r: Fetch<set<Name>>)
      requires Valid()
      modifies this`scans
      ensures Valid()
      ensures scans == old(scans) + [Reading(at, files, !r.Failed?, |log|)]
      ensures at in up ==> !r.Failed?
      ensures r.Found? ==> r.value == set l | l in files && l.at == at :: l.name
      ensures !r.Absent?
    {
      var ok := Answers(at);
      scans := scans + [Reading(at, files, ok, |log|)];
      if !ok { return Failed; }
      r := Found(set l | l in files && l.at == at :: l.name);
    }

    /** The record replica on a target: absent when missing or undecodable. */
    method ReadRecord(at: DiskRef) returns (r: Fetch<Sidecar>)
      requires Valid()
      modifies this`looks
      ensures Valid()
      ensures looks == old(looks) + [Reading(at, files, !r.Failed?, |log|)]
      ensures at in up ==> !r.Failed?
      ensures r.Absent? ==> RecordAt(files, at) == None
      ensures r.Found? ==> RecordAt(files, at) == Some(r.value)
    {
      var b := Get(Loc(at, Meta));
      r := if b.Failed? then Failed else if b.Found? && b.value.Record? then Found(b.value.sc) else Absent;
      looks := looks + [Reading(at, files, !r.Failed?, |log|)];
    }
  }
}
