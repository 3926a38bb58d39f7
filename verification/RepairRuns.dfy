/**
 Whole repair runs: reading the authoritative record, the retry loop that restarts a pass
 when a newer record turns up, and the conversion at the end of a healthy pass.
 */
module RepairRuns {
  import opened Records
  import opened Peers
  import opened Repair
  import Convert
  import Reads
  import Sets
  import Writes

  // ---- Pass safety in terms of the whole object ----

  /** Losing no openable fragment means the object stays readable. */
  lemma KeepsEnough(base: Store, files: Store, j: Job, c: Bytes)
    requires ValidJob(j) && Keeps(base, files, j, c) && Enough(base, j, c)
    ensures Enough(files, j, c)
  {
    if j.sc.scheme.EC? {
      Sets.Subset(HeldSet(base, j, c), HeldSet(files, j, c));
    } else {
      var i: nat :| i < FullReplicas(j.sc.scheme) && Held(base, j, c, i);
      assert Held(files, j, c, i);
    }
  }

  /** So an object readable before a pass is readable after every step of it. */
  lemma ReadableThroughout(log: seq<Act>, from: nat, base: Store, j: Job, c: Bytes)
    requires ValidJob(j) && AllKeep(log, from, base, j, c) && Enough(base, j, c)
    ensures forall k :: from <= k < |log| ==> Enough(After(log[k]), j, c)
  {
    forall k | from <= k < |log|
      ensures Enough(After(log[k]), j, c)
    {
      KeepsEnough(base, After(log[k]), j, c);
    }
  }

  /** Deleting an intact home fragment, as the verification does when its stream breaks,
      costs nothing exactly when another remembered layout's target still has it. */
  lemma EraseKeepsIff(files: Store, j: Job, c: Bytes, i: nat)
    requires ValidJob(j) && i < Copies(j.sc.scheme) && Intact(files, Slot(j.Plan(), j.sc.gen, i), j.sc, c)
    ensures Keeps(files, files - {Slot(j.Plan(), j.sc.gen, i)}, j, c)
      <==> exists p ::
        0 <= p < |j.plans| && j.plans[p][i] != j.Plan()[i] && Intact(files, Slot(j.plans[p], j.sc.gen, i), j.sc, c)
  {
    var l := Slot(j.Plan(), j.sc.gen, i);
    var now := files - {l};
    assert Held(files, j, c, i) by { assert Intact(files, Slot(j.plans[0], j.sc.gen, i), j.sc, c); }
    forall n: nat | n < Copies(j.sc.scheme) && n != i && Held(files, j, c, n)
      ensures Held(now, j, c, n)
    {
      var p :| 0 <= p < |j.plans| && Intact(files, Slot(j.plans[p], j.sc.gen, n), j.sc, c);
      assert Intact(now, Slot(j.plans[p], j.sc.gen, n), j.sc, c);
    }
    forall p | 0 <= p < |j.plans|
      ensures Intact(now, Slot(j.plans[p], j.sc.gen, i), j.sc, c)
        <==> j.plans[p][i] != j.Plan()[i] && Intact(files, Slot(j.plans[p], j.sc.gen, i), j.sc, c)
    {
    }
  }

  // ---- The authoritative record ----

  ghost predicate Newest(best: Sidecar, seen: set<Sidecar>) {
    best in seen && forall s :: s in seen ==> Dominates(best, s)
  }

  ghost function Gens(seen: set<Sidecar>): set<string> {
    set s | s in seen :: s.gen
  }

  lemma NewestStep(best: Option<Sidecar>, seen: set<Sidecar>, x: Sidecar)
    requires best.None? ==> seen == {}
    requires best.Some? ==> Newest(best.value, seen)
    ensures Newest(if best.None? || Supersedes(x, best.value) then x else best.value, seen + {x})
  {
    var next := if best.None? || Supersedes(x, best.value) then x else best.value;
    SupersedesTotal(x, x);
    forall s | s in seen + {x}
      ensures Dominates(next, s)
    {
      if s in seen && Supersedes(x, best.value) {
        SupersedesDominated(x, best.value, s);
        SupersedesTotal(x, s);
      }
    }
  }

  /** The records that readings from `from` on returned. */
  ghost function Returned(looks: seq<Reading>, from: nat): set<Sidecar> {
    set k | from <= k < |looks| && Got(looks[k]).Some? :: Got(looks[k]).value
  }

  ghost function Hinted(hint: Option<Sidecar>): set<Sidecar> {
    if hint.Some? then {hint.value} else {}
  }

  /** The readings from `from` on are one of each of the first `n` candidates, in order. */
  ghost predicate ReadEach(looks: seq<Reading>, from: nat, cands: seq<DiskRef>, n: nat) {
    |looks| == from + n && n <= |cands| && forall i :: 0 <= i < n ==> looks[from + i].at == cands[i]
  }

  ghost predicate AllAnswered(looks: seq<Reading>, from: nat) {
    forall k :: from <= k < |looks| ==> looks[k].answered
  }

  lemma ReturnedMore(looks: seq<Reading>, from: nat, r: Reading)
    requires from <= |looks|
    ensures Returned(looks + [r], from) == Returned(looks, from) + Hinted(Got(r))
    ensures AllAnswered(looks + [r], from) <==> AllAnswered(looks, from) && r.answered
  {
    var more := looks + [r];
    assert more[|looks|] == r && forall k :: from <= k < |looks| ==> more[k] == looks[k];
    forall s | s in Returned(looks, from)
      ensures s in Returned(more, from)
    {
      var k :| from <= k < |looks| && Got(looks[k]) == Some(s);
      assert Got(more[k]) == Some(s);
    }
    if Got(r).Some? { assert Got(more[|looks|]) == Some(Got(r).value); }
  }

  /** The newest record so far, the generations of all, and whether a reading failed. */
  datatype Tally = Tally(best: Option<Sidecar>, known: set<string>, failed: bool)

  ghost predicate Tallied(t: Tally, hint: Option<Sidecar>, looks: seq<Reading>, from: nat) {
    var seen := Hinted(hint) + Returned(looks, from);
    && (t.best.None? <==> seen == {})
    && (t.best.Some? ==> Newest(t.best.value, seen))
    && t.known == Gens(seen)
    && (t.failed <==> !AllAnswered(looks, from))
  }

  ghost function Counted(t: Tally, r: Reading): Tally {
    var x := Got(r);
    Tally(if x.Some? && (t.best.None? || Supersedes(x.value, t.best.value)) then x else t.best,
          t.known + (if x.Some? then {x.value.gen} else {}), t.failed || !r.answered)
  }

  lemma TallyStep(t: Tally, hint: Option<Sidecar>, looks: seq<Reading>, from: nat, r: Reading)
    requires from <= |looks| && Tallied(t, hint, looks, from)
    ensures Tallied(Counted(t, r), hint, looks + [r], from)
  {
    ReturnedMore(looks, from, r);
    var seen := Hinted(hint) + Returned(looks, from);
    assert Hinted(hint) + Returned(looks + [r], from) == seen + Hinted(Got(r));
    if Got(r).Some? {
      NewestStep(t.best, seen, Got(r).value);
    } else {
      assert seen + Hinted(Got(r)) == seen;
    }
  }

  ghost predicate SameFiles(looks: seq<Reading>, from: nat, files: Store) {
    forall k :: from <= k < |looks| ==> looks[k].files == files
  }

  /** What one reading of each candidate says of a store nobody changes. */
  lemma ReadEachStill(files: Store, up: set<DiskRef>, looks: seq<Reading>, from: nat, cands: seq<DiskRef>,
                      hint: Option<Sidecar>, seen: set<Sidecar>)
    requires ReadEach(looks, from, cands, |cands|) && seen == Hinted(hint) + Returned(looks, from)
    requires SameFiles(looks, from, files) && forall k :: from <= k < |looks| && looks[k].at in up ==> looks[k].answered
    ensures forall s :: s in seen ==> hint == Some(s) || exists at :: at in cands && RecordAt(files, at) == Some(s)
    ensures forall at :: at in cands && at in up && RecordAt(files, at).Some? ==> RecordAt(files, at).value in seen
    ensures seen == {} && AllAnswered(looks, from) ==>
      hint.None? && forall at :: at in cands ==> RecordAt(files, at).None?
  {
    forall s | s in seen && hint != Some(s)
      ensures exists at :: at in cands && RecordAt(files, at) == Some(s)
    {
      var k :| from <= k < |looks| && Got(looks[k]).Some? && Got(looks[k]).value == s;
      assert looks[from + (k - from)].at == cands[k - from];
    }
    forall at | at in cands && RecordAt(files, at).Some?
      ensures at in up || AllAnswered(looks, from) ==> RecordAt(files, at).value in seen
    {
      var i :| 0 <= i < |cands| && cands[i] == at;
      assert looks[from + i].at == at;
      if looks[from + i].answered { assert Got(looks[from + i]) == RecordAt(files, at); }
    }
  }

  /** Read every record replica on the candidates, plus the hint: the newest of them, and the
      generations positively attributed to a committed record. */
  method AuthoritativeSidecar(cl: Cluster, cands: seq<DiskRef>, hint: Option<Sidecar>)
    returns (r: Reads.Answer<Sidecar>, known: set<string>, ghost seen: set<Sidecar>)
    requires cl.Valid()
    modifies cl`files, cl`looks
    ensures cl.Valid() && cl.Still() && old(cl.looks) <= cl.looks
    ensures ReadEach(cl.looks, |old(cl.looks)|, cands, |cands|)
    ensures seen == Hinted(hint) + Returned(cl.looks, |old(cl.looks)|) && known == Gens(seen)
    ensures r.Ok? <==> seen != {}
    ensures r.Ok? ==> Newest(r.value, seen)
    ensures r.NotFound? ==> AllAnswered(cl.looks, |old(cl.looks)|)
    ensures r.Fault? ==> !AllAnswered(cl.looks, |old(cl.looks)|)
    ensures cl.quiet ==>
      forall s :: s in seen ==> hint == Some(s) || exists at :: at in cands && RecordAt(cl.files, at) == Some(s)
    ensures cl.quiet ==>
      forall at :: at in cands && at in cl.up && RecordAt(cl.files, at).Some? ==>
        r.Ok? && RecordAt(cl.files, at).value in seen
    ensures cl.quiet && r.NotFound? ==> hint.None? && forall at :: at in cands ==> RecordAt(cl.files, at).None?
  {
    var t := Tally(hint, if hint.Some? then {hint.value.gen} else {}, false);
    if hint.Some? { SupersedesTotal(hint.value, hint.value); }
    ghost var from := |cl.looks|;
    for i := 0 to |cands|
      invariant cl.Valid() && cl.Still() && old(cl.looks) <= cl.looks
      invariant ReadEach(cl.looks, from, cands, i)
      invariant Tallied(t, hint, cl.looks, from)
      invariant cl.quiet ==> SameFiles(cl.looks, from, cl.files)
    {
      cl.Others();
      ghost var looks := cl.looks;
      var b := cl.ReadRecord(cands[i]);
      TallyStep(t, hint, looks, from, cl.looks[|looks|]);
      if b.Failed? { t := t.(failed := true); }
      if b.Found? {
        t := t.(known := t.known + {b.value.gen});
        if t.best.None? || Supersedes(b.value, t.best.value) { t := t.(best := Some(b.value)); }
      }
    }
    seen, known := Hinted(hint) + Returned(cl.looks, from), t.known;
    if cl.quiet { ReadEachStill(cl.files, cl.up, cl.looks, from, cands, hint, seen); }
    r := if t.best.Some? then Reads.Ok(t.best.value) else if t.failed then Reads.Fault else Reads.NotFound;
  }

  // ---- What a run may do ----

  /** The records a run has seen by the pass of the last of these jobs. */
  ghost function Seen(first: set<Sidecar>, jobs: seq<Job>): set<Sidecar> {
    first + set j | j in jobs :: j.sc
  }

  /** Every record a run goes by is the hint or was read in the run. */
  ghost predicate Attributed(first: set<Sidecar>, jobs: seq<Job>, hint: Option<Sidecar>, looks: seq<Reading>,
                             from: nat) {
    forall s :: s in Seen(first, jobs) ==> hint == Some(s) || WasRead(looks, from, s)
  }

  /** The record of every pass is the newest the run had seen by then. */
  ghost predicate Tops(first: set<Sidecar>, jobs: seq<Job>) {
    forall p :: 0 <= p < |jobs| ==> Newest(jobs[p].sc, Seen(first, jobs[..p + 1]))
  }

  /** Each restart's record supersedes all before it. */
  ghost predicate Rising(jobs: seq<Job>) {
    forall p, q :: 0 <= p < q < |jobs| ==> Supersedes(jobs[q].sc, jobs[p].sc)
  }

  ghost predicate ValidJobs(jobs: seq<Job>) {
    forall p :: 0 <= p < |jobs| ==> ValidJob(jobs[p])
  }

  /** A mutation of a run whose authoritative record is the job's: a benign one, or a sweep
      of a misplaced authoritative copy, of a generation whose committed record the
      authoritative one supersedes, or of a stray sighted at least a grace ago. */
  ghost predicate Rightful(a: Act, j: Job, seen: set<Sidecar>, e: Evidence, broken: bool)
    requires ValidJob(j)
  {
    || Benign(a, j, broken)
    || (&& a.Erase?
        && !IsSlot(j, a.loc)
        && match a.loc.name
           case Meta => a.loc.at !in j.Plan() &&
             (NotNewer(a.before, a.loc.at, j.sc) || Unanswered(e.looks, e.from, a.loc.at))
           case Unknown(_) => true
           case Frag(g, _) =>
             || g == j.sc.gen
             || (exists s :: s in seen && s.gen == g && Supersedes(j.sc, s))
             || Judged(e.a, e.b, e.grace, g))
  }

  ghost predicate SomeRightful(a: Act, jobs: seq<Job>, first: set<Sidecar>, e: Evidence, broken: bool)
    requires ValidJobs(jobs)
  {
    exists p :: 0 <= p < |jobs| && Rightful(a, jobs[p], Seen(first, jobs[..p + 1]), e, broken)
  }

  /** Every mutation was rightful for one of the passes, by what the run had seen by then. */
  ghost predicate AllRightful(log: seq<Act>, from: nat, to: nat, jobs: seq<Job>, first: set<Sidecar>, e: Evidence,
                              broken: bool)
    requires ValidJobs(jobs) && to <= |log|
  {
    forall k :: from <= k < to ==> SomeRightful(log[k], jobs, first, e, broken)
  }

  /** No record naming the generation was on a target when the run looked there. */
  ghost predicate Unnamed(looks: seq<Reading>, from: nat, g: string) {
    forall k :: from <= k < |looks| && RecordAt(looks[k].files, looks[k].at).Some? ==>
      RecordAt(looks[k].files, looks[k].at).value.gen != g
  }

  lemma SeenUnnamed(first: set<Sidecar>, jobs: seq<Job>, hint: Option<Sidecar>, e: Evidence, g: string)
    requires Attributed(first, jobs, hint, e.looks, e.from) && Unnamed(e.looks, e.from, g)
    requires (hint.Some? ==> hint.value.gen != g)
    ensures forall s :: s in Seen(first, jobs) ==> s.gen != g
  {
    forall s | s in Seen(first, jobs)
      ensures s.gen != g
    {
      if hint != Some(s) {
        var n :| e.from <= n < |e.looks| && Got(e.looks[n]) == Some(s);
        assert RecordAt(e.looks[n].files, e.looks[n].at) == Some(s);
      }
    }
  }

  lemma RightfulSpares(a: Act, j: Job, seen: set<Sidecar>, e: Evidence, broken: bool, g: string)
    requires ValidJob(j) && Rightful(a, j, seen, e, broken) && j.sc.gen != g && forall s :: s in seen ==> s.gen != g
    requires e.a.clock + e.grace > e.b.clock && (g in e.a.strays ==> e.a.strays[g] + e.grace > e.b.clock)
    ensures !(a.loc.name.Frag? && a.loc.name.gen == g)
  {
    if Judged(e.a, e.b, e.grace, g) {
      assert false;
    }
  }

  lemma SeenPrefix(first: set<Sidecar>, jobs: seq<Job>, n: nat)
    requires n <= |jobs|
    ensures Seen(first, jobs[..n]) <= Seen(first, jobs)
  {
    assert forall j :: j in jobs[..n] ==> j in jobs;
  }

  /** Attribution by generation is attribution by record: a known generation other than the
      authoritative one belongs to a superseded record. */
  lemma LegitRightful(a: Act, j: Job, known: set<string>, seen: set<Sidecar>, e: Evidence, broken: bool)
    requires ValidJob(j) && Newest(j.sc, seen) && known <= Gens(seen)
    requires Benign(a, j, broken) || Swept(a, j, known, e)
    ensures Rightful(a, j, seen, e, broken)
  {
    if !Benign(a, j, broken) && a.loc.name.Frag? && a.loc.name.gen in known && a.loc.name.gen != j.sc.gen {
      var s :| s in seen && s.gen == a.loc.name.gen;
      SupersedesTotal(j.sc, s);
    }
  }

  lemma RightfulWider(a: Act, j: Job, seen: set<Sidecar>, e: Evidence, f: Evidence, broken: bool)
    requires ValidJob(j) && Rightful(a, j, seen, e, broken) && Within(e, f)
    ensures Rightful(a, j, seen, f, broken)
  {
    if !Benign(a, j, broken) {
      if a.loc.name.Meta? && Unanswered(e.looks, e.from, a.loc.at) {
        var k :| e.from <= k < |e.looks| && e.looks[k].at == a.loc.at && !e.looks[k].answered;
        assert f.looks[k] == e.looks[k];
      }
      if a.loc.name.Frag? && Judged(e.a, e.b, e.grace, a.loc.name.gen) {
        JudgedWider(f.a, e.a, e.b, f.b, e.grace, a.loc.name.gen);
      }
    }
  }

  lemma RisingStep(jobs: seq<Job>, j: Job)
    requires Rising(jobs) && (jobs != [] ==> Supersedes(j.sc, jobs[|jobs| - 1].sc))
    ensures Rising(jobs + [j])
  {
    forall p | 0 <= p < |jobs|
      ensures Supersedes(j.sc, jobs[p].sc)
    {
      if p < |jobs| - 1 { SupersedesTransitive(j.sc, jobs[|jobs| - 1].sc, jobs[p].sc); }
    }
  }

  lemma SeenStep(first: set<Sidecar>, jobs: seq<Job>, j: Job)
    ensures Seen(first, jobs + [j]) == Seen(first, jobs) + {j.sc}
    ensures Gens(Seen(first, jobs + [j])) == Gens(Seen(first, jobs)) + {j.sc.gen}
  {
    assert forall x :: x in jobs + [j] <==> x in jobs || x == j;
    assert (jobs + [j])[|jobs|] == j;
    forall s | s in Seen(first, jobs) + {j.sc}
      ensures s in Seen(first, jobs + [j])
    {
      if s !in first && s != j.sc {
        var x :| x in jobs && x.sc == s;
        assert x in jobs + [j];
      } else if s == j.sc {
        assert j in jobs + [j];
      }
    }
  }

  lemma TopsStep(first: set<Sidecar>, jobs: seq<Job>, j: Job)
    requires Tops(first, jobs) && Newest(j.sc, Seen(first, jobs) + {j.sc})
    ensures Tops(first, jobs + [j])
  {
    SeenStep(first, jobs, j);
    forall p | 0 <= p < |jobs + [j]|
      ensures Newest((jobs + [j])[p].sc, Seen(first, (jobs + [j])[..p + 1]))
    {
      if p < |jobs| {
        assert (jobs + [j])[..p + 1] == jobs[..p + 1];
      } else {
        assert (jobs + [j])[..p + 1] == jobs + [j];
      }
    }
  }

  /** Earlier mutations stay rightful when a pass is added and more is known. */
  lemma RightfulGrows(log: seq<Act>, from: nat, to: nat, jobs: seq<Job>, j: Job, first: set<Sidecar>, e: Evidence,
                      f: Evidence, broken: bool, more: seq<Act>)
    requires ValidJobs(jobs) && ValidJob(j) && to <= |log| && log <= more && Within(e, f)
    requires AllRightful(log, from, to, jobs, first, e, broken)
    ensures AllRightful(more, from, to, jobs + [j], first, f, broken)
  {
    forall k | from <= k < to
      ensures SomeRightful(more[k], jobs + [j], first, f, broken)
    {
      assert SomeRightful(log[k], jobs, first, e, broken);
      var p :| 0 <= p < |jobs| && Rightful(log[k], jobs[p], Seen(first, jobs[..p + 1]), e, broken);
      assert (jobs + [j])[p] == jobs[p] && more[k] == log[k] && (jobs + [j])[..p + 1] == jobs[..p + 1];
      RightfulWider(log[k], jobs[p], Seen(first, jobs[..p + 1]), e, f, broken);
      assert Rightful(more[k], (jobs + [j])[p], Seen(first, (jobs + [j])[..p + 1]), f, broken);
    }
  }

  lemma PassRightful(log: seq<Act>, from: nat, to: nat, jobs: seq<Job>, j: Job, known: set<string>,
                     first: set<Sidecar>, e: Evidence, f: Evidence, broken: bool)
    requires ValidJobs(jobs) && ValidJob(j) && from <= to <= |log| && Newest(j.sc, Seen(first, jobs) + {j.sc})
    requires known == Gens(Seen(first, jobs))
    requires AllLegit(log[..to], from, j, known, e, broken) && Within(e, f)
    ensures AllRightful(log, from, to, jobs + [j], first, f, broken)
  {
    SeenStep(first, jobs, j);
    forall k | from <= k < to
      ensures SomeRightful(log[k], jobs + [j], first, f, broken)
    {
      assert log[..to][k] == log[k];
      LegitRightful(log[k], j, known, Seen(first, jobs + [j]), e, broken);
      RightfulWider(log[k], j, Seen(first, jobs + [j]), e, f, broken);
      assert (jobs + [j])[|jobs|] == j && (jobs + [j])[..|jobs| + 1] == jobs + [j];
    }
  }

  lemma NewerTop(j: Job, seen: set<Sidecar>, next: Sidecar)
    requires Newest(j.sc, seen) && Supersedes(next, j.sc)
    ensures Newest(next, seen + {next})
  {
    SupersedesTotal(next, next);
    forall s | s in seen
      ensures Dominates(next, s)
    {
      SupersedesDominated(next, j.sc, s);
      SupersedesTotal(next, s);
    }
  }

  // ---- One pass, with the conversion ----

  /** What the bucket asks for: its current scheme if it could be read, the layout of that
      scheme under the current topology, and a fresh generation. */
  datatype Wish = Wish(scheme: Option<Scheme>, to: Option<Layout>, gen: string)

  predicate ValidWish(w: Wish) {
    && (w.scheme.Some? ==> ValidScheme(w.scheme.value))
    && (w.scheme.Some? && w.to.Some? ==> ValidLayout(w.to.value, w.scheme.value))
  }

  /** The bucket asks for nothing else than what is recorded, as far as it could be read. */
  predicate Content(j: Job, w: Wish) {
    w.scheme.None? || w.scheme.value == j.sc.scheme
  }

  /** The bucket asks for another scheme, and there is a layout for it. */
  predicate Wants(j: Job, w: Wish) {
    !Content(j, w) && w.to.Some?
  }

  ghost function MoveOf(j: Job, w: Wish): Convert.Move
    requires ValidJob(j) && Wants(j, w)
  {
    Convert.Move(j.Plan(), j.sc, w.to.value, Convert.Rewritten(j.sc, w.scheme.value, w.gen))
  }

  /** The bucket asks for another scheme, and both layouts answer. */
  ghost predicate Convertible(cl: Cluster, j: Job, w: Wish, c: Bytes)
    requires ValidJob(j)
    reads cl`files
  {
    && Wants(j, w)
    && Convert.Ready(cl.files, MoveOf(j, w), c)
    && Convert.Answering(cl, MoveOf(j, w), j.plans)
  }

  /** A pass: the store and the log length at its start and after its sweep, whether it
      converted the object, and how peers answered the conversion. */
  datatype Pass = Pass(base: Store, begun: nat, healed: Store, mid: nat, moved: bool, ans: Writes.PutAnswers)

  ghost predicate PassOf(ps: Pass, log: seq<Act>) {
    ps.begun <= ps.mid <= |log|
  }

  /** What a pass promises whatever the fragments hold: records of the authoritative
      generation are never lost, and a completed one leaves every record and every fragment,
      at its planned size, in place. */
  ghost predicate Placed(ps: Pass, log: seq<Act>, j: Job, done: bool)
    requires ValidJob(j) && PassOf(ps, log)
  {
    && AllRecordsKept(log[..ps.mid], ps.begun, j, Leads(ps.base, j.sc), Prevails(ps.base, j), false)
    && (done ==> Recorded(ps.healed, j, |j.Plan()|) && Fits(ps.healed, j, {}))
  }

  /** What a healed object looks like: nothing openable was lost on the way, and every
      fragment and record is in place. */
  ghost predicate Restored(ps: Pass, log: seq<Act>, j: Job, c: Bytes, done: bool)
    requires ValidJob(j) && PassOf(ps, log)
  {
    AllKeep(log[..ps.mid], ps.begun, ps.base, j, c) && (done ==> Settled(ps.healed, j, c))
  }

  /** How the conversion went, from the store the sweep left. */
  ghost predicate Concluded(ps: Pass, files: Store, log: seq<Act>, j: Job, w: Wish, c: Bytes)
    requires ValidJob(j)
  {
    Wants(j, w) && Convert.Ready(ps.healed, MoveOf(j, w), c) ==>
      if ps.moved then Convert.Moved(files, log, ps.mid, MoveOf(j, w), c)
      else Convert.Stayed(ps.healed, files, log, ps.mid, MoveOf(j, w), c, ps.ans)
  }

  /** Without a conversion there is nothing it could have disturbed. */
  lemma Unconverted(ps: Pass, log: seq<Act>, j: Job, w: Wish, c: Bytes)
    requires ValidJob(j) && ValidWish(w) && ps.mid == |log| && !ps.moved && ps.ans.NoQuorum?
    ensures Concluded(ps, ps.healed, log, j, w, c)
  {
    if Wants(j, w) && Convert.Ready(ps.healed, MoveOf(j, w), c) {
      Convert.StageStayed(ps.healed, ps.healed, log, |log|, MoveOf(j, w), c);
    }
  }

  /** The end of a completed pass: convert the object when its bucket asks for another scheme. */
  method Conclude(rep: Repairer, j: Job, w: Wish, ghost healed: Pass, ghost c: Bytes)
    returns (out: Outcome, ghost ps: Pass)
    requires ValidJob(j) && rep.Valid() && rep.cl.Valid() && ValidWish(w)
    requires healed.healed == rep.cl.files && healed.mid == |rep.cl.log| && !healed.moved
    modifies rep`report, rep.cl`files, rep.cl`log, rep.cl`looks
    ensures rep.cl.Valid() && old(rep.cl.looks) <= rep.cl.looks && old(rep.cl.log) <= rep.cl.log
    ensures ps == healed.(moved := ps.moved, ans := ps.ans)
    ensures out.Done? || out.Error?
    ensures |rep.cl.log| > |old(rep.cl.log)| ==> Wants(j, w)
    ensures rep.cl.quiet ==> Concluded(ps, rep.cl.files, rep.cl.log, j, w, c)
    ensures rep.report == old(rep.report).(converted := old(rep.report.converted) + if ps.moved then 1 else 0)
    ensures Writes.AllTouch(rep.cl.log, |old(rep.cl.log)|, {w.gen, j.sc.gen})
    ensures ps.moved ==> out.Done? && Wants(j, w) && |rep.cl.log| > |old(rep.cl.log)|
    ensures (out.Done? && !ps.moved) || Content(j, w) ==>
      out.Done? && !ps.moved && rep.cl.log == old(rep.cl.log) && rep.cl.files == old(rep.cl.files)
    ensures rep.cl.quiet && old(Convertible(rep.cl, j, w, c)) ==> ps.moved
  {
    if rep.cl.quiet { Unconverted(healed.(ans := Writes.NoQuorum), rep.cl.log, j, w, c); }
    var converted, error; ghost var ans;
    converted, error, ans := Convert.MaybeConvert(rep.cl, j.sc, j.Plan(), w.scheme, w.to, w.gen, j.plans, c);
    ps := healed.(moved := converted, ans := ans);
    if error { return Error, ps; }
    if converted { rep.report := rep.report.(converted := rep.report.converted + 1); }
    out := Done;
  }

  /** A quiet, trustworthy store on answering disks that has enough of the object somewhere. */
  ghost predicate Healable(rep: Repairer, j: Job, local: Option<LocalFragments>, disks: seq<DiskRef>, c: Bytes)
    requires ValidJob(j)
    reads rep.cl`files
  {
    Trust(rep.cl, j, c, rep.Verified(j.sc)) && (Servable(rep.cl, j, local, c) || Findable(rep.cl, j, local, disks, c))
  }

  /** A quiet, trustworthy store on answering targets that holds exactly what it should. */
  ghost predicate Steady(rep: Repairer, j: Job, local: Option<LocalFragments>, c: Bytes)
    requires ValidJob(j)
    reads rep.cl`files
  {
    Trust(rep.cl, j, c, rep.Verified(j.sc)) && AllUp(rep.cl, j.Plan()) && Fixpoint(rep.cl.files, j, local, c)
  }

  /** What a repairer's work has come to: the store, the histories, and its notes. */
  datatype View = View(files: Store, log: seq<Act>, looks: seq<Reading>, notes: Notebook)

  ghost function ViewOf(rep: Repairer): View
    reads rep, rep.cl
  {
    View(rep.cl.files, rep.cl.log, rep.cl.looks, rep.Notes())
  }

  /** The fragments of the authoritative generation are what they claim to be, save home
      replicas that are verified against their digest. */
  ghost predicate Trusted(files: Store, j: Job, c: Bytes, verified: nat)
    requires ValidJob(j)
  {
    Genuine(j, c) && CopiesSound(files, j, c) && SlotsSound(files, j, c, verified)
  }

  /** What a pass came to: only a conversion follows the sweep, and touches no third
      generation; in a quiet cluster records and
      fragments end up placed and a conversion never dips, and from a trusted store the
      object ends up restored. */
  ghost predicate Ended(rep: Repairer, v: View, j: Job, w: Wish, c: Bytes, ps: Pass, done: bool)
    requires ValidJob(j) && PassOf(ps, v.log)
  {
    && (ps.mid < |v.log| ==> Wants(j, w))
    && Writes.AllTouch(v.log, ps.mid, {w.gen, j.sc.gen})
    && (rep.cl.quiet ==> Placed(ps, v.log, j, done) && Concluded(ps, v.files, v.log, j, w, c))
    && (rep.cl.quiet && rep.cl.complete && Trusted(ps.base, j, c, rep.Verified(j.sc)) ==>
      Restored(ps, v.log, j, c, done))
  }

  /** What one more pass did, from one view to the next. */
  ghost predicate OnePass(rep: Repairer, was: View, now: View, j: Job, known: set<string>, e: Evidence, ps: Pass)
    requires ValidJob(j)
  {
    && was.log <= now.log
    && was.looks <= e.looks <= now.looks
    && Continues(was.notes, now.notes)
    && e == Evidence(e.looks, |was.looks|, was.notes, now.notes, rep.grace)
    && PassOf(ps, now.log)
    && ps.base == was.files
    && ps.begun == |was.log|
    && AllLegit(now.log[..ps.mid], ps.begun, j, known, e, !rep.cl.complete)
  }

  /** A full pass. */
  method RepairPass(rep: Repairer, j: Job, known: set<string>, local: Option<LocalFragments>, disks: seq<DiskRef>,
                    w: Wish, ghost c: Bytes)
    returns (out: Outcome, ghost e: Evidence, ghost ps: Pass)
    requires ValidJob(j) && rep.Valid() && rep.cl.Valid() && ValidWish(w)
    modifies rep, rep.cl
    ensures rep.Valid() && rep.cl.Valid() && OnePass(rep, old(ViewOf(rep)), ViewOf(rep), j, known, e, ps)
    ensures out.Newer? ==>
      NewerFound(out, j, rep.cl.looks, |old(rep.cl.looks)|) && ps.mid == |rep.cl.log| && e.looks == rep.cl.looks
    ensures Ended(rep, ViewOf(rep), j, w, c, ps, out.Done?)
    ensures rep.report.converted == old(rep.report.converted) + (if ps.moved then 1 else 0)
    ensures ps.moved ==> out.Done? && !rep.report.unverified && Wants(j, w)
    ensures out.Done? && !ps.moved ==> ps.mid == |rep.cl.log| && rep.cl.files == ps.healed
    ensures out.Done? ==> (Work(rep.report) > Work(old(rep.report)) <==> |rep.cl.log| > |old(rep.cl.log)|)
    ensures old(Healable(rep, j, local, disks, c)) && Content(j, w) ==> out.Done?
    ensures old(Steady(rep, j, local, c)) && old(!rep.report.unverified && Convertible(rep.cl, j, w, c)) ==>
      out.Done? && ps.moved
    ensures old(Steady(rep, j, local, c)) && Content(j, w) ==>
      out.Done? && rep.cl.files == old(rep.cl.files) && rep.cl.log == old(rep.cl.log) && rep.report == old(rep.report)
  {
    var missing;
    out, missing := rep.HealPass(j, known, local, disks, c);
    e := rep.Since();
    ps := Pass(old(rep.cl.files), |old(rep.cl.log)|, rep.cl.files, |rep.cl.log|, false, Writes.NoQuorum);
    assert rep.cl.log[..ps.mid] == rep.cl.log;
    if !out.Done? || missing != {} || rep.report.unverified {
      if rep.cl.quiet { Unconverted(ps, rep.cl.log, j, w, c); }
      return;
    }
    ghost var log := rep.cl.log;
    out, ps := Conclude(rep, j, w, ps, c);
    assert rep.cl.log[..ps.mid] == log;
  }

  // ---- The retry loop ----

  const MAX_PASSES: nat := 3

  /** So healable that the first pass completes and nothing is left to convert. */
  ghost predicate Able(rep: Repairer, j: Job, w: Wish, local: Option<LocalFragments>, disks: seq<DiskRef>, c: Bytes)
    reads rep.cl`files
  {
    ValidJob(j) && Content(j, w) && Healable(rep, j, local, disks, c)
  }

  /** Where a run started, and the authoritative record it found. */
  datatype Start = Start(files: Store, log: nat, looks: nat, notes: Notebook, auth: Option<Sidecar>)

  /** What a run knows by now. */
  ghost function Gathered(rep: Repairer, v: View, st: Start): Evidence
  {
    Evidence(v.looks, st.looks, st.notes, v.notes, rep.grace)
  }

  /** The passes of a run go by ever newer records, each the newest seen by then. */
  ghost predicate Ordered(jobs: seq<Job>, first: set<Sidecar>) {
    ValidJobs(jobs) && Rising(jobs) && Tops(first, jobs)
  }

  /** The record for the next pass, and the generations attributed so far. */
  ghost predicate Chosen(sc: Sidecar, known: set<string>, jobs: seq<Job>, first: set<Sidecar>) {
    && (jobs != [] ==> Supersedes(sc, jobs[|jobs| - 1].sc))
    && Newest(sc, Seen(first, jobs) + {sc})
    && known == Gens(Seen(first, jobs))
  }

  /** Everything done since the start is justified by what was seen, read and noted since. */
  ghost predicate Justified(rep: Repairer, v: View, st: Start, sc: Sidecar, jobs: seq<Job>, first: set<Sidecar>,
                            hint: Option<Sidecar>)
    requires ValidJobs(jobs)
  {
    && st.log <= |v.log|
    && st.looks <= |v.looks|
    && Continues(st.notes, v.notes)
    && Attributed(first + {sc}, jobs, hint, v.looks, st.looks)
    && AllRightful(v.log, st.log, |v.log|, jobs, first, Gathered(rep, v, st), !rep.cl.complete)
  }

  /** What holds of a run between two passes. */
  ghost predicate Running(rep: Repairer, v: View, st: Start, sc: Sidecar, known: set<string>, jobs: seq<Job>,
                          first: set<Sidecar>, hint: Option<Sidecar>)
  {
    && Ordered(jobs, first)
    && Chosen(sc, known, jobs, first)
    && Justified(rep, v, st, sc, jobs, first, hint)
    && (jobs == [] ==> v.files == st.files && |v.log| == st.log)
    && st.auth == Some(if jobs == [] then sc else jobs[0].sc)
  }

  lemma NewestAlone(sc: Sidecar, seen: set<Sidecar>)
    requires Newest(sc, seen)
    ensures Newest(sc, seen + {sc})
  {
  }

  lemma AttributedMore(first: set<Sidecar>, jobs: seq<Job>, hint: Option<Sidecar>, looks: seq<Reading>, from: nat,
                       j: Job, more: seq<Reading>)
    requires Attributed(first + {j.sc}, jobs, hint, looks, from) && looks <= more
    ensures Attributed(first, jobs + [j], hint, more, from)
  {
    SeenStep(first, jobs, j);
    forall s | s in Seen(first, jobs + [j])
      ensures hint == Some(s) || WasRead(more, from, s)
    {
      assert s in Seen(first + {j.sc}, jobs);
      if hint != Some(s) {
        var k :| from <= k < |looks| && Got(looks[k]) == Some(s);
        assert more[k] == looks[k];
      }
    }
  }

  lemma AttributedNewer(first: set<Sidecar>, jobs: seq<Job>, hint: Option<Sidecar>, looks: seq<Reading>, from: nat,
                        since: nat, sc: Sidecar)
    requires Attributed(first, jobs, hint, looks, from) && from <= since && WasRead(looks, since, sc)
    ensures Attributed(first + {sc}, jobs, hint, looks, from)
  {
    WasReadSince(looks, since, from, sc);
    assert Seen(first + {sc}, jobs) == Seen(first, jobs) + {sc};
  }

  /** The evidence of one pass, as part of the run's. */
  lemma PassWithin(st: Start, e: Evidence, before: Notebook, looks: seq<Reading>)
    requires Continues(st.notes, before) && Continues(before, e.b) && e.a == before && looks <= e.looks
    requires e.from == |looks| && st.looks <= |looks|
    ensures Within(e, Evidence(e.looks, st.looks, st.notes, e.b, e.grace))
    ensures Within(Evidence(looks, st.looks, st.notes, before, e.grace),
      Evidence(e.looks, st.looks, st.notes, e.b, e.grace))
    ensures Continues(st.notes, e.b)
  {
    ContinuesChain(st.notes, before, e.b);
    ContinuesSelf(st.notes);
    ContinuesSelf(e.b);
  }

  lemma Spliced(log: seq<Act>, from: nat, cut: nat, to: nat, jobs: seq<Job>, first: set<Sidecar>, e: Evidence,
                broken: bool)
    requires ValidJobs(jobs) && from <= cut <= to <= |log|
    requires AllRightful(log, from, cut, jobs, first, e, broken) && AllRightful(log, cut, to, jobs, first, e, broken)
    ensures AllRightful(log, from, to, jobs, first, e, broken)
  {
  }

  /** Everything up to the sweep of the last pass is justified by evidence of this run. */
  ghost predicate Supported(rep: Repairer, v: View, st: Start, jobs: seq<Job>, first: set<Sidecar>,
                            hint: Option<Sidecar>, e: Evidence, ps: Pass)
    requires ValidJobs(jobs)
  {
    && e == Evidence(e.looks, st.looks, st.notes, v.notes, rep.grace)
    && st.looks <= |e.looks| && e.looks <= v.looks
    && Attributed(first, jobs, hint, e.looks, st.looks)
    && PassOf(ps, v.log)
    && st.log <= ps.begun
    && AllRightful(v.log, st.log, ps.mid, jobs, first, e, !rep.cl.complete)
  }

  /** What a run that ends here can show for its last pass. */
  ghost predicate Shown(rep: Repairer, v: View, st: Start, jobs: seq<Job>, first: set<Sidecar>, hint: Option<Sidecar>,
                        e: Evidence, ps: Pass)
  {
    Ordered(jobs, first) && Supported(rep, v, st, jobs, first, hint, e, ps)
  }

  /** The same, with what the last pass came to. */
  ghost predicate Passed(rep: Repairer, v: View, st: Start, jobs: seq<Job>, last: Job, first: set<Sidecar>,
                         hint: Option<Sidecar>, e: Evidence, ps: Pass,
                         w: Wish, c: Bytes, done: bool)
  {
    && Shown(rep, v, st, jobs, first, hint, e, ps)
    && (jobs != [] ==> last == jobs[|jobs| - 1] && Ended(rep, v, last, w, c, ps, done))
    && Anchored(v, st, jobs, ps)
  }

  /** How the run is tied to its start. */
  ghost predicate Anchored(v: View, st: Start, jobs: seq<Job>, ps: Pass) {
    && (if jobs == [] then |v.log| == st.log else st.auth == Some(jobs[0].sc))
    && (|jobs| == 1 ==> ps.base == st.files && ps.begun == st.log)
  }

  /** Each job takes its layouts from its record. */
  ghost predicate Planned(jobs: seq<Job>, plansOf: Sidecar -> seq<Layout>) {
    forall p :: 0 <= p < |jobs| ==> jobs[p] == Job(jobs[p].sc, plansOf(jobs[p].sc))
  }

  /** Before the first pass there is nothing to show. */
  lemma NotYet(rep: Repairer, v: View, st: Start, sc: Sidecar, first: set<Sidecar>, hint: Option<Sidecar>, last: Job,
               ps: Pass, w: Wish, c: Bytes)
    requires st == Start(v.files, |v.log|, st.looks, v.notes, st.auth) && st.looks <= |v.looks|
    requires Attributed(first, [], hint, v.looks, st.looks) && ps.begun == ps.mid == |v.log|
    ensures Passed(rep, v, st, [], last, first, hint, Gathered(rep, v, st), ps, w, c, false)
    ensures Newest(sc, first) && st.auth == Some(sc) ==> Running(rep, v, st, sc, Gens(first), [], first, hint)
  {
    ContinuesSelf(st.notes);
    assert Seen(first, []) == first;
    if Newest(sc, first) && st.auth == Some(sc) {
      NewestAlone(sc, first);
      assert first + {sc} == first;
    }
  }

  /** The evidence of the run after a pass. */
  ghost function Extended(st: Start, e: Evidence): Evidence {
    Evidence(e.looks, st.looks, st.notes, e.b, e.grace)
  }

  lemma PassRuns(rep: Repairer, was: View, now: View, st: Start, j: Job, known: set<string>, jobs: seq<Job>,
                 first: set<Sidecar>,
                 hint: Option<Sidecar>, e: Evidence, ps: Pass)
    requires ValidJob(j) && Running(rep, was, st, j.sc, known, jobs, first, hint)
    requires OnePass(rep, was, now, j, known, e, ps)
    ensures Shown(rep, now, st, jobs + [j], first, hint, Extended(st, e), ps)
    ensures Continues(st.notes, now.notes) && known + {j.sc.gen} == Gens(Seen(first, jobs + [j]))
    ensures Newest(j.sc, Seen(first, jobs + [j]))
  {
    PassWithin(st, e, was.notes, was.looks);
    var f := Extended(st, e);
    RightfulGrows(was.log, st.log, |was.log|, jobs, j, first, Evidence(was.looks, st.looks, st.notes, was.notes,
                  e.grace), f, !rep.cl.complete, now.log);
    PassRightful(now.log, |was.log|, ps.mid, jobs, j, known, first, e, f, !rep.cl.complete);
    Spliced(now.log, st.log, |was.log|, ps.mid, jobs + [j], first, f, !rep.cl.complete);
    RisingStep(jobs, j);
    TopsStep(first, jobs, j);
    SeenStep(first, jobs, j);
    AttributedMore(first, jobs, hint, was.looks, st.looks, j, e.looks);
  }

  lemma PassPassed(rep: Repairer, was: View, now: View, st: Start, j: Job, known: set<string>, jobs: seq<Job>,
                   first: set<Sidecar>,
                   hint: Option<Sidecar>, e: Evidence, ps: Pass, w: Wish, c: Bytes, done: bool)
    requires ValidJob(j) && Running(rep, was, st, j.sc, known, jobs, first, hint)
    requires OnePass(rep, was, now, j, known, e, ps)
    requires Ended(rep, now, j, w, c, ps, done)
    ensures Passed(rep, now, st, jobs + [j], j, first, hint, Extended(st, e), ps, w, c, done)
    ensures Continues(st.notes, now.notes)
  {
    PassRuns(rep, was, now, st, j, known, jobs, first, hint, e, ps);
    assert (jobs + [j])[|jobs|] == j && (jobs != [] ==> (jobs + [j])[0] == jobs[0]);
  }

  /** A pass that ran into a newer record leaves a run that can go on with it. */
  lemma PassRestarts(rep: Repairer, was: View, now: View, st: Start, j: Job, known: set<string>, jobs: seq<Job>,
                     first: set<Sidecar>,
                     hint: Option<Sidecar>, e: Evidence, ps: Pass, out: Outcome)
    requires ValidJob(j) && Running(rep, was, st, j.sc, known, jobs, first, hint)
    requires OnePass(rep, was, now, j, known, e, ps)
    requires out.Newer? && NewerFound(out, j, now.looks, |was.looks|) && ps.mid == |now.log| && e.looks == now.looks
    ensures Running(rep, now, st, out.sc, known + {j.sc.gen}, jobs + [j], first, hint)
  {
    PassRuns(rep, was, now, st, j, known, jobs, first, hint, e, ps);
    NewerTop(j, Seen(first, jobs + [j]), out.sc);
    AttributedNewer(first, jobs + [j], hint, e.looks, st.looks, |was.looks|, out.sc);
  }

  /** One attempt of a run, with the bookkeeping of a restart. */
  method Attempt(rep: Repairer, ghost st: Start, j: Job, known: set<string>, local: Option<LocalFragments>,
                 disks: seq<DiskRef>, w: Wish,
                 ghost jobs: seq<Job>, ghost first: set<Sidecar>, ghost hint: Option<Sidecar>, ghost c: Bytes)
    returns (out: Outcome, ghost e: Evidence, ghost ps: Pass)
    requires ValidJob(j) && ValidWish(w) && rep.Valid() && rep.cl.Valid()
    requires Running(rep, ViewOf(rep), st, j.sc, known, jobs, first, hint)
    modifies rep, rep.cl
    ensures rep.Valid() && rep.cl.Valid() && Continues(st.notes, rep.Notes()) && old(rep.cl.looks) <= rep.cl.looks
    ensures old(rep.cl.log) <= rep.cl.log
    ensures Passed(rep, ViewOf(rep), st, jobs + [j], j, first, hint, e, ps, w, c, out.Done?)
    ensures out.Newer? ==> Running(rep, ViewOf(rep), st, out.sc, known + {j.sc.gen}, jobs + [j], first, hint)
    ensures old(Healable(rep, j, local, disks, c)) && Content(j, w) ==> out.Done?
  {
    ghost var was := ViewOf(rep);
    out, e, ps := RepairPass(rep, j, known, local, disks, w, c);
    PassPassed(rep, was, ViewOf(rep), st, j, known, jobs, first, hint, e, ps, w, c, out.Done?);
    if out.Newer? { PassRestarts(rep, was, ViewOf(rep), st, j, known, jobs, first, hint, e, ps, out); }
    e := Extended(st, e);
  }

  /** The passes so far, the last of them with its outcome, and what the run has to show. */
  datatype Story = Story(jobs: seq<Job>, last: Job, e: Evidence, ps: Pass)

  ghost predicate Told(rep: Repairer, v: View, st: Start, s: Story, first: set<Sidecar>, hint: Option<Sidecar>,
                       w: Wish, content: Sidecar -> Bytes,
                       plansOf: Sidecar -> seq<Layout>, done: bool)
  {
    && Passed(rep, v, st, s.jobs, s.last, first, hint, s.e, s.ps, w, content(s.last.sc), done)
    && Planned(s.jobs, plansOf)
  }

  /** No pass yet. */
  ghost function Unstarted(rep: Repairer, st: Start, last: Job): Story
    reads rep, rep.cl
  {
    Story([], last, Gathered(rep, ViewOf(rep), st),
      Pass(rep.cl.files, |rep.cl.log|, rep.cl.files, |rep.cl.log|, false, Writes.NoQuorum))
  }

  /** The next attempt, with the layouts of the record it goes by. */
  method Next(rep: Repairer, ghost st: Start, sc: Sidecar, known: set<string>, local: Option<LocalFragments>,
              disks: seq<DiskRef>,
              plansOf: Sidecar -> seq<Layout>, w: Wish, ghost content: Sidecar -> Bytes, ghost first: set<Sidecar>,
                ghost hint: Option<Sidecar>,
              ghost was: Story, ghost able: bool)
    returns (out: Outcome, ghost now: Story)
    requires ValidWish(w) && rep.Valid() && rep.cl.Valid()
    requires Running(rep, ViewOf(rep), st, sc, known, was.jobs, first, hint)
    requires Told(rep, ViewOf(rep), st, was, first, hint, w, content, plansOf, false)
    requires able ==> Able(rep, Job(sc, plansOf(sc)), w, local, disks, content(sc))
    modifies rep, rep.cl
    ensures rep.Valid() && rep.cl.Valid() && Continues(st.notes, rep.Notes()) && old(rep.cl.looks) <= rep.cl.looks
    ensures old(rep.cl.log) <= rep.cl.log
    ensures Told(rep, ViewOf(rep), st, now, first, hint, w, content, plansOf, out.Done?)
    ensures out.Newer? ==> Running(rep, ViewOf(rep), st, out.sc, known + {sc.gen}, now.jobs, first, hint)
    ensures |was.jobs| <= |now.jobs| <= |was.jobs| + 1 && (able || out.Newer? ==> |now.jobs| == |was.jobs| + 1)
    ensures able ==> out.Done?
  {
    now := was;
    var j := Job(sc, plansOf(sc));
    if !ValidJob(j) { return Error, now; }
    ghost var e, ps;
    out, e, ps := Attempt(rep, st, j, known, local, disks, w, was.jobs, first, hint, content(sc));
    now := Story(was.jobs + [j], j, e, ps);
  }

  /** The passes of a run, from the authoritative record on. */
  method RunPasses(rep: Repairer, auth: Sidecar, gens: set<string>, local: Option<LocalFragments>, disks: seq<DiskRef>,
                   plansOf: Sidecar -> seq<Layout>, w: Wish, ghost content: Sidecar -> Bytes, ghost first: set<Sidecar>,
                   ghost hint: Option<Sidecar>, ghost st: Start)
    returns (out: Outcome, ghost s: Story)
    requires rep.Valid() && rep.cl.Valid() && ValidWish(w) && Newest(auth, first) && gens == Gens(first)
    requires st == Start(rep.cl.files, |rep.cl.log|, st.looks, rep.Notes(), Some(auth)) && st.looks <= |rep.cl.looks|
    requires Attributed(first, [], hint, rep.cl.looks, st.looks)
    modifies rep, rep.cl
    ensures rep.Valid() && rep.cl.Valid() && rep.Accrued() && old(rep.cl.looks) <= rep.cl.looks
    ensures old(rep.cl.log) <= rep.cl.log
    ensures |s.jobs| <= MAX_PASSES
    ensures Told(rep, ViewOf(rep), st, s, first, hint, w, content, plansOf, out.Done?)
    ensures old(Able(rep, Job(auth, plansOf(auth)), w, local, disks, content(auth))) ==> |s.jobs| == 1 && out.Done?
  {
    var sc, known := auth, gens;
    s := Unstarted(rep, st, Job(sc, []));
    NotYet(rep, ViewOf(rep), st, auth, first, hint, s.last, s.ps, w, content(s.last.sc));
    ghost var able := Able(rep, Job(auth, plansOf(auth)), w, local, disks, content(auth));
    for attempt := 0 to MAX_PASSES
      invariant rep.Valid() && rep.cl.Valid() && old(rep.cl.looks) <= rep.cl.looks && old(rep.cl.log) <= rep.cl.log
      invariant Running(rep, ViewOf(rep), st, sc, known, s.jobs, first, hint)
      invariant Told(rep, ViewOf(rep), st, s, first, hint, w, content, plansOf, false)
      invariant |s.jobs| == attempt
      invariant (able ==> attempt == 0 && sc == auth && Able(rep, Job(sc, plansOf(sc)), w, local, disks, content(sc)))
    {
      out, s := Next(rep, st, sc, known, local, disks, plansOf, w, content, first, hint, s, able);
      if !out.Newer? { return; }
      known := known + {sc.gen};
      sc := out.sc;
    }
    out := Error;
  }

  /** A run begins with one reading of each candidate; the records these return, and the
      hint, are what it first goes by. */
  ghost predicate FirstRead(first: set<Sidecar>, hint: Option<Sidecar>, looks: seq<Reading>, from: nat,
                            cands: seq<DiskRef>) {
    && from + |cands| <= |looks|
    && ReadEach(looks[..from + |cands|], from, cands, |cands|)
    && first == Hinted(hint) + Returned(looks[..from + |cands|], from)
  }

  lemma FirstReadKept(first: set<Sidecar>, hint: Option<Sidecar>, looks: seq<Reading>, more: seq<Reading>, from: nat,
                      cands: seq<DiskRef>)
    requires FirstRead(first, hint, looks, from, cands) && looks <= more
    ensures FirstRead(first, hint, more, from, cands)
  {
    assert more[..from + |cands|] == looks[..from + |cands|];
  }

  lemma FirstAttributed(hint: Option<Sidecar>, looks: seq<Reading>, from: nat)
    ensures Attributed(Hinted(hint) + Returned(looks, from), [], hint, looks, from)
  {
    forall s | s in Seen(Hinted(hint) + Returned(looks, from), [])
      ensures hint == Some(s) || WasRead(looks, from, s)
    {
      if s in Returned(looks, from) {
        var k :| from <= k < |looks| && Got(looks[k]).Some? && Got(looks[k]).value == s;
        assert Got(looks[k]) == Some(s);
      }
    }
  }

  /** The start of a run: the authoritative record among what every candidate holds. */
  method Begin(rep: Repairer, cands: seq<DiskRef>, hint: Option<Sidecar>)
    returns (auth: Reads.Answer<Sidecar>, known: set<string>, ghost st: Start, ghost first: set<Sidecar>)
    requires rep.cl.Valid()
    modifies rep.cl`files, rep.cl`looks
    ensures rep.cl.Valid() && rep.cl.Still() && old(rep.cl.looks) <= rep.cl.looks
    ensures st == Start(rep.cl.files, |rep.cl.log|, |old(rep.cl.looks)|, rep.Notes(), if auth.Ok? then Some(auth.value)
      else None)
    ensures FirstRead(first, hint, rep.cl.looks, |old(rep.cl.looks)|, cands)
    ensures Attributed(first, [], hint, rep.cl.looks, st.looks)
    ensures known == Gens(first) && (auth.Ok? <==> first != {}) && (auth.Ok? ==> Newest(auth.value, first))
    ensures auth.NotFound? ==> AllAnswered(rep.cl.looks, |old(rep.cl.looks)|)
  {
    auth, known, first := AuthoritativeSidecar(rep.cl, cands, hint);
    st := Start(rep.cl.files, |rep.cl.log|, |old(rep.cl.looks)|, rep.Notes(),
                if auth.Ok? then Some(auth.value) else None);
    FirstAttributed(hint, rep.cl.looks, st.looks);
    assert rep.cl.looks[..st.looks + |cands|] == rep.cl.looks;
  }

  /** Repair one object: up to three passes, each restarted with the newer record the last
      one ran into. `plansOf` gives a record's layouts, the current one first. `first` are
      the records read at the start, `jobs` the passes, `ps` the last of them. */
  method RunRepair(rep: Repairer, cands: seq<DiskRef>, hint: Option<Sidecar>, local: Option<LocalFragments>,
                   disks: seq<DiskRef>,
                   plansOf: Sidecar -> seq<Layout>, w: Wish, ghost content: Sidecar -> Bytes)
    returns (r: Reads.Answer<Outcome>, ghost st: Start, ghost s: Story, ghost first: set<Sidecar>)
    requires rep.Valid() && rep.cl.Valid() && ValidWish(w)
    modifies rep, rep.cl
    ensures rep.Valid() && rep.cl.Valid() && rep.Accrued() && old(rep.cl.looks) <= rep.cl.looks
    ensures old(rep.cl.log) <= rep.cl.log
    ensures FirstRead(first, hint, rep.cl.looks, |old(rep.cl.looks)|, cands)
    ensures r.Ok? <==> first != {}
    ensures r.NotFound? ==> AllAnswered(rep.cl.looks, |old(rep.cl.looks)|)
    ensures |s.jobs| <= MAX_PASSES && if r.Ok? then st.auth.Some? && Newest(st.auth.value, first) else s.jobs == []
    ensures Told(rep, ViewOf(rep), st, s, first, hint, w, content, plansOf, r == Reads.Ok(Done))
    ensures st == Start(st.files, |old(rep.cl.log)|, |old(rep.cl.looks)|, old(rep.Notes()), st.auth)
    ensures rep.cl.quiet ==> st.files == old(rep.cl.files)
    ensures r.Ok? ==>
      (old(Able(rep, Job(st.auth.value, plansOf(st.auth.value)), w, local, disks, content(st.auth.value))) ==>
         |s.jobs| == 1 && r == Reads.Ok(Done))
  {
    var auth, known;
    auth, known, st, first := Begin(rep, cands, hint);
    ghost var looks := rep.cl.looks;
    if !auth.Ok? {
      ghost var last: Job := *;
      s := Unstarted(rep, st, last);
      NotYet(rep, ViewOf(rep), st, s.last.sc, first, hint, s.last, s.ps, w, content(s.last.sc));
      ContinuesSelf(st.notes);
      r := if auth.NotFound? then Reads.NotFound else Reads.Fault;
      return;
    }
    var out;
    out, s := RunPasses(rep, auth.value, known, local, disks, plansOf, w, content, first, hint, st);
    FirstReadKept(first, hint, looks, rep.cl.looks, st.looks, cands);
    r := Reads.Ok(out);
  }

  // ---- What a whole run can be relied on for ----

  /** A racing write is left alone: no mutation of a run touches a fragment of a generation
      that is not the conversion's own, that the hint does not name, that no record named
      where the run looked, and that was not noted as a stray a grace before the end of the
      run, which itself took less than a grace. */
  lemma RacingWriteSafe(rep: Repairer, v: View, st: Start, s: Story, first: set<Sidecar>, hint: Option<Sidecar>,
                        w: Wish, content: Sidecar -> Bytes,
                        plansOf: Sidecar -> seq<Layout>, done: bool, g: string, k: nat)
    requires Told(rep, v, st, s, first, hint, w, content, plansOf, done) && st.log <= k < |v.log|
    requires g != w.gen && (hint.Some? ==> hint.value.gen != g)
    requires Unnamed(s.e.looks, st.looks, g)
    requires st.notes.clock + rep.grace > v.notes.clock
    requires (g in st.notes.strays ==> st.notes.strays[g] + rep.grace > v.notes.clock)
    ensures !(v.log[k].loc.name.Frag? && v.log[k].loc.name.gen == g)
  {
    var jobs := s.jobs;
    SeenUnnamed(first, jobs, hint, s.e, g);
    if k < s.ps.mid {
      assert SomeRightful(v.log[k], jobs, first, s.e, !rep.cl.complete);
      var p :| 0 <= p < |jobs| && Rightful(v.log[k], jobs[p], Seen(first, jobs[..p + 1]), s.e, !rep.cl.complete);
      SeenPrefix(first, jobs, p + 1);
      assert jobs[p] in jobs && jobs[p].sc in Seen(first, jobs);
      RightfulSpares(v.log[k], jobs[p], Seen(first, jobs[..p + 1]), s.e, !rep.cl.complete, g);
    } else {
      assert s.last in jobs && s.last.sc in Seen(first, jobs);
      assert Writes.Touches(v.log[k], {w.gen, s.last.sc.gen});
    }
  }

  lemma RightfulRecord(a: Act, j: Job, seen: set<Sidecar>, e: Evidence, broken: bool)
    requires ValidJob(j) && Rightful(a, j, seen, e, broken) && a.loc.name.Meta? && RecordAt(a.before, a.loc.at).Some?
    ensures a.Write? ==> a.blob.Record? && Supersedes(a.blob.sc, RecordAt(a.before, a.loc.at).value)
    ensures a.Erase? ==> NotNewer(a.before, a.loc.at, j.sc) || Unanswered(e.looks, e.from, a.loc.at)
  {
  }

  /** No target's record is downgraded, and none that supersedes the pass's view is deleted,
      unless the target did not answer what it holds; one that always answers loses none. */
  lemma NeverDowngraded(rep: Repairer, v: View, st: Start, s: Story, first: set<Sidecar>, hint: Option<Sidecar>,
                        w: Wish, content: Sidecar -> Bytes,
                        plansOf: Sidecar -> seq<Layout>, done: bool, k: nat)
    requires Told(rep, v, st, s, first, hint, w, content, plansOf, done) && st.log <= k < s.ps.mid
    requires forall n :: 0 <= n < |v.looks| && v.looks[n].at in rep.cl.up ==> v.looks[n].answered
    requires v.log[k].loc.name.Meta? && RecordAt(v.log[k].before, v.log[k].loc.at).Some?
    ensures var was, at := RecordAt(v.log[k].before, v.log[k].loc.at).value, v.log[k].loc.at;
      if v.log[k].Write? then v.log[k].blob.Record? && Supersedes(v.log[k].blob.sc, was)
      else
        || (exists j :: j in s.jobs && (was.gen == j.sc.gen || !Supersedes(was, j.sc)))
        || (at !in rep.cl.up && Unanswered(s.e.looks, st.looks, at))
  {
    assert SomeRightful(v.log[k], s.jobs, first, s.e, !rep.cl.complete);
    var p :| 0 <= p < |s.jobs| && Rightful(v.log[k], s.jobs[p], Seen(first, s.jobs[..p + 1]), s.e, !rep.cl.complete);
    assert s.jobs[p] in s.jobs;
    RightfulRecord(v.log[k], s.jobs[p], Seen(first, s.jobs[..p + 1]), s.e, !rep.cl.complete);
    if Unanswered(s.e.looks, st.looks, v.log[k].loc.at) {
      var n :| st.looks <= n < |s.e.looks| && s.e.looks[n].at == v.log[k].loc.at && !s.e.looks[n].answered;
      assert v.looks[n] == s.e.looks[n];
    }
  }
}
