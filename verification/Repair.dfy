/**
 The repair pass: survey, verify, restore, rebuild and sweep of one object. Every
 stage runs against adversarial peer failures, and between per-target steps other
 nodes may change anything unless the cluster is quiet.
 */
module Repair {
  import opened Records
  import opened Peers
  import Sets

  datatype Report = Report(
    rebuilt: nat,
    rewritten: nat,
    deleted: nat,
    corrupt: nat,
    converted: nat,
    unverified: bool)

  /** Ten minutes, in seconds. */
  const DEFAULT_SWEEP_GRACE: nat := 600

  const EMPTY_REPORT := Report(0, 0, 0, 0, 0, false)

  function Work(r: Report): nat {
    r.rebuilt + r.rewritten + r.deleted + r.converted
  }

  /** One pass: the authoritative record and the object's layouts under every
      remembered epoch, the current one first. */
  datatype Job = Job(sc: Sidecar, plans: seq<Layout>) {
    function Plan(): Layout
      requires |plans| > 0
    {
      plans[0]
    }
  }

  predicate ValidJob(j: Job) {
    && ValidScheme(j.sc.scheme)
    && |j.plans| > 0
    && forall p :: 0 <= p < |j.plans| ==> ValidLayout(j.plans[p], j.sc.scheme)
  }

  /** How a pass or a stage ends. */
  datatype Outcome = Done | Newer(sc: Sidecar) | Unrecoverable | Error

  /** The record that ended a stage supersedes the job's and was read meanwhile. */
  ghost predicate NewerFound(out: Outcome, j: Job, looks: seq<Reading>, from: nat)
    requires out.Newer?
  {
    out.sc.gen != j.sc.gen && Supersedes(out.sc, j.sc) && WasRead(looks, from, out.sc)
  }

  // ---- What the store holds of the authoritative generation ----

  /** The file's home: the target the current plan gives this fragment. */
  predicate IsSlot(j: Job, l: Loc)
    requires ValidJob(j)
  {
    && l.name.Frag?
    && l.name.gen == j.sc.gen
    && l.name.index < |j.Plan()|
    && l.at == j.Plan()[l.name.index]
  }

  /** Fragment `i` can be opened by the read path: some remembered layout's target has it. */
  ghost predicate Held(files: Store, j: Job, c: Bytes, i: nat)
    requires ValidJob(j) && i < Copies(j.sc.scheme)
  {
    exists p :: 0 <= p < |j.plans| && Intact(files, Slot(j.plans[p], j.sc.gen, i), j.sc, c)
  }

  /** No fragment that could be opened in `base` is lost in `files`. */
  ghost predicate Keeps(base: Store, files: Store, j: Job, c: Bytes)
    requires ValidJob(j)
  {
    forall i: nat :: i < Copies(j.sc.scheme) && Held(base, j, c, i) ==> Held(files, j, c, i)
  }

  /** Away from home, copies of the planned size are copies of the content. */
  ghost predicate CopiesSound(files: Store, j: Job, c: Bytes)
    requires ValidJob(j)
  {
    forall l | l in files && l.name.Frag? && l.name.gen == j.sc.gen && l.name.index < Copies(j.sc.scheme) ::
      !IsSlot(j, l) && RightSize(files, l, j.sc) ==> Intact(files, l, j.sc, c)
  }

  /** At home, fragments that the pass does not re-read are sound in the same sense. */
  ghost predicate SlotsSound(files: Store, j: Job, c: Bytes, verified: nat)
    requires ValidJob(j)
  {
    forall i: nat | verified <= i < Copies(j.sc.scheme) ::
      RightSize(files, Slot(j.Plan(), j.sc.gen, i), j.sc) ==> Intact(files, Slot(j.Plan(), j.sc.gen, i), j.sc, c)
  }

  /** Every fragment outside `missing` is intact at home. */
  ghost predicate HomeExcept(files: Store, j: Job, c: Bytes, missing: set<nat>)
    requires ValidJob(j)
  {
    forall i: nat :: i < Copies(j.sc.scheme) && i !in missing ==> Intact(files, Slot(j.Plan(), j.sc.gen, i), j.sc, c)
  }

  /** The shards at home are of no one content. */
  ghost predicate Inconsistent(files: Store, j: Job)
    requires ValidJob(j)
  {
    j.sc.size > 0 && forall d :: !HomeExcept(files, j, d, {})
  }

  /** The first shards outside `missing` are those of one content, if there are any. */
  ghost predicate ShardsOf(files: Store, j: Job, content: Option<Bytes>, missing: set<nat>, n: nat)
    requires ValidJob(j) && n <= Copies(j.sc.scheme)
  {
    forall i: nat :: i < n && i !in missing ==>
      content.Some? && Intact(files, Slot(j.Plan(), j.sc.gen, i), j.sc, content.value)
  }

  /** None of these fragments is intact at home. */
  ghost predicate AllLost(files: Store, j: Job, c: Bytes, missing: set<nat>)
    requires ValidJob(j) && forall i :: i in missing ==> i < Copies(j.sc.scheme)
  {
    forall i :: i in missing ==> !Intact(files, Slot(j.Plan(), j.sc.gen, i), j.sc, c)
  }

  /** Progress of the verification: fragments below `i` or from `n` on are intact at home,
      those between still only have the planned size; `missing` is exempt. */
  ghost predicate Checked(files: Store, j: Job, c: Bytes, missing: set<nat>, i: nat, n: nat)
    requires ValidJob(j)
  {
    forall x: nat :: x < Copies(j.sc.scheme) && x !in missing ==>
      RightSize(files, Slot(j.Plan(), j.sc.gen, x), j.sc) &&
        (i <= x < n || Intact(files, Slot(j.Plan(), j.sc.gen, x), j.sc, c))
  }

  lemma CheckedStep(was: Store, now: Store, j: Job, c: Bytes, missing: set<nat>, i: nat, n: nat, good: bool)
    requires ValidJob(j) && i < n <= Copies(j.sc.scheme) && Checked(was, j, c, missing, i, n)
    requires now == was || now == was - {Slot(j.Plan(), j.sc.gen, i)}
    requires good ==> now == was && Intact(was, Slot(j.Plan(), j.sc.gen, i), j.sc, c)
    ensures Checked(now, j, c, if good then missing else missing + {i}, i + 1, n)
  {
    forall x: nat | x < Copies(j.sc.scheme) && x != i
      ensures Slot(j.Plan(), j.sc.gen, x) != Slot(j.Plan(), j.sc.gen, i)
    {
    }
  }

  lemma DropFits(was: Store, now: Store, j: Job, lacking: set<nat>, missing: set<nat>, i: nat)
    requires ValidJob(j) && i < |j.Plan()| && Fits(was, j, lacking) && lacking <= missing
    requires now == was || (now == was - {Slot(j.Plan(), j.sc.gen, i)} && i in missing)
    ensures Fits(now, j, missing)
  {
    forall n: nat | n < |j.Plan()| && n !in missing
      ensures RightSize(now, Slot(j.Plan(), j.sc.gen, n), j.sc)
    {
      assert RightSize(was, Slot(j.Plan(), j.sc.gen, n), j.sc);
    }
  }

  /** A fragment of the planned size written home is no longer missing. */
  lemma FillFits(was: Store, j: Job, missing: set<nat>, i: nat, blob: Blob)
    requires ValidJob(j) && i < |j.Plan()| && Fits(was, j, missing)
    requires blob.Data? && SizeOf(blob.payload) == PlannedSize(j.sc.scheme, j.sc.size, i)
    ensures Fits(was[Slot(j.Plan(), j.sc.gen, i) := blob], j, missing - {i})
  {
    var now := was[Slot(j.Plan(), j.sc.gen, i) := blob];
    forall n: nat | n < |j.Plan()| && n !in missing - {i}
      ensures RightSize(now, Slot(j.Plan(), j.sc.gen, n), j.sc)
    {
      if n != i { assert RightSize(was, Slot(j.Plan(), j.sc.gen, n), j.sc); }
    }
  }

  /** Shards of one content have one size, so a rebuilt one fits where a survivor does. */
  lemma ShardFits(files: Store, j: Job, missing: set<nat>, content: Bytes, i: nat)
    requires ValidJob(j) && j.sc.scheme.EC? && Fits(files, j, missing) && HomeExcept(files, j, content, missing)
    requires |missing| < Copies(j.sc.scheme)
    ensures SizeOf(Piece(j.sc.scheme, content, i)) == PlannedSize(j.sc.scheme, j.sc.size, i)
  {
    if forall n: nat :: n < Copies(j.sc.scheme) ==> n in missing { Sets.AllBelow(missing, Copies(j.sc.scheme)); }
    var n: nat :| n < Copies(j.sc.scheme) && n !in missing;
    assert RightSize(files, Slot(j.Plan(), j.sc.gen, n), j.sc) &&
      Intact(files, Slot(j.Plan(), j.sc.gen, n), j.sc, content);
  }

  /** Every shard of the content read has the planned size. */
  ghost predicate PiecesFit(j: Job, content: Option<Bytes>)
    requires ValidJob(j)
  {
    content.Some? ==>
      forall i: nat :: SizeOf(Piece(j.sc.scheme, content.value, i)) == PlannedSize(j.sc.scheme, j.sc.size, i)
  }

  lemma ShardsFit(files: Store, j: Job, missing: set<nat>, content: Bytes)
    requires ValidJob(j) && j.sc.scheme.EC? && Fits(files, j, missing) && HomeExcept(files, j, content, missing)
    requires |missing| < Copies(j.sc.scheme)
    ensures PiecesFit(j, Some(content))
  {
    forall i: nat
      ensures SizeOf(Piece(j.sc.scheme, content, i)) == PlannedSize(j.sc.scheme, j.sc.size, i)
    {
      ShardFits(files, j, missing, content, i);
    }
  }

  /** Only home slots were deleted. */
  ghost predicate Drops(was: Store, now: Store, j: Job)
    requires ValidJob(j)
  {
    && (forall l :: l in now ==> l in was && now[l] == was[l])
    && (forall l :: l in was && !IsSlot(j, l) ==> l in now)
  }

  /** What the safety claims assume of the store before a pass: nobody else writes, opened
      payloads are read to the end, and files of the planned size are what they claim to be,
      except home replicas that the pass re-reads. */
  ghost predicate Trust(cl: Cluster, j: Job, c: Bytes, verified: nat)
    requires ValidJob(j)
    reads cl`files
  {
    && cl.quiet
    && cl.complete
    && Genuine(j, c)
    && CopiesSound(cl.files, j, c)
    && SlotsSound(cl.files, j, c, verified)
  }

  lemma IntactSized(files: Store, l: Loc, j: Job, c: Bytes)
    requires ValidJob(j) && Genuine(j, c) && l.name.Frag? && Intact(files, l, j.sc, c)
    ensures RightSize(files, l, j.sc)
  {
    PieceSize(j.sc.scheme, c, l.name.index);
  }

  lemma HomeSized(files: Store, j: Job, c: Bytes)
    requires ValidJob(j) && Genuine(j, c) && HomeExcept(files, j, c, {})
    ensures Sized(files, j, {}, |j.Plan()|)
  {
    forall i: nat | i < |j.Plan()|
      ensures RightSize(files, Slot(j.Plan(), j.sc.gen, i), j.sc)
    {
      assert i !in {};
      IntactSized(files, Slot(j.Plan(), j.sc.gen, i), j, c);
    }
  }

  // ---- What each mutation may be ----

  /** The record on a target does not supersede `sc`. */
  predicate NotNewer(files: Store, at: DiskRef, sc: Sidecar) {
    var r := RecordAt(files, at);
    r.Some? ==> r.value.gen == sc.gen || !Supersedes(r.value, sc)
  }

  /** A replica file whose MD5 is the recorded checksum. */
  predicate Matches(files: Store, l: Loc, sc: Sidecar) {
    && l in files
    && files[l].Data?
    && files[l].payload.Replica?
    && Md5(files[l].payload.content) == sc.checksum
  }

  /** Mutations before the sweep: completing a record that is absent or strictly older,
      filling a home slot, dropping a home replica that fails its checksum (or, when
      streams may break, one whose stream broke). */
  predicate Benign(a: Act, j: Job, broken: bool)
    requires ValidJob(j)
  {
    match a
    case Write(before, l, blob) =>
      if l.name.Meta? then
        && l.at in j.Plan()
        && blob == Record(j.sc)
        && (RecordAt(before, l.at).Some? ==> Supersedes(j.sc, RecordAt(before, l.at).value))
      else
        IsSlot(j, l) && blob.Data?
    case Erase(before, l) =>
      && IsSlot(j, l)
      && l in before
      && l.name.index < FullReplicas(j.sc.scheme)
      && (broken || !Matches(before, l, j.sc))
  }

  /** A generation named by a listing, by the listing's number, and when. */
  datatype Sighting = Sighting(gen: string, time: nat, scan: nat)

  /** What a repairer knows of stray generations: when each was first sighted, the time, every
      sighting ever made and every listing they could come from. */
  datatype Notebook = Notebook(strays: map<string, nat>, clock: nat, sightings: set<Sighting>, scans: seq<Reading>)

  /** A sighting made between two moments: its listing was made between them too, and named a
      fragment of the generation. */
  ghost predicate Sighted(a: Notebook, b: Notebook, s: Sighting) {
    && s in b.sightings
    && a.clock <= s.time
    && |a.scans| <= s.scan < |b.scans|
    && Shows(b.scans[s.scan], s.gen)
  }

  /** The first sighting of a generation that counts in `b`: noted in `a` already, or made
      since. */
  ghost predicate FirstSighted(a: Notebook, b: Notebook, g: string, t: nat) {
    (g in a.strays && a.strays[g] == t) || exists k :: Sighted(a, b, Sighting(g, t, k))
  }

  /** Time goes on, and sightings and listings are only added. */
  ghost predicate Later(a: Notebook, b: Notebook) {
    a.clock <= b.clock && a.sightings <= b.sightings && a.scans <= b.scans
  }

  /** New sightings carry their time and come from new listings, and every note is an old one
      or a sighting made since. */
  ghost predicate Continues(a: Notebook, b: Notebook) {
    && Later(a, b)
    && (forall s :: s in b.sightings && s !in a.sightings ==> Sighted(a, b, s) && s.time <= b.clock)
    && (forall g :: g in b.strays ==> FirstSighted(a, b, g, b.strays[g]))
  }

  lemma FirstSightedLater(a: Notebook, b: Notebook, c: Notebook, g: string, t: nat)
    requires FirstSighted(a, b, g, t) && Later(b, c)
    ensures FirstSighted(a, c, g, t)
  {
    if !(g in a.strays && a.strays[g] == t) {
      var k :| Sighted(a, b, Sighting(g, t, k));
      assert Sighted(a, c, Sighting(g, t, k));
    }
  }

  lemma FirstSightedWider(a: Notebook, b: Notebook, c: Notebook, g: string, t: nat)
    requires Continues(a, b) && Later(b, c) && FirstSighted(b, c, g, t)
    ensures FirstSighted(a, c, g, t)
  {
    if g in b.strays && b.strays[g] == t {
      FirstSightedLater(a, b, c, g, t);
    } else {
      var k :| Sighted(b, c, Sighting(g, t, k));
      assert Sighted(a, c, Sighting(g, t, k));
    }
  }

  lemma ContinuesChain(a: Notebook, b: Notebook, c: Notebook)
    requires Continues(a, b) && Continues(b, c)
    ensures Continues(a, c)
  {
    forall g | g in c.strays
      ensures FirstSighted(a, c, g, c.strays[g])
    {
      FirstSightedWider(a, b, c, g, c.strays[g]);
    }
    forall s | s in c.sightings && s !in a.sightings
      ensures Sighted(a, c, s) && s.time <= c.clock
    {
      assert if s in b.sightings then Sighted(a, b, s) else Sighted(b, c, s);
    }
  }

  /** By the second moment the first sighting of the generation is at least the grace ago. */
  ghost predicate Judged(a: Notebook, b: Notebook, grace: nat, g: string) {
    exists t: nat :: FirstSighted(a, b, g, t) && t + grace <= b.clock
  }

  lemma JudgedWider(a: Notebook, b: Notebook, c: Notebook, d: Notebook, grace: nat, g: string)
    requires Continues(a, b) && Later(b, c) && Later(c, d) && Judged(b, c, grace, g)
    ensures Judged(a, d, grace, g)
  {
    var t: nat :| FirstSighted(b, c, g, t) && t + grace <= c.clock;
    FirstSightedWider(a, b, c, g, t);
    FirstSightedLater(a, c, d, g, t);
  }

  /** Where the sweep of a target began: the readings and the notes by then, and its listing. */
  datatype Stretch = Stretch(from: nat, notes: Notebook, scan: nat)

  /** What can justify a deletion between two moments: the readings made, and the notes. */
  datatype Evidence = Evidence(looks: seq<Reading>, from: nat, a: Notebook, b: Notebook, grace: nat)

  /** The second period contains the first. */
  ghost predicate Within(e: Evidence, f: Evidence) {
    && e.looks <= f.looks
    && f.from <= e.from
    && e.grace == f.grace
    && Continues(f.a, e.a)
    && Later(e.a, e.b)
    && Later(e.b, f.b)
  }

  /** Sweep deletions, with what justifies each: a record off the plan that is not newer, or
      whose target would not tell it; a misplaced copy; a fragment of a known generation, or
      of a stray that outlived the grace. */
  ghost predicate Swept(a: Act, j: Job, known: set<string>, e: Evidence)
    requires ValidJob(j)
  {
    && a.Erase?
    && !IsSlot(j, a.loc)
    && match a.loc.name
       case Meta =>
         && a.loc.at !in j.Plan()
         && (NotNewer(a.before, a.loc.at, j.sc) || Unanswered(e.looks, e.from, a.loc.at))
       case Unknown(_) => true
       case Frag(g, _) => g == j.sc.gen || g in known || Judged(e.a, e.b, e.grace, g)
  }

  lemma SweptWider(a: Act, j: Job, known: set<string>, e: Evidence, f: Evidence)
    requires ValidJob(j) && Swept(a, j, known, e) && Within(e, f)
    ensures Swept(a, j, known, f)
  {
    if a.loc.name.Meta? && Unanswered(e.looks, e.from, a.loc.at) {
      var k :| e.from <= k < |e.looks| && e.looks[k].at == a.loc.at && !e.looks[k].answered;
      assert f.looks[k] == e.looks[k];
    }
    if a.loc.name.Frag? && Judged(e.a, e.b, e.grace, a.loc.name.gen) {
      JudgedWider(f.a, e.a, e.b, f.b, e.grace, a.loc.name.gen);
    }
  }

  ghost predicate AllBenign(log: seq<Act>, from: nat, j: Job, broken: bool)
    requires ValidJob(j)
  {
    forall k :: from <= k < |log| ==> Benign(log[k], j, broken)
  }

  ghost predicate AllKeep(log: seq<Act>, from: nat, base: Store, j: Job, c: Bytes)
    requires ValidJob(j)
  {
    forall k :: from <= k < |log| ==> Keeps(base, After(log[k]), j, c)
  }

  /** Files other than records are the same. */
  ghost predicate SameFragments(a: Store, b: Store) {
    forall l: Loc :: l.name != Meta ==> (l in a <==> l in b) && (l in a ==> a[l] == b[l])
  }

  ghost predicate AllSameFragments(log: seq<Act>, from: nat, base: Store) {
    forall k :: from <= k < |log| ==> SameFragments(base, After(log[k]))
  }

  /** The current plan's target `i` holds a record of the authoritative generation. */
  predicate RecordedAt(files: Store, j: Job, i: nat)
    requires ValidJob(j) && i < |j.Plan()|
  {
    var r := RecordAt(files, j.Plan()[i]);
    r.Some? && r.value.gen == j.sc.gen
  }

  predicate Recorded(files: Store, j: Job, n: nat)
    requires ValidJob(j) && n <= |j.Plan()|
  {
    forall i: nat :: i < n ==> RecordedAt(files, j, i)
  }

  predicate NoneNewer(files: Store, j: Job, n: nat)
    requires ValidJob(j) && n <= |j.Plan()|
  {
    forall i: nat :: i < n ==> NotNewer(files, j.Plan()[i], j.sc)
  }

  /** Among the first `n` fragments, those outside `missing` are at home with the planned size. */
  ghost predicate Sized(files: Store, j: Job, missing: set<nat>, n: nat)
    requires ValidJob(j) && n <= |j.Plan()|
  {
    forall i: nat :: i < n && i !in missing ==> RightSize(files, Slot(j.Plan(), j.sc.gen, i), j.sc)
  }

  /** Every fragment outside `missing` is at home with the planned size. */
  ghost predicate Fits(files: Store, j: Job, missing: set<nat>)
    requires ValidJob(j)
  {
    Sized(files, j, missing, |j.Plan()|)
  }

  /** Some record names the job's generation, and the job's record dominates every record. */
  ghost predicate Leads(files: Store, sc: Sidecar) {
    && (exists at :: RecordAt(files, at).Some? && RecordAt(files, at).value.gen == sc.gen)
    && (forall at :: RecordAt(files, at).Some? ==> Dominates(sc, RecordAt(files, at).value))
  }

  /** The job's record is stored, dominates every record, and not every planned target holds
      another record of its generation. */
  ghost predicate Prevails(files: Store, j: Job)
    requires ValidJob(j)
  {
    && IsRecord(files, j.sc)
    && (forall at :: RecordAt(files, at).Some? ==> Dominates(j.sc, RecordAt(files, at).value))
    && exists i: nat :: i < |j.Plan()| && (RecordedAt(files, j, i) ==> RecordAt(files, j.Plan()[i]) == Some(j.sc))
  }

  lemma BenignPrevails(a: Act, j: Job, broken: bool)
    requires ValidJob(j) && Benign(a, j, broken) && Prevails(a.before, j)
    ensures Prevails(After(a), j)
  {
    SupersedesTotal(j.sc, j.sc);
    if a.loc.name.Meta? {
      var i :| 0 <= i < |j.Plan()| && j.Plan()[i] == a.loc.at;
      assert RecordAt(After(a), j.Plan()[i]) == Some(j.sc);
      assert forall at :: at != a.loc.at ==> RecordAt(After(a), at) == RecordAt(a.before, at);
    } else {
      assert forall at :: RecordAt(After(a), at) == RecordAt(a.before, at);
      assert forall i: nat :: i < |j.Plan()| ==> (RecordedAt(a.before, j, i) <==> RecordedAt(After(a), j, i));
    }
  }

  lemma SweptPrevails(a: Act, j: Job, known: set<string>, e: Evidence)
    requires ValidJob(j) && Swept(a, j, known, e) && Recorded(a.before, j, |j.Plan()|) && Prevails(a.before, j)
    ensures Prevails(After(a), j)
  {
    var i: nat :| i < |j.Plan()| && (RecordedAt(a.before, j, i) ==> RecordAt(a.before, j.Plan()[i]) == Some(j.sc));
    assert RecordedAt(a.before, j, i) && j.Plan()[i] in j.Plan();
    assert RecordAt(After(a), j.Plan()[i]) == Some(j.sc);
    assert forall at :: RecordAt(After(a), at) == RecordAt(a.before, at) || RecordAt(After(a), at) == None;
  }

  lemma BenignRecords(a: Act, j: Job, broken: bool)
    requires ValidJob(j) && Benign(a, j, broken)
    ensures Leads(a.before, j.sc) ==> Leads(After(a), j.sc)
    ensures Prevails(a.before, j) ==> Prevails(After(a), j)
    ensures Recorded(a.before, j, |j.Plan()|) ==> Recorded(After(a), j, |j.Plan()|)
  {
    if Prevails(a.before, j) { BenignPrevails(a, j, broken); }
    if a.loc.name.Meta? {
      assert RecordAt(After(a), a.loc.at) == Some(j.sc);
      SupersedesTotal(j.sc, j.sc);
      assert forall at :: at != a.loc.at ==> RecordAt(After(a), at) == RecordAt(a.before, at);
      assert forall i: nat :: i < |j.Plan()| && RecordedAt(a.before, j, i) ==> RecordedAt(After(a), j, i);
    } else {
      assert forall at :: RecordAt(After(a), at) == RecordAt(a.before, at);
      assert forall i: nat :: i < |j.Plan()| && RecordedAt(a.before, j, i) ==> RecordedAt(After(a), j, i);
    }
  }

  lemma SweptRecords(a: Act, j: Job, known: set<string>, e: Evidence)
    requires ValidJob(j) && Swept(a, j, known, e) && Recorded(a.before, j, |j.Plan()|)
    ensures Recorded(After(a), j, |j.Plan()|)
    ensures Leads(a.before, j.sc) ==> Leads(After(a), j.sc)
    ensures Prevails(a.before, j) ==> Prevails(After(a), j)
  {
    if Prevails(a.before, j) { SweptPrevails(a, j, known, e); }
    forall at | at in j.Plan()
      ensures RecordAt(After(a), at) == RecordAt(a.before, at)
    {
    }
    assert RecordedAt(a.before, j, 0) && RecordAt(After(a), j.Plan()[0]) == RecordAt(a.before, j.Plan()[0]);
    assert forall at :: RecordAt(After(a), at) == RecordAt(a.before, at) || RecordAt(After(a), at) == None;
    assert forall i: nat :: i < |j.Plan()| ==> j.Plan()[i] in j.Plan() && RecordedAt(a.before, j, i);
  }

  /** What holds of the records at every state of a pass. */
  ghost predicate RecordsKept(files: Store, j: Job, leads: bool, prevails: bool, recorded: bool)
    requires ValidJob(j)
  {
    && (leads ==> Leads(files, j.sc))
    && (prevails ==> Prevails(files, j))
    && (recorded ==> Recorded(files, j, |j.Plan()|))
  }

  ghost predicate AllRecordsKept(log: seq<Act>, from: nat, j: Job, leads: bool, prevails: bool, recorded: bool)
    requires ValidJob(j)
  {
    forall k :: from <= k < |log| ==> RecordsKept(After(log[k]), j, leads, prevails, recorded)
  }

  lemma BenignAlong(log: seq<Act>, start: Store, files: Store, from: nat, j: Job, broken: bool, leads: bool,
                    prevails: bool, recorded: bool)
    requires ValidJob(j) && Chain(log, start, files) && from <= |log| && AllBenign(log, from, j, broken)
    requires RecordsKept(StateAt(log, start, from), j, leads, prevails, recorded)
    ensures RecordsKept(files, j, leads, prevails, recorded) && AllRecordsKept(log, from, j, leads, prevails, recorded)
  {
    var p := (f: Store) => RecordsKept(f, j, leads, prevails, recorded);
    forall k | from <= k < |log| && p(log[k].before)
      ensures p(After(log[k]))
    {
      BenignRecords(log[k], j, broken);
    }
    Along(log, start, files, p, from, |log|);
  }

  lemma SweptAlong(log: seq<Act>, start: Store, files: Store, from: nat, j: Job, known: set<string>, e: Evidence,
                   leads: bool, prevails: bool)
    requires ValidJob(j) && Chain(log, start, files) && from <= |log| && AllSwept(log, from, j, known, e)
    requires RecordsKept(StateAt(log, start, from), j, leads, prevails, true)
    ensures RecordsKept(files, j, leads, prevails, true) && AllRecordsKept(log, from, j, leads, prevails, true)
  {
    var p := (f: Store) => RecordsKept(f, j, leads, prevails, true);
    forall k | from <= k < |log| && p(log[k].before)
      ensures p(After(log[k]))
    {
      SweptRecords(log[k], j, known, e);
    }
    Along(log, start, files, p, from, |log|);
  }

  lemma RecordsJoin(log: seq<Act>, more: seq<Act>, from: nat, j: Job, leads: bool, prevails: bool, alsoLeads: bool,
                    alsoPrevails: bool)
    requires ValidJob(j) && from <= |log| && log <= more && (leads ==> alsoLeads) && (prevails ==> alsoPrevails)
    requires AllRecordsKept(log, from, j, leads, prevails, false)
    requires AllRecordsKept(more, |log|, j, alsoLeads, alsoPrevails, true)
    ensures AllRecordsKept(more, from, j, leads, prevails, false)
  {
    forall k | from <= k < |more|
      ensures RecordsKept(After(more[k]), j, leads, prevails, false)
    {
      if k < |log| { assert more[k] == log[k]; }
    }
  }

  /** No fragment of the set is at home with the planned size. */
  ghost predicate NoneSized(files: Store, j: Job, missing: set<nat>)
    requires ValidJob(j) && forall i :: i in missing ==> i < Copies(j.sc.scheme)
  {
    forall i :: i in missing ==> !RightSize(files, Slot(j.Plan(), j.sc.gen, i), j.sc)
  }

  /** The store after the first `n` targets got their records completed. */
  function Surveyed(files: Store, j: Job, n: nat): Store
    requires ValidJob(j) && n <= |j.Plan()|
  {
    if n == 0 then files
    else
      var f := Surveyed(files, j, n - 1);
      if RecordedAt(f, j, n - 1) then f else f[Loc(j.Plan()[n - 1], Meta) := Record(j.sc)]
  }

  lemma {:induction false} SurveyedFacts(files: Store, j: Job, n: nat)
    requires ValidJob(j) && n <= |j.Plan()|
    ensures SameFragments(files, Surveyed(files, j, n))
    ensures Recorded(Surveyed(files, j, n), j, n)
    ensures Recorded(files, j, |j.Plan()|) ==> Surveyed(files, j, n) == files
    ensures forall at :: NotNewer(files, at, j.sc) ==> NotNewer(Surveyed(files, j, n), at, j.sc)
  {
    if n > 0 {
      SurveyedFacts(files, j, n - 1);
      var f := Surveyed(files, j, n - 1);
      assert forall i: nat :: i < n - 1 && RecordedAt(f, j, i) ==> RecordedAt(Surveyed(files, j, n), j, i);
    }
  }

  /** The survey of a quiet store so far; `asked` says that every target answers. */
  ghost predicate SurveyedTo(base: Store, files: Store, log: seq<Act>, from: nat, j: Job, missing: set<nat>, n: nat,
                             asked: bool)
    requires ValidJob(j) && n <= |j.Plan()|
  {
    && AllSameFragments(log, from, base)
    && files == Surveyed(base, j, n)
    && Sized(base, j, missing, n)
    && (Recorded(base, j, |j.Plan()|) ==> |log| == from)
    && (forall i :: i in missing ==> i < n)
    && (asked ==> NoneSized(base, j, missing))
  }

  lemma SurveyAdvance(base: Store, was: Store, now: Store, log: seq<Act>, more: seq<Act>, from: nat, j: Job,
                      missing: set<nat>, i: nat, present: bool, asked: bool)
    requires ValidJob(j) && i < |j.Plan()| && SurveyedTo(base, was, log, from, j, missing, i, asked) && from <= |log|
    requires RecordedAt(was, j, i) ==> now == was && more == log
    requires !RecordedAt(was, j, i) ==>
      var l := Loc(j.Plan()[i], Meta); now == was[l := Record(j.sc)] && more == log + [Write(was, l, Record(j.sc))]
    requires present ==> RightSize(now, Slot(j.Plan(), j.sc.gen, i), j.sc)
    requires asked && RightSize(now, Slot(j.Plan(), j.sc.gen, i), j.sc) ==> present
    ensures SurveyedTo(base, now, more, from, j, if present then missing else missing + {i}, i + 1, asked)
  {
    SurveyedFacts(base, j, i);
    SurveyedFacts(base, j, i + 1);
    forall k | from <= k < |more|
      ensures SameFragments(base, After(more[k]))
    {
      if k < |log| { assert more[k] == log[k]; }
    }
    if Recorded(base, j, |j.Plan()|) { assert RecordedAt(base, j, i); }
    assert RightSize(now, Slot(j.Plan(), j.sc.gen, i), j.sc) <==> RightSize(base, Slot(j.Plan(), j.sc.gen, i), j.sc);
  }

  lemma SameFragmentsKeep(base: Store, a: Store, b: Store, j: Job, c: Bytes)
    requires ValidJob(j) && SameFragments(a, b) && Keeps(base, a, j, c)
    ensures Keeps(base, b, j, c)
  {
    forall i: nat | i < Copies(j.sc.scheme) && Held(base, j, c, i)
      ensures Held(b, j, c, i)
    {
      var p :| 0 <= p < |j.plans| && Intact(a, Slot(j.plans[p], j.sc.gen, i), j.sc, c);
      assert Intact(b, Slot(j.plans[p], j.sc.gen, i), j.sc, c);
    }
  }

  /** Filling a home slot with its piece loses nothing. */
  lemma FillKeeps(base: Store, files: Store, j: Job, c: Bytes, i: nat)
    requires ValidJob(j) && i < Copies(j.sc.scheme) && Keeps(base, files, j, c)
    ensures Keeps(base, files[Slot(j.Plan(), j.sc.gen, i) := Data(Piece(j.sc.scheme, c, i))], j, c)
  {
    var after := files[Slot(j.Plan(), j.sc.gen, i) := Data(Piece(j.sc.scheme, c, i))];
    forall n: nat | n < Copies(j.sc.scheme) && Held(base, j, c, n)
      ensures Held(after, j, c, n)
    {
      var p :| 0 <= p < |j.plans| && Intact(files, Slot(j.plans[p], j.sc.gen, n), j.sc, c);
      assert Intact(after, Slot(j.plans[p], j.sc.gen, n), j.sc, c);
    }
  }

  lemma FillSound(files: Store, j: Job, c: Bytes, missing: set<nat>, i: nat)
    requires ValidJob(j) && i < Copies(j.sc.scheme) && CopiesSound(files, j, c) && HomeExcept(files, j, c, missing)
    ensures var now := files[Slot(j.Plan(), j.sc.gen, i) := Data(Piece(j.sc.scheme, c, i))];
      CopiesSound(now, j, c) && HomeExcept(now, j, c, missing - {i})
  {
    var now := files[Slot(j.Plan(), j.sc.gen, i) := Data(Piece(j.sc.scheme, c, i))];
    forall n: nat | n < Copies(j.sc.scheme) && n !in missing - {i}
      ensures Intact(now, Slot(j.Plan(), j.sc.gen, n), j.sc, c)
    {
      if n != i { assert Intact(files, Slot(j.Plan(), j.sc.gen, n), j.sc, c); }
    }
  }

  /** What a stretch of refills did: benign steps only and, from a sane store, nothing openable
      lost and nothing but home slots changed. */
  ghost predicate FillLog(log: seq<Act>, from: nat, files: Store, was: Store, j: Job, c: Bytes, base: Store,
                          sane: bool, broken: bool)
    requires ValidJob(j)
  {
    && AllBenign(log, from, j, broken)
    && (sane ==> AllKeep(log, from, base, j, c) && OnlySlots(was, files, j))
  }

  lemma FillLogMore(log: seq<Act>, from: nat, files: Store, was: Store, j: Job, i: nat, p: Payload, c: Bytes,
                    base: Store, sane: bool, broken: bool)
    requires ValidJob(j) && i < |j.Plan()| && FillLog(log, from, files, was, j, c, base, sane, broken)
    requires sane ==> Keeps(base, files[Slot(j.Plan(), j.sc.gen, i) := Data(p)], j, c)
    ensures var l := Slot(j.Plan(), j.sc.gen, i);
      FillLog(log + [Write(files, l, Data(p))], from, files[l := Data(p)], was, j, c, base, sane, broken)
  {
    var l := Slot(j.Plan(), j.sc.gen, i);
    var more := log + [Write(files, l, Data(p))];
    forall k | from <= k < |more|
      ensures Benign(more[k], j, broken) && (sane ==> Keeps(base, After(more[k]), j, c))
    {
      if k < |log| { assert more[k] == log[k]; }
    }
  }

  /** Two stretches of repair steps, one after the other. */
  lemma StepsJoin(log: seq<Act>, more: seq<Act>, from: nat, j: Job, c: Bytes, base: Store, sane: bool, broken: bool)
    requires ValidJob(j) && from <= |log| && log <= more
    requires AllBenign(log, from, j, broken) && AllBenign(more, |log|, j, broken)
    requires sane ==> AllKeep(log, from, base, j, c) && AllKeep(more, |log|, base, j, c)
    ensures AllBenign(more, from, j, broken) && (sane ==> AllKeep(more, from, base, j, c))
  {
    forall k | from <= k < |more|
      ensures Benign(more[k], j, broken) && (sane ==> Keeps(base, After(more[k]), j, c))
    {
      if k < |log| { assert more[k] == log[k]; }
    }
  }

  /** Removing a file that is not its piece of the content loses nothing. */
  lemma DropKeeps(base: Store, files: Store, j: Job, c: Bytes, l: Loc)
    requires ValidJob(j) && Keeps(base, files, j, c)
    requires l.name.Frag? && l.name.gen == j.sc.gen && !Intact(files, l, j.sc, c)
    ensures Keeps(base, files - {l}, j, c)
  {
    forall n: nat | n < Copies(j.sc.scheme) && Held(base, j, c, n)
      ensures Held(files - {l}, j, c, n)
    {
      var p :| 0 <= p < |j.plans| && Intact(files, Slot(j.plans[p], j.sc.gen, n), j.sc, c);
      assert Intact(files - {l}, Slot(j.plans[p], j.sc.gen, n), j.sc, c);
    }
  }

  /** With every home slot intact, every fragment can be opened. */
  lemma HomeKeeps(base: Store, files: Store, j: Job, c: Bytes)
    requires ValidJob(j) && HomeExcept(files, j, c, {})
    ensures Keeps(base, files, j, c)
  {
    forall i: nat | i < Copies(j.sc.scheme)
      ensures Held(files, j, c, i)
    {
      assert Intact(files, Slot(j.Plan(), j.sc.gen, i), j.sc, c);
    }
  }

  /** The record describes content `c`. */
  ghost predicate Genuine(j: Job, c: Bytes) {
    |c| == j.sc.size && (j.sc.checksum == NoDigest || j.sc.checksum == Md5(c))
  }

  /** Only home slots differ. */
  ghost predicate OnlySlots(a: Store, b: Store, j: Job)
    requires ValidJob(j)
  {
    forall l: Loc :: !IsSlot(j, l) ==> (l in a <==> l in b) && (l in a ==> a[l] == b[l])
  }

  /** What a stage keeps in a quiet cluster: copies are sound, everything outside `missing`
      is intact at home, nothing openable in `base` is lost. */
  ghost predicate Sane(cl: Cluster, j: Job, c: Bytes, base: Store, missing: set<nat>)
    requires ValidJob(j)
    reads cl`files
  {
    && cl.quiet
    && cl.complete
    && Genuine(j, c)
    && CopiesSound(cl.files, j, c)
    && HomeExcept(cl.files, j, c, missing)
    && Keeps(base, cl.files, j, c)
  }

  /** No answering source away from home has a usable copy of fragment `i`. */
  ghost predicate Exhausted(files: Store, up: set<DiskRef>, j: Job, i: nat, sources: seq<DiskRef>)
    requires ValidJob(j) && i < Copies(j.sc.scheme)
  {
    forall src :: src in sources && src in up && j.Plan()[i] in up && src != j.Plan()[i]
      ==> !RightSize(files, Loc(src, Frag(j.sc.gen, i)), j.sc)
  }

  ghost predicate AllExhausted(files: Store, up: set<DiskRef>, j: Job, done: set<nat>, sources: map<nat, seq<DiskRef>>)
    requires ValidJob(j) && forall i :: i in done ==> i < Copies(j.sc.scheme)
  {
    forall i :: i in done && i in sources ==> Exhausted(files, up, j, i, sources[i])
  }

  /** Only one home slot differs. */
  ghost predicate OnlySlot(was: Store, now: Store, j: Job, i: nat)
    requires ValidJob(j) && i < Copies(j.sc.scheme)
  {
    forall l :: l != Slot(j.Plan(), j.sc.gen, i) ==> (l in now <==> l in was) && (l in now ==> now[l] == was[l])
  }

  /** Filling one slot tells nothing new about the other fragments. */
  lemma RestoreFrame(was: Store, now: Store, up: set<DiskRef>, j: Job, c: Bytes, i: nat, done: set<nat>,
                     missing: set<nat>, sources: map<nat, seq<DiskRef>>)
    requires ValidJob(j) && i < Copies(j.sc.scheme) && OnlySlot(was, now, j, i) && i !in done
    requires forall n :: n in done || n in missing ==> n < Copies(j.sc.scheme)
    ensures AllExhausted(was, up, j, done, sources) ==> AllExhausted(now, up, j, done, sources)
    ensures AllLost(was, j, c, missing) ==> AllLost(now, j, c, missing - {i})
  {
    if AllExhausted(was, up, j, done, sources) {
      forall n | n in done && n in sources
        ensures Exhausted(now, up, j, n, sources[n])
      {
        assert Exhausted(was, up, j, n, sources[n]);
      }
    }
  }

  /** What a sweep leaves alone on a target: its record and its own fragment. */
  predicate Keepable(j: Job, at: DiskRef, n: Name)
    requires ValidJob(j)
  {
    (n == Meta && at in j.Plan()) || IsSlot(j, Loc(at, n))
  }

  /** A fragment no committed record is known to name: maybe a write that is still racing. */
  predicate Unattributed(j: Job, known: set<string>, n: Name) {
    n.Frag? && n.gen != j.sc.gen && n.gen !in known
  }

  /** What the sweep did with a listed name. */
  datatype Fate = Kept | Spared | Refused | Gone

  /** How far the sweep of one target is: names still to visit, and of those visited the ones
      spared as unattributed and the ones whose deletion was refused. */
  datatype Sparing = Sparing(todo: set<Name>, spared: set<Name>, refused: set<Name>)

  /** The store with everything gone from the target but its keep-set and what was spared,
      refused or not yet visited. */
  function SparedStore(base: Store, j: Job, at: DiskRef, s: Sparing): Store
    requires ValidJob(j)
  {
    map l | l in base && (l.at != at || Keepable(j, at, l.name) || l.name in s.todo + s.spared + s.refused) :: base[l]
  }

  /** Only unattributed names are spared, and only a target that may fail refuses. */
  ghost predicate ProperSparing(s: Sparing, j: Job, known: set<string>, at: DiskRef, up: set<DiskRef>) {
    && (forall n :: n in s.spared ==> Unattributed(j, known, n))
    && (s.refused != {} ==> at !in up)
    && s.todo !! s.spared + s.refused
  }

  /** One more name was visited. */
  ghost predicate Spares(was: Sparing, now: Sparing, n: Name, j: Job, known: set<string>, at: DiskRef,
                         up: set<DiskRef>) {
    && now.todo == was.todo - {n}
    && (now.spared == was.spared || (now.spared == was.spared + {n} && Unattributed(j, known, n)))
    && (now.refused == was.refused || (now.refused == was.refused + {n} && at !in up))
  }

  lemma SparedStart(base: Store, j: Job, at: DiskRef)
    requires ValidJob(j)
    ensures SparedStore(base, j, at, Sparing(NamesAt(base, at), {}, {})) == base
  {
    assert forall l :: l in base && l.at == at ==> l.name in NamesAt(base, at);
  }

  lemma SparedNames(base: Store, j: Job, at: DiskRef, s: Sparing, n: Name)
    requires ValidJob(j) && n in s.todo && n in NamesAt(base, at)
    ensures Loc(at, n) in SparedStore(base, j, at, s)
    ensures RecordAt(SparedStore(base, j, at, s), at) == RecordAt(base, at) ||
      RecordAt(SparedStore(base, j, at, s), at) == None
  {
  }

  lemma SparedStep(base: Store, j: Job, at: DiskRef, was: Sparing, now: Sparing, n: Name, fate: Fate)
    requires ValidJob(j) && n in was.todo && was.todo <= NamesAt(base, at)
    requires now == Sparing(was.todo - {n}, was.spared + (if fate.Spared? then {n} else {}),
      was.refused + if fate.Refused? then {n} else {})
    requires fate.Kept? <==> Keepable(j, at, n)
    requires fate.Gone? ==> n !in was.spared + was.refused
    ensures SparedStore(base, j, at, now) == if fate.Gone? then SparedStore(base, j, at, was) - {Loc(at, n)}
      else SparedStore(base, j, at, was)
    ensures Trims(base, SparedStore(base, j, at, now), j)
  {
  }

  /** How a target answered its sweep. */
  datatype Answers = Answers(dialed: bool, read: bool, listed: bool, spared: set<Name>, refused: set<Name>)

  /** The fence was passed and the names were listed. */
  predicate Opened(files: Store, j: Job, at: DiskRef, ans: Answers) {
    ans.dialed && ans.listed && !(ans.read && !NotNewer(files, at, j.sc))
  }

  /** What the sweep of one target leaves, for the answers it got. */
  function SweptStore(files: Store, j: Job, at: DiskRef, ans: Answers): Store
    requires ValidJob(j)
  {
    if Opened(files, j, at, ans) then SparedStore(files, j, at, Sparing({}, ans.spared, ans.refused)) else files
  }

  ghost predicate ProperAnswers(ans: Answers, j: Job, known: set<string>, at: DiskRef, up: set<DiskRef>) {
    && ProperSparing(Sparing({}, ans.spared, ans.refused), j, known, at, up)
    && (at in up ==> ans.dialed && ans.read && ans.listed)
  }

  lemma SparedNothing(files: Store, j: Job, at: DiskRef, ans: Answers)
    requires ValidJob(j) && !Opened(files, j, at, ans)
    ensures SweptStore(files, j, at, ans) == files
  {
  }

  /** A superseding record off the plan survives the sweep of its target, except exactly when
      the target failed to tell it but answered the listing and the deletion. */
  lemma FenceIff(files: Store, j: Job, known: set<string>, at: DiskRef, up: set<DiskRef>, ans: Answers)
    requires ValidJob(j) && at !in j.Plan() && !NotNewer(files, at, j.sc) && ProperAnswers(ans, j, known, at, up)
    ensures RecordAt(SweptStore(files, j, at, ans), at) == RecordAt(files, at)
      <==> !(ans.dialed && !ans.read && ans.listed && Meta !in ans.refused)
  {
    assert Meta !in ans.spared;
    assert !Keepable(j, at, Meta);
  }

  /** The sweep only compares generations. The one copy of the authoritative record, off the
      plan, survives the sweep of its target except exactly when that is dialed and answers
      the listing and the deletion, whatever records of its generation the plan holds. */
  lemma LastCopyIff(files: Store, j: Job, known: set<string>, at: DiskRef, up: set<DiskRef>, ans: Answers)
    requires ValidJob(j) && at !in j.Plan() && RecordAt(files, at) == Some(j.sc) && ProperAnswers(ans, j, known, at, up)
    requires forall x :: x != at ==> RecordAt(files, x) != Some(j.sc)
    ensures IsRecord(SweptStore(files, j, at, ans), j.sc) <==> !(ans.dialed && ans.listed && Meta !in ans.refused)
  {
    var now := SweptStore(files, j, at, ans);
    assert Meta !in ans.spared && !Keepable(j, at, Meta);
    assert forall x :: x != at ==> RecordAt(now, x) == RecordAt(files, x);
    if RecordAt(now, at) == Some(j.sc) { assert IsRecord(now, j.sc); }
  }

  /** Three planned targets with the same record and their fragments of the generation, and an
      old target with another record. */
  function Homes(layout: Layout, at: DiskRef, sc: Sidecar, c: Bytes, off: Sidecar): Store
    requires |layout| == 3
  {
    var meta, piece := Record(sc), Data(Replica(c));
    map[Loc(layout[0], Meta) := meta, Loc(layout[1], Meta) := meta, Loc(layout[2], Meta) := meta,
        Slot(layout, sc.gen, 0) := piece, Slot(layout, sc.gen, 1) := piece, Slot(layout, sc.gen, 2) := piece,
        Loc(at, Meta) := Record(off)]
  }

  /** A pass finds nothing to heal there, so it goes on to the sweep. */
  lemma HomesWhole(layout: Layout, at: DiskRef, sc: Sidecar, c: Bytes, off: Sidecar, j: Job)
    requires ValidJob(j) && j.plans == [layout] && j.sc.scheme == RF3 && |layout| == 3 && at !in layout
    requires j.sc.gen == sc.gen && |c| == j.sc.size
    ensures Recorded(Homes(layout, at, sc, c, off), j, 3) && Fits(Homes(layout, at, sc, c, off), j, {})
    ensures forall x :: x != at ==> RecordAt(Homes(layout, at, sc, c, off), x) == if x in layout then Some(sc) else None
    ensures RecordAt(Homes(layout, at, sc, c, off), at) == Some(off)
  {
    var files := Homes(layout, at, sc, c, off);
    assert forall i: nat :: i < 3 ==> RecordAt(files, layout[i]) == Some(sc);
    assert forall i: nat :: i < 3 ==> RecordedAt(files, j, i);
    assert forall i: nat :: i < 3 ==> RightSize(files, Slot(layout, sc.gen, i), j.sc);
  }

  /** Such a case: an update of attributes reached the planned targets, an old one has the
      record as it was, and no fragment is missing. The record on the old target is swept, and
      with it the last copy of what the pass goes by; a record of its generation stays. */
  lemma LastCopySwept(layout: Layout, at: DiskRef, sc: Sidecar, c: Bytes, attrs: string)
    requires sc.scheme == RF3 && ValidLayout(layout, RF3) && at !in layout && |c| == sc.size && attrs != sc.attrs
    ensures var j, files := Job(sc, [layout]), Homes(layout, at, sc.(attrs := attrs), c, sc);
      var ans := Answers(true, true, true, {}, {});
      && ValidJob(j) && ProperAnswers(ans, j, {}, at, {at})
      && Leads(files, sc) && IsRecord(files, sc) && Recorded(files, j, 3) && Fits(files, j, {})
      && !IsRecord(SweptStore(files, j, at, ans), sc)
  {
    var j, files := Job(sc, [layout]), Homes(layout, at, sc.(attrs := attrs), c, sc);
    SupersedesTotal(sc, sc);
    HomesWhole(layout, at, sc.(attrs := attrs), c, sc, j);
    LastCopyIff(files, j, {}, at, {at}, Answers(true, true, true, {}, {}));
  }

  /** Such a case: the planned targets hold all that the pass's record asks for, and the newest
      record anywhere is on an old target that fails one read. */
  lemma FenceFails(layout: Layout, at: DiskRef, sc: Sidecar, c: Bytes, newer: Sidecar)
    requires sc.scheme == RF3 && ValidLayout(layout, RF3) && at !in layout && |c| == sc.size
    requires newer.gen != sc.gen && Supersedes(newer, sc)
    ensures var j, files := Job(sc, [layout]), Homes(layout, at, sc, c, newer);
      var ans := Answers(true, false, true, {}, {});
      && ValidJob(j) && ProperAnswers(ans, j, {}, at, {})
      && Recorded(files, j, 3) && Fits(files, j, {})
      && IsRecord(files, newer) && Leads(files, newer)
      && !IsRecord(SweptStore(files, j, at, ans), newer)
  {
    var j, files := Job(sc, [layout]), Homes(layout, at, sc, c, newer);
    var ans := Answers(true, false, true, {}, {});
    HomesWhole(layout, at, sc, c, newer, j);
    SupersedesTotal(newer, sc);
    SupersedesTotal(newer, newer);
    assert RecordAt(files, at) == Some(newer);
    FenceIff(files, j, {}, at, {}, ans);
    var now := SweptStore(files, j, at, ans);
    assert forall x :: x != at ==> RecordAt(now, x) == RecordAt(files, x);
  }

  /** Files were only deleted, and none of the keep-sets among them. */
  ghost predicate Trims(was: Store, now: Store, j: Job)
    requires ValidJob(j)
  {
    && (forall l :: l in now ==> l in was && now[l] == was[l])
    && (forall l :: l in was && Keepable(j, l.at, l.name) ==> l in now)
  }

  ghost predicate AllSwept(log: seq<Act>, from: nat, j: Job, known: set<string>, e: Evidence)
    requires ValidJob(j)
  {
    forall k :: from <= k < |log| ==> Swept(log[k], j, known, e)
  }

  /** Two stretches of a sweep, one after the other. */
  lemma SweptOn(log: seq<Act>, more: seq<Act>, from: nat, j: Job, known: set<string>, e: Evidence, f: Evidence,
                g: Evidence)
    requires ValidJob(j) && from <= |log| && log <= more
    requires AllSwept(log, from, j, known, e) && AllSwept(more, |log|, j, known, f) && Within(e, g) && Within(f, g)
    ensures AllSwept(more, from, j, known, g)
  {
    forall k | from <= k < |more|
      ensures Swept(more[k], j, known, g)
    {
      if k < |log| { SweptWider(log[k], j, known, e, g); } else { SweptWider(more[k], j, known, f, g); }
    }
  }

  ghost predicate AllTrim(log: seq<Act>, from: nat, was: Store, j: Job)
    requires ValidJob(j)
  {
    forall k :: from <= k < |log| ==> Trims(was, After(log[k]), j)
  }

  function NamesAt(files: Store, at: DiskRef): set<Name> {
    set l | l in files && l.at == at :: l.name
  }

  ghost predicate AllUp(cl: Cluster, layout: Layout) {
    forall i :: 0 <= i < |layout| ==> layout[i] in cl.up
  }

  /** The targets hold nothing but their keep-sets. */
  ghost predicate AllKeepable(files: Store, j: Job, targets: set<DiskRef>)
    requires ValidJob(j)
  {
    forall l :: l in files && l.at in targets ==> Keepable(j, l.at, l.name)
  }

  /** Answering targets hold their keep-set and fragments of unattributed generations only. */
  ghost predicate Clean(files: Store, up: set<DiskRef>, j: Job, known: set<string>, targets: set<DiskRef>)
    requires ValidJob(j)
  {
    forall l :: l in files && l.at in targets && l.at in up ==>
      Keepable(j, l.at, l.name) || Unattributed(j, known, l.name)
  }

  /** Sweeping one more target. */
  lemma SweepFrame(gated: Store, was: Store, j: Job, known: set<string>, at: DiskRef, ans: Answers, up: set<DiskRef>,
                   done: set<DiskRef>)
    requires ValidJob(j) && Trims(gated, was, j) && Clean(was, up, j, known, done)
    requires ProperAnswers(ans, j, known, at, up)
    ensures Trims(gated, SweptStore(was, j, at, ans), j)
    ensures at !in up || NotNewer(was, at, j.sc) ==> Clean(SweptStore(was, j, at, ans), up, j, known, done + {at})
  {
  }

  /** The evidence of two stretches of a sweep, one after the other. */
  lemma EvidenceOn(a: Notebook, b: Notebook, c: Notebook, looks0: seq<Reading>, looks1: seq<Reading>,
                   looks2: seq<Reading>, grace: nat,
                   log: seq<Act>, more: seq<Act>, from: nat, j: Job, known: set<string>)
    requires ValidJob(j) && from <= |log| && log <= more && looks0 <= looks1 <= looks2 && Continues(a, b)
    requires Continues(b, c)
    requires AllSwept(log, from, j, known, Evidence(looks1, |looks0|, a, b, grace))
    requires AllSwept(more, |log|, j, known, Evidence(looks2, |looks1|, b, c, grace))
    ensures Continues(a, c)
    ensures AllSwept(more, from, j, known, Evidence(looks2, |looks0|, a, c, grace))
  {
    ContinuesChain(a, b, c);
    ContinuesSelf(a);
    ContinuesSelf(c);
    SweptOn(log, more, from, j, known, Evidence(looks1, |looks0|, a, b, grace), Evidence(looks2, |looks1|, b, c, grace),
            Evidence(looks2, |looks0|, a, c, grace));
  }

  /** Time goes on and names are listed. */
  lemma NotesAge(a: Notebook, b: Notebook, c: Notebook)
    requires Continues(a, b) && Later(b, c) && c == b.(clock := c.clock, scans := c.scans)
    ensures Continues(a, c)
  {
    forall g | g in c.strays
      ensures FirstSighted(a, c, g, c.strays[g])
    {
      FirstSightedLater(a, b, c, g, c.strays[g]);
    }
    assert forall s :: s in b.sightings && s !in a.sightings ==> Sighted(a, b, s);
  }

  /** And a generation that a listing named is noted. */
  lemma NotesGrow(a: Notebook, b: Notebook, c: Notebook, g: string, k: nat)
    requires Continues(a, b) && b.clock <= c.clock && |a.scans| <= k < |b.scans| && Shows(b.scans[k], g)
    requires c == Notebook(b.strays[g := c.clock], c.clock, b.sightings + {Sighting(g, c.clock, k)}, b.scans)
    ensures Continues(a, c)
  {
    NotesAge(a, b, b.(clock := c.clock));
    assert Sighted(a, c, Sighting(g, c.clock, k));
    forall x | x in c.strays
      ensures FirstSighted(a, c, x, c.strays[x])
    {
      if x != g { FirstSightedLater(a, b, c, x, c.strays[x]); }
    }
    assert forall s :: s in b.sightings && s !in a.sightings ==> Sighted(a, b, s);
  }

  lemma ContinuesSelf(a: Notebook)
    ensures Continues(a, a)
  {
  }

  /** Deleting files makes no record newer. */
  lemma TrimsNotNewer(gated: Store, files: Store, j: Job, at: DiskRef)
    requires ValidJob(j) && Trims(gated, files, j)
    ensures NotNewer(gated, at, j.sc) ==> NotNewer(files, at, j.sc)
  {
  }

  lemma TrimOn(log: seq<Act>, more: seq<Act>, from: nat, gated: Store, j: Job)
    requires ValidJob(j) && log <= more && AllTrim(log, from, gated, j) && AllTrim(more, |log|, gated, j)
    ensures AllTrim(more, from, gated, j)
  {
    forall k | from <= k < |more|
      ensures Trims(gated, After(more[k]), j)
    {
      if k < |log| { assert more[k] == log[k]; }
    }
  }

  lemma TrimsChain(gated: Store, was: Store, j: Job, log: seq<Act>, from: nat)
    requires ValidJob(j) && Trims(gated, was, j) && AllTrim(log, from, was, j)
    ensures AllTrim(log, from, gated, j)
  {
    forall k | from <= k < |log|
      ensures Trims(gated, After(log[k]), j)
    {
      assert Trims(was, After(log[k]), j);
    }
  }

  /** Once every home slot is in place, deleting elsewhere loses nothing. */
  lemma TrimKeeps(log: seq<Act>, from: nat, base: Store, gated: Store, j: Job, c: Bytes)
    requires ValidJob(j) && AllTrim(log, from, gated, j)
    requires Sized(gated, j, {}, |j.Plan()|) && SlotsSound(gated, j, c, 0)
    ensures AllKeep(log, from, base, j, c)
  {
    forall k | from <= k < |log|
      ensures Keeps(base, After(log[k]), j, c)
    {
      forall i: nat | i < Copies(j.sc.scheme)
        ensures Intact(After(log[k]), Slot(j.Plan(), j.sc.gen, i), j.sc, c)
      {
        assert i !in {};
        assert RightSize(gated, Slot(j.Plan(), j.sc.gen, i), j.sc);
        assert Keepable(j, j.Plan()[i], Frag(j.sc.gen, i));
      }
      HomeKeeps(base, After(log[k]), j, c);
    }
  }

  lemma SurveyFits(base: Store, now: Store, j: Job, missing: set<nat>)
    requires ValidJob(j) && SameFragments(base, now) && Fits(base, j, missing)
    ensures Fits(now, j, missing)
  {
    forall i: nat | i < |j.Plan()| && i !in missing
      ensures RightSize(now, Slot(j.Plan(), j.sc.gen, i), j.sc)
    {
      assert RightSize(base, Slot(j.Plan(), j.sc.gen, i), j.sc);
    }
  }

  lemma SurveyKeeps(base: Store, now: Store, log: seq<Act>, from: nat, j: Job, c: Bytes)
    requires ValidJob(j) && SameFragments(base, now) && AllSameFragments(log, from, base)
    ensures Keeps(base, now, j, c) && AllKeep(log, from, base, j, c)
  {
    SameFragmentsKeep(base, base, now, j, c);
    forall k | from <= k < |log|
      ensures Keeps(base, After(log[k]), j, c)
    {
      SameFragmentsKeep(base, base, After(log[k]), j, c);
    }
  }

  /** After the survey, what it did not report missing has passed the first check. */
  lemma SurveyChecked(base: Store, now: Store, j: Job, c: Bytes, missing: set<nat>, verified: nat)
    requires ValidJob(j) && SameFragments(base, now)
    requires Sized(base, j, missing, |j.Plan()|) && SlotsSound(base, j, c, verified) && CopiesSound(base, j, c)
    ensures Checked(now, j, c, missing, 0, verified) && CopiesSound(now, j, c)
  {
    forall x: nat | x < Copies(j.sc.scheme) && x !in missing
      ensures RightSize(now, Slot(j.Plan(), j.sc.gen, x), j.sc)
      ensures (x < verified || Intact(now, Slot(j.Plan(), j.sc.gen, x), j.sc, c))
    {
      assert RightSize(base, Slot(j.Plan(), j.sc.gen, x), j.sc);
    }
    forall l | l in now && l.name.Frag? && l.name.gen == j.sc.gen && l.name.index < Copies(j.sc.scheme) &&
      !IsSlot(j, l) && RightSize(now, l, j.sc)
      ensures Intact(now, l, j.sc, c)
    {
      assert RightSize(base, l, j.sc) && Intact(base, l, j.sc, c);
    }
  }

  /** Dropping home slots touches neither copies nor records. */
  lemma DropsFacts(was: Store, now: Store, j: Job, c: Bytes)
    requires ValidJob(j) && Drops(was, now, j) && CopiesSound(was, j, c)
    ensures CopiesSound(now, j, c)
    ensures forall at :: RecordAt(now, at) == RecordAt(was, at)
    ensures Recorded(was, j, |j.Plan()|) ==> Recorded(now, j, |j.Plan()|)
  {
    forall l | l in now && l.name.Frag? && l.name.gen == j.sc.gen && l.name.index < Copies(j.sc.scheme) &&
      !IsSlot(j, l) && RightSize(now, l, j.sc)
      ensures Intact(now, l, j.sc, c)
    {
      assert RightSize(was, l, j.sc) && Intact(was, l, j.sc, c);
    }
    assert forall at :: Loc(at, Meta) in was <==> Loc(at, Meta) in now;
    assert forall i: nat :: i < |j.Plan()| && RecordedAt(was, j, i) ==> RecordedAt(now, j, i);
  }

  lemma SurveyLost(base: Store, now: Store, j: Job, c: Bytes, missing: set<nat>)
    requires ValidJob(j) && SameFragments(base, now) && Genuine(j, c)
    requires forall i :: i in missing ==> i < Copies(j.sc.scheme)
    requires NoneSized(base, j, missing)
    ensures AllLost(now, j, c, missing)
  {
    forall i | i in missing
      ensures !Intact(now, Slot(j.Plan(), j.sc.gen, i), j.sc, c)
    {
      if Intact(base, Slot(j.Plan(), j.sc.gen, i), j.sc, c) {
        IntactSized(base, Slot(j.Plan(), j.sc.gen, i), j, c);
      }
    }
  }

  /** No target got a superseding record that had none. */
  ghost predicate NewerOnly(was: Store, now: Store, j: Job) {
    forall at :: NotNewer(was, at, j.sc) ==> NotNewer(now, at, j.sc)
  }

  /** Every fragment is intact at home and every planned target has the record. */
  ghost predicate Settled(files: Store, j: Job, c: Bytes)
    requires ValidJob(j)
  {
    HomeExcept(files, j, c, {}) && Recorded(files, j, |j.Plan()|)
  }

  lemma SettledFacts(files: Store, j: Job, c: Bytes)
    requires ValidJob(j) && Genuine(j, c) && Settled(files, j, c)
    ensures Sized(files, j, {}, |j.Plan()|) && NoneNewer(files, j, |j.Plan()|)
  {
    HomeSized(files, j, c);
    forall i: nat | i < |j.Plan()|
      ensures NotNewer(files, j.Plan()[i], j.sc)
    {
      assert RecordedAt(files, j, i);
    }
  }

  lemma SettledLacksNothing(files: Store, j: Job, c: Bytes, missing: set<nat>)
    requires ValidJob(j) && Genuine(j, c) && Settled(files, j, c)
    requires (forall i :: i in missing ==> i < Copies(j.sc.scheme)) && NoneSized(files, j, missing)
    ensures missing == {}
  {
    HomeSized(files, j, c);
    forall i: nat | i < Copies(j.sc.scheme)
      ensures i !in missing
    {
      assert i !in {};
      assert RightSize(files, Slot(j.Plan(), j.sc.gen, i), j.sc);
    }
  }

  ghost predicate AllPlansUp(cl: Cluster, j: Job) {
    forall p :: 0 <= p < |j.plans| ==> AllUp(cl, j.plans[p])
  }

  /** Every older layout's target of a fragment is among its sources. */
  predicate Covers(j: Job, sources: map<nat, seq<DiskRef>>)
    requires ValidJob(j)
  {
    forall i: nat, p: nat :: i < Copies(j.sc.scheme) && 0 < p < |j.plans| ==>
      i in sources && j.plans[p][i] in sources[i]
  }

  ghost function HeldSet(files: Store, j: Job, c: Bytes): set<nat>
    requires ValidJob(j)
  {
    set i: nat | i < Copies(j.sc.scheme) && Held(files, j, c, i)
  }

  /** The read path could serve the object: a full replica, or as many shards as data shards. */
  ghost predicate Enough(files: Store, j: Job, c: Bytes)
    requires ValidJob(j)
  {
    if j.sc.scheme.EC? then j.sc.size == 0 || |HeldSet(files, j, c)| >= j.sc.scheme.k
    else exists i: nat :: i < FullReplicas(j.sc.scheme) && Held(files, j, c, i)
  }

  /** An intact copy away from home on an answering disk would have been found. */
  lemma NotLeftBehind(files: Store, up: set<DiskRef>, j: Job, c: Bytes, i: nat, at: DiskRef, sources: seq<DiskRef>)
    requires ValidJob(j) && i < Copies(j.sc.scheme) && Genuine(j, c) && Exhausted(files, up, j, i, sources)
    requires at in sources && at in up && j.Plan()[i] in up && at != j.Plan()[i]
    ensures !Intact(files, Loc(at, Frag(j.sc.gen, i)), j.sc, c)
  {
    if Intact(files, Loc(at, Frag(j.sc.gen, i)), j.sc, c) { IntactSized(files, Loc(at, Frag(j.sc.gen, i)), j, c); }
  }

  lemma ExhaustedNowhere(cl: Cluster, j: Job, c: Bytes, missing: set<nat>, sources: map<nat, seq<DiskRef>>, i: nat)
    requires ValidJob(j) && i in missing && (forall n :: n in missing ==> n < Copies(j.sc.scheme)) && Genuine(j, c)
    requires AllPlansUp(cl, j) && Covers(j, sources) && AllLost(cl.files, j, c, missing)
    requires AllExhausted(cl.files, cl.up, j, missing, sources)
    ensures !Held(cl.files, j, c, i)
  {
    forall p | 0 <= p < |j.plans|
      ensures !Intact(cl.files, Slot(j.plans[p], j.sc.gen, i), j.sc, c)
    {
      var at := j.plans[p][i];
      if at == j.Plan()[i] {
        assert Slot(j.plans[p], j.sc.gen, i) == Slot(j.Plan(), j.sc.gen, i);
      } else {
        assert i in sources && at in sources[i] && Exhausted(cl.files, cl.up, j, i, sources[i]);
        assert AllUp(cl, j.plans[p]) && AllUp(cl, j.plans[0]);
        NotLeftBehind(cl.files, cl.up, j, c, i, at, sources[i]);
      }
    }
  }

  /** With every remembered target answering, whatever is still missing after the restore
      could not be opened before either, so a servable object is rebuilt. */
  lemma EnoughRecoverable(cl: Cluster, j: Job, c: Bytes, base: Store, missing: set<nat>, sources: map<nat,
                          seq<DiskRef>>)
    requires ValidJob(j) && forall i :: i in missing ==> i < Copies(j.sc.scheme)
    requires Sane(cl, j, c, base, missing) && AllPlansUp(cl, j) && Covers(j, sources)
    requires AllLost(cl.files, j, c, missing)
    requires AllExhausted(cl.files, cl.up, j, missing, sources)
    requires Enough(base, j, c) && j.sc.size > 0
    ensures Recoverable(j.sc.scheme, missing)
  {
    forall i | i in missing
      ensures !Held(cl.files, j, c, i)
    {
      ExhaustedNowhere(cl, j, c, missing, sources, i);
    }
    if j.sc.scheme.EC? {
      Sets.Disjoint(missing, HeldSet(base, j, c), Copies(j.sc.scheme));
    }
  }

  /** Fragments away from home are the same. */
  ghost predicate OffHome(a: Store, b: Store, j: Job)
    requires ValidJob(j)
  {
    forall l: Loc :: l.name.Frag? && !IsSlot(j, l) ==> (l in a <==> l in b) && (l in a ==> a[l] == b[l])
  }

  /** Fragment `i` is somewhere: at a remembered target or on one of the disks. */
  ghost predicate Somewhere(files: Store, j: Job, c: Bytes, disks: seq<DiskRef>, i: nat)
    requires ValidJob(j) && i < Copies(j.sc.scheme)
  {
    Held(files, j, c, i) || exists at :: at in disks && Intact(files, Loc(at, Frag(j.sc.gen, i)), j.sc, c)
  }

  ghost function FoundSet(files: Store, j: Job, c: Bytes, disks: seq<DiskRef>): set<nat>
    requires ValidJob(j)
  {
    set i: nat | i < Copies(j.sc.scheme) && Somewhere(files, j, c, disks, i)
  }

  /** A full replica, or as many shards as data shards, is somewhere. */
  ghost predicate EnoughOn(files: Store, j: Job, c: Bytes, disks: seq<DiskRef>)
    requires ValidJob(j)
  {
    if j.sc.scheme.EC? then j.sc.size == 0 || |FoundSet(files, j, c, disks)| >= j.sc.scheme.k
    else exists i: nat :: i < FullReplicas(j.sc.scheme) && Somewhere(files, j, c, disks, i)
  }

  lemma EnoughOnMoves(base: Store, files: Store, j: Job, c: Bytes, disks: seq<DiskRef>)
    requires ValidJob(j) && Keeps(base, files, j, c) && OffHome(base, files, j) && EnoughOn(base, j, c, disks)
    ensures EnoughOn(files, j, c, disks)
  {
    forall i: nat | i < Copies(j.sc.scheme) && Somewhere(base, j, c, disks, i)
      ensures Somewhere(files, j, c, disks, i)
    {
      if !Held(base, j, c, i) {
        var at :| at in disks && Intact(base, Loc(at, Frag(j.sc.gen, i)), j.sc, c);
        assert !Intact(base, Slot(j.plans[0], j.sc.gen, i), j.sc, c);
        assert Intact(files, Loc(at, Frag(j.sc.gen, i)), j.sc, c);
      }
    }
    if j.sc.scheme.EC? {
      Sets.Subset(FoundSet(base, j, c, disks), FoundSet(files, j, c, disks));
    } else {
      var i: nat :| i < FullReplicas(j.sc.scheme) && Somewhere(base, j, c, disks, i);
      assert Somewhere(files, j, c, disks, i);
    }
  }

  lemma ExhaustedOnlySlots(was: Store, now: Store, up: set<DiskRef>, j: Job, missing: set<nat>, sources: map<nat,
                           seq<DiskRef>>)
    requires ValidJob(j) && (forall i :: i in missing ==> i < Copies(j.sc.scheme)) && OnlySlots(was, now, j)
    requires AllExhausted(was, up, j, missing, sources)
    ensures AllExhausted(now, up, j, missing, sources)
  {
    forall i | i in missing && i in sources
      ensures Exhausted(now, up, j, i, sources[i])
    {
      assert Exhausted(was, up, j, i, sources[i]);
    }
  }

  lemma ExhaustedFewer(files: Store, up: set<DiskRef>, j: Job, first: set<nat>, missing: set<nat>, disks: seq<DiskRef>)
    requires ValidJob(j) && missing <= first && forall i :: i in missing ==> i < Copies(j.sc.scheme)
    requires AllExhausted(files, up, j, missing, map i | i in first :: disks)
    ensures AllExhausted(files, up, j, missing, map i | i in missing :: disks)
  {
    var wide := map i | i in first :: disks;
    assert forall i :: i in missing ==> i in wide && wide[i] == disks;
  }

  ghost predicate DisksUp(disks: seq<DiskRef>, up: set<DiskRef>) {
    forall at :: at in disks ==> at in up
  }

  /** What is still missing after the hunt was nowhere to begin with. */
  lemma HuntedNowhere(cl: Cluster, j: Job, c: Bytes, start: Store, missing: set<nat>, sources: map<nat, seq<DiskRef>>,
                      disks: seq<DiskRef>, i: nat)
    requires ValidJob(j) && i in missing && (forall n :: n in missing ==> n < Copies(j.sc.scheme)) && Genuine(j, c)
    requires AllPlansUp(cl, j) && DisksUp(disks, cl.up) && Covers(j, sources)
    requires OnlySlots(start, cl.files, j) && AllLost(start, j, c, missing)
    requires AllExhausted(cl.files, cl.up, j, missing, sources)
    requires AllExhausted(cl.files, cl.up, j, missing, map n | n in missing :: disks)
    ensures !Somewhere(start, j, c, disks, i)
  {
    var huntMap := map n | n in missing :: disks;
    assert i in huntMap && huntMap[i] == disks && Exhausted(cl.files, cl.up, j, i, disks);
    assert AllUp(cl, j.plans[0]) && j.Plan()[i] in cl.up;
    forall at | at in disks
      ensures !Intact(start, Loc(at, Frag(j.sc.gen, i)), j.sc, c)
    {
      if at == j.Plan()[i] {
        assert Loc(at, Frag(j.sc.gen, i)) == Slot(j.Plan(), j.sc.gen, i);
      } else {
        NotLeftBehind(cl.files, cl.up, j, c, i, at, disks);
      }
    }
    forall p | 0 <= p < |j.plans|
      ensures !Intact(start, Slot(j.plans[p], j.sc.gen, i), j.sc, c)
    {
      var at := j.plans[p][i];
      if at == j.Plan()[i] {
        assert Slot(j.plans[p], j.sc.gen, i) == Slot(j.Plan(), j.sc.gen, i);
      } else {
        assert i in sources && at in sources[i] && Exhausted(cl.files, cl.up, j, i, sources[i]);
        assert AllUp(cl, j.plans[p]);
        NotLeftBehind(cl.files, cl.up, j, c, i, at, sources[i]);
      }
    }
  }

  /** So with every disk answering, an object of which enough is anywhere is rebuilt. */
  lemma HuntRecoverable(cl: Cluster, j: Job, c: Bytes, start: Store, missing: set<nat>, sources: map<nat,
                        seq<DiskRef>>, disks: seq<DiskRef>)
    requires ValidJob(j) && (forall n :: n in missing ==> n < Copies(j.sc.scheme)) && Genuine(j, c) && j.sc.size > 0
    requires AllPlansUp(cl, j) && DisksUp(disks, cl.up) && Covers(j, sources)
    requires OnlySlots(start, cl.files, j) && AllLost(start, j, c, missing)
    requires AllExhausted(cl.files, cl.up, j, missing, sources)
    requires AllExhausted(cl.files, cl.up, j, missing, map n | n in missing :: disks)
    requires EnoughOn(start, j, c, disks)
    ensures Recoverable(j.sc.scheme, missing)
  {
    forall i | i in missing
      ensures !Somewhere(start, j, c, disks, i)
    {
      HuntedNowhere(cl, j, c, start, missing, sources, disks, i);
    }
    if j.sc.scheme.EC? {
      Sets.Disjoint(missing, FoundSet(start, j, c, disks), Copies(j.sc.scheme));
    }
  }

  /** Fragments of the object found on a local disk: indexes per generation. */
  datatype LocalFragments = LocalFragments(at: DiskRef, gens: map<string, set<nat>>)

  /** Targets of fragment `i` under the layouts 1 to n-1. */
  function OldTargets(j: Job, i: nat, n: nat): (r: seq<DiskRef>)
    requires ValidJob(j) && i < Copies(j.sc.scheme) && 1 <= n <= |j.plans|
    ensures forall p: nat :: 0 < p < n ==> j.plans[p][i] in r
  {
    if n == 1 then [] else OldTargets(j, i, n - 1) + [j.plans[n - 1][i]]
  }

  lemma {:induction false} OldTargetsFrom(j: Job, i: nat, n: nat, at: DiskRef) returns (p: nat)
    requires ValidJob(j) && i < Copies(j.sc.scheme) && 1 <= n <= |j.plans| && at in OldTargets(j, i, n)
    ensures 0 < p < n && j.plans[p][i] == at
  {
    if j.plans[n - 1][i] == at {
      p := n - 1;
    } else {
      p := OldTargetsFrom(j, i, n - 1, at);
    }
  }

  function LocalCopies(j: Job, local: Option<LocalFragments>, i: nat): seq<DiskRef> {
    if local.Some? && j.sc.gen in local.value.gens && i in local.value.gens[j.sc.gen] then [local.value.at] else []
  }

  /** Every mutation of a pass is one of the two allowed kinds. */
  ghost predicate AllLegit(log: seq<Act>, from: nat, j: Job, known: set<string>, e: Evidence, broken: bool)
    requires ValidJob(j)
  {
    forall k :: from <= k < |log| ==> Benign(log[k], j, broken) || Swept(log[k], j, known, e)
  }

  lemma HealLegit(a: Notebook, b: Notebook, looks0: seq<Reading>, looks1: seq<Reading>, looks2: seq<Reading>,
                  grace: nat,
                  log: seq<Act>, more: seq<Act>, from: nat, j: Job, known: set<string>, broken: bool)
    requires ValidJob(j) && from <= |log| && log <= more && looks0 <= looks1 <= looks2 && Continues(a, b)
    requires AllBenign(log, from, j, broken) && AllSwept(more, |log|, j, known, Evidence(looks2, |looks1|, a, b, grace))
    ensures AllLegit(more, from, j, known, Evidence(looks2, |looks0|, a, b, grace), broken)
  {
    ContinuesSelf(a);
    ContinuesSelf(b);
    forall k | from <= k < |more|
      ensures Benign(more[k], j, broken) || Swept(more[k], j, known, Evidence(looks2, |looks0|, a, b, grace))
    {
      if k < |log| {
        assert more[k] == log[k];
      } else {
        SweptWider(more[k], j, known, Evidence(looks2, |looks1|, a, b, grace), Evidence(looks2, |looks0|, a, b, grace));
      }
    }
  }

  /** The sweep deletes no home fragment. */
  lemma TrimsFit(was: Store, now: Store, j: Job)
    requires ValidJob(j) && Fits(was, j, {}) && Trims(was, now, j)
    ensures Fits(now, j, {})
  {
    forall i: nat | i < |j.Plan()|
      ensures RightSize(now, Slot(j.Plan(), j.sc.gen, i), j.sc)
    {
      assert RightSize(was, Slot(j.Plan(), j.sc.gen, i), j.sc);
    }
  }

  /** Where the sweep looks: current targets and every known old-placement location. */
  ghost function SweepSet(j: Job, local: Option<LocalFragments>): set<DiskRef>
    requires ValidJob(j)
  {
    (set p, i | 0 <= p < |j.plans| && 0 <= i < |j.plans[p]| ::
      j.plans[p][i]) + if local.Some? then {local.value.at} else {}
  }

  ghost predicate SourcesFor(j: Job, sources: map<nat, seq<DiskRef>>, local: Option<LocalFragments>)
    requires ValidJob(j)
  {
    && (forall i: nat :: i in sources <==> i < Copies(j.sc.scheme))
    && (forall i :: i in sources ==> sources[i] == OldTargets(j, i, |j.plans|) + LocalCopies(j, local, i))
  }

  function SweepTargets(j: Job, sources: map<nat, seq<DiskRef>>, local: Option<LocalFragments>): set<DiskRef>
    requires ValidJob(j)
  {
    (set at | at in j.Plan()) + (set i, at | i in sources && at in sources[i] ::
      at) + if local.Some? then {local.value.at} else {}
  }

  lemma SweptIsKnown(j: Job, sources: map<nat, seq<DiskRef>>, local: Option<LocalFragments>, at: DiskRef)
    requires ValidJob(j) && SourcesFor(j, sources, local) && at in SweepTargets(j, sources, local)
    ensures at in SweepSet(j, local)
  {
    if at in j.Plan() {
      var i :| 0 <= i < |j.plans[0]| && j.plans[0][i] == at;
    } else if local.None? || local.value.at != at {
      var i :| i in sources && at in sources[i];
      var p := OldTargetsFrom(j, i, |j.plans|, at);
    }
  }

  lemma KnownIsSwept(j: Job, sources: map<nat, seq<DiskRef>>, local: Option<LocalFragments>, at: DiskRef)
    requires ValidJob(j) && SourcesFor(j, sources, local) && at in SweepSet(j, local)
    ensures at in SweepTargets(j, sources, local)
  {
    if p, i :| 0 <= p < |j.plans| && 0 <= i < |j.plans[p]| && j.plans[p][i] == at {
      if p > 0 { assert at in OldTargets(j, i, |j.plans|) && at in sources[i]; }
    }
  }

  lemma SweepTargetsSpec(j: Job, sources: map<nat, seq<DiskRef>>, local: Option<LocalFragments>)
    requires ValidJob(j) && SourcesFor(j, sources, local)
    ensures SweepTargets(j, sources, local) == SweepSet(j, local)
  {
    forall at | at in SweepTargets(j, sources, local)
      ensures at in SweepSet(j, local)
    {
      SweptIsKnown(j, sources, local, at);
    }
    forall at | at in SweepSet(j, local)
      ensures at in SweepTargets(j, sources, local)
    {
      KnownIsSwept(j, sources, local, at);
    }
  }

  /** No target the sweep looks at holds a newer record. */
  ghost predicate Unopposed(files: Store, j: Job, local: Option<LocalFragments>)
    requires ValidJob(j)
  {
    forall at :: at in SweepSet(j, local) ==> NotNewer(files, at, j.sc)
  }

  lemma StillUnopposed(was: Store, now: Store, j: Job, local: Option<LocalFragments>)
    requires ValidJob(j) && NewerOnly(was, now, j)
    ensures Unopposed(was, j, local) ==> Unopposed(now, j, local)
  {
  }

  /** Every remembered target answers, the object could be read, and nothing newer is in the way. */
  ghost predicate Servable(cl: Cluster, j: Job, local: Option<LocalFragments>, c: Bytes)
    requires ValidJob(j)
    reads cl`files
  {
    && AllPlansUp(cl, j)
    && Enough(cl.files, j, c)
    && Unopposed(cl.files, j, local)
  }

  /** The store holds exactly what it should on every target the pass looks at. */
  ghost predicate Fixpoint(files: Store, j: Job, local: Option<LocalFragments>, c: Bytes)
    requires ValidJob(j)
  {
    Settled(files, j, c) && AllKeepable(files, j, SweepSet(j, local))
  }

  /** The same when what could be read is not where it is remembered, but every disk answers. */
  ghost predicate Findable(cl: Cluster, j: Job, local: Option<LocalFragments>, disks: seq<DiskRef>, c: Bytes)
    requires ValidJob(j)
    reads cl`files
  {
    && AllPlansUp(cl, j)
    && DisksUp(disks, cl.up)
    && EnoughOn(cl.files, j, c, disks)
    && Unopposed(cl.files, j, local)
  }

  lemma PlanNotNewer(files: Store, j: Job, local: Option<LocalFragments>)
    requires ValidJob(j) && Unopposed(files, j, local)
    ensures NoneNewer(files, j, |j.Plan()|)
  {
    assert forall i: nat :: i < |j.Plan()| ==> j.plans[0][i] in SweepSet(j, local);
  }

  lemma FixpointNotNewer(files: Store, j: Job, local: Option<LocalFragments>, c: Bytes)
    requires ValidJob(j) && Fixpoint(files, j, local, c)
    ensures Unopposed(files, j, local)
  {
    forall at | at in SweepSet(j, local)
      ensures NotNewer(files, at, j.sc)
    {
      if Loc(at, Meta) in files {
        assert Keepable(j, at, Meta);
        var i :| 0 <= i < |j.Plan()| && j.Plan()[i] == at;
        assert RecordedAt(files, j, i);
      }
    }
  }

  /** With every home slot intact, the sweep's gate opens and its premise holds. */
  lemma RefillFacts(was: Store, now: Store, j: Job, c: Bytes)
    requires ValidJob(j) && Genuine(j, c) && OnlySlots(was, now, j) && HomeExcept(now, j, c, {})
    ensures SlotsSound(now, j, c, 0) && Sized(now, j, {}, |j.Plan()|)
    ensures forall at :: RecordAt(now, at) == RecordAt(was, at)
    ensures Recorded(was, j, |j.Plan()|) ==> Recorded(now, j, |j.Plan()|)
  {
    HomeSized(now, j, c);
    assert forall i: nat :: i < Copies(j.sc.scheme) ==> i !in {} && Intact(now, Slot(j.Plan(), j.sc.gen, i), j.sc, c);
    assert forall at :: !IsSlot(j, Loc(at, Meta));
    assert forall i: nat :: i < |j.Plan()| && RecordedAt(was, j, i) ==> RecordedAt(now, j, i);
  }

  lemma SlotsNotNewer(was: Store, now: Store, j: Job)
    requires ValidJob(j) && OnlySlots(was, now, j)
    ensures NewerOnly(was, now, j)
  {
    assert forall at :: !IsSlot(j, Loc(at, Meta));
    assert forall at :: RecordAt(now, at) == RecordAt(was, at);
  }

  /** A sweep leaves a settled object settled. */
  lemma TrimsSettled(was: Store, now: Store, j: Job, c: Bytes)
    requires ValidJob(j) && Trims(was, now, j) && Settled(was, j, c)
    ensures Settled(now, j, c)
  {
    forall i: nat | i < Copies(j.sc.scheme)
      ensures Intact(now, Slot(j.Plan(), j.sc.gen, i), j.sc, c) && RecordedAt(now, j, i)
    {
      assert i !in {};
      assert Keepable(j, j.Plan()[i], Frag(j.sc.gen, i)) && Keepable(j, j.Plan()[i], Meta);
      assert RecordedAt(was, j, i);
    }
  }

  // ---- Stages ----

  /** Scheme can rebuild the missing set without further sources. */
  predicate Recoverable(s: Scheme, missing: set<nat>) {
    if s.EC? then s.k + s.m - |missing| >= s.k
    else exists i :: 0 <= i < FullReplicas(s) && i !in missing
  }

  class Repairer {
    const cl: Cluster
    const verify: bool
    const grace: nat

    /** Unattributed generations of the object and when each was first sighted. */
    var strays: map<string, nat>
    var clock: nat
    var report: Report

    ghost var sightings: set<Sighting>

    ghost predicate Valid()
      reads this
    {
      && (forall g :: g in strays ==> exists k :: Sighting(g, strays[g], k) in sightings)
      && (forall s :: s in sightings ==> s.time <= clock)
    }

    ghost function Notes(): Notebook
      reads this, cl
    {
      Notebook(strays, clock, sightings, cl.scans)
    }

    /** What was read and noted since a sweep of a target began. */
    ghost function Meanwhile(st: Stretch): Evidence
      reads this, cl
    {
      Evidence(cl.looks, st.from, st.notes, Notes(), grace)
    }

    /** The sweep's listing was made since it began, of the store it started from. */
    ghost predicate Listing(st: Stretch, at: DiskRef, base: Store)
      reads this, cl
    {
      && |st.notes.scans| <= st.scan < |cl.scans|
      && cl.scans[st.scan] == Reading(at, base, true, cl.scans[st.scan].moment)
      && Continues(st.notes, Notes())
    }

    /** The notes only continue. */
    twostate predicate Accrued()
      reads this, cl
    {
      Continues(old(Notes()), Notes())
    }

    /** What was read and noted meanwhile. */
    twostate function Since(): Evidence
      reads this, cl
    {
      Evidence(cl.looks, |old(cl.looks)|, old(Notes()), Notes(), grace)
    }

    constructor (cl: Cluster, verify: bool, sweepGrace: int)
      ensures Valid() && strays == map[] && report == EMPTY_REPORT
      ensures this.cl == cl && this.verify == verify
      ensures grace > 0 && (sweepGrace > 0 ==> grace == sweepGrace)
    {
      this.cl, this.verify := cl, verify;
      grace := if sweepGrace <= 0 then DEFAULT_SWEEP_GRACE else sweepGrace;
      strays, clock, report := map[], 0, EMPTY_REPORT;
      sightings := {};
    }

    /** One target of the survey, atomically: complete its record unless it holds a
        superseding one, and look whether its fragment is there. */
    method SurveyTarget(j: Job, i: nat) returns (out: Outcome, present: bool)
      requires ValidJob(j) && i < |j.Plan()|
      requires cl.Valid()
      modifies this`report, cl`files, cl`log, cl`looks
      ensures cl.Valid()
      ensures old(cl.looks) <= cl.looks
      ensures out.Done? || out.Newer? || out.Error?
      ensures out.Newer? ==> NewerFound(out, j, cl.looks, |old(cl.looks)|)
      ensures out.Newer? <==> !NotNewer(cl.files, j.Plan()[i], j.sc) && out != Error
      ensures j.Plan()[i] in cl.up ==> !out.Error?
      ensures out.Done? && !RecordedAt(old(cl.files), j, i) ==>
        && cl.files == old(cl.files)[Loc(j.Plan()[i], Meta) := Record(j.sc)]
        && cl.log == old(cl.log) + [Write(old(cl.files), Loc(j.Plan()[i], Meta), Record(j.sc))]
        && report == old(report).(rewritten := old(report.rewritten) + 1)
      ensures !(out.Done? && !RecordedAt(old(cl.files), j, i)) ==>
        cl.files == old(cl.files) && cl.log == old(cl.log) && report == old(report)
      ensures AllBenign(cl.log, |old(cl.log)|, j, !cl.complete)
      ensures out.Done? ==> RecordedAt(cl.files, j, i)
      ensures out.Done? && present ==> RightSize(cl.files, Slot(j.Plan(), j.sc.gen, i), j.sc)
      ensures j.Plan()[i] in cl.up && out.Done? && RightSize(cl.files, Slot(j.Plan(), j.sc.gen, i), j.sc) ==> present
    {
      var at := j.Plan()[i];
      var cur := cl.ReadRecord(at);
      if cur.Failed? { return Error, false; }
      if cur.Found? && cur.value.gen != j.sc.gen && Supersedes(cur.value, j.sc) {
        assert Got(cl.looks[|old(cl.looks)|]) == Some(cur.value);
        return Newer(cur.value), false;
      }
      if !(cur.Found? && cur.value.gen == j.sc.gen) {
        if cur.Found? { SupersedesTotal(cur.value, j.sc); }
        var ok := cl.Put(Loc(at, Meta), Record(j.sc));
        if !ok { return Error, false; }
        report := report.(rewritten := report.rewritten + 1);
      }
      var size := cl.Stat(Slot(j.Plan(), j.sc.gen, i));
      return Done, size == Found(PlannedSize(j.sc.scheme, j.sc.size, i));
    }

    /** Survey every target of the plan; `missing` are the fragments needing work. */
    method Survey(j: Job) returns (out: Outcome, missing: set<nat>)
      requires ValidJob(j)
      requires cl.Valid()
      modifies this`report, cl`files, cl`log, cl`looks
      ensures cl.Valid()
      ensures old(cl.looks) <= cl.looks
      ensures old(cl.log) <= cl.log && AllBenign(cl.log, |old(cl.log)|, j, !cl.complete)
      ensures out.Done? || out.Newer? || out.Error?
      ensures out.Newer? ==> NewerFound(out, j, cl.looks, |old(cl.looks)|)
      ensures forall i :: i in missing ==> i < Copies(j.sc.scheme)
      ensures report == old(report).(rewritten := old(report.rewritten) + |cl.log| - |old(cl.log)|)
      ensures cl.quiet ==>
        SameFragments(old(cl.files), cl.files) && AllSameFragments(cl.log, |old(cl.log)|, old(cl.files))
      ensures cl.quiet && out.Done? ==>
        cl.files == Surveyed(old(cl.files), j, |j.Plan()|) && Sized(old(cl.files), j, missing, |j.Plan()|)
      ensures cl.Still()
      ensures cl.quiet && Recorded(old(cl.files), j, |j.Plan()|) ==> cl.log == old(cl.log)
      ensures cl.quiet && AllUp(cl, j.Plan()) && NoneNewer(old(cl.files), j, |j.Plan()|) ==> out.Done?
      ensures cl.quiet && AllUp(cl, j.Plan()) && out.Done? ==> NoneSized(old(cl.files), j, missing)
    {
      missing := {};
      ghost var asked := AllUp(cl, j.Plan());
      for i := 0 to |j.Plan()|
        invariant cl.Valid()
        invariant old(cl.looks) <= cl.looks
        invariant old(cl.log) <= cl.log && AllBenign(cl.log, |old(cl.log)|, j, !cl.complete)
        invariant forall n :: n in missing ==> n < i
        invariant report == old(report).(rewritten := old(report.rewritten) + |cl.log| - |old(cl.log)|)
        invariant cl.quiet ==> SurveyedTo(old(cl.files), cl.files, cl.log, |old(cl.log)|, j, missing, i, asked)
        invariant cl.Still()
      {
        SurveyedFacts(old(cl.files), j, i);
        cl.Others();
        ghost var was, log := cl.files, cl.log;
        var present;
        out, present := SurveyTarget(j, i);
        if !out.Done? { return; }
        StepsJoin(log, cl.log, |old(cl.log)|, j, [], was, false, !cl.complete);
        if cl.quiet {
          SurveyAdvance(old(cl.files), was, cl.files, log, cl.log, |old(cl.log)|, j, missing, i, present, asked);
        }
        if !present { missing := missing + {i}; }
      }
      SurveyedFacts(old(cl.files), j, |j.Plan()|);
      out := Done;
    }

    /** Re-read one home replica; a mismatch drops it. A stream that breaks midway counts
        as a mismatch too. */
    method VerifyReplica(j: Job, i: nat) returns (good: bool, ghost dropped: bool)
      requires ValidJob(j) && i < FullReplicas(j.sc.scheme)
      requires cl.Valid()
      modifies this`report, cl`files, cl`log
      ensures cl.Valid()
      ensures good ==> !dropped && Matches(cl.files, Slot(j.Plan(), j.sc.gen, i), j.sc)
      ensures dropped ==>
        && cl.files == old(cl.files) - {Slot(j.Plan(), j.sc.gen, i)}
        && cl.log == old(cl.log) + [Erase(old(cl.files), Slot(j.Plan(), j.sc.gen, i))]
        && Benign(cl.log[|old(cl.log)|], j, !cl.complete)
      ensures !dropped ==> cl.files == old(cl.files) && cl.log == old(cl.log)
      ensures report == old(report).(corrupt := report.corrupt) && report.corrupt >= old(report.corrupt)
      ensures report != old(report) ==> !cl.complete || !Matches(old(cl.files), Slot(j.Plan(), j.sc.gen, i), j.sc)
      ensures j.Plan()[i] in cl.up && cl.complete && Matches(old(cl.files), Slot(j.Plan(), j.sc.gen, i), j.sc) ==> good
    {
      var l := Slot(j.Plan(), j.sc.gen, i);
      dropped := false;
      var b := cl.Get(l);
      if !b.Found? { return false, false; }
      var whole := cl.Drains();
      if !whole || !Matches(cl.files, l, j.sc) {
        var gone := cl.Delete(l);
        report := report.(corrupt := report.corrupt + 1);
        return false, gone.Found?;
      }
      good := true;
    }

    /** Whether the pass re-reads replicas at all. */
    predicate Verifies(sc: Sidecar) {
      verify && !sc.scheme.EC? && sc.size > 0 && sc.checksum != NoDigest
    }

    /** How many leading fragments of the plan are re-read. */
    function Verified(sc: Sidecar): nat {
      if Verifies(sc) then FullReplicas(sc.scheme) else 0
    }

    /** One step of the verification loop. */
    method VerifyStep(j: Job, i: nat, lacking: set<nat>, ghost c: Bytes, ghost base: Store, ghost sane: bool)
      returns (missing: set<nat>)
      requires ValidJob(j) && i < Verified(j.sc)
      requires sane ==> cl.quiet && cl.complete && Genuine(j, c) && Keeps(base, cl.files, j, c)
      requires sane ==> Checked(cl.files, j, c, lacking, i, Verified(j.sc))
      requires cl.Valid()
      modifies this`report, cl`files, cl`log
      ensures cl.Valid()
      ensures missing == lacking || missing == lacking + {i}
      ensures old(cl.log) <= cl.log && AllBenign(cl.log, |old(cl.log)|, j, !cl.complete)
      ensures cl.log != old(cl.log) ==> missing != {}
      ensures report == old(report).(corrupt := report.corrupt) && report.corrupt >= old(report.corrupt)
      ensures sane ==> Checked(cl.files, j, c, missing, i + 1, Verified(j.sc)) && Drops(old(cl.files), cl.files, j)
      ensures sane ==> Keeps(base, cl.files, j, c) && AllKeep(cl.log, |old(cl.log)|, base, j, c)
      ensures cl.Still()
      ensures sane && j.Plan()[i] in cl.up && i !in lacking ==>
        if Intact(old(cl.files), Slot(j.Plan(), j.sc.gen, i), j.sc, c)
        then missing == lacking && cl.log == old(cl.log) && report == old(report)
        else !Intact(cl.files, Slot(j.Plan(), j.sc.gen, i), j.sc, c)
      ensures i in lacking ==> missing == lacking && cl.log == old(cl.log) && report == old(report)
      ensures cl.quiet && Fits(old(cl.files), j, lacking) ==> Fits(cl.files, j, missing)
    {
      missing := lacking;
      if i in missing { return; }
      cl.Others();
      ghost var was := cl.files;
      var good, dropped := VerifyReplica(j, i);
      if sane {
        assert Matches(was, Slot(j.Plan(), j.sc.gen, i), j.sc) <==> Intact(was, Slot(j.Plan(), j.sc.gen, i), j.sc, c);
        if dropped { DropKeeps(base, was, j, c, Slot(j.Plan(), j.sc.gen, i)); }
        CheckedStep(was, cl.files, j, c, missing, i, Verified(j.sc), good);
      }
      if !good { missing := missing + {i}; }
      if cl.quiet && Fits(was, j, lacking) { DropFits(was, cl.files, j, lacking, missing, i); }
    }

    method VerifyReplicas(j: Job, lacking: set<nat>, ghost c: Bytes, ghost base: Store, ghost sane: bool)
      returns (missing: set<nat>)
      requires ValidJob(j) && forall i :: i in lacking ==> i < Copies(j.sc.scheme)
      requires sane ==> cl.quiet && cl.complete && Genuine(j, c) && Keeps(base, cl.files, j, c)
      requires sane ==> Checked(cl.files, j, c, lacking, 0, Verified(j.sc))
      requires cl.Valid()
      modifies this`report, cl`files, cl`log
      ensures cl.Valid()
      ensures old(cl.log) <= cl.log && AllBenign(cl.log, |old(cl.log)|, j, !cl.complete)
      ensures lacking <= missing && forall i :: i in missing ==> i < Copies(j.sc.scheme)
      ensures cl.log != old(cl.log) ==> missing != {}
      ensures report == old(report).(corrupt := report.corrupt) && report.corrupt >= old(report.corrupt)
      ensures sane ==> HomeExcept(cl.files, j, c, missing) && Drops(old(cl.files), cl.files, j)
      ensures sane ==> Keeps(base, cl.files, j, c) && AllKeep(cl.log, |old(cl.log)|, base, j, c)
      ensures cl.Still()
      ensures sane && AllUp(cl, j.Plan()) ==> AllLost(cl.files, j, c, missing - lacking)
      ensures sane && AllUp(cl, j.Plan()) && HomeExcept(old(cl.files), j, c, lacking) ==>
        missing == lacking && cl.log == old(cl.log) && report == old(report)
      ensures cl.quiet && Fits(old(cl.files), j, lacking) ==> Fits(cl.files, j, missing)
    {
      missing := lacking;
      ghost var fits := cl.quiet && Fits(cl.files, j, lacking);
      for i := 0 to Verified(j.sc)
        invariant fits ==> Fits(cl.files, j, missing)
        invariant cl.Valid()
        invariant old(cl.log) <= cl.log && AllBenign(cl.log, |old(cl.log)|, j, !cl.complete)
        invariant lacking <= missing && forall i :: i in missing ==> i < Copies(j.sc.scheme)
        invariant cl.log != old(cl.log) ==> missing != {}
        invariant report == old(report).(corrupt := report.corrupt) && report.corrupt >= old(report.corrupt)
        invariant sane ==> Checked(cl.files, j, c, missing, i, Verified(j.sc)) && Drops(old(cl.files), cl.files, j)
        invariant sane ==> Keeps(base, cl.files, j, c) && AllKeep(cl.log, |old(cl.log)|, base, j, c)
        invariant cl.Still()
        invariant sane && AllUp(cl, j.Plan()) ==> AllLost(cl.files, j, c, missing - lacking)
        invariant sane && AllUp(cl, j.Plan()) && HomeExcept(old(cl.files), j, c, lacking) ==>
          missing == lacking && cl.log == old(cl.log) && report == old(report)
      {
        missing := VerifyStep(j, i, missing, c, base, sane);
      }
    }

    /** Stream one fragment copy from `src` home, if it has the planned size. */
    method CopyHome(j: Job, i: nat, src: DiskRef) returns (ok: bool)
      requires ValidJob(j) && i < |j.Plan()|
      requires cl.Valid()
      modifies cl`files, cl`log
      ensures cl.Valid()
      ensures ok ==>
        && RightSize(old(cl.files), Loc(src, Frag(j.sc.gen, i)), j.sc)
        && cl.files == old(cl.files)[Slot(j.Plan(), j.sc.gen, i) := old(cl.files)[Loc(src, Frag(j.sc.gen, i))]]
        && cl.log == old(cl.log) + [Write(old(cl.files), Slot(j.Plan(), j.sc.gen, i),
          old(cl.files)[Loc(src, Frag(j.sc.gen, i))])]
      ensures !ok ==> cl.files == old(cl.files) && cl.log == old(cl.log)
      ensures src in cl.up && j.Plan()[i] in cl.up && RightSize(old(cl.files), Loc(src, Frag(j.sc.gen, i)), j.sc) ==> ok
    {
      var b := cl.Get(Loc(src, Frag(j.sc.gen, i)));
      if !b.Found? || !RightSize(cl.files, Loc(src, Frag(j.sc.gen, i)), j.sc) { return false; }
      ok := cl.Put(Slot(j.Plan(), j.sc.gen, i), b.value);
    }

    /** Try the sources of one missing fragment in order. */
    method RestoreOne(j: Job, i: nat, sources: seq<DiskRef>, ghost c: Bytes, ghost base: Store,
                      ghost missing: set<nat>, ghost sane: bool)
      returns (ok: bool)
      requires ValidJob(j) && i in missing && i < Copies(j.sc.scheme)
      requires sane ==> Sane(cl, j, c, base, missing)
      requires cl.Valid()
      modifies cl`files, cl`log
      ensures cl.Valid()
      ensures old(cl.log) <= cl.log && AllBenign(cl.log, |old(cl.log)|, j, !cl.complete)
      ensures |cl.log| == |old(cl.log)| + if ok then 1 else 0
      ensures sane ==> Sane(cl, j, c, base, if ok then missing - {i} else missing)
      ensures sane ==> AllKeep(cl.log, |old(cl.log)|, base, j, c) && OnlySlots(old(cl.files), cl.files, j)
      ensures cl.quiet && !ok ==> cl.files == old(cl.files) && Exhausted(cl.files, cl.up, j, i, sources)
      ensures cl.quiet ==> OnlySlot(old(cl.files), cl.files, j, i)
      ensures cl.quiet && Fits(old(cl.files), j, missing) ==> Fits(cl.files, j, if ok then missing - {i} else missing)
    {
      for k := 0 to |sources|
        invariant cl.Valid()
        invariant cl.log == old(cl.log)
        invariant cl.quiet ==> cl.files == old(cl.files) && Exhausted(cl.files, cl.up, j, i, sources[..k])
      {
        if sources[k] == j.Plan()[i] { continue; }
        cl.Others();
        ok := CopyHome(j, i, sources[k]);
        if ok {
          if sane { FillKeeps(base, old(cl.files), j, c, i); }
          if cl.quiet && Fits(old(cl.files), j, missing) {
            FillFits(old(cl.files), j, missing, i, old(cl.files)[Loc(sources[k], Frag(j.sc.gen, i))]);
          }
          return;
        }
      }
      assert sources[..|sources|] == sources;
      ok := false;
    }

    /** Fill missing fragments with byte-identical copies. */
    method RestoreFromCopies(j: Job, lacking: set<nat>, sources: map<nat, seq<DiskRef>>, ghost c: Bytes,
                             ghost base: Store, ghost sane: bool)
      returns (missing: set<nat>)
      requires ValidJob(j) && forall i :: i in lacking ==> i < Copies(j.sc.scheme)
      requires sane ==> Sane(cl, j, c, base, lacking)
      requires cl.Valid()
      modifies this`report, cl`files, cl`log
      ensures cl.Valid()
      ensures old(cl.log) <= cl.log && AllBenign(cl.log, |old(cl.log)|, j, !cl.complete)
      ensures missing <= lacking
      ensures |cl.log| - |old(cl.log)| == |lacking| - |missing|
      ensures report == old(report).(rebuilt := old(report.rebuilt) + |lacking| - |missing|)
      ensures sane ==> Sane(cl, j, c, base, missing)
      ensures sane ==> AllKeep(cl.log, |old(cl.log)|, base, j, c) && OnlySlots(old(cl.files), cl.files, j)
      ensures sane ==> AllExhausted(cl.files, cl.up, j, missing, sources)
      ensures cl.Still()
      ensures sane && AllLost(old(cl.files), j, c, lacking) ==> AllLost(cl.files, j, c, missing)
      ensures cl.quiet && Fits(old(cl.files), j, lacking) ==> Fits(cl.files, j, missing)
    {
      missing := lacking;
      ghost var fits := cl.quiet && Fits(cl.files, j, lacking);
      var todo := lacking;
      while todo != {}
        invariant fits ==> Fits(cl.files, j, missing)
        invariant cl.Valid()
        invariant todo <= missing <= lacking
        invariant old(cl.log) <= cl.log && AllBenign(cl.log, |old(cl.log)|, j, !cl.complete)
        invariant |cl.log| - |old(cl.log)| == |lacking| - |missing|
        invariant report == old(report).(rebuilt := old(report.rebuilt) + |lacking| - |missing|)
        invariant sane ==> Sane(cl, j, c, base, missing)
        invariant sane ==> AllKeep(cl.log, |old(cl.log)|, base, j, c) && OnlySlots(old(cl.files), cl.files, j)
        invariant sane ==> AllExhausted(cl.files, cl.up, j, missing - todo, sources)
        invariant cl.Still()
        invariant sane && AllLost(old(cl.files), j, c, lacking) ==> AllLost(cl.files, j, c, missing)
      {
        var i :| i in todo;
        ghost var was, log := cl.files, cl.log;
        var ok := RestoreOne(j, i, if i in sources then sources[i] else [], c, base, missing, sane);
        StepsJoin(log, cl.log, |old(cl.log)|, j, c, base, sane, !cl.complete);
        if sane { RestoreFrame(was, cl.files, cl.up, j, c, i, missing - todo, missing, sources); }
        if ok {
          missing := missing - {i};
          report := report.(rebuilt := report.rebuilt + 1);
        }
        todo := todo - {i};
      }
    }

    /** Write one home slot; the workhorse of every rebuild. */
    method FillSlot(j: Job, i: nat, p: Payload, ghost c: Bytes, ghost base: Store, ghost missing: set<nat>,
                    ghost sane: bool,
                    ghost from: nat, ghost was: Store)
      returns (ok: bool)
      requires ValidJob(j) && i < |j.Plan()|
      requires sane ==> Sane(cl, j, c, base, missing) && p == Piece(j.sc.scheme, c, i)
      requires from <= |cl.log| && FillLog(cl.log, from, cl.files, was, j, c, base, sane, !cl.complete)
      requires cl.Valid()
      modifies cl`files, cl`log
      ensures cl.Valid()
      ensures old(cl.log) <= cl.log && FillLog(cl.log, from, cl.files, was, j, c, base, sane, !cl.complete)
      ensures |cl.log| == |old(cl.log)| + if ok then 1 else 0
      ensures j.Plan()[i] in cl.up ==> ok
      ensures sane ==> Sane(cl, j, c, base, if ok then missing - {i} else missing)
      ensures Fits(old(cl.files), j, missing) && SizeOf(p) == PlannedSize(j.sc.scheme, j.sc.size, i) ==>
        Fits(cl.files, j, if ok then missing - {i} else missing)
    {
      if Fits(cl.files, j, missing) && SizeOf(p) == PlannedSize(j.sc.scheme, j.sc.size, i) {
        FillFits(cl.files, j, missing, i, Data(p));
      }
      if sane {
        FillKeeps(base, cl.files, j, c, i);
        FillSound(cl.files, j, c, missing, i);
      }
      FillLogMore(cl.log, from, cl.files, was, j, i, p, c, base, sane, !cl.complete);
      ok := cl.Put(Slot(j.Plan(), j.sc.gen, i), Data(p));
    }

    /** Fragments of an empty object are all empty: materialize them. */
    method RebuildEmpty(j: Job, missing: set<nat>, ghost c: Bytes, ghost base: Store, ghost sane: bool)
      returns (out: Outcome)
      requires ValidJob(j) && j.sc.size == 0 && forall i :: i in missing ==> i < Copies(j.sc.scheme)
      requires sane ==> Sane(cl, j, c, base, missing)
      requires cl.Valid()
      modifies this`report, cl`files, cl`log
      ensures cl.Valid()
      ensures out.Done? || out.Error?
      ensures old(cl.log) <= cl.log && AllBenign(cl.log, |old(cl.log)|, j, !cl.complete)
      ensures report == old(report).(rebuilt := old(report.rebuilt) + |cl.log| - |old(cl.log)|)
      ensures out.Done? ==> |cl.log| == |old(cl.log)| + |missing|
      ensures AllUp(cl, j.Plan()) ==> out.Done?
      ensures sane ==> Sane(cl, j, c, base, if out.Done? then {} else missing)
      ensures sane ==> AllKeep(cl.log, |old(cl.log)|, base, j, c) && OnlySlots(old(cl.files), cl.files, j)
      ensures cl.quiet && Fits(old(cl.files), j, missing) && out.Done? ==> Fits(cl.files, j, {})
    {
      var todo := missing;
      ghost var fits := cl.quiet && Fits(cl.files, j, missing);
      while todo != {}
        invariant fits ==> Fits(cl.files, j, todo)
        invariant cl.Valid()
        invariant todo <= missing
        invariant old(cl.log) <= cl.log
        invariant FillLog(cl.log, |old(cl.log)|, cl.files, old(cl.files), j, c, base, sane, !cl.complete)
        invariant report == old(report).(rebuilt := old(report.rebuilt) + |cl.log| - |old(cl.log)|)
        invariant |cl.log| == |old(cl.log)| + |missing| - |todo|
        invariant sane ==> Sane(cl, j, c, base, todo)
      {
        var i :| i in todo;
        cl.Others();
        PieceSize(j.sc.scheme, [], i);
        var ok := FillSlot(j, i, Piece(j.sc.scheme, [], i), c, base, todo, sane, |old(cl.log)|, old(cl.files));
        if !ok { return Error; }
        report := report.(rebuilt := report.rebuilt + 1);
        todo := todo - {i};
      }
      out := Done;
    }

    /** Lost full replicas stream from a surviving one. */
    method CopyReplicas(j: Job, lacking: set<nat>, src: nat, ghost c: Bytes, ghost base: Store, ghost sane: bool)
      returns (out: Outcome, missing: set<nat>)
      requires ValidJob(j) && !j.sc.scheme.EC? && forall i :: i in lacking ==> i < Copies(j.sc.scheme)
      requires src < FullReplicas(j.sc.scheme) && src !in lacking
      requires sane ==> Sane(cl, j, c, base, lacking)
      requires cl.Valid()
      modifies this`report, cl`files, cl`log
      ensures cl.Valid()
      ensures out.Done? || out.Error?
      ensures missing <= lacking
      ensures old(cl.log) <= cl.log && AllBenign(cl.log, |old(cl.log)|, j, !cl.complete)
      ensures |cl.log| - |old(cl.log)| == |lacking| - |missing|
      ensures report == old(report).(rebuilt := old(report.rebuilt) + |lacking| - |missing|)
      ensures out.Done? ==> forall i :: i in missing ==> i >= FullReplicas(j.sc.scheme)
      ensures sane && AllUp(cl, j.Plan()) ==> out.Done?
      ensures sane ==> Sane(cl, j, c, base, missing)
      ensures sane ==> AllKeep(cl.log, |old(cl.log)|, base, j, c) && OnlySlots(old(cl.files), cl.files, j)
      ensures cl.quiet && Fits(old(cl.files), j, lacking) ==> Fits(cl.files, j, missing)
    {
      missing := lacking;
      ghost var fits := cl.quiet && Fits(cl.files, j, lacking);
      for i := 0 to FullReplicas(j.sc.scheme)
        invariant fits ==> Fits(cl.files, j, missing)
        invariant cl.Valid()
        invariant missing <= lacking && forall n :: n in missing ==> n >= i || n >= FullReplicas(j.sc.scheme)
        invariant src !in missing
        invariant old(cl.log) <= cl.log
        invariant FillLog(cl.log, |old(cl.log)|, cl.files, old(cl.files), j, c, base, sane, !cl.complete)
        invariant |cl.log| - |old(cl.log)| == |lacking| - |missing|
        invariant report == old(report).(rebuilt := old(report.rebuilt) + |lacking| - |missing|)
        invariant sane ==> Sane(cl, j, c, base, missing)
      {
        if i !in missing { continue; }
        cl.Others();
        var b := cl.Get(Slot(j.Plan(), j.sc.gen, src));
        if !b.Found? || !b.value.Data? { return Error, missing; }
        var ok := FillSlot(j, i, b.value.payload, c, base, missing, sane, |old(cl.log)|, old(cl.files));
        if !ok { return Error, missing; }
        missing := missing - {i};
        report := report.(rebuilt := report.rebuilt + 1);
      }
      out := Done;
    }

    /** Recompute the half-parity from the primary replica. */
    method RebuildParity(j: Job, missing: set<nat>, ghost c: Bytes, ghost base: Store, ghost sane: bool)
      returns (out: Outcome)
      requires ValidJob(j) && j.sc.scheme == RF25 && missing == {2}
      requires sane ==> Sane(cl, j, c, base, missing)
      requires cl.Valid()
      modifies this`report, cl`files, cl`log
      ensures cl.Valid()
      ensures out.Done? || out.Error?
      ensures old(cl.log) <= cl.log && AllBenign(cl.log, |old(cl.log)|, j, !cl.complete)
      ensures |cl.log| == |old(cl.log)| + if out.Done? then 1 else 0
      ensures report == old(report).(rebuilt := old(report.rebuilt) + |cl.log| - |old(cl.log)|)
      ensures sane && AllUp(cl, j.Plan()) ==> out.Done?
      ensures sane ==> Sane(cl, j, c, base, if out.Done? then {} else missing)
      ensures sane ==> AllKeep(cl.log, |old(cl.log)|, base, j, c) && OnlySlots(old(cl.files), cl.files, j)
      ensures cl.quiet && Fits(old(cl.files), j, missing) && out.Done? ==> Fits(cl.files, j, {})
    {
      cl.Others();
      var b := cl.Get(Slot(j.Plan(), j.sc.gen, 0));
      if !b.Found? || !b.value.Data? || SizeOf(b.value.payload) < j.sc.size { return Error; }
      var p := b.value.payload;
      var parity := if p.Replica? && |p.content| == j.sc.size then Parity(p.content) else Other((j.sc.size + 1) / 2);
      var ok := FillSlot(j, 2, parity, c, base, missing, sane, |old(cl.log)|, old(cl.files));
      if !ok { return Error; }
      report := report.(rebuilt := report.rebuilt + 1);
      out := Done;
    }

    method RebuildReplicas(j: Job, lacking: set<nat>, ghost c: Bytes, ghost base: Store, ghost sane: bool)
      returns (out: Outcome, missing: set<nat>)
      requires ValidJob(j) && !j.sc.scheme.EC? && forall i :: i in lacking ==> i < Copies(j.sc.scheme)
      requires sane ==> Sane(cl, j, c, base, lacking)
      requires cl.Valid()
      modifies this`report, cl`files, cl`log
      ensures cl.Valid()
      ensures !out.Newer? && missing <= lacking
      ensures out.Unrecoverable? <==> !Recoverable(j.sc.scheme, lacking)
      ensures old(cl.log) <= cl.log && AllBenign(cl.log, |old(cl.log)|, j, !cl.complete)
      ensures report == old(report).(rebuilt := old(report.rebuilt) + |cl.log| - |old(cl.log)|)
      ensures out.Done? && lacking != {} ==> |cl.log| > |old(cl.log)|
      ensures sane && AllUp(cl, j.Plan()) ==> !out.Error?
      ensures sane ==> Sane(cl, j, c, base, if out.Done? then {} else missing)
      ensures sane ==> AllKeep(cl.log, |old(cl.log)|, base, j, c) && OnlySlots(old(cl.files), cl.files, j)
      ensures cl.quiet && Fits(old(cl.files), j, lacking) && out.Done? ==> Fits(cl.files, j, {})
    {
      missing := lacking;
      var src := 0;
      while src < FullReplicas(j.sc.scheme) && src in lacking
        invariant cl.Valid()
        invariant 0 <= src <= FullReplicas(j.sc.scheme)
        invariant forall n :: 0 <= n < src ==> n in lacking
      {
        src := src + 1;
      }
      if src == FullReplicas(j.sc.scheme) { return Unrecoverable, missing; }
      out, missing := CopyReplicas(j, lacking, src, c, base, sane);
      if !out.Done? { return; }
      if j.sc.scheme == RF25 && 2 in missing {
        assert missing == {2};
        out := RebuildParity(j, missing, c, base, sane);
      } else {
        assert missing == {};
      }
    }

    /** Read every surviving shard: what they jointly decode to. */
    method ReadShards(j: Job, missing: set<nat>, ghost c: Bytes) returns (ok: bool, content: Option<Bytes>)
      requires ValidJob(j) && j.sc.scheme.EC? && forall i :: i in missing ==> i < Copies(j.sc.scheme)
      requires |missing| < Copies(j.sc.scheme)
      ensures HomeExcept(cl.files, j, c, missing) && AllUp(cl, j.Plan()) ==> ok
      ensures ok && HomeExcept(cl.files, j, c, missing) ==> content == Some(c)
      ensures ok && content.Some? ==> HomeExcept(cl.files, j, content.value, missing)
      ensures AllUp(cl, j.Plan()) && Sized(cl.files, j, missing, |j.Plan()|) ==> ok
    {
      content := None;
      var agree := true;
      for i := 0 to |j.Plan()|
        invariant agree ==> ShardsOf(cl.files, j, content, missing, i)
        invariant HomeExcept(cl.files, j, c, missing) ==> agree && (content == None || content == Some(c))
        invariant HomeExcept(cl.files, j, c, missing) && content == None ==> forall n: nat :: n < i ==> n in missing
      {
        if i in missing { continue; }
        var b := cl.Get(Slot(j.Plan(), j.sc.gen, i));
        if !b.Found? || !b.value.Data? { return false, None; }
        var p := b.value.payload;
        if !p.Shard? {
          agree := false;
        } else {
          if content.None? { content := Some(p.content); }
          agree := agree && p == Piece(j.sc.scheme, content.value, i);
        }
      }
      if HomeExcept(cl.files, j, c, missing) && content == None {
        Sets.AllBelow(missing, Copies(j.sc.scheme));
      }
      ok := true;
      if !agree { content := None; }
    }

    /** Write every missing shard of the content read; `content` is what the survivors encode. */
    method FillShards(j: Job, missing: set<nat>, content: Option<Bytes>, ghost c: Bytes, ghost base: Store,
                      ghost sane: bool)
      returns (failed: bool)
      requires ValidJob(j) && j.sc.scheme.EC? && forall i :: i in missing ==> i < Copies(j.sc.scheme)
      requires sane ==> Sane(cl, j, c, base, missing) && content == Some(c)
      requires cl.Valid()
      modifies cl`files, cl`log
      ensures cl.Valid()
      ensures old(cl.log) <= cl.log && AllBenign(cl.log, |old(cl.log)|, j, !cl.complete)
      ensures !failed ==> |cl.log| == |old(cl.log)| + |missing|
      ensures AllUp(cl, j.Plan()) ==> !failed
      ensures sane ==> Sane(cl, j, c, base, if failed then missing else {})
      ensures sane ==> AllKeep(cl.log, |old(cl.log)|, base, j, c) && OnlySlots(old(cl.files), cl.files, j)
      ensures cl.quiet && Fits(old(cl.files), j, missing) && PiecesFit(j, content) && !failed ==> Fits(cl.files, j, {})
    {
      var todo := missing;
      failed := false;
      ghost var fits := cl.quiet && Fits(cl.files, j, missing) && PiecesFit(j, content);
      while todo != {}
        invariant cl.Valid()
        invariant todo <= missing
        invariant old(cl.log) <= cl.log
        invariant FillLog(cl.log, |old(cl.log)|, cl.files, old(cl.files), j, c, base, sane, !cl.complete)
        invariant fits && !failed ==> Fits(cl.files, j, todo)
        invariant !failed ==> |cl.log| == |old(cl.log)| + |missing| - |todo|
        invariant sane ==> Sane(cl, j, c, base, if failed then missing else todo)
        invariant AllUp(cl, j.Plan()) ==> !failed
      {
        var i :| i in todo;
        cl.Others();
        var p := if content.Some? then Piece(j.sc.scheme, content.value, i)
          else Other(PlannedSize(j.sc.scheme, j.sc.size, i));
        var ok := FillSlot(j, i, p, c, base, if failed then missing else todo, sane, |old(cl.log)|, old(cl.files));
        failed := failed || !ok;
        todo := todo - {i};
      }
    }

    /** Reconstruct lost shards from the survivors, straight to their targets. Every sink is
        attempted; one failure fails the rebuild. */
    method RebuildEC(j: Job, missing: set<nat>, ghost c: Bytes, ghost base: Store, ghost sane: bool)
      returns (out: Outcome)
      requires ValidJob(j) && j.sc.scheme.EC? && forall i :: i in missing ==> i < Copies(j.sc.scheme)
      requires sane ==> Sane(cl, j, c, base, missing)
      requires cl.Valid()
      modifies this`report, cl`files, cl`log
      ensures cl.Valid()
      ensures !out.Newer?
      ensures out.Unrecoverable? <==> !Recoverable(j.sc.scheme, missing)
      ensures old(cl.log) <= cl.log && AllBenign(cl.log, |old(cl.log)|, j, !cl.complete)
      ensures report == old(report).(rebuilt := old(report.rebuilt) + if out.Done? then |missing| else 0)
      ensures out.Done? ==> |cl.log| == |old(cl.log)| + |missing|
      ensures sane && AllUp(cl, j.Plan()) ==> !out.Error?
      ensures sane ==> Sane(cl, j, c, base, if out.Done? then {} else missing)
      ensures sane ==> AllKeep(cl.log, |old(cl.log)|, base, j, c) && OnlySlots(old(cl.files), cl.files, j)
      ensures cl.quiet && Fits(old(cl.files), j, missing) && out.Done? ==> Fits(cl.files, j, {})
    {
      if j.sc.scheme.k + j.sc.scheme.m - |missing| < j.sc.scheme.k { return Unrecoverable; }
      cl.Others();
      var read, content := ReadShards(j, missing, c);
      if !read { return Error; }
      if cl.quiet && content.Some? && Fits(cl.files, j, missing) { ShardsFit(cl.files, j, missing, content.value); }
      var failed := FillShards(j, missing, content, c, base, sane);
      if failed { return Error; }
      report := report.(rebuilt := report.rebuilt + |missing|);
      out := Done;
    }

    /** Restore every missing fragment, scheme-aware. The returned set is the code's own
        bookkeeping: parity, shards and empty fragments stay in it although rebuilt. */
    method Rebuild(j: Job, lacking: set<nat>, ghost c: Bytes, ghost base: Store, ghost sane: bool)
      returns (out: Outcome, missing: set<nat>)
      requires ValidJob(j) && forall i :: i in lacking ==> i < Copies(j.sc.scheme)
      requires sane ==> Sane(cl, j, c, base, lacking)
      requires cl.Valid()
      modifies this`report, cl`files, cl`log
      ensures cl.Valid()
      ensures !out.Newer? && missing <= lacking
      ensures out.Unrecoverable? <==> j.sc.size > 0 && lacking != {} && !Recoverable(j.sc.scheme, lacking)
      ensures old(cl.log) <= cl.log && AllBenign(cl.log, |old(cl.log)|, j, !cl.complete)
      ensures report == old(report).(rebuilt := report.rebuilt) && report.rebuilt >= old(report.rebuilt)
      ensures out.Done? ==> report.rebuilt - old(report.rebuilt) == |cl.log| - |old(cl.log)|
      ensures out.Done? && lacking != {} ==> |cl.log| > |old(cl.log)|
      ensures lacking == {} ==> out.Done? && cl.files == old(cl.files) && cl.log == old(cl.log) && report == old(report)
      ensures sane && AllUp(cl, j.Plan()) ==> !out.Error?
      ensures sane ==> Sane(cl, j, c, base, if out.Done? then {} else lacking)
      ensures sane ==> AllKeep(cl.log, |old(cl.log)|, base, j, c) && OnlySlots(old(cl.files), cl.files, j)
      ensures cl.quiet && Fits(old(cl.files), j, lacking) && out.Done? ==> Fits(cl.files, j, {})
    {
      missing := lacking;
      if missing == {} { return Done, missing; }
      if j.sc.size == 0 {
        out := RebuildEmpty(j, missing, c, base, sane);
      } else if j.sc.scheme.EC? {
        out := RebuildEC(j, missing, c, base, sane);
      } else {
        out, missing := RebuildReplicas(j, lacking, c, base, sane);
      }
    }

    /** Track the first sighting of an unattributed generation that a listing named; true once
        it outlived the grace. */
    method StrayExpired(g: string, ghost st: Stretch) returns (expired: bool)
      requires Valid() && Continues(st.notes, Notes())
      requires |st.notes.scans| <= st.scan < |cl.scans| && Shows(cl.scans[st.scan], g)
      modifies this`strays, this`clock, this`sightings
      ensures Valid() && Continues(st.notes, Notes()) && Later(old(Notes()), Notes())
      ensures g !in old(strays) ==>
        && !expired
        && strays == old(strays)[g := clock]
        && sightings == old(sightings) + {Sighting(g, clock, st.scan)}
      ensures g in old(strays) ==>
        && strays == old(strays)
        && sightings == old(sightings)
        && (expired <==> clock - strays[g] >= grace)
      ensures expired ==> Judged(st.notes, Notes(), grace, g)
    {
      var elapsed :| elapsed >= 0;
      clock := clock + elapsed;
      if g !in strays {
        strays := strays[g := clock];
        sightings := sightings + {Sighting(g, clock, st.scan)};
        NotesGrow(st.notes, old(Notes()), Notes(), g, st.scan);
        return false;
      }
      NotesAge(st.notes, old(Notes()), Notes());
      expired := clock - strays[g] >= grace;
    }

    /** Drop sightings of generations that are attributed by now. */
    method ForgetStrays(known: set<string>, current: string)
      requires Valid()
      modifies this`strays
      ensures Valid() && Accrued()
      ensures strays == map g | g in old(strays) && g !in known && g != current :: old(strays)[g]
    {
      var todo := strays.Keys;
      while todo != {}
        invariant todo <= strays.Keys <= old(strays).Keys
        invariant forall g :: g in old(strays) ==> (g in strays <==> g in todo || (g !in known && g != current))
        invariant forall g :: g in strays ==> strays[g] == old(strays)[g]
      {
        var g :| g in todo;
        if g in known || g == current { strays := strays - {g}; }
        todo := todo - {g};
      }
    }

    /** Delete one listed name, unless it is kept or not ours to delete yet. Readings from
        the sweep's start on may excuse a record. */
    method SweepName(j: Job, known: set<string>, at: DiskRef, n: Name, ghost st: Stretch, ghost base: Store)
      returns (ghost fate: Fate)
      requires ValidJob(j) && Valid() && Loc(at, n) in cl.files && Loc(at, n) in base && Listing(st, at, base)
      requires n == Meta && at !in j.Plan() ==> NotNewer(cl.files, at, j.sc) || Unanswered(cl.looks, st.from, at)
      requires cl.Valid()
      modifies this`strays, this`clock, this`sightings, this`report, cl`files, cl`log
      ensures cl.Valid()
      ensures Valid() && Listing(st, at, base) && Later(old(Notes()), Notes())
      ensures fate.Gone? ==>
        && cl.files == old(cl.files) - {Loc(at, n)}
        && cl.log == old(cl.log) + [Erase(old(cl.files), Loc(at, n))]
        && Swept(cl.log[|old(cl.log)|], j, known, Meanwhile(st))
        && report == old(report).(deleted := old(report.deleted) + 1)
      ensures !fate.Gone? ==> cl.files == old(cl.files) && cl.log == old(cl.log) && report == old(report)
      ensures fate.Kept? <==> Keepable(j, at, n)
      ensures fate.Spared? ==> Unattributed(j, known, n)
      ensures Unattributed(j, known, n) ==>
        (fate.Spared? <==> n.gen !in old(strays) || clock - old(strays)[n.gen] < grace)
      ensures fate.Refused? ==> at !in cl.up
    {
      if Keepable(j, at, n) { return Kept; }
      if n.Frag? && n.gen !in known && n.gen != j.sc.gen {
        var expired := StrayExpired(n.gen, st);
        if !expired { return Spared; }
      }
      var gone := cl.Delete(Loc(at, n));
      if !gone.Found? { return Refused; }
      report := report.(deleted := report.deleted + 1);
      fate := Gone;
    }

    /** One more name of a target being swept. */
    method SweepNext(j: Job, known: set<string>, at: DiskRef, n: Name, ghost st: Stretch, ghost base: Store,
                     ghost was: Sparing)
      returns (ghost now: Sparing)
      requires ValidJob(j) && Valid() && n in was.todo && was.todo <= NamesAt(base, at)
      requires was.todo !! was.spared + was.refused
      requires cl.files == SparedStore(base, j, at, was)
      requires at !in j.Plan() ==> NotNewer(base, at, j.sc) || Unanswered(cl.looks, st.from, at)
      requires Listing(st, at, base)
      requires cl.Valid()
      modifies this`strays, this`clock, this`sightings, this`report, cl`files, cl`log
      ensures cl.Valid()
      ensures Valid() && Listing(st, at, base) && Later(old(Notes()), Notes())
      ensures Spares(was, now, n, j, known, at, cl.up)
      ensures cl.files == SparedStore(base, j, at, now)
      ensures old(cl.log) <= cl.log && AllTrim(cl.log, |old(cl.log)|, base, j)
      ensures AllSwept(cl.log, |old(cl.log)|, j, known, Meanwhile(st))
      ensures report == old(report).(deleted := old(report.deleted) + |cl.log| - |old(cl.log)|)
      ensures Keepable(j, at, n) ==> cl.log == old(cl.log)
    {
      SparedNames(base, j, at, was, n);
      var fate := SweepName(j, known, at, n, st, base);
      now := Sparing(was.todo - {n}, was.spared + (if fate.Spared? then {n} else {}),
                     was.refused + if fate.Refused? then {n} else {});
      SparedStep(base, j, at, was, now, n, fate);
    }

    /** Sweep the names listed on one target. */
    method SweepNames(j: Job, known: set<string>, at: DiskRef, names: set<Name>, ghost st: Stretch)
      returns (ghost done: Sparing)
      requires ValidJob(j) && Valid() && names == NamesAt(cl.files, at)
      requires at !in j.Plan() ==> NotNewer(cl.files, at, j.sc) || Unanswered(cl.looks, st.from, at)
      requires Listing(st, at, cl.files)
      requires cl.Valid()
      modifies this`strays, this`clock, this`sightings, this`report, cl`files, cl`log
      ensures cl.Valid()
      ensures Valid() && Continues(st.notes, Notes())
      ensures done.todo == {} && ProperSparing(done, j, known, at, cl.up)
      ensures cl.files == SparedStore(old(cl.files), j, at, done)
      ensures old(cl.log) <= cl.log && AllTrim(cl.log, |old(cl.log)|, old(cl.files), j)
      ensures AllSwept(cl.log, |old(cl.log)|, j, known, Meanwhile(st))
      ensures report == old(report).(deleted := old(report.deleted) + |cl.log| - |old(cl.log)|)
      ensures (forall n :: n in names ==> Keepable(j, at, n)) ==> cl.log == old(cl.log)
    {
      done := Sparing(names, {}, {});
      var todo := names;
      SparedStart(cl.files, j, at);
      while todo != {}
        invariant cl.Valid() && Valid() && Listing(st, at, old(cl.files))
        invariant done.todo == todo <= names && ProperSparing(done, j, known, at, cl.up)
        invariant cl.files == SparedStore(old(cl.files), j, at, done)
        invariant old(cl.log) <= cl.log && AllTrim(cl.log, |old(cl.log)|, old(cl.files), j)
        invariant AllSwept(cl.log, |old(cl.log)|, j, known, Meanwhile(st))
        invariant report == old(report).(deleted := old(report.deleted) + |cl.log| - |old(cl.log)|)
        invariant (forall n :: n in names ==> Keepable(j, at, n)) ==> cl.log == old(cl.log)
      {
        var n :| n in todo;
        ghost var was, log := Meanwhile(st), cl.log;
        done := SweepNext(j, known, at, n, st, old(cl.files), done);
        ContinuesSelf(st.notes);
        SweptOn(log, cl.log, |old(cl.log)|, j, known, was, Meanwhile(st), Meanwhile(st));
        todo := todo - {n};
      }
    }

    /** Sweep one target, atomically: fence on its record, then delete what may go. */
    method SweepTarget(j: Job, known: set<string>, at: DiskRef) returns (newer: Option<Sidecar>, ghost ans: Answers)
      requires ValidJob(j) && Valid()
      requires cl.Valid()
      modifies this`strays, this`clock, this`sightings, this`report, cl
      ensures cl.Valid()
      ensures cl.looks == old(cl.looks) + if ans.dialed then [Reading(at, old(cl.files), ans.read, |old(cl.log)|)]
        else []
      ensures Valid() && Accrued()
      ensures newer == if ans.dialed && ans.read && !NotNewer(old(cl.files), at, j.sc) then RecordAt(old(cl.files), at)
        else None
      ensures newer.Some? ==> newer.value.gen != j.sc.gen && Supersedes(newer.value, j.sc)
      ensures ProperAnswers(ans, j, known, at, cl.up)
      ensures cl.files == SweptStore(old(cl.files), j, at, ans)
      ensures old(cl.log) <= cl.log && AllSwept(cl.log, |old(cl.log)|, j, known, Since())
      ensures AllTrim(cl.log, |old(cl.log)|, old(cl.files), j)
      ensures report == old(report).(deleted := old(report.deleted) + |cl.log| - |old(cl.log)|)
      ensures AllKeepable(old(cl.files), j, {at}) ==> cl.log == old(cl.log)
    {
      newer, ans := None, Answers(false, false, false, {}, {});
      SparedNothing(cl.files, j, at, ans);
      var dialed := cl.Answers(at);
      if !dialed { return; }
      var cur := cl.ReadRecord(at);
      ans := Answers(true, !cur.Failed?, false, {}, {});
      if cur.Found? && cur.value.gen != j.sc.gen && Supersedes(cur.value, j.sc) {
        return Some(cur.value), Answers(true, true, true, {}, {});
      }
      var names := cl.List(at);
      ContinuesSelf(old(Notes()));
      NotesAge(old(Notes()), old(Notes()), Notes());
      if !names.Found? { return; }
      if cur.Failed? { assert !cl.looks[|old(cl.looks)|].answered; }
      ghost var st := Stretch(|old(cl.looks)|, old(Notes()), |old(cl.scans)|);
      ghost var done := SweepNames(j, known, at, names.value, st);
      ans := Answers(true, !cur.Failed?, true, done.spared, done.refused);
    }

    /** Cutover gate: every home slot has its fragment at the planned size. */
    method Gate(j: Job) returns (open: bool)
      requires ValidJob(j)
      requires cl.Valid()
      modifies cl`files, cl`log
      ensures cl.Valid()
      ensures cl.log == old(cl.log)
      ensures cl.quiet ==> cl.files == old(cl.files)
      ensures cl.quiet && open ==> Sized(cl.files, j, {}, |j.Plan()|)
      ensures cl.quiet && AllUp(cl, j.Plan()) && Sized(cl.files, j, {}, |j.Plan()|) ==> open
    {
      for i := 0 to |j.Plan()|
        invariant cl.Valid()
        invariant cl.log == old(cl.log)
        invariant cl.quiet ==> cl.files == old(cl.files) && Sized(cl.files, j, {}, i)
      {
        cl.Others();
        var size := cl.Stat(Slot(j.Plan(), j.sc.gen, i));
        if size != Found(PlannedSize(j.sc.scheme, j.sc.size, i)) {
          assert i !in {};
          return false;
        }
      }
      open := true;
    }

    /** Retire what should no longer exist, once every home slot was seen in place. */
    method RelocationSweep(j: Job, known: set<string>, targets: set<DiskRef>, ghost c: Bytes, ghost base: Store,
                           ghost sane: bool)
      returns (out: Outcome, ghost swept: bool)
      requires ValidJob(j) && Valid()
      requires sane ==> cl.quiet && SlotsSound(cl.files, j, c, 0)
      requires cl.Valid()
      modifies this`strays, this`clock, this`sightings, this`report, cl
      ensures cl.Valid()
      ensures old(cl.looks) <= cl.looks
      ensures Valid() && Accrued()
      ensures out.Done? || out.Newer?
      ensures out.Newer? ==> NewerFound(out, j, cl.looks, |old(cl.looks)|)
      ensures old(cl.log) <= cl.log && AllSwept(cl.log, |old(cl.log)|, j, known, Since())
      ensures report == old(report).(deleted := old(report.deleted) + |cl.log| - |old(cl.log)|)
      ensures !swept ==> cl.log == old(cl.log) && out.Done?
      ensures cl.quiet && swept ==> Sized(old(cl.files), j, {}, |j.Plan()|)
      ensures cl.quiet && AllUp(cl, j.Plan()) && Sized(old(cl.files), j, {}, |j.Plan()|) ==> swept
      ensures cl.quiet ==> Trims(old(cl.files), cl.files, j)
      ensures sane ==> AllKeep(cl.log, |old(cl.log)|, base, j, c)
      ensures cl.quiet && out.Done? && swept ==> Clean(cl.files, cl.up, j, known, targets)
      ensures cl.quiet && (forall at :: at in targets ==> NotNewer(old(cl.files), at, j.sc)) ==> out.Done?
      ensures cl.quiet && AllKeepable(old(cl.files), j, targets) ==> cl.log == old(cl.log) && cl.files == old(cl.files)
      ensures swept && out.Done? ==> forall g :: g in strays ==> g !in known && g != j.sc.gen
    {
      var open := Gate(j);
      swept := open;
      if !open { return Done, false; }
      ghost var gated := cl.files;
      out := SweepAll(j, known, targets, gated);
      if sane { TrimKeeps(cl.log, |old(cl.log)|, base, gated, j, c); }
    }

    /** One more target of the sweep. */
    method SweepStep(j: Job, known: set<string>, at: DiskRef, ghost gated: Store, ghost done: set<DiskRef>)
      returns (newer: Option<Sidecar>)
      requires ValidJob(j) && Valid()
      requires cl.quiet ==> Trims(gated, cl.files, j) && Clean(cl.files, cl.up, j, known, done)
      requires cl.Valid()
      modifies this`strays, this`clock, this`sightings, this`report, cl
      ensures cl.Valid()
      ensures old(cl.looks) <= cl.looks
      ensures Valid() && Accrued()
      ensures newer.Some? ==>
        && newer.value.gen != j.sc.gen
        && Supersedes(newer.value, j.sc)
        && WasRead(cl.looks, |old(cl.looks)|, newer.value)
      ensures old(cl.log) <= cl.log && AllSwept(cl.log, |old(cl.log)|, j, known, Since())
      ensures report == old(report).(deleted := old(report.deleted) + |cl.log| - |old(cl.log)|)
      ensures cl.quiet ==> Trims(gated, cl.files, j) && AllTrim(cl.log, |old(cl.log)|, gated, j)
      ensures cl.quiet && newer.None? ==> Clean(cl.files, cl.up, j, known, done + {at})
      ensures cl.quiet && NotNewer(gated, at, j.sc) ==> newer.None?
      ensures cl.quiet && AllKeepable(gated, j, {at}) ==> cl.log == old(cl.log) && cl.files == old(cl.files)
    {
      cl.Others();
      if cl.quiet { TrimsNotNewer(gated, cl.files, j, at); }
      ghost var was, log := cl.files, |cl.log|;
      ghost var ans;
      newer, ans := SweepTarget(j, known, at);
      if newer.Some? { assert Got(cl.looks[|old(cl.looks)|]) == newer; }
      if cl.quiet {
        SweepFrame(gated, was, j, known, at, ans, cl.up, done);
        TrimsChain(gated, was, j, cl.log, log);
      }
    }

    /** Visit every target in turn; a superseding record ends the sweep. */
    method SweepAll(j: Job, known: set<string>, targets: set<DiskRef>, ghost gated: Store) returns (out: Outcome)
      requires ValidJob(j) && Valid() && (cl.quiet ==> cl.files == gated)
      requires cl.Valid()
      modifies this`strays, this`clock, this`sightings, this`report, cl
      ensures cl.Valid()
      ensures old(cl.looks) <= cl.looks
      ensures Valid() && Accrued()
      ensures out.Done? || (out.Newer? && NewerFound(out, j, cl.looks, |old(cl.looks)|))
      ensures old(cl.log) <= cl.log && AllSwept(cl.log, |old(cl.log)|, j, known, Since())
      ensures report == old(report).(deleted := old(report.deleted) + |cl.log| - |old(cl.log)|)
      ensures cl.quiet ==> Trims(gated, cl.files, j) && AllTrim(cl.log, |old(cl.log)|, gated, j)
      ensures cl.quiet && out.Done? ==> Clean(cl.files, cl.up, j, known, targets)
      ensures cl.quiet && (forall at :: at in targets ==> NotNewer(gated, at, j.sc)) ==> out.Done?
      ensures cl.quiet && AllKeepable(gated, j, targets) ==> cl.log == old(cl.log) && cl.files == gated
      ensures out.Done? ==> forall g :: g in strays ==> g !in known && g != j.sc.gen
    {
      var todo := targets;
      while todo != {}
        invariant cl.Valid()
        invariant old(cl.looks) <= cl.looks
        invariant Valid() && Accrued()
        invariant todo <= targets
        invariant old(cl.log) <= cl.log && AllSwept(cl.log, |old(cl.log)|, j, known, Since())
        invariant report == old(report).(deleted := old(report.deleted) + |cl.log| - |old(cl.log)|)
        invariant cl.quiet ==> Trims(gated, cl.files, j) && AllTrim(cl.log, |old(cl.log)|, gated, j)
        invariant cl.quiet ==> Clean(cl.files, cl.up, j, known, targets - todo)
        invariant cl.quiet && AllKeepable(gated, j, targets) ==> cl.log == old(cl.log) && cl.files == gated
      {
        var at :| at in todo;
        ghost var log, notes, looks := cl.log, Notes(), cl.looks;
        var newer := SweepStep(j, known, at, gated, targets - todo);
        EvidenceOn(old(Notes()), notes, Notes(), old(cl.looks), looks, cl.looks, grace, log, cl.log, |old(cl.log)|, j,
                   known);
        if cl.quiet { TrimOn(log, cl.log, |old(cl.log)|, gated, j); }
        if newer.Some? {
          WasReadSince(cl.looks, |looks|, |old(cl.looks)|, newer.value);
          return Newer(newer.value);
        }
        assert targets - todo + {at} == targets - (todo - {at});
        todo := todo - {at};
      }
      ghost var last := Notes();
      ForgetStrays(known, j.sc.gen);
      EvidenceOn(old(Notes()), last, Notes(), old(cl.looks), cl.looks, cl.looks, grace, cl.log, cl.log, |old(cl.log)|,
                 j, known);
      out := Done;
    }

    /** The survey, with what it means for the object's fragments. */
    method SurveyObject(j: Job, ghost c: Bytes) returns (out: Outcome, missing: set<nat>)
      requires ValidJob(j)
      requires cl.Valid()
      modifies this`report, cl`files, cl`log, cl`looks
      ensures cl.Valid()
      ensures old(cl.looks) <= cl.looks
      ensures out.Done? || out.Newer? || out.Error?
      ensures out.Newer? ==> NewerFound(out, j, cl.looks, |old(cl.looks)|)
      ensures forall i :: i in missing ==> i < Copies(j.sc.scheme)
      ensures old(cl.log) <= cl.log && AllBenign(cl.log, |old(cl.log)|, j, !cl.complete)
      ensures report == old(report).(rewritten := old(report.rewritten) + |cl.log| - |old(cl.log)|)
      ensures cl.Still()
      ensures old(Trust(cl, j, c, Verified(j.sc))) ==>
        AllKeep(cl.log, |old(cl.log)|, old(cl.files), j, c) && Keeps(old(cl.files), cl.files, j, c) &&
          OffHome(old(cl.files), cl.files, j)
      ensures old(Trust(cl, j, c, Verified(j.sc))) && out.Done? ==>
        && Checked(cl.files, j, c, missing, 0, Verified(j.sc))
        && CopiesSound(cl.files, j, c)
        && NewerOnly(old(cl.files), cl.files, j)
      ensures cl.quiet && out.Done? ==> Recorded(cl.files, j, |j.Plan()|) && Fits(cl.files, j, missing)
      ensures cl.quiet && AllUp(cl, j.Plan()) && NoneNewer(old(cl.files), j, |j.Plan()|) ==> out.Done?
      ensures old(Trust(cl, j, c, Verified(j.sc))) && AllUp(cl, j.Plan()) && out.Done? ==>
        AllLost(cl.files, j, c, missing)
      ensures old(Trust(cl, j, c, Verified(j.sc))) && AllUp(cl, j.Plan()) && Settled(old(cl.files), j, c) ==>
        out.Done? && missing == {} && cl.log == old(cl.log) && report == old(report)
    {
      ghost var sane := Trust(cl, j, c, Verified(j.sc));
      ghost var base := cl.files;
      out, missing := Survey(j);
      SurveyedFacts(base, j, |j.Plan()|);
      if cl.quiet && out.Done? { SurveyFits(base, cl.files, j, missing); }
      if sane {
        SurveyKeeps(base, cl.files, cl.log, |old(cl.log)|, j, c);
        if out.Done? {
          SurveyChecked(base, cl.files, j, c, missing, Verified(j.sc));
          if AllUp(cl, j.Plan()) { SurveyLost(base, cl.files, j, c, missing); }
        }
        if Settled(base, j, c) && AllUp(cl, j.Plan()) {
          SettledFacts(base, j, c);
          SettledLacksNothing(base, j, c, missing);
        }
      }
    }

    /** Survey and verification. */
    method Assess(j: Job, ghost c: Bytes) returns (out: Outcome, missing: set<nat>)
      requires ValidJob(j)
      requires cl.Valid()
      modifies this`report, cl`files, cl`log, cl`looks
      ensures cl.Valid()
      ensures old(cl.looks) <= cl.looks
      ensures out.Done? || out.Newer? || out.Error?
      ensures out.Newer? ==> NewerFound(out, j, cl.looks, |old(cl.looks)|)
      ensures forall i :: i in missing ==> i < Copies(j.sc.scheme)
      ensures old(cl.log) <= cl.log && AllBenign(cl.log, |old(cl.log)|, j, !cl.complete)
      ensures report == old(report).(rewritten := report.rewritten, corrupt := report.corrupt)
      ensures old(report.rewritten) <= report.rewritten <= old(report.rewritten) + |cl.log| - |old(cl.log)|
      ensures out.Done? && |cl.log| > |old(cl.log)| && missing == {} ==> report.rewritten > old(report.rewritten)
      ensures cl.Still()
      ensures old(Trust(cl, j, c, Verified(j.sc))) ==>
        AllKeep(cl.log, |old(cl.log)|, old(cl.files), j, c) && Keeps(old(cl.files), cl.files, j, c) &&
          OffHome(old(cl.files), cl.files, j)
      ensures old(Trust(cl, j, c, Verified(j.sc))) && out.Done? ==>
        && Sane(cl, j, c, old(cl.files), missing)
        && NewerOnly(old(cl.files), cl.files, j)
      ensures cl.quiet && out.Done? ==> Recorded(cl.files, j, |j.Plan()|) && Fits(cl.files, j, missing)
      ensures cl.quiet && AllUp(cl, j.Plan()) && NoneNewer(old(cl.files), j, |j.Plan()|) ==> out.Done?
      ensures old(Trust(cl, j, c, Verified(j.sc))) && AllUp(cl, j.Plan()) && out.Done? ==>
        AllLost(cl.files, j, c, missing)
      ensures old(Trust(cl, j, c, Verified(j.sc))) && AllUp(cl, j.Plan()) && Settled(old(cl.files), j, c) ==>
        out.Done? && missing == {} && cl.log == old(cl.log) && report == old(report)
    {
      ghost var sane := Trust(cl, j, c, Verified(j.sc));
      ghost var base := cl.files;
      out, missing := SurveyObject(j, c);
      if !out.Done? { return; }
      ghost var surveyed, lacking, n := cl.files, missing, |cl.log|;
      missing := VerifyReplicas(j, missing, c, base, sane);
      if cl.quiet { BenignAlong(cl.log, cl.start, cl.files, n, j, !cl.complete, false, false, true); }
      if sane {
        DropsFacts(surveyed, cl.files, j, c);
        assert missing == lacking + (missing - lacking);
      }
    }

    /** Old-placement copies first, a cluster-wide hunt when those are not enough, then the
        scheme's own rebuild. */
    method Refill(j: Job, lacking: set<nat>, sources: map<nat, seq<DiskRef>>, disks: seq<DiskRef>, ghost c: Bytes,
                  ghost base: Store, ghost sane: bool)
      returns (out: Outcome, missing: set<nat>)
      requires ValidJob(j) && forall i :: i in lacking ==> i < Copies(j.sc.scheme)
      requires sane ==> Sane(cl, j, c, base, lacking)
      requires cl.Valid()
      modifies this`report, cl`files, cl`log
      ensures cl.Valid()
      ensures !out.Newer? && missing <= lacking
      ensures old(cl.log) <= cl.log && AllBenign(cl.log, |old(cl.log)|, j, !cl.complete)
      ensures report == old(report).(rebuilt := report.rebuilt) && report.rebuilt >= old(report.rebuilt)
      ensures out.Done? ==> report.rebuilt - old(report.rebuilt) == |cl.log| - |old(cl.log)|
      ensures out.Done? && lacking != {} ==> |cl.log| > |old(cl.log)|
      ensures lacking == {} ==> out.Done? && cl.log == old(cl.log) && report == old(report) && cl.Still()
      ensures sane ==> Sane(cl, j, c, base, if out.Done? then {} else lacking)
      ensures sane ==> AllKeep(cl.log, |old(cl.log)|, base, j, c) && OnlySlots(old(cl.files), cl.files, j)
      ensures sane && AllPlansUp(cl, j) && Covers(j, sources) && AllLost(old(cl.files), j, c, lacking) ==>
        (Enough(base, j, c) ==> out.Done?)
      ensures sane && AllPlansUp(cl, j) && Covers(j, sources) && AllLost(old(cl.files), j, c, lacking) ==>
        (DisksUp(disks, cl.up) && EnoughOn(old(cl.files), j, c, disks) ==> out.Done?)
      ensures cl.quiet && Fits(old(cl.files), j, lacking) && out.Done? ==> Fits(cl.files, j, {})
      ensures cl.quiet && Recorded(old(cl.files), j, |j.Plan()|) ==> Recorded(cl.files, j, |j.Plan()|)
    {
      missing := Restore(j, lacking, sources, disks, c, base, sane);
      ghost var log := cl.log;
      out, missing := Rebuild(j, missing, c, base, sane);
      StepsJoin(log, cl.log, |old(cl.log)|, j, c, base, sane, !cl.complete);
      if cl.quiet && Recorded(old(cl.files), j, |j.Plan()|) {
        BenignAlong(cl.log, cl.start, cl.files, |old(cl.log)|, j, !cl.complete, false, false, true);
      }
    }

    /** Copies from known places, and from anywhere when those do not suffice. */
    method Restore(j: Job, lacking: set<nat>, sources: map<nat, seq<DiskRef>>, disks: seq<DiskRef>, ghost c: Bytes,
                   ghost base: Store, ghost sane: bool)
      returns (missing: set<nat>)
      requires ValidJob(j) && forall i :: i in lacking ==> i < Copies(j.sc.scheme)
      requires sane ==> Sane(cl, j, c, base, lacking)
      requires cl.Valid()
      modifies this`report, cl`files, cl`log
      ensures cl.Valid()
      ensures missing <= lacking
      ensures old(cl.log) <= cl.log && AllBenign(cl.log, |old(cl.log)|, j, !cl.complete)
      ensures |cl.log| - |old(cl.log)| == |lacking| - |missing|
      ensures report == old(report).(rebuilt := old(report.rebuilt) + |lacking| - |missing|)
      ensures cl.Still()
      ensures sane ==> Sane(cl, j, c, base, missing)
      ensures sane ==> AllKeep(cl.log, |old(cl.log)|, base, j, c) && OnlySlots(old(cl.files), cl.files, j)
      ensures sane && AllPlansUp(cl, j) && Covers(j, sources) && AllLost(old(cl.files), j, c, lacking) ==>
        (Enough(base, j, c) && j.sc.size > 0 ==> Recoverable(j.sc.scheme, missing))
      ensures sane && AllPlansUp(cl, j) && Covers(j, sources) && AllLost(old(cl.files), j, c, lacking) ==>
        (DisksUp(disks, cl.up) && EnoughOn(old(cl.files), j, c, disks) && j.sc.size > 0 ==>
           Recoverable(j.sc.scheme, missing))
      ensures cl.quiet && Fits(old(cl.files), j, lacking) ==> Fits(cl.files, j, missing)
    {
      missing := RestoreFromCopies(j, lacking, sources, c, base, sane);
      ghost var lost := AllLost(old(cl.files), j, c, lacking);
      if sane && AllPlansUp(cl, j) && Covers(j, sources) && lost && Enough(base, j, c) && j.sc.size > 0 {
        EnoughRecoverable(cl, j, c, base, missing, sources);
      }
      if j.sc.size > 0 && !Recoverable(j.sc.scheme, missing) {
        ghost var first, was, log := missing, cl.files, cl.log;
        missing := RestoreFromCopies(j, missing, map i | i in missing :: disks, c, base, sane);
        StepsJoin(log, cl.log, |old(cl.log)|, j, c, base, sane, !cl.complete);
        if sane && AllPlansUp(cl, j) && Covers(j, sources) && lost && DisksUp(disks, cl.up) &&
          EnoughOn(old(cl.files), j, c, disks) {
          ExhaustedOnlySlots(was, cl.files, cl.up, j, missing, sources);
          ExhaustedFewer(cl.files, cl.up, j, first, missing, disks);
          HuntRecoverable(cl, j, c, old(cl.files), missing, sources, disks);
        }
      }
    }

    /** Old-placement copies of one fragment: previous epochs' targets, newest first, then
        what the scrubber found on a local disk. */
    method SourcesOf(j: Job, local: Option<LocalFragments>, i: nat) returns (r: seq<DiskRef>)
      requires ValidJob(j) && i < Copies(j.sc.scheme)
      ensures r == OldTargets(j, i, |j.plans|) + LocalCopies(j, local, i)
    {
      r := [];
      for p := 1 to |j.plans|
        invariant r == OldTargets(j, i, p)
      {
        r := r + [j.plans[p][i]];
      }
      if local.Some? && j.sc.gen in local.value.gens && i in local.value.gens[j.sc.gen] {
        r := r + [local.value.at];
      }
    }

    method FragmentSources(j: Job, local: Option<LocalFragments>) returns (sources: map<nat, seq<DiskRef>>)
      requires ValidJob(j)
      ensures SourcesFor(j, sources, local) && Covers(j, sources)
    {
      sources := map[];
      for i := 0 to Copies(j.sc.scheme)
        invariant forall n: nat :: n in sources <==> n < i
        invariant forall n :: n in sources ==> sources[n] == OldTargets(j, n, |j.plans|) + LocalCopies(j, local, n)
      {
        var r := SourcesOf(j, local, i);
        sources := sources[i := r];
      }
    }

    /** Data/parity consistency across a complete shard set; a failure is only reported. */
    method VerifyEC(j: Job, ghost c: Bytes)
      requires ValidJob(j) && j.sc.scheme.EC?
      requires cl.Valid()
      modifies this`report, cl`files, cl`log
      ensures cl.Valid()
      ensures cl.log == old(cl.log) && cl.Still()
      ensures report == old(report).(unverified := report.unverified)
      ensures cl.quiet && HomeExcept(cl.files, j, c, {}) ==> report == old(report)
      ensures cl.quiet && AllUp(cl, j.Plan()) && Sized(cl.files, j, {}, |j.Plan()|) && Inconsistent(cl.files, j) ==>
        report.unverified
    {
      cl.Others();
      if j.sc.size == 0 { return; }
      var read, content := ReadShards(j, {}, c);
      if read && content.None? { report := report.(unverified := true); }
    }

    /** Look for sources of what is missing, and refill. */
    method BringHome(j: Job, lacking: set<nat>, local: Option<LocalFragments>, disks: seq<DiskRef>, ghost c: Bytes,
                     ghost base: Store, ghost sane: bool)
      returns (out: Outcome, missing: set<nat>, sources: map<nat, seq<DiskRef>>)
      requires ValidJob(j) && forall i :: i in lacking ==> i < Copies(j.sc.scheme)
      requires sane ==> Sane(cl, j, c, base, lacking) && OffHome(base, cl.files, j)
      requires cl.Valid()
      modifies this`report, cl`files, cl`log
      ensures cl.Valid()
      ensures !out.Newer? && SourcesFor(j, sources, local)
      ensures old(cl.log) <= cl.log && AllBenign(cl.log, |old(cl.log)|, j, !cl.complete)
      ensures report == old(report).(rebuilt := report.rebuilt) && report.rebuilt >= old(report.rebuilt)
      ensures out.Done? ==> report.rebuilt - old(report.rebuilt) == |cl.log| - |old(cl.log)|
      ensures out.Done? && lacking != {} ==> |cl.log| > |old(cl.log)|
      ensures lacking == {} ==>
        out.Done? && missing == {} && cl.log == old(cl.log) && report == old(report) && cl.Still()
      ensures sane ==> AllKeep(cl.log, |old(cl.log)|, base, j, c) && NewerOnly(old(cl.files), cl.files, j)
      ensures sane && out.Done? ==> HomeExcept(cl.files, j, c, {}) && SlotsSound(cl.files, j, c, 0)
      ensures sane && AllPlansUp(cl, j) && AllLost(old(cl.files), j, c, lacking) ==>
        (Enough(base, j, c) || (DisksUp(disks, cl.up) && EnoughOn(base, j, c, disks)) ==> out.Done?)
      ensures cl.quiet && Fits(old(cl.files), j, lacking) && out.Done? ==> Fits(cl.files, j, {})
      ensures cl.quiet && Recorded(old(cl.files), j, |j.Plan()|) ==> Recorded(cl.files, j, |j.Plan()|)
    {
      ghost var assessed := cl.files;
      sources := FragmentSources(j, local);
      if sane && EnoughOn(base, j, c, disks) { EnoughOnMoves(base, assessed, j, c, disks); }
      out, missing := Refill(j, lacking, sources, disks, c, base, sane);
      if sane { SlotsNotNewer(assessed, cl.files, j); }
      if sane && out.Done? { RefillFacts(assessed, cl.files, j, c); }
    }

    /** The pass up to the point where every fragment is home. */
    method Mend(j: Job, local: Option<LocalFragments>, disks: seq<DiskRef>, ghost c: Bytes)
      returns (out: Outcome, missing: set<nat>, sources: map<nat, seq<DiskRef>>)
      requires ValidJob(j)
      requires cl.Valid()
      modifies this`report, cl`files, cl`log, cl`looks
      ensures cl.Valid()
      ensures old(cl.looks) <= cl.looks
      ensures out.Newer? ==> NewerFound(out, j, cl.looks, |old(cl.looks)|)
      ensures out.Done? ==> SourcesFor(j, sources, local)
      ensures old(cl.log) <= cl.log && AllBenign(cl.log, |old(cl.log)|, j, !cl.complete)
      ensures report == old(report).(rewritten := report.rewritten, corrupt := report.corrupt,
        rebuilt := report.rebuilt)
      ensures out.Done? ==>
        Work(report) >= Work(old(report)) && (Work(report) > Work(old(report)) <==> |cl.log| > |old(cl.log)|)
      ensures old(Trust(cl, j, c, Verified(j.sc))) ==> AllKeep(cl.log, |old(cl.log)|, old(cl.files), j, c)
      ensures old(Trust(cl, j, c, Verified(j.sc))) && out.Done? ==>
        Settled(cl.files, j, c) && SlotsSound(cl.files, j, c, 0) && NewerOnly(old(cl.files), cl.files, j)
      ensures cl.quiet && out.Done? ==> Recorded(cl.files, j, |j.Plan()|) && Fits(cl.files, j, {})
      ensures cl.quiet ==> RecordsKept(cl.files, j, old(Leads(cl.files, j.sc)), old(Prevails(cl.files, j)), false)
      ensures cl.quiet ==>
        AllRecordsKept(cl.log, |old(cl.log)|, j, old(Leads(cl.files, j.sc)), old(Prevails(cl.files, j)), false)
      ensures old(Trust(cl, j, c, Verified(j.sc)) && Servable(cl, j, local, c)) ==> out.Done?
      ensures old(Trust(cl, j, c, Verified(j.sc)) && Findable(cl, j, local, disks, c)) ==> out.Done?
      ensures old(Trust(cl, j, c, Verified(j.sc)) && AllUp(cl, j.Plan()) && Settled(cl.files, j, c)) ==>
        out.Done? && missing == {} && cl.files == old(cl.files) && cl.log == old(cl.log) && report == old(report)
    {
      ghost var sane := Trust(cl, j, c, Verified(j.sc));
      ghost var base := cl.files;
      if Unopposed(base, j, local) { PlanNotNewer(base, j, local); }
      sources := map[];
      out, missing := Assess(j, c);
      if AllPlansUp(cl, j) { assert AllUp(cl, j.plans[0]); }
      if out.Done? {
        ghost var log := cl.log;
        out, missing, sources := BringHome(j, missing, local, disks, c, base, sane);
        StepsJoin(log, cl.log, |old(cl.log)|, j, c, base, sane, !cl.complete);
      }
      if cl.quiet {
        BenignAlong(cl.log, cl.start, cl.files, |old(cl.log)|, j, !cl.complete, Leads(base, j.sc), Prevails(base, j),
                    false);
      }
    }

    /** Consistency check and sweep of a mended object. */
    method Retire(j: Job, known: set<string>, local: Option<LocalFragments>, sources: map<nat, seq<DiskRef>>,
                  missing: set<nat>, ghost c: Bytes, ghost base: Store, ghost sane: bool)
      returns (out: Outcome)
      requires ValidJob(j) && Valid() && SourcesFor(j, sources, local)
      requires sane ==>
        cl.quiet && Settled(cl.files, j, c) && SlotsSound(cl.files, j, c, 0) && Sized(cl.files, j, {}, |j.Plan()|)
      requires cl.Valid()
      modifies this`strays, this`clock, this`sightings, this`report, cl
      ensures cl.Valid()
      ensures old(cl.looks) <= cl.looks
      ensures Valid() && Accrued()
      ensures out.Done? || out.Newer?
      ensures out.Newer? ==> NewerFound(out, j, cl.looks, |old(cl.looks)|)
      ensures old(cl.log) <= cl.log && AllSwept(cl.log, |old(cl.log)|, j, known, Since())
      ensures report == old(report).(deleted := old(report.deleted) + |cl.log| - |old(cl.log)|,
        unverified := report.unverified)
      ensures sane ==>
        AllKeep(cl.log, |old(cl.log)|, base, j, c) && Settled(cl.files, j, c) &&
          report.unverified == old(report.unverified)
      ensures sane && out.Done? && AllUp(cl, j.Plan()) ==> Clean(cl.files, cl.up, j, known, SweepSet(j, local))
      ensures sane && Unopposed(old(cl.files), j, local) ==> out.Done?
      ensures sane && Fixpoint(old(cl.files), j, local, c) ==>
        out.Done? && cl.files == old(cl.files) && cl.log == old(cl.log)
      ensures cl.quiet && Fits(old(cl.files), j, {}) ==> Fits(cl.files, j, {})
      ensures cl.quiet && Recorded(old(cl.files), j, |j.Plan()|) ==>
        Recorded(cl.files, j, |j.Plan()|) &&
        AllRecordsKept(cl.log, |old(cl.log)|, j, old(Leads(cl.files, j.sc)), old(Prevails(cl.files, j)), true)
    {
      if verify && j.sc.scheme.EC? && missing == {} { VerifyEC(j, c); }
      ghost var was := cl.files;
      SweepTargetsSpec(j, sources, local);
      if sane && Fixpoint(was, j, local, c) { FixpointNotNewer(was, j, local, c); }
      ghost var swept;
      out, swept := RelocationSweep(j, known, SweepTargets(j, sources, local), c, base, sane);
      if sane { TrimsSettled(was, cl.files, j, c); }
      if cl.quiet && Fits(was, j, {}) { TrimsFit(was, cl.files, j); }
      if cl.quiet && Recorded(was, j, |j.Plan()|) {
        SweptAlong(cl.log, cl.start, cl.files, |old(cl.log)|, j, known, Since(), Leads(was, j.sc), Prevails(was, j));
      }
    }

    /** One repair attempt against a fixed authoritative record, up to and including the
        sweep. `disks` is every disk of the current topology. */
    method HealPass(j: Job, known: set<string>, local: Option<LocalFragments>, disks: seq<DiskRef>, ghost c: Bytes)
      returns (out: Outcome, missing: set<nat>)
      requires ValidJob(j) && Valid()
      requires cl.Valid()
      modifies this`strays, this`clock, this`sightings, this`report, cl
      ensures cl.Valid()
      ensures old(cl.looks) <= cl.looks
      ensures Valid() && Accrued()
      ensures out.Newer? ==> NewerFound(out, j, cl.looks, |old(cl.looks)|)
      ensures old(cl.log) <= cl.log && AllLegit(cl.log, |old(cl.log)|, j, known, Since(), !cl.complete)
      ensures old(Trust(cl, j, c, Verified(j.sc))) ==> AllKeep(cl.log, |old(cl.log)|, old(cl.files), j, c)
      ensures old(Trust(cl, j, c, Verified(j.sc))) && out.Done? ==> Settled(cl.files, j, c)
      ensures old(Trust(cl, j, c, Verified(j.sc))) && out.Done? && AllUp(cl, j.Plan()) ==>
        Clean(cl.files, cl.up, j, known, SweepSet(j, local))
      ensures report.converted == old(report.converted)
      ensures out.Done? ==>
        Work(report) >= Work(old(report)) && (Work(report) > Work(old(report)) <==> |cl.log| > |old(cl.log)|)
      ensures old(Trust(cl, j, c, Verified(j.sc)) && Servable(cl, j, local, c)) ==> out.Done?
      ensures old(Trust(cl, j, c, Verified(j.sc)) && Findable(cl, j, local, disks, c)) ==> out.Done?
      ensures old(Trust(cl, j, c, Verified(j.sc)) && AllUp(cl, j.Plan()) && Fixpoint(cl.files, j, local, c)) ==>
        out.Done? && missing == {} && cl.files == old(cl.files) && cl.log == old(cl.log) && report == old(report)
      ensures cl.quiet ==>
        AllRecordsKept(cl.log, |old(cl.log)|, j, old(Leads(cl.files, j.sc)), old(Prevails(cl.files, j)), false)
      ensures cl.quiet && out.Done? ==> Recorded(cl.files, j, |j.Plan()|) && Fits(cl.files, j, {})
    {
      ghost var sane := Trust(cl, j, c, Verified(j.sc));
      ghost var base := cl.files;
      var sources;
      out, missing, sources := Mend(j, local, disks, c);
      if !out.Done? { return; }
      ghost var log, looks, mended := cl.log, cl.looks, cl.files;
      if sane { StillUnopposed(base, mended, j, local); }
      out := Retire(j, known, local, sources, missing, c, base, sane);
      HealLegit(old(Notes()), Notes(), old(cl.looks), looks, cl.looks, grace, log, cl.log, |old(cl.log)|, j, known,
                !cl.complete);
      if cl.quiet {
        RecordsJoin(log, cl.log, |old(cl.log)|, j, Leads(base, j.sc), Prevails(base, j), Leads(mended, j.sc),
                    Prevails(mended, j));
      }
    }
  }
}
