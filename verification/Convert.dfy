/**
 Scheme conversion: a healthy object rewritten under its bucket's current scheme, every
 new fragment and record in place before the old generation is retired.
 */
module Convert {
  import opened Records
  import opened Peers
  import opened Writes
  import Reads
  import Lex
  import Sets

  /** The converted record keeps the object's identity; only the sequence number advances. */
  function Rewritten(sc: Sidecar, target: Scheme, gen: string): Sidecar {
    sc.(scheme := target, gen := gen, seqNo := sc.seqNo + 1)
  }

  /** The converted record supersedes its source, and a user write built on the same
      predecessor beats it exactly when it is stamped later, or at the same instant with
      the greater generation. */
  lemma RaceIff(sc: Sidecar, target: Scheme, gen: string, req: PutRequest, s: Scheme, g: string, now: int)
    ensures Supersedes(Rewritten(sc, target, gen), sc)
    ensures Supersedes(NewRecord(req, s, g, now, Some(sc)), Rewritten(sc, target, gen))
      <==> now > sc.modified || (now == sc.modified && Lex.Less(gen, g))
  {
  }

  /** Committing overwrites whatever the targets hold: a record of a racing write survives
      the commit exactly when it is also somewhere else. */
  lemma {:induction false} CommitBuriesIff(files: Store, layout: Layout, mine: Sidecar, n: nat, theirs: Sidecar)
    requires n <= |layout| && mine != theirs
    ensures IsRecord(WithRecords(files, layout, mine, n), theirs)
      <==> exists at :: at !in layout[..n] && RecordAt(files, at) == Some(theirs)
  {
    var after := WithRecords(files, layout, mine, n);
    WithRecordsFacts(files, layout, mine, n);
    forall at
      ensures RecordAt(after, at) == Some(theirs) <==> at !in layout[..n] && RecordAt(files, at) == Some(theirs)
    {
      if at in layout[..n] {
        var i :| 0 <= i < n && layout[i] == at;
      } else {
        WithRecordsElsewhere(files, layout, mine, n, at);
      }
    }
  }

  // ---- Never below either guarantee ----

  /** Every fragment of the generation is in place. */
  ghost predicate Whole(files: Store, layout: Layout, sc: Sidecar, c: Bytes) {
    InPlace(files, layout, sc.scheme, sc.gen, c, |layout|)
  }

  /** A conversion from one layout and record to another. */
  datatype Move = Move(home: Layout, sc: Sidecar, to: Layout, next: Sidecar)

  /** The old or the new generation is complete, and the newest record names a complete one. */
  ghost predicate NeverDips(files: Store, m: Move, c: Bytes) {
    && (Whole(files, m.home, m.sc, c) || Whole(files, m.to, m.next, c))
    && forall r :: IsRecord(files, r) && (forall q :: IsRecord(files, q) ==> Dominates(r, q)) ==>
         || (r.gen == m.sc.gen && Whole(files, m.home, m.sc, c))
         || (r == m.next && Whole(files, m.to, m.next, c))
  }

  ghost predicate AllNeverDip(log: seq<Act>, from: nat, m: Move, c: Bytes) {
    forall k :: from <= k < |log| ==> NeverDips(After(log[k]), m, c)
  }

  /** What a conversion starts from: the record is the newest, its generation is complete
      and is what it claims to be. */
  ghost predicate Ready(files: Store, m: Move, c: Bytes) {
    && ValidScheme(m.sc.scheme)
    && |c| == m.sc.size
    && (m.sc.checksum.NoDigest? || m.sc.checksum == Md5(c))
    && Clear(files, m.next.gen, Some(m.sc))
    && Whole(files, m.home, m.sc, c)
    && Reads.Sound(files, m.sc, c)
  }

  ghost predicate Proper(m: Move) {
    && m.next == Rewritten(m.sc, m.next.scheme, m.next.gen)
    && ValidScheme(m.next.scheme)
    && ValidLayout(m.to, m.next.scheme)
    && ValidScheme(m.sc.scheme)
    && ValidLayout(m.home, m.sc.scheme)
  }

  lemma NewestOld(base: Store, gen: string, sc: Sidecar, r: Sidecar)
    requires Clear(base, gen, Some(sc)) && IsRecord(base, r) && Dominates(r, sc)
    ensures r.gen == sc.gen
  {
    SupersedesTotal(r, sc);
  }

  lemma OtherGensWhole(base: Store, files: Store, gen: string, layout: Layout, sc: Sidecar, c: Bytes)
    requires OtherGens(base, files, gen) && sc.gen != gen && Whole(base, layout, sc, c)
    ensures Whole(files, layout, sc, c)
  {
    forall i: nat | i < |layout|
      ensures Slot(layout, sc.gen, i) in files && files[Slot(layout, sc.gen, i)] == Data(Piece(sc.scheme, c, i))
    {
      assert Slot(layout, sc.gen, i) in base;
    }
  }

  /** While only the new generation's fragments come and go, the old one is complete. */
  lemma FragmentsNeverDip(base: Store, files: Store, m: Move, c: Bytes)
    requires Proper(m) && Ready(base, m, c) && OnlyGen(base, files, m.next.gen)
    ensures NeverDips(files, m, c)
  {
    OtherGensWhole(base, files, m.next.gen, m.home, m.sc, c);
    OnlyGenRecords(base, files, m.next.gen);
    forall r | IsRecord(files, r) && (forall q :: IsRecord(files, q) ==> Dominates(r, q))
      ensures r.gen == m.sc.gen
    {
      NewestOld(base, m.next.gen, m.sc, r);
    }
  }

  /** While records move between the two, both generations are complete. */
  lemma RecordsNeverDip(base: Store, files: Store, m: Move, c: Bytes)
    requires Proper(m) && Ready(base, m, c) && Midway(base, files, m.next, Some(m.sc)) && Whole(files, m.to, m.next, c)
    ensures NeverDips(files, m, c)
  {
    OtherGensWhole(base, files, m.next.gen, m.home, m.sc, c);
    forall r | IsRecord(files, r) && (forall q :: IsRecord(files, q) ==> Dominates(r, q))
      ensures r.gen == m.sc.gen || r == m.next
    {
      if r != m.next {
        if IsRecord(files, m.next) { SupersedesDominated(m.next, m.sc, r); }
        NewestOld(base, m.next.gen, m.sc, r);
      }
    }
  }

  /** While the old generation is retired, the new one is complete and rules. */
  lemma RetireNeverDips(was: Store, files: Store, m: Move, c: Bytes)
    requires Proper(m) && m.sc.gen != m.next.gen && Pruned(was, files, m.sc, m.to)
    requires Crowned(was, m.next) && Whole(was, m.to, m.next, c) && RecordAt(was, m.to[0]) == Some(m.next)
    ensures NeverDips(files, m, c) && Whole(files, m.to, m.next, c) && Crowned(files, m.next)
  {
    PrunedCrowned(was, files, m.sc, m.to, m.next);
    forall i: nat | i < |m.to|
      ensures Slot(m.to, m.next.gen, i) in files
    {
      assert Slot(m.to, m.next.gen, i) in was;
    }
  }

  lemma MetaOnlyWhole(a: Store, b: Store, layout: Layout, sc: Sidecar, c: Bytes)
    requires MetaOnly(a, b) && Whole(a, layout, sc, c)
    ensures Whole(b, layout, sc, c)
  {
    forall i: nat | i < |layout|
      ensures Slot(layout, sc.gen, i) in b && b[Slot(layout, sc.gen, i)] == Data(Piece(sc.scheme, c, i))
    {
      assert Slot(layout, sc.gen, i) in a;
    }
  }

  // ---- The conversion ----

  ghost predicate AllUp(layout: Layout, up: set<DiskRef>) {
    forall at :: at in layout ==> at in up
  }

  /** A complete generation on answering targets can be opened. */
  lemma WholeOpens(files: Store, up: set<DiskRef>, plans: seq<Layout>, home: Layout, sc: Sidecar, c: Bytes)
    requires ValidScheme(sc.scheme) && ValidLayout(home, sc.scheme) && home in plans && |c| == sc.size
    requires AllUp(home, up) && Whole(files, home, sc, c)
    ensures forall i: nat :: i < Copies(sc.scheme) ==> Reads.Reaches(files, up, plans, sc, i)
    ensures sc.scheme.EC? ==> Reads.Decodable(files, up, plans, sc)
  {
    var p :| 0 <= p < |plans| && plans[p] == home;
    forall i: nat | i < Copies(sc.scheme)
      ensures Reads.Reaches(files, up, plans, sc, i)
    {
      PieceSize(sc.scheme, c, i);
      assert RightSize(files, Slot(plans[p], sc.gen, i), sc);
      assert home[i] in up;
    }
    Sets.AllBelow(Reads.ReachSet(files, up, plans, sc), Copies(sc.scheme));
  }

  /** The object's payload at its recorded scheme. */
  method OpenContent(cl: Cluster, sc: Sidecar, plans: seq<Layout>, ghost home: Layout, ghost c: Bytes)
    returns (r: Option<Payload>)
    requires ValidScheme(sc.scheme)
    requires cl.Valid()
    modifies cl`files
    ensures cl.Valid() && cl.Still()
    ensures cl.quiet && |c| == sc.size && Reads.Sound(cl.files, sc, c) && r.Some? ==> r.value == Replica(c)
    ensures cl.quiet && |c| == sc.size && ValidLayout(home, sc.scheme) && home in plans ==>
      (AllUp(home, cl.up) && Whole(cl.files, home, sc, c) ==> r.Some?)
  {
    if cl.quiet && |c| == sc.size && ValidLayout(home, sc.scheme) && home in plans && AllUp(home, cl.up) &&
      Whole(cl.files, home, sc, c) {
      WholeOpens(cl.files, cl.up, plans, home, sc, c);
      assert Reads.Reaches(cl.files, cl.up, plans, sc, 0);
    }
    if sc.size == 0 {
      r := Some(Replica([]));
    } else if plans == [] {
      r := None;
    } else if sc.scheme.EC? {
      ghost var first, again;
      r, first, again := Reads.OpenEC(cl, plans, sc, c);
    } else {
      r := Reads.OpenReplica(cl, plans, sc);
    }
  }

  /** The bytes a stream delivers. A payload that is no object's replica is still bytes. */
  method Delivered(p: Payload, size: nat) returns (d: Bytes)
    ensures p.Replica? && |p.content| == size ==> d == p.content
    ensures |d| == size
  {
    if p.Replica? && |p.content| == size { return p.content; }
    assert |seq(size, i => 0 as byte)| == size;
    d :| |d| == size;
  }

  /** Every fragment, synchronously: the data, then what is derived from it. */
  method EncodeAll(cl: Cluster, layout: Layout, s: Scheme, gen: string, d: Bytes) returns (ok: bool)
    requires ValidScheme(s) && |layout| == Copies(s)
    requires cl.Valid()
    modifies cl`files, cl`log
    ensures cl.Valid()
    ensures old(cl.log) <= cl.log && AllOnlyGen(cl.log, |old(cl.log)|, old(cl.files), gen)
    ensures OnlyGen(old(cl.files), cl.files, gen)
    ensures ok ==> InPlace(cl.files, layout, s, gen, d, |layout|)
    ensures ok ==> cl.files == Filled(old(cl.files), layout, s, gen, d, 0, |layout|)
    ensures (forall at :: at in layout ==> at in cl.up) ==> ok
    ensures AllTouch(cl.log, |old(cl.log)|, {gen})
  {
    var n := DataCount(s, |d|);
    ok := WriteFragments(cl, layout, s, gen, d, 0, n);
    if !ok { return; }
    FilledFacts(old(cl.files), layout, s, gen, d, 0, n);
    ghost var was, log := cl.files, cl.log;
    ok := EncodeParity(cl, layout, s, gen, |d|, d);
    OnlyGenJoin(old(cl.files), was, log, cl.log, |old(cl.log)|, gen);
    TouchJoin(log, cl.log, |old(cl.log)|, {gen}, {gen});
    if ok {
      FilledSplit(old(cl.files), layout, s, gen, d, 0, n, |layout|);
      FilledFacts(old(cl.files), layout, s, gen, d, 0, |layout|);
    }
  }

  /** Both layouts answer, and the old one is still remembered. */
  ghost predicate Answering(cl: Cluster, m: Move, plans: seq<Layout>) {
    m.home in plans && AllUp(m.home, cl.up) && AllUp(m.to, cl.up)
  }

  /** Write and verify the new generation's fragments; they are discarded on failure. */
  method Stage(cl: Cluster, m: Move, plans: seq<Layout>, ghost c: Bytes) returns (ok: bool, ghost d: Bytes)
    requires Proper(m)
    requires cl.Valid()
    modifies cl`files, cl`log
    ensures cl.Valid()
    ensures old(cl.log) <= cl.log
    ensures cl.quiet ==>
      AllOnlyGen(cl.log, |old(cl.log)|, old(cl.files), m.next.gen) && OnlyGen(old(cl.files), cl.files, m.next.gen)
    ensures ok ==>
      Whole(cl.files, m.to, m.next, d) && |d| == m.next.size && (m.sc.checksum.NoDigest? || Md5(d) == m.sc.checksum)
    ensures cl.quiet && old(Ready(cl.files, m, c)) && ok ==> d == c && Staged(cl.files, m.to, m.next, c, |m.to|)
    ensures cl.quiet && old(Ready(cl.files, m, c)) && Answering(cl, m, plans) ==> ok
    ensures AllTouch(cl.log, |old(cl.log)|, {m.next.gen})
  {
    ok, d := false, [];
    var body := OpenContent(cl, m.sc, plans, m.home, c);
    if body.None? { return; }
    var content := Delivered(body.value, m.sc.size);
    d := content;
    ghost var got := cl.files;
    ok := EncodeAll(cl, m.to, m.next.scheme, m.next.gen, content);
    if ok && old(Ready(cl.files, m, c)) && cl.quiet { FilledStaged(got, m.to, m.next, content, |m.to|); }
    if ok && !(m.sc.checksum.NoDigest? || Md5(content) == m.sc.checksum) { ok := false; }
    if !ok { ghost var _ := DiscardGeneration(cl, m.to, m.next.gen); }
  }

  lemma StageNeverDips(base: Store, log: seq<Act>, from: nat, m: Move, c: Bytes)
    requires Proper(m) && Ready(base, m, c) && AllOnlyGen(log, from, base, m.next.gen)
    ensures AllNeverDip(log, from, m, c)
  {
    forall k | from <= k < |log|
      ensures NeverDips(After(log[k]), m, c)
    {
      FragmentsNeverDip(base, After(log[k]), m, c);
    }
  }

  lemma CommitNeverDips(base: Store, staged: Store, log: seq<Act>, from: nat, m: Move, c: Bytes)
    requires Proper(m) && Ready(base, m, c) && Whole(staged, m.to, m.next, c)
    requires AllMidway(log, from, base, m.next, Some(m.sc)) && AllMetaOnly(log, from, staged)
    ensures AllNeverDip(log, from, m, c)
  {
    forall k | from <= k < |log|
      ensures NeverDips(After(log[k]), m, c)
    {
      MetaOnlyWhole(staged, After(log[k]), m.to, m.next, c);
      RecordsNeverDip(base, After(log[k]), m, c);
    }
  }

  lemma RetireAllNeverDip(was: Store, log: seq<Act>, from: nat, m: Move, c: Bytes)
    requires Proper(m) && m.sc.gen != m.next.gen && AllPruned(log, from, was, m.sc, m.to)
    requires Crowned(was, m.next) && Whole(was, m.to, m.next, c) && RecordAt(was, m.to[0]) == Some(m.next)
    ensures AllNeverDip(log, from, m, c)
  {
    forall k | from <= k < |log|
      ensures NeverDips(After(log[k]), m, c)
    {
      RetireNeverDips(was, After(log[k]), m, c);
    }
  }

  /** After a rolled-back commit, discarding the new fragments leaves the old generation
      complete and its record the newest. */
  lemma RefusedNeverDips(base: Store, staged: Store, back: Store, now: Store, log: seq<Act>, from: nat, m: Move,
                         c: Bytes)
    requires Proper(m) && Ready(base, m, c) && OnlyGen(base, staged, m.next.gen)
    requires Midway(base, back, m.next, Some(m.sc)) && OnlyGen(back, now, m.next.gen)
    requires AllOnlyGen(log, from, back, m.next.gen)
    requires forall at :: RecordAt(back, at) == RecordAt(staged, at) || RecordAt(back, at) == Some(m.sc)
    ensures AllNeverDip(log, from, m, c) && Undisturbed(base, now, m.next.gen, Some(m.sc))
    ensures Whole(now, m.home, m.sc, c)
  {
    NoneNamed(base, staged, back, m.next, Some(m.sc));
    DiscardAllMidway(base, back, now, log, from, m.next, Some(m.sc));
    OtherGensWhole(base, now, m.next.gen, m.home, m.sc, c);
    forall k | from <= k < |log|
      ensures NeverDips(After(log[k]), m, c)
    {
      OnlyGenRecords(back, After(log[k]), m.next.gen);
      OtherGensWhole(base, After(log[k]), m.next.gen, m.home, m.sc, c);
      forall r | IsRecord(After(log[k]), r) && (forall q :: IsRecord(After(log[k]), q) ==> Dominates(r, q))
        ensures r.gen == m.sc.gen
      {
        NewestOld(base, m.next.gen, m.sc, r);
      }
    }
  }

  ghost predicate AllWhole(log: seq<Act>, from: nat, layout: Layout, sc: Sidecar, c: Bytes) {
    forall k :: from <= k < |log| ==> Whole(After(log[k]), layout, sc, c)
  }

  lemma OtherGensAllWhole(base: Store, log: seq<Act>, from: nat, m: Move, c: Bytes)
    requires Ready(base, m, c) && AllOtherGens(log, from, base, m.next.gen)
    ensures AllWhole(log, from, m.home, m.sc, c)
  {
    forall k | from <= k < |log|
      ensures Whole(After(log[k]), m.home, m.sc, c)
    {
      OtherGensWhole(base, After(log[k]), m.next.gen, m.home, m.sc, c);
    }
  }

  /** A finished conversion: at every step a complete generation was named by the newest
      record, and in the end the new one is, on every target. */
  ghost predicate Moved(files: Store, log: seq<Act>, from: nat, m: Move, c: Bytes) {
    && AllNeverDip(log, from, m, c)
    && Crowned(files, m.next)
    && Whole(files, m.to, m.next, c)
    && RecordedOn(files, m.to, m.next, |m.to|)
  }

  /** A refused conversion: the old generation stayed complete at every step. Whether the new
      record was taken back everywhere decides whether it is gone, and then the newest record
      named the old generation all along; otherwise the undeleted new fragments decide
      whether the object can be read. */
  ghost predicate Stayed(base: Store, files: Store, log: seq<Act>, from: nat, m: Move, c: Bytes, ans: PutAnswers) {
    && AllWhole(log, from, m.home, m.sc, c)
    && Whole(files, m.home, m.sc, c)
    && (RolledBack(ans) <==> !IsRecord(files, m.next))
    && (RolledBack(ans) ==> AllNeverDip(log, from, m, c) && Undisturbed(base, files, m.next.gen, Some(m.sc)))
    && (MaxReadable(files) && AllMaxReadable(log, from) <==> RolledBack(ans) || EnoughKept(m.next, |m.to|, ans.kept))
  }

  /** A refusal before any record was written. */
  lemma StageStayed(base: Store, files: Store, log: seq<Act>, from: nat, m: Move, c: Bytes)
    requires Proper(m) && Ready(base, m, c) && OnlyGen(base, files, m.next.gen)
    requires AllOnlyGen(log, from, base, m.next.gen)
    ensures Stayed(base, files, log, from, m, c, NoQuorum)
  {
    StageNeverDips(base, log, from, m, c);
    OtherGensOn(base, base, log, from, m.next.gen);
    OtherGensAllWhole(base, log, from, m, c);
    OtherGensWhole(base, files, m.next.gen, m.home, m.sc, c);
    FragmentsReadable(base, files, log, from, m.next, Some(m.sc));
  }

  /** Staging, then a refused commit. */
  lemma StayedJoin(base: Store, files: Store, log: seq<Act>, more: seq<Act>, from: nat, m: Move, c: Bytes,
                   ans: PutAnswers)
    requires Proper(m) && Ready(base, m, c) && AllOnlyGen(log, from, base, m.next.gen) && from <= |log| && log <= more
    requires Stayed(base, files, more, |log|, m, c, ans)
    ensures Stayed(base, files, more, from, m, c, ans)
  {
    StageStayed(base, base, log, from, m, c);
    assert forall k :: from <= k < |log| ==> more[k] == log[k];
    PhasesJoin(log, more, from, base, m.next.gen);
  }

  lemma RefusedStayed(base: Store, staged: Store, log: seq<Act>, more: seq<Act>, from: nat, m: Move, c: Bytes,
                      ans: PutAnswers)
    requires Proper(m) && Ready(base, m, c) && OnlyGen(base, staged, m.next.gen)
    requires Staged(staged, m.to, m.next, c, |m.to|)
    requires ans.NoCommit? && ans.failedAt <= |m.to| && from <= |log| && log <= more
    requires Midway(base, TakenBack(staged, m.to, m.next, Some(m.sc), ans.failedAt, ans.undone), m.next, Some(m.sc))
    requires AllMidway(log, from, base, m.next, Some(m.sc)) && AllMetaOnly(log, from, staged)
    requires AllNeverDip(log, from, m, c)
    requires AllOnlyGen(more, |log|, TakenBack(staged, m.to, m.next, Some(m.sc), ans.failedAt, ans.undone), m.next.gen)
    requires AllContain(more, |log|, Refused(staged, m.to, m.next, Some(m.sc), ans))
    ensures Stayed(base, Refused(staged, m.to, m.next, Some(m.sc), ans), more, from, m, c, ans)
  {
    var back := TakenBack(staged, m.to, m.next, Some(m.sc), ans.failedAt, ans.undone);
    var now := Refused(staged, m.to, m.next, Some(m.sc), ans);
    RefusedReadableIff(base, staged, m.to, m.next, c, Some(m.sc), |m.to|, ans, log, more, from);
    TakenBackRecords(staged, m.to, m.next, Some(m.sc), ans.failedAt, ans.undone);
    DiscardedFacts(back, m.to, m.next.gen, |m.to|, ans.kept);
    OtherGensOn(base, staged, log, from, m.next.gen);
    OtherGensOn(base, back, more, |log|, m.next.gen);
    OtherGensAllWhole(base, log, from, m, c);
    OtherGensAllWhole(base, more, |log|, m, c);
    OtherGensWhole(base, now, m.next.gen, m.home, m.sc, c);
    if RolledBack(ans) { RefusedNeverDips(base, staged, back, now, more, |log|, m, c); }
    assert forall k :: from <= k < |log| ==> more[k] == log[k];
  }

  /** Commit the record to every target; refused, the new fragments go. */
  method Commit(cl: Cluster, m: Move, ghost base: Store, ghost c: Bytes, ghost ready: bool)
    returns (ok: bool, ghost ans: PutAnswers)
    requires Proper(m)
    requires ready ==>
      Ready(base, m, c) && OnlyGen(base, cl.files, m.next.gen) && Staged(cl.files, m.to, m.next, c, |m.to|)
    requires cl.Valid()
    modifies cl`files, cl`log
    ensures cl.Valid()
    ensures old(cl.log) <= cl.log && (ok <==> ans.AllWritten?) && Plausible(ans, m.to, |m.to|, cl.up)
    ensures ok ==> cl.files == WithRecords(old(cl.files), m.to, m.next, |m.to|) && |cl.log| > |old(cl.log)|
    ensures ans.NoCommit? ==> cl.files == Refused(old(cl.files), m.to, m.next, Some(m.sc), ans)
    ensures ready && ok ==> Moved(cl.files, cl.log, |old(cl.log)|, m, c)
    ensures ready && !ok ==> Stayed(base, cl.files, cl.log, |old(cl.log)|, m, c, ans)
    ensures AllUp(m.to, cl.up) ==> ok
    ensures AllTouch(cl.log, |old(cl.log)|, {m.next.gen})
  {
    ghost var staged := cl.files;
    if ready {
      OnlyGenMidway(base, staged, m.next, Some(m.sc));
      InPlaceReadable(staged, m.to, m.next, c);
    }
    ghost var failedAt, undone;
    ok, failedAt, undone := CommitSidecar(cl, m.to, m.next, Some(m.sc), |m.to|, base, ready);
    ghost var log := cl.log;
    if ready { CommitNeverDips(base, staged, cl.log, |old(cl.log)|, m, c); }
    if !ok {
      ghost var kept := DiscardGeneration(cl, m.to, m.next.gen);
      ans := NoCommit(failedAt, undone, kept);
      TouchJoin(log, cl.log, |old(cl.log)|, {}, {m.next.gen});
      if ready { RefusedStayed(base, staged, log, cl.log, |old(cl.log)|, m, c, ans); }
      return;
    }
    ans := AllWritten;
    WithRecordsFacts(staged, m.to, m.next, |m.to|);
    if ready {
      MetaOnlyWhole(staged, cl.files, m.to, m.next, c);
      assert RecordAt(cl.files, m.to[0]) == Some(m.next);
      MidwayCrowned(base, cl.files, m.next, Some(m.sc));
    }
  }

  /** Staging and commit, then the retirement of the old generation. */
  lemma MovedJoin(was: Store, files: Store, log: seq<Act>, more: seq<Act>, most: seq<Act>, from: nat, m: Move, c: Bytes)
    requires Proper(m) && m.sc.gen != m.next.gen && from <= |log| && log <= more <= most
    requires AllNeverDip(log, from, m, c) && Moved(was, more, |log|, m, c)
    requires Pruned(was, files, m.sc, m.to) && AllPruned(most, |more|, was, m.sc, m.to)
    ensures Moved(files, most, from, m, c)
  {
    RetireAllNeverDip(was, most, |more|, m, c);
    RetireNeverDips(was, files, m, c);
    assert forall i :: 0 <= i < |m.to| ==> RecordAt(files, m.to[i]) == RecordAt(was, m.to[i]);
    forall k | from <= k < |most|
      ensures NeverDips(After(most[k]), m, c)
    {
      if k < |log| { assert most[k] == log[k]; } else if k < |more| { assert most[k] == more[k]; }
    }
  }

  /** Re-encode the object under another scheme. `plans` are its remembered layouts under
      the recorded one. */
  method Convert(cl: Cluster, m: Move, plans: seq<Layout>, ghost c: Bytes)
    returns (converted: bool, ghost ans: PutAnswers)
    requires Proper(m)
    requires cl.Valid()
    modifies cl`files, cl`log, cl`looks
    ensures cl.Valid() && old(cl.looks) <= cl.looks
    ensures old(cl.log) <= cl.log && (converted ==> |cl.log| > |old(cl.log)|)
    ensures converted <==> ans.AllWritten?
    ensures Plausible(ans, m.to, |m.to|, cl.up)
    ensures cl.quiet && old(Ready(cl.files, m, c)) && converted ==> Moved(cl.files, cl.log, |old(cl.log)|, m, c)
    ensures cl.quiet && old(Ready(cl.files, m, c)) && !converted ==>
      Stayed(old(cl.files), cl.files, cl.log, |old(cl.log)|, m, c, ans)
    ensures cl.quiet && old(Ready(cl.files, m, c)) && Answering(cl, m, plans) ==> converted
    ensures AllTouch(cl.log, |old(cl.log)|, {m.next.gen, m.sc.gen})
  {
    ghost var base := cl.files;
    ghost var ready := cl.quiet && Ready(base, m, c);
    ghost var d;
    converted, d := Stage(cl, m, plans, c);
    ghost var log := cl.log;
    if !converted {
      if ready { StageStayed(base, cl.files, log, |old(cl.log)|, m, c); }
      return false, NoQuorum;
    }
    if ready { StageNeverDips(base, log, |old(cl.log)|, m, c); }
    converted, ans := Commit(cl, m, base, c, ready);
    TouchJoin(log, cl.log, |old(cl.log)|, {m.next.gen}, {m.next.gen});
    if !converted {
      if ready { StayedJoin(base, cl.files, log, cl.log, |old(cl.log)|, m, c, ans); }
      return;
    }
    ghost var was, more := cl.files, cl.log;
    var _ := CleanupGeneration(cl, m.to, m.sc, plans);
    TouchJoin(more, cl.log, |old(cl.log)|, {m.next.gen} + {m.next.gen}, {m.sc.gen});
    if ready { MovedJoin(was, cl.files, log, more, cl.log, |old(cl.log)|, m, c); }
  }

  /** Convert when the bucket's scheme is known and differs from the recorded one. The
      conversion's layout and generation come from outside. */
  method MaybeConvert(cl: Cluster, sc: Sidecar, home: Layout, bucket: Option<Scheme>, to: Option<Layout>, gen: string,
                      plans: seq<Layout>, ghost c: Bytes)
    returns (converted: bool, error: bool, ghost ans: PutAnswers)
    requires ValidScheme(sc.scheme) && ValidLayout(home, sc.scheme)
    requires bucket.Some? ==> ValidScheme(bucket.value)
    requires bucket.Some? && to.Some? ==> ValidLayout(to.value, bucket.value)
    requires cl.Valid()
    modifies cl`files, cl`log, cl`looks
    ensures cl.Valid() && old(cl.looks) <= cl.looks
    ensures old(cl.log) <= cl.log && !(converted && error)
    ensures converted || error ==> bucket.Some? && bucket.value != sc.scheme
    ensures converted ==> to.Some? && |cl.log| > |old(cl.log)|
    ensures !converted && !error ==> cl.log == old(cl.log) && cl.files == old(cl.files)
    ensures bucket.None? || bucket.value == sc.scheme || to.None? ==> cl.log == old(cl.log) && cl.files == old(cl.files)
    ensures bucket.Some? && bucket.value != sc.scheme && to.Some? && cl.quiet ==>
      var m := Move(home, sc, to.value, Rewritten(sc, bucket.value, gen));
      old(Ready(cl.files, m, c)) ==>
        && (Answering(cl, m, plans) ==> converted)
        && (converted ==> Moved(cl.files, cl.log, |old(cl.log)|, m, c))
        && (!converted ==> Stayed(old(cl.files), cl.files, cl.log, |old(cl.log)|, m, c, ans))
    ensures AllTouch(cl.log, |old(cl.log)|, {gen, sc.gen})
  {
    converted, error, ans := false, false, NoQuorum;
    if bucket.None? || bucket.value == sc.scheme { return; }
    if to.None? { error := true; return; }
    converted, ans := Convert(cl, Move(home, sc, to.value, Rewritten(sc, bucket.value, gen)), plans, c);
    error := !converted;
  }
}
