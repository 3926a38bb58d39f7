/**
 The resumable rebalance walk: every bucket's objects in key order, repaired in batches,
 the cursor saved after each batch, and a successor resuming at the last saved cursor.
 */
module Rebalance {
  import opened Records
  import Lex

  datatype Object = Object(bucket: string, key: string)

  /** Walk order: by bucket, then by key. */
  predicate Before(a: Object, b: Object) {
    Lex.Less(a.bucket, b.bucket) || (a.bucket == b.bucket && Lex.Less(a.key, b.key))
  }

  predicate UpTo(a: Object, cursor: Object) {
    a == cursor || Before(a, cursor)
  }

  lemma BeforeOrder(a: Object, b: Object, c: Object)
    ensures Before(a, b) && Before(b, c) ==> Before(a, c)
    ensures !(Before(a, b) && Before(b, a)) && !Before(a, a)
    ensures Before(a, b) || a == b || Before(b, a)
  {
    if Lex.Less(a.bucket, b.bucket) && Lex.Less(b.bucket, c.bucket) { Lex.Transitive(a.bucket, b.bucket, c.bucket); }
    if Lex.Less(a.key, b.key) && Lex.Less(b.key, c.key) { Lex.Transitive(a.key, b.key, c.key); }
    if Lex.Less(a.bucket, b.bucket) { Lex.Asymmetric(a.bucket, b.bucket); }
    if Lex.Less(a.key, b.key) { Lex.Asymmetric(a.key, b.key); }
    if Lex.Less(b.bucket, a.bucket) { Lex.Asymmetric(b.bucket, a.bucket); }
    Lex.Irreflexive(a.bucket);
    Lex.Irreflexive(a.key);
    Lex.Total(a.bucket, b.bucket);
    Lex.Total(a.key, b.key);
  }

  const DEFAULT_CONCURRENCY: nat := 4

  /** What a run sees: the buckets, and per bucket its keys, or none when listing it fails. */
  datatype Listing = Listing(buckets: seq<string>, keys: string -> Option<seq<string>>)

  ghost predicate Ascending(s: seq<string>) {
    forall i, j :: 0 <= i < j < |s| ==> Lex.Less(s[i], s[j])
  }

  ghost predicate ValidListing(ls: Listing) {
    && Ascending(ls.buckets)
    && forall b :: ls.keys(b).Some? ==> Ascending(ls.keys(b).value)
  }

  ghost predicate Present(ls: Listing, o: Object) {
    o.bucket in ls.buckets && ls.keys(o.bucket).Some? && o.key in ls.keys(o.bucket).value
  }

  /** The listing does not say that the object is missing: a bucket that could not be listed
      says nothing about its objects, and neither does a failed listing of the buckets. */
  ghost predicate NotMissing(listing: Option<Listing>, o: Object) {
    listing.Some? ==>
      && o.bucket in listing.value.buckets
      && (listing.value.keys(o.bucket).Some? ==> o.key in listing.value.keys(o.bucket).value)
  }

  /** A bucket the run does not skip, which could not be listed. */
  ghost predicate Unlisted(ls: Listing, resume: Object, b: string) {
    b in ls.buckets && !Lex.Less(b, resume.bucket) && ls.keys(b).None?
  }

  /** In walk order, so each object at most once. */
  ghost predicate Ordered(s: seq<Object>) {
    forall i, j :: 0 <= i < j < |s| ==> Before(s[i], s[j])
  }

  datatype Report = Report(buckets: nat, objects: nat, relocated: nat, failed: nat)

  /** How a run ends. */
  datatype End = Completed | Interrupted

  /** One run, seen from outside: where it resumed, what it fed to repair, what the
      persisted cursor is when it ends. */
  datatype Run = Run(resume: Object, listing: Option<Listing>, processed: seq<Object>, saved: Object, end: End)

  /** Listed objects after the resume cursor, in order, with nothing skipped. */
  ghost predicate Prefix(ls: Listing, resume: Object, processed: seq<Object>) {
    && Ordered(processed)
    && (forall o :: o in processed ==> Present(ls, o) && Before(resume, o))
    && (forall o, x :: x in processed && Present(ls, o) && Before(resume, o) && UpTo(o, x) ==> o in processed)
  }

  /** A bucket that cannot be listed ends the run, before anything in it or after it is processed. */
  ghost predicate Halts(ls: Listing, resume: Object, processed: seq<Object>, end: End) {
    forall b :: Unlisted(ls, resume, b) ==> end.Interrupted? && forall o :: o in processed ==> Lex.Less(o.bucket, b)
  }

  /** A run processes listed objects strictly after its resume cursor, in order, each once,
      and nothing before any of them is skipped, be it an object or a bucket that could not
      be listed. The saved cursor is the resume cursor or a processed object, so it never
      runs ahead; a completed run processed everything. */
  ghost predicate FaithfulRun(r: Run) {
    && (r.saved == r.resume || r.saved in r.processed)
    && match r.listing
       case None => r.processed == [] && r.end.Interrupted?
       case Some(ls) =>
         && Prefix(ls, r.resume, r.processed)
         && Halts(ls, r.resume, r.processed, r.end)
         && (r.end.Completed? ==> forall o :: Present(ls, o) && Before(r.resume, o) ==> o in r.processed)
  }

  /** Successive runs over the changing listings, each resuming where the last saved. */
  ghost predicate Chained(runs: seq<Run>) {
    && (forall i :: 0 <= i < |runs| ==> FaithfulRun(runs[i]))
    && (forall i :: 0 <= i < |runs| - 1 ==> runs[i + 1].resume == runs[i].saved)
  }

  ghost predicate Processed(runs: seq<Run>, o: Object) {
    exists i :: 0 <= i < |runs| && o in runs[i].processed
  }

  /** An object after the resume cursor and not after the saved one is processed in this run. */
  lemma RunCovers(r: Run, o: Object)
    requires FaithfulRun(r) && NotMissing(r.listing, o) && Before(r.resume, o)
    ensures UpTo(o, r.saved) || r.end.Completed? ==> o in r.processed
  {
    BeforeOrder(r.resume, o, o);
    if r.listing.Some? && r.listing.value.keys(o.bucket).None? {
      Lex.Irreflexive(o.bucket);
      if Lex.Less(r.resume.bucket, o.bucket) { Lex.Asymmetric(r.resume.bucket, o.bucket); }
      assert Unlisted(r.listing.value, r.resume, o.bucket);
      if UpTo(o, r.saved) && r.saved in r.processed { Lex.Asymmetric(r.saved.bucket, o.bucket); }
    }
  }

  /** Whatever is at or before the persisted cursor has been processed since the walk began,
      also when it lies in a bucket that some of the runs could not list. */
  lemma {:induction false} CursorCovers(runs: seq<Run>, o: Object)
    requires runs != [] && Chained(runs) && forall i :: 0 <= i < |runs| ==> NotMissing(runs[i].listing, o)
    requires Before(runs[0].resume, o) && UpTo(o, runs[|runs| - 1].saved)
    ensures Processed(runs, o)
  {
    var n := |runs| - 1;
    var last := runs[n];
    BeforeOrder(last.resume, o, o);
    if n == 0 || Before(last.resume, o) {
      RunCovers(last, o);
    } else {
      CursorCovers(runs[..n], o);
      var i :| 0 <= i < n && o in runs[..n][i].processed;
      assert o in runs[i].processed;
    }
  }

  /** Over any sequence of interrupted runs ending in a completed one, every object that no
      listing left out and that is after the first cursor is fed to repair. */
  lemma WalkCovers(runs: seq<Run>, o: Object)
    requires runs != [] && Chained(runs) && runs[|runs| - 1].end.Completed?
    requires forall i :: 0 <= i < |runs| ==> NotMissing(runs[i].listing, o)
    requires Before(runs[0].resume, o)
    ensures Processed(runs, o)
  {
    var n := |runs| - 1;
    var last := runs[n];
    BeforeOrder(last.resume, o, o);
    if n == 0 || Before(last.resume, o) {
      RunCovers(last, o);
    } else {
      assert UpTo(o, runs[n - 1].saved);
      CursorCovers(runs[..n], o);
      var i :| 0 <= i < n && o in runs[..n][i].processed;
      assert o in runs[i].processed;
    }
  }

  // ---- One run ----

  function InBucket(b: string, keys: seq<string>): (r: seq<Object>)
    ensures |r| == |keys| && forall i :: 0 <= i < |keys| ==> r[i] == Object(b, keys[i])
  {
    if keys == [] then [] else InBucket(b, keys[..|keys| - 1]) + [Object(b, keys[|keys| - 1])]
  }

  lemma InBucketSplit(done: seq<Object>, b: string, keys: seq<string>, start: nat, next: nat)
    requires start < next <= |keys|
    ensures done + InBucket(b, keys[..start]) + InBucket(b, keys[start..next]) == done + InBucket(b, keys[..next])
    ensures forall o :: o in done + InBucket(b, keys[..start]) ==> o in done + InBucket(b, keys[..next])
    ensures Object(b, keys[next - 1]) in done + InBucket(b, keys[..next])
  {
    var a, c := InBucket(b, keys[..start]) + InBucket(b, keys[start..next]), InBucket(b, keys[..next]);
    assert |a| == |c|;
    assert forall i :: 0 <= i < next ==> a[i] == c[i];
    assert a == c;
    assert c[next - 1] == Object(b, keys[next - 1]);
  }

  /** Everything listed in buckets before `b` is processed, and nothing from `b` on. */
  ghost predicate UpToBucket(ls: Listing, resume: Object, processed: seq<Object>, b: string) {
    && Prefix(ls, resume, processed)
    && (forall o :: o in processed ==> Lex.Less(o.bucket, b))
    && (forall o :: Present(ls, o) && Before(resume, o) && Lex.Less(o.bucket, b) ==> o in processed)
  }

  /** The keys of a bucket still to do: those listed after the resume cursor. */
  ghost predicate Todo(ls: Listing, resume: Object, b: string, keys: seq<string>) {
    && Ascending(keys)
    && forall k :: k in keys <==> Present(ls, Object(b, k)) && Before(resume, Object(b, k))
  }

  lemma ExtendPrefix(ls: Listing, resume: Object, done: seq<Object>, b: string, keys: seq<string>, n: nat)
    requires UpToBucket(ls, resume, done, b) && Todo(ls, resume, b, keys) && n <= |keys|
    ensures Prefix(ls, resume, done + InBucket(b, keys[..n]))
  {
    var all := done + InBucket(b, keys[..n]);
    forall o | o in all
      ensures Present(ls, o) && Before(resume, o)
    {
      if o !in done {
        var i :| 0 <= i < n && o == Object(b, keys[i]);
        assert keys[i] in keys;
      }
    }
    forall o, x | x in all && Present(ls, o) && Before(resume, o) && UpTo(o, x)
      ensures o in all
    {
      if x !in done { ExtendCovers(ls, resume, done, b, keys, n, o, x); }
    }
  }

  lemma ExtendCovers(ls: Listing, resume: Object, done: seq<Object>, b: string, keys: seq<string>, n: nat, o: Object,
                     x: Object)
    requires UpToBucket(ls, resume, done, b) && Todo(ls, resume, b, keys) && n <= |keys|
    requires x in InBucket(b, keys[..n]) && Present(ls, o) && Before(resume, o) && UpTo(o, x)
    ensures o in done || o in InBucket(b, keys[..n])
  {
    var i :| 0 <= i < n && x == Object(b, keys[i]);
    Lex.Irreflexive(b);
    if o.bucket == b {
      assert o.key in keys;
      var k :| 0 <= k < |keys| && keys[k] == o.key;
      if k > i { Lex.Asymmetric(keys[i], keys[k]); }
      assert InBucket(b, keys[..n])[k] == o;
    }
  }

  /** A finished bucket: the walk stands before whatever bucket comes next. */
  lemma BucketDone(ls: Listing, resume: Object, done: seq<Object>, b: string, keys: seq<string>, next: string)
    requires UpToBucket(ls, resume, done, b) && Todo(ls, resume, b, keys) && Lex.Less(b, next)
    requires forall x :: x in ls.buckets ==> Lex.AtMost(x, b) || Lex.AtMost(next, x)
    ensures UpToBucket(ls, resume, done + InBucket(b, keys), next)
  {
    assert keys[..|keys|] == keys;
    ExtendPrefix(ls, resume, done, b, keys, |keys|);
    var all := done + InBucket(b, keys);
    forall o | o in all
      ensures Lex.Less(o.bucket, next)
    {
      if o in done { Lex.Transitive(o.bucket, b, next); }
    }
    forall o | Present(ls, o) && Before(resume, o) && Lex.Less(o.bucket, next)
      ensures o in all
    {
      Lex.Asymmetric(o.bucket, next);
      if o.bucket == b {
        assert o.key in keys;
        var k :| 0 <= k < |keys| && keys[k] == o.key;
        assert InBucket(b, keys)[k] == o;
      }
    }
  }

  /** After a bucket is done, the next one's turn, or everything. */
  lemma NextBucket(ls: Listing, resume: Object, done: seq<Object>, i: nat, keys: seq<string>)
    requires ValidListing(ls) && i < |ls.buckets| && UpToBucket(ls, resume, done, ls.buckets[i])
    requires Todo(ls, resume, ls.buckets[i], keys)
    ensures i + 1 < |ls.buckets| ==> UpToBucket(ls, resume, done + InBucket(ls.buckets[i], keys), ls.buckets[i + 1])
    ensures i + 1 == |ls.buckets| ==>
      forall o :: Present(ls, o) && Before(resume, o) ==> o in done + InBucket(ls.buckets[i], keys)
  {
    var b := ls.buckets[i];
    if i + 1 < |ls.buckets| {
      forall x | x in ls.buckets
        ensures Lex.AtMost(x, b) || Lex.AtMost(ls.buckets[i + 1], x)
      {
        var k :| 0 <= k < |ls.buckets| && ls.buckets[k] == x;
      }
      BucketDone(ls, resume, done, b, keys, ls.buckets[i + 1]);
    } else {
      forall o | Present(ls, o) && Before(resume, o)
        ensures o in done + InBucket(b, keys)
      {
        var k :| 0 <= k < |ls.buckets| && ls.buckets[k] == o.bucket;
        if k == i {
          assert o.key in keys;
          var n :| 0 <= n < |keys| && keys[n] == o.key;
          assert InBucket(b, keys)[n] == o;
        }
      }
    }
  }

  lemma FirstBucket(ls: Listing, resume: Object)
    requires ValidListing(ls) && ls.buckets != []
    ensures UpToBucket(ls, resume, [], ls.buckets[0])
  {
    forall x | x in ls.buckets
      ensures !Lex.Less(x, ls.buckets[0])
    {
      var k :| 0 <= k < |ls.buckets| && ls.buckets[k] == x;
      if k == 0 { Lex.Irreflexive(x); } else { Lex.Asymmetric(ls.buckets[0], x); }
    }
  }

  /** A bucket before the resume cursor holds nothing to do. */
  lemma SkipBucket(ls: Listing, resume: Object, done: seq<Object>, i: nat)
    requires ValidListing(ls) && i < |ls.buckets| && UpToBucket(ls, resume, done, ls.buckets[i])
    requires Lex.Less(ls.buckets[i], resume.bucket)
    ensures i + 1 < |ls.buckets| ==> UpToBucket(ls, resume, done, ls.buckets[i + 1])
    ensures i + 1 == |ls.buckets| ==> forall o :: Present(ls, o) && Before(resume, o) ==> o in done
  {
    Lex.Asymmetric(ls.buckets[i], resume.bucket);
    assert Todo(ls, resume, ls.buckets[i], []);
    NextBucket(ls, resume, done, i, []);
    assert done + InBucket(ls.buckets[i], []) == done;
  }

  /** Every bucket before the `i`-th is skipped or listed. */
  ghost predicate ListedTo(ls: Listing, resume: Object, i: nat)
    requires i <= |ls.buckets|
  {
    forall k :: 0 <= k < i ==> !Unlisted(ls, resume, ls.buckets[k])
  }

  /** A run that ends at its `i`-th bucket has not reached a bucket it cannot list. */
  lemma StopsInTime(ls: Listing, resume: Object, processed: seq<Object>, i: nat)
    requires ValidListing(ls) && i < |ls.buckets| && ListedTo(ls, resume, i)
    requires forall o :: o in processed ==>
      Lex.Less(o.bucket, ls.buckets[i]) || (o.bucket == ls.buckets[i] && ls.keys(o.bucket).Some?)
    ensures Halts(ls, resume, processed, Interrupted)
  {
    forall b, o | Unlisted(ls, resume, b) && o in processed
      ensures Lex.Less(o.bucket, b)
    {
      var k :| 0 <= k < |ls.buckets| && ls.buckets[k] == b;
      if k > i && Lex.Less(o.bucket, ls.buckets[i]) { Lex.Transitive(o.bucket, ls.buckets[i], b); }
    }
  }

  class Walker {
    /** The persisted cursor. */
    var cursor: Object
    var report: Report
    ghost var processed: seq<Object>
    /** Nothing cancels the run and every checkpoint is persisted. */
    const calm: bool

    constructor (cursor: Object, calm: bool)
      ensures this.cursor == cursor && processed == [] && report == Report(0, 0, 0, 0) && this.calm == calm
    {
      this.cursor, report, processed, this.calm := cursor, Report(0, 0, 0, 0), [], calm;
    }

    /** What holds between batches. The persisted cursor is where the run resumed or an
        object already processed. */
    ghost predicate Walked(ls: Listing, resume: Object)
      reads this
    {
      && Prefix(ls, resume, processed)
      && (cursor == resume || cursor in processed)
      && report.objects == |processed|
      && report.relocated + report.failed <= report.objects
    }

    /** The process may be told to stop between batches. */
    method Cancelled() returns (stop: bool)
      ensures calm ==> !stop
    {
      stop := *;
      stop := stop && !calm;
    }

    /** Persist the cursor; a reported failure may still have been persisted. */
    method Save(cur: Object) returns (ok: bool)
      modifies this`cursor
      ensures ok ==> cursor == cur
      ensures cursor == cur || cursor == old(cursor)
      ensures calm ==> ok
    {
      ok := *;
      ok := ok || calm;
      var stored := *;
      if ok || stored { cursor := cur; }
    }

    /** One batch: every object is repaired, whatever comes of it. */
    method RepairBatch(b: string, keys: seq<string>)
      modifies this`report, this`processed
      ensures processed == old(processed) + InBucket(b, keys)
      ensures report.objects == old(report.objects) + |keys| && report.buckets == old(report.buckets)
      ensures report.relocated + report.failed <= old(report.relocated + report.failed) + |keys|
    {
      for i := 0 to |keys|
        invariant processed == old(processed) + InBucket(b, keys[..i])
        invariant report.objects == old(report.objects) + i && report.buckets == old(report.buckets)
        invariant report.relocated + report.failed <= old(report.relocated + report.failed) + i
      {
        var failed, changed := *, *;
        report := report.(objects := report.objects + 1);
        if failed {
          report := report.(failed := report.failed + 1);
        } else if changed {
          report := report.(relocated := report.relocated + 1);
        }
        processed := processed + [Object(b, keys[i])];
        assert keys[..i + 1][..i] == keys[..i];
      }
      assert keys[..|keys|] == keys;
    }

    /** One batch and its checkpoint. */
    method Advance(ghost ls: Listing, ghost resume: Object, ghost done: seq<Object>, b: string, keys: seq<string>,
                   start: nat, next: nat, checkpoint: bool)
      returns (ok: bool)
      requires Walked(ls, resume) && UpToBucket(ls, resume, done, b) && Todo(ls, resume, b, keys)
      requires start < next <= |keys| && processed == done + InBucket(b, keys[..start])
      modifies this
      ensures Walked(ls, resume) && report.buckets == old(report.buckets)
      ensures processed == done + InBucket(b, keys[..next])
      ensures ok && checkpoint ==> cursor == Object(b, keys[next - 1])
      ensures !checkpoint ==> ok && cursor == old(cursor)
      ensures calm ==> ok
    {
      RepairBatch(b, keys[start..next]);
      InBucketSplit(done, b, keys, start, next);
      ExtendPrefix(ls, resume, done, b, keys, next);
      ok := true;
      if checkpoint { ok := Save(Object(b, keys[next - 1])); }
    }

    /** A bucket's remaining objects in batches, the cursor saved after each. */
    method WalkBucket(ghost ls: Listing, ghost resume: Object, b: string, keys: seq<string>, workers: nat,
                      checkpoint: bool)
      returns (end: End)
      requires workers > 0 && Walked(ls, resume) && UpToBucket(ls, resume, processed, b) && Todo(ls, resume, b, keys)
      modifies this
      ensures Walked(ls, resume) && report.buckets == old(report.buckets)
      ensures forall o :: o in processed ==> o in old(processed) || o.bucket == b
      ensures end.Completed? ==> processed == old(processed) + InBucket(b, keys)
      ensures end.Completed? && checkpoint && keys != [] ==> cursor == Object(b, keys[|keys| - 1])
      ensures !checkpoint ==> cursor == old(cursor)
      ensures calm ==> end.Completed?
    {
      var start := 0;
      while start < |keys|
        invariant 0 <= start <= |keys|
        invariant processed == old(processed) + InBucket(b, keys[..start])
        invariant Walked(ls, resume) && report.buckets == old(report.buckets)
        invariant checkpoint && start > 0 ==> cursor == Object(b, keys[start - 1])
        invariant !checkpoint ==> cursor == old(cursor)
      {
        var stop := Cancelled();
        if stop { return Interrupted; }
        var next := if start + workers < |keys| then start + workers else |keys|;
        var ok := Advance(ls, resume, old(processed), b, keys, start, next, checkpoint);
        if !ok { return Interrupted; }
        start := next;
      }
      assert keys[..|keys|] == keys;
      end := Completed;
    }
  }

  /** Drop the keys at or before the resume cursor. */
  method DropDone(keys: seq<string>, upTo: string) returns (rest: seq<string>)
    requires Ascending(keys)
    ensures Ascending(rest) && forall k :: k in rest <==> k in keys && Lex.Less(upTo, k)
  {
    rest := keys;
    ghost var n := 0;
    while rest != [] && Lex.AtMost(rest[0], upTo)
      invariant n <= |keys| && rest == keys[n..] && forall i :: 0 <= i < n ==> Lex.AtMost(keys[i], upTo)
      decreases |rest|
    {
      rest := rest[1..];
      n := n + 1;
    }
    forall i | 0 <= i < n
      ensures !Lex.Less(upTo, keys[i])
    {
      if Lex.Less(keys[i], upTo) { Lex.Asymmetric(keys[i], upTo); }
      Lex.Irreflexive(upTo);
    }
    forall k | k in rest
      ensures Lex.Less(upTo, k)
    {
      Lex.Total(upTo, rest[0]);
      if k != rest[0] { Lex.Transitive(upTo, rest[0], k); }
    }
    forall k
      ensures k in rest <==> k in keys && Lex.Less(upTo, k)
    {
      if k in keys {
        var i :| 0 <= i < |keys| && keys[i] == k;
        if i >= n { assert rest[i - n] == k; }
      }
    }
  }

  /** The keys a run still has to do in a bucket it does not skip. */
  method Remaining(ls: Listing, resume: Object, b: string) returns (keys: seq<string>)
    requires ValidListing(ls) && b in ls.buckets && ls.keys(b).Some? && !Lex.Less(b, resume.bucket)
    ensures Todo(ls, resume, b, keys)
  {
    keys := ls.keys(b).value;
    Lex.Total(b, resume.bucket);
    if b == resume.bucket {
      Lex.Irreflexive(b);
      keys := DropDone(keys, resume.key);
    }
  }

  /** The buckets in turn, from the resume cursor's on. */
  method WalkBuckets(w: Walker, resume: Object, workers: nat, ls: Listing, checkpoint: bool) returns (end: End)
    requires workers > 0 && ValidListing(ls)
    requires w.cursor == resume && w.processed == [] && w.report == Report(0, 0, 0, 0)
    modifies w
    ensures FaithfulRun(Run(resume, Some(ls), w.processed, w.cursor, end))
    ensures w.report.objects == |w.processed| && w.report.relocated + w.report.failed <= w.report.objects
    ensures !checkpoint ==> w.cursor == resume
    ensures w.calm ==> (end.Completed? <==> forall b :: !Unlisted(ls, resume, b))
  {
    if ls.buckets != [] { FirstBucket(ls, resume); }
    for i := 0 to |ls.buckets|
      invariant w.Walked(ls, resume) && (!checkpoint ==> w.cursor == resume) && ListedTo(ls, resume, i)
      invariant i < |ls.buckets| ==> UpToBucket(ls, resume, w.processed, ls.buckets[i])
      invariant i == |ls.buckets| ==> forall o :: Present(ls, o) && Before(resume, o) ==> o in w.processed
    {
      var b := ls.buckets[i];
      ghost var had := w.processed;
      if Lex.Less(b, resume.bucket) { SkipBucket(ls, resume, had, i); continue; }
      if ls.keys(b).None? {
        assert Unlisted(ls, resume, b);
        StopsInTime(ls, resume, had, i);
        return Interrupted;
      }
      var keys := Remaining(ls, resume, b);
      w.report := w.report.(buckets := w.report.buckets + 1);
      end := w.WalkBucket(ls, resume, b, keys, workers, checkpoint);
      if end.Interrupted? {
        StopsInTime(ls, resume, w.processed, i);
        return;
      }
      NextBucket(ls, resume, had, i, keys);
    }
    end := Completed;
  }

  /** One pass over everything after the resume cursor, given what the buckets are, or
      nothing when they cannot be listed. */
  method Walk(w: Walker, resume: Object, concurrency: int, listing: Option<Listing>, checkpoint: bool)
    returns (end: End)
    requires listing.Some? ==> ValidListing(listing.value)
    requires w.cursor == resume && w.processed == [] && w.report == Report(0, 0, 0, 0)
    modifies w
    ensures FaithfulRun(Run(resume, listing, w.processed, w.cursor, end))
    ensures w.report.objects == |w.processed| && w.report.relocated + w.report.failed <= w.report.objects
    ensures !checkpoint ==> w.cursor == resume
    ensures w.calm ==> (end.Completed? <==> listing.Some? && forall b :: !Unlisted(listing.value, resume, b))
  {
    var workers := if concurrency <= 0 then DEFAULT_CONCURRENCY else concurrency;
    if listing.None? { return Interrupted; }
    end := WalkBuckets(w, resume, workers, listing.value, checkpoint);
  }
}
