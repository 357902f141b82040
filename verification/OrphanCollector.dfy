/** The orphan collector itself: listings, sealed cursors, and the loops over classes and
    objects, each proved against the page of the full scan in OrphanPaging. */
module OrphanCollector {
  import opened ObjectKeys
  import opened OrphanPaging
  import opened OrphanVerdicts
  import opened Text
  import opened Wrappers

  datatype Error = Validation | StorageFailed | LookupError

  const DEFAULT_BATCH_LIMIT := 100
  const MAX_BATCH_LIMIT := 1000
  const DEFAULT_GRACE_HOURS := 24
  const MAX_GRACE_HOURS := 24 * 365
  const HOUR := 3_600_000_000_000

  function NormalizeBatchLimit(limit: int): (n: nat)
    ensures 1 <= n <= 1000 && (1 <= limit <= 1000 ==> n == limit)
    ensures (limit <= 0 ==> n == 100) && (limit > 1000 ==> n == 1000)
  {
    if limit <= 0 then DEFAULT_BATCH_LIMIT else if limit > MAX_BATCH_LIMIT then MAX_BATCH_LIMIT else limit
  }

  function NormalizeGraceHours(hours: int): (n: nat)
    ensures 1 <= n <= 8760 && (1 <= hours <= 8760 ==> n == hours)
    ensures (hours <= 0 ==> n == 24) && (hours > 8760 ==> n == 8760)
  {
    if hours <= 0 then DEFAULT_GRACE_HOURS else if hours > MAX_GRACE_HOURS then MAX_GRACE_HOURS else hours
  }

  // ---------------------------------------------------------------------------------------
  // Listing a bucket.

  /** What the storage client's stream yields: objects, or an error. */
  datatype Item = Listed(listed: Object) | Failed(cancelled: bool)

  datatype Listing = Listing(objects: seq<Object>, nextCursor: string)

  /** At most `limit` objects; a cursor exactly when the stream had more. An error fails the
      call unless it is the cancellation that the call itself caused. */
  method ListObjects(stream: seq<Item>, limit: int) returns (r: Result<Listing, Error>)
    ensures limit <= 0 ==> r == Ok(Listing([], ""))
    ensures limit > 0 ==>
      (r.Ok? <==> forall i :: 0 <= i < |stream| && stream[i].Failed? ==> i > limit && stream[i].cancelled)
    ensures limit > 0 && r.Ok? ==> |r.value.objects| == Min(limit, |stream|)
    ensures limit > 0 && r.Ok? ==> forall i :: 0 <= i < |r.value.objects| ==> stream[i] == Listed(r.value.objects[i])
    ensures limit > 0 && r.Ok? ==> r.value.nextCursor == if |stream| > limit then r.value.objects[limit - 1].key else ""
    ensures r.Err? ==> r.error == StorageFailed
  {
    if limit <= 0 {
      return Ok(Listing([], ""));
    }
    var objects: seq<Object> := [];
    var hasMore, stopped := false, false;
    for n := 0 to |stream|
      invariant |objects| == Min(limit, n)
      invariant forall i :: 0 <= i < |objects| ==> stream[i] == Listed(objects[i])
      invariant hasMore == stopped == (n > limit)
      invariant forall i :: 0 <= i < n && stream[i].Failed? ==> i > limit && stream[i].cancelled
    {
      match stream[n] {
        case Failed(cancelled) =>
          if !(stopped && cancelled) {
            return Err(StorageFailed);
          }
        case Listed(o) =>
          if |objects| >= limit {
            hasMore, stopped := true, true;
          } else {
            objects := objects + [o];
          }
      }
    }
    return Ok(Listing(objects, if hasMore && |objects| > 0 then objects[|objects| - 1].key else ""));
  }

  function Stream(objects: seq<Object>): (stream: seq<Item>)
    ensures |stream| == |objects| && forall i :: 0 <= i < |stream| ==> stream[i] == Listed(objects[i])
  {
    seq(|objects|, i requires 0 <= i < |objects| => Listed(objects[i]))
  }

  // ---------------------------------------------------------------------------------------
  // Cursors as sealed tokens.

  datatype Payload = Payload(tenant: string, index: int, key: string, config: string)

  /** Authenticated encryption followed by the URL-safe base64 encoding. */
  datatype Sealer = Sealer(seal: Payload -> string, open: string -> Option<Payload>)

  ghost predicate Sound(sealer: Sealer) {
    forall p :: sealer.open(sealer.seal(p)) == Some(p) && forall i :: 0 <= i < |sealer.seal(p)| ==>
      !Text.IsSpace(sealer.seal(p)[i])
  }

  function EncodeCursor(sealer: Sealer, tenant: string, cursor: Cursor, config: string): string {
    "v1." + sealer.seal(Payload(tenant, cursor.index, cursor.key, config))
  }

  function DecodeCursor(sealer: Sealer, tenant: string, token: string, classCount: nat, config: string)
    : Result<Cursor, Error>
  {
    var raw := Text.TrimSpace(token);
    if raw == "" then Ok(Cursor(0, ""))
    else if !("v1." <= raw) then Err(Validation)
    else
      match sealer.open(raw[3..])
      case None => Err(Validation)
      case Some(p) =>
        if p.tenant != tenant || p.index < 0 || p.index >= classCount || p.config != config then Err(Validation)
        else Ok(Cursor(p.index, p.key))
  }

  /** No token starts the scan; any other is accepted if and only if it is a sealed one of this tenant, for
      these buckets and one of their classes. */
  lemma DecodeIs(sealer: Sealer, tenant: string, token: string, classCount: nat, config: string)
    ensures var raw, r := TrimSpace(token), DecodeCursor(sealer, tenant, token, classCount, config);
      if raw == "" then r == Ok(Cursor(0, ""))
      else if |raw| >= 3 && raw[..3] == "v1." && sealer.open(raw[3..]).Some? then
        var p := sealer.open(raw[3..]).value;
        if p.tenant == tenant && p.config == config && 0 <= p.index < classCount then r == Ok(Cursor(p.index, p.key))
        else r == Err(Validation)
      else r == Err(Validation)
  {
  }

  /** A token resumes where it was issued: for the same tenant and buckets, and for no other. */
  lemma DecodeEncode(sealer: Sealer, issuer: string, issued: string, cursor: Cursor, tenant: string, config: string,
      classCount: nat)
    requires Sound(sealer)
    ensures DecodeCursor(sealer, tenant, EncodeCursor(sealer, issuer, cursor, issued), classCount, config)
      == if tenant == issuer && config == issued && cursor.index < classCount then Ok(cursor) else Err(Validation)
  {
    var p := Payload(issuer, cursor.index, cursor.key, issued);
    var token := "v1." + sealer.seal(p);
    assert sealer.open(sealer.seal(p)) == Some(p);
    assert token[0] == 'v' && token[3..] == sealer.seal(p);
    var last := token[|token| - 1];
    assert last == '.' || last == sealer.seal(p)[|sealer.seal(p)| - 1];
    assert Text.Trimmed(token);
  }

  // ---------------------------------------------------------------------------------------
  // The collector.

  datatype Reply = Reply(report: Report, hasMore: bool, nextCursor: string)

  datatype Options = Options(dryRun: bool, batchLimit: int, graceHours: int, cursor: string)

  /** What the lookups and removals of one call answer. */
  datatype Answers = Answers(referenced: set<string>, down: set<string>, stuck: set<(string, string)>)

  /** What inspecting one object adds to a report that has already counted it as scanned. */
  function Added(scan: Scan, report: Report, e: Entry, verdict: Verdict): Report {
    Plus(report, Count(scan, e, verdict).(scanned := 0))
  }

  /** A page under way: the store, the objects it has seen, what it will report, and whether a
      lookup has failed. */
  datatype Progress = Progress(store: Store, seen: set<(string, string)>, report: Report, failed: bool)

  predicate Recognized(verdict: Verdict) {
    verdict != UnrecognizedPattern && verdict != TenantMismatch && verdict != BucketPatternMismatch
  }

  /** An object already seen by this page is only counted, once its key and class are right. */
  function JudgeSeen(e: Entry, verdict: Verdict, seen: set<(string, string)>): Verdict {
    if Recognized(verdict) && Place(e) in seen then DuplicateListing else verdict
  }

  lemma SkipIsAdded(scan: Scan, report: Report, e: Entry, verdict: Verdict)
    requires verdict != Candidate
    ensures Skip(report, verdict) == Added(scan, report, e, verdict)
  {
    assert report.candidateIds + [] == report.candidateIds;
  }

  /** Skipping an object for its key or class, or because it has been seen. */
  lemma SkipIsInspect(scan: Scan, p: Progress, e: Entry, verdict: Verdict, final: Verdict)
    requires !p.failed && final == JudgeSeen(e, verdict, p.seen) && (final == DuplicateListing || !Recognized(final))
    requires verdict != DuplicateListing
    ensures p.(report := Skip(p.report, final)) == Inspect(scan, p, e, verdict)
  {
    SkipIsAdded(scan, p.report, e, final);
    assert final == DuplicateListing ==> p.seen + {Place(e)} == p.seen;
  }

  /** The page after one more object, already counted as scanned, has got that verdict. */
  function Inspect(scan: Scan, p: Progress, e: Entry, verdict: Verdict): Progress {
    var final := JudgeSeen(e, verdict, p.seen);
    Progress(
      Settle(scan, p.store, e, final),
      if Recognized(verdict) then p.seen + {Place(e)} else p.seen,
      if final == LookupFailed then p.report else Added(scan, p.report, e, final),
      p.failed || final == LookupFailed)
  }

  /** An object gets the verdict it deserves, and the page what that brings. */
  lemma InspectDoes(scan: Scan, p: Progress, e: Entry)
    requires !p.failed
    ensures var q := Inspect(scan, p, e, Judge(scan, e));
      ObjectInspected(scan, e, p.store, p.seen, p.report, !q.failed, q.store, q.seen, q.report)
  {
    var verdict := Judge(scan, e);
    OwnKeyParses(scan, e);
    VerdictIsDeserved(scan, e, verdict);
    VerdictIsDeserved(scan, e, LookupFailed);
    VerdictIsDeserved(scan, e, Candidate);
    var final := JudgeSeen(e, verdict, p.seen);
    SettleLoses(scan, p.store, e, final);
    if final != Candidate {
      SkipIsAdded(scan, p.report, e, final);
    }
  }

  function InspectOne(scan: Scan, p: Progress, e: Entry): Progress {
    Inspect(scan, p.(report := p.report.(scanned := p.report.scanned + 1)), e, Judge(scan, e))
  }

  type Step = (Progress, Entry) -> Progress

  /** The step is the inspection of one object; the loops need to know no more of it. */
  ghost predicate StepOf(scan: Scan, step: Step) {
    forall p, e {:trigger InspectOne(scan, p, e)} :: InspectOne(scan, p, e) == step(p, e)
  }

  /** The page after its first n objects. */
  function After(step: Step, start: Progress, all: seq<Entry>, n: nat): Progress
    requires n <= |all|
  {
    if n == 0 then start else step(After(step, start, all, n - 1), all[n - 1])
  }

  lemma InspectOneScansOne(scan: Scan, p: Progress, e: Entry)
    ensures InspectOne(scan, p, e).report.scanned == p.report.scanned + 1
    ensures p.failed ==> InspectOne(scan, p, e).failed
  {
  }

  lemma {:induction false} ScannedCounts(scan: Scan, step: Step, start: Progress, all: seq<Entry>, n: nat)
    requires StepOf(scan, step) && n <= |all|
    ensures After(step, start, all, n).report.scanned == start.report.scanned + n
  {
    if n > 0 {
      ScannedCounts(scan, step, start, all, n - 1);
      InspectOneScansOne(scan, After(step, start, all, n - 1), all[n - 1]);
    }
  }

  ghost function Places(entries: seq<Entry>): set<(string, string)> {
    set i | 0 <= i < |entries| :: Place(entries[i])
  }

  lemma NextPlaceIsNew(scan: Scan, all: seq<Entry>, n: nat)
    requires Distinct(scan.classes) && InOrder(scan, all, 0) && n < |all|
    ensures Place(all[n]) !in Places(all[..n])
  {
    forall i | 0 <= i < n ensures Place(all[i]) != Place(all[n]) {
      assert Precedes(all[i], all[n]);
      BeforeIsIrreflexive(all[n].item.key);
    }
  }

  lemma PlacesGrow(all: seq<Entry>, n: nat)
    requires n < |all|
    ensures Places(all[..n]) + {Place(all[n])} <= Places(all[..n + 1])
  {
    var entries := all[..n + 1];
    assert entries[n] == all[n];
    forall i | 0 <= i < n ensures Place(all[..n][i]) in Places(entries) {
      assert entries[i] == all[i];
    }
  }

  predicate LookupsSucceed(scan: Scan, entries: seq<Entry>) {
    forall i :: 0 <= i < |entries| ==> Judge(scan, entries[i]) != LookupFailed
  }

  /** The page has dealt with exactly these objects, each by its own verdict. */
  ghost predicate Dealt(scan: Scan, before: Store, entries: seq<Entry>, p: Progress)
    requires ValidStore(scan, before)
  {
    && p.store == Swept(scan, before, entries) && p.report == ReportOf(scan, entries) && p.seen <= Places(entries)
    && LookupsSucceed(scan, entries)
  }

  lemma LookupsSucceedOnce(scan: Scan, all: seq<Entry>, n: nat)
    requires n < |all| && LookupsSucceed(scan, all[..n]) && Judge(scan, all[n]) != LookupFailed
    ensures LookupsSucceed(scan, all[..n + 1])
  {
    assert all[..n + 1] == all[..n] + [all[n]];
  }

  /** An object in a place not seen before is dealt with by its own verdict. */
  lemma NewPlaceIsJudged(scan: Scan, p: Progress, e: Entry, verdict: Verdict)
    requires Place(e) !in p.seen && verdict == Judge(scan, e) && !p.failed
    ensures var q := InspectOne(scan, p, e);
      && (q.failed <==> verdict == LookupFailed) && q.store == Settle(scan, p.store, e, verdict)
        && q.seen <= p.seen + {Place(e)}
      && (!q.failed ==> q.report == Plus(p.report, Count(scan, e, verdict)))
  {
  }

  lemma {:induction false} SweepOneMore(scan: Scan, before: Store, all: seq<Entry>, n: nat, verdict: Verdict)
    requires ValidStore(scan, before) && n < |all| && verdict == Judge(scan, all[n])
    ensures Swept(scan, before, all[..n + 1]) == Settle(scan, Swept(scan, before, all[..n]), all[n], verdict)
    ensures ReportOf(scan, all[..n + 1]) == Plus(ReportOf(scan, all[..n]), Count(scan, all[n], verdict))
  {
    assert all[..n + 1][..n] == all[..n];
  }

  lemma DealtGrows(scan: Scan, before: Store, all: seq<Entry>, n: nat, p: Progress, q: Progress)
    requires ValidStore(scan, before) && InOrder(scan, all, 0) && n < |all|
    requires Dealt(scan, before, all[..n], p) && !p.failed && q == InspectOne(scan, p, all[n])
    ensures q.failed <==> Judge(scan, all[n]) == LookupFailed
    ensures if q.failed then q.store == p.store else Dealt(scan, before, all[..n + 1], q)
  {
    var verdict := Judge(scan, all[n]);
    NextPlaceIsNew(scan, all, n);
    NewPlaceIsJudged(scan, p, all[n], verdict);
    PlacesGrow(all, n);
    SweepOneMore(scan, before, all, n, verdict);
    if verdict != LookupFailed {
      LookupsSucceedOnce(scan, all, n);
    }
  }

  /** As long as no lookup fails, the page has dealt with the first n objects. */
  ghost predicate Deals(scan: Scan, before: Store, all: seq<Entry>, n: nat, p: Progress)
    requires ValidStore(scan, before) && n <= |all|
  {
    !p.failed ==> Dealt(scan, before, all[..n], p)
  }

  lemma StartDeals(scan: Scan, before: Store, all: seq<Entry>)
    requires ValidStore(scan, before)
    ensures Deals(scan, before, all, 0, Progress(before, {}, EMPTY_REPORT, false))
  {
    assert all[..0] == [];
  }

  lemma StepDeals(scan: Scan, step: Step, before: Store, all: seq<Entry>, n: nat, p: Progress)
    requires StepOf(scan, step) && ValidStore(scan, before) && InOrder(scan, all, 0) && n < |all|
    requires Deals(scan, before, all, n, p)
    ensures var q := step(p, all[n]);
      && Deals(scan, before, all, n + 1, q)
      && (!p.failed ==> (q.failed <==> Judge(scan, all[n]) == LookupFailed) && (q.failed ==> q.store == p.store))
  {
    InspectOneScansOne(scan, p, all[n]);
    if !p.failed {
      DealtGrows(scan, before, all, n, p, InspectOne(scan, p, all[n]));
    }
  }

  /** What the loops do, object after object, is the page of the full scan: no object is met
      twice, and each is removed and counted by its own verdict. */
  lemma {:induction false} AfterIsThePage(scan: Scan, step: Step, before: Store, all: seq<Entry>, n: nat)
    requires StepOf(scan, step) && ValidStore(scan, before) && InOrder(scan, all, 0) && n <= |all|
    ensures Deals(scan, before, all, n, After(step, Progress(before, {}, EMPTY_REPORT, false), all, n))
  {
    if n == 0 {
      StartDeals(scan, before, all);
    } else {
      var p := After(step, Progress(before, {}, EMPTY_REPORT, false), all, n - 1);
      AfterIsThePage(scan, step, before, all, n - 1);
      StepDeals(scan, step, before, all, n - 1, p);
    }
  }

  // ---------------------------------------------------------------------------------------
  // One class's share of the scan.

  /** From the n-th object on, the scan continues with this listing of that class. */
  ghost predicate ContinuesWith(scan: Scan, all: seq<Entry>, n: nat, index: nat, listing: seq<Object>) {
    && index < |scan.classes| && n + |listing| <= |all|
    && (forall i :: 0 <= i < |listing| ==>
      all[n + i] == Entry(index, scan.classes[index], listing[i]) && listing[i].key != "")
  }

  lemma ListingContinues(scan: Scan, store: Store, all: seq<Entry>, n: nat, cursor: Cursor)
    requires ValidStore(scan, store) && n <= |all| && cursor.index < |scan.classes|
    requires From(scan, store, cursor) == all[n..]
    ensures var listing := ListingOf(scan, store, cursor.index, cursor.key);
      && ContinuesWith(scan, all, n, cursor.index, listing)
      && From(scan, store, Cursor(cursor.index + 1, "")) == all[n + |listing|..]
  {
    var home := scan.classes[cursor.index];
    var listing := ListingOf(scan, store, cursor.index, cursor.key);
    var rest := From(scan, store, Cursor(cursor.index + 1, ""));
    MatchingObjects(store[home.bucket], Prefix(scan), cursor.key);
    assert all[n..] == Entries(cursor.index, home, listing) + rest;
    assert all[n..][|listing|..] == rest;
    forall i | 0 <= i < |listing| ensures all[n + i] == Entry(cursor.index, home, listing[i]) && listing[i].key != "" {
      assert all[n..][i] == Entry(cursor.index, home, listing[i]);
      assert Prefix(scan)[0] == 't';
    }
  }

  /** The class still has objects when the page is full. */
  lemma NextWithinClass(scan: Scan, all: seq<Entry>, n: nat, index: nat, listing: seq<Object>, limit: nat)
    requires ContinuesWith(scan, all, n, index, listing) && n < limit < n + |listing|
    ensures Next(scan, all, limit) == Some(Cursor(index, listing[limit - n - 1].key))
  {
    var i := limit - n - 1;
    assert all[n + i] == Entry(index, scan.classes[index], listing[i]);
    assert all[n + (i + 1)] == Entry(index, scan.classes[index], listing[i + 1]);
  }

  /** The page is full just as the class ends. */
  lemma {:induction false} NextAfterClass(scan: Scan, store: Store, all: seq<Entry>, n: nat, index: nat,
      listing: seq<Object>)
    requires ContinuesWith(scan, all, n, index, listing) && ValidStore(scan, store) && listing != []
    requires From(scan, store, Cursor(index + 1, "")) == all[n + |listing|..]
    ensures Next(scan, all, n + |listing|) == if index + 1 < |scan.classes| then Some(Cursor(index + 1, "")) else None
  {
    FromIsOrdered(scan, store, Cursor(index + 1, ""));
    var limit := n + |listing|;
    var i := |listing| - 1;
    assert all[n + i] == Entry(index, scan.classes[index], listing[i]);
    if limit < |all| {
      assert all[limit] == all[limit..][0];
    }
  }

  /** Where the scan from the cursor stands when it comes to a class. */
  function Entering(cursor: Cursor, index: nat): Cursor {
    if index == cursor.index then cursor else Cursor(index, "")
  }

  /** How many objects the scan from the cursor meets before that class. */
  function Offset(scan: Scan, store: Store, cursor: Cursor, index: nat): nat
    requires ValidStore(scan, store) && cursor.index <= index <= |scan.classes|
  {
    if index == cursor.index then 0
    else Offset(scan, store, cursor, index - 1) + |ListingOf(scan, store, index - 1, Entering(cursor, index - 1).key)|
  }

  lemma {:induction false} OffsetIsReached(scan: Scan, store: Store, cursor: Cursor, index: nat)
    requires ValidStore(scan, store) && cursor.index <= index <= |scan.classes|
    ensures var all, n := From(scan, store, cursor), Offset(scan, store, cursor, index);
      n <= |all| && From(scan, store, Entering(cursor, index)) == all[n..]
  {
    if cursor.index < index {
      OffsetIsReached(scan, store, cursor, index - 1);
      ListingContinues(scan, store, From(scan, store, cursor), Offset(scan, store, cursor, index - 1),
        Entering(cursor, index - 1));
    }
  }

  /** A class's listing lies in the scan from n on; where the page is filled in it is where the
      next page starts. */
  ghost predicate LiesAt(scan: Scan, all: seq<Entry>, n: nat, index: nat, listing: seq<Object>, limit: nat)
    requires limit >= 1
  {
    && ContinuesWith(scan, all, n, index, listing)
    && (n < limit < n + |listing| ==> Next(scan, all, limit) == Some(Cursor(index, listing[limit - n - 1].key)))
    && (n < limit == n + |listing| ==>
      Next(scan, all, limit) == if index + 1 < |scan.classes| then Some(Cursor(index + 1, "")) else None)
  }

  lemma {:induction false} ListingLies(scan: Scan, store: Store, all: seq<Entry>, n: nat, here: Cursor, limit: nat)
    requires ValidStore(scan, store) && here.index < |scan.classes| && n <= |all| && limit >= 1
    requires From(scan, store, here) == all[n..]
    ensures LiesAt(scan, all, n, here.index, ListingOf(scan, store, here.index, here.key), limit)
  {
    var listing := ListingOf(scan, store, here.index, here.key);
    ListingContinues(scan, store, all, n, here);
    if n < limit < n + |listing| {
      NextWithinClass(scan, all, n, here.index, listing, limit);
    } else if n < limit == n + |listing| {
      NextAfterClass(scan, store, all, n, here.index, listing);
    }
  }

  lemma {:induction false} ClassLiesAtOffset(scan: Scan, store: Store, cursor: Cursor, index: nat, limit: nat)
    requires ValidStore(scan, store) && cursor.index <= index < |scan.classes| && limit >= 1
    ensures LiesAt(scan, From(scan, store, cursor), Offset(scan, store, cursor, index), index,
                   ListingOf(scan, store, index, Entering(cursor, index).key), limit)
  {
    OffsetIsReached(scan, store, cursor, index);
    ListingLies(scan, store, From(scan, store, cursor), Offset(scan, store, cursor, index),
      Entering(cursor, index), limit);
  }

  lemma {:induction false} ScanEnds(scan: Scan, store: Store, cursor: Cursor)
    requires ValidStore(scan, store) && cursor.index <= |scan.classes|
    ensures Offset(scan, store, cursor, |scan.classes|) == |From(scan, store, cursor)|
  {
    OffsetIsReached(scan, store, cursor, |scan.classes|);
  }

  /** Objects of other buckets leave a bucket alone. */
  lemma {:induction false} OthersLeaveBucket(scan: Scan, step: Step, start: Progress, all: seq<Entry>, n: nat,
      bucket: string)
    requires StepOf(scan, step) && n <= |all|
    requires forall i :: 0 <= i < n ==> all[i].home.bucket != bucket
    ensures Untouched(start.store, After(step, start, all, n).store, bucket)
  {
    if n > 0 {
      OthersLeaveBucket(scan, step, start, all, n - 1, bucket);
      OtherLeavesBucket(scan, After(step, start, all, n - 1), all[n - 1], bucket);
    }
  }

  lemma OtherLeavesBucket(scan: Scan, p: Progress, e: Entry, bucket: string)
    requires e.home.bucket != bucket
    ensures Untouched(p.store, InspectOne(scan, p, e).store, bucket)
  {
  }

  predicate Untouched(before: Store, now: Store, bucket: string) {
    (bucket in now <==> bucket in before) && (bucket in before ==> now[bucket] == before[bucket])
  }

  /** The first n objects of the scan are of classes before that index. */
  predicate AllBefore(scan: Scan, all: seq<Entry>, n: nat, index: nat) {
    n <= |all| && forall i :: 0 <= i < n ==> Proper(scan, all[i]) && all[i].index < index
  }

  lemma OneClassMore(scan: Scan, all: seq<Entry>, n: nat, index: nat, listing: seq<Object>)
    requires AllBefore(scan, all, n, index) && ContinuesWith(scan, all, n, index, listing)
    ensures AllBefore(scan, all, n + |listing|, index + 1)
  {
    forall i | 0 <= i < n + |listing| ensures Proper(scan, all[i]) && all[i].index < index + 1 {
      if i >= n {
        assert all[n + (i - n)] == Entry(index, scan.classes[index], listing[i - n]);
      }
    }
  }

  lemma {:induction false} EarlierClassesBeforeOffset(scan: Scan, store: Store, cursor: Cursor, index: nat)
    requires ValidStore(scan, store) && cursor.index <= index <= |scan.classes|
    ensures AllBefore(scan, From(scan, store, cursor), Offset(scan, store, cursor, index), index)
  {
    if cursor.index < index {
      var all, n := From(scan, store, cursor), Offset(scan, store, cursor, index - 1);
      EarlierClassesBeforeOffset(scan, store, cursor, index - 1);
      OffsetIsReached(scan, store, cursor, index - 1);
      ListingContinues(scan, store, all, n, Entering(cursor, index - 1));
      OneClassMore(scan, all, n, index - 1, ListingOf(scan, store, index - 1, Entering(cursor, index - 1).key));
    }
  }

  /** A class as the page will find it: its listing lies in the scan at its offset, and its bucket
      is still as it was. */
  ghost predicate ClassAhead(scan: Scan, step: Step, before: Store, cursor: Cursor, all: seq<Entry>, limit: nat,
      index: nat)
    requires ValidStore(scan, before) && cursor.index <= index < |scan.classes| && limit >= 1
  {
    var n := Offset(scan, before, cursor, index);
    && LiesAt(scan, all, n, index, ListingOf(scan, before, index, Entering(cursor, index).key), limit)
    && Untouched(before, After(step, Progress(before, {}, EMPTY_REPORT, false), all, n).store,
      scan.classes[index].bucket)
  }

  /** How the full scan falls into the classes. */
  ghost predicate Plan(scan: Scan, step: Step, before: Store, cursor: Cursor, all: seq<Entry>, limit: nat)
    requires ValidStore(scan, before) && cursor.index <= |scan.classes| && limit >= 1
  {
    && Offset(scan, before, cursor, |scan.classes|) == |all|
    && (forall i :: cursor.index <= i < |scan.classes| ==> ClassAhead(scan, step, before, cursor, all, limit, i))
  }

  lemma {:induction false} ScanHasPlan(scan: Scan, step: Step, before: Store, cursor: Cursor, limit: nat)
    requires ValidStore(scan, before) && cursor.index <= |scan.classes| && limit >= 1 && StepOf(scan, step)
    ensures Plan(scan, step, before, cursor, From(scan, before, cursor), limit)
  {
    var all := From(scan, before, cursor);
    ScanEnds(scan, before, cursor);
    forall i | cursor.index <= i < |scan.classes| ensures ClassAhead(scan, step, before, cursor, all, limit, i) {
      ClassLiesAtOffset(scan, before, cursor, i, limit);
      EarlierClassesBeforeOffset(scan, before, cursor, i);
      OthersLeaveBucket(scan, step, Progress(before, {}, EMPTY_REPORT, false), all, Offset(scan, before, cursor, i),
        scan.classes[i].bucket);
    }
  }

  /** The page under way: at a class, and not yet full unless nothing is left. */
  ghost predicate Paging(scan: Scan, step: Step, before: Store, cursor: Cursor, all: seq<Entry>, limit: nat,
                         index: nat, objectCursor: string, p: Progress)
    requires ValidStore(scan, before) && limit >= 1
  {
    && cursor.index <= index <= |scan.classes| && objectCursor == Entering(cursor, index).key
    && p.report.scanned == Offset(scan, before, cursor, index) <= limit && p.report.scanned <= |all|
    && p == After(step, Progress(before, {}, EMPTY_REPORT, false), all, p.report.scanned)
    && (p.report.scanned == limit ==> index == |scan.classes| && Next(scan, all, limit) == None)
  }

  lemma FailedPage(scan: Scan, step: Step, before: Store, all: seq<Entry>, limit: nat, m: nat)
    requires StepOf(scan, step) && ValidStore(scan, before) && InOrder(scan, all, 0) && 0 < m <= Min(limit, |all|)
    requires After(step, Progress(before, {}, EMPTY_REPORT, false), all, m).failed
    requires !After(step, Progress(before, {}, EMPTY_REPORT, false), all, m - 1).failed
    ensures FailedAt(scan, before, Page(all, limit), m - 1,
      After(step, Progress(before, {}, EMPTY_REPORT, false), all, m).store)
  {
    AfterIsThePage(scan, step, before, all, m - 1);
    StepDeals(scan, step, before, all, m - 1, After(step, Progress(before, {}, EMPTY_REPORT, false), all, m - 1));
    assert Page(all, limit)[..m - 1] == all[..m - 1];
  }

  /** The lookup failed for the k-th object of the page; those before it have been dealt with. */
  ghost predicate FailedAt(scan: Scan, before: Store, page: seq<Entry>, k: nat, after: Store)
    requires ValidStore(scan, before)
  {
    && k < |page| && Judge(scan, page[k]) == LookupFailed && LookupsSucceed(scan, page[..k])
    && after == Swept(scan, before, page[..k])
  }

  lemma {:induction false} NoLookupFailed(scan: Scan, entries: seq<Entry>)
    requires LookupsSucceed(scan, entries)
    ensures Number(scan, entries, LookupFailed) == 0
  {
    if entries != [] {
      var n := |entries| - 1;
      NoLookupFailed(scan, entries[..n]);
      VerdictIsDeserved(scan, entries[n], LookupFailed);
    }
  }

  class Collector {
    const classes: seq<ObjectClass>
    const sealer: Sealer
    const config: string
    var store: Store

    constructor (classes: seq<ObjectClass>, sealer: Sealer, config: string, store: Store)
      ensures this.classes == classes && this.sealer == sealer && this.config == config && this.store == store
    {
      this.classes, this.sealer, this.config, this.store := classes, sealer, config, store;
    }

    function ScanOf(tenant: string, now: int, options: Options, answers: Answers): (scan: Scan)
      ensures scan.cutoff == now - 3_600_000_000_000 * NormalizeGraceHours(options.graceHours)
      ensures scan.tenant == tenant && scan.classes == classes && scan.dryRun == options.dryRun
      ensures scan.referenced == answers.referenced && scan.down == answers.down && scan.stuck == answers.stuck
    {
      Scan(tenant, classes, now - HOUR * NormalizeGraceHours(options.graceHours), options.dryRun,
           answers.referenced, answers.down, answers.stuck)
    }

    function TokenOf(tenant: string, next: Option<Cursor>): string {
      match next
      case None => ""
      case Some(cursor) => EncodeCursor(sealer, tenant, cursor, config)
    }

    /** The reply and the new store are those of the page of the full scan; if a lookup on the page
        fails, there is no reply, and only the objects before it have been dealt with. */
    ghost predicate IsPage(scan: Scan, before: Store, cursor: Cursor, limit: nat, r: Result<Reply, Error>, after: Store)
      requires ValidStore(scan, before) && limit >= 1
    {
      var all := From(scan, before, cursor);
      var page := Page(all, limit);
      match r
      case Ok(reply) =>
        && LookupsSucceed(scan, page)
        && after == Swept(scan, before, page)
        && reply == Reply(ReportOf(scan, page), Next(scan, all, limit).Some?,
          TokenOf(scan.tenant, Next(scan, all, limit)))
      case Err(error) =>
        && error == LookupError
        && exists k :: FailedAt(scan, before, page, k, after)
    }

    /** An object whose key and class are right: judged by age and references, and removed if it
        is an orphan and this is no dry run. */
    method InspectRecognized(scan: Scan, e: Entry, report: Report) returns (ok: bool, report': Report)
      modifies this
      ensures ok <==> JudgeRecognized(scan, e) != LookupFailed
      ensures ok ==> report' == Added(scan, report, e, JudgeRecognized(scan, e))
      ensures !ok ==> report' == report
      ensures store == Settle(scan, old(store), e, JudgeRecognized(scan, e))
    {
      ok, report' := true, report;
      if e.item.lastModified == None {
        report' := Skip(report, MissingLastModified);
        SkipIsAdded(scan, report, e, MissingLastModified);
      } else if e.item.lastModified.value >= scan.cutoff {
        report' := Skip(report, TooNew);
        SkipIsAdded(scan, report, e, TooNew);
      } else if e.item.key in scan.down {
        ok := false;
      } else if Text.TrimSpace(e.item.key) in scan.referenced {
        report' := Skip(report, MetadataReferenced);
        SkipIsAdded(scan, report, e, MetadataReferenced);
      } else {
        report' := report.(candidates := report.candidates + 1,
          candidateIds := report.candidateIds + [(e.home.name, e.item.key)]);
        if !scan.dryRun {
          if Place(e) in scan.stuck {
            report' := report'.(errors := report'.errors + 1);
          } else {
            if e.home.bucket in store {
              store := store[e.home.bucket := Without(store[e.home.bucket], e.item.key)];
            }
            report' := report'.(deleted := report'.deleted + 1);
          }
        }
      }
    }

    method InspectParsed(scan: Scan, e: Entry, parsed: Option<BackendKey>, seen: set<(string, string)>, report: Report)
      returns (ok: bool, seen': set<(string, string)>, report': Report)
      modifies this
      ensures Progress(store, seen', report', !ok)
        == Inspect(scan, Progress(old(store), seen, report, false), e, JudgeParsed(scan, e, parsed))
    {
      ok, seen', report' := true, seen, report;
      ghost var p, verdict := Progress(store, seen, report, false), JudgeParsed(scan, e, parsed);
      if parsed == None {
        report' := Skip(report, UnrecognizedPattern);
        SkipIsInspect(scan, p, e, verdict, UnrecognizedPattern);
      } else if parsed.value.tenant != scan.tenant {
        report' := Skip(report, TenantMismatch);
        SkipIsInspect(scan, p, e, verdict, TenantMismatch);
      } else if !ClassMatches(e.home.name, parsed.value.kind) {
        report' := Skip(report, BucketPatternMismatch);
        SkipIsInspect(scan, p, e, verdict, BucketPatternMismatch);
      } else if Place(e) in seen {
        report' := Skip(report, DuplicateListing);
        SkipIsInspect(scan, p, e, verdict, DuplicateListing);
      } else {
        seen' := seen + {Place(e)};
        ok, report' := InspectRecognized(scan, e, report);
      }
    }

    /** One object: judged, counted, and dealt with. */
    method InspectStorageObject(scan: Scan, e: Entry, seen: set<(string, string)>, report: Report)
      returns (ok: bool, seen': set<(string, string)>, report': Report)
      modifies this
      ensures Progress(store, seen', report', !ok)
        == Inspect(scan, Progress(old(store), seen, report, false), e, Judge(scan, e))
      ensures ObjectInspected(scan, e, old(store), seen, report, ok, store, seen', report')
    {
      InspectDoes(scan, Progress(store, seen, report, false), e);
      ok, seen', report' := InspectParsed(scan, e, ParseBackendObjectKey(e.item.key), seen, report);
    }

    /** The next object of the scan. */
    method InspectNext(scan: Scan, ghost step: Step, e: Entry, seen: set<(string, string)>, report: Report)
      returns (ok: bool, seen': set<(string, string)>, report': Report)
      requires StepOf(scan, step)
      modifies this
      ensures Progress(store, seen', report', !ok) == step(Progress(old(store), seen, report, false), e)
    {
      ghost var p := Progress(store, seen, report, false);
      ok, seen', report' := InspectStorageObject(scan, e, seen, report.(scanned := report.scanned + 1));
      assert Progress(store, seen', report', !ok) == InspectOne(scan, p, e);
    }

    /** The objects of one listing in turn; they are the part of the scan from the n-th object on. */
    method InspectListing(scan: Scan, ghost step: Step, ghost start: Progress, ghost all: seq<Entry>, ghost n: nat,
        index: nat, objects: seq<Object>, seen: set<(string, string)>, report: Report)
      returns (ok: bool, seen': set<(string, string)>, report': Report, ghost m: nat)
      requires StepOf(scan, step) && index < |scan.classes| && n + |objects| <= |all|
      requires Progress(store, seen, report, false) == After(step, start, all, n)
      requires forall i :: 0 <= i < |objects| ==> all[n + i] == Entry(index, scan.classes[index], objects[i])
      modifies this
      ensures n <= m <= n + |objects| && Progress(store, seen', report', !ok) == After(step, start, all, m)
      ensures if ok then m == n + |objects| else m > n && !After(step, start, all, m - 1).failed
    {
      ok, seen', report', m := true, seen, report, n;
      for k := 0 to |objects|
        invariant ok && m == n + k && Progress(store, seen', report', false) == After(step, start, all, m)
      {
        var e := Entry(index, scan.classes[index], objects[k]);
        assert all[m] == e;
        ok, seen', report' := InspectNext(scan, step, e, seen', report');
        m := m + 1;
        if !ok {
          return;
        }
      }
    }

    /** One class: as much of its listing as the page has room for. */
    method InspectClass(scan: Scan, ghost step: Step, ghost start: Progress, ghost all: seq<Entry>, ghost n: nat,
        index: nat, objectCursor: string, room: nat, seen: set<(string, string)>, report: Report)
      returns (ok: bool, seen': set<(string, string)>, report': Report, nextCursor: string, ghost m: nat)
      requires StepOf(scan, step) && index < |scan.classes| && scan.classes[index].bucket in store && room >= 1
      requires ContinuesWith(scan, all, n, index, ListingOf(scan, store, index, objectCursor))
      requires Progress(store, seen, report, false) == After(step, start, all, n)
      modifies this
      ensures var listing := ListingOf(scan, old(store), index, objectCursor);
        && n <= m <= n + Min(room, |listing|) && Progress(store, seen', report', !ok) == After(step, start, all, m)
        && (if ok then m == n + Min(room, |listing|) else m > n && !After(step, start, all, m - 1).failed)
        && (ok ==> nextCursor == if |listing| > room then listing[room - 1].key else "")
    {
      ghost var listing := ListingOf(scan, store, index, objectCursor);
      var found := ListObjects(Stream(ListingOf(scan, store, index, objectCursor)), room);
      assert forall i :: 0 <= i < |found.value.objects| ==> found.value.objects[i] == listing[i];
      ok, seen', report', m := InspectListing(scan, step, start, all, n, index, found.value.objects, seen, report);
      nextCursor := found.value.nextCursor;
    }

    /** One class, and where to go on: at the returned cursor, or else with the next class. */
    method PassClass(scan: Scan, ghost step: Step, ghost before: Store, ghost cursor: Cursor, ghost all: seq<Entry>,
        limit: nat, index: nat, objectCursor: string, seen: set<(string, string)>, report: Report)
      returns (ok: bool, seen': set<(string, string)>, report': Report, next: Option<Cursor>, ghost m: nat)
      requires StepOf(scan, step) && scan.classes == classes && ValidStore(scan, before) && limit >= 1
      requires index < |classes| && report.scanned < limit
      requires Paging(scan, step, before, cursor, all, limit, index, objectCursor, Progress(store, seen, report, false))
      requires ClassAhead(scan, step, before, cursor, all, limit, index)
      modifies this
      ensures m <= |all|
        && Progress(store, seen', report', !ok) == After(step, Progress(before, {}, EMPTY_REPORT, false), all, m)
      ensures !ok ==> 0 < m <= limit && !After(step, Progress(before, {}, EMPTY_REPORT, false), all, m - 1).failed
      ensures ok && next.Some? ==> m == limit && next == Next(scan, all, limit)
      ensures ok && next.None? ==>
        Paging(scan, step, before, cursor, all, limit, index + 1, "", Progress(store, seen', report', false))
    {
      ghost var start := Progress(before, {}, EMPTY_REPORT, false);
      ghost var n := Offset(scan, before, cursor, index);
      next := None;
      var nextCursor;
      ok, seen', report', nextCursor, m :=
        InspectClass(scan, step, start, all, n, index, objectCursor, limit - report.scanned, seen, report);
      ScannedCounts(scan, step, start, all, m);
      if !ok {
      } else if nextCursor != "" {
        next := Some(Cursor(index, nextCursor));
      } else if report'.scanned >= limit && index + 1 < |classes| {
        next := Some(Cursor(index + 1, ""));
      }
    }

    /** The loop over the classes, from the cursor on. */
    method InspectClasses(scan: Scan, ghost step: Step, cursor: Cursor, ghost all: seq<Entry>, limit: nat)
      returns (ok: bool, report: Report, next: Option<Cursor>, ghost m: nat, seen: set<(string, string)>)
      requires scan.classes == classes && ValidStore(scan, store) && cursor.index <= |classes| && limit >= 1
      requires StepOf(scan, step) && Plan(scan, step, store, cursor, all, limit)
      modifies this
      ensures m <= |all|
        && Progress(store, seen, report, !ok) == After(step, Progress(old(store), {}, EMPTY_REPORT, false), all, m)
      ensures if ok then m == Min(limit, |all|) && next == Next(scan, all, limit)
              else 0 < m <= limit && !After(step, Progress(old(store), {}, EMPTY_REPORT, false), all, m - 1).failed
    {
      ghost var before := store;
      ok, report, next, m, seen := true, EMPTY_REPORT, None, 0, {};
      var index, objectCursor := cursor.index, cursor.key;
      while index < |classes| && report.scanned < limit
        invariant ok && next == None && m == report.scanned
        invariant Paging(scan, step, before, cursor, all, limit, index, objectCursor,
          Progress(store, seen, report, false))
      {
        ok, seen, report, next, m :=
          PassClass(scan, step, before, cursor, all, limit, index, objectCursor, seen, report);
        if !ok || next.Some? {
          return;
        }
        ScannedCounts(scan, step, Progress(before, {}, EMPTY_REPORT, false), all, m);
        index, objectCursor := index + 1, "";
      }
    }

    /** What a call does in terms of the objects themselves: those of the page, up to one whose lookup
        fails, are reported by the verdicts they deserve, and the store loses the orphans among them. */
    ghost predicate PageInspected(scan: Scan, before: Store, cursor: Cursor, limit: nat, r: Result<Reply, Error>,
        after: Store)
      requires ValidStore(scan, before)
    {
      var page := Page(From(scan, before, cursor), limit);
      match r
      case Ok(reply) =>
        && Number(scan, page, LookupFailed) == 0
        && Counted(scan, page, reply.report) && LosesOrphans(scan, page, before, after)
      case Err(_) =>
        exists k ::
          && 0 <= k < |page| && Deserves(scan, page[k], LookupFailed) && Number(scan, page[..k], LookupFailed) == 0
          && LosesOrphans(scan, page[..k], before, after)
    }

    lemma PageIsInspected(scan: Scan, before: Store, cursor: Cursor, limit: nat, r: Result<Reply, Error>, after: Store)
      requires ValidStore(scan, before) && limit >= 1 && IsPage(scan, before, cursor, limit, r, after)
      ensures PageInspected(scan, before, cursor, limit, r, after)
    {
      var page := Page(From(scan, before, cursor), limit);
      if r.Ok? {
        ReportCounts(scan, page);
        NoLookupFailed(scan, page);
        SweptLosesOrphans(scan, before, page);
      } else {
        var k: nat :| FailedAt(scan, before, page, k, after);
        VerdictIsDeserved(scan, page[k], LookupFailed);
        NoLookupFailed(scan, page[..k]);
        SweptLosesOrphans(scan, before, page[..k]);
      }
    }

    /** The page from the cursor on. */
    method InspectPage(scan: Scan, cursor: Cursor, limit: nat) returns (r: Result<Reply, Error>)
      requires scan.classes == classes && ValidStore(scan, store) && cursor.index <= |classes| && limit >= 1
      modifies this
      ensures IsPage(scan, old(store), cursor, limit, r, store)
    {
      ghost var before, all := store, From(scan, store, cursor);
      ghost var step: Step := (p, e) => InspectOne(scan, p, e);
      ScanHasPlan(scan, step, store, cursor, limit);
      var ok, report, next;
      ghost var m, seen;
      ok, report, next, m, seen := InspectClasses(scan, step, cursor, all, limit);
      FromIsOrdered(scan, before, cursor);
      if !ok {
        FailedPage(scan, step, before, all, limit, m);
        return Err(LookupError);
      }
      AfterIsThePage(scan, step, before, all, m);
      return Ok(Reply(report, next.Some?, TokenOf(scan.tenant, next)));
    }

    /** One page of a scan for orphans. */
    method InspectStorageOrphans(tenant: string, now: int, options: Options, answers: Answers)
        returns (r: Result<Reply, Error>)
      requires ValidStore(ScanOf(tenant, now, options, answers), store)
      modifies this
      ensures match DecodeCursor(sealer, tenant, options.cursor, |classes|, config)
        case Err(error) => r == Err(error) && store == old(store)
        case Ok(cursor) =>
          IsPage(ScanOf(tenant, now, options, answers), old(store), cursor, NormalizeBatchLimit(options.batchLimit),
            r, store)
      ensures var cursor := DecodeCursor(sealer, tenant, options.cursor, |classes|, config);
        cursor.Ok? ==>
          PageInspected(ScanOf(tenant, now, options, answers), old(store), cursor.value,
            NormalizeBatchLimit(options.batchLimit), r, store)
    {
      var limit := NormalizeBatchLimit(options.batchLimit);
      var scan := ScanOf(tenant, now, options, answers);
      var decoded := DecodeCursor(sealer, tenant, options.cursor, |classes|, config);
      if decoded.Err? {
        return Err(decoded.error);
      }
      r := InspectPage(scan, decoded.value, limit);
      PageIsInspected(scan, old(store), decoded.value, limit, r, store);
    }
  }
}
