/** One scan for orphans over three buckets, page by page: what a page inspects and where the
    next one resumes, and that the pages together are the full scan. */
module OrphanPaging {
  import opened ObjectKeys
  import opened Text
  import opened Wrappers

  datatype Object = Object(key: string, lastModified: Option<int>)

  datatype ObjectClass = ObjectClass(name: Class, bucket: string)

  type Store = map<string, seq<Object>>

  /** An object as the scan meets it: in the listing of its class, the one with that index. */
  datatype Entry = Entry(index: nat, home: ObjectClass, item: Object)

  datatype Cursor = Cursor(index: nat, key: string)

  /** What stays fixed during a scan. `referenced` holds the keys the metadata lookup knows,
      `down` those for which it fails, `stuck` the objects whose removal fails. */
  datatype Scan = Scan(
    tenant: string, classes: seq<ObjectClass>, cutoff: int, dryRun: bool,
    referenced: set<string>, down: set<string>, stuck: set<(string, string)>)

  datatype Verdict =
    | UnrecognizedPattern | TenantMismatch | BucketPatternMismatch | DuplicateListing
    | MissingLastModified | TooNew | MetadataReferenced | LookupFailed | Candidate

  /** What a page reports: of every object inspected, its verdict. */
  datatype Report = Report(
    scanned: nat, candidates: nat, candidateIds: seq<(Class, string)>, skipped: multiset<Verdict>, deleted: nat,
      errors: nat)

  // ---------------------------------------------------------------------------------------
  // Listings in key order.

  predicate Ordered(objects: seq<Object>) {
    forall i, j :: 0 <= i < j < |objects| ==> Before(objects[i].key, objects[j].key)
  }

  /** The stream of a listing: the bucket's objects under the prefix and after the cursor. */
  function Matching(objects: seq<Object>, prefix: string, after: string): seq<Object> {
    if objects == [] then [] else
      (if prefix <= objects[0].key && Before(after, objects[0].key) then [objects[0]] else [])
      + Matching(objects[1..], prefix, after)
  }

  lemma {:induction false} MatchingObjects(objects: seq<Object>, prefix: string, after: string)
    requires Ordered(objects)
    ensures var found := Matching(objects, prefix, after);
      && Ordered(found) && |found| <= |objects|
      && forall i :: 0 <= i < |found| ==> found[i] in objects && prefix <= found[i].key && Before(after, found[i].key)
  {
    if objects != [] {
      MatchingObjects(objects[1..], prefix, after);
      var found, rest := Matching(objects, prefix, after), Matching(objects[1..], prefix, after);
      if prefix <= objects[0].key && Before(after, objects[0].key) {
        forall i | 0 < i < |found| ensures Before(found[0].key, found[i].key) {
          var j :| 0 <= j < |objects[1..]| && objects[1..][j] == rest[i - 1];
          assert objects[j + 1] == found[i];
        }
      }
    }
  }

  lemma {:induction false} NothingMatches(objects: seq<Object>, prefix: string, after: string)
    requires forall i :: 0 <= i < |objects| ==> !Before(after, objects[i].key)
    ensures Matching(objects, prefix, after) == []
  {
    if objects != [] {
      NothingMatches(objects[1..], prefix, after);
    }
  }

  lemma {:induction false} SameMatches(objects: seq<Object>, prefix: string, after: string, later: string)
    requires forall i :: 0 <= i < |objects| ==> Before(after, objects[i].key) && Before(later, objects[i].key)
    ensures Matching(objects, prefix, later) == Matching(objects, prefix, after)
  {
    if objects != [] {
      SameMatches(objects[1..], prefix, after, later);
    }
  }

  /** Resuming after an object that was listed yields what followed it in the listing. */
  lemma {:induction false} MatchingResumes(objects: seq<Object>, prefix: string, after: string, k: nat)
    requires Ordered(objects) && k < |Matching(objects, prefix, after)|
    ensures Matching(objects, prefix, Matching(objects, prefix, after)[k].key)
      == Matching(objects, prefix, after)[k + 1..]
  {
    var found := Matching(objects, prefix, after);
    var rest := Matching(objects[1..], prefix, after);
    var later := found[k].key;
    MatchingObjects(objects, prefix, after);
    var taken := prefix <= objects[0].key && Before(after, objects[0].key);
    if taken && k == 0 {
      BeforeIsIrreflexive(later);
      forall i | 0 <= i < |objects[1..]|
        ensures Before(after, objects[1..][i].key) && Before(later, objects[1..][i].key) {
        assert Before(objects[0].key, objects[i + 1].key);
        BeforeIsTransitive(after, later, objects[i + 1].key);
      }
      SameMatches(objects[1..], prefix, after, later);
      assert found[1..] == rest;
    } else {
      var j := if taken then k - 1 else k;
      assert found[k] == rest[j] && found[k + 1..] == rest[j + 1..];
      MatchingResumes(objects[1..], prefix, after, j);
      MatchingObjects(objects[1..], prefix, after);
      var i :| 0 <= i < |objects[1..]| && objects[1..][i] == rest[j];
      assert Before(objects[0].key, objects[i + 1].key);
      if Before(later, objects[0].key) {
        BeforeIsTransitive(later, objects[0].key, later);
        BeforeIsIrreflexive(later);
      }
    }
  }

  // ---------------------------------------------------------------------------------------
  // The full scan.

  predicate Distinct(classes: seq<ObjectClass>) {
    forall i, j :: 0 <= i < j < |classes| ==> classes[i].bucket != classes[j].bucket
  }

  predicate ValidStore(scan: Scan, store: Store) {
    && Distinct(scan.classes)
    && (forall i :: 0 <= i < |scan.classes| ==> scan.classes[i].bucket in store)
    && (forall b :: b in store ==> Ordered(store[b]))
  }

  function Prefix(scan: Scan): string {
    "tenants/" + scan.tenant + "/"
  }

  function ListingOf(scan: Scan, store: Store, index: nat, after: string): seq<Object>
    requires index < |scan.classes| && scan.classes[index].bucket in store
  {
    Matching(store[scan.classes[index].bucket], Prefix(scan), after)
  }

  function Entries(index: nat, home: ObjectClass, objects: seq<Object>): seq<Entry> {
    seq(|objects|, i requires 0 <= i < |objects| => Entry(index, home, objects[i]))
  }

  /** Everything from the cursor on: the rest of its class, then the later classes. */
  function From(scan: Scan, store: Store, cursor: Cursor): seq<Entry>
    requires ValidStore(scan, store)
    decreases |scan.classes| - cursor.index
  {
    if cursor.index >= |scan.classes| then []
    else
      Entries(cursor.index, scan.classes[cursor.index], ListingOf(scan, store, cursor.index, cursor.key))
      + From(scan, store, Cursor(cursor.index + 1, ""))
  }

  predicate Precedes(e: Entry, f: Entry) {
    (e.index == f.index && Before(e.item.key, f.item.key)) || e.index < f.index
  }

  predicate Proper(scan: Scan, e: Entry) {
    e.index < |scan.classes| && e.home == scan.classes[e.index]
  }

  predicate InOrder(scan: Scan, all: seq<Entry>, index: nat) {
    && (forall p, q :: 0 <= p < q < |all| ==> Precedes(all[p], all[q]))
    && (forall p :: 0 <= p < |all| ==> Proper(scan, all[p]) && index <= all[p].index)
  }

  lemma InOrderAppends(scan: Scan, first: seq<Entry>, rest: seq<Entry>, index: nat)
    requires InOrder(scan, first, index) && InOrder(scan, rest, index + 1)
    requires forall p :: 0 <= p < |first| ==> first[p].index == index
    ensures InOrder(scan, first + rest, index)
  {
    var all := first + rest;
    forall p, q | 0 <= p < q < |all| ensures Precedes(all[p], all[q]) {
      if p >= |first| {
        assert Precedes(rest[p - |first|], rest[q - |first|]);
      }
    }
  }

  /** The scan meets objects in order, so none twice, and none before its cursor. */
  lemma {:induction false} FromIsOrdered(scan: Scan, store: Store, cursor: Cursor)
    requires ValidStore(scan, store)
    ensures InOrder(scan, From(scan, store, cursor), cursor.index)
    decreases |scan.classes| - cursor.index
  {
    if cursor.index < |scan.classes| {
      var listing := ListingOf(scan, store, cursor.index, cursor.key);
      MatchingObjects(store[scan.classes[cursor.index].bucket], Prefix(scan), cursor.key);
      FromIsOrdered(scan, store, Cursor(cursor.index + 1, ""));
      InOrderAppends(scan, Entries(cursor.index, scan.classes[cursor.index], listing),
                     From(scan, store, Cursor(cursor.index + 1, "")), cursor.index);
    }
  }

  function At(e: Entry): Cursor {
    Cursor(e.index, e.item.key)
  }

  /** What is left of the scan right behind its p-th object, seen from the cursor there. */
  predicate Resumes(scan: Scan, store: Store, all: seq<Entry>, p: nat)
    requires ValidStore(scan, store) && p < |all|
  {
    && From(scan, store, At(all[p])) == all[p + 1..]
    && (p + 1 == |all| || all[p + 1].index != all[p].index ==>
      From(scan, store, Cursor(all[p].index + 1, "")) == all[p + 1..])
  }

  lemma {:induction false} ListingResumes(scan: Scan, store: Store, cursor: Cursor, p: nat)
    requires ValidStore(scan, store) && cursor.index < |scan.classes|
    requires p < |ListingOf(scan, store, cursor.index, cursor.key)|
    ensures p < |From(scan, store, cursor)| && Resumes(scan, store, From(scan, store, cursor), p)
  {
    var listing := ListingOf(scan, store, cursor.index, cursor.key);
    var home := scan.classes[cursor.index];
    var rest := From(scan, store, Cursor(cursor.index + 1, ""));
    MatchingResumes(store[home.bucket], Prefix(scan), cursor.key, p);
    EntriesSplit(cursor.index, home, listing, rest, p);
    assert From(scan, store, Cursor(cursor.index, listing[p].key))
      == Entries(cursor.index, home, listing[p + 1..]) + rest;
  }

  lemma EntriesSplit(index: nat, home: ObjectClass, objects: seq<Object>, rest: seq<Entry>, p: nat)
    requires p < |objects|
    ensures var all := Entries(index, home, objects) + rest;
      && all[p] == Entry(index, home, objects[p])
      && all[p + 1..] == Entries(index, home, objects[p + 1..]) + rest
      && (p + 1 == |all| || all[p + 1].index != index ==> all[p + 1..] == rest)
  {
    assert Entries(index, home, objects[p + 1..]) == Entries(index, home, objects)[p + 1..];
  }

  /** A cursor at an inspected object resumes right behind it. */
  lemma {:induction false} FromResumes(scan: Scan, store: Store, cursor: Cursor, p: nat)
    requires ValidStore(scan, store) && p < |From(scan, store, cursor)|
    ensures Resumes(scan, store, From(scan, store, cursor), p)
    decreases |scan.classes| - cursor.index
  {
    var listing := ListingOf(scan, store, cursor.index, cursor.key);
    if p < |listing| {
      ListingResumes(scan, store, cursor, p);
    } else {
      var next := Cursor(cursor.index + 1, "");
      var first := Entries(cursor.index, scan.classes[cursor.index], listing);
      FromResumes(scan, store, next, p - |first|);
      ResumesLater(scan, store, From(scan, store, cursor), first, From(scan, store, next), p - |first|);
    }
  }

  lemma ResumesLater(scan: Scan, store: Store, all: seq<Entry>, first: seq<Entry>, rest: seq<Entry>, p: nat)
    requires ValidStore(scan, store) && p < |rest| && Resumes(scan, store, rest, p) && all == first + rest
    ensures Resumes(scan, store, all, |first| + p)
  {
    assert all[|first| + p + 1..] == rest[p + 1..];
    assert all[|first| + p] == rest[p];
  }

  // ---------------------------------------------------------------------------------------
  // Inspecting and removing.

  function Judge(scan: Scan, e: Entry): Verdict {
    JudgeParsed(scan, e, ParseBackendObjectKey(e.item.key))
  }

  function JudgeParsed(scan: Scan, e: Entry, parsed: Option<BackendKey>): Verdict {
    if parsed == None then UnrecognizedPattern
    else if parsed.value.tenant != scan.tenant then TenantMismatch
    else if !ClassMatches(e.home.name, parsed.value.kind) then BucketPatternMismatch
    else JudgeRecognized(scan, e)
  }

  function JudgeRecognized(scan: Scan, e: Entry): Verdict {
    if e.item.lastModified == None then MissingLastModified
    else if e.item.lastModified.value >= scan.cutoff then TooNew
    else if e.item.key in scan.down then LookupFailed
    else if Text.TrimSpace(e.item.key) in scan.referenced then MetadataReferenced
    else Candidate
  }

  function Place(e: Entry): (string, string)
  {
    (e.home.bucket, e.item.key)
  }

  const EMPTY_REPORT := Report(0, 0, [], multiset{}, 0, 0)

  /** What one object with that verdict adds to a report. */
  function Count(scan: Scan, e: Entry, verdict: Verdict): Report {
    if verdict != Candidate then Report(1, 0, [], multiset{verdict}, 0, 0)
    else if scan.dryRun then Report(1, 1, [(e.home.name, e.item.key)], multiset{}, 0, 0)
    else if Place(e) in scan.stuck then Report(1, 1, [(e.home.name, e.item.key)], multiset{}, 0, 1)
    else Report(1, 1, [(e.home.name, e.item.key)], multiset{}, 1, 0)
  }

  function Plus(a: Report, b: Report): Report {
    Report(a.scanned + b.scanned, a.candidates + b.candidates, a.candidateIds + b.candidateIds, a.skipped + b.skipped,
           a.deleted + b.deleted, a.errors + b.errors)
  }

  /** The report with one more object skipped. */
  function Skip(report: Report, verdict: Verdict): Report {
    report.(skipped := report.skipped + multiset{verdict})
  }

  function ReportOf(scan: Scan, entries: seq<Entry>): Report {
    if entries == [] then EMPTY_REPORT
    else Plus(ReportOf(scan, entries[..|entries| - 1]),
      Count(scan, entries[|entries| - 1], Judge(scan, entries[|entries| - 1])))
  }

  lemma PlusIsAssociative(a: Report, b: Report, c: Report)
    ensures Plus(Plus(a, b), c) == Plus(a, Plus(b, c))
    ensures Plus(a, EMPTY_REPORT) == a
  {
    assert a.candidateIds + b.candidateIds + c.candidateIds == a.candidateIds + (b.candidateIds + c.candidateIds);
    assert a.candidateIds + [] == a.candidateIds;
  }

  lemma {:induction false} ReportsAdd(scan: Scan, a: seq<Entry>, b: seq<Entry>)
    ensures ReportOf(scan, a + b) == Plus(ReportOf(scan, a), ReportOf(scan, b))
    decreases |b|
  {
    if b == [] {
      assert a + b == a;
      PlusIsAssociative(ReportOf(scan, a), EMPTY_REPORT, EMPTY_REPORT);
    } else {
      var n := |b| - 1;
      assert (a + b)[..|a + b| - 1] == a + b[..n];
      ReportsAdd(scan, a, b[..n]);
      PlusIsAssociative(ReportOf(scan, a), ReportOf(scan, b[..n]), Count(scan, b[n], Judge(scan, b[n])));
    }
  }

  function Without(objects: seq<Object>, key: string): seq<Object> {
    if objects == [] then [] else
      (if objects[0].key == key then [] else [objects[0]]) + Without(objects[1..], key)
  }

  /** The store once the object has got that verdict. */
  function Settle(scan: Scan, store: Store, e: Entry, verdict: Verdict): Store {
    if verdict != Candidate || scan.dryRun || Place(e) in scan.stuck || e.home.bucket !in store then store
    else store[e.home.bucket := Without(store[e.home.bucket], e.item.key)]
  }

  function Remove(scan: Scan, store: Store, e: Entry): Store {
    Settle(scan, store, e, Judge(scan, e))
  }

  lemma {:induction false} WithoutKeepsOrder(objects: seq<Object>, key: string)
    requires Ordered(objects)
    ensures Ordered(Without(objects, key))
    ensures forall i :: 0 <= i < |Without(objects, key)| ==> Without(objects, key)[i] in objects
  {
    if objects != [] {
      WithoutKeepsOrder(objects[1..], key);
      var rest := Without(objects[1..], key);
      forall i | 0 <= i < |rest| ensures Before(objects[0].key, rest[i].key) {
        var j :| 0 <= j < |objects[1..]| && objects[1..][j] == rest[i];
        assert objects[j + 1] == rest[i];
      }
    }
  }

  lemma RemoveKeepsStore(scan: Scan, store: Store, e: Entry)
    requires ValidStore(scan, store)
    ensures ValidStore(scan, Remove(scan, store, e))
  {
    if e.home.bucket in store {
      WithoutKeepsOrder(store[e.home.bucket], e.item.key);
    }
  }

  lemma {:induction false} WithoutKeepsLater(objects: seq<Object>, key: string, prefix: string, after: string)
    requires !Before(after, key)
    ensures Matching(Without(objects, key), prefix, after) == Matching(objects, prefix, after)
  {
    if objects != [] {
      WithoutKeepsLater(objects[1..], key, prefix, after);
      var rest := Without(objects[1..], key);
      if objects[0].key != key {
        assert ([objects[0]] + rest)[1..] == rest;
      } else {
        assert [] + rest == rest;
      }
    }
  }

  predicate Behind(scan: Scan, e: Entry, cursor: Cursor) {
    Proper(scan, e) && ((e.index == cursor.index && !Before(cursor.key, e.item.key)) || e.index < cursor.index)
  }

  /** Removing an object behind the cursor changes nothing of what is ahead. */
  lemma {:induction false} RemoveKeepsRest(scan: Scan, store: Store, e: Entry, cursor: Cursor)
    requires ValidStore(scan, store) && Behind(scan, e, cursor)
    ensures ValidStore(scan, Remove(scan, store, e))
    ensures From(scan, Remove(scan, store, e), cursor) == From(scan, store, cursor)
    decreases |scan.classes| - cursor.index
  {
    RemoveKeepsStore(scan, store, e);
    if cursor.index < |scan.classes| {
      RemoveKeepsRest(scan, store, e, Cursor(cursor.index + 1, ""));
      RemoveKeepsListing(scan, store, e, cursor);
    }
  }

  lemma RemoveKeepsListing(scan: Scan, store: Store, e: Entry, cursor: Cursor)
    requires ValidStore(scan, store) && Behind(scan, e, cursor) && cursor.index < |scan.classes|
    requires ValidStore(scan, Remove(scan, store, e))
    ensures ListingOf(scan, Remove(scan, store, e), cursor.index, cursor.key)
      == ListingOf(scan, store, cursor.index, cursor.key)
  {
    if e.index == cursor.index {
      WithoutKeepsLater(store[e.home.bucket], e.item.key, Prefix(scan), cursor.key);
    }
  }

  /** The store after the entries have been inspected in turn. */
  ghost function Swept(scan: Scan, store: Store, entries: seq<Entry>): (swept: Store)
    requires ValidStore(scan, store)
    ensures ValidStore(scan, swept)
  {
    if entries == [] then store else
      var earlier := Swept(scan, store, entries[..|entries| - 1]);
      RemoveKeepsStore(scan, earlier, entries[|entries| - 1]);
      Remove(scan, earlier, entries[|entries| - 1])
  }

  lemma {:induction false} SweptInTurns(scan: Scan, store: Store, a: seq<Entry>, b: seq<Entry>)
    requires ValidStore(scan, store)
    ensures Swept(scan, store, a + b) == Swept(scan, Swept(scan, store, a), b)
    decreases |b|
  {
    if b == [] {
      assert a + b == a;
    } else {
      var n := |b| - 1;
      assert (a + b)[..|a + b| - 1] == a + b[..n];
      SweptInTurns(scan, store, a, b[..n]);
    }
  }

  lemma {:induction false} SweptKeepsRest(scan: Scan, store: Store, entries: seq<Entry>, cursor: Cursor)
    requires ValidStore(scan, store)
    requires forall i :: 0 <= i < |entries| ==> Behind(scan, entries[i], cursor)
    ensures From(scan, Swept(scan, store, entries), cursor) == From(scan, store, cursor)
    decreases |entries|
  {
    if entries != [] {
      var n := |entries| - 1;
      SweptKeepsRest(scan, store, entries[..n], cursor);
      RemoveKeepsRest(scan, Swept(scan, store, entries[..n]), entries[n], cursor);
    }
  }

  // ---------------------------------------------------------------------------------------
  // Pages.

  function Min(a: nat, b: nat): nat {
    if a < b then a else b
  }

  function Page(all: seq<Entry>, limit: nat): seq<Entry> {
    all[..Min(limit, |all|)]
  }

  /** Where the next page resumes: behind the last object if its class has more, else at the
      next class; nowhere if the page was not filled or nothing can be left. */
  function Next(scan: Scan, all: seq<Entry>, limit: nat): Option<Cursor>
    requires limit >= 1
  {
    if |all| < limit then None else
      var last := all[limit - 1];
      if limit < |all| && all[limit].index == last.index then Some(At(last))
      else if last.index + 1 < |scan.classes| then Some(Cursor(last.index + 1, ""))
      else None
  }

  lemma PrecedingIsBehind(scan: Scan, e: Entry, last: Entry, next: Cursor, same: bool)
    requires Proper(scan, e)
    requires if same then e == last else Precedes(e, last)
    requires next == At(last) || next == Cursor(last.index + 1, "")
    ensures Behind(scan, e, next)
  {
    if next == At(last) && e.index == last.index && Before(last.item.key, e.item.key) {
      if !same {
        BeforeIsTransitive(e.item.key, last.item.key, e.item.key);
      }
      BeforeIsIrreflexive(e.item.key);
    }
  }

  /** Seen from the next page's cursor, the store of this page's start shows just the rest. */
  predicate NextShowsRest(scan: Scan, store: Store, all: seq<Entry>, limit: nat)
    requires ValidStore(scan, store) && limit >= 1
  {
    match Next(scan, all, limit)
    case None => |all| <= limit
    case Some(next) => limit <= |all| && next.index < |scan.classes| && From(scan, store, next) == all[limit..]
  }

  lemma FilledPageShowsRest(scan: Scan, store: Store, all: seq<Entry>, limit: nat)
    requires ValidStore(scan, store) && 1 <= limit <= |all| && InOrder(scan, all, 0)
      && Resumes(scan, store, all, limit - 1)
    ensures NextShowsRest(scan, store, all, limit)
  {
    if limit < |all| {
      assert Precedes(all[limit - 1], all[limit]);
    }
  }

  lemma {:induction false} NextCursorPointsAtRest(scan: Scan, store: Store, cursor: Cursor, limit: nat)
    requires ValidStore(scan, store) && limit >= 1
    ensures NextShowsRest(scan, store, From(scan, store, cursor), limit)
  {
    if |From(scan, store, cursor)| >= limit {
      FromResumes(scan, store, cursor, limit - 1);
      FromIsOrdered(scan, store, cursor);
      FilledPageShowsRest(scan, store, From(scan, store, cursor), limit);
    }
  }

  lemma {:induction false} PageIsBehindNext(scan: Scan, store: Store, cursor: Cursor, limit: nat)
    requires ValidStore(scan, store) && limit >= 1 && Next(scan, From(scan, store, cursor), limit).Some?
    ensures var all := From(scan, store, cursor);
      forall i :: 0 <= i < limit ==> Behind(scan, all[i], Next(scan, all, limit).value)
  {
    var all := From(scan, store, cursor);
    FromIsOrdered(scan, store, cursor);
    forall i | 0 <= i < limit ensures Behind(scan, all[i], Next(scan, all, limit).value) {
      PrecedingIsBehind(scan, all[i], all[limit - 1], Next(scan, all, limit).value, i == limit - 1);
    }
  }

  /** The next page starts with the first object this page did not inspect, whatever this page
      removed; without a next page nothing is left. */
  lemma {:induction false} NextPageContinues(scan: Scan, store: Store, cursor: Cursor, limit: nat)
    requires ValidStore(scan, store) && limit >= 1
    ensures var all := From(scan, store, cursor);
      match Next(scan, all, limit)
      case None => Page(all, limit) == all
      case Some(next) =>
        && |Page(all, limit)| == limit && next.index < |scan.classes|
        && From(scan, Swept(scan, store, Page(all, limit)), next) == all[limit..]
  {
    var all := From(scan, store, cursor);
    NextCursorPointsAtRest(scan, store, cursor, limit);
    if Next(scan, all, limit).Some? {
      PageIsBehindNext(scan, store, cursor, limit);
      SweptKeepsRest(scan, store, Page(all, limit), Next(scan, all, limit).value);
    }
  }

  /** All pages from a cursor on, each resumed where the last one said. */
  ghost function Follow(scan: Scan, store: Store, cursor: Cursor, limit: nat): seq<seq<Entry>>
    requires ValidStore(scan, store) && limit >= 1
    decreases |From(scan, store, cursor)|
  {
    NextPageContinues(scan, store, cursor, limit);
    var all := From(scan, store, cursor);
    match Next(scan, all, limit)
    case None => [Page(all, limit)]
    case Some(next) => [Page(all, limit)] + Follow(scan, Swept(scan, store, Page(all, limit)), next, limit)
  }

  function Concat(pages: seq<seq<Entry>>): seq<Entry> {
    if pages == [] then [] else pages[0] + Concat(pages[1..])
  }

  function Total(scan: Scan, pages: seq<seq<Entry>>): Report
  {
    if pages == [] then EMPTY_REPORT else Plus(ReportOf(scan, pages[0]), Total(scan, pages[1..]))
  }

  /** No page exceeds the limit, and only the last may fall short of it. */
  predicate Filled(pages: seq<seq<Entry>>, limit: nat) {
    && (forall i :: 0 <= i < |pages| ==> |pages[i]| <= limit)
    && (forall i :: 0 <= i < |pages| - 1 ==> |pages[i]| == limit)
  }

  lemma {:induction false} PrependPage(page: seq<Entry>, later: seq<seq<Entry>>, limit: nat)
    requires |page| == limit && Filled(later, limit)
    ensures Concat([page] + later) == page + Concat(later) && Filled([page] + later, limit)
  {
    assert ([page] + later)[1..] == later;
  }

  lemma PageAndRest(all: seq<Entry>, limit: nat)
    requires limit <= |all|
    ensures Page(all, limit) + all[limit..] == all
  {
  }

  /** Paging is the full scan: the pages are what one pass over everything meets, in order. */
  lemma {:induction false} PagesAreTheFullScan(scan: Scan, store: Store, cursor: Cursor, limit: nat)
    requires ValidStore(scan, store) && limit >= 1
    ensures Concat(Follow(scan, store, cursor, limit)) == From(scan, store, cursor)
    ensures Filled(Follow(scan, store, cursor, limit), limit)
    decreases |From(scan, store, cursor)|
  {
    NextPageContinues(scan, store, cursor, limit);
    var all := From(scan, store, cursor);
    var page := Page(all, limit);
    match Next(scan, all, limit) {
      case None =>
      case Some(next) =>
        PagesAreTheFullScan(scan, Swept(scan, store, page), next, limit);
        PrependPage(page, Follow(scan, Swept(scan, store, page), next, limit), limit);
        PageAndRest(all, limit);
    }
  }

  lemma {:induction false} TotalIsReportOfAll(scan: Scan, pages: seq<seq<Entry>>)
    ensures Total(scan, pages) == ReportOf(scan, Concat(pages))
  {
    if pages != [] {
      var first, rest := pages[0], Concat(pages[1..]);
      TotalIsReportOfAll(scan, pages[1..]);
      ReportsAdd(scan, first, rest);
    }
  }

  /** So the totals over all pages, candidates and removals included, are the same for every
      two page limits, dry run or not. */
  lemma {:induction false} TotalsDoNotDependOnTheLimit(scan: Scan, store: Store, limit: nat, other: nat)
    requires ValidStore(scan, store) && limit >= 1 && other >= 1
    ensures var pages, others := Follow(scan, store, Cursor(0, ""), limit), Follow(scan, store, Cursor(0, ""), other);
      Total(scan, pages) == Total(scan, others) == ReportOf(scan, From(scan, store, Cursor(0, "")))
  {
    var start := Cursor(0, "");
    PagesAreTheFullScan(scan, store, start, limit);
    PagesAreTheFullScan(scan, store, start, other);
    TotalIsReportOfAll(scan, Follow(scan, store, start, limit));
    TotalIsReportOfAll(scan, Follow(scan, store, start, other));
  }
}
