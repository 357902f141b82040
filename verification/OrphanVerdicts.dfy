/** What the collector's verdicts mean, in terms of the key's text, the object's age and what the
    metadata lookup knows; and that this is the decision CollectorSafety reasons about. */
module OrphanVerdicts {
  import CollectorSafety
  import opened ObjectKeys
  import opened OrphanPaging
  import opened Text
  import opened Wrappers

  /** The files that objects of a class are stored as. */
  function Files(name: Class): set<string> {
    if name == Thumbnails then {"thumbnail.jpg"} else {"original.jpg", "original.png", "original.webp"}
  }

  /** Around spaces, the key of an object of the tenant and the class. */
  ghost predicate KeyFor(tenant: string, name: Class, key: string) {
    exists project, asset, file ::
      && Segment(tenant) && Segment(project) && Segment(asset) && file in Files(name)
      && TrimSpace(key) == "tenants/" + tenant + "/projects/" + project + "/assets/" + asset + "/" + file
  }

  /** The same for any class. */
  ghost predicate KeyOfTenant(tenant: string, key: string) {
    exists name :: KeyFor(tenant, name, key)
  }

  lemma KeyForParses(tenant: string, name: Class, key: string)
    requires KeyFor(tenant, name, key)
    ensures var k := ParseBackendObjectKey(key);
      k.Some? && k.value.tenant == tenant && (k.value.kind == Thumbnail <==> name == Thumbnails)
  {
    var project, asset, file :|
      && Segment(tenant) && Segment(project) && Segment(asset) && file in Files(name)
      && TrimSpace(key) == "tenants/" + tenant + "/projects/" + project + "/assets/" + asset + "/" + file;
    assert TrimSpace(key) == KeyOf(tenant, project, asset, file);
    SplitKey(tenant, project, asset, file);
  }

  lemma BuiltIsKeyFor(tenant: string, project: string, asset: string, file: string, name: Class, key: string)
    requires Segment(tenant) && Segment(project) && Segment(asset) && file in Files(name)
    requires TrimSpace(key) == KeyOf(tenant, project, asset, file)
    ensures KeyFor(tenant, name, key)
  {
  }

  lemma ParsedIsKeyFor(key: string, name: Class)
    requires ParseBackendObjectKey(key).Some?
    requires ParseBackendObjectKey(key).value.kind == Thumbnail <==> name == Thumbnails
    ensures KeyFor(ParseBackendObjectKey(key).value.tenant, name, key)
  {
    var k := ParseBackendObjectKey(key).value;
    ParsedKeyIsBuilt(key);
    if k.kind == Thumbnail {
      BuiltIsKeyFor(k.tenant, k.project, k.asset, "thumbnail.jpg", name, key);
    } else {
      var ext :| ext in EXTENSIONS && TrimSpace(key) == ObjectKey(k.tenant, k.project, k.asset, ext);
      OriginalFile(ext);
      BuiltIsKeyFor(k.tenant, k.project, k.asset, "original." + ext, name, key);
    }
  }

  lemma OriginalFile(ext: string)
    requires ext in EXTENSIONS
    ensures "original." + ext in {"original.jpg", "original.png", "original.webp"}
  {
    assert "original." + "jpg" == "original.jpg";
    assert "original." + "png" == "original.png";
    assert "original." + "webp" == "original.webp";
  }

  // ---------------------------------------------------------------------------------------
  // Verdicts.

  ghost predicate OwnKey(scan: Scan, e: Entry) {
    KeyFor(scan.tenant, e.home.name, e.item.key)
  }

  predicate Old(scan: Scan, e: Entry) {
    e.item.lastModified.Some? && e.item.lastModified.value < scan.cutoff
  }

  /** An object of the tenant, in its class's bucket, last modified before the cut-off, that the
      lookup answers for and knows nothing of. */
  ghost predicate IsOrphan(scan: Scan, e: Entry) {
    OwnKey(scan, e) && Old(scan, e) && e.item.key !in scan.down && TrimSpace(e.item.key) !in scan.referenced
  }

  /** When which verdict is given. */
  ghost predicate Deserves(scan: Scan, e: Entry, verdict: Verdict) {
    var key := e.item.key;
    match verdict
    case UnrecognizedPattern => forall tenant :: !KeyOfTenant(tenant, key)
    case TenantMismatch => exists tenant :: tenant != scan.tenant && KeyOfTenant(tenant, key)
    case BucketPatternMismatch => !OwnKey(scan, e) && KeyOfTenant(scan.tenant, key)
    case DuplicateListing => false
    case MissingLastModified => OwnKey(scan, e) && e.item.lastModified == None
    case TooNew => OwnKey(scan, e) && e.item.lastModified.Some? && e.item.lastModified.value >= scan.cutoff
    case LookupFailed => OwnKey(scan, e) && Old(scan, e) && key in scan.down
    case MetadataReferenced =>
      OwnKey(scan, e) && Old(scan, e) && key !in scan.down && TrimSpace(key) in scan.referenced
    case Candidate => IsOrphan(scan, e)
  }

  lemma OwnKeyParses(scan: Scan, e: Entry)
    ensures var k := ParseBackendObjectKey(e.item.key);
      OwnKey(scan, e) <==> k.Some? && k.value.tenant == scan.tenant && ClassMatches(e.home.name, k.value.kind)
  {
    if OwnKey(scan, e) {
      KeyForParses(scan.tenant, e.home.name, e.item.key);
    }
    var k := ParseBackendObjectKey(e.item.key);
    if k.Some? && k.value.tenant == scan.tenant && ClassMatches(e.home.name, k.value.kind) {
      ParsedIsKeyFor(e.item.key, e.home.name);
    }
  }

  lemma TenantKeyParses(tenant: string, key: string)
    ensures KeyOfTenant(tenant, key)
      <==> ParseBackendObjectKey(key).Some? && ParseBackendObjectKey(key).value.tenant == tenant
  {
    if name :| KeyFor(tenant, name, key) {
      KeyForParses(tenant, name, key);
    }
    var k := ParseBackendObjectKey(key);
    if k.Some? && k.value.tenant == tenant {
      var name := if k.value.kind == Thumbnail then Thumbnails else Originals;
      ParsedIsKeyFor(key, name);
      assert KeyFor(tenant, name, key);
    }
  }

  /** The verdicts on the key alone. */
  lemma KeyVerdictIsDeserved(scan: Scan, e: Entry)
    ensures var k := ParseBackendObjectKey(e.item.key);
      && (Deserves(scan, e, UnrecognizedPattern) <==> k == None)
      && (Deserves(scan, e, TenantMismatch) <==> k.Some? && k.value.tenant != scan.tenant)
      && (Deserves(scan, e, BucketPatternMismatch)
          <==> k.Some? && k.value.tenant == scan.tenant && !ClassMatches(e.home.name, k.value.kind))
  {
    var key, k := e.item.key, ParseBackendObjectKey(e.item.key);
    OwnKeyParses(scan, e);
    TenantKeyParses(scan.tenant, key);
    forall tenant ensures KeyOfTenant(tenant, key) <==> k.Some? && k.value.tenant == tenant {
      TenantKeyParses(tenant, key);
    }
    assert k.Some? ==> KeyOfTenant(k.value.tenant, key);
  }

  /** Every object gets the one verdict it deserves. */
  lemma VerdictIsDeserved(scan: Scan, e: Entry, verdict: Verdict)
    ensures Judge(scan, e) == verdict <==> Deserves(scan, e, verdict)
  {
    OwnKeyParses(scan, e);
    KeyVerdictIsDeserved(scan, e);
  }

  /** CollectorSafety's decision to remove a listed object is this one: the safety theorem is about it. */
  lemma OrphanIsTheVerdict(w: CollectorSafety.World, listing: CollectorSafety.Listing, scan: Scan, e: Entry)
    requires listing.scan < |w.scans|
    requires scan.tenant == w.scans[listing.scan].tenant && scan.cutoff == w.scans[listing.scan].cutoff
    requires e.home.name == listing.ref.bucket && e.item == Object(listing.ref.key, Some(listing.lastModified))
    requires e.item.key !in scan.down
    requires TrimSpace(e.item.key) in scan.referenced <==> CollectorSafety.Referenced(w, scan.tenant, e.item.key)
    ensures CollectorSafety.Orphan(w, listing) <==> IsOrphan(scan, e)
    ensures CollectorSafety.Orphan(w, listing) <==> Judge(scan, e) == Candidate
  {
    OwnKeyParses(scan, e);
    VerdictIsDeserved(scan, e, Candidate);
  }

  // ---------------------------------------------------------------------------------------
  // What a verdict does.

  /** The scan removes the object: an orphan, no dry run, and the removal does not fail. */
  ghost predicate Removes(scan: Scan, e: Entry) {
    IsOrphan(scan, e) && !scan.dryRun && Place(e) !in scan.stuck
  }

  /** The store has lost the object in that place if it is to be removed, and nothing else. */
  ghost predicate Loses(before: Store, after: Store, place: (string, string), removed: bool) {
    && after.Keys == before.Keys
    && forall bucket, o :: bucket in before ==>
      (o in after[bucket] <==> o in before[bucket] && !(removed && place == (bucket, o.key)))
  }

  /** An orphan is counted and named, and once more as deleted or as an error unless it is a dry run;
      anything else is counted under its reason. */
  ghost predicate Reported(scan: Scan, e: Entry, verdict: Verdict, report: Report, report': Report) {
    if verdict != Candidate then report' == report.(skipped := report.skipped + multiset{verdict})
    else
      && report'.candidates == report.candidates + 1
      && report'.candidateIds == report.candidateIds + [(e.home.name, e.item.key)]
      && report'.deleted == report.deleted + (if !scan.dryRun && Place(e) !in scan.stuck then 1 else 0)
      && report'.errors == report.errors + (if !scan.dryRun && Place(e) in scan.stuck then 1 else 0)
      && report'.scanned == report.scanned && report'.skipped == report.skipped
  }

  lemma {:induction false} WithoutContains(objects: seq<Object>, key: string, o: Object)
    ensures o in Without(objects, key) <==> o in objects && o.key != key
  {
    if objects != [] {
      WithoutContains(objects[1..], key, o);
    }
  }

  lemma SettleLoses(scan: Scan, store: Store, e: Entry, verdict: Verdict)
    ensures Loses(store, Settle(scan, store, e, verdict), Place(e),
      verdict == Candidate && !scan.dryRun && Place(e) !in scan.stuck)
  {
    var after, removed := Settle(scan, store, e, verdict), verdict == Candidate && !scan.dryRun
      && Place(e) !in scan.stuck;
    assert after.Keys == store.Keys;
    forall bucket, o | bucket in store
      ensures o in after[bucket] <==> o in store[bucket] && !(removed && Place(e) == (bucket, o.key))
    {
      if removed && bucket == e.home.bucket {
        WithoutContains(store[bucket], e.item.key, o);
      }
    }
    assert Loses(store, after, Place(e), removed);
  }

  /** One object dealt with: an orphan not seen before is reported and removed; an object seen before is
      a duplicate once its key is right; a failing lookup ends the page; anything else is skipped. */
  ghost predicate ObjectInspected(scan: Scan, e: Entry, before: Store, seen: set<(string, string)>, report: Report,
      ok: bool, after: Store, seen': set<(string, string)>, report': Report)
  {
    var duplicate := OwnKey(scan, e) && Place(e) in seen;
    && (ok <==> duplicate || !Deserves(scan, e, LookupFailed))
    && seen' == (if OwnKey(scan, e) then seen + {Place(e)} else seen)
    && Loses(before, after, Place(e), !duplicate && Removes(scan, e))
    && (if !ok then report' == report
        else if duplicate then Reported(scan, e, DuplicateListing, report, report')
        else exists verdict :: Deserves(scan, e, verdict) && Reported(scan, e, verdict, report, report'))
  }

  // ---------------------------------------------------------------------------------------
  // What a page of verdicts does.

  /** How many of the objects deserve the verdict. */
  ghost function Number(scan: Scan, entries: seq<Entry>, verdict: Verdict): nat {
    if entries == [] then 0
    else
      var n := |entries| - 1;
      Number(scan, entries[..n], verdict) + if Deserves(scan, entries[n], verdict) then 1 else 0
  }

  /** How many orphans are in places that the scan cannot remove from. */
  ghost function Stuck(scan: Scan, entries: seq<Entry>): nat {
    if entries == [] then 0
    else
      var n := |entries| - 1;
      Stuck(scan, entries[..n]) + if IsOrphan(scan, entries[n]) && Place(entries[n]) in scan.stuck then 1 else 0
  }

  ghost function OrphanIds(scan: Scan, entries: seq<Entry>): seq<(Class, string)> {
    if entries == [] then []
    else
      var n := |entries| - 1;
      OrphanIds(scan, entries[..n])
      + if IsOrphan(scan, entries[n]) then [(entries[n].home.name, entries[n].item.key)] else []
  }

  /** The report counts every object once: orphans as candidates, by name, and unless it is a dry run as
      deleted or as an error; all others under the reason they deserve. */
  ghost predicate Counted(scan: Scan, entries: seq<Entry>, report: Report) {
    && report.scanned == |entries|
    && report.candidates == Number(scan, entries, Candidate)
    && report.candidateIds == OrphanIds(scan, entries)
    && report.errors == (if scan.dryRun then 0 else Stuck(scan, entries))
    && report.deleted == (if scan.dryRun then 0 else report.candidates - Stuck(scan, entries))
    && (forall verdict :: report.skipped[verdict] == if verdict == Candidate then 0 else Number(scan, entries, verdict))
  }

  lemma {:induction false} ReportCounts(scan: Scan, entries: seq<Entry>)
    ensures Counted(scan, entries, ReportOf(scan, entries))
  {
    if entries != [] {
      var n := |entries| - 1;
      ReportCounts(scan, entries[..n]);
      CountAdds(scan, entries, ReportOf(scan, entries[..n]), Judge(scan, entries[n]));
    }
  }

  lemma CountSkips(scan: Scan, e: Entry, earlier: Report, verdict: Verdict, v: Verdict)
    ensures Plus(earlier, Count(scan, e, verdict)).skipped[v]
      == earlier.skipped[v] + if v == verdict && verdict != Candidate then 1 else 0
  {
  }

  lemma {:induction false} SkipsAdd(scan: Scan, entries: seq<Entry>, earlier: Report, verdict: Verdict, v: Verdict)
    requires entries != [] && verdict == Judge(scan, entries[|entries| - 1])
    requires earlier.skipped[v] == if v == Candidate then 0 else Number(scan, entries[..|entries| - 1], v)
    ensures Plus(earlier, Count(scan, entries[|entries| - 1], verdict)).skipped[v]
      == if v == Candidate then 0 else Number(scan, entries, v)
  {
    VerdictIsDeserved(scan, entries[|entries| - 1], v);
    CountSkips(scan, entries[|entries| - 1], earlier, verdict, v);
  }

  lemma CountAdds(scan: Scan, entries: seq<Entry>, earlier: Report, verdict: Verdict)
    requires entries != [] && verdict == Judge(scan, entries[|entries| - 1])
    requires Counted(scan, entries[..|entries| - 1], earlier)
    ensures Counted(scan, entries, Plus(earlier, Count(scan, entries[|entries| - 1], verdict)))
  {
    var report := Plus(earlier, Count(scan, entries[|entries| - 1], verdict));
    forall v ensures report.skipped[v] == if v == Candidate then 0 else Number(scan, entries, v) {
      SkipsAdd(scan, entries, earlier, verdict, v);
    }
    CountNames(scan, entries, earlier, verdict);
    CandidatesAdd(scan, entries, earlier, verdict, report);
    FailuresAdd(scan, entries, earlier, verdict, report);
  }

  /** The numbers of a report with one more object counted, from its verdict alone. */
  lemma CountedOnce(scan: Scan, e: Entry, earlier: Report, verdict: Verdict, report: Report, orphan: bool)
    requires report == Plus(earlier, Count(scan, e, verdict)) && (orphan <==> verdict == Candidate)
    ensures report.scanned == earlier.scanned + 1
    ensures report.candidates == earlier.candidates + if orphan then 1 else 0
    ensures report.errors
      == earlier.errors + if !scan.dryRun && orphan && Place(e) in scan.stuck then 1 else 0
    ensures report.deleted
      == earlier.deleted + if !scan.dryRun && orphan && Place(e) !in scan.stuck then 1 else 0
  {
  }

  lemma {:induction false} CandidatesAdd(scan: Scan, entries: seq<Entry>, earlier: Report, verdict: Verdict,
      report: Report)
    requires entries != [] && verdict == Judge(scan, entries[|entries| - 1])
    requires report == Plus(earlier, Count(scan, entries[|entries| - 1], verdict))
    requires earlier.candidates == Number(scan, entries[..|entries| - 1], Candidate)
    ensures report.candidates == Number(scan, entries, Candidate)
  {
    var e := entries[|entries| - 1];
    CountedOnce(scan, e, earlier, verdict, report, verdict == Candidate);
    VerdictIsDeserved(scan, e, Candidate);
  }

  lemma {:induction false} StuckLast(scan: Scan, entries: seq<Entry>)
    requires entries != []
    ensures var e := entries[|entries| - 1];
      Stuck(scan, entries) == Stuck(scan, entries[..|entries| - 1])
        + if Judge(scan, e) == Candidate && Place(e) in scan.stuck then 1 else 0
  {
    VerdictIsDeserved(scan, entries[|entries| - 1], Candidate);
  }

  lemma {:induction false} FailuresAdd(scan: Scan, entries: seq<Entry>, earlier: Report, verdict: Verdict,
      report: Report)
    requires entries != [] && verdict == Judge(scan, entries[|entries| - 1])
    requires report == Plus(earlier, Count(scan, entries[|entries| - 1], verdict))
    requires earlier.errors == if scan.dryRun then 0 else Stuck(scan, entries[..|entries| - 1])
    requires earlier.deleted == if scan.dryRun then 0 else earlier.candidates - Stuck(scan, entries[..|entries| - 1])
    ensures report.errors == if scan.dryRun then 0 else Stuck(scan, entries)
    ensures report.deleted == if scan.dryRun then 0 else report.candidates - Stuck(scan, entries)
  {
    CountedOnce(scan, entries[|entries| - 1], earlier, verdict, report, verdict == Candidate);
    StuckLast(scan, entries);
  }

  lemma {:induction false} CountNames(scan: Scan, entries: seq<Entry>, earlier: Report, verdict: Verdict)
    requires entries != [] && verdict == Judge(scan, entries[|entries| - 1])
    requires earlier.candidateIds == OrphanIds(scan, entries[..|entries| - 1])
    ensures Plus(earlier, Count(scan, entries[|entries| - 1], verdict)).candidateIds == OrphanIds(scan, entries)
  {
    VerdictIsDeserved(scan, entries[|entries| - 1], Candidate);
    assert earlier.candidateIds + [] == earlier.candidateIds;
  }

  // ---------------------------------------------------------------------------------------
  // What sweeping leaves.

  /** The objects that the scan removes from that place. */
  ghost function Hits(scan: Scan, place: (string, string)): Entry -> bool {
    e => Removes(scan, e) && Place(e) == place
  }

  ghost predicate SomeHit(hit: Entry -> bool, entries: seq<Entry>) {
    exists k :: 0 <= k < |entries| && hit(entries[k])
  }

  lemma SomeHitLast(hit: Entry -> bool, entries: seq<Entry>)
    requires entries != []
    ensures SomeHit(hit, entries) <==> SomeHit(hit, entries[..|entries| - 1]) || hit(entries[|entries| - 1])
  {
    var n := |entries| - 1;
    if SomeHit(hit, entries[..n]) {
      var k :| 0 <= k < n && hit(entries[..n][k]);
      assert hit(entries[k]);
    }
    if SomeHit(hit, entries) {
      var k :| 0 <= k < |entries| && hit(entries[k]);
      assert k < n ==> entries[..n][k] == entries[k];
    }
  }

  ghost predicate RemovedAt(scan: Scan, entries: seq<Entry>, place: (string, string)) {
    SomeHit(Hits(scan, place), entries)
  }

  lemma RemoveLeaves(scan: Scan, store: Store, e: Entry, bucket: string, o: Object)
    requires bucket in store
    ensures Remove(scan, store, e).Keys == store.Keys
    ensures o in Remove(scan, store, e)[bucket] <==>
      o in store[bucket] && !(Removes(scan, e) && Place(e) == (bucket, o.key))
  {
    VerdictIsDeserved(scan, e, Candidate);
    WithoutContains(store[bucket], e.item.key, o);
  }

  lemma {:induction false} SweptKeys(scan: Scan, store: Store, entries: seq<Entry>)
    requires ValidStore(scan, store)
    ensures Swept(scan, store, entries).Keys == store.Keys
    decreases |entries|
  {
    if entries != [] {
      SweptKeys(scan, store, entries[..|entries| - 1]);
    }
  }

  lemma {:induction false} SweptLeaves(scan: Scan, store: Store, entries: seq<Entry>, bucket: string, o: Object)
    requires ValidStore(scan, store) && bucket in store && bucket in Swept(scan, store, entries)
    ensures o in Swept(scan, store, entries)[bucket] <==>
      o in store[bucket] && !RemovedAt(scan, entries, (bucket, o.key))
    decreases |entries|
  {
    if entries != [] {
      var n := |entries| - 1;
      SweptKeys(scan, store, entries[..n]);
      SweptLeaves(scan, store, entries[..n], bucket, o);
      RemoveLeaves(scan, Swept(scan, store, entries[..n]), entries[n], bucket, o);
      SomeHitLast(Hits(scan, (bucket, o.key)), entries);
    }
  }

  /** The store has lost the orphans among the entries that the scan can remove, and nothing else. */
  ghost predicate LosesOrphans(scan: Scan, entries: seq<Entry>, before: Store, after: Store) {
    && after.Keys == before.Keys
    && forall bucket, o :: bucket in before ==>
      (o in after[bucket] <==> o in before[bucket] && !RemovedAt(scan, entries, (bucket, o.key)))
  }

  lemma {:induction false} SweptLosesOrphans(scan: Scan, store: Store, entries: seq<Entry>)
    requires ValidStore(scan, store)
    ensures LosesOrphans(scan, entries, store, Swept(scan, store, entries))
  {
    var swept := Swept(scan, store, entries);
    SweptKeys(scan, store, entries);
    forall bucket, o | bucket in store
      ensures o in swept[bucket] <==> o in store[bucket] && !RemovedAt(scan, entries, (bucket, o.key))
    {
      SweptLeaves(scan, store, entries, bucket, o);
    }
    assert LosesOrphans(scan, entries, store, swept);
  }
}
