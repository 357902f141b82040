/** Whole sessions with the orphan collector: its calls one after the other, each handed the token of
    the one before, with its own time, limit, grace period and answers. Together they inspect every
    object of the tenant once, and what they leave is exactly what was no orphan when its turn came. */
module OrphanSessions {
  import opened ObjectKeys
  import opened OrphanCollector
  import opened OrphanPaging
  import opened OrphanVerdicts
  import opened Text
  import opened Wrappers

  /** A call that got a reply, and the store it left. */
  datatype Call = Call(now: int, options: Options, answers: Answers, reply: Reply, after: Store)

  function ScanOf(c: Collector, tenant: string, call: Call): Scan {
    c.ScanOf(tenant, call.now, call.options, call.answers)
  }

  function Limit(call: Call): nat {
    NormalizeBatchLimit(call.options.batchLimit)
  }

  /** Calls from a store on, each with the token of the one before, until there is no more. */
  ghost predicate Session(c: Collector, tenant: string, before: Store, calls: seq<Call>)
    decreases calls
  {
    && calls != []
    && var scan, call := ScanOf(c, tenant, calls[0]), calls[0];
    var cursor := DecodeCursor(c.sealer, tenant, call.options.cursor, |c.classes|, c.config);
    && ValidStore(scan, before) && cursor.Ok?
    && c.IsPage(scan, before, cursor.value, Limit(call), Ok(call.reply), call.after)
    && (call.reply.hasMore <==> |calls| > 1)
    && (|calls| > 1 ==> calls[1].options.cursor == call.reply.nextCursor && Session(c, tenant, call.after, calls[1..]))
  }

  // ---------------------------------------------------------------------------------------
  // What a scan lists.

  /** The listing depends on the tenant and the buckets alone. */
  lemma {:induction false} SameListings(scan: Scan, other: Scan, store: Store, cursor: Cursor)
    requires ValidStore(scan, store) && other.tenant == scan.tenant && other.classes == scan.classes
    ensures ValidStore(other, store) && From(other, store, cursor) == From(scan, store, cursor)
    decreases |scan.classes| - cursor.index
  {
    if cursor.index < |scan.classes| {
      SameListings(scan, other, store, Cursor(cursor.index + 1, ""));
    }
  }

  /** The object is one the scan meets, in the class with that index. */
  predicate Listable(scan: Scan, store: Store, e: Entry) {
    && Proper(scan, e) && e.home.bucket in store && e.item in store[e.home.bucket]
    && "tenants/" + scan.tenant + "/" <= e.item.key
  }

  lemma {:induction false} MatchingContains(objects: seq<Object>, prefix: string, after: string, o: Object)
    ensures o in Matching(objects, prefix, after) <==> o in objects && prefix <= o.key && Before(after, o.key)
  {
    if objects != [] {
      MatchingContains(objects[1..], prefix, after, o);
    }
  }

  lemma EntriesContain(index: nat, home: ObjectClass, objects: seq<Object>, e: Entry)
    ensures e in Entries(index, home, objects) <==> e.index == index && e.home == home && e.item in objects
  {
    var entries := Entries(index, home, objects);
    if e.index == index && e.home == home && e.item in objects {
      var i :| 0 <= i < |objects| && objects[i] == e.item;
      assert entries[i] == e;
    }
  }

  /** From the start the scan meets all that can be listed, and nothing else. */
  lemma {:induction false} FromContains(scan: Scan, store: Store, index: nat, e: Entry)
    requires ValidStore(scan, store)
    ensures e in From(scan, store, Cursor(index, "")) <==> index <= e.index && Listable(scan, store, e)
    decreases |scan.classes| - index
  {
    if index < |scan.classes| {
      var home := scan.classes[index];
      var listing := ListingOf(scan, store, index, "");
      FromContains(scan, store, index + 1, e);
      EntriesContain(index, home, listing, e);
      MatchingContains(store[home.bucket], Prefix(scan), "", e.item);
    }
  }

  // ---------------------------------------------------------------------------------------
  // Sessions.

  ghost predicate Reports(c: Collector, tenant: string, calls: seq<Call>, pages: seq<seq<Entry>>) {
    && |pages| == |calls|
    && forall k :: 0 <= k < |calls| ==> calls[k].reply.report == ReportOf(ScanOf(c, tenant, calls[k]), pages[k])
  }

  /** The call on whose page the object was has removed it. */
  ghost predicate RemovedInSession(c: Collector, tenant: string, calls: seq<Call>, pages: seq<seq<Entry>>,
      place: (string, string))
    requires |pages| == |calls|
  {
    exists k :: 0 <= k < |calls| && RemovedAt(ScanOf(c, tenant, calls[k]), pages[k], place)
  }

  function Final(calls: seq<Call>): Store
    requires calls != []
  {
    calls[|calls| - 1].after
  }

  /** Each call has swept its page. */
  ghost predicate Sweeps(c: Collector, tenant: string, before: Store, calls: seq<Call>, pages: seq<seq<Entry>>)
    decreases calls
  {
    && |pages| == |calls|
    && (calls != [] ==>
          && ValidStore(ScanOf(c, tenant, calls[0]), before)
          && calls[0].after == Swept(ScanOf(c, tenant, calls[0]), before, pages[0])
          && Sweeps(c, tenant, calls[0].after, calls[1..], pages[1..]))
  }

  /** The tokens carry a session through the whole scan: its pages are, one after the other, all that
      the first call's cursor had ahead of it, and each call reports and sweeps its own page. */
  lemma {:induction false} SessionIsTheFullScan(c: Collector, tenant: string, before: Store, calls: seq<Call>,
      cursor: Cursor)
    returns (pages: seq<seq<Entry>>)
    requires Sound(c.sealer) && Session(c, tenant, before, calls)
    requires DecodeCursor(c.sealer, tenant, calls[0].options.cursor, |c.classes|, c.config) == Ok(cursor)
    ensures Reports(c, tenant, calls, pages) && Sweeps(c, tenant, before, calls, pages)
    ensures Concat(pages) == From(ScanOf(c, tenant, calls[0]), before, cursor)
    ensures |calls| <= |Concat(pages)| + 1
    decreases calls
  {
    var call, scan := calls[0], ScanOf(c, tenant, calls[0]);
    var page := Page(From(scan, before, cursor), Limit(call));
    NextPageContinues(scan, before, cursor, Limit(call));
    if |calls| == 1 {
      pages := [page];
      assert Concat([page]) == page + Concat([]);
    } else {
      var later := LaterPages(c, tenant, before, calls, cursor);
      pages := [page] + later;
      assert pages[1..] == later;
      PageAndRest(From(scan, before, cursor), Limit(call));
    }
  }

  lemma {:induction false} LaterPages(c: Collector, tenant: string, before: Store, calls: seq<Call>, cursor: Cursor)
    returns (later: seq<seq<Entry>>)
    requires Sound(c.sealer) && Session(c, tenant, before, calls) && |calls| > 1
    requires DecodeCursor(c.sealer, tenant, calls[0].options.cursor, |c.classes|, c.config) == Ok(cursor)
    ensures Reports(c, tenant, calls[1..], later) && Sweeps(c, tenant, calls[0].after, calls[1..], later)
    ensures var all := From(ScanOf(c, tenant, calls[0]), before, cursor);
      |all| >= Limit(calls[0]) && Concat(later) == all[Limit(calls[0])..]
    ensures |calls| - 1 <= |Concat(later)| + 1
    decreases calls, 0
  {
    var scan, limit := ScanOf(c, tenant, calls[0]), Limit(calls[0]);
    NextPageContinues(scan, before, cursor, limit);
    var next := Next(scan, From(scan, before, cursor), limit).value;
    DecodeEncode(c.sealer, tenant, c.config, next, tenant, c.config, |c.classes|);
    SameListings(ScanOf(c, tenant, calls[1]), scan, calls[0].after, next);
    later := SessionIsTheFullScan(c, tenant, calls[0].after, calls[1..], next);
  }

  /** What is left at the end is what no call has removed from its page. */
  lemma {:induction false} SessionLeaves(c: Collector, tenant: string, before: Store, calls: seq<Call>,
      pages: seq<seq<Entry>>, bucket: string, o: Object)
    requires calls != [] && Sweeps(c, tenant, before, calls, pages) && bucket in before
    ensures bucket in Final(calls)
    ensures o in Final(calls)[bucket] <==>
      o in before[bucket] && !RemovedInSession(c, tenant, calls, pages, (bucket, o.key))
    decreases calls
  {
    var scan := ScanOf(c, tenant, calls[0]);
    SweptKeys(scan, before, pages[0]);
    SweptLeaves(scan, before, pages[0], bucket, o);
    RemovedFirstOrLater(c, tenant, calls, pages, (bucket, o.key));
    if |calls| > 1 {
      SessionLeaves(c, tenant, calls[0].after, calls[1..], pages[1..], bucket, o);
    }
  }

  lemma RemovedFirstOrLater(c: Collector, tenant: string, calls: seq<Call>, pages: seq<seq<Entry>>,
      place: (string, string))
    requires calls != [] && |pages| == |calls|
    ensures RemovedInSession(c, tenant, calls, pages, place) <==>
      || RemovedAt(ScanOf(c, tenant, calls[0]), pages[0], place)
      || RemovedInSession(c, tenant, calls[1..], pages[1..], place)
  {
    if RemovedInSession(c, tenant, calls[1..], pages[1..], place) {
      var k :| 0 <= k < |calls| - 1 && RemovedAt(ScanOf(c, tenant, calls[1..][k]), pages[1..][k], place);
      assert RemovedAt(ScanOf(c, tenant, calls[k + 1]), pages[k + 1], place);
    }
    if RemovedInSession(c, tenant, calls, pages, place) {
      var k :| 0 <= k < |calls| && RemovedAt(ScanOf(c, tenant, calls[k]), pages[k], place);
      assert k > 0 ==> RemovedAt(ScanOf(c, tenant, calls[1..][k - 1]), pages[1..][k - 1], place);
    }
  }

  // ---------------------------------------------------------------------------------------
  // Sessions from the start.

  lemma {:induction false} InPages(pages: seq<seq<Entry>>, e: Entry)
    ensures e in Concat(pages) <==> exists k :: 0 <= k < |pages| && e in pages[k]
  {
    if pages != [] {
      InPages(pages[1..], e);
      if e in Concat(pages[1..]) {
        var k :| 0 <= k < |pages[1..]| && e in pages[1..][k];
        assert e in pages[k + 1];
      }
      if k :| 0 < k < |pages| && e in pages[k] {
        assert e in pages[1..][k - 1];
      }
    }
  }

  lemma {:induction false} OnTwoPages(pages: seq<seq<Entry>>, m: nat, k: nat, e: Entry) returns (p: nat, q: nat)
    requires m < k < |pages| && e in pages[m] && e in pages[k]
    ensures p < q < |Concat(pages)| && Concat(pages)[p] == e == Concat(pages)[q]
  {
    if m == 0 {
      assert e in pages[1..][k - 1];
      InPages(pages[1..], e);
      p :| 0 <= p < |pages[0]| && pages[0][p] == e;
      var later: nat :| later < |Concat(pages[1..])| && Concat(pages[1..])[later] == e;
      q := |pages[0]| + later;
    } else {
      p, q := OnTwoPages(pages[1..], m - 1, k - 1, e);
      p, q := |pages[0]| + p, |pages[0]| + q;
    }
  }

  /** The pages of a session of one tenant that starts with no token. */
  ghost predicate PagesOf(c: Collector, tenant: string, before: Store, calls: seq<Call>, pages: seq<seq<Entry>>) {
    && calls != [] && |pages| == |calls| && ValidStore(ScanOf(c, tenant, calls[0]), before)
    && Reports(c, tenant, calls, pages) && Sweeps(c, tenant, before, calls, pages)
    && Concat(pages) == From(ScanOf(c, tenant, calls[0]), before, Cursor(0, ""))
  }

  lemma OnOnePage(c: Collector, tenant: string, before: Store, calls: seq<Call>, pages: seq<seq<Entry>>, m: nat,
      k: nat, e: Entry)
    requires PagesOf(c, tenant, before, calls, pages)
    requires m < |pages| && k < |pages| && e in pages[m] && e in pages[k]
    ensures m == k
  {
    if m != k {
      var scan := ScanOf(c, tenant, calls[0]);
      var p, q := OnTwoPages(pages, if m < k then m else k, if m < k then k else m, e);
      FromIsOrdered(scan, before, Cursor(0, ""));
      assert Precedes(Concat(pages)[p], Concat(pages)[q]);
      BeforeIsIrreflexive(e.item.key);
    }
  }

  /** What a scan lists in one place is one object. */
  lemma SamePlaceIsSame(scan: Scan, store: Store, e: Entry, f: Entry)
    requires ValidStore(scan, store) && Listable(scan, store, e) && Listable(scan, store, f) && Place(e) == Place(f)
    ensures e == f
  {
    var objects := store[e.home.bucket];
    var i :| 0 <= i < |objects| && objects[i] == e.item;
    var j :| 0 <= j < |objects| && objects[j] == f.item;
    BeforeIsIrreflexive(e.item.key);
    assert i == j;
  }

  lemma RemovedOnOwnPage(c: Collector, tenant: string, before: Store, calls: seq<Call>, pages: seq<seq<Entry>>, k: nat,
      e: Entry)
    requires PagesOf(c, tenant, before, calls, pages) && Listable(ScanOf(c, tenant, calls[0]), before, e)
    requires k < |pages| && e in pages[k]
    ensures RemovedInSession(c, tenant, calls, pages, Place(e)) <==> Removes(ScanOf(c, tenant, calls[k]), e)
  {
    var scan := ScanOf(c, tenant, calls[0]);
    if Removes(ScanOf(c, tenant, calls[k]), e) {
      var j :| 0 <= j < |pages[k]| && pages[k][j] == e;
      assert RemovedAt(ScanOf(c, tenant, calls[k]), pages[k], Place(e));
    }
    if RemovedInSession(c, tenant, calls, pages, Place(e)) {
      var m :| 0 <= m < |calls| && RemovedAt(ScanOf(c, tenant, calls[m]), pages[m], Place(e));
      var j :| 0 <= j < |pages[m]| && Removes(ScanOf(c, tenant, calls[m]), pages[m][j])
        && Place(pages[m][j]) == Place(e);
      InPages(pages, pages[m][j]);
      FromContains(scan, before, 0, pages[m][j]);
      SamePlaceIsSame(scan, before, e, pages[m][j]);
      OnOnePage(c, tenant, before, calls, pages, m, k, e);
    }
  }

  /** The object is on the k-th page and no other, and it is still there at the end if and only if
      that call did not remove it. */
  ghost predicate JudgedOnce(c: Collector, tenant: string, calls: seq<Call>, pages: seq<seq<Entry>>, e: Entry, k: nat)
    requires calls != [] && |pages| == |calls|
  {
    && k < |pages| && e in pages[k] && (forall m :: 0 <= m < |pages| && e in pages[m] ==> m == k)
    && e.home.bucket in Final(calls)
    && (e.item in Final(calls)[e.home.bucket] <==> !Removes(ScanOf(c, tenant, calls[k]), e))
  }

  lemma ListableIsJudged(c: Collector, tenant: string, before: Store, calls: seq<Call>, pages: seq<seq<Entry>>,
      e: Entry)
    requires PagesOf(c, tenant, before, calls, pages) && Listable(ScanOf(c, tenant, calls[0]), before, e)
    ensures exists k :: JudgedOnce(c, tenant, calls, pages, e, k)
  {
    FromContains(ScanOf(c, tenant, calls[0]), before, 0, e);
    InPages(pages, e);
    var k :| 0 <= k < |pages| && e in pages[k];
    forall m | 0 <= m < |pages| && e in pages[m] ensures m == k {
      OnOnePage(c, tenant, before, calls, pages, m, k, e);
    }
    RemovedOnOwnPage(c, tenant, before, calls, pages, k, e);
    SessionLeaves(c, tenant, before, calls, pages, e.home.bucket, e.item);
    assert JudgedOnce(c, tenant, calls, pages, e, k);
  }

  /** A session that starts with no token and goes on until there is no more, whatever limits its calls
      have: every object the tenant has is inspected by exactly one of them, and is gone at the end
      if and only if that one found it an orphan and could remove it. */
  lemma SessionJudgesEachOnce(c: Collector, tenant: string, before: Store, calls: seq<Call>)
      returns (pages: seq<seq<Entry>>)
    requires Sound(c.sealer) && Session(c, tenant, before, calls) && TrimSpace(calls[0].options.cursor) == ""
    ensures PagesOf(c, tenant, before, calls, pages)
    ensures forall e :: Listable(ScanOf(c, tenant, calls[0]), before, e) ==>
      exists k :: JudgedOnce(c, tenant, calls, pages, e, k)
    ensures |calls| <= |From(ScanOf(c, tenant, calls[0]), before, Cursor(0, ""))| + 1
  {
    pages := SessionIsTheFullScan(c, tenant, before, calls, Cursor(0, ""));
    forall e | Listable(ScanOf(c, tenant, calls[0]), before, e)
      ensures exists k :: JudgedOnce(c, tenant, calls, pages, e, k) {
      ListableIsJudged(c, tenant, before, calls, pages, e);
    }
  }

  predicate Removing(call: Call) {
    !call.options.dryRun && call.answers.stuck == {}
  }

  /** If no removal fails and no call is a dry run, every object left at the end was no orphan when its
      turn came: none is left that all calls find recognized, old enough and unreferenced. */
  lemma {:induction false} NoOrphanIsLeft(c: Collector, tenant: string, before: Store, calls: seq<Call>, e: Entry)
    requires Sound(c.sealer) && Session(c, tenant, before, calls) && TrimSpace(calls[0].options.cursor) == ""
    requires forall k :: 0 <= k < |calls| ==> Removing(calls[k])
    requires Listable(ScanOf(c, tenant, calls[0]), Final(calls), e)
    ensures exists k :: 0 <= k < |calls| && !IsOrphan(ScanOf(c, tenant, calls[k]), e)
  {
    var pages := SessionJudgesEachOnce(c, tenant, before, calls);
    SessionLeaves(c, tenant, before, calls, pages, e.home.bucket, e.item);
    ListableIsJudged(c, tenant, before, calls, pages, e);
    var k: nat :| JudgedOnce(c, tenant, calls, pages, e, k);
    assert Removing(calls[k]);
  }

  /** Nothing outside the tenant's prefix is ever removed. */
  lemma {:induction false} OtherTenantsKeepTheirs(c: Collector, tenant: string, before: Store, calls: seq<Call>,
      bucket: string, o: Object)
    requires Sound(c.sealer) && Session(c, tenant, before, calls) && TrimSpace(calls[0].options.cursor) == ""
    requires bucket in before && o in before[bucket] && !("tenants/" + tenant + "/" <= o.key)
    ensures bucket in Final(calls) && o in Final(calls)[bucket]
  {
    var pages := SessionJudgesEachOnce(c, tenant, before, calls);
    SessionLeaves(c, tenant, before, calls, pages, bucket, o);
    if RemovedInSession(c, tenant, calls, pages, (bucket, o.key)) {
      var m :| 0 <= m < |calls| && RemovedAt(ScanOf(c, tenant, calls[m]), pages[m], (bucket, o.key));
      var j :| 0 <= j < |pages[m]| && Removes(ScanOf(c, tenant, calls[m]), pages[m][j])
        && Place(pages[m][j]) == (bucket, o.key);
      InPages(pages, pages[m][j]);
      FromContains(ScanOf(c, tenant, calls[0]), before, 0, pages[m][j]);
      assert false;
    }
  }
}
