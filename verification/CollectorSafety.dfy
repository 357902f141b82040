/** Uploads, deletions, purges and orphan cleanups on one object store, as a timed state
    machine. The collector's listing, lookup and removal of an object are separate steps, and
    anything may happen between them. Of an upload it is assumed only that it commits its row
    or gives up within a bound of its first put. Then no object of a row that is not
    soft-deleted is ever removed, exactly when the grace period is at least that bound. */
module CollectorSafety {
  import opened ObjectKeys
  import opened Wrappers

  datatype Ref = Ref(bucket: Class, key: string)

  datatype Asset = Asset(tenant: string, project: string, id: string, ext: string, generated: bool)

  /** Uploads take at most `bound` from their first put on; scans spare what is younger than
      `grace` or more. */
  datatype Timing = Timing(bound: int, grace: int)

  datatype Phase = Active | Committed | GivenUp

  datatype Upload = Upload(asset: Asset, firstPut: Option<int>, thumbPut: bool, phase: Phase)

  datatype Scan = Scan(tenant: string, cutoff: int)

  datatype Listing = Listing(scan: nat, ref: Ref, lastModified: int)

  /** `uploads` holds every upload ever begun by asset id; its row exists once committed, and
      `deleted` says since when rows are soft-deleted, `purged` which are marked as purged. */
  datatype World = World(
    now: int, objects: map<Ref, int>, uploads: map<string, Upload>, deleted: map<string, int>, purged: set<string>,
    scans: seq<Scan>, listings: set<Listing>, condemned: set<Ref>)

  datatype Step =
    | Tick(time: int)
    | Begin(asset: Asset)
    | PutOriginal(id: string)
    | PutThumbnail(id: string)
    | Commit(id: string)
    | GiveUp(id: string)
    | RemoveOwn(id: string, thumbnail: bool)
    | SoftDelete(id: string)
    | PurgeObject(id: string, thumbnail: bool)
    | MarkPurged(id: string)
    | StartScan(tenant: string, grace: int)
    | List(scan: nat, ref: Ref)
    | Lookup(listing: Listing)
    | RemoveOrphan(ref: Ref)

  predicate ProperAsset(a: Asset) {
    Segment(a.tenant) && Segment(a.project) && Segment(a.id) && a.ext in EXTENSIONS
  }

  function OriginalRef(a: Asset): Ref {
    Ref(if a.generated then Generated else Originals, ObjectKey(a.tenant, a.project, a.id, a.ext))
  }

  function ThumbnailRef(a: Asset): Ref {
    Ref(Thumbnails, ThumbnailKey(a.tenant, a.project, a.id))
  }

  function RefOf(a: Asset, thumbnail: bool): Ref {
    if thumbnail then ThumbnailRef(a) else OriginalRef(a)
  }

  predicate Owns(a: Asset, ref: Ref) {
    ref == OriginalRef(a) || ref == ThumbnailRef(a)
  }

  predicate ObjectsGone(w: World, a: Asset) {
    OriginalRef(a) !in w.objects && ThumbnailRef(a) !in w.objects
  }

  /** The row exists and is not soft-deleted. */
  predicate Live(w: World, id: string) {
    id in w.uploads && w.uploads[id].phase == Committed && id !in w.deleted
  }

  /** The metadata lookup: it sees only rows of the tenant that are not soft-deleted. */
  predicate Referenced(w: World, tenant: string, key: string) {
    exists id :: id in w.uploads && Live(w, id) && w.uploads[id].asset.tenant == tenant
      && (OriginalRef(w.uploads[id].asset).key == Text.TrimSpace(key)
        || ThumbnailRef(w.uploads[id].asset).key == Text.TrimSpace(key))
  }

  /** What the collector decides about a listed object. */
  predicate Orphan(w: World, listing: Listing)
    requires listing.scan < |w.scans|
  {
    var scan, parsed := w.scans[listing.scan], ParseBackendObjectKey(listing.ref.key);
    && parsed.Some? && parsed.value.tenant == scan.tenant
    && ClassMatches(listing.ref.bucket, parsed.value.kind)
    && listing.lastModified < scan.cutoff
    && !Referenced(w, scan.tenant, listing.ref.key)
  }

  /** The id is new: no object, listing or pending removal carries its keys. */
  predicate Fresh(w: World, a: Asset) {
    && a.id !in w.uploads && ObjectsGone(w, a)
    && OriginalRef(a) !in w.condemned && ThumbnailRef(a) !in w.condemned
    && (forall l :: l in w.listings ==> !Owns(a, l.ref))
  }

  predicate IsActive(w: World, id: string) {
    id in w.uploads && w.uploads[id].phase == Active
  }

  predicate Enabled(t: Timing, w: World, step: Step) {
    match step
    case Tick(time) =>
      time >= w.now && forall id :: id in w.uploads && IsActive(w, id) && w.uploads[id].firstPut.Some? ==>
        time <= w.uploads[id].firstPut.value + t.bound
    case Begin(a) => ProperAsset(a) && Fresh(w, a)
    case PutOriginal(id) => IsActive(w, id) && w.uploads[id].firstPut == None
    case PutThumbnail(id) => IsActive(w, id) && w.uploads[id].firstPut.Some?
    case Commit(id) => IsActive(w, id) && w.uploads[id].thumbPut
    case GiveUp(id) => IsActive(w, id)
    case RemoveOwn(id, _) => id in w.uploads && w.uploads[id].phase == GivenUp
    case SoftDelete(id) => Live(w, id)
    case PurgeObject(id, _) => id in w.uploads && w.uploads[id].phase == Committed && id in w.deleted
    case MarkPurged(id) =>
      id in w.uploads && id in w.deleted && id !in w.purged && ObjectsGone(w, w.uploads[id].asset)
    case StartScan(_, grace) => grace >= t.grace
    case List(scan, ref) => scan < |w.scans| && ref in w.objects
    case Lookup(listing) => listing in w.listings && listing.scan < |w.scans| && Orphan(w, listing)
    case RemoveOrphan(ref) => ref in w.condemned
  }

  function Apply(t: Timing, w: World, step: Step): World {
    if !Enabled(t, w, step) then w else
      match step
      case Tick(time) => w.(now := time)
      case Begin(a) => w.(uploads := w.uploads[a.id := Upload(a, None, false, Active)])
      case PutOriginal(id) =>
        w.(objects := w.objects[OriginalRef(w.uploads[id].asset) := w.now],
           uploads := w.uploads[id := w.uploads[id].(firstPut := Some(w.now))])
      case PutThumbnail(id) =>
        w.(objects := w.objects[ThumbnailRef(w.uploads[id].asset) := w.now],
           uploads := w.uploads[id := w.uploads[id].(thumbPut := true)])
      case Commit(id) => w.(uploads := w.uploads[id := w.uploads[id].(phase := Committed)])
      case GiveUp(id) => w.(uploads := w.uploads[id := w.uploads[id].(phase := GivenUp)])
      case RemoveOwn(id, thumbnail) => w.(objects := w.objects - {RefOf(w.uploads[id].asset, thumbnail)})
      case SoftDelete(id) => w.(deleted := w.deleted[id := w.now])
      case PurgeObject(id, thumbnail) => w.(objects := w.objects - {RefOf(w.uploads[id].asset, thumbnail)})
      case MarkPurged(id) => w.(purged := w.purged + {id})
      case StartScan(tenant, grace) => w.(scans := w.scans + [Scan(tenant, w.now - grace)])
      case List(scan, ref) => w.(listings := w.listings + {Listing(scan, ref, w.objects[ref])})
      case Lookup(listing) => w.(condemned := w.condemned + {listing.ref})
      case RemoveOrphan(ref) => w.(objects := w.objects - {ref})
  }

  function Run(t: Timing, w: World, steps: seq<Step>): World
    decreases steps
  {
    if steps == [] then w else Run(t, Apply(t, w, steps[0]), steps[1..])
  }

  /** Where an asset's objects are, generated images in a bucket of their own. */
  lemma RefsAre(a: Asset)
    ensures OriginalRef(a).bucket == (if a.generated then Generated else Originals)
      && ThumbnailRef(a).bucket == Thumbnails
    ensures OriginalRef(a).key
      == "tenants/" + a.tenant + "/projects/" + a.project + "/assets/" + a.id + "/" + ("original." + a.ext)
    ensures ThumbnailRef(a).key
      == "tenants/" + a.tenant + "/projects/" + a.project + "/assets/" + a.id + "/" + "thumbnail.jpg"
  {
  }

  // ---------------------------------------------------------------------------------------
  // Keys of different assets differ.

  lemma OwnedKeyParses(a: Asset, ref: Ref)
    requires ProperAsset(a) && Owns(a, ref)
    ensures ParseBackendObjectKey(ref.key).Some?
    ensures ParseBackendObjectKey(ref.key).value.tenant == a.tenant
      && ParseBackendObjectKey(ref.key).value.asset == a.id
    ensures Text.TrimSpace(ref.key) == ref.key
  {
    ParseObjectKey(a.tenant, a.project, a.id, a.ext);
    ParseThumbnailKey(a.tenant, a.project, a.id);
  }

  lemma OwnersAreUnique(a: Asset, b: Asset, ref: Ref)
    requires ProperAsset(a) && ProperAsset(b) && Owns(a, ref) && Owns(b, ref)
    ensures a.id == b.id
  {
    OwnedKeyParses(a, ref);
    OwnedKeyParses(b, ref);
  }

  // ---------------------------------------------------------------------------------------
  // The invariant.

  /** An upload still running is within its bound; as long as it runs, or its row is live, the
      objects it has put are there. */
  ghost predicate UploadInv(t: Timing, w: World, id: string) {
    id in w.uploads ==>
      var u := w.uploads[id];
      && u.asset.id == id && ProperAsset(u.asset)
      && (u.thumbPut ==> u.firstPut.Some?)
      && (u.phase == Committed ==> u.thumbPut)
      && (u.firstPut.Some? ==> u.firstPut.value <= w.now)
      && (u.phase == Active && u.firstPut.Some? ==> w.now <= u.firstPut.value + t.bound)
      && (u.phase == Active || Live(w, id) ==>
            && (u.firstPut.Some? ==> OriginalRef(u.asset) in w.objects)
            && (u.thumbPut ==> ThumbnailRef(u.asset) in w.objects))
      && (id in w.deleted ==> u.phase == Committed)
      && (id in w.purged ==> id in w.deleted && ObjectsGone(w, u.asset))
  }

  /** A timestamp of an upload's object is not before its first put. */
  ghost predicate StampInv(w: World, ref: Ref, stamp: int) {
    forall id :: id in w.uploads && Owns(w.uploads[id].asset, ref) ==>
      w.uploads[id].firstPut.Some? && stamp >= w.uploads[id].firstPut.value
  }

  /** What is condemned belongs to no running upload and to no live row. */
  ghost predicate CondemnedInv(w: World, ref: Ref) {
    forall id :: id in w.uploads && Owns(w.uploads[id].asset, ref) ==> !IsActive(w, id) && !Live(w, id)
  }

  ghost predicate Inv(t: Timing, w: World) {
    && (forall id :: UploadInv(t, w, id))
    && w.deleted.Keys <= w.uploads.Keys && w.purged <= w.uploads.Keys
    && (forall ref :: ref in w.objects ==> StampInv(w, ref, w.objects[ref]))
    && (forall l :: l in w.listings ==> l.scan < |w.scans| && StampInv(w, l.ref, l.lastModified))
    && (forall i :: 0 <= i < |w.scans| ==> w.scans[i].cutoff <= w.now - t.grace)
    && (forall ref :: ref in w.condemned ==> CondemnedInv(w, ref))
  }

  lemma BeginKeepsInv(t: Timing, w: World, a: Asset)
    requires Inv(t, w) && Enabled(t, w, Begin(a))
    ensures Inv(t, Apply(t, w, Begin(a)))
  {
    var v := Apply(t, w, Begin(a));
    forall id ensures UploadInv(t, v, id) { assert UploadInv(t, w, id); }
    forall ref | ref in v.objects ensures StampInv(v, ref, v.objects[ref]) { assert StampInv(w, ref, w.objects[ref]); }
    forall l | l in v.listings ensures StampInv(v, l.ref, l.lastModified) { assert StampInv(w, l.ref, l.lastModified); }
    forall ref | ref in v.condemned ensures CondemnedInv(v, ref) { assert CondemnedInv(w, ref); }
  }

  /** A put writes an object of the upload's own and nothing of another's. */
  lemma PutKeepsInv(t: Timing, w: World, step: Step)
    requires Inv(t, w) && (step.PutOriginal? || step.PutThumbnail?) && Enabled(t, w, step)
    requires t.bound >= 0
    ensures Inv(t, Apply(t, w, step))
  {
    var v := Apply(t, w, step);
    var mine := w.uploads[step.id].asset;
    assert UploadInv(t, w, step.id);
    forall id ensures UploadInv(t, v, id) {
      assert UploadInv(t, w, id);
      if id in w.purged && !ObjectsGone(v, w.uploads[id].asset) {
        OwnersAreUnique(mine, w.uploads[id].asset, RefOf(mine, step.PutThumbnail?));
      }
    }
    forall ref | ref in v.objects ensures StampInv(v, ref, v.objects[ref]) {
      forall id | id in v.uploads && Owns(v.uploads[id].asset, ref)
        ensures v.uploads[id].firstPut.Some? && v.objects[ref] >= v.uploads[id].firstPut.value
      {
        assert UploadInv(t, w, id);
        if ref !in w.objects || v.objects[ref] != w.objects[ref] {
          OwnersAreUnique(mine, w.uploads[id].asset, ref);
        } else {
          assert StampInv(w, ref, w.objects[ref]);
        }
      }
    }
    forall l | l in v.listings ensures StampInv(v, l.ref, l.lastModified) { assert StampInv(w, l.ref, l.lastModified); }
    forall ref | ref in v.condemned ensures CondemnedInv(v, ref) { assert CondemnedInv(w, ref); }
  }

  /** Removing an object that no running upload and no live row owns. */
  lemma RemovalKeepsInv(t: Timing, w: World, ref: Ref)
    requires Inv(t, w) && CondemnedInv(w, ref)
    ensures Inv(t, w.(objects := w.objects - {ref}))
  {
    var v := w.(objects := w.objects - {ref});
    forall id ensures UploadInv(t, v, id) { assert UploadInv(t, w, id); }
    forall r | r in v.objects ensures StampInv(v, r, v.objects[r]) { assert StampInv(w, r, w.objects[r]); }
    forall l | l in v.listings ensures StampInv(v, l.ref, l.lastModified) { assert StampInv(w, l.ref, l.lastModified); }
    forall r | r in v.condemned ensures CondemnedInv(v, r) { assert CondemnedInv(w, r); }
  }

  /** A given-up or soft-deleted upload's own objects may go. */
  lemma OwnObjectIsRemovable(t: Timing, w: World, id: string, thumbnail: bool)
    requires Inv(t, w) && id in w.uploads && !IsActive(w, id) && !Live(w, id)
    ensures CondemnedInv(w, RefOf(w.uploads[id].asset, thumbnail))
  {
    var ref := RefOf(w.uploads[id].asset, thumbnail);
    forall other | other in w.uploads && Owns(w.uploads[other].asset, ref)
      ensures !IsActive(w, other) && !Live(w, other) {
      assert UploadInv(t, w, id) && UploadInv(t, w, other);
      OwnersAreUnique(w.uploads[id].asset, w.uploads[other].asset, ref);
    }
  }

  /** The heart of the matter: an object older than the grace period that the lookup does not
      find belongs to no upload that could still commit it. */
  lemma OrphanIsCondemnable(t: Timing, w: World, listing: Listing)
    requires Inv(t, w) && Enabled(t, w, Lookup(listing)) && t.bound <= t.grace
    ensures CondemnedInv(w, listing.ref)
  {
    forall id | id in w.uploads && Owns(w.uploads[id].asset, listing.ref) ensures !IsActive(w, id) && !Live(w, id) {
      assert UploadInv(t, w, id) && StampInv(w, listing.ref, listing.lastModified);
      OwnedKeyParses(w.uploads[id].asset, listing.ref);
      assert w.scans[listing.scan].cutoff <= w.now - t.grace;
    }
  }

  lemma StatusKeepsUpload(t: Timing, w: World, step: Step, id: string)
    requires Inv(t, w) && Enabled(t, w, step)
    requires step.Commit? || step.GiveUp? || step.SoftDelete? || step.MarkPurged?
    ensures UploadInv(t, Apply(t, w, step), id)
  {
    assert UploadInv(t, w, id) && UploadInv(t, w, step.id);
  }

  lemma StatusKeepsInv(t: Timing, w: World, step: Step)
    requires Inv(t, w) && Enabled(t, w, step)
    requires step.Commit? || step.GiveUp? || step.SoftDelete? || step.MarkPurged?
    ensures Inv(t, Apply(t, w, step))
  {
    var v := Apply(t, w, step);
    forall id ensures UploadInv(t, v, id) { StatusKeepsUpload(t, w, step, id); }
    assert UploadInv(t, w, step.id);
    forall ref | ref in v.objects ensures StampInv(v, ref, v.objects[ref]) { assert StampInv(w, ref, w.objects[ref]); }
    forall l | l in v.listings ensures StampInv(v, l.ref, l.lastModified) { assert StampInv(w, l.ref, l.lastModified); }
    forall ref | ref in v.condemned ensures CondemnedInv(v, ref) { assert CondemnedInv(w, ref); }
  }

  lemma ScanKeepsInv(t: Timing, w: World, step: Step)
    requires Inv(t, w) && Enabled(t, w, step)
    requires t.bound <= t.grace
    requires step.Tick? || step.StartScan? || step.List? || step.Lookup?
    ensures Inv(t, Apply(t, w, step))
  {
    var v := Apply(t, w, step);
    if step.Lookup? {
      OrphanIsCondemnable(t, w, step.listing);
    }
    forall id ensures UploadInv(t, v, id) { assert UploadInv(t, w, id); }
    forall ref | ref in v.objects ensures StampInv(v, ref, v.objects[ref]) { assert StampInv(w, ref, w.objects[ref]); }
    forall l | l in v.listings ensures StampInv(v, l.ref, l.lastModified) {
      assert l in w.listings ==> StampInv(w, l.ref, l.lastModified);
    }
    forall ref | ref in v.condemned ensures CondemnedInv(v, ref) {
      assert ref in w.condemned ==> CondemnedInv(w, ref);
    }
  }

  lemma StepKeepsInv(t: Timing, w: World, step: Step)
    requires Inv(t, w) && 0 <= t.bound <= t.grace
    ensures Inv(t, Apply(t, w, step))
  {
    if Enabled(t, w, step) {
      match step {
        case Begin(a) => BeginKeepsInv(t, w, a);
        case PutOriginal(_) => PutKeepsInv(t, w, step);
        case PutThumbnail(_) => PutKeepsInv(t, w, step);
        case RemoveOwn(id, thumbnail) =>
          OwnObjectIsRemovable(t, w, id, thumbnail);
          RemovalKeepsInv(t, w, RefOf(w.uploads[id].asset, thumbnail));
        case PurgeObject(id, thumbnail) =>
          OwnObjectIsRemovable(t, w, id, thumbnail);
          RemovalKeepsInv(t, w, RefOf(w.uploads[id].asset, thumbnail));
        case RemoveOrphan(ref) => RemovalKeepsInv(t, w, ref);
        case Commit(_) => StatusKeepsInv(t, w, step);
        case GiveUp(_) => StatusKeepsInv(t, w, step);
        case SoftDelete(_) => StatusKeepsInv(t, w, step);
        case MarkPurged(_) => StatusKeepsInv(t, w, step);
        case _ => ScanKeepsInv(t, w, step);
      }
    }
  }

  lemma {:induction false} RunKeepsInv(t: Timing, w: World, steps: seq<Step>)
    requires Inv(t, w) && 0 <= t.bound <= t.grace
    ensures Inv(t, Run(t, w, steps))
    decreases steps
  {
    if steps != [] {
      StepKeepsInv(t, w, steps[0]);
      RunKeepsInv(t, Apply(t, w, steps[0]), steps[1..]);
    }
  }

  /** Any store of foreign objects, and no upload or scan yet. */
  predicate Start(w: World) {
    w.uploads == map[] && w.deleted == map[] && w.purged == {} && w.scans == [] && w.listings == {} && w.condemned == {}
  }

  predicate HasObjects(w: World, id: string) {
    id in w.uploads && OriginalRef(w.uploads[id].asset) in w.objects && ThumbnailRef(w.uploads[id].asset) in w.objects
  }

  /** Collector safety: after any run every row that is not soft-deleted still has its original
      and its thumbnail. */
  lemma {:induction false} LiveRowsKeepTheirObjects(t: Timing, w: World, steps: seq<Step>, id: string)
    requires 0 <= t.bound <= t.grace && Start(w) && Live(Run(t, w, steps), id)
    ensures HasObjects(Run(t, w, steps), id)
    ensures var v := Run(t, w, steps);
      OriginalRef(v.uploads[id].asset) in v.objects && ThumbnailRef(v.uploads[id].asset) in v.objects
  {
    RunKeepsInv(t, w, steps);
    assert UploadInv(t, Run(t, w, steps), id);
  }

  /** A row marked as purged is soft-deleted, and no object is left of it. */
  lemma {:induction false} PurgedRowsHaveNoObjects(t: Timing, w: World, steps: seq<Step>, id: string)
    requires 0 <= t.bound <= t.grace && Start(w) && id in Run(t, w, steps).purged
    ensures var v := Run(t, w, steps);
      id in v.uploads && id in v.deleted && ObjectsGone(v, v.uploads[id].asset)
  {
    RunKeepsInv(t, w, steps);
    assert UploadInv(t, Run(t, w, steps), id);
  }

  /** The first nine steps of the run below: an upload puts its objects at once, then waits for
      as long as it may; a scan takes its original for an orphan just before the row commits. */
  function HastyScan(t: Timing, a: Asset): seq<Step> {
    [Begin(a), PutOriginal(a.id), PutThumbnail(a.id), Tick(t.bound), StartScan(a.tenant, t.grace),
     List(0, OriginalRef(a)), Lookup(Listing(0, OriginalRef(a), 0)), Commit(a.id), RemoveOrphan(OriginalRef(a))]
  }

  ghost function After(t: Timing, w: World, steps: seq<Step>, n: nat): World
    requires n <= |steps|
  {
    if n == 0 then w else Apply(t, After(t, w, steps, n - 1), steps[n - 1])
  }

  lemma {:induction false} RunFrom(t: Timing, w: World, steps: seq<Step>, n: nat)
    requires n <= |steps|
    ensures Run(t, After(t, w, steps, n), steps[n..]) == Run(t, w, steps)
  {
    if n == 0 {
      assert steps[0..] == steps;
    } else {
      RunFrom(t, w, steps, n - 1);
      assert steps[n - 1..][1..] == steps[n..];
    }
  }

  /** The world of that run just after the scan has started. */
  function Waiting(t: Timing, a: Asset): World {
    World(t.bound, map[OriginalRef(a) := 0, ThumbnailRef(a) := 0], map[a.id := Upload(a, Some(0), true, Active)],
      map[], {}, [Scan(a.tenant, t.bound - t.grace)], {}, {})
  }

  const NOTHING := World(0, map[], map[], map[], {}, [], {}, {})

  lemma {:induction false} HastyUploadBegins(t: Timing, a: Asset)
    requires ProperAsset(a)
    ensures After(t, NOTHING, HastyScan(t, a), 2)
      == World(0, map[OriginalRef(a) := 0], map[a.id := Upload(a, Some(0), false, Active)], map[], {}, [], {}, {})
  {
    assert After(t, NOTHING, HastyScan(t, a), 1) == NOTHING.(uploads := map[a.id := Upload(a, None, false, Active)]);
  }

  lemma {:induction false} HastyUploadWaits(t: Timing, a: Asset)
    requires 0 <= t.grace < t.bound && ProperAsset(a)
    ensures After(t, NOTHING, HastyScan(t, a), 5) == Waiting(t, a)
  {
    var steps, ref := HastyScan(t, a), OriginalRef(a);
    HastyUploadBegins(t, a);
    assert After(t, NOTHING, steps, 3) == Waiting(t, a).(now := 0, scans := []);
    assert After(t, NOTHING, steps, 4) == Waiting(t, a).(scans := []);
  }

  lemma WaitingUploadIsAnOrphan(t: Timing, a: Asset, w: World)
    requires 0 <= t.grace < t.bound && ProperAsset(a)
    requires w == Waiting(t, a).(listings := {Listing(0, OriginalRef(a), 0)})
    ensures Orphan(w, Listing(0, OriginalRef(a), 0))
  {
    ParseObjectKey(a.tenant, a.project, a.id, a.ext);
    assert !Referenced(w, a.tenant, OriginalRef(a).key);
  }

  function Condemned(t: Timing, a: Asset): World {
    Waiting(t, a).(listings := {Listing(0, OriginalRef(a), 0)}, condemned := {OriginalRef(a)})
  }

  lemma {:induction false} HastyScanCondemns(t: Timing, a: Asset)
    requires 0 <= t.grace < t.bound && ProperAsset(a)
    ensures After(t, NOTHING, HastyScan(t, a), 7) == Condemned(t, a)
  {
    var steps := HastyScan(t, a);
    HastyUploadWaits(t, a);
    var w := Condemned(t, a).(condemned := {});
    assert After(t, NOTHING, steps, 6) == w;
    WaitingUploadIsAnOrphan(t, a, w);
    assert After(t, NOTHING, steps, 7) == Apply(t, w, steps[6]);
  }

  /** With a grace period shorter than an upload may take, a live row can lose its original. */
  lemma {:induction false} ShortGraceLosesAnOriginal(t: Timing, a: Asset)
    requires 0 <= t.grace < t.bound && ProperAsset(a)
    ensures Start(NOTHING)
    ensures Live(Run(t, NOTHING, HastyScan(t, a)), a.id) && !HasObjects(Run(t, NOTHING, HastyScan(t, a)), a.id)
  {
    var steps, ref := HastyScan(t, a), OriginalRef(a);
    HastyScanCondemns(t, a);
    var w8 := Condemned(t, a).(uploads := map[a.id := Upload(a, Some(0), true, Committed)]);
    assert After(t, NOTHING, steps, 8) == w8;
    assert After(t, NOTHING, steps, 9) == w8.(objects := w8.objects - {ref});
    RunFrom(t, NOTHING, steps, 9);
  }

  /** The collector is safe for every run if and only if its grace period covers the uploads. */
  lemma {:induction false} SafeExactlyWhenGraceCoversUploads(t: Timing)
    requires 0 <= t.grace && 0 <= t.bound
    ensures (forall w, steps, id :: Start(w) && Live(Run(t, w, steps), id) ==> HasObjects(Run(t, w, steps), id)) <==>
      t.bound <= t.grace
  {
    if t.bound <= t.grace {
      forall w, steps, id | Start(w) && Live(Run(t, w, steps), id) ensures HasObjects(Run(t, w, steps), id) {
        LiveRowsKeepTheirObjects(t, w, steps, id);
      }
    } else {
      ShortGraceLosesAnOriginal(t, Asset("t", "p", "a", "jpg", false));
    }
  }
}
