/** Uploading, deleting and purging assets, command by command, on the timed world of
    CollectorSafety. Before each command the other clients and the collector may have taken any
    steps, read off `others`; each command may also fail. */
module AssetService {
  import EarliestFirst
  import opened CollectorSafety
  import opened Luck

  const DEFAULT_PURGE_LIMIT := 100
  const MAX_PURGE_LIMIT := 1000

  function NormalizePurgeLimit(limit: int): (n: nat)
    ensures 1 <= n <= 1000 && (1 <= limit <= 1000 ==> n == limit)
    ensures (limit <= 0 ==> n == 100) && (limit > 1000 ==> n == 1000)
  {
    if limit <= 0 then DEFAULT_PURGE_LIMIT else if limit > MAX_PURGE_LIMIT then MAX_PURGE_LIMIT else limit
  }

  /** A step that is not one of this upload's own. */
  predicate Foreign(step: Step, id: string) {
    match step
    case Begin(a) => a.id != id
    case PutOriginal(other) => other != id
    case PutThumbnail(other) => other != id
    case Commit(other) => other != id
    case GiveUp(other) => other != id
    case RemoveOwn(other, _) => other != id
    case _ => true
  }

  /** The upload stands as it did, and no object of it has appeared. */
  ghost predicate Undisturbed(w: World, v: World, id: string) {
    && id in w.uploads && id in v.uploads && v.uploads[id] == w.uploads[id]
    && (forall ref :: Owns(w.uploads[id].asset, ref) && ref !in w.objects ==> ref !in v.objects)
  }

  lemma ForeignStepDisturbsNothing(t: Timing, w: World, step: Step, id: string)
    requires Inv(t, w) && id in w.uploads && Foreign(step, id)
    ensures Undisturbed(w, Apply(t, w, step), id)
  {
    if Enabled(t, w, step) && (step.PutOriginal? || step.PutThumbnail?) {
      assert UploadInv(t, w, id) && UploadInv(t, w, step.id);
      var put := RefOf(w.uploads[step.id].asset, step.PutThumbnail?);
      if Owns(w.uploads[id].asset, put) {
        OwnersAreUnique(w.uploads[id].asset, w.uploads[step.id].asset, put);
      }
    }
  }

  lemma {:induction false} ForeignRunDisturbsNothing(t: Timing, w: World, steps: seq<Step>, id: string)
    requires Inv(t, w) && 0 <= t.bound <= t.grace && id in w.uploads
    requires forall i :: 0 <= i < |steps| ==> Foreign(steps[i], id)
    ensures Undisturbed(w, Run(t, w, steps), id)
    decreases steps
  {
    if steps != [] {
      var v := Apply(t, w, steps[0]);
      ForeignStepDisturbsNothing(t, w, steps[0], id);
      StepKeepsInv(t, w, steps[0]);
      ForeignRunDisturbsNothing(t, v, steps[1..], id);
    }
  }

  lemma CommittedIsLive(t: Timing, w: World, id: string)
    requires Inv(t, w) && Enabled(t, w, Commit(id))
    ensures Live(Apply(t, w, Commit(id)), id) && HasObjects(Apply(t, w, Commit(id)), id)
  {
    assert UploadInv(t, w, id);
  }

  /** A soft-deleted row stays so, and what is gone of it stays gone, whoever works on it. */
  ghost predicate StillDeleted(w: World, v: World, id: string) {
    && id in w.uploads && id in v.uploads && v.uploads[id] == w.uploads[id]
    && id in w.deleted && id in v.deleted && (id in w.purged ==> id in v.purged)
    && (forall ref :: Owns(w.uploads[id].asset, ref) && ref !in w.objects ==> ref !in v.objects)
  }

  lemma StepKeepsDeleted(t: Timing, w: World, step: Step, id: string)
    requires Inv(t, w) && id in w.uploads && id in w.deleted
    ensures StillDeleted(w, Apply(t, w, step), id)
  {
    assert UploadInv(t, w, id);
    if Enabled(t, w, step) && (step.PutOriginal? || step.PutThumbnail?) {
      assert UploadInv(t, w, step.id);
      var put := RefOf(w.uploads[step.id].asset, step.PutThumbnail?);
      if Owns(w.uploads[id].asset, put) {
        OwnersAreUnique(w.uploads[id].asset, w.uploads[step.id].asset, put);
      }
    }
  }

  lemma {:induction false} RunKeepsDeleted(t: Timing, w: World, steps: seq<Step>, id: string)
    requires Inv(t, w) && 0 <= t.bound <= t.grace && id in w.uploads && id in w.deleted
    ensures StillDeleted(w, Run(t, w, steps), id)
    decreases steps
  {
    if steps != [] {
      StepKeepsDeleted(t, w, steps[0], id);
      StepKeepsInv(t, w, steps[0]);
      RunKeepsDeleted(t, Apply(t, w, steps[0]), steps[1..], id);
    }
  }

  datatype PurgeResult = PurgeResult(processed: nat, purged: nat, failed: nat)

  /** Rows of the tenant soft-deleted before the cutoff and not yet purged, by deletion time. */
  function PurgeCandidates(w: World, tenant: string, cutoff: int): map<string, int> {
    map id | id in w.deleted && id in w.uploads && w.uploads[id].asset.tenant == tenant
             && w.deleted[id] < cutoff && id !in w.purged :: w.deleted[id]
  }

  /** A row of the tenant that has been deleted before the cutoff and is not marked as purged. */
  predicate DueForPurge(w: World, tenant: string, cutoff: int, id: string) {
    && id in w.uploads && w.uploads[id].asset.tenant == tenant
    && id in w.deleted && w.deleted[id] < cutoff && id !in w.purged
  }

  ghost function Elements(ids: seq<string>): set<string> {
    set x | x in ids
  }

  /** A command that has failed: the removal of one object of an asset, or the mark of its row. */
  datatype Failure = RemovalFailed(id: string, thumbnail: bool) | MarkFailed(id: string)

  /** What is still there of an asset are objects whose removal is among the failures. */
  predicate LeftByFailures(w: World, id: string, failures: seq<Failure>)
    requires id in w.uploads
  {
    forall thumbnail :: RefOf(w.uploads[id].asset, thumbnail) in w.objects ==> RemovalFailed(id, thumbnail) in failures
  }

  /** A command for this asset is among the failures. */
  predicate HasFailed(failures: seq<Failure>, id: string) {
    exists i :: 0 <= i < |failures| && failures[i].id == id
  }

  /** The first n of the ids in turn: each has been purged, or else one of its own commands has failed. */
  ghost predicate Tally(rows: set<string>, ids: seq<string>, n: nat, purged: seq<string>, failures: seq<Failure>)
    requires n <= |ids|
  {
    if n == 0 then purged == [] && failures == []
    else
      || (purged != [] && purged[|purged| - 1] == ids[n - 1] && ids[n - 1] in rows
          && Tally(rows, ids, n - 1, purged[..|purged| - 1], failures))
      || (failures != [] && failures[|failures| - 1].id == ids[n - 1]
          && Tally(rows, ids, n - 1, purged, failures[..|failures| - 1]))
  }

  /** So they are counted right, and none is left out after a failure. */
  lemma {:induction false} TallyMeans(rows: set<string>, ids: seq<string>, n: nat, purged: seq<string>,
      failures: seq<Failure>)
    requires n <= |ids| && Tally(rows, ids, n, purged, failures)
    ensures |purged| + |failures| == n
    ensures forall i :: 0 <= i < |purged| ==> purged[i] in rows && purged[i] in ids
    ensures forall i :: 0 <= i < n ==> Tried(ids[i], purged, failures)
  {
    if n > 0 {
      if purged != [] && purged[|purged| - 1] == ids[n - 1] && ids[n - 1] in rows
         && Tally(rows, ids, n - 1, purged[..|purged| - 1], failures) {
        TallyMeans(rows, ids, n - 1, purged[..|purged| - 1], failures);
        StillTried(ids, n - 1, purged[..|purged| - 1], failures, purged, failures);
        forall i | 0 <= i < |purged| ensures purged[i] in rows && purged[i] in ids {
          if i < |purged| - 1 {
            assert purged[i] == purged[..|purged| - 1][i];
          }
        }
      } else {
        var k := |failures| - 1;
        TallyMeans(rows, ids, n - 1, purged, failures[..k]);
        StillTried(ids, n - 1, purged, failures[..k], purged, failures);
        assert failures[k].id == ids[n - 1];
      }
    }
  }

  predicate Tried(id: string, purged: seq<string>, failures: seq<Failure>) {
    id in purged || HasFailed(failures, id)
  }

  lemma StillTried(ids: seq<string>, n: nat, purged: seq<string>, failures: seq<Failure>, purged': seq<string>,
      failures': seq<Failure>)
    requires n <= |ids| && purged <= purged' && failures <= failures'
    requires forall i :: 0 <= i < n ==> Tried(ids[i], purged, failures)
    ensures forall i :: 0 <= i < n ==> Tried(ids[i], purged', failures')
  {
    forall i | 0 <= i < n ensures Tried(ids[i], purged', failures') {
      assert Tried(ids[i], purged, failures);
      if ids[i] in purged {
        var k :| 0 <= k < |purged| && purged[k] == ids[i];
        assert purged'[k] == ids[i];
      } else {
        var k :| 0 <= k < |failures| && failures[k].id == ids[i];
        assert failures'[k].id == ids[i];
      }
    }
  }

  /** What is purged stays so. */
  lemma {:induction false} TallyStays(rows: set<string>, later: set<string>, ids: seq<string>, n: nat,
      purged: seq<string>, failures: seq<Failure>)
    requires n <= |ids| && Tally(rows, ids, n, purged, failures) && forall id :: id in purged ==> id in later
    ensures Tally(later, ids, n, purged, failures)
  {
    if n > 0 {
      if purged != [] && purged[|purged| - 1] == ids[n - 1]
        && Tally(rows, ids, n - 1, purged[..|purged| - 1], failures) {
        TallyStays(rows, later, ids, n - 1, purged[..|purged| - 1], failures);
      } else {
        TallyStays(rows, later, ids, n - 1, purged, failures[..|failures| - 1]);
      }
    }
  }

  lemma ElementsSnoc(ids: seq<string>, id: string)
    ensures Elements(ids + [id]) == Elements(ids) + {id}
  {
  }

  /** The rows of all the ids are soft-deleted. */
  predicate AllDeleted(w: World, ids: seq<string>) {
    forall i :: 0 <= i < |ids| ==> ids[i] in w.uploads && ids[i] in w.deleted
  }

  ghost predicate AllStillDeleted(w: World, v: World) {
    forall id :: id in w.uploads && id in w.deleted ==> StillDeleted(w, v, id)
  }

  lemma StillAllDeleted(w: World, v: World, ids: seq<string>)
    requires AllDeleted(w, ids) && AllStillDeleted(w, v)
    ensures AllDeleted(v, ids)
  {
    forall i | 0 <= i < |ids| ensures ids[i] in v.uploads && ids[i] in v.deleted {
      assert StillDeleted(w, v, ids[i]);
    }
  }

  lemma StillPurged(w: World, v: World, ids: seq<string>, id: string)
    requires AllDeleted(w, ids) && AllStillDeleted(w, v) && id in ids && id in w.purged
    ensures id in v.purged
  {
    assert StillDeleted(w, v, id);
  }

  lemma SinceGrows(first: seq<Failure>, before: seq<Failure>, after: seq<Failure>)
    requires first <= before <= after && |after| <= |before| + 1
    ensures after[|first|..] == before[|first|..] + if after == before then [] else [after[|after| - 1]]
  {
    assert |after| == |before| ==> after == before;
  }

  lemma OnePurged(before: set<string>, after: set<string>, ids: seq<string>, n: nat, purged: seq<string>,
      failures: seq<Failure>)
    requires n < |ids| && Tally(before, ids, n, purged, failures)
    requires ids[n] in after && forall id :: id in purged ==> id in after
    ensures Tally(after, ids, n + 1, purged + [ids[n]], failures)
  {
    TallyStays(before, after, ids, n, purged, failures);
    assert (purged + [ids[n]])[..|purged|] == purged;
  }

  lemma OneFailed(before: set<string>, after: set<string>, ids: seq<string>, n: nat, purged: seq<string>,
      failures: seq<Failure>, f: Failure)
    requires n < |ids| && Tally(before, ids, n, purged, failures) && f.id == ids[n]
    requires forall id :: id in purged ==> id in after
    ensures Tally(after, ids, n + 1, purged, failures + [f])
  {
    TallyStays(before, after, ids, n, purged, failures);
    assert (failures + [f])[..|failures|] == failures;
  }

  class Service {
    const t: Timing
    var w: World
    var others: seq<seq<Step>>
    /** How the commands to come go; when all is used up, well. */
    var luck: seq<bool>
    /** The removals and marks that have failed, in order. */
    ghost var failures: seq<Failure>

    ghost predicate Valid()
      reads this
    {
      0 <= t.bound <= t.grace && Inv(t, w)
    }

    /** The others work on other uploads. */
    ghost predicate ForeignOthers(id: string)
      reads this`others
    {
      forall i, j :: 0 <= i < |others| && 0 <= j < |others[i]| ==> Foreign(others[i][j], id)
    }

    constructor (t: Timing, w: World, others: seq<seq<Step>>, luck: seq<bool>)
      requires 0 <= t.bound <= t.grace && Inv(t, w)
      ensures Valid() && this.t == t && this.w == w && this.others == others && this.luck == luck && failures == []
    {
      this.t, this.w, this.others, this.luck, failures := t, w, others, luck, [];
    }

    method Lucky() returns (lucky: bool)
      modifies this`luck
      ensures lucky == Next(old(luck)) && luck == Later(old(luck))
    {
      lucky := true;
      if luck != [] {
        lucky, luck := luck[0], luck[1..];
      }
    }

    method Interfere()
      requires Valid()
      modifies this`w, this`others
      ensures Valid() && (old(others) == [] ==> others == [] && w == old(w))
      ensures forall id :: old(ForeignOthers(id)) ==>
        ForeignOthers(id) && (id in old(w).uploads ==> Undisturbed(old(w), w, id))
      ensures AllStillDeleted(old(w), w)
      ensures old(others) != [] ==> w == Run(t, old(w), old(others)[0]) && others == old(others)[1..]
    {
      if others != [] {
        var steps := others[0];
        forall id | ForeignOthers(id) && id in w.uploads ensures Undisturbed(w, Run(t, w, steps), id) {
          ForeignRunDisturbsNothing(t, w, steps, id);
        }
        forall id | id in w.uploads && id in w.deleted ensures StillDeleted(w, Run(t, w, steps), id) {
          RunKeepsDeleted(t, w, steps, id);
        }
        RunKeepsInv(t, w, steps);
        w := Run(t, w, steps);
        others := others[1..];
        assert forall i :: 0 <= i < |others| ==> others[i] == old(others)[i + 1];
      }
    }

    method Perform(step: Step)
      requires Valid() && Enabled(t, w, step)
      modifies this`w
      ensures Valid() && w == Apply(t, old(w), step)
    {
      StepKeepsInv(t, w, step);
      w := Apply(t, w, step);
    }

    /** `RemoveObject` for one object of an upload that has been given up. */
    method RemoveUploadedObject(id: string, thumbnail: bool) returns (ok: bool)
      requires Valid() && ForeignOthers(id) && id in w.uploads && w.uploads[id].phase == GivenUp
      modifies this
      ensures Valid() && ForeignOthers(id) && Undisturbed(old(w), w, id)
      ensures ok ==> RefOf(w.uploads[id].asset, thumbnail) !in w.objects
      ensures failures == old(failures) + if ok then [] else [RemovalFailed(id, thumbnail)]
      ensures ok == Next(old(luck)) && luck == Later(old(luck))
    {
      Interfere();
      ok := Lucky();
      if ok {
        Perform(RemoveOwn(id, thumbnail));
      } else {
        failures := failures + [RemovalFailed(id, thumbnail)];
      }
    }

    /** Removes both objects of an upload that has been given up; tries the second even if the
        first cannot be removed. What is left is what could not be removed. */
    method CleanupUploadedObjects(id: string) returns (clean: bool)
      requires Valid() && ForeignOthers(id) && id in w.uploads && w.uploads[id].phase == GivenUp
      modifies this
      ensures Valid() && id in w.uploads && w.uploads[id] == old(w).uploads[id]
      ensures old(failures) <= failures && LeftByFailures(w, id, failures[|old(failures)|..])
      ensures clean <==> failures == old(failures)
      ensures clean ==> ObjectsGone(w, w.uploads[id].asset)
      ensures clean <==> AllWell(old(luck), 2)
    {
      var first := RemoveUploadedObject(id, false);
      var second := RemoveUploadedObject(id, true);
      clean := first && second;
      TwoWell(old(luck));
      assert !first ==> failures[|old(failures)|] == RemovalFailed(id, false);
      assert !second ==> failures[|failures| - 1] == RemovalFailed(id, true);
    }

    /** The upload is given up and its objects are removed, as far as that works. */
    method Fail(id: string) returns (clean: bool)
      requires Valid() && ForeignOthers(id) && IsActive(w, id)
      modifies this
      ensures Valid() && id in w.uploads && w.uploads[id].phase == GivenUp
      ensures w.uploads[id].asset == old(w).uploads[id].asset
      ensures old(failures) <= failures && LeftByFailures(w, id, failures[|old(failures)|..])
      ensures clean <==> failures == old(failures)
      ensures clean ==> ObjectsGone(w, w.uploads[id].asset)
      ensures clean <==> AllWell(old(luck), 2)
    {
      Perform(GiveUp(id));
      clean := CleanupUploadedObjects(id);
    }

    /** An upload commits its row with both objects in place, if its five commands go well, or fails
        and leaves no row; then every object it leaves is one whose removal has failed too. */
    method UploadAsset(a: Asset) returns (ok: bool, clean: bool)
      requires Valid() && ForeignOthers(a.id) && ProperAsset(a) && !a.generated && Fresh(w, a)
      modifies this
      ensures Valid()
      ensures ok <==> AllWell(old(luck), 5)
      ensures ok ==>
        a.id in w.uploads && w.uploads[a.id].asset == a && w.uploads[a.id].phase == Committed && Live(w, a.id)
      ensures ok ==> OriginalRef(a) in w.objects && ThumbnailRef(a) in w.objects && HasObjects(w, a.id)
      ensures !ok ==> a.id in w.uploads && w.uploads[a.id].phase == GivenUp && w.uploads[a.id].asset == a
      ensures old(failures) <= failures && (!ok ==> LeftByFailures(w, a.id, failures[|old(failures)|..]))
      ensures clean <==> failures == old(failures)
      ensures !ok && clean ==> ObjectsGone(w, a)
    {
      FiveWell(luck);
      Perform(Begin(a));
      var prepared := PrepareUpload();
      if !prepared {
        Perform(GiveUp(a.id));
        return false, true;
      }
      var originalPut := PutOriginalObject(a.id);
      if !originalPut {
        return false, true;
      }
      ok, clean := PutThumbnailAndCommit(a.id);
    }

    /** The quota reservation and the making of the thumbnail. */
    method PrepareUpload() returns (ok: bool)
      modifies this`luck
      ensures ok <==> AllWell(old(luck), 2)
      ensures ok ==> luck == Later(Later(old(luck)))
    {
      ok := Lucky();
      if ok {
        ok := Lucky();
      }
      TwoWell(old(luck));
    }

    /** A failing put of the original ends the upload with nothing to clean up. */
    method PutOriginalObject(id: string) returns (ok: bool)
      requires Valid() && ForeignOthers(id) && IsActive(w, id) && w.uploads[id].firstPut.None?
      requires ObjectsGone(w, w.uploads[id].asset)
      modifies this`w, this`others, this`luck
      ensures Valid() && ForeignOthers(id) && id in w.uploads && w.uploads[id].asset == old(w).uploads[id].asset
      ensures ok == Next(old(luck)) && luck == Later(old(luck))
      ensures ok ==> IsActive(w, id) && w.uploads[id].firstPut.Some?
      ensures !ok ==> w.uploads[id].phase == GivenUp && ObjectsGone(w, w.uploads[id].asset)
    {
      Interfere();
      ok := Lucky();
      Perform(if ok then PutOriginal(id) else GiveUp(id));
    }

    method PutThumbnailAndCommit(id: string) returns (ok: bool, clean: bool)
      requires Valid() && ForeignOthers(id) && IsActive(w, id) && w.uploads[id].firstPut.Some?
      modifies this
      ensures Valid() && id in w.uploads && w.uploads[id].asset == old(w).uploads[id].asset
      ensures ok <==> AllWell(old(luck), 2)
      ensures ok ==> Live(w, id) && HasObjects(w, id)
      ensures old(failures) <= failures && (clean <==> failures == old(failures))
      ensures !ok ==> w.uploads[id].phase == GivenUp && LeftByFailures(w, id, failures[|old(failures)|..])
      ensures !ok && clean ==> ObjectsGone(w, w.uploads[id].asset)
    {
      TwoWell(luck);
      Interfere();
      ok := Lucky();
      if ok {
        Perform(PutThumbnail(id));
        ok, clean := CommitUpload(id);
      } else {
        clean := Fail(id);
      }
    }

    method CommitUpload(id: string) returns (ok: bool, clean: bool)
      requires Valid() && ForeignOthers(id) && IsActive(w, id) && w.uploads[id].thumbPut
      modifies this
      ensures Valid() && id in w.uploads && w.uploads[id].asset == old(w).uploads[id].asset
      ensures ok <==> Next(old(luck))
      ensures ok ==> Live(w, id) && HasObjects(w, id)
      ensures old(failures) <= failures && (clean <==> failures == old(failures))
      ensures !ok ==> w.uploads[id].phase == GivenUp && LeftByFailures(w, id, failures[|old(failures)|..])
      ensures !ok && clean ==> ObjectsGone(w, w.uploads[id].asset)
    {
      Interfere();
      ok := Lucky();
      if ok {
        CommittedIsLive(t, w, id);
        Perform(Commit(id));
        clean := true;
      } else {
        clean := Fail(id);
      }
    }

    /** Soft-deletes the row, if it is there and not deleted already. */
    method DeleteAsset(id: string) returns (ok: bool)
      requires Valid()
      modifies this`w, this`others, this`luck
      ensures Valid()
      ensures ok ==> id in w.uploads && id in w.deleted && !Live(w, id)
      ensures old(others) == [] ==> (ok <==> Live(old(w), id) && Next(old(luck)))
      ensures old(others) == [] ==> w == if ok then old(w).(deleted := old(w).deleted[id := old(w).now]) else old(w)
    {
      Interfere();
      ok := Lucky();
      if !Live(w, id) {
        return false;
      }
      if ok {
        Perform(SoftDelete(id));
      }
    }

    method RemoveObjectIfPresent(id: string, thumbnail: bool) returns (ok: bool)
      requires Valid() && id in w.uploads && id in w.deleted
      modifies this
      ensures Valid() && AllStillDeleted(old(w), w)
      ensures ok ==> RefOf(old(w).uploads[id].asset, thumbnail) !in w.objects
      ensures ok == Next(old(luck)) && luck == Later(old(luck))
      ensures failures == old(failures) + if ok then [] else [RemovalFailed(id, thumbnail)]
      ensures old(others) == [] ==> others == []
      ensures old(others) == [] ==>
        w == old(w).(objects := if ok then old(w).objects - {RefOf(old(w).uploads[id].asset, thumbnail)}
          else old(w).objects)
    {
      Interfere();
      ok := Lucky();
      if ok {
        ghost var before := w;
        assert UploadInv(t, w, id);
        Perform(PurgeObject(id, thumbnail));
        forall other | other in before.uploads && other in before.deleted ensures StillDeleted(before, w, other) {
          StepKeepsDeleted(t, before, PurgeObject(id, thumbnail), other);
        }
      } else {
        failures := failures + [RemovalFailed(id, thumbnail)];
      }
    }

    /** The transaction that marks the row: it finds none if another worker has done so. */
    method MarkAssetPurged(id: string) returns (ok: bool)
      requires Valid() && id in w.uploads && id in w.deleted && ObjectsGone(w, w.uploads[id].asset)
      modifies this
      ensures Valid() && AllStillDeleted(old(w), w)
      ensures ok ==> id in w.purged && Next(old(luck))
      ensures luck == Later(old(luck))
      ensures failures == old(failures) + if ok then [] else [MarkFailed(id)]
      ensures old(others) == [] ==>
        others == [] && w == old(w).(purged := if ok then old(w).purged + {id} else old(w).purged)
      ensures old(others) == [] ==> (ok <==> Next(old(luck)) && id !in old(w).purged)
    {
      Interfere();
      ok := Lucky();
      if ok && id in w.purged {
        ok := false;
      }
      if ok {
        ghost var before := w;
        Perform(MarkPurged(id));
        forall other | other in before.uploads && other in before.deleted ensures StillDeleted(before, w, other) {
          StepKeepsDeleted(t, before, MarkPurged(id), other);
        }
      } else {
        failures := failures + [MarkFailed(id)];
      }
    }

    /** Removes what is left of a deleted row, then marks it; never the mark with an object left. It
        ends at the first of the three that fails. */
    method PurgeCandidate(id: string) returns (ok: bool)
      requires Valid() && id in w.uploads && id in w.deleted
      modifies this
      ensures Valid() && AllStillDeleted(old(w), w)
      ensures ok ==> id in w.purged && ObjectsGone(w, w.uploads[id].asset)
      ensures old(failures) <= failures && |failures| == |old(failures)| + if ok then 0 else 1
      ensures !ok ==> failures[|failures| - 1].id == id
      ensures old(others) == [] ==> others == [] && w.deleted == old(w).deleted && w.uploads == old(w).uploads
      ensures old(others) == [] ==> w.purged == if ok then old(w).purged + {id} else old(w).purged
      ensures old(others) == [] ==> (ok <==> AllWell(old(luck), 3) && id !in old(w).purged)
      ensures old(luck) == [] ==> luck == []
    {
      ThreeWell(luck);
      ok := RemoveObjectIfPresent(id, false);
      if ok {
        ok := RemoveObjectIfPresent(id, true);
      }
      if ok {
        ok := MarkAssetPurged(id);
        assert ok ==> UploadInv(t, w, id);
      }
    }

    /** One candidate, whatever became of those before it; `since` failures are older. */
    method PurgeOne(ids: seq<string>, i: nat, ghost purged: seq<string>, ghost since: nat) returns (done: bool)
      requires Valid() && AllDeleted(w, ids) && i < |ids|
      requires since <= |failures| && Tally(w.purged, ids, i, purged, failures[since..])
      modifies this
      ensures Valid() && AllDeleted(w, ids) && old(failures) <= failures
      ensures |failures| == |old(failures)| + if done then 0 else 1
      ensures Tally(w.purged, ids, i + 1, if done then purged + [ids[i]] else purged, failures[since..])
      ensures old(others) == [] ==> others == [] && w.deleted == old(w).deleted && w.uploads == old(w).uploads
      ensures old(others) == [] ==> w.purged == if done then old(w).purged + {ids[i]} else old(w).purged
      ensures old(others) == [] && old(luck) == [] ==> luck == [] && (done <==> ids[i] !in old(w).purged)
    {
      ghost var before, rows := failures, w.purged;
      NoBadLuck(3);
      TallyMeans(w.purged, ids, i, purged, failures[since..]);
      done := PurgeCandidate(ids[i]);
      StillAllDeleted(old(w), w, ids);
      forall id | id in purged ensures id in w.purged {
        StillPurged(old(w), w, ids, id);
      }
      SinceGrows(before[..since], before, failures);
      assert before[..since] + before[since..] == before;
      if done {
        OnePurged(rows, w.purged, ids, i, purged, before[since..]);
      } else {
        OneFailed(rows, w.purged, ids, i, purged, before[since..], failures[|failures| - 1]);
      }
    }

    /** One more candidate is counted; `rows` were purged before the first. `alone` says that there are
        no other workers, `quiet` that nothing can fail either. */
    method PurgeNext(ids: seq<string>, i: nat, failed: nat, ghost purged: seq<string>, ghost since: nat,
                     ghost rows: set<string>, ghost alone: bool, ghost quiet: bool)
      returns (failed': nat, ghost purged': seq<string>)
      requires Valid() && AllDeleted(w, ids) && i < |ids|
      requires since <= |failures| && Tally(w.purged, ids, i, purged, failures[since..])
      requires alone ==> others == [] && w.purged == rows + Elements(purged)
      requires quiet ==> alone && luck == [] && purged == ids[..i] && ids[i] !in rows && ids[i] !in ids[..i]
      modifies this
      ensures Valid() && AllDeleted(w, ids) && old(failures) <= failures
      ensures |failures| == |old(failures)| + failed' - failed
      ensures Tally(w.purged, ids, i + 1, purged', failures[since..])
      ensures old(others) == [] ==> others == [] && w.deleted == old(w).deleted && w.uploads == old(w).uploads
      ensures alone ==> w.purged == rows + Elements(purged')
      ensures quiet ==> luck == [] && failed' == failed && purged' == ids[..i + 1]
    {
      failed', purged' := failed, purged;
      var done := PurgeOne(ids, i, purged, since);
      if done {
        ElementsSnoc(purged, ids[i]);
        purged' := purged + [ids[i]];
      } else {
        failed' := failed + 1;
      }
    }

    /** Every candidate is tried, also after one that fails: it is purged, or one of its own
        commands has failed. */
    method PurgeAll(ids: seq<string>) returns (failed: nat, ghost purged: seq<string>)
      requires Valid() && AllDeleted(w, ids)
      requires forall i, j :: 0 <= i < j < |ids| ==> ids[i] != ids[j]
      modifies this
      ensures Valid()
      ensures old(failures) <= failures && failed == |failures| - |old(failures)|
      ensures Tally(w.purged, ids, |ids|, purged, failures[|old(failures)|..])
      ensures old(others) == [] ==> w.deleted == old(w).deleted && w.uploads == old(w).uploads
      ensures old(others) == [] ==> w.purged == old(w).purged + Elements(purged)
      ensures old(others) == [] && old(luck) == [] && (forall i :: 0 <= i < |ids| ==> ids[i] !in old(w).purged) ==>
        failed == 0 && purged == ids
    {
      failed, purged := 0, [];
      ghost var quiet := old(others) == [] && old(luck) == [] && forall i :: 0 <= i < |ids| ==> ids[i] !in w.purged;
      for i := 0 to |ids|
        invariant Valid() && AllDeleted(w, ids)
        invariant old(failures) <= failures && failed == |failures| - |old(failures)|
        invariant Tally(w.purged, ids, i, purged, failures[|old(failures)|..])
        invariant old(others) == [] ==> others == [] && w.deleted == old(w).deleted && w.uploads == old(w).uploads
        invariant old(others) == [] ==> w.purged == old(w).purged + Elements(purged)
        invariant quiet ==> luck == [] && failed == 0 && purged == ids[..i]
      {
        failed, purged := PurgeNext(ids, i, failed, purged, |old(failures)|, old(w).purged, old(others) == [], quiet);
      }
      assert ids[..|ids|] == ids;
    }

    /** One batch of purges: what was deleted longest ago first, each row by itself, so that one
        that fails does not keep the others from being purged. */
    method PurgeDeletedAssets(tenant: string, cutoff: int, batchLimit: int)
      returns (result: PurgeResult, ok: bool, ghost batch: seq<string>, ghost purged: seq<string>)
      requires Valid()
      modifies this
      ensures Valid()
      ensures EarliestFirst.Selected(PurgeCandidates(old(w), tenant, cutoff), cutoff,
        NormalizePurgeLimit(batchLimit), batch)
      ensures forall i :: 0 <= i < |batch| ==> DueForPurge(old(w), tenant, cutoff, batch[i])
      ensures |batch| <= (if 1 <= batchLimit <= 1000 then batchLimit else if batchLimit <= 0 then 100 else 1000)
      ensures |batch| < (if 1 <= batchLimit <= 1000 then batchLimit else if batchLimit <= 0 then 100 else 1000) ==>
        forall id :: DueForPurge(old(w), tenant, cutoff, id) ==> id in batch
      ensures result.processed == |batch| && result.purged == |purged| && result.failed == |batch| - |purged|
      ensures ok <==> result.failed == 0
      ensures forall i :: 0 <= i < |purged| ==> purged[i] in w.uploads && ObjectsGone(w, w.uploads[purged[i]].asset)
      ensures old(failures) <= failures && |failures| == |old(failures)| + result.failed
      ensures Tally(w.purged, batch, |batch|, purged, failures[|old(failures)|..])
      ensures old(others) == [] ==> w.purged == old(w).purged + Elements(purged)
      ensures old(others) == [] && old(luck) == [] ==> ok
      ensures old(others) == [] && old(luck) == [] && result.processed < NormalizePurgeLimit(batchLimit) ==>
        PurgeCandidates(w, tenant, cutoff) == map[]
    {
      var candidates := PurgeCandidates(w, tenant, cutoff);
      var ids := EarliestFirst.Ids(candidates, cutoff, NormalizePurgeLimit(batchLimit));
      batch := ids;
      var failed;
      failed, purged := PurgeAll(ids);
      TallyMeans(w.purged, ids, |ids|, purged, failures[|old(failures)|..]);
      result := PurgeResult(|ids|, |ids| - failed, failed);
      forall i | 0 <= i < |purged| ensures purged[i] in w.uploads && ObjectsGone(w, w.uploads[purged[i]].asset) {
        assert UploadInv(t, w, purged[i]);
      }
      ok := failed == 0;
    }
  }
}
