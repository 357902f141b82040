/** The ids that are due, earliest first and limited in number: what a sorted set answers to a
    range query by score, and a table to a limited query in order of a time column. */
module EarliestFirst {
  lemma {:induction false} EarliestExists(times: map<string, int>, ids: set<string>)
    requires ids != {} && ids <= times.Keys
    ensures exists x :: x in ids && forall y :: y in ids ==> times[x] <= times[y]
  {
    var x :| x in ids;
    if ids - {x} != {} {
      EarliestExists(times, ids - {x});
      var z :| z in ids - {x} && forall y :: y in ids - {x} ==> times[z] <= times[y];
      var best := if times[x] <= times[z] then x else z;
      assert forall y :: y in ids ==> y == x || y in ids - {x};
      assert best in ids && forall y :: y in ids ==> times[best] <= times[y];
    } else {
      assert forall y :: y in ids ==> y == x || y in ids - {x};
    }
  }

  /** The ids, each once, by due time, with what is left not due before any of them. */
  ghost predicate DueInOrder(times: map<string, int>, ids: seq<string>, left: set<string>, now: int) {
    && (forall x :: x in times && times[x] <= now <==> x in left || x in ids)
    && (forall i :: 0 <= i < |ids| ==> ids[i] in times && ids[i] !in left)
    && (forall i, j :: 0 <= i < j < |ids| ==> ids[i] != ids[j] && times[ids[i]] <= times[ids[j]])
    && (forall x, i :: x in left && 0 <= i < |ids| ==> times[ids[i]] <= times[x])
  }

  lemma NextDue(times: map<string, int>, ids: seq<string>, left: set<string>, now: int, next: string)
    requires DueInOrder(times, ids, left, now) && left <= times.Keys
    requires next in left && forall y :: y in left ==> times[next] <= times[y]
    ensures DueInOrder(times, ids + [next], left - {next}, now)
  {
  }

  /** At most `limit` of the ids due at `now`, each once, in order of time, none left out before one
      that is taken, and none at all below the limit. */
  ghost predicate Selected(times: map<string, int>, now: int, limit: nat, ids: seq<string>) {
    && |ids| <= limit
    && (forall i :: 0 <= i < |ids| ==> ids[i] in times && times[ids[i]] <= now)
    && (forall i, j :: 0 <= i < j < |ids| ==> ids[i] != ids[j] && times[ids[i]] <= times[ids[j]])
    && (|ids| < limit ==> forall x :: x in times && times[x] <= now ==> x in ids)
    && (forall x, i :: x in times && x !in ids && 0 <= i < |ids| ==> times[ids[i]] <= times[x])
  }

  /** The ids due at `now`, earliest first, at most `limit` of them. */
  method Ids(times: map<string, int>, now: int, limit: nat) returns (ids: seq<string>)
    ensures Selected(times, now, limit, ids)
  {
    ids := [];
    var left := set x | x in times && times[x] <= now;
    while |ids| < limit && left != {}
      invariant |ids| <= limit && left <= times.Keys
      invariant DueInOrder(times, ids, left, now)
      decreases left
    {
      EarliestExists(times, left);
      var next :| next in left && forall y :: y in left ==> times[next] <= times[y];
      NextDue(times, ids, left, now, next);
      ids, left := ids + [next], left - {next};
    }
  }
}
