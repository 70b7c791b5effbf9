/**
Recovery of abandoned leases (src/scs/indexing/jobs.py:845-978): what a whole pass makes of every row.

At the start of the daemon the pass also takes leases of other owners.  Such a row was interrupted and has not failed,
so it keeps its attempts; a row of the same owner whose lease ran out is charged one.
*/
module LeaseRecovery {
  import opened Outcome
  import opened Jobs
  import opened JobSafety
  import opened MergeLaws

  /** Which leases are abandoned: those past their deadline, and at a restart those of every other owner. */
  lemma StaleExactly(row: Row, r: Recovery)
    ensures r.Stale(row) <==>
            && (row.status == Running || row.status == Cancelling)
            && row.leaseExpires.Some?
            && (row.leaseExpires.value < r.now || r.Foreign(row))
    ensures r.Foreign(row) <==> r.otherOwners && r.owner != None && r.owner != Some("") && row.leaseOwner != r.owner
  {
  }

  /** A waiting row of the same repository takes over the work of `id`. */
  predicate FollowsUp(t: Table, h: JobId, id: JobId) {
    h < |t| && id < |t| && h != id && t[h].repo == t[id].repo && t[h].status.Waiting()
  }

  predicate Unleased(before: Row, after: Row) {
    after == before.(status := after.status, attempts := after.attempts, leaseOwner := None, leaseExpires := None)
  }

  /** A row that was taken back. */
  ghost predicate TakenBack(before: Table, after: Table, id: JobId, foreign: bool)
    requires id < |before| == |after|
  {
    && Unleased(before[id], after[id])
    && (if exists h: JobId :: FollowsUp(before, h, id) then
          after[id].status.Cancelled? && after[id].attempts == before[id].attempts
        else if foreign then
          after[id].status.Queued? && after[id].attempts == before[id].attempts
        else
          && after[id].attempts == before[id].attempts + 1
          && after[id].status == if after[id].attempts >= before[id].maxAttempts then Failed else Queued)
  }

  /** A row that was not taken back: it may inherit work, and otherwise nothing happens to it. */
  ghost predicate LeftWaiting(before: Table, after: Table, ids: seq<JobId>, h: JobId)
    requires h < |before| == |after|
  {
    && after[h] == before[h].(work := after[h].work)
    && after[h].work.Covers(before[h].work)
    && (forall id: JobId :: id in ids && FollowsUp(before, h, id) ==>
          after[h].work.Covers(before[id].work) && after[h].work == Merge(before[h].work, before[id].work))
    && ((forall id: JobId :: id in ids ==> !FollowsUp(before, h, id)) ==> after[h] == before[h])
  }

  /** What a pass over some leased rows makes of the table. */
  ghost predicate Recovered(before: Table, after: Table, ids: seq<JobId>, r: Recovery) {
    && |after| == |before|
    && (forall id: JobId :: id in ids && id < |before| ==> TakenBack(before, after, id, r.Foreign(before[id])))
    && (forall h: JobId :: h < |before| && h !in ids ==> LeftWaiting(before, after, ids, h))
  }

  ghost predicate Leases(t: Table, ids: seq<JobId>) {
    forall id: JobId :: id in ids ==> id < |t| && t[id].status.Leased()
  }

  /** The pass has taken `ids` back and comes to `id`. */
  ghost predicate Passing(before: Table, now: Table, ids: seq<JobId>, r: Recovery, key: string -> string, id: JobId) {
    && Safe(before, key) && Leases(before, ids) && Recovered(before, now, ids, r)
    && id < |before| && before[id].status.Leased() && id !in ids
  }

  /** At most one row of a repository is leased, and at most one waits. */
  lemma OneOfEach(t: Table, key: string -> string, i: JobId, j: JobId)
    requires Safe(t, key) && i < |t| && j < |t| && t[i].repo == t[j].repo
    ensures t[i].status.Leased() && t[j].status.Leased() ==> i == j
    ensures t[i].status.Waiting() && t[j].status.Waiting() ==> i == j
  {
    assert t[i].StoreKey() == t[j].StoreKey();
  }

  /** None of the rows taken back earlier belongs to the same repository. */
  lemma OtherRepositories(before: Table, now: Table, ids: seq<JobId>, r: Recovery, key: string -> string, id: JobId, k: JobId)
    requires Passing(before, now, ids, r, key, id) && k < |before| && before[k].repo == before[id].repo
    ensures k !in ids && |now| == |before|
    ensures now[k].repo == before[k].repo && now[k].status == before[k].status
    ensures k == id ==> now[k] == before[k]
  {
    if k in ids {
      OneOfEach(before, key, k, id);
    }
    assert LeftWaiting(before, now, ids, k);
  }

  lemma SameRepo(before: Table, now: Table, ids: seq<JobId>, r: Recovery, k: JobId)
    requires Recovered(before, now, ids, r) && k < |before|
    ensures k < |now| && now[k].repo == before[k].repo
  {
    if k in ids {
      assert TakenBack(before, now, k, r.Foreign(before[k]));
    } else {
      assert LeftWaiting(before, now, ids, k);
    }
  }

  /** So they do not change who follows up on a later one. */
  lemma SameHeir(before: Table, now: Table, ids: seq<JobId>, r: Recovery, key: string -> string, id: JobId)
    requires Passing(before, now, ids, r, key, id)
    ensures |now| == |before| && now[id] == before[id]
    ensures match ReclaimHeir(now, id)
            case Some(h) => FollowsUp(before, h, id) && h !in ids
            case None => forall h: JobId :: !FollowsUp(before, h, id)
  {
    OtherRepositories(before, now, ids, r, key, id, id);
    match ReclaimHeir(now, id)
    case Some(h) =>
      SameRepo(before, now, ids, r, h);
      OtherRepositories(before, now, ids, r, key, id, h);
    case None =>
      forall h: JobId
        ensures !FollowsUp(before, h, id)
      {
        if FollowsUp(before, h, id) {
          OtherRepositories(before, now, ids, r, key, id, h);
        }
      }
  }

  lemma TakeOneBack(before: Table, now: Table, ids: seq<JobId>, r: Recovery, key: string -> string, id: JobId)
    requires Passing(before, now, ids, r, key, id) && id < |now|
    ensures Recovered(before, ReclaimRow(now, id, r.Foreign(now[id])), ids + [id], r)
  {
    SameHeir(before, now, ids, r, key, id);
    match ReclaimHeir(now, id)
    case Some(h) => HandedOver(before, now, ids, r, key, id, h);
    case None => Retried(before, now, ids, r, key, id);
  }

  lemma Retried(before: Table, now: Table, ids: seq<JobId>, r: Recovery, key: string -> string, id: JobId)
    requires Passing(before, now, ids, r, key, id) && |now| == |before|
    requires now[id] == before[id] && ReclaimHeir(now, id).None? && forall h: JobId :: !FollowsUp(before, h, id)
    ensures Recovered(before, ReclaimRow(now, id, r.Foreign(now[id])), ids + [id], r)
  {
    var after := ReclaimRow(now, id, r.Foreign(now[id]));
    forall k: JobId | k in ids + [id] && k < |before|
      ensures TakenBack(before, after, k, r.Foreign(before[k]))
    {
      if k != id {
        assert TakenBack(before, now, k, r.Foreign(before[k]));
      }
    }
    forall h: JobId | h < |before| && h !in ids + [id]
      ensures LeftWaiting(before, after, ids + [id], h)
    {
      assert LeftWaiting(before, now, ids, h);
    }
  }

  lemma HandedOver(before: Table, now: Table, ids: seq<JobId>, r: Recovery, key: string -> string, id: JobId, h: JobId)
    requires Passing(before, now, ids, r, key, id) && |now| == |before|
    requires now[id] == before[id] && ReclaimHeir(now, id) == Some(h) && FollowsUp(before, h, id) && h !in ids
    ensures Recovered(before, ReclaimRow(now, id, r.Foreign(now[id])), ids + [id], r)
  {
    var after := ReclaimRow(now, id, r.Foreign(now[id]));
    assert LeftWaiting(before, now, ids, h);
    forall k: JobId | k in ids + [id] && k < |before|
      ensures TakenBack(before, after, k, r.Foreign(before[k]))
    {
      if k != id {
        assert TakenBack(before, now, k, r.Foreign(before[k]));
      }
    }
    forall k: JobId | k < |before| && k !in ids + [id]
      ensures LeftWaiting(before, after, ids + [id], k)
    {
      assert LeftWaiting(before, now, ids, k);
      if k == h {
        NoneBefore(before, now, ids, r, key, id, h);
        Inherits(before, now, after, ids, id, h);
      } else if FollowsUp(before, k, id) {
        OneOfEach(before, key, k, h);
      }
    }
  }

  /** A follow-up inherits once: its repository has one leased row. */
  lemma NoneBefore(before: Table, now: Table, ids: seq<JobId>, r: Recovery, key: string -> string, id: JobId, h: JobId)
    requires Passing(before, now, ids, r, key, id) && FollowsUp(before, h, id)
    ensures forall k: JobId :: k in ids ==> !FollowsUp(before, h, k)
  {
    forall k: JobId | k in ids
      ensures !FollowsUp(before, h, k)
    {
      if FollowsUp(before, h, k) {
        OneOfEach(before, key, k, id);
      }
    }
  }

  /** The follow-up covers its own work and what it inherits. */
  lemma Inherits(before: Table, now: Table, after: Table, ids: seq<JobId>, id: JobId, h: JobId)
    requires |before| == |now| == |after| && FollowsUp(before, h, id) && LeftWaiting(before, now, ids, h)
    requires now[id] == before[id] && forall k: JobId :: k in ids ==> !FollowsUp(before, h, k)
    requires after[h] == now[h].(work := Merge(now[h].work, now[id].work))
    ensures LeftWaiting(before, after, ids + [id], h)
  {
    assert id in ids + [id];
    MergeIsUpperBound(before[h].work, before[id].work);
  }

  /** A whole pass over distinct leased rows of a safe table. */
  lemma {:induction false} PassRecovers(t: Table, ids: seq<JobId>, r: Recovery, key: string -> string)
    requires Safe(t, key) && Leases(t, ids)
    requires forall i, j :: 0 <= i < j < |ids| ==> ids[i] != ids[j]
    ensures forall i :: 0 <= i < |ids| ==> ids[i] < |t|
    ensures Recovered(t, ReclaimAll(t, ids, r), ids, r)
  {
    assert forall i :: 0 <= i < |ids| ==> ids[i] in ids;
    if ids != [] {
      var init, id := ids[..|ids| - 1], ids[|ids| - 1];
      assert ids == init + [id];
      PassRecovers(t, init, r, key);
      TakeOneBack(t, ReclaimAll(t, init, r), init, r, key, id);
    } else {
      forall h: JobId | h < |t|
        ensures LeftWaiting(t, t, [], h)
      {
        CoversItself(t[h].work);
      }
    }
  }

  lemma CoversItself(work: Work)
    ensures work.Covers(work)
  {
  }
}
