/** Without new requests the queue drains: a bound on every run, and no dead end before it is empty. */
module Drain {
  import opened Outcome
  import opened Jobs
  import opened JobSafety
  import opened Requests

  /** Three points for every attempt left, refined by how far the current attempt has come. */
  function Weight(row: Row): int {
    if row.status.Waiting() then 3 * (row.maxAttempts - row.attempts) + 2
    else if row.status.Running? then 3 * (row.maxAttempts - row.attempts) + 1
    else if row.status.Cancelling? then 3 * (row.maxAttempts - row.attempts)
    else 0
  }

  function Total(t: Table): int {
    if t == [] then 0 else Total(t[..|t| - 1]) + Weight(t[|t| - 1])
  }

  /** Events that make progress: no new request, no recovery of another owner's lease, no mere bookkeeping. */
  ghost predicate Works(t: Table, e: Event, key: string -> string) {
    && Enabled(t, e, key)
    && match e
       case Claim(_, _, _) => true
       case Complete(_) => true
       case Fail(_) => true
       case MarkCancelled(_) => true
       case Reclaim(_, foreign) => !foreign
       case RequestCancel(id) => Stops(t, e, id)
       case CancelAll => exists id: JobId :: Stops(t, e, id)
       case _ => false
  }

  lemma {:induction false} TotalUpdate(t: Table, id: JobId, row: Row)
    requires id < |t|
    ensures Total(t[id := row]) == Total(t) - Weight(t[id]) + Weight(row)
  {
    var last := |t| - 1;
    if id == last {
      assert t[id := row][..last] == t[..last];
    } else {
      assert t[id := row][..last] == t[..last][id := row];
      TotalUpdate(t[..last], id, row);
    }
  }

  /** Replacing rows by no heavier ones, at least one of them lighter, lightens the table. */
  lemma {:induction false} TotalShrinks(t: Table, t': Table)
    requires |t'| == |t| && forall i :: 0 <= i < |t| ==> Weight(t'[i]) <= Weight(t[i])
    ensures Total(t') <= Total(t)
    ensures (exists i :: 0 <= i < |t| && Weight(t'[i]) < Weight(t[i])) ==> Total(t') < Total(t)
  {
    if t != [] {
      TotalShrinks(t[..|t| - 1], t'[..|t| - 1]);
      forall i | 0 <= i < |t| && Weight(t'[i]) < Weight(t[i])
        ensures Total(t') < Total(t)
      {
        if i < |t| - 1 {
          assert Weight(t'[..|t| - 1][i]) < Weight(t[..|t| - 1][i]);
        }
      }
    }
  }

  lemma {:induction false} TotalNonNegative(t: Table)
    requires AttemptsLeft(t)
    ensures Total(t) >= 0
  {
    if t != [] {
      TotalNonNegative(t[..|t| - 1]);
    }
  }

  lemma RowLightens(t: Table, id: JobId, row: Row)
    requires id < |t| && Weight(row) < Weight(t[id])
    ensures Total(t[id := row]) < Total(t)
  {
    TotalUpdate(t, id, row);
  }

  lemma MergeLightens(t: Table, id: JobId, heir: JobId, attempts: int)
    requires id < |t| && heir < |t| && heir != id && t[id].status.Active() && t[id].attempts < t[id].maxAttempts
    ensures Total(MergeInto(t, id, heir, attempts)) < Total(t)
  {
    var row := t[heir].(work := Merge(t[heir].work, t[id].work));
    assert Weight(row) == Weight(t[heir]);
    TotalUpdate(t, heir, row);
    var merged := t[heir := row];
    RowLightens(merged, id, merged[id].Released(Cancelled, attempts));
  }

  lemma RetryLightens(t: Table, id: JobId, attempts: int)
    requires id < |t| && t[id].status.Leased() && t[id].attempts < t[id].maxAttempts && t[id].attempts < attempts
    ensures Total(t[id := t[id].Released(if attempts >= t[id].maxAttempts then Failed else Queued, attempts)]) < Total(t)
  {
    RowLightens(t, id, t[id].Released(if attempts >= t[id].maxAttempts then Failed else Queued, attempts));
  }

  /** A row whose work moves to a follow-up, or that is retried with an attempt more, gets lighter. */
  lemma ReleasedLightens(t: Table, id: JobId, heir: Option<JobId>, handed: int, t': Table)
    requires id < |t| && t[id].status.Leased() && t[id].attempts < t[id].maxAttempts
    requires match heir
             case Some(h) => h < |t| && h != id && t' == MergeInto(t, id, h, handed)
             case None =>
               var attempts := t[id].attempts + 1;
               t' == t[id := t[id].Released(if attempts >= t[id].maxAttempts then Failed else Queued, attempts)]
    ensures Total(t') < Total(t)
  {
    match heir
    case Some(h) => MergeLightens(t, id, h, handed);
    case None => RetryLightens(t, id, t[id].attempts + 1);
  }

  lemma FailLightens(t: Table, id: JobId)
    requires id < |t| && t[id].status.Leased() && t[id].attempts < t[id].maxAttempts
    ensures Total(FailOrRetry(t, id)) < Total(t)
  {
    ReleasedLightens(t, id, FailHeir(t, id), t[id].attempts + 1, FailOrRetry(t, id));
  }

  lemma ReclaimLightens(t: Table, id: JobId)
    requires id < |t| && t[id].status.Leased() && t[id].attempts < t[id].maxAttempts
    ensures Total(ReclaimRow(t, id, false)) < Total(t)
  {
    ReleasedLightens(t, id, ReclaimHeir(t, id), t[id].attempts, ReclaimRow(t, id, false));
  }

  lemma CancelAllLightens(t: Table, id: JobId)
    requires AttemptsLeft(t) && Stops(t, CancelAll, id)
    ensures Total(Jobs.CancelAll(t)) < Total(t)
  {
    var t' := Jobs.CancelAll(t);
    assert Weight(t'[id]) < Weight(t[id]);
    forall i | 0 <= i < |t|
      ensures Weight(t'[i]) <= Weight(t[i])
    {
      assert t'[i] == CancelRow(t[i]);
    }
    TotalShrinks(t, t');
  }

  lemma StepLightens(t: Table, e: Event, key: string -> string)
    requires AttemptsLeft(t) && Works(t, e, key)
    ensures Total(Apply(t, e)) < Total(t)
  {
    match e
    case CancelAll =>
      var id: JobId :| Stops(t, e, id);
      CancelAllLightens(t, id);
    case Fail(id) => FailLightens(t, id);
    case Reclaim(id, _) => ReclaimLightens(t, id);
    case Claim(id, _, _) => RowLightens(t, id, Apply(t, e)[id]);
    case Complete(id) => RowLightens(t, id, Apply(t, e)[id]);
    case MarkCancelled(id) => RowLightens(t, id, Apply(t, e)[id]);
    case RequestCancel(id) => RowLightens(t, id, Apply(t, e)[id]);
  }

  ghost predicate DrainRun(t: Table, events: seq<Event>, key: string -> string)
    decreases |events|
  {
    events == [] || (Works(t, events[0], key) && DrainRun(Apply(t, events[0]), events[1..], key))
  }

  /** Every drain is finite, and its length is bounded by the table it starts from. */
  lemma {:induction false} DrainIsBounded(t: Table, events: seq<Event>, key: string -> string)
    requires Safe(t, key) && DrainRun(t, events, key)
    ensures |events| <= Total(t)
    decreases |events|
  {
    if events == [] {
      TotalNonNegative(t);
    } else {
      StepLightens(t, events[0], key);
      StepKeepsSafe(t, events[0], key);
      DrainIsBounded(Apply(t, events[0]), events[1..], key);
    }
  }

  /** While any row is active some step is possible, so a drain can only stop with nothing left to do. */
  lemma DrainNeverStuck(t: Table, key: string -> string, owner: string, expires: int)
    requires exists i: JobId :: i < |t| && t[i].status.Active()
    ensures exists e :: Works(t, e, key)
  {
    if i: JobId :| i < |t| && t[i].status.Leased() {
      assert Works(t, Fail(i), key);
    } else {
      var i: JobId :| i < |t| && t[i].status.Active();
      assert Claimable(t, i);
      var first := FirstExists(t, |t|, i);
      assert Works(t, Claim(first, owner, expires), key);
    }
  }

  lemma {:induction false} FirstExists(t: Table, n: nat, some: JobId) returns (first: JobId)
    requires some < n <= |t| && Claimable(t, some)
    ensures first < n && Claimable(t, first)
    ensures forall j: JobId :: j < n && Claimable(t, j) ==> NoLater(t[first], t[j])
  {
    first := n - 1;
    if j: JobId :| j < n - 1 && Claimable(t, j) {
      var rest := FirstExists(t, n - 1, j);
      if !Claimable(t, first) || NoLater(t[rest], t[first]) {
        first := rest;
      }
    } else {
      assert some == n - 1;
    }
  }
}
