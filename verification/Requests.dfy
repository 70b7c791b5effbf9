/**
No request is lost by coalescing: over whole runs of the queue, every accepted request is carried by
exactly one row that covers it, and an execution only ever serves requests made before it was claimed.
*/
module Requests {
  import opened Outcome
  import opened Jobs
  import opened JobSafety
  import opened MergeLaws

  /** One accepted request: what was asked, when, and the row that carries it now. */
  datatype Ask = Ask(repo: string, work: Work, at: nat, carrier: JobId)

  /** The queue together with what is remembered about it: last claim and last cancel request of each row. */
  datatype History = History(
    table: Table, clock: nat, asks: seq<Ask>, claimedAt: map<JobId, nat>, stoppedAt: map<JobId, nat>)

  const START := History([], 0, [], map[], map[])

  /** Where the work of the reported row goes when it does not stay with the row. */
  function Move(t: Table, e: Event): (r: Option<(JobId, JobId)>)
    ensures r.Some? ==> r.value.0 < |t| && r.value.1 < |t|
  {
    match e
    case Fail(id) => if id < |t| && FailHeir(t, id).Some? then Some((id, FailHeir(t, id).value)) else None
    case Reclaim(id, _) => if id < |t| && ReclaimHeir(t, id).Some? then Some((id, ReclaimHeir(t, id).value)) else None
    case _ => None
  }

  function Carried(t: Table, e: Event, a: Ask): Ask {
    match Move(t, e)
    case Some((gone, heir)) => if a.carrier == gone then a.(carrier := heir) else a
    case None => a
  }

  function NewAsks(h: History, e: Event): seq<Ask> {
    match e
    case Enqueue(q, now) =>
      (match Jobs.Enqueue(h.table, q, now)
       case Ok(a) => [Ask(q.repo, q.work, h.clock, a.id)]
       case Err(_) => [])
    case _ => []
  }

  predicate Stops(t: Table, e: Event, id: JobId) {
    && id < |t|
    && t[id].status.Active() && !t[id].status.Cancelling?
    && (e == RequestCancel(id) || (e.CancelAll? && !t[id].work.mode.DropIndex?))
  }

  function Next(h: History, e: Event): History {
    History(
      Apply(h.table, e),
      h.clock + 1,
      seq(|h.asks|, i requires 0 <= i < |h.asks| => Carried(h.table, e, h.asks[i])) + NewAsks(h, e),
      if e.Claim? then h.claimedAt[e.id := h.clock] else h.claimedAt,
      map id: JobId | id in h.stoppedAt.Keys + (set i: JobId | i < |h.table| && Stops(h.table, e, i)) ::
        if Stops(h.table, e, id) then h.clock else h.stoppedAt[id])
  }

  /** A deletion request may join a deletion already under way; everything else waits for its own execution. */
  predicate After(times: map<JobId, nat>, a: Ask) {
    a.carrier in times && (a.work.mode.DropIndex? || times[a.carrier] > a.at)
  }

  /**
  The carrier covers the request; if it has been executed, it was claimed after the request; if it
  ended cancelled, somebody asked for that after the request.
  */
  predicate Accounted(h: History, a: Ask) {
    && a.at < h.clock
    && a.carrier < |h.table|
    && var row := h.table[a.carrier];
       && row.repo == a.repo
       && row.work.Covers(a.work)
       && (row.status.Leased() || row.status.Completed? || row.status.Failed? ==> After(h.claimedAt, a))
       && (row.status.Cancelling? || row.status.Cancelled? ==> After(h.stoppedAt, a))
  }

  ghost predicate ClaimsKnown(h: History) {
    forall id: JobId :: id < |h.table| && h.table[id].status.Leased() ==> id in h.claimedAt
  }

  ghost predicate StopsKnown(h: History) {
    forall id: JobId :: id < |h.table| && h.table[id].status.Cancelling? ==> id in h.stoppedAt
  }

  ghost predicate NothingLost(h: History) {
    && (forall i :: 0 <= i < |h.asks| ==> Accounted(h, h.asks[i]))
    && ClaimsKnown(h)
    && StopsKnown(h)
  }

  // ---------------------------------------------------------------- one step

  lemma NewAskAccounted(h: History, e: Event, key: string -> string)
    requires NothingLost(h) && Enabled(h.table, e, key) && NewAsks(h, e) != []
    ensures Accounted(Next(h, e), NewAsks(h, e)[0])
  {
  }

  /** The moves a row makes without a claim or a cancel request. */
  predicate Settles(before: Status, later: Status) {
    || before == later
    || (later.Waiting() && before.Active())
    || (later.Completed? && before.Running?)
    || (later.Failed? && before.Leased())
    || (later.Cancelled? && before.Cancelling?)
  }

  /** The status of a row that keeps its work moves by itself, by a claim, or by a cancel request. */
  ghost predicate Moves(t: Table, e: Event, id: JobId)
    requires id < |t|
  {
    && id < |Apply(t, e)| && Apply(t, e)[id].repo == t[id].repo
    && (|| Settles(t[id].status, Apply(t, e)[id].status)
        || (e.Claim? && e.id == id && Apply(t, e)[id].status.Running?)
        || (Stops(t, e, id) && Apply(t, e)[id].status == if t[id].status.Running? then Cancelling else Cancelled))
  }

  lemma EnqueueMoves(t: Table, q: Request, now: int, id: JobId)
    requires id < |t|
    ensures Moves(t, Enqueue(q, now), id)
  {
  }

  lemma HandOverMoves(t: Table, e: Event, id: JobId, key: string -> string)
    requires id < |t| && Enabled(t, e, key) && (e.Fail? || e.Reclaim?)
    requires Move(t, e).Some? ==> id != Move(t, e).value.0
    ensures Moves(t, e, id)
  {
  }

  lemma RowStep(t: Table, e: Event, id: JobId, key: string -> string)
    requires id < |t| && Enabled(t, e, key)
    requires Move(t, e).Some? ==> id != Move(t, e).value.0
    ensures Moves(t, e, id)
  {
    match e
    case Enqueue(q, now) => EnqueueMoves(t, q, now, id);
    case Fail(_) => HandOverMoves(t, e, id, key);
    case Reclaim(_, _) => HandOverMoves(t, e, id, key);
    case _ =>
  }

  lemma CoverStep(t: Table, e: Event, id: JobId, work: Work)
    requires id < |t| && t[id].work.Covers(work)
    ensures id < |Apply(t, e)| && Apply(t, e)[id].work.Covers(work)
  {
    match e
    case Enqueue(q, now) =>
      if ActiveDeletion(t, q.repo).None? && OtherWaiting(t, q.repo, |t|) == Some(id) {
        MergeIsUpperBound(t[id].work, q.work);
        CoversTransitive(Merge(t[id].work, q.work), t[id].work, work);
      }
    case Fail(f) => MergeCovers(t, e, id, work);
    case Reclaim(f, _) => MergeCovers(t, e, id, work);
    case _ =>
  }

  lemma MergeCovers(t: Table, e: Event, id: JobId, work: Work)
    requires id < |t| && t[id].work.Covers(work) && (e.Fail? || e.Reclaim?)
    ensures Apply(t, e)[id].work.Covers(work)
  {
  }

  /** A row that does not hand its work over keeps accounting for what it carries. */
  lemma StayingAskAccounted(h: History, e: Event, a: Ask, key: string -> string)
    requires Accounted(h, a) && Enabled(h.table, e, key)
    requires Move(h.table, e).Some? ==> a.carrier != Move(h.table, e).value.0
    ensures Accounted(Next(h, e), a)
  {
    RowStep(h.table, e, a.carrier, key);
    CoverStep(h.table, e, a.carrier, a.work);
  }

  /** Work handed to a follow-up is covered by the follow-up, which still waits for its own execution. */
  lemma MovedAskAccounted(h: History, e: Event, a: Ask, key: string -> string)
    requires Accounted(h, a) && Enabled(h.table, e, key)
    requires Move(h.table, e).Some? && a.carrier == Move(h.table, e).value.0
    ensures Accounted(Next(h, e), Carried(h.table, e, a))
  {
  }

  lemma StopRecorded(h: History, e: Event, key: string -> string, id: JobId)
    requires StopsKnown(h) && Enabled(h.table, e, key) && id < |h.table|
    requires Move(h.table, e).Some? ==> id != Move(h.table, e).value.0
    ensures id < |Apply(h.table, e)|
    ensures Apply(h.table, e)[id].status.Cancelling? ==> id in Next(h, e).stoppedAt
  {
    RowStep(h.table, e, id, key);
  }

  lemma ClaimRecorded(h: History, e: Event, key: string -> string, id: JobId)
    requires ClaimsKnown(h) && Enabled(h.table, e, key) && id < |h.table|
    requires Move(h.table, e).Some? ==> id != Move(h.table, e).value.0
    ensures id < |Apply(h.table, e)|
    ensures Apply(h.table, e)[id].status.Leased() ==> id in Next(h, e).claimedAt
  {
    RowStep(h.table, e, id, key);
  }

  /** A row that hands its work over is closed, and a new row waits. */
  lemma OtherRowsAreNotLeased(t: Table, e: Event, id: JobId, key: string -> string)
    requires Enabled(t, e, key) && id < |Apply(t, e)|
    requires id >= |t| || (Move(t, e).Some? && id == Move(t, e).value.0)
    ensures !Apply(t, e)[id].status.Leased()
  {
  }

  lemma StopsRecorded(h: History, e: Event, key: string -> string)
    requires StopsKnown(h) && Enabled(h.table, e, key)
    ensures StopsKnown(Next(h, e))
  {
    forall id: JobId | id < |Apply(h.table, e)| && Apply(h.table, e)[id].status.Cancelling?
      ensures id in Next(h, e).stoppedAt
    {
      if id < |h.table| && (Move(h.table, e).Some? ==> id != Move(h.table, e).value.0) {
        StopRecorded(h, e, key, id);
      } else {
        OtherRowsAreNotLeased(h.table, e, id, key);
      }
    }
  }

  lemma ClaimsRecorded(h: History, e: Event, key: string -> string)
    requires ClaimsKnown(h) && Enabled(h.table, e, key)
    ensures ClaimsKnown(Next(h, e))
  {
    forall id: JobId | id < |Apply(h.table, e)| && Apply(h.table, e)[id].status.Leased()
      ensures id in Next(h, e).claimedAt
    {
      if id < |h.table| && (Move(h.table, e).Some? ==> id != Move(h.table, e).value.0) {
        ClaimRecorded(h, e, key, id);
      } else {
        OtherRowsAreNotLeased(h.table, e, id, key);
      }
    }
  }

  lemma StepLosesNothing(h: History, e: Event, key: string -> string)
    requires NothingLost(h) && Enabled(h.table, e, key)
    ensures NothingLost(Next(h, e))
  {
    var h' := Next(h, e);
    StopsRecorded(h, e, key);
    ClaimsRecorded(h, e, key);
    forall i | 0 <= i < |h'.asks|
      ensures Accounted(h', h'.asks[i])
    {
      if i < |h.asks| {
        var a := h.asks[i];
        if Move(h.table, e).Some? && a.carrier == Move(h.table, e).value.0 {
          MovedAskAccounted(h, e, a, key);
        } else {
          StayingAskAccounted(h, e, a, key);
        }
      } else {
        NewAskAccounted(h, e, key);
      }
    }
  }

  // ---------------------------------------------------------------- whole runs

  function Replay(h: History, events: seq<Event>): History
    decreases |events|
  {
    if events == [] then h else Replay(Next(h, events[0]), events[1..])
  }

  /** In every run from the empty queue, every accepted request is accounted for at the end. */
  lemma NoRequestIsEverLost(events: seq<Event>, key: string -> string)
    requires Run([], events, key)
    ensures NothingLost(Replay(START, events))
    ensures Replay(START, events).table == JobSafety.After([], events)
  {
    ReplayLosesNothing(START, events, key);
  }

  lemma {:induction false} ReplayLosesNothing(h: History, events: seq<Event>, key: string -> string)
    requires NothingLost(h) && Run(h.table, events, key)
    ensures NothingLost(Replay(h, events))
    ensures Replay(h, events).table == JobSafety.After(h.table, events)
    decreases |events|
  {
    if events != [] {
      StepLosesNothing(h, events[0], key);
      ReplayLosesNothing(Next(h, events[0]), events[1..], key);
    }
  }

  /** The books are complete: a run records one ask per accepted request, with the request's own content. */
  lemma {:induction false} EveryAcceptedRequestIsRecorded(h: History, e: Event)
    ensures var h' := Next(h, e);
            && |h'.asks| == |h.asks| + (if e.Enqueue? && Jobs.Enqueue(h.table, e.request, e.now).Ok? then 1 else 0)
            && (forall i :: 0 <= i < |h.asks| ==> h'.asks[i].work == h.asks[i].work && h'.asks[i].repo == h.asks[i].repo)
            && (|h'.asks| > |h.asks| ==>
                h'.asks[|h.asks|].work == e.request.work && h'.asks[|h.asks|].repo == e.request.repo &&
                h'.asks[|h.asks|].at == h.clock)
  {
  }
}
