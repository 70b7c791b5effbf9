/**
First come, first served (src/scs/indexing/jobs.py:405-424 and 430-472): a row remembers when its first request
was accepted, no transaction changes that, and rows are claimed in that order.
*/
module ClaimOrder {
  import opened Jobs
  import opened JobSafety

  lemma {:induction false} StepKeepsBirth(t: Table, e: Event, i: JobId)
    requires i < |t|
    ensures i < |Apply(t, e)| && Apply(t, e)[i].createdAt == t[i].createdAt && Apply(t, e)[i].repo == t[i].repo
  {
  }

  /** A row appears only for an accepted request, and is dated by it. */
  lemma StepBears(t: Table, e: Event)
    ensures |t| <= |Apply(t, e)| <= |t| + 1
    ensures |Apply(t, e)| > |t| ==> e.Enqueue? && Apply(t, e)[|t|].createdAt == e.now && Apply(t, e)[|t|].repo == e.request.repo
  {
  }

  /** Requests arrive in the order of their times. */
  ghost predicate Chronological(events: seq<Event>) {
    forall i, j :: 0 <= i < j < |events| && events[i].Enqueue? && events[j].Enqueue? ==> events[i].now <= events[j].now
  }

  lemma {:induction false} AfterOneMore(t: Table, events: seq<Event>, e: Event)
    ensures After(t, events + [e]) == Apply(After(t, events), e)
    decreases |events|
  {
    if events == [] {
      assert After(t, [e]) == After(Apply(t, e), [e][1..]);
      assert events + [e] == [e];
    } else {
      assert (events + [e])[1..] == events[1..] + [e];
      AfterOneMore(Apply(t, events[0]), events[1..], e);
    }
  }

  /** Every row was born by a request of its repository, at the time it is dated. */
  lemma {:induction false} BornByRequest(events: seq<Event>, i: JobId) returns (k: nat)
    requires i < |After([], events)|
    ensures k < |events| && events[k].Enqueue? && events[k].now == After([], events)[i].createdAt
    ensures events[k].request.repo == After([], events)[i].repo
    ensures |After([], events[..k])| == i && |After([], events[..k + 1])| == i + 1
    decreases |events|
  {
    var n := |events| - 1;
    var init, before := events[..n], After([], events[..n]);
    assert events == init + [events[n]];
    AfterOneMore([], init, events[n]);
    StepBears(before, events[n]);
    if i < |before| {
      StepKeepsBirth(before, events[n], i);
      k := BornByRequest(init, i);
      assert init[..k] == events[..k] && init[..k + 1] == events[..k + 1];
    } else {
      k := n;
      assert events[..n + 1] == events;
    }
  }

  lemma PrefixGrows(events: seq<Event>, k: nat)
    requires k < |events|
    ensures |After([], events[..k])| <= |After([], events[..k + 1])|
  {
    assert events[..k + 1] == events[..k] + [events[k]];
    AfterOneMore([], events[..k], events[k]);
    StepBears(After([], events[..k]), events[k]);
  }

  lemma {:induction false} TablesGrow(events: seq<Event>, j: nat, k: nat)
    requires j <= k <= |events|
    ensures |After([], events[..j])| <= |After([], events[..k])|
    decreases k
  {
    if j < k {
      TablesGrow(events, j, k - 1);
      PrefixGrows(events, k - 1);
    }
  }

  /** When requests arrive in the order of their times, rows stand in the order of theirs. */
  lemma RowsInOrder(events: seq<Event>, i: JobId, j: JobId)
    requires Chronological(events) && i < j < |After([], events)|
    ensures After([], events)[i].createdAt <= After([], events)[j].createdAt
  {
    var a := BornByRequest(events, i);
    var b := BornByRequest(events, j);
    if b <= a {
      TablesGrow(events, b + 1, a + 1);
    }
  }

  /**
  No request is passed over: when a row is claimed, every other claimable row of its kind was born at the same time or
  later, by a later request of the run.
  */
  lemma NoneIsPassedOver(events: seq<Event>, id: JobId, j: JobId, key: string -> string)
    requires Run([], events, key) && Chronological(events) && FirstInLine(After([], events), id)
    requires Claimable(After([], events), j) && j != id
    requires After([], events)[j].work.mode == Cleanup <==> After([], events)[id].work.mode == Cleanup
    ensures After([], events)[id].createdAt <= After([], events)[j].createdAt
    ensures j < id ==> After([], events)[j].createdAt == After([], events)[id].createdAt
  {
    if j < id {
      RowsInOrder(events, j, id);
    }
  }

  /** A cleanup is claimed only when nothing else can be. */
  lemma CleanupsComeLast(t: Table, id: JobId, j: JobId)
    requires FirstInLine(t, id) && t[id].work.mode == Cleanup && Claimable(t, j)
    ensures t[j].work.mode == Cleanup
  {
  }
}
