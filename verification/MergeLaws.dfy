/** Coalescing is a join: the algebra behind merging queued work (src/scs/indexing/jobs.py:178-231). */
module MergeLaws {
  import opened Outcome
  import opened Jobs

  /** A merged job covers both pieces of work, whatever their payloads. */
  lemma MergeIsUpperBound(a: Work, b: Work)
    ensures Merge(a, b).Covers(a) && Merge(a, b).Covers(b)
  {
  }

  predicate EitherIs(a: Work, b: Work, mode: Mode) {
    a.mode == mode || b.mode == mode
  }

  /**
  The stronger of the two modes wins, a deletion over everything and a cleanup over nothing.  Paths are united for file
  work alone, and a manifest is kept for force work alone, of two force requests the incoming one's.
  */
  lemma MergeExactly(a: Work, b: Work)
    ensures var m := Merge(a, b);
      if EitherIs(a, b, DropIndex) then m == Work(DropIndex, Payload({}, {}, None))
      else if EitherIs(a, b, ForceFull) then
        m == Work(ForceFull, Payload({}, {}, if b.mode == ForceFull then b.payload.snapshot else a.payload.snapshot))
      else if EitherIs(a, b, Full) then m == Work(Full, Payload({}, {}, None))
      else if EitherIs(a, b, Files) then
        m == Work(Files, Payload(a.payload.files + b.payload.files, a.payload.deleted + b.payload.deleted, None))
      else m == Work(Cleanup, Payload({}, {}, None))
  {
  }

  /** ... and it asks for no more than any other job covering both. */
  lemma MergeIsLeast(a: Work, b: Work, c: Work)
    requires a.Normal() && b.Normal()
    requires c.Covers(a) && c.Covers(b)
    ensures c.Covers(Merge(a, b))
  {
  }

  lemma MergeKeepsNormal(a: Work, b: Work)
    requires a.Normal() && b.Normal()
    ensures Merge(a, b).Normal()
  {
  }

  lemma MergeAssociative(a: Work, b: Work, c: Work)
    requires a.Normal() && b.Normal() && c.Normal()
    ensures Merge(Merge(a, b), c) == Merge(a, Merge(b, c))
  {
  }

  /** Order matters in exactly one case: two force requests that froze different manifests. */
  lemma MergeCommutesExactly(a: Work, b: Work)
    requires a.Normal() && b.Normal()
    ensures Merge(a, b) == Merge(b, a) <==>
            !(a.mode.ForceFull? && b.mode.ForceFull? && a.payload.snapshot != b.payload.snapshot)
  {
  }

  /** Covering is transitive, so a chain of merges never forgets what it absorbed. */
  lemma CoversTransitive(a: Work, b: Work, c: Work)
    requires a.Covers(b) && b.Covers(c)
    ensures a.Covers(c)
  {
  }
}
