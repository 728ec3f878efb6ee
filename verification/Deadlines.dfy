/** From the arguments of an enqueue to the sweep that must flush the bundle it opened. */
module Deadlines {
  import opened Wrappers
  import opened Numerals
  import opened BundleCatalog
  import opened BundleInvariant
  import opened BundleRuns
  import opened BundleOrigins
  import opened Flush
  import opened FlushPlan
  import opened Sweeper

  /** The bundle is open and non-empty, and the enqueue's age or byte target is reached. */
  ghost predicate Reached(t: State, step: Step, later: int)
    requires step.Enqueued? && step.id in t.bundles
  {
    && t.bundles[step.id].status == Open && CountIn(t.members, step.id) > 0
    && (later >= step.now + step.maxAge || BytesIn(t.members, step.id) >= step.targetBytes)
  }

  /** It is still an accumulator of a live group, below both. */
  ghost predicate Waiting(t: State, step: Step, live: set<string>, later: int)
    requires step.Enqueued? && step.id in t.bundles
  {
    && step.group in live && t.bundles[step.id].archiveId.None?
    && later < step.now + step.maxAge && BytesIn(t.members, step.id) < step.targetBytes
  }

  /** The bundle an enqueue opens, whatever happens to it since, has its byte target and its deadline from
      that enqueue: as long as it is open and non-empty, every sweep from the enqueue's time plus its maximum
      age on wants it flushed, and so does every sweep once it holds the enqueue's byte target; and no
      sweep of a catalog where its group is live wants it before. */
  lemma OpenedIsDueInTime(sha: string -> Digest, s: State, step: Step, steps: seq<Step>, live: set<string>, later: int)
    requires Inv(s) && step.Enqueued? && step.id !in s.bundles && step.id in Apply(sha, s, step).bundles
    ensures var t := Run(sha, Apply(sha, s, step), steps);
            && step.id in t.bundles && Inv(t)
            && (Reached(t, step, later) ==> WantsFlush(t, step.id, live, later) && Selected(t.bundles[step.id], live, later))
            && (Waiting(t, step, live, later) ==> !WantsFlush(t, step.id, live, later))
  {
    var after := Apply(sha, s, step);
    StepOpens(sha, s, step, step.id);
    StepKeepsInv(sha, s, step);
    ColumnsStay(sha, after, steps, step.id);
    RunKeepsInv(sha, after, steps);
    SelectedExactly(Run(sha, after, steps), step.id, live, later);
  }

  /** Then the sweep itself: run over that catalog as it stands, it flushes the bundle or records why not. */
  lemma OpenedIsSwept(sha: string -> Digest, s: State, step: Step, steps: seq<Step>, live: set<string>, later: int, cur: State,
                      flushed: seq<string>, failed: seq<(string, FlushError)>)
    requires Inv(s) && step.Enqueued? && step.id !in s.bundles && step.id in Apply(sha, s, step).bundles
    requires var t := Run(sha, Apply(sha, s, step), steps);
             && step.id in t.bundles && t.bundles[step.id].status == Open && CountIn(t.members, step.id) > 0
             && SweepEnds(t, cur, live, later, flushed, failed)
    requires later >= step.now + step.maxAge
    ensures step.id in flushed || FailureRecorded(failed, step.id)
  {
    OpenedIsDueInTime(sha, s, step, steps, live, later);
    SweepFlushesExactly(Run(sha, Apply(sha, s, step), steps), cur, live, later, flushed, failed, step.id);
  }
}
