/**
 The explicit WAL prune of the shim: one pass over target collections, under one of two failure modes.
 What the database does not let us see (query and purge failures) is an input, one `Faults` per target.
 */
module WalPrune {
  import opened MachineInts
  import opened Outcomes
  import opened WalSelection
  import opened WalLog

  datatype Target = Target(collection: CollectionId, name: string, tenant: string, database: string)

  datatype FailureMode = FailFast | ContinueOnError

  datatype Options = Options(dryRun: bool, policies: Policies)

  datatype Faults = Faults(cutoffQuery: Option<string>, candidateQuery: Option<string>, purge: Option<string>)

  datatype PruneError =
    | CutoffQueryFailed(message: string)
    | CandidateQueryFailed(message: string)
    | NegativeWalSeqId(seqId: I64)
    | NegativeSequenceId(seqId: I64)
    | PurgeBoundInvalid
    | PurgeFailed(message: string)

  datatype CollectionResult = CollectionResult(
    target: Target,
    safeSeqCutoff: Option<U64>,
    candidateSeqMin: Option<U64>,
    candidateSeqMax: Option<U64>,
    prunedSeqMin: Option<U64>,
    prunedSeqMax: Option<U64>,
    candidateCount: U64,
    candidateBytes: U64,
    prunedCount: U64,
    prunedBytes: U64,
    error: Option<PruneError>
  )

  datatype Totals = Totals(candidateCount: U64, candidateBytes: U64, prunedCount: U64, prunedBytes: U64) {
    function Plus(result: CollectionResult): Totals {
      Totals(SatAdd(candidateCount, result.candidateCount), SatAdd(candidateBytes, result.candidateBytes),
             SatAdd(prunedCount, result.prunedCount), SatAdd(prunedBytes, result.prunedBytes))
    }
  }

  datatype Response = Response(collectionCount: U64, totals: Totals, collections: seq<CollectionResult>)

  /** The saturating sums of the per-collection figures. */
  function Total(results: seq<CollectionResult>): Totals {
    if results == [] then Totals(0, 0, 0, 0) else Total(results[..|results| - 1]).Plus(results[|results| - 1])
  }

  function Summary(results: seq<CollectionResult>): Response {
    Response(Clamp(|results|), Total(results), results)
  }

  // ---- Conversions ----

  function SeqOptU64(value: Option<I64>): Result<Option<U64>, PruneError> {
    if value.None? then Ok(None)
    else if value.value >= 0 then Ok(Some(value.value))
    else Err(NegativeSequenceId(value.value))
  }

  function OrNone(converted: Result<Option<U64>, PruneError>): Option<U64> {
    if converted.Ok? then converted.value else None
  }

  /** The bound passed to the purge: one past the last selected sequence id. */
  function PurgeExclusive(lastSelected: Option<I64>): Result<U64, PruneError> {
    if lastSelected.Some? && 0 <= lastSelected.value && lastSelected.value + 1 <= U64_MAX
    then Ok(lastSelected.value + 1)
    else Err(PurgeBoundInvalid)
  }

  function FirstSeq(rows: seq<Row>): Option<I64> {
    if rows == [] then None else Some(rows[0].seqId)
  }

  function LastSeq(rows: seq<Row>): Option<I64> {
    if rows == [] then None else Some(rows[|rows| - 1].seqId)
  }

  function FirstNegative(rows: seq<Row>): Option<I64> {
    if rows == [] then None
    else if rows[0].seqId < 0 then Some(rows[0].seqId)
    else FirstNegative(rows[1..])
  }

  lemma {:induction false} NoNegative(rows: seq<Row>)
    requires FirstNegative(rows).None?
    ensures forall i | 0 <= i < |rows| :: rows[i].seqId >= 0
  {
    if rows != [] {
      NoNegative(rows[1..]);
      assert forall i | 1 <= i < |rows| :: rows[i] == rows[1..][i - 1];
    }
  }

  // ---- One target ----

  datatype Outcome = Outcome(queue: seq<QueueRow>, result: CollectionResult)

  function Failed(target: Target, cutoff: Option<I64>, error: PruneError): CollectionResult {
    CollectionResult(target, OrNone(SeqOptU64(cutoff)), None, None, None, None, 0, 0, 0, 0, Some(error))
  }

  function Reported(target: Target, cutoff: Option<I64>, rows: seq<Row>, selected: seq<Row>): CollectionResult {
    CollectionResult(
      target, OrNone(SeqOptU64(cutoff)), OrNone(SeqOptU64(FirstSeq(rows))), OrNone(SeqOptU64(LastSeq(rows))),
      OrNone(SeqOptU64(FirstSeq(selected))), OrNone(SeqOptU64(LastSeq(selected))),
      Clamp(|rows|), TotalBytes(rows), Clamp(|selected|), TotalBytes(selected), None)
  }

  /** The candidate rows of a collection, oldest first. */
  function CandidatesOf(queue: seq<QueueRow>, segments: seq<Segment>, c: CollectionId): seq<Row> {
    var cutoff := SafeCutoff(segments, c);
    if cutoff.Some? then Candidates(queue, c, cutoff.value) else []
  }

  /** The oldest rows, as many as all policies agree to remove. */
  function Selected(rows: seq<Row>, policies: Policies, now: I64): seq<Row> {
    PrefixCountWithin(rows, policies, now);
    rows[..PrefixCount(rows, policies, now)]
  }

  datatype Selection = Selection(cutoff: Option<I64>, rows: seq<Row>, selected: seq<Row>)

  /** What to prune of one collection, or the result that reports why nothing could be selected. */
  function Select(
    queue: seq<QueueRow>, segments: seq<Segment>, target: Target, policies: Policies, now: I64, faults: Faults)
    : Result<Selection, CollectionResult>
  {
    var cutoff := SafeCutoff(segments, target.collection);
    var rows := CandidatesOf(queue, segments, target.collection);
    if faults.cutoffQuery.Some? then Err(Failed(target, None, CutoffQueryFailed(faults.cutoffQuery.value)))
    else if cutoff.Some? && faults.candidateQuery.Some? then
      Err(Failed(target, cutoff, CandidateQueryFailed(faults.candidateQuery.value)))
    else if FirstNegative(rows).Some? then Err(Failed(target, cutoff, NegativeWalSeqId(FirstNegative(rows).value)))
    else Ok(Selection(cutoff, rows, Selected(rows, policies, now)))
  }

  /** Removes the selection, unless the run is dry or the purge fails, and reports. */
  function Settle(
    queue: seq<QueueRow>, target: Target, s: Selection, dryRun: bool, purgeFault: Option<string>): Outcome
  {
    var report := Reported(target, s.cutoff, s.rows, s.selected);
    if dryRun || s.selected == [] then Outcome(queue, report)
    else if purgeFault.Some? then
      Outcome(queue, report.(prunedCount := 0, prunedBytes := 0, error := Some(PurgeFailed(purgeFault.value))))
    else Outcome(Purged(queue, target.collection, s.selected[|s.selected| - 1].seqId + 1), report)
  }

  function PruneTarget(
    queue: seq<QueueRow>, segments: seq<Segment>, target: Target, options: Options, now: I64, faults: Faults): Outcome
  {
    match Select(queue, segments, target, options.policies, now, faults)
    case Err(result) => Outcome(queue, result)
    case Ok(selection) => Settle(queue, target, selection, options.dryRun, faults.purge)
  }

  // ---- All targets ----

  function Run(
    queue: seq<QueueRow>, segments: seq<Segment>, targets: seq<Target>, options: Options, mode: FailureMode,
    now: I64, faults: seq<Faults>): (seq<QueueRow>, Result<seq<CollectionResult>, PruneError>)
    requires |faults| == |targets|
    decreases |targets|
  {
    if targets == [] then (queue, Ok([])) else
    var first := PruneTarget(queue, segments, targets[0], options, now, faults[0]);
    if mode.FailFast? && first.result.error.Some? then (first.queue, Err(first.result.error.value)) else
    var (last, rest) := Run(first.queue, segments, targets[1..], options, mode, now, faults[1..]);
    (last, Prepend([first.result], rest))
  }

  function Prepend(
    results: seq<CollectionResult>, rest: Result<seq<CollectionResult>, PruneError>)
    : Result<seq<CollectionResult>, PruneError>
  {
    if rest.Ok? then Ok(results + rest.value) else rest
  }

  class WalDatabase {
    var queue: seq<QueueRow>
    const segments: seq<Segment>

    ghost predicate Valid()
      reads this
    {
      SortedQueue(queue)
    }

    constructor (queue: seq<QueueRow>, segments: seq<Segment>)
      requires SortedQueue(queue)
      ensures Valid() && this.queue == queue && this.segments == segments
    {
      this.queue := queue;
      this.segments := segments;
    }

    /** Deletes the rows of a collection below a bound, or fails and changes nothing. */
    method PurgeLogs(c: CollectionId, bound: U64, fault: Option<string>) returns (failure: Option<string>)
      requires Valid()
      modifies this`queue
      ensures Valid()
      ensures failure == fault
      ensures queue == if fault.Some? then old(queue) else Purged(old(queue), c, bound)
    {
      if fault.None? {
        PurgedMembers(queue, c, bound);
        queue := Purged(queue, c, bound);
      }
      return fault;
    }

    /** First half of the loop body: the queries and the selection. */
    method SelectRows(target: Target, policies: Policies, now: I64, fault: Faults)
      returns (r: Result<Selection, CollectionResult>)
      ensures r == Select(queue, segments, target, policies, now, fault)
    {
      if fault.cutoffQuery.Some? {
        return Err(Failed(target, None, CutoffQueryFailed(fault.cutoffQuery.value)));
      }
      var cutoff := SafeCutoff(segments, target.collection);
      var rows: seq<Row> := [];
      if cutoff.Some? {
        if fault.candidateQuery.Some? {
          return Err(Failed(target, cutoff, CandidateQueryFailed(fault.candidateQuery.value)));
        }
        rows := Candidates(queue, target.collection, cutoff.value);
      }
      var negative := FirstNegative(rows);
      if negative.Some? {
        return Err(Failed(target, cutoff, NegativeWalSeqId(negative.value)));
      }
      var prefix := SelectPrefix(rows, policies, now);
      PrefixCountWithin(rows, policies, now);
      return Ok(Selection(cutoff, rows, rows[..prefix]));
    }

    /** Second half of the loop body: the purge, the totals and the report. */
    method PurgeSelected(target: Target, s: Selection, dryRun: bool, purgeFault: Option<string>, before: Totals)
      returns (result: CollectionResult, totals: Totals)
      requires Valid()
      requires s.cutoff.Some? ==> s.cutoff.value > 0
      requires forall i | 0 <= i < |s.rows| :: s.rows[i].seqId >= 0
      requires s.selected <= s.rows
      modifies this`queue
      ensures Valid()
      ensures Outcome(queue, result) == Settle(old(queue), target, s, dryRun, purgeFault)
      ensures totals == before.Plus(result)
    {
      totals := before;
      var candidateCount := Clamp(|s.rows|);
      var candidateBytes := TotalBytes(s.rows);
      var prunedCount := Clamp(|s.selected|);
      var prunedBytes := TotalBytes(s.selected);

      if !dryRun && |s.selected| > 0 {
        var bound := PurgeExclusive(LastSeq(s.selected));
        assert bound.Ok?;  // a sequence id is an i64, so adding one cannot overflow a u64
        var failure := PurgeLogs(target.collection, bound.value, purgeFault);
        if failure.Some? {
          result := CollectionResult(
            target, OrNone(SeqOptU64(s.cutoff)), OrNone(SeqOptU64(FirstSeq(s.rows))), OrNone(SeqOptU64(LastSeq(s.rows))),
            OrNone(SeqOptU64(FirstSeq(s.selected))), OrNone(SeqOptU64(LastSeq(s.selected))),
            candidateCount, candidateBytes, 0, 0, Some(PurgeFailed(failure.value)));
          totals := totals.(candidateCount := SatAdd(totals.candidateCount, candidateCount),
                            candidateBytes := SatAdd(totals.candidateBytes, candidateBytes));
          return;
        }
      }
      totals := Totals(SatAdd(totals.candidateCount, candidateCount), SatAdd(totals.candidateBytes, candidateBytes),
                       SatAdd(totals.prunedCount, prunedCount), SatAdd(totals.prunedBytes, prunedBytes));

      // Late conversions: none can fail, the cutoff is positive and no candidate is negative.
      var safeSeqCutoff := SeqOptU64(s.cutoff);
      var candidateSeqMin, candidateSeqMax := SeqOptU64(FirstSeq(s.rows)), SeqOptU64(LastSeq(s.rows));
      var prunedSeqMin, prunedSeqMax := SeqOptU64(FirstSeq(s.selected)), SeqOptU64(LastSeq(s.selected));
      assert safeSeqCutoff.Ok? && candidateSeqMin.Ok? && candidateSeqMax.Ok? && prunedSeqMin.Ok? && prunedSeqMax.Ok?;
      result := CollectionResult(
        target, safeSeqCutoff.value, candidateSeqMin.value, candidateSeqMax.value, prunedSeqMin.value,
        prunedSeqMax.value, candidateCount, candidateBytes, prunedCount, prunedBytes, None);
    }

    method RunExplicitWalPrune(
      targets: seq<Target>, options: Options, mode: FailureMode, now: I64, faults: seq<Faults>)
      returns (r: Result<Response, PruneError>)
      requires Valid() && |faults| == |targets|
      modifies this`queue
      ensures Valid()
      ensures var (last, results) := Run(old(queue), segments, targets, options, mode, now, faults);
              && queue == last
              && r == if results.Ok? then Ok(Summary(results.value)) else Err(results.error)
    {
      if targets == [] {
        return Ok(Response(0, Totals(0, 0, 0, 0), []));
      }
      var totals := Totals(0, 0, 0, 0);
      var collections: seq<CollectionResult> := [];
      ghost var run := Run(queue, segments, targets, options, mode, now, faults);
      RunContinuesFromStart(queue, segments, targets, options, mode, now, faults);
      var i := 0;
      while i < |targets|
        invariant i <= |targets| && Valid()
        invariant totals == Total(collections)
        invariant Continues(run, queue, segments, targets, options, mode, now, faults, i, collections)
      {
        RunAdvances(run, queue, segments, targets, options, mode, now, faults, i, collections);
        var selection := SelectRows(targets[i], options.policies, now, faults[i]);
        var result;
        if selection.Err? {
          result := selection.error;
          FailureHasNoFigures(queue, segments, targets[i], options.policies, now, faults[i], totals);
        } else {
          SelectionIsSound(queue, segments, targets[i], options.policies, now, faults[i]);
          result, totals := PurgeSelected(targets[i], selection.value, options.dryRun, faults[i].purge, totals);
        }
        if result.error.Some? && mode.FailFast? {
          return Err(result.error.value);
        }
        assert (collections + [result])[..|collections|] == collections;
        collections := collections + [result];
        i := i + 1;
      }
      assert targets[i..] == [] && collections + [] == collections;
      return Ok(Response(Clamp(|collections|), totals, collections));
    }
  }

  /** What is left of a run after `i` targets, put behind the results so far, is the whole run. */
  ghost predicate Continues(
    run: (seq<QueueRow>, Result<seq<CollectionResult>, PruneError>), queue: seq<QueueRow>, segments: seq<Segment>,
    targets: seq<Target>, options: Options, mode: FailureMode, now: I64, faults: seq<Faults>, i: nat,
    collections: seq<CollectionResult>)
    requires i <= |targets| == |faults|
  {
    var (last, rest) := Run(queue, segments, targets[i..], options, mode, now, faults[i..]);
    run == (last, Prepend(collections, rest))
  }

  lemma RunContinuesFromStart(
    queue: seq<QueueRow>, segments: seq<Segment>, targets: seq<Target>, options: Options, mode: FailureMode,
    now: I64, faults: seq<Faults>)
    requires |faults| == |targets|
    ensures Continues(Run(queue, segments, targets, options, mode, now, faults), queue, segments, targets, options,
                      mode, now, faults, 0, [])
  {
    assert targets[0..] == targets && faults[0..] == faults;
    var results := Run(queue, segments, targets, options, mode, now, faults).1;
    if results.Ok? {
      assert [] + results.value == results.value;
    }
  }

  /** One target further: the run stops at the target's error in FailFast mode, and otherwise goes on behind its result. */
  lemma RunAdvances(
    run: (seq<QueueRow>, Result<seq<CollectionResult>, PruneError>), queue: seq<QueueRow>, segments: seq<Segment>,
    targets: seq<Target>, options: Options, mode: FailureMode, now: I64, faults: seq<Faults>, i: nat,
    collections: seq<CollectionResult>)
    requires i < |targets| == |faults|
    requires Continues(run, queue, segments, targets, options, mode, now, faults, i, collections)
    ensures var outcome := PruneTarget(queue, segments, targets[i], options, now, faults[i]);
            if mode.FailFast? && outcome.result.error.Some? then run == (outcome.queue, Err(outcome.result.error.value))
            else Continues(run, outcome.queue, segments, targets, options, mode, now, faults, i + 1, collections + [outcome.result])
  {
    var outcome := PruneTarget(queue, segments, targets[i], options, now, faults[i]);
    assert targets[i..][1..] == targets[i + 1..] && faults[i..][1..] == faults[i + 1..];
    var rest := Run(outcome.queue, segments, targets[i + 1..], options, mode, now, faults[i + 1..]).1;
    if rest.Ok? {
      assert collections + [outcome.result] + rest.value == collections + ([outcome.result] + rest.value);
    }
  }

  lemma FailureHasNoFigures(
    queue: seq<QueueRow>, segments: seq<Segment>, target: Target, policies: Policies, now: I64, faults: Faults, totals: Totals)
    ensures var r := Select(queue, segments, target, policies, now, faults);
            r.Err? ==> r.error.error.Some? && totals.Plus(r.error) == totals
  {
  }

  lemma SelectionIsSound(
    queue: seq<QueueRow>, segments: seq<Segment>, target: Target, policies: Policies, now: I64, faults: Faults)
    ensures var r := Select(queue, segments, target, policies, now, faults);
            r.Ok? ==>
              && (r.value.cutoff.Some? ==> r.value.cutoff.value > 0)
              && (forall i | 0 <= i < |r.value.rows| :: r.value.rows[i].seqId >= 0)
              && r.value.selected <= r.value.rows
  {
    var rows := CandidatesOf(queue, segments, target.collection);
    PrefixCountWithin(rows, policies, now);
    if FirstNegative(rows).None? { NoNegative(rows); }
  }

  // ---- What one target's prune means ----

  /**
   A mutating prune of one collection removes exactly the selected rows of that collection, all of them
   strictly below the safe cutoff, and reports their number; on an error or a dry run no row changes.
   */
  lemma PruneRemovesExactlyTheSelection(
    queue: seq<QueueRow>, segments: seq<Segment>, target: Target, options: Options, now: I64, faults: Faults)
    requires SortedQueue(queue)
    ensures var c := target.collection;
            var selected := Selected(CandidatesOf(queue, segments, c), options.policies, now);
            var outcome := PruneTarget(queue, segments, target, options, now, faults);
            && SortedQueue(outcome.queue)
            && (options.dryRun || outcome.result.error.Some? ==> outcome.queue == queue)
            && (!options.dryRun && outcome.result.error.None? ==>
                  && (forall row :: row in outcome.queue <==> row in queue && !(row.collection == c && ToRow(row) in selected))
                  && |queue| - |outcome.queue| == |selected| && outcome.result.prunedCount == Clamp(|selected|))
            && (forall row | row in queue && row !in outcome.queue ::
                  row.collection == c && SafeCutoff(segments, c).Some? && row.seqId < SafeCutoff(segments, c).value)
  {
    hide PrefixCount;
    var rows := CandidatesOf(queue, segments, target.collection);
    var s := Select(queue, segments, target, options.policies, now, faults);
    PrefixCountWithin(rows, options.policies, now);
    if s.Ok? && !options.dryRun && s.value.selected != [] {
      SettleRemovesExactly(queue, target, s.value, faults.purge);
    }
  }

  lemma SettleRemovesExactly(queue: seq<QueueRow>, target: Target, s: Selection, purgeFault: Option<string>)
    requires SortedQueue(queue)
    requires s.cutoff.Some? && s.rows == Candidates(queue, target.collection, s.cutoff.value)
    requires s.selected <= s.rows && s.selected != []
    ensures var outcome := Settle(queue, target, s, false, purgeFault);
            if purgeFault.Some? then outcome.queue == queue && outcome.result.error.Some? else
              && SortedQueue(outcome.queue) && outcome.result.error.None?
              && (forall row :: row in outcome.queue <==> row in queue && !(row.collection == target.collection && ToRow(row) in s.selected))
              && |queue| - |outcome.queue| == |s.selected| && outcome.result.prunedCount == Clamp(|s.selected|)
              && (forall row | row in queue && row !in outcome.queue ::
                    row.collection == target.collection && row.seqId < s.cutoff.value)
  {
    hide Candidates, Purged, SortedQueue;
    var p := |s.selected|;
    assert s.rows[..p] == s.selected;
    PurgedRemovesExactly(queue, target.collection, s.cutoff.value, p);
  }

  lemma CandidatesNeedPositiveCutoff(queue: seq<QueueRow>, c: CollectionId, cutoff: I64)
    ensures Candidates(queue, c, cutoff) != [] ==> cutoff > 0
  {
  }

  lemma PurgedRemovesExactly(queue: seq<QueueRow>, c: CollectionId, cutoff: I64, p: nat)
    requires SortedQueue(queue) && 0 < p <= |Candidates(queue, c, cutoff)|
    ensures var rows := Candidates(queue, c, cutoff);
            var left := Purged(queue, c, rows[p - 1].seqId + 1);
            && SortedQueue(left) && |queue| - |left| == p
            && (forall row :: row in left <==> row in queue && !(row.collection == c && ToRow(row) in rows[..p]))
            && (forall row | row in queue && row !in left :: row.collection == c && row.seqId < cutoff)
  {
    hide Candidates, Purged, FromSeq;
    var rows := Candidates(queue, c, cutoff);
    var bound := rows[p - 1].seqId + 1;
    CandidatesAreSortedAndSafe(queue, c, cutoff);
    assert |queue| - |Purged(queue, c, bound)| == p by {
      CandidatesNeedPositiveCutoff(queue, c, cutoff);
      PurgedLength(queue, c, bound, cutoff);
      FromSeqDropsPrefix(rows, p);
    }
    PurgedMembers(queue, c, bound);
    SelectedIsBelowBound(queue, c, cutoff, p);
  }

  /** Among the rows of a collection, the first `p` candidates are those below the purge bound. */
  lemma SelectedIsBelowBound(queue: seq<QueueRow>, c: CollectionId, cutoff: I64, p: nat)
    requires SortedQueue(queue) && 0 < p <= |Candidates(queue, c, cutoff)|
    ensures var rows := Candidates(queue, c, cutoff);
            forall row | row in queue && row.collection == c ::
              ToRow(row) in rows[..p] <==> row.seqId < rows[p - 1].seqId + 1
  {
    var rows := Candidates(queue, c, cutoff);
    CandidateMembers(queue, c, cutoff);
    assert rows[p - 1] in rows;
    forall row | row in queue && row.collection == c
      ensures ToRow(row) in rows[..p] <==> row.seqId < rows[p - 1].seqId + 1
    {
      var i :| 0 <= i < |queue| && queue[i] == row;
      if row.seqId <= rows[p - 1].seqId {
        assert ToRow(queue[i]) in rows;
        var k :| 0 <= k < |rows| && rows[k] == ToRow(row);
        assert k < p;
        assert rows[..p][k] == ToRow(row);
      }
    }
  }

  lemma {:induction false} PurgedLength(queue: seq<QueueRow>, c: CollectionId, bound: int, cutoff: I64)
    requires 0 < cutoff && bound <= cutoff
    ensures var rows := Candidates(queue, c, cutoff);
            |queue| - |Purged(queue, c, bound)| == |rows| - |FromSeq(rows, bound)|
  {
    if queue != [] {
      PurgedLength(queue[1..], c, bound, cutoff);
      if queue[0].collection == c && queue[0].seqId < cutoff {
        assert Candidates(queue, c, cutoff)[1..] == Candidates(queue[1..], c, cutoff);
      }
    }
  }

  /** Pruning the same collection again, with the same clock and policies, finds nothing more to prune. */
  lemma PruneIsIdempotent(
    queue: seq<QueueRow>, segments: seq<Segment>, target: Target, options: Options, now: I64, faults: Faults)
    requires SortedQueue(queue) && options.policies.Valid()
    requires Sum(CandidatesOf(queue, segments, target.collection)) <= U64_MAX
    ensures var once := PruneTarget(queue, segments, target, options, now, faults);
            var twice := PruneTarget(once.queue, segments, target, options, now, faults);
            !options.dryRun && once.result.error.None? ==>
              twice.queue == once.queue && twice.result.error.None? && twice.result.prunedCount == 0
  {
    hide PrefixCount;
    var rows := CandidatesOf(queue, segments, target.collection);
    var s := Select(queue, segments, target, options.policies, now, faults);
    SelectionIsFixpoint(rows, options.policies, now);
    if s.Ok? && !options.dryRun && s.value.selected != [] && faults.purge.None? {
      RemainingCandidates(queue, target, s.value);
      NoNegative(rows);
      NonNegativeHasNone(rows[|s.value.selected|..]);
    }
  }

  lemma RemainingCandidates(queue: seq<QueueRow>, target: Target, s: Selection)
    requires SortedQueue(queue)
    requires s.cutoff.Some? && s.rows == Candidates(queue, target.collection, s.cutoff.value)
    requires s.selected <= s.rows && s.selected != []
    ensures Candidates(Settle(queue, target, s, false, None).queue, target.collection, s.cutoff.value)
            == s.rows[|s.selected|..]
  {
    hide Candidates, Purged, FromSeq;
    var p := |s.selected|;
    CandidatesAreSortedAndSafe(queue, target.collection, s.cutoff.value);
    PurgedCandidates(queue, target.collection, s.rows[p - 1].seqId + 1, s.cutoff.value);
    FromSeqDropsPrefix(s.rows, p);
  }

  lemma {:induction false} NonNegativeHasNone(rows: seq<Row>)
    requires forall i | 0 <= i < |rows| :: rows[i].seqId >= 0
    ensures FirstNegative(rows).None?
  {
    if rows != [] {
      NonNegativeHasNone(rows[1..]);
    }
  }

  // ---- What a whole run means ----

  lemma OneTarget(
    queue: seq<QueueRow>, segments: seq<Segment>, target: Target, options: Options, now: I64, faults: Faults)
    ensures var outcome := PruneTarget(queue, segments, target, options, now, faults);
            outcome.result.target == target && (outcome.result.error.Some? ==> outcome.queue == queue)
  {
    hide PrefixCount;
  }

  /** The queue after a prune that goes through the first `n` targets. */
  ghost function QueueAfter(
    queue: seq<QueueRow>, segments: seq<Segment>, targets: seq<Target>, options: Options, now: I64,
    faults: seq<Faults>, n: nat): seq<QueueRow>
    requires n <= |targets| == |faults|
  {
    if n == 0 then queue else
    PruneTarget(QueueAfter(queue, segments, targets, options, now, faults, n - 1), segments, targets[n - 1],
                options, now, faults[n - 1]).queue
  }

  ghost function OutcomeAt(
    queue: seq<QueueRow>, segments: seq<Segment>, targets: seq<Target>, options: Options, now: I64,
    faults: seq<Faults>, n: nat): Outcome
    requires n < |targets| == |faults|
  {
    PruneTarget(QueueAfter(queue, segments, targets, options, now, faults, n), segments, targets[n], options, now, faults[n])
  }

  lemma {:induction false} QueueAfterShift(
    queue: seq<QueueRow>, segments: seq<Segment>, targets: seq<Target>, options: Options, now: I64,
    faults: seq<Faults>, n: nat)
    requires 0 < n <= |targets| == |faults|
    ensures var first := PruneTarget(queue, segments, targets[0], options, now, faults[0]).queue;
            QueueAfter(queue, segments, targets, options, now, faults, n)
            == QueueAfter(first, segments, targets[1..], options, now, faults[1..], n - 1)
  {
    if n > 1 {
      QueueAfterShift(queue, segments, targets, options, now, faults, n - 1);
    }
  }

  /**
   In ContinueOnError mode a run never fails: it yields one result per target, in order, each the outcome
   of that target on the queue the earlier targets left.
   */
  lemma {:induction false} ContinueOnErrorReportsEveryTarget(
    queue: seq<QueueRow>, segments: seq<Segment>, targets: seq<Target>, options: Options, now: I64, faults: seq<Faults>)
    requires |faults| == |targets|
    ensures var (last, results) := Run(queue, segments, targets, options, ContinueOnError, now, faults);
            && results.Ok? && |results.value| == |targets|
            && last == QueueAfter(queue, segments, targets, options, now, faults, |targets|)
            && forall i | 0 <= i < |targets| ::
                 && results.value[i] == OutcomeAt(queue, segments, targets, options, now, faults, i).result
                 && results.value[i].target == targets[i]
    decreases |targets|
  {
    hide PruneTarget;
    if targets != [] {
      var first := PruneTarget(queue, segments, targets[0], options, now, faults[0]);
      ContinueOnErrorReportsEveryTarget(first.queue, segments, targets[1..], options, now, faults[1..]);
      QueueAfterShift(queue, segments, targets, options, now, faults, |targets|);
      var results := Run(queue, segments, targets, options, ContinueOnError, now, faults).1.value;
      forall i | 0 <= i < |targets|
        ensures results[i] == OutcomeAt(queue, segments, targets, options, now, faults, i).result
        ensures results[i].target == targets[i]
      {
        OneTarget(QueueAfter(queue, segments, targets, options, now, faults, i), segments, targets[i], options, now, faults[i]);
        if i > 0 {
          QueueAfterShift(queue, segments, targets, options, now, faults, i);
          assert results[i] == Run(first.queue, segments, targets[1..], options, ContinueOnError, now, faults[1..]).1.value[i - 1];
        }
      }
    }
  }

  /**
   In FailFast mode a run fails exactly when some target does, with the error of the first one, and the
   prunes of the targets before it stand; otherwise it equals the run in the other mode.
   */
  lemma {:induction false} FailFastStopsAtFirstFailure(
    queue: seq<QueueRow>, segments: seq<Segment>, targets: seq<Target>, options: Options, now: I64, faults: seq<Faults>)
    requires |faults| == |targets|
    ensures var (last, results) := Run(queue, segments, targets, options, FailFast, now, faults);
            if results.Ok? then
              && (forall i | 0 <= i < |targets| :: OutcomeAt(queue, segments, targets, options, now, faults, i).result.error.None?)
              && (last, results) == Run(queue, segments, targets, options, ContinueOnError, now, faults)
            else
              exists n | 0 <= n < |targets| ::
                && OutcomeAt(queue, segments, targets, options, now, faults, n).result.error == Some(results.error)
                && (forall i | 0 <= i < n :: OutcomeAt(queue, segments, targets, options, now, faults, i).result.error.None?)
                && last == QueueAfter(queue, segments, targets, options, now, faults, n)
    decreases |targets|
  {
    hide PruneTarget;
    if targets != [] {
      var first := PruneTarget(queue, segments, targets[0], options, now, faults[0]);
      assert OutcomeAt(queue, segments, targets, options, now, faults, 0) == first;
      if first.result.error.None? {
        var rest, restFaults := targets[1..], faults[1..];
        FailFastStopsAtFirstFailure(first.queue, segments, rest, options, now, restFaults);
        forall i | 0 < i < |targets|
          ensures OutcomeAt(queue, segments, targets, options, now, faults, i)
                  == OutcomeAt(first.queue, segments, rest, options, now, restFaults, i - 1)
        {
          QueueAfterShift(queue, segments, targets, options, now, faults, i);
        }
        var results := Run(first.queue, segments, rest, options, FailFast, now, restFaults).1;
        if results.Err? {
          var n :| 0 <= n < |rest|
                   && OutcomeAt(first.queue, segments, rest, options, now, restFaults, n).result.error == Some(results.error)
                   && (forall i | 0 <= i < n :: OutcomeAt(first.queue, segments, rest, options, now, restFaults, i).result.error.None?)
                   && Run(first.queue, segments, rest, options, FailFast, now, restFaults).0
                      == QueueAfter(first.queue, segments, rest, options, now, restFaults, n);
          QueueAfterShift(queue, segments, targets, options, now, faults, n + 1);
          assert OutcomeAt(queue, segments, targets, options, now, faults, n + 1).result.error == Some(results.error);
        }
      } else {
        OneTarget(queue, segments, targets[0], options, now, faults[0]);
      }
    }
  }

  // ---- Conservation ----

  lemma PrunedCountIsTheLoss(
    queue: seq<QueueRow>, segments: seq<Segment>, target: Target, policies: Policies, now: I64, faults: Faults)
    requires SortedQueue(queue)
    ensures var outcome := PruneTarget(queue, segments, target, Options(false, policies), now, faults);
            && SortedQueue(outcome.queue) && |outcome.queue| <= |queue|
            && outcome.result.prunedCount == Clamp(|queue| - |outcome.queue|)
  {
    hide PrefixCount, Purged, Candidates, SortedQueue;
    PruneRemovesExactlyTheSelection(queue, segments, target, Options(false, policies), now, faults);
  }

  lemma {:induction false} PrunedCountsAddUp(
    queue: seq<QueueRow>, segments: seq<Segment>, targets: seq<Target>, policies: Policies, now: I64,
    faults: seq<Faults>, results: seq<CollectionResult>)
    requires SortedQueue(queue) && |results| <= |targets| == |faults|
    requires forall i | 0 <= i < |results| ::
               results[i] == OutcomeAt(queue, segments, targets, Options(false, policies), now, faults, i).result
    ensures var last := QueueAfter(queue, segments, targets, Options(false, policies), now, faults, |results|);
            SortedQueue(last) && |last| <= |queue| && Total(results).prunedCount == Clamp(|queue| - |last|)
  {
    hide PruneTarget, SortedQueue, Clamp, SatAdd, Total;
    ClampsAddUp(0, 0);
    TotalOfOneMore(results);
    if results != [] {
      var n := |results| - 1;
      PrunedCountsAddUp(queue, segments, targets, policies, now, faults, results[..n]);
      var before := QueueAfter(queue, segments, targets, Options(false, policies), now, faults, n);
      var after := PruneTarget(before, segments, targets[n], Options(false, policies), now, faults[n]).queue;
      PrunedCountIsTheLoss(before, segments, targets[n], policies, now, faults[n]);
      ClampsAddUp(|queue| - |before|, |before| - |after|);
    }
  }

  lemma ClampsAddUp(a: nat, b: nat)
    ensures SatAdd(Clamp(a), Clamp(b)) == Clamp(a + b) && Clamp(0) == 0
  {
  }

  lemma TotalOfOneMore(results: seq<CollectionResult>)
    ensures results == [] ==> Total(results).prunedCount == 0
    ensures results != [] ==>
              var n := |results| - 1;
              Total(results).prunedCount == SatAdd(Total(results[..n]).prunedCount, results[n].prunedCount)
  {
  }

  /** Every row that a run removes is counted once: the reported total is the number of rows that are gone. */
  lemma RunCountsEveryRemovedRow(
    queue: seq<QueueRow>, segments: seq<Segment>, targets: seq<Target>, policies: Policies, now: I64, faults: seq<Faults>)
    requires SortedQueue(queue) && |faults| == |targets|
    ensures var (last, results) := Run(queue, segments, targets, Options(false, policies), ContinueOnError, now, faults);
            results.Ok? && |last| <= |queue| && Summary(results.value).totals.prunedCount == Clamp(|queue| - |last|)
  {
    hide PruneTarget, SortedQueue, Run;
    ContinueOnErrorReportsEveryTarget(queue, segments, targets, Options(false, policies), now, faults);
    var results := Run(queue, segments, targets, Options(false, policies), ContinueOnError, now, faults).1.value;
    PrunedCountsAddUp(queue, segments, targets, policies, now, faults, results);
  }

  // ---- Dry runs ----

  ghost predicate DistinctCollections(targets: seq<Target>) {
    forall i, j | 0 <= i < j < |targets| :: targets[i].collection != targets[j].collection
  }

  ghost predicate SameCandidates(a: seq<QueueRow>, b: seq<QueueRow>, segments: seq<Segment>, targets: seq<Target>) {
    forall i | 0 <= i < |targets| ::
      CandidatesOf(a, segments, targets[i].collection) == CandidatesOf(b, segments, targets[i].collection)
  }

  /** The dry run changes no row and reports what the mutating run at the same clock reports. */
  ghost predicate DryRunAgrees(
    queue: seq<QueueRow>, segments: seq<Segment>, targets: seq<Target>, policies: Policies, mode: FailureMode,
    now: I64, faults: seq<Faults>)
    requires |faults| == |targets|
  {
    var dry := Run(queue, segments, targets, Options(true, policies), mode, now, faults);
    dry.0 == queue && dry.1 == Run(queue, segments, targets, Options(false, policies), mode, now, faults).1
  }

  /** It does so whatever the log, the segments, the policies, the mode and the clock are, as long as purges succeed. */
  ghost predicate DryRunPredicts(targets: seq<Target>) {
    forall queue, segments, policies: Policies, mode, now, faults: seq<Faults>
      | SortedQueue(queue) && policies.Valid() && |faults| == |targets| && (forall i | 0 <= i < |faults| :: faults[i].purge.None?) ::
      DryRunAgrees(queue, segments, targets, policies, mode, now, faults)
  }

  /**
   For distinct collections a dry run changes no row and reports, target by target, what the mutating run
   at the same clock reports when its purges succeed.
   */
  lemma DryRunPredictsMutatingRun(
    queue: seq<QueueRow>, segments: seq<Segment>, targets: seq<Target>, policies: Policies, mode: FailureMode,
    now: I64, faults: seq<Faults>)
    requires |faults| == |targets| && DistinctCollections(targets)
    requires forall i | 0 <= i < |faults| :: faults[i].purge.None?
    ensures DryRunAgrees(queue, segments, targets, policies, mode, now, faults)
  {
    DryRunFollows(queue, queue, segments, targets, policies, mode, now, faults);
  }

  lemma {:induction false} DryRunFollows(
    queue: seq<QueueRow>, pruned: seq<QueueRow>, segments: seq<Segment>, targets: seq<Target>, policies: Policies,
    mode: FailureMode, now: I64, faults: seq<Faults>)
    requires |faults| == |targets| && DistinctCollections(targets) && SameCandidates(queue, pruned, segments, targets)
    requires forall i | 0 <= i < |faults| :: faults[i].purge.None?
    ensures var dry := Run(queue, segments, targets, Options(true, policies), mode, now, faults);
            dry.0 == queue && dry.1 == Run(pruned, segments, targets, Options(false, policies), mode, now, faults).1
    decreases |targets|
  {
    if targets != [] {
      var rest := targets[1..];
      var live := PruneTarget(pruned, segments, targets[0], Options(false, policies), now, faults[0]);
      DryTarget(queue, pruned, segments, targets[0], policies, now, faults[0]);
      hide PruneTarget;
      forall i | 0 <= i < |rest|
        ensures CandidatesOf(queue, segments, rest[i].collection) == CandidatesOf(live.queue, segments, rest[i].collection)
      {
        assert rest[i] == targets[i + 1];
        OthersKeepCandidates(pruned, segments, targets[0], Options(false, policies), now, faults[0], rest[i].collection);
      }
      DryRunFollows(queue, live.queue, segments, rest, policies, mode, now, faults[1..]);
    }
  }

  lemma DryTarget(
    queue: seq<QueueRow>, pruned: seq<QueueRow>, segments: seq<Segment>, target: Target, policies: Policies,
    now: I64, faults: Faults)
    requires CandidatesOf(queue, segments, target.collection) == CandidatesOf(pruned, segments, target.collection)
    requires faults.purge.None?
    ensures var dry := PruneTarget(queue, segments, target, Options(true, policies), now, faults);
            && dry.queue == queue
            && dry.result == PruneTarget(pruned, segments, target, Options(false, policies), now, faults).result
  {
    hide PrefixCount;
  }

  /** Pruning one collection leaves the candidates of every other one as they were. */
  lemma OthersKeepCandidates(
    queue: seq<QueueRow>, segments: seq<Segment>, target: Target, options: Options, now: I64, faults: Faults, d: CollectionId)
    requires d != target.collection
    ensures CandidatesOf(PruneTarget(queue, segments, target, options, now, faults).queue, segments, d)
            == CandidatesOf(queue, segments, d)
  {
    hide PrefixCount;
    var s := Select(queue, segments, target, options.policies, now, faults);
    var cutoff := SafeCutoff(segments, d);
    if s.Ok? && s.value.selected != [] && cutoff.Some? {
      var selected := s.value.selected;
      PurgedCandidatesOfOthers(queue, target.collection, selected[|selected| - 1].seqId + 1, d, cutoff.value);
    }
  }

  // The smallest log that tells the two runs apart: one row of a collection, already applied, and no room for it.

  const KEEP_NOTHING := Policies(None, Some(0), None, None)

  const NO_FAULTS := Faults(None, None, None)

  ghost predicate OneRow(row: QueueRow, c: CollectionId) {
    row.collection == c && row.seqId == 1 && row.bytes > 0
  }

  lemma SingleRowIsSelected(rows: seq<Row>, now: I64)
    requires |rows| == 1 && rows[0].bytes > 0
    ensures PrefixCount(rows, KEEP_NOTHING, now) == 1
  {
    assert rows[..0] == [] && rows[..1] == rows;
    assert TotalBytes(rows) == rows[0].bytes;
    LeastDrainedUnique(rows, 1, 0, 1);
  }

  lemma OneSegmentCutoff(c: CollectionId, d: CollectionId)
    ensures SafeCutoff([Segment(c, Some(2))], d) == if c == d then Some(2) else None
  {
    var segments := [Segment(c, Some(2))];
    assert segments[1..] == [] && MinApplied(segments[1..], d) == None;
    assert segments[0] == Segment(c, Some(2));
  }

  lemma PruneOfOneRow(row: QueueRow, c: CollectionId, kept: bool, target: Target, dryRun: bool, now: I64)
    requires OneRow(row, c)
    ensures var queue := if kept then [row] else [];
            var outcome := PruneTarget(queue, [Segment(c, Some(2))], target, Options(dryRun, KEEP_NOTHING), now, NO_FAULTS);
            && outcome.result.error.None?
            && outcome.result.prunedCount == (if kept && target.collection == c then 1 else 0)
            && outcome.queue == if dryRun || target.collection != c then queue else []
  {
    hide PrefixCount, SafeCutoff;
    var queue := if kept then [row] else [];
    OneSegmentCutoff(c, target.collection);
    var rows := CandidatesOf(queue, [Segment(c, Some(2))], target.collection);
    PrefixCountWithin(rows, KEEP_NOTHING, now);
    if kept {
      assert queue[1..] == [] && Candidates(queue[1..], c, 2) == [];
      assert Purged(queue, c, 2) == [] by { assert Purged(queue[1..], c, 2) == []; }
      if target.collection == c {
        assert rows == [ToRow(row)];
        SingleRowIsSelected(rows, now);
        assert Selected(rows, KEEP_NOTHING, now) == rows;
        assert FirstNegative(rows[1..]).None?;
      }
    }
  }

  function NoFaults(n: nat): seq<Faults> {
    seq(n, _ => NO_FAULTS)
  }

  lemma {:induction false} OneRowStays(row: QueueRow, c: CollectionId, targets: seq<Target>, dryRun: bool, now: I64, n: nat)
    requires OneRow(row, c) && n <= |targets|
    ensures var last := QueueAfter([row], [Segment(c, Some(2))], targets, Options(dryRun, KEEP_NOTHING), now, NoFaults(|targets|), n);
            last == if dryRun || forall i | 0 <= i < n :: targets[i].collection != c then [row] else []
  {
    hide PruneTarget;
    if n > 0 {
      OneRowStays(row, c, targets, dryRun, now, n - 1);
      PruneOfOneRow(row, c, dryRun || forall i | 0 <= i < n - 1 :: targets[i].collection != c, targets[n - 1], dryRun, now);
    }
  }

  /** Where a collection comes again, the dry run counts its row again and the mutating run finds none. */
  lemma RepeatedTargetIsCountedAgain(row: QueueRow, targets: seq<Target>, i: nat, j: nat, now: I64)
    requires i < j < |targets| && targets[i].collection == targets[j].collection && OneRow(row, targets[i].collection)
    ensures var segments := [Segment(row.collection, Some(2))];
            !DryRunAgrees([row], segments, targets, KEEP_NOTHING, ContinueOnError, now, NoFaults(|targets|))
  {
    hide PruneTarget, Run;
    var c, faults := row.collection, NoFaults(|targets|);
    var segments := [Segment(c, Some(2))];
    forall dryRun: bool
      ensures var results := Run([row], segments, targets, Options(dryRun, KEEP_NOTHING), ContinueOnError, now, faults).1;
              results.Ok? && |results.value| == |targets| && results.value[j].prunedCount == if dryRun then 1 else 0
    {
      OneRowStays(row, c, targets, dryRun, now, j);
      PruneOfOneRow(row, c, dryRun, targets[j], dryRun, now);
      ContinueOnErrorReportsEveryTarget([row], segments, targets, Options(dryRun, KEEP_NOTHING), now, faults);
    }
  }

  /** Distinct collections are exactly what the dry run needs to predict the mutating run. */
  lemma DryRunPredictsExactlyDistinctTargets(targets: seq<Target>)
    ensures DryRunPredicts(targets) <==> DistinctCollections(targets)
  {
    hide DryRunAgrees;
    if DistinctCollections(targets) {
      forall queue, segments, policies: Policies, mode, now, faults: seq<Faults>
        | SortedQueue(queue) && policies.Valid() && |faults| == |targets| && (forall i | 0 <= i < |faults| :: faults[i].purge.None?)
        ensures DryRunAgrees(queue, segments, targets, policies, mode, now, faults)
      {
        DryRunPredictsMutatingRun(queue, segments, targets, policies, mode, now, faults);
      }
    } else {
      var i, j :| 0 <= i < j < |targets| && targets[i].collection == targets[j].collection;
      var row := QueueRow(1, targets[i].collection, 0, 32, "");
      RepeatedTargetIsCountedAgain(row, targets, i, j, 0);
      assert SortedQueue([row]) && KEEP_NOTHING.Valid();
    }
  }

  /** A collection listed twice: the dry run reports two rows pruned, the mutating run one. */
  lemma DryRunOvercountsRepeatedTarget(target: Target, row: QueueRow, now: I64)
    requires OneRow(row, target.collection)
    ensures var segments, targets := [Segment(row.collection, Some(2))], [target, target];
            var dry := Run([row], segments, targets, Options(true, KEEP_NOTHING), ContinueOnError, now, [NO_FAULTS, NO_FAULTS]).1;
            var live := Run([row], segments, targets, Options(false, KEEP_NOTHING), ContinueOnError, now, [NO_FAULTS, NO_FAULTS]).1;
            dry.Ok? && live.Ok? && Total(dry.value).prunedCount == 2 && Total(live.value).prunedCount == 1
  {
    hide PruneTarget, Run;
    var c, segments := row.collection, [Segment(row.collection, Some(2))];
    PruneOfOneRow(row, c, true, target, false, now);
    PruneOfOneRow(row, c, false, target, false, now);
    PruneOfOneRow(row, c, true, target, true, now);
    TwoTargets([row], segments, target, Options(false, KEEP_NOTHING), now, NO_FAULTS);
    TwoTargets([row], segments, target, Options(true, KEEP_NOTHING), now, NO_FAULTS);
  }

  lemma TwoTargets(
    queue: seq<QueueRow>, segments: seq<Segment>, target: Target, options: Options, now: I64, faults: Faults)
    ensures var a := PruneTarget(queue, segments, target, options, now, faults);
            var b := PruneTarget(a.queue, segments, target, options, now, faults);
            var results := Run(queue, segments, [target, target], options, ContinueOnError, now, [faults, faults]).1;
            results.Ok? && Total(results.value).prunedCount == SatAdd(a.result.prunedCount, b.result.prunedCount)
  {
    hide PruneTarget;
    var targets, both := [target, target], [faults, faults];
    assert targets[1..] == [target] && both[1..] == [faults] && [target][1..] == [] && [faults][1..] == [];
    var a := PruneTarget(queue, segments, target, options, now, faults);
    var b := PruneTarget(a.queue, segments, target, options, now, faults);
    assert Run(a.queue, segments, [target], options, ContinueOnError, now, [faults]) == (b.queue, Ok([b.result] + []));
    var results := [a.result] + [b.result];
    assert [b.result] + [] == [b.result];
    assert results[..1] == [a.result] && [a.result][..0] == [];
    assert Total([a.result]).prunedCount == a.result.prunedCount;
  }
}
