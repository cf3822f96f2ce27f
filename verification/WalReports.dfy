/**
 What a prune removes and reports, said of the log itself: which rows of a collection go, what every figure of
 a result means, and what the totals add up to.
 */
module WalReports {
  import opened MachineInts
  import opened Outcomes
  import opened WalSelection
  import opened WalLog
  import opened WalPrune

  /** The bytes of the rows of a collection in a range of sequence ids. */
  ghost function BytesOf(queue: seq<QueueRow>, c: CollectionId, start: int, end: int): nat {
    if queue == [] then 0 else
    (if queue[0].collection == c && start <= queue[0].seqId < end then queue[0].bytes else 0)
    + BytesOf(queue[1..], c, start, end)
  }

  ghost function AllBytes(queue: seq<QueueRow>): nat {
    if queue == [] then 0 else queue[0].bytes + AllBytes(queue[1..])
  }

  /** No policy minds that the row goes, together with the rows of its collection before it. */
  ghost predicate RowMayGo(queue: seq<QueueRow>, row: QueueRow, cutoff: int, policies: Policies, now: I64) {
    var c := row.collection;
    && (policies.maxAgeSeconds.Some? ==>
          now - row.createdAtSecs > (if policies.maxAgeSeconds.value <= I64_MAX then policies.maxAgeSeconds.value else I64_MAX))
    && (policies.maxBytes.Some? ==> BytesOf(queue, c, row.seqId, cutoff) > policies.maxBytes.value)
    && (policies.highBytes.Some? && policies.lowBytes.Some? ==>
          BytesOf(queue, c, I64_MIN, cutoff) > policies.highBytes.value
          && BytesOf(queue, c, row.seqId, cutoff) > policies.lowBytes.value)
  }

  // ---- Sums over the candidates are sums over the log ----

  lemma SumFromHead(rows: seq<Row>)
    requires rows != []
    ensures Sum(rows) == rows[0].bytes + Sum(rows[1..])
  {
    SumSplits(rows, 1);
    assert rows[..1][..0] == [];
  }

  lemma {:induction false} CandidateBytes(queue: seq<QueueRow>, c: CollectionId, cutoff: I64, start: int)
    requires cutoff > 0
    ensures Sum(FromSeq(Candidates(queue, c, cutoff), start)) == BytesOf(queue, c, start, cutoff)
  {
    if queue != [] {
      CandidateBytes(queue[1..], c, cutoff, start);
      if queue[0].collection == c && queue[0].seqId < cutoff {
        var rows := Candidates(queue, c, cutoff);
        assert rows[1..] == Candidates(queue[1..], c, cutoff);
        if start <= queue[0].seqId {
          SumFromHead(FromSeq(rows, start));
          assert FromSeq(rows, start)[1..] == FromSeq(rows[1..], start);
        }
      }
    }
  }

  lemma {:induction false} FromSeqOfRow(rows: seq<Row>, k: nat)
    requires SortedRows(rows) && k < |rows|
    ensures FromSeq(rows, rows[k].seqId) == rows[k..]
  {
    if k == 0 {
      FromSeqKeepsAll(rows, rows[0].seqId);
    } else {
      assert rows[1..][k - 1] == rows[k] && rows[1..][k - 1..] == rows[k..];
      FromSeqOfRow(rows[1..], k - 1);
    }
  }

  lemma RowPosition(queue: seq<QueueRow>, row: QueueRow, cutoff: I64) returns (k: nat)
    requires SortedQueue(queue) && row in queue && 0 < cutoff && row.seqId < cutoff
    ensures var rows := Candidates(queue, row.collection, cutoff);
            && k < |rows| && rows[k] == ToRow(row) && SortedRows(rows)
            && Sum(rows[k..]) == BytesOf(queue, row.collection, row.seqId, cutoff)
            && Sum(rows) == BytesOf(queue, row.collection, I64_MIN, cutoff)
  {
    var c := row.collection;
    CandidateMembers(queue, c, cutoff);
    var rows := Candidates(queue, c, cutoff);
    assert ToRow(row) in rows;
    k :| 0 <= k < |rows| && rows[k] == ToRow(row);
    FromSeqOfRow(rows, k);
    FromSeqKeepsAll(rows, I64_MIN);
    CandidateBytes(queue, c, cutoff, row.seqId);
    CandidateBytes(queue, c, cutoff, I64_MIN);
  }

  lemma RowMayGoAt(queue: seq<QueueRow>, row: QueueRow, cutoff: I64, policies: Policies, now: I64) returns (k: nat)
    requires SortedQueue(queue) && row in queue && 0 < cutoff && row.seqId < cutoff
    ensures var rows := Candidates(queue, row.collection, cutoff);
            && k < |rows| && rows[k] == ToRow(row)
            && (MayGo(rows, policies, now, k) <==> RowMayGo(queue, row, cutoff, policies, now))
  {
    hide Candidates, Sum, BytesOf, SortedQueue;
    k := RowPosition(queue, row, cutoff);
  }

  // ---- Which rows go ----

  ghost predicate AllMayGoUpTo(queue: seq<QueueRow>, row: QueueRow, cutoff: int, policies: Policies, now: I64) {
    forall other | other in queue && other.collection == row.collection && other.seqId <= row.seqId ::
      RowMayGo(queue, other, cutoff, policies, now)
  }

  /** The candidate at `k` is within a right prefix exactly when it and the ones before it may go. */
  lemma PrefixCoversAllThatMayGo(
    queue: seq<QueueRow>, row: QueueRow, cutoff: I64, policies: Policies, now: I64, p: nat, k: nat)
    requires SortedQueue(queue) && row in queue && 0 < cutoff && row.seqId < cutoff && policies.HasPolicy()
    requires var rows := Candidates(queue, row.collection, cutoff);
             RightPrefix(rows, policies, now, p) && k < |rows| && rows[k] == ToRow(row)
    ensures k < p <==> AllMayGoUpTo(queue, row, cutoff, policies, now)
  {
    hide SortedQueue, Candidates, MayGo, RowMayGo;
    var c := row.collection;
    var rows := Candidates(queue, c, cutoff);
    CandidatesAreSortedAndSafe(queue, c, cutoff);
    if k < p {
      forall other | other in queue && other.collection == c && other.seqId <= row.seqId
        ensures RowMayGo(queue, other, cutoff, policies, now)
      {
        var j := RowMayGoAt(queue, other, cutoff, policies, now);
        assert j <= k;
      }
    } else {
      var other := CandidateRow(queue, c, cutoff, p);
      var j := RowMayGoAt(queue, other, cutoff, policies, now);
      assert j == p;
      assert other.seqId <= row.seqId && !RowMayGo(queue, other, cutoff, policies, now);
    }
  }

  /**
   A successful prune removes a row below the safe cutoff exactly when a policy is set and the row and every
   earlier one of its collection may go.
   */
  lemma PrunedExactlyWhenAllMayGo(
    queue: seq<QueueRow>, segments: seq<Segment>, target: Target, policies: Policies, now: I64, faults: Faults, row: QueueRow)
    requires SortedQueue(queue) && policies.Valid()
    requires row in queue && row.collection == target.collection
    requires SafeCutoff(segments, row.collection).Some? && row.seqId < SafeCutoff(segments, row.collection).value
    requires BytesOf(queue, row.collection, I64_MIN, SafeCutoff(segments, row.collection).value) <= U64_MAX
    ensures var cutoff := SafeCutoff(segments, row.collection).value;
            var outcome := PruneTarget(queue, segments, target, Options(false, policies), now, faults);
            outcome.result.error.None? ==>
              (row !in outcome.queue <==> policies.HasPolicy() && AllMayGoUpTo(queue, row, cutoff, policies, now))
  {
    var c, cutoff := row.collection, SafeCutoff(segments, row.collection).value;
    var rows := Candidates(queue, c, cutoff);
    assert cutoff > 0;
    hide SafeCutoff, SortedQueue, Candidates, PrefixCount, PruneTarget, Sum, BytesOf, AllMayGoUpTo;
    var k := RowPosition(queue, row, cutoff);
    var p := PrefixCount(rows, policies, now);
    SelectionIsTheRightPrefix(rows, policies, now, p);
    PruneRemovesExactlyTheSelection(queue, segments, target, Options(false, policies), now, faults);
    SelectedUpTo(rows, p, k);
    if policies.HasPolicy() { PrefixCoversAllThatMayGo(queue, row, cutoff, policies, now, p, k); }
  }

  lemma SelectedUpTo(rows: seq<Row>, p: nat, k: nat)
    requires SortedRows(rows) && p <= |rows| && k < |rows|
    ensures rows[k] in rows[..p] <==> k < p
  {
    if k < p { assert rows[..p][k] == rows[k]; }
  }

  lemma CandidateRow(queue: seq<QueueRow>, c: CollectionId, cutoff: I64, p: nat) returns (row: QueueRow)
    requires SortedQueue(queue) && p < |Candidates(queue, c, cutoff)|
    ensures row in queue && row.collection == c && row.seqId < cutoff && ToRow(row) == Candidates(queue, c, cutoff)[p]
  {
    CandidateMembers(queue, c, cutoff);
    assert Candidates(queue, c, cutoff)[p] in Candidates(queue, c, cutoff);
    var i :| 0 <= i < |queue| && ToRow(queue[i]) == Candidates(queue, c, cutoff)[p] && queue[i].collection == c
             && queue[i].seqId < cutoff;
    row := queue[i];
  }

  /** Whatever the totals are, a row that a run removes is older than the age limit. */
  lemma {:induction false} RunRemovesOnlyOldRows(
    queue: seq<QueueRow>, segments: seq<Segment>, targets: seq<Target>, options: Options, mode: FailureMode, now: I64,
    faults: seq<Faults>)
    requires SortedQueue(queue) && |faults| == |targets| && options.policies.maxAgeSeconds.Some?
    ensures forall row | row in queue && row !in Run(queue, segments, targets, options, mode, now, faults).0 ::
              TooOld(ToRow(row), options.policies.maxAgeSeconds.value, now)
    decreases |targets|
  {
    hide PruneTarget, SortedQueue, TooOld;
    if targets != [] {
      var after := PruneTarget(queue, segments, targets[0], options, now, faults[0]).queue;
      TargetRemovesOnlyOldRows(queue, segments, targets[0], options, now, faults[0]);
      RunRemovesOnlyOldRows(after, segments, targets[1..], options, mode, now, faults[1..]);
    }
  }

  lemma TargetRemovesOnlyOldRows(
    queue: seq<QueueRow>, segments: seq<Segment>, target: Target, options: Options, now: I64, faults: Faults)
    requires SortedQueue(queue) && options.policies.maxAgeSeconds.Some?
    ensures var after := PruneTarget(queue, segments, target, options, now, faults).queue;
            && SortedQueue(after)
            && forall row | row in queue && row !in after :: TooOld(ToRow(row), options.policies.maxAgeSeconds.value, now)
  {
    hide PruneTarget, SortedQueue, TooOld, PrefixCount, CandidatesOf;
    PruneRemovesExactlyTheSelection(queue, segments, target, options, now, faults);
    var rows := CandidatesOf(queue, segments, target.collection);
    SelectedAreOld(rows, options.policies, now);
  }

  lemma SelectedAreOld(rows: seq<Row>, policies: Policies, now: I64)
    requires policies.maxAgeSeconds.Some?
    ensures forall row | row in Selected(rows, policies, now) :: TooOld(row, policies.maxAgeSeconds.value, now)
  {
    PrefixCountWithin(rows, policies, now);
    AgePart(rows, policies.maxAgeSeconds.value, now);
  }

  // ---- What a result says ----

  /**
   The result of one target, figure by figure: why it failed, if it did; the cutoff; number, bytes and range of
   the candidates; and number, bytes and range of what was selected, the first two only if it was not kept.
   */
  lemma ResultTellsThePrune(
    queue: seq<QueueRow>, segments: seq<Segment>, target: Target, options: Options, now: I64, faults: Faults)
    requires SortedQueue(queue)
    ensures var cutoff := SafeCutoff(segments, target.collection);
            var rows := CandidatesOf(queue, segments, target.collection);
            var selected := Selected(rows, options.policies, now);
            var result := PruneTarget(queue, segments, target, options, now, faults).result;
            && result.target == target
            && result.error == (if faults.cutoffQuery.Some? then Some(CutoffQueryFailed(faults.cutoffQuery.value))
                                else if cutoff.Some? && faults.candidateQuery.Some? then
                                  Some(CandidateQueryFailed(faults.candidateQuery.value))
                                else if rows != [] && rows[0].seqId < 0 then Some(NegativeWalSeqId(rows[0].seqId))
                                else if !options.dryRun && selected != [] && faults.purge.Some? then
                                  Some(PurgeFailed(faults.purge.value))
                                else None)
            && result.safeSeqCutoff == (if faults.cutoffQuery.Some? then None else cutoff)
            && (if result.error.None? || result.error.value.PurgeFailed? then
                  && result.candidateCount == Clamp(|rows|) && result.candidateBytes == Clamp(Sum(rows))
                  && result.candidateSeqMin == FirstId(rows) && result.candidateSeqMax == LastId(rows)
                  && result.prunedSeqMin == FirstId(selected) && result.prunedSeqMax == LastId(selected)
                else
                  && result.candidateCount == result.candidateBytes == 0
                  && result.candidateSeqMin == result.candidateSeqMax == result.prunedSeqMin == result.prunedSeqMax == None)
            && result.prunedCount == (if result.error.None? then Clamp(|selected|) else 0)
            && result.prunedBytes == (if result.error.None? then Clamp(Sum(selected)) else 0)
  {
    hide PrefixCount, Sum, TotalBytes;
    var rows := CandidatesOf(queue, segments, target.collection);
    var selected := Selected(rows, options.policies, now);
    SelectionIsSound(queue, segments, target, options.policies, now, faults);
    TotalIsClampedSum(rows);
    TotalIsClampedSum(selected);
    CandidatesOfAreSorted(queue, segments, target.collection);
    FirstNegativeIsFirst(rows);
  }

  ghost function FirstId(rows: seq<Row>): Option<int> {
    if |rows| > 0 then Some(rows[0].seqId) else None
  }

  ghost function LastId(rows: seq<Row>): Option<int> {
    if |rows| > 0 then Some(rows[|rows| - 1].seqId) else None
  }

  lemma CandidatesOfAreSorted(queue: seq<QueueRow>, segments: seq<Segment>, c: CollectionId)
    requires SortedQueue(queue)
    ensures SortedRows(CandidatesOf(queue, segments, c))
  {
    if SafeCutoff(segments, c).Some? { CandidateMembers(queue, c, SafeCutoff(segments, c).value); }
  }

  lemma {:induction false} FirstNegativeIsFirst(rows: seq<Row>)
    requires SortedRows(rows)
    ensures FirstNegative(rows) == if rows != [] && rows[0].seqId < 0 then Some(rows[0].seqId) else None
  {
    if rows != [] && rows[0].seqId >= 0 {
      NonNegativeHasNone(rows);
    }
  }

  // ---- Totals ----

  ghost function SumOver(results: seq<CollectionResult>, figure: CollectionResult -> nat): nat {
    if results == [] then 0 else
    SumOver(results[..|results| - 1], figure) + figure(results[|results| - 1])
  }

  /** Every total is the true sum of its figure over the results, cut at the largest u64. */
  lemma {:induction false} TotalsAreClampedSums(results: seq<CollectionResult>)
    ensures var summary := Summary(results);
            && summary.collections == results && summary.collectionCount == Clamp(|results|)
            && summary.totals.candidateCount == Clamp(SumOver(results, (r: CollectionResult) => r.candidateCount))
            && summary.totals.candidateBytes == Clamp(SumOver(results, (r: CollectionResult) => r.candidateBytes))
            && summary.totals.prunedCount == Clamp(SumOver(results, (r: CollectionResult) => r.prunedCount))
            && summary.totals.prunedBytes == Clamp(SumOver(results, (r: CollectionResult) => r.prunedBytes))
  {
    if results != [] {
      TotalsAreClampedSums(results[..|results| - 1]);
    }
  }

  // ---- Conservation of bytes ----

  lemma {:induction false} PurgeTakesBytes(queue: seq<QueueRow>, c: CollectionId, bound: int)
    ensures AllBytes(queue) == AllBytes(Purged(queue, c, bound)) + BytesOf(queue, c, I64_MIN, bound)
  {
    if queue != [] {
      PurgeTakesBytes(queue[1..], c, bound);
      if !(queue[0].collection == c && queue[0].seqId < bound) {
        assert Purged(queue, c, bound)[1..] == Purged(queue[1..], c, bound);
      }
    }
  }

  lemma {:induction false} BytesSplit(queue: seq<QueueRow>, c: CollectionId, start: int, middle: int, end: int)
    requires start <= middle <= end
    ensures BytesOf(queue, c, start, end) == BytesOf(queue, c, start, middle) + BytesOf(queue, c, middle, end)
  {
    if queue != [] { BytesSplit(queue[1..], c, start, middle, end); }
  }

  lemma SelectedBytes(queue: seq<QueueRow>, c: CollectionId, cutoff: I64, p: nat)
    requires SortedQueue(queue) && 0 < cutoff && 0 < p <= |Candidates(queue, c, cutoff)|
    ensures var rows := Candidates(queue, c, cutoff);
            BytesOf(queue, c, I64_MIN, rows[p - 1].seqId + 1) == Sum(rows[..p])
  {
    hide Candidates, SortedQueue, Sum, BytesOf, FromSeq;
    var rows := Candidates(queue, c, cutoff);
    var bound := rows[p - 1].seqId + 1;
    CandidatesAreSortedAndSafe(queue, c, cutoff);
    FromSeqDropsPrefix(rows, p);
    FromSeqKeepsAll(rows, I64_MIN);
    CandidateBytes(queue, c, cutoff, bound);
    CandidateBytes(queue, c, cutoff, I64_MIN);
    BytesSplit(queue, c, I64_MIN, bound, cutoff);
    SumSplits(rows, p);
  }

  lemma PrunedBytesAreTheLoss(
    queue: seq<QueueRow>, segments: seq<Segment>, target: Target, policies: Policies, now: I64, faults: Faults)
    requires SortedQueue(queue)
    ensures var outcome := PruneTarget(queue, segments, target, Options(false, policies), now, faults);
            && SortedQueue(outcome.queue) && AllBytes(outcome.queue) <= AllBytes(queue)
            && outcome.result.prunedBytes == Clamp(AllBytes(queue) - AllBytes(outcome.queue))
  {
    hide PruneTarget, SortedQueue, Sum, AllBytes, BytesOf, Selected, SafeCutoff, Candidates, Purged, Clamp;
    ResultTellsThePrune(queue, segments, target, Options(false, policies), now, faults);
    PruneRemovesExactlyTheSelection(queue, segments, target, Options(false, policies), now, faults);
    QueueAfterPrune(queue, segments, target, policies, now, faults);
    NoBytes();
    var selected := Selected(CandidatesOf(queue, segments, target.collection), policies, now);
    if selected != [] && PruneTarget(queue, segments, target, Options(false, policies), now, faults).result.error.None? {
      SelectedBytes(queue, target.collection, SafeCutoff(segments, target.collection).value, |selected|);
      PurgeTakesBytes(queue, target.collection, selected[|selected| - 1].seqId + 1);
    }
  }

  lemma QueueAfterPrune(
    queue: seq<QueueRow>, segments: seq<Segment>, target: Target, policies: Policies, now: I64, faults: Faults)
    ensures var c, rows := target.collection, CandidatesOf(queue, segments, target.collection);
            var selected := Selected(rows, policies, now);
            var outcome := PruneTarget(queue, segments, target, Options(false, policies), now, faults);
            && selected <= rows && selected == rows[..|selected|]
            && (outcome.result.error.Some? || selected == [] ==> outcome.queue == queue)
            && (outcome.result.error.None? && selected != [] ==>
                  && SafeCutoff(segments, c).Some? && SafeCutoff(segments, c).value > 0
                  && rows == Candidates(queue, c, SafeCutoff(segments, c).value)
                  && selected[|selected| - 1] == rows[|selected| - 1]
                  && outcome.queue == Purged(queue, c, selected[|selected| - 1].seqId + 1))
  {
    hide PrefixCount, Purged, Candidates;
    PrefixCountWithin(CandidatesOf(queue, segments, target.collection), policies, now);
  }

  lemma NoBytes()
    ensures Sum([]) == 0 && Clamp(0) == 0
  {
  }

  lemma {:induction false} PrunedBytesAddUp(
    queue: seq<QueueRow>, segments: seq<Segment>, targets: seq<Target>, policies: Policies, now: I64,
    faults: seq<Faults>, results: seq<CollectionResult>)
    requires SortedQueue(queue) && |results| <= |targets| == |faults|
    requires forall i | 0 <= i < |results| ::
               results[i] == OutcomeAt(queue, segments, targets, Options(false, policies), now, faults, i).result
    ensures var last := QueueAfter(queue, segments, targets, Options(false, policies), now, faults, |results|);
            && SortedQueue(last) && AllBytes(last) <= AllBytes(queue)
            && Total(results).prunedBytes == Clamp(AllBytes(queue) - AllBytes(last))
  {
    hide PruneTarget, SortedQueue, Clamp, SatAdd, Total, AllBytes;
    ClampsAddUp(0, 0);
    BytesOfOneMore(results);
    if results != [] {
      var n := |results| - 1;
      PrunedBytesAddUp(queue, segments, targets, policies, now, faults, results[..n]);
      var before := QueueAfter(queue, segments, targets, Options(false, policies), now, faults, n);
      var after := PruneTarget(before, segments, targets[n], Options(false, policies), now, faults[n]).queue;
      PrunedBytesAreTheLoss(before, segments, targets[n], policies, now, faults[n]);
      ClampsAddUp(AllBytes(queue) - AllBytes(before), AllBytes(before) - AllBytes(after));
    }
  }

  lemma BytesOfOneMore(results: seq<CollectionResult>)
    ensures results == [] ==> Total(results).prunedBytes == 0
    ensures results != [] ==>
              var n := |results| - 1;
              Total(results).prunedBytes == SatAdd(Total(results[..n]).prunedBytes, results[n].prunedBytes)
  {
  }

  /** The reported bytes of a run are the bytes the log lost. */
  lemma RunCountsEveryRemovedByte(
    queue: seq<QueueRow>, segments: seq<Segment>, targets: seq<Target>, policies: Policies, now: I64, faults: seq<Faults>)
    requires SortedQueue(queue) && |faults| == |targets|
    ensures var (last, results) := Run(queue, segments, targets, Options(false, policies), ContinueOnError, now, faults);
            && results.Ok? && AllBytes(last) <= AllBytes(queue)
            && Summary(results.value).totals.prunedBytes == Clamp(AllBytes(queue) - AllBytes(last))
  {
    hide PruneTarget, SortedQueue, Run, AllBytes;
    ContinueOnErrorReportsEveryTarget(queue, segments, targets, Options(false, policies), now, faults);
    var results := Run(queue, segments, targets, Options(false, policies), ContinueOnError, now, faults).1.value;
    PrunedBytesAddUp(queue, segments, targets, policies, now, faults, results);
  }
}
