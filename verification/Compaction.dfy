/**
 Explicit compaction: for every target the pending operations are read, the index is backfilled, the log is
 purged and the pending operations are read again. What the runtime answers to each request is given.
 */
module Compaction {
  import opened Outcomes
  import opened MachineInts

  datatype FailureMode = FailFast | ContinueOnError

  datatype Request = Status(collection: string) | Backfill(collection: string) | Purge(collection: string)

  /** What the runtime answers, request by request; errors are texts. */
  datatype Answers = Answers(
    before: Result<U64, string>, backfill: Option<string>, purge: Option<string>, after: Result<U64, string>)

  datatype CollectionResult = CollectionResult(
    collection: string, pendingBefore: Option<U64>, pendingAfter: Option<U64>,
    beforeError: Option<string>, afterError: Option<string>, error: Option<string>)

  datatype Response = Response(count: U64, pendingBefore: U64, pendingAfter: U64, collections: seq<CollectionResult>)

  datatype CompactionError = ManagerUnavailable | Failed(error: string)

  /** Why a collection is not compacted, if it is not. */
  function Failure(a: Answers): Option<string> {
    if a.backfill.Some? then a.backfill else a.purge
  }

  function Known(status: Result<U64, string>): Option<U64> {
    if status.Ok? then Some(status.value) else None
  }

  function Warning(status: Result<U64, string>): Option<string> {
    if status.Ok? then None else Some(status.error)
  }

  function Report(collection: string, a: Answers): CollectionResult {
    if Failure(a).Some? then
      CollectionResult(collection, Known(a.before), None, Warning(a.before), None, Failure(a))
    else
      CollectionResult(collection, Known(a.before), Known(a.after), Warning(a.before), Warning(a.after), None)
  }

  function RequestsFor(collection: string, a: Answers): seq<Request> {
    if a.backfill.Some? then [Status(collection), Backfill(collection)]
    else if a.purge.Some? then [Status(collection), Backfill(collection), Purge(collection)]
    else [Status(collection), Backfill(collection), Purge(collection), Status(collection)]
  }

  function Requests(targets: seq<string>, answers: seq<Answers>): seq<Request>
    requires |targets| == |answers|
  {
    if targets == [] then [] else
    var n := |targets| - 1;
    Requests(targets[..n], answers[..n]) + RequestsFor(targets[n], answers[n])
  }

  ghost predicate FirstFailureAt(answers: seq<Answers>, n: nat) {
    n < |answers| && Failure(answers[n]).Some? && forall i | 0 <= i < n :: Failure(answers[i]).None?
  }

  ghost predicate NoFailure(answers: seq<Answers>) {
    forall i | 0 <= i < |answers| :: Failure(answers[i]).None?
  }

  ghost predicate Reported(targets: seq<string>, answers: seq<Answers>, results: seq<CollectionResult>) {
    && |results| == |targets| == |answers|
    && forall i | 0 <= i < |results| :: results[i] == Report(targets[i], answers[i])
  }

  /** The true sum of the figures that are known. */
  function SumKnown(values: seq<Option<U64>>): nat {
    if values == [] then 0 else
    var n := |values| - 1;
    SumKnown(values[..n]) + (if values[n].Some? then values[n].value else 0)
  }

  function PendingBefore(results: seq<CollectionResult>): seq<Option<U64>> {
    seq(|results|, i requires 0 <= i < |results| => results[i].pendingBefore)
  }

  function PendingAfter(results: seq<CollectionResult>): seq<Option<U64>> {
    seq(|results|, i requires 0 <= i < |results| => results[i].pendingAfter)
  }

  lemma OneMoreResult(results: seq<CollectionResult>, result: CollectionResult)
    ensures SumKnown(PendingBefore(results + [result])) ==
            SumKnown(PendingBefore(results)) + (if result.pendingBefore.Some? then result.pendingBefore.value else 0)
    ensures SumKnown(PendingAfter(results + [result])) ==
            SumKnown(PendingAfter(results)) + (if result.pendingAfter.Some? then result.pendingAfter.value else 0)
  {
    var more := results + [result];
    assert PendingBefore(more)[..|results|] == PendingBefore(results);
    assert PendingAfter(more)[..|results|] == PendingAfter(results);
  }

  lemma NothingDone(targets: seq<string>, answers: seq<Answers>)
    requires |targets| == |answers|
    ensures SumKnown(PendingBefore([])) == 0 && SumKnown(PendingAfter([])) == 0 && Clamp(0) == 0
    ensures Reported(targets[..0], answers[..0], []) && NoFailure(answers[..0]) && Requests(targets[..0], answers[..0]) == []
    ensures targets == [] ==> Reported(targets, answers, []) && NoFailure(answers) && Requests(targets, answers) == []
  {
  }

  lemma OneMoreTarget(targets: seq<string>, answers: seq<Answers>, results: seq<CollectionResult>, i: nat)
    requires |targets| == |answers| && i < |targets| && Reported(targets[..i], answers[..i], results)
    ensures var result := Report(targets[i], answers[i]);
            && result.error == Failure(answers[i])
            && Reported(targets[..i + 1], answers[..i + 1], results + [result])
    ensures Requests(targets[..i + 1], answers[..i + 1]) ==
            Requests(targets[..i], answers[..i]) + RequestsFor(targets[i], answers[i])
    ensures NoFailure(answers[..i]) && Failure(answers[i]).None? ==> NoFailure(answers[..i + 1])
    ensures NoFailure(answers[..i]) && Failure(answers[i]).Some? ==> FirstFailureAt(answers, i)
  {
    assert targets[..i + 1][..i] == targets[..i] && answers[..i + 1][..i] == answers[..i];
    assert NoFailure(answers[..i]) ==> forall k | 0 <= k < i :: Failure(answers[..i][k]).None? && answers[..i][k] == answers[k];
  }

  lemma SatAddClamps(n: nat, value: U64)
    ensures SatAdd(Clamp(n), value) == Clamp(n + value)
  {
  }

  class LocalRuntime {
    var sent: seq<Request>

    method IndexingStatus(collection: string, answer: Result<U64, string>) returns (r: Result<U64, string>)
      modifies this
      ensures sent == old(sent) + [Status(collection)] && r == answer
    {
      sent := sent + [Status(collection)];
      return answer;
    }

    /** Backfills and, when that succeeded, purges. */
    method Compact(collection: string, a: Answers) returns (error: Option<string>)
      modifies this
      ensures error == Failure(a)
      ensures sent == old(sent) + (if a.backfill.Some? then [Backfill(collection)] else [Backfill(collection), Purge(collection)])
    {
      sent := sent + [Backfill(collection)];
      if a.backfill.Some? { return a.backfill; }
      sent := sent + [Purge(collection)];
      return a.purge;
    }

    /** One target: nothing is asked once a step failed. */
    method CompactCollection(collection: string, a: Answers) returns (result: CollectionResult)
      modifies this
      ensures result == Report(collection, a)
      ensures sent == old(sent) + RequestsFor(collection, a)
    {
      var before := IndexingStatus(collection, a.before);
      var error := Compact(collection, a);
      if error.Some? { return CollectionResult(collection, Known(before), None, Warning(before), None, error); }
      var after := IndexingStatus(collection, a.after);
      return CollectionResult(collection, Known(before), Known(after), Warning(before), Warning(after), None);
    }

    /**
     Every target is reported once and in order, and the totals are the saturating sums of what is reported,
     unless a failure stops the run; then nothing is asked about later targets.
     */
    method RunExplicitCompaction(
      targets: seq<string>, managerAvailable: bool, mode: FailureMode, answers: seq<Answers>)
      returns (r: Result<Response, CompactionError>)
      requires |targets| == |answers|
      modifies this
      ensures targets == [] ==> r == Ok(Response(0, 0, 0, []))
      ensures targets == [] || !managerAvailable ==> sent == old(sent)
      ensures r == Err(ManagerUnavailable) <==> targets != [] && !managerAvailable
      ensures r.Ok? ==>
                var resp := r.value;
                && (mode.FailFast? ==> NoFailure(answers))
                && Reported(targets, answers, resp.collections) && resp.count == Clamp(|targets|)
                && resp.pendingBefore == Clamp(SumKnown(PendingBefore(resp.collections)))
                && resp.pendingAfter == Clamp(SumKnown(PendingAfter(resp.collections)))
                && sent == old(sent) + Requests(targets, answers)
      ensures r.Err? && managerAvailable ==>
                mode.FailFast? && exists n: nat ::
                  && FirstFailureAt(answers, n) && r.error == Failed(Failure(answers[n]).value)
                  && sent == old(sent) + Requests(targets[..n + 1], answers[..n + 1])
    {
      hide Report, RequestsFor, Requests, Reported, NoFailure, FirstFailureAt, Failure, SumKnown, PendingBefore,
        PendingAfter, SatAdd, Clamp;
      NothingDone(targets, answers);
      if targets == [] { return Ok(Response(0, 0, 0, [])); }
      if !managerAvailable { return Err(ManagerUnavailable); }
      var beforeTotal: U64, afterTotal: U64 := 0, 0;
      var results: seq<CollectionResult> := [];
      for i := 0 to |targets|
        invariant |results| == i
        invariant Reported(targets[..i], answers[..i], results)
        invariant mode.FailFast? ==> NoFailure(answers[..i])
        invariant beforeTotal == Clamp(SumKnown(PendingBefore(results)))
        invariant afterTotal == Clamp(SumKnown(PendingAfter(results)))
        invariant sent == old(sent) + Requests(targets[..i], answers[..i])
      {
        OneMoreTarget(targets, answers, results, i);
        var result := CompactCollection(targets[i], answers[i]);
        if mode.FailFast? && result.error.Some? { return Err(Failed(result.error.value)); }
        OneMoreResult(results, result);
        if result.pendingBefore.Some? {
          SatAddClamps(SumKnown(PendingBefore(results)), result.pendingBefore.value);
          beforeTotal := SatAdd(beforeTotal, result.pendingBefore.value);
        }
        if result.pendingAfter.Some? {
          SatAddClamps(SumKnown(PendingAfter(results)), result.pendingAfter.value);
          afterTotal := SatAdd(afterTotal, result.pendingAfter.value);
        }
        results := results + [result];
      }
      assert targets[..|targets|] == targets && answers[..|answers|] == answers;
      return Ok(Response(Clamp(|results|), beforeTotal, afterTotal, results));
    }
  }

  /** The log of a collection is purged only right after its index was backfilled. */
  lemma {:induction false} PurgeFollowsBackfill(targets: seq<string>, answers: seq<Answers>, k: nat)
    requires |targets| == |answers| && k < |Requests(targets, answers)| && Requests(targets, answers)[k].Purge?
    ensures k > 0 && Requests(targets, answers)[k - 1] == Backfill(Requests(targets, answers)[k].collection)
    ensures exists i :: 0 <= i < |targets| && targets[i] == Requests(targets, answers)[k].collection && answers[i].backfill.None?
    decreases |targets|
  {
    var n := |targets| - 1;
    var earlier := Requests(targets[..n], answers[..n]);
    if k < |earlier| {
      PurgeFollowsBackfill(targets[..n], answers[..n], k);
      var i :| 0 <= i < n && targets[..n][i] == earlier[k].collection && answers[..n][i].backfill.None?;
      assert targets[i] == earlier[k].collection && answers[i].backfill.None?;
    } else {
      assert Requests(targets, answers)[k] == RequestsFor(targets[n], answers[n])[k - |earlier|];
      assert targets[n] == Requests(targets, answers)[k].collection && answers[n].backfill.None?;
    }
  }

  /** Collections that failed or whose status is unknown add nothing to the total pending afterwards. */
  lemma {:induction false} PendingAfterCountsTheCompacted(
    targets: seq<string>, answers: seq<Answers>, results: seq<CollectionResult>)
    requires Reported(targets, answers, results)
    ensures SumKnown(PendingAfter(results)) == SumOfCompacted(answers)
    decreases |targets|
  {
    if results != [] {
      var n := |results| - 1;
      PendingAfterCountsTheCompacted(targets[..n], answers[..n], results[..n]);
      assert results == results[..n] + [results[n]];
      OneMoreResult(results[..n], results[n]);
    }
  }

  function SumOfCompacted(answers: seq<Answers>): nat {
    if answers == [] then 0 else
    var n := |answers| - 1;
    SumOfCompacted(answers[..n]) +
    match answers[n] { case Answers(_, None, None, Ok(pending)) => pending case _ => 0 }
  }

  /** The total pending before counts every collection whose status was known, compacted or not. */
  lemma {:induction false} PendingBeforeCountsTheKnown(
    targets: seq<string>, answers: seq<Answers>, results: seq<CollectionResult>)
    requires Reported(targets, answers, results)
    ensures SumKnown(PendingBefore(results)) == SumOfKnown(answers)
    decreases |targets|
  {
    if results != [] {
      var n := |results| - 1;
      PendingBeforeCountsTheKnown(targets[..n], answers[..n], results[..n]);
      assert results == results[..n] + [results[n]];
      OneMoreResult(results[..n], results[n]);
    }
  }

  function SumOfKnown(answers: seq<Answers>): nat {
    if answers == [] then 0 else
    var n := |answers| - 1;
    SumOfKnown(answers[..n]) + if answers[n].before.Ok? then answers[n].before.value else 0
  }

  /**
   A report is about its collection and hides nothing: a status is given or its error is, the status afterwards
   only for a collection that was compacted, and the error is that of the step that failed.
   */
  lemma ReportsHideNothing(collection: string, a: Answers)
    ensures var r := Report(collection, a);
            && r.collection == collection
            && (r.pendingBefore.Some? <==> a.before.Ok?) && (r.beforeError.Some? <==> a.before.Err?)
            && (a.before == match r.pendingBefore { case Some(n) => Ok(n) case None => Err(r.beforeError.value) })
            && (r.error.None? <==> a.backfill.None? && a.purge.None?)
            && (r.error.Some? ==> r.error == (if a.backfill.Some? then a.backfill else a.purge)
                                  && r.pendingAfter.None? && r.afterError.None?)
            && (r.error.None? ==>
                  && (r.pendingAfter.Some? <==> a.after.Ok?) && (r.afterError.Some? <==> a.after.Err?)
                  && (a.after == match r.pendingAfter { case Some(n) => Ok(n) case None => Err(r.afterError.value) }))
  {
  }

  lemma {:induction false} RequestsInOrder(targets: seq<string>, answers: seq<Answers>, i: nat)
    requires |targets| == |answers| && i < |targets|
    ensures var start := |Requests(targets[..i], answers[..i])|;
            var own := RequestsFor(targets[i], answers[i]);
            start + |own| <= |Requests(targets, answers)| && Requests(targets, answers)[start..start + |own|] == own
    decreases |targets|
  {
    hide RequestsFor;
    var n := |targets| - 1;
    if i < n {
      RequestsInOrder(targets[..n], answers[..n], i);
      assert targets[..n][..i] == targets[..i] && answers[..n][..i] == answers[..i];
    }
  }

  /**
   Every target has its requests in one stretch of what is sent, in order of the targets: its status, the
   backfill, if that succeeds the purge, and if that succeeds the status again.
   */
  lemma EveryTargetHasItsRequests(targets: seq<string>, answers: seq<Answers>, i: nat)
    requires |targets| == |answers| && i < |targets|
    ensures var start, c, a := |Requests(targets[..i], answers[..i])|, targets[i], answers[i];
            var length := if a.backfill.Some? then 2 else if a.purge.Some? then 3 else 4;
            && |Requests(targets[..i + 1], answers[..i + 1])| == start + length
            && start + length <= |Requests(targets, answers)|
            && Requests(targets, answers)[start..start + length]
               == [Status(c), Backfill(c), Purge(c), Status(c)][..length]
  {
    hide Requests;
    RequestsInOrder(targets, answers, i);
    OneMoreTarget(targets, answers, seq(i, k requires 0 <= k < i => Report(targets[k], answers[k])), i);
    var c := targets[i];
    assert [Status(c), Backfill(c), Purge(c), Status(c)][..2] == [Status(c), Backfill(c)];
    assert [Status(c), Backfill(c), Purge(c), Status(c)][..3] == [Status(c), Backfill(c), Purge(c)];
    assert [Status(c), Backfill(c), Purge(c), Status(c)][..4] == [Status(c), Backfill(c), Purge(c), Status(c)];
  }
}
