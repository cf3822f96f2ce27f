/**
 The write-ahead log as a transition system: rows are appended, segments apply rows, prunes remove rows.
 Over every run no row that a segment still needs is lost, so recovery from the surviving rows rebuilds
 the state that the full history would give.
 */
module WalSafety {
  import opened MachineInts
  import opened Outcomes
  import opened WalSelection
  import opened WalLog
  import opened WalPrune

  /**
   `history` is every row ever appended and `queue` the rows that survive. The state of a segment is
   represented by the rows it has applied, in order; any other state is a fold over them.
   */
  datatype State = State(
    queue: seq<QueueRow>,
    segments: seq<Segment>,
    history: seq<QueueRow>,
    applied: seq<seq<QueueRow>>
  )

  datatype Step =
    | Append(row: QueueRow)
    | Advance(segment: nat, upTo: I64)
    | Prune(targets: seq<Target>, options: Options, mode: FailureMode, now: I64, faults: seq<Faults>)

  /** The rows of a collection in a range of sequence ids, exclusive below and inclusive above. */
  function Between(rows: seq<QueueRow>, c: CollectionId, above: int, upTo: int): seq<QueueRow> {
    if rows == [] then []
    else if rows[0].collection == c && above < rows[0].seqId <= upTo
    then [rows[0]] + Between(rows[1..], c, above, upTo)
    else Between(rows[1..], c, above, upTo)
  }

  /** The rows a segment has not applied yet. */
  function Unapplied(rows: seq<QueueRow>, segment: Segment): seq<QueueRow> {
    Between(rows, segment.collection, segment.Applied(), I64_MAX)
  }

  ghost predicate Init(s: State) {
    && s.queue == [] && s.history == []
    && |s.applied| == |s.segments|
    && (forall g | 0 <= g < |s.segments| :: s.segments[g].maxSeqId.None? && s.applied[g] == [])
  }

  /** Sequence ids start at 1. */
  function LastSeqId(rows: seq<QueueRow>): int {
    if rows == [] then 0 else rows[|rows| - 1].seqId
  }

  predicate Enabled(s: State, step: Step)
    requires |s.applied| == |s.segments|
  {
    match step
    case Append(row) =>
      LastSeqId(s.history) < row.seqId
    case Advance(g, upTo) =>
      g < |s.segments| && s.segments[g].Applied() <= upTo && 0 <= upTo <= LastSeqId(s.history)
    case Prune(targets, _, _, _, faults) => |faults| == |targets|
  }

  /** A segment applies what it finds in the surviving queue; a prune is a run of the prune engine. */
  function Next(s: State, step: Step): State
    requires |s.applied| == |s.segments| && Enabled(s, step)
  {
    match step
    case Append(row) => s.(queue := s.queue + [row], history := s.history + [row])
    case Advance(g, upTo) =>
      var segment := s.segments[g];
      s.(segments := s.segments[g := segment.(maxSeqId := Some(upTo))],
         applied := s.applied[g := s.applied[g] + Between(s.queue, segment.collection, segment.Applied(), upTo)])
    case Prune(targets, options, mode, now, faults) =>
      s.(queue := Run(s.queue, s.segments, targets, options, mode, now, faults).0)
  }

  ghost predicate Inv(s: State) {
    && |s.applied| == |s.segments|
    && SortedQueue(s.history) && SortedQueue(s.queue)
    && (forall row | row in s.queue :: row in s.history)
    && (forall row | row in s.history :: row.seqId > 0)
    && forall g | 0 <= g < |s.segments| :: SegmentInv(s, g)
  }

  /** Every row the segment still needs survives, and it has applied everything else, each row once and in order. */
  ghost predicate SegmentInv(s: State, g: nat)
    requires g < |s.segments| == |s.applied|
  {
    var segment := s.segments[g];
    && -1 <= segment.Applied() <= LastSeqId(s.history)
    && Unapplied(s.queue, segment) == Unapplied(s.history, segment)
    && s.applied[g] == Between(s.history, segment.collection, -1, segment.Applied())
  }

  // ---- Laws of `Between` ----

  lemma {:induction false} BetweenAppend(rows: seq<QueueRow>, row: QueueRow, c: CollectionId, above: int, upTo: int)
    ensures Between(rows + [row], c, above, upTo)
            == Between(rows, c, above, upTo) + (if row.collection == c && above < row.seqId <= upTo then [row] else [])
  {
    if rows == [] {
      assert [row][1..] == [];
    } else {
      assert (rows + [row])[1..] == rows[1..] + [row];
      BetweenAppend(rows[1..], row, c, above, upTo);
    }
  }

  /** A range of a sorted log splits at any point inside it. */
  lemma {:induction false} BetweenSplits(rows: seq<QueueRow>, c: CollectionId, above: int, mid: int, upTo: int)
    requires SortedQueue(rows) && above <= mid <= upTo
    ensures Between(rows, c, above, upTo) == Between(rows, c, above, mid) + Between(rows, c, mid, upTo)
  {
    if rows != [] {
      BetweenSplits(rows[1..], c, above, mid, upTo);
      if rows[0].collection == c && mid < rows[0].seqId {
        BetweenEmpty(rows[1..], c, above, mid);
      }
    }
  }

  lemma {:induction false} BetweenEmpty(rows: seq<QueueRow>, c: CollectionId, above: int, upTo: int)
    requires forall i | 0 <= i < |rows| :: rows[i].collection == c ==> !(above < rows[i].seqId <= upTo)
    ensures Between(rows, c, above, upTo) == []
  {
    if rows != [] {
      BetweenEmpty(rows[1..], c, above, upTo);
    }
  }

  /** A range above the purge bound, or of another collection, does not notice a purge. */
  lemma {:induction false} BetweenSurvivesPurge(
    rows: seq<QueueRow>, purged: CollectionId, bound: int, c: CollectionId, above: int, upTo: int)
    requires purged == c ==> bound <= above + 1
    ensures Between(Purged(rows, purged, bound), c, above, upTo) == Between(rows, c, above, upTo)
  {
    if rows != [] {
      BetweenSurvivesPurge(rows[1..], purged, bound, c, above, upTo);
      if !(rows[0].collection == purged && rows[0].seqId < bound) {
        assert Purged(rows, purged, bound)[1..] == Purged(rows[1..], purged, bound);
      }
    }
  }

  /** If two logs agree above a point they agree on every range above it. */
  lemma BetweenRestricts(a: seq<QueueRow>, b: seq<QueueRow>, c: CollectionId, above: int, mid: int)
    requires SortedQueue(a) && SortedQueue(b) && above <= mid <= I64_MAX
    requires Between(a, c, above, I64_MAX) == Between(b, c, above, I64_MAX)
    ensures Between(a, c, above, mid) == Between(b, c, above, mid)
    ensures Between(a, c, mid, I64_MAX) == Between(b, c, mid, I64_MAX)
  {
    BetweenComposes(a, c, above, I64_MAX, above, mid);
    BetweenComposes(b, c, above, I64_MAX, above, mid);
    BetweenComposes(a, c, above, I64_MAX, mid, I64_MAX);
    BetweenComposes(b, c, above, I64_MAX, mid, I64_MAX);
  }

  lemma {:induction false} BetweenComposes(rows: seq<QueueRow>, c: CollectionId, above: int, upTo: int, above': int, upTo': int)
    requires above <= above' && upTo' <= upTo
    ensures Between(Between(rows, c, above, upTo), c, above', upTo') == Between(rows, c, above', upTo')
  {
    if rows != [] {
      BetweenComposes(rows[1..], c, above, upTo, above', upTo');
      if rows[0].collection == c && above < rows[0].seqId <= upTo {
        assert Between(rows, c, above, upTo)[1..] == Between(rows[1..], c, above, upTo);
      }
    }
  }

  // ---- Preservation ----

  lemma InitEstablishes(s: State)
    requires Init(s)
    ensures Inv(s)
  {
  }

  /** A prune of another collection, or up to what the segment has applied, keeps every row the segment needs. */
  lemma CaughtUpKeepsUnapplied(
    queue: seq<QueueRow>, segments: seq<Segment>, target: Target, options: Options, now: I64, faults: Faults, later: Segment)
    requires SortedQueue(queue)
    requires var cutoff := SafeCutoff(segments, target.collection);
             later.collection != target.collection || cutoff.None? || cutoff.value <= later.Applied() + 1
    ensures Unapplied(PruneTarget(queue, segments, target, options, now, faults).queue, later) == Unapplied(queue, later)
  {
    hide PrefixCount, Between, Purged, Candidates, SafeCutoff, SortedQueue;
    var s := Select(queue, segments, target, options.policies, now, faults);
    if s.Ok? && !options.dryRun && s.value.selected != [] && faults.purge.None? {
      SelectionIsSound(queue, segments, target, options.policies, now, faults);
      var c, p := target.collection, |s.value.selected|;
      CandidatesAreSortedAndSafe(queue, c, s.value.cutoff.value);
      assert s.value.selected[p - 1] == s.value.rows[p - 1];
      BetweenSurvivesPurge(queue, c, s.value.selected[p - 1].seqId + 1, later.collection, later.Applied(), I64_MAX);
    }
  }

  /** One target of a prune keeps every unapplied row of every segment. */
  lemma PruneTargetKeepsUnapplied(
    queue: seq<QueueRow>, segments: seq<Segment>, target: Target, options: Options, now: I64, faults: Faults, g: nat)
    requires SortedQueue(queue) && g < |segments|
    ensures var after := PruneTarget(queue, segments, target, options, now, faults).queue;
            && SortedQueue(after) && (forall row | row in after :: row in queue)
            && Unapplied(after, segments[g]) == Unapplied(queue, segments[g])
  {
    hide PruneTarget, SafeCutoff, Unapplied, SortedQueue;
    PruneOnlyRemoves(queue, segments, target, options, now, faults);
    SafeCutoffIsMinimum(segments, target.collection);
    CaughtUpKeepsUnapplied(queue, segments, target, options, now, faults, segments[g]);
  }

  lemma PruneOnlyRemoves(
    queue: seq<QueueRow>, segments: seq<Segment>, target: Target, options: Options, now: I64, faults: Faults)
    requires SortedQueue(queue)
    ensures var after := PruneTarget(queue, segments, target, options, now, faults).queue;
            SortedQueue(after) && forall row | row in after :: row in queue
  {
    hide PrefixCount, Purged, Candidates, SafeCutoff, SortedQueue;
    var s := Select(queue, segments, target, options.policies, now, faults);
    if s.Ok? && s.value.selected != [] {
      PurgedMembers(queue, target.collection, s.value.selected[|s.value.selected| - 1].seqId + 1);
    }
  }

  lemma {:induction false} PruneKeepsUnapplied(
    queue: seq<QueueRow>, segments: seq<Segment>, targets: seq<Target>, options: Options, mode: FailureMode,
    now: I64, faults: seq<Faults>, g: nat)
    requires SortedQueue(queue) && g < |segments| && |faults| == |targets|
    ensures var after := Run(queue, segments, targets, options, mode, now, faults).0;
            && SortedQueue(after) && (forall row | row in after :: row in queue)
            && Unapplied(after, segments[g]) == Unapplied(queue, segments[g])
    decreases |targets|
  {
    hide PruneTarget;
    if targets != [] {
      PruneTargetKeepsUnapplied(queue, segments, targets[0], options, now, faults[0], g);
      var after := PruneTarget(queue, segments, targets[0], options, now, faults[0]).queue;
      PruneKeepsUnapplied(after, segments, targets[1..], options, mode, now, faults[1..], g);
    }
  }

  lemma AppendPreserves(s: State, row: QueueRow)
    requires Inv(s) && Enabled(s, Append(row))
    ensures Inv(Next(s, Append(row)))
  {
    hide Between;
    var s' := Next(s, Append(row));
    assert forall i | 0 <= i < |s.history| :: s.history[i].seqId <= LastSeqId(s.history);
    forall i | 0 <= i < |s.queue|
      ensures s.queue[i].seqId < row.seqId
    {
      assert s.queue[i] in s.history;
    }
    assert LastSeqId(s.history) >= 0 by {
      if s.history != [] { assert s.history[|s.history| - 1] in s.history; }
    }
    forall g | 0 <= g < |s'.segments|
      ensures SegmentInv(s', g)
    {
      var segment := s.segments[g];
      assert SegmentInv(s, g);
      BetweenAppend(s.queue, row, segment.collection, segment.Applied(), I64_MAX);
      BetweenAppend(s.history, row, segment.collection, segment.Applied(), I64_MAX);
      BetweenAppend(s.history, row, segment.collection, -1, segment.Applied());
    }
  }

  lemma AdvancePreserves(s: State, g: nat, upTo: I64)
    requires Inv(s) && Enabled(s, Advance(g, upTo))
    ensures Inv(Next(s, Advance(g, upTo)))
  {
    hide Between;
    var s' := Next(s, Advance(g, upTo));
    var segment := s.segments[g];
    assert SegmentInv(s, g);
    BetweenRestricts(s.queue, s.history, segment.collection, segment.Applied(), upTo);
    BetweenSplits(s.history, segment.collection, -1, segment.Applied(), upTo);
    forall k | 0 <= k < |s'.segments|
      ensures SegmentInv(s', k)
    {
      assert SegmentInv(s, k);
    }
  }

  lemma PrunePreserves(
    s: State, targets: seq<Target>, options: Options, mode: FailureMode, now: I64, faults: seq<Faults>)
    requires Inv(s) && |faults| == |targets|
    ensures Inv(Next(s, Prune(targets, options, mode, now, faults)))
  {
    hide PruneTarget;
    var s' := Next(s, Prune(targets, options, mode, now, faults));
    forall g | 0 <= g < |s'.segments|
      ensures SegmentInv(s', g)
    {
      assert SegmentInv(s, g);
      PruneKeepsUnapplied(s.queue, s.segments, targets, options, mode, now, faults, g);
    }
    if s.segments == [] {
      PruneWithoutSegments(s.queue, targets, options, mode, now, faults);
    } else {
      PruneKeepsUnapplied(s.queue, s.segments, targets, options, mode, now, faults, 0);
    }
  }

  /** With no segment there is no safe cutoff, so nothing is ever pruned. */
  lemma {:induction false} PruneWithoutSegments(
    queue: seq<QueueRow>, targets: seq<Target>, options: Options, mode: FailureMode, now: I64, faults: seq<Faults>)
    requires |faults| == |targets|
    ensures Run(queue, [], targets, options, mode, now, faults).0 == queue
    decreases |targets|
  {
    if targets != [] {
      assert CandidatesOf(queue, [], targets[0].collection) == [];
      PrefixCountWithin([], options.policies, now);
      assert PruneTarget(queue, [], targets[0], options, now, faults[0]).queue == queue;
      hide PruneTarget;
      PruneWithoutSegments(queue, targets[1..], options, mode, now, faults[1..]);
    }
  }

  // ---- Runs ----

  ghost predicate Reaches(s: State, steps: seq<Step>, last: State)
    decreases |steps|
  {
    if steps == [] then last == s else
    |s.applied| == |s.segments| && Enabled(s, steps[0]) && Reaches(Next(s, steps[0]), steps[1..], last)
  }

  lemma {:induction false} RunsKeepInv(s: State, steps: seq<Step>, last: State)
    requires Inv(s) && Reaches(s, steps, last)
    ensures Inv(last)
    decreases |steps|
  {
    if steps != [] {
      match steps[0] {
        case Append(row) => AppendPreserves(s, row);
        case Advance(g, upTo) => AdvancePreserves(s, g, upTo);
        case Prune(targets, options, mode, now, faults) => PrunePreserves(s, targets, options, mode, now, faults);
      }
      RunsKeepInv(Next(s, steps[0]), steps[1..], last);
    }
  }

  /** Applying operations to a state, for any kind of state. */
  ghost function Replay<S>(apply: (S, QueueRow) -> S, start: S, rows: seq<QueueRow>): S {
    if rows == [] then start else Replay(apply, apply(start, rows[0]), rows[1..])
  }

  lemma {:induction false} ReplayConcat<S>(apply: (S, QueueRow) -> S, start: S, a: seq<QueueRow>, b: seq<QueueRow>)
    ensures Replay(apply, start, a + b) == Replay(apply, Replay(apply, start, a), b)
    decreases |a|
  {
    if a == [] {
      assert a + b == b;
    } else {
      assert (a + b)[1..] == a[1..] + b;
      ReplayConcat(apply, apply(start, a[0]), a[1..], b);
    }
  }

  /**
   Over every run of appends, segment advances and prunes, from an empty log: a row that some segment of
   its collection has not applied is still in the log, and a segment that recovers by replaying the
   surviving rows reaches the state that replaying the full history of its collection gives.
   */
  lemma PruningNeverLosesNeededRows<S>(s: State, steps: seq<Step>, last: State, apply: (S, QueueRow) -> S, start: S, g: nat)
    requires Init(s) && Reaches(s, steps, last) && g < |last.segments|
    ensures |last.applied| == |last.segments|
    ensures forall row | row in last.history && row.collection == last.segments[g].collection
                         && row.seqId > last.segments[g].Applied() :: row in last.queue
    ensures Replay(apply, Replay(apply, start, last.applied[g]), Unapplied(last.queue, last.segments[g]))
            == Replay(apply, start, Between(last.history, last.segments[g].collection, -1, I64_MAX))
  {
    InitEstablishes(s);
    RunsKeepInv(s, steps, last);
    var segment := last.segments[g];
    var c := segment.collection;
    assert SegmentInv(last, g);
    BetweenSplits(last.history, c, -1, segment.Applied(), I64_MAX);
    ReplayConcat(apply, start, last.applied[g], Unapplied(last.queue, segment));
    BetweenMembers(last.history, c, segment.Applied(), I64_MAX);
    BetweenMembers(last.queue, c, segment.Applied(), I64_MAX);
  }

  lemma {:induction false} BetweenMembers(rows: seq<QueueRow>, c: CollectionId, above: int, upTo: int)
    ensures forall row :: row in Between(rows, c, above, upTo) <==> row in rows && row.collection == c && above < row.seqId <= upTo
  {
    if rows != [] {
      BetweenMembers(rows[1..], c, above, upTo);
      assert forall row :: row in rows <==> row == rows[0] || row in rows[1..];
    }
  }

  // ---- Segments that come later ----

  /** Pruning a target keeps what a segment outside the list has not applied, whatever the log and the policies are. */
  ghost predicate SafeForLater(segments: seq<Segment>, target: Target, later: Segment) {
    forall queue, policies: Policies, now, faults | SortedQueue(queue) && policies.Valid() ::
      Unapplied(PruneTarget(queue, segments, target, Options(false, policies), now, faults).queue, later)
      == Unapplied(queue, later)
  }

  /**
   Safety is for the segments that exist at the prune. For another one it is safe exactly when the segment is
   of another collection, nothing can be pruned, or it has applied everything below the safe cutoff.
   */
  lemma SafeForLaterExactlyWhenCaughtUp(segments: seq<Segment>, target: Target, later: Segment)
    ensures var cutoff := SafeCutoff(segments, target.collection);
            SafeForLater(segments, target, later) <==>
              later.collection != target.collection || cutoff.None? || cutoff.value <= later.Applied() + 1
  {
    hide PruneTarget, Unapplied, SafeCutoff;
    var cutoff := SafeCutoff(segments, target.collection);
    if later.collection != target.collection || cutoff.None? || cutoff.value <= later.Applied() + 1 {
      forall queue, policies: Policies, now, faults | SortedQueue(queue) && policies.Valid()
        ensures Unapplied(PruneTarget(queue, segments, target, Options(false, policies), now, faults).queue, later)
                == Unapplied(queue, later)
      {
        CaughtUpKeepsUnapplied(queue, segments, target, Options(false, policies), now, faults, later);
      }
    } else {
      var row := QueueRow(cutoff.value - 1, target.collection, 0, 32, "");
      LaterSegmentLosesRow(row, segments, target, later, 0);
      assert SortedQueue([row]) && KEEP_NOTHING.Valid();
    }
  }

  lemma LaterSegmentLosesRow(row: QueueRow, segments: seq<Segment>, target: Target, later: Segment, now: I64)
    requires later.collection == target.collection == row.collection && row.bytes > 0
    requires SafeCutoff(segments, target.collection).Some?
    requires row.seqId == SafeCutoff(segments, target.collection).value - 1 && row.seqId > later.Applied()
    ensures var after := PruneTarget([row], segments, target, Options(false, KEEP_NOTHING), now, NO_FAULTS);
            after.queue == [] && Unapplied([row], later) == [row] && Unapplied([], later) == []
  {
    hide PrefixCount;
    assert SafeCutoff(segments, target.collection).value > 0;
    hide SafeCutoff;
    var c, cutoff := row.collection, row.seqId + 1;
    assert [row][1..] == [] && Candidates([row][1..], c, cutoff) == [] && Purged([row][1..], c, cutoff) == [];
    var rows := CandidatesOf([row], segments, c);
    assert rows == [ToRow(row)];
    SingleRowIsSelected(rows, now);
    assert Selected(rows, KEEP_NOTHING, now) == rows;
    assert rows[1..] == [] && FirstNegative(rows).None?;
    assert Between([row][1..], c, later.Applied(), I64_MAX) == [];
  }

  /** A segment that starts from nothing after a prune up to sequence id 2: the row it misses is gone. */
  lemma LateSegmentMissesRows(row: QueueRow, target: Target)
    requires row.seqId == 1 && row.collection == target.collection && row.bytes > 0
    ensures var segments, later := [Segment(row.collection, Some(2))], Segment(row.collection, None);
            var after := PruneTarget([row], segments, target, Options(false, KEEP_NOTHING), 0, NO_FAULTS);
            Unapplied([row], later) == [row] && Unapplied(after.queue, later) == []
  {
    OneSegmentCutoff(row.collection, row.collection);
    LaterSegmentLosesRow(row, [Segment(row.collection, Some(2))], target, Segment(row.collection, None), 0);
  }
}
