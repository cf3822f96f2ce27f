/**
 The tables the prune engine works on, and its queries as filters. The queue is listed in primary-key
 order; a topic is represented by the collection it belongs to.
 */
module WalLog {
  import opened MachineInts
  import opened Outcomes
  import opened WalSelection

  type CollectionId = nat

  datatype QueueRow = QueueRow(seqId: I64, collection: CollectionId, createdAtSecs: I64, bytes: RowBytes, operation: string)

  /** A segment and the last sequence id it has applied, if its `max_seq_id` row exists. */
  datatype Segment = Segment(collection: CollectionId, maxSeqId: Option<I64>) {
    function Applied(): I64 {
      if maxSeqId.Some? then maxSeqId.value else -1
    }
  }

  ghost predicate SortedQueue(queue: seq<QueueRow>) {
    forall i, j | 0 <= i < j < |queue| :: queue[i].seqId < queue[j].seqId
  }

  ghost predicate SortedRows(rows: seq<Row>) {
    forall i, j | 0 <= i < j < |rows| :: rows[i].seqId < rows[j].seqId
  }

  // ---- The safe cutoff ----

  function MinApplied(segments: seq<Segment>, c: CollectionId): Option<I64> {
    if segments == [] then None else
    var rest := MinApplied(segments[1..], c);
    if segments[0].collection != c then rest
    else if rest.Some? && rest.value <= segments[0].Applied() then rest
    else Some(segments[0].Applied())
  }

  function SafeCutoff(segments: seq<Segment>, c: CollectionId): Option<I64> {
    var least := MinApplied(segments, c);
    if least.Some? && least.value > 0 then least else None
  }

  /** A cutoff exists exactly when the collection has segments and all of them applied something; it is their minimum. */
  lemma {:induction false} SafeCutoffIsMinimum(segments: seq<Segment>, c: CollectionId)
    ensures SafeCutoff(segments, c).Some? <==>
            && (exists g | 0 <= g < |segments| :: segments[g].collection == c)
            && (forall g | 0 <= g < |segments| && segments[g].collection == c :: segments[g].Applied() > 0)
    ensures var cutoff := SafeCutoff(segments, c);
            cutoff.Some? ==>
              && (forall g | 0 <= g < |segments| && segments[g].collection == c :: cutoff.value <= segments[g].Applied())
              && (exists g | 0 <= g < |segments| && segments[g].collection == c :: cutoff.value == segments[g].Applied())
  {
    MinAppliedIsMinimum(segments, c);
  }

  lemma {:induction false} MinAppliedIsMinimum(segments: seq<Segment>, c: CollectionId)
    ensures var least := MinApplied(segments, c);
            && (least.None? <==> forall g | 0 <= g < |segments| :: segments[g].collection != c)
            && (least.Some? ==>
                  && (forall g | 0 <= g < |segments| && segments[g].collection == c :: least.value <= segments[g].Applied())
                  && (exists g | 0 <= g < |segments| && segments[g].collection == c :: least.value == segments[g].Applied()))
  {
    if segments != [] {
      var rest := segments[1..];
      MinAppliedIsMinimum(rest, c);
      assert forall g | 0 <= g < |rest| :: rest[g] == segments[g + 1];
      var least := MinApplied(segments, c);
      if MinApplied(rest, c).Some? {
        var g :| 0 <= g < |rest| && rest[g].collection == c && MinApplied(rest, c).value == rest[g].Applied();
        assert segments[g + 1].collection == c;
      }
      assert segments[0].collection == c ==> least.Some?;
      forall g | 0 <= g < |segments| && segments[g].collection == c
        ensures least.Some? && least.value <= segments[g].Applied()
      {
        if g > 0 { assert segments[g] == rest[g - 1]; }
      }
    }
  }

  // ---- Candidate rows and purge ----

  function ToRow(row: QueueRow): Row {
    Row(row.seqId, row.createdAtSecs, row.bytes)
  }

  function Candidates(queue: seq<QueueRow>, c: CollectionId, cutoff: I64): seq<Row> {
    if cutoff <= 0 || queue == [] then []
    else if queue[0].collection == c && queue[0].seqId < cutoff
    then [ToRow(queue[0])] + Candidates(queue[1..], c, cutoff)
    else Candidates(queue[1..], c, cutoff)
  }

  /** What a successful purge leaves: the rows of other collections, and those of `c` from `bound` on. */
  function Purged(queue: seq<QueueRow>, c: CollectionId, bound: int): seq<QueueRow> {
    if queue == [] then []
    else if queue[0].collection == c && queue[0].seqId < bound then Purged(queue[1..], c, bound)
    else [queue[0]] + Purged(queue[1..], c, bound)
  }

  function FromSeq(rows: seq<Row>, bound: int): seq<Row> {
    if rows == [] then []
    else if rows[0].seqId < bound then FromSeq(rows[1..], bound)
    else [rows[0]] + FromSeq(rows[1..], bound)
  }

  lemma {:induction false} PurgedMembers(queue: seq<QueueRow>, c: CollectionId, bound: int)
    requires SortedQueue(queue)
    ensures SortedQueue(Purged(queue, c, bound))
    ensures forall row :: row in Purged(queue, c, bound) <==> row in queue && !(row.collection == c && row.seqId < bound)
  {
    if queue != [] {
      var rest := queue[1..];
      assert SortedQueue(rest);
      PurgedMembers(rest, c, bound);
      var kept := Purged(rest, c, bound);
      assert forall row :: row in queue <==> row == queue[0] || row in rest;
      forall j | 0 <= j < |kept|
        ensures queue[0].seqId < kept[j].seqId
      {
        assert kept[j] in rest;
      }
    }
  }

  lemma {:induction false} CandidateMembers(queue: seq<QueueRow>, c: CollectionId, cutoff: I64)
    requires SortedQueue(queue)
    ensures SortedRows(Candidates(queue, c, cutoff))
    ensures forall row :: row in Candidates(queue, c, cutoff) <==>
              exists i | 0 <= i < |queue| :: ToRow(queue[i]) == row && queue[i].collection == c && queue[i].seqId < cutoff && cutoff > 0
  {
    if cutoff > 0 && queue != [] {
      var rest := queue[1..];
      assert SortedQueue(rest);
      CandidateMembers(rest, c, cutoff);
      var rows := Candidates(rest, c, cutoff);
      forall j | 0 <= j < |rows|
        ensures queue[0].seqId < rows[j].seqId
      {
        assert rows[j] in rows;
        var i :| 0 <= i < |rest| && ToRow(rest[i]) == rows[j];
        assert rest[i] == queue[i + 1];
      }
      forall row
        ensures row in Candidates(queue, c, cutoff) <==>
                exists i | 0 <= i < |queue| :: ToRow(queue[i]) == row && queue[i].collection == c && queue[i].seqId < cutoff && cutoff > 0
      {
        if row in rows {
          var i :| 0 <= i < |rest| && ToRow(rest[i]) == row && rest[i].collection == c && rest[i].seqId < cutoff;
          assert ToRow(queue[i + 1]) == row;
        }
        if i :| 0 <= i < |queue| && ToRow(queue[i]) == row && queue[i].collection == c && queue[i].seqId < cutoff {
          if i > 0 { assert queue[i] == rest[i - 1]; }
        }
      }
    }
  }

  lemma CandidatesAreSortedAndSafe(queue: seq<QueueRow>, c: CollectionId, cutoff: I64)
    requires SortedQueue(queue)
    ensures var rows := Candidates(queue, c, cutoff);
            SortedRows(rows) && forall i | 0 <= i < |rows| :: rows[i].seqId < cutoff
  {
    CandidateMembers(queue, c, cutoff);
    var rows := Candidates(queue, c, cutoff);
    forall i | 0 <= i < |rows|
      ensures rows[i].seqId < cutoff
    {
      assert rows[i] in rows;
    }
  }

  /** A purge takes from the candidates of its collection exactly those below its bound. */
  lemma {:induction false} PurgedCandidates(queue: seq<QueueRow>, c: CollectionId, bound: int, cutoff: I64)
    ensures Candidates(Purged(queue, c, bound), c, cutoff) == FromSeq(Candidates(queue, c, cutoff), bound)
  {
    if queue != [] {
      PurgedCandidates(queue[1..], c, bound, cutoff);
      if queue[0].collection == c && queue[0].seqId < bound {
        if 0 < cutoff && queue[0].seqId < cutoff {
          assert Candidates(queue, c, cutoff)[1..] == Candidates(queue[1..], c, cutoff);
        }
      } else {
        assert Purged(queue, c, bound)[1..] == Purged(queue[1..], c, bound);
        if 0 < cutoff && queue[0].collection == c && queue[0].seqId < cutoff {
          assert Candidates(queue, c, cutoff)[1..] == Candidates(queue[1..], c, cutoff);
        }
      }
    }
  }

  /** A purge of one collection leaves the candidates of every other collection as they were. */
  lemma {:induction false} PurgedCandidatesOfOthers(queue: seq<QueueRow>, c: CollectionId, bound: int, d: CollectionId, cutoff: I64)
    requires c != d
    ensures Candidates(Purged(queue, c, bound), d, cutoff) == Candidates(queue, d, cutoff)
  {
    if queue != [] {
      PurgedCandidatesOfOthers(queue[1..], c, bound, d, cutoff);
      if !(queue[0].collection == c && queue[0].seqId < bound) {
        assert Purged(queue, c, bound)[1..] == Purged(queue[1..], c, bound);
      }
    }
  }

  lemma {:induction false} FromSeqDropsPrefix(rows: seq<Row>, p: nat)
    requires SortedRows(rows) && 0 < p <= |rows|
    ensures FromSeq(rows, rows[p - 1].seqId + 1) == rows[p..]
  {
    if p == 1 {
      FromSeqKeepsAll(rows[1..], rows[0].seqId + 1);
    } else {
      assert rows[1..][p - 2] == rows[p - 1];
      FromSeqDropsPrefix(rows[1..], p - 1);
      assert rows[1..][p - 1..] == rows[p..];
    }
  }

  lemma {:induction false} FromSeqKeepsAll(rows: seq<Row>, bound: int)
    requires forall i | 0 <= i < |rows| :: bound <= rows[i].seqId
    ensures FromSeq(rows, bound) == rows
  {
    if rows != [] {
      FromSeqKeepsAll(rows[1..], bound);
    }
  }
}
