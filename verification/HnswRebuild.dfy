/**
 Rebuilding an HNSW index: every record is copied into a fresh index under a dense new label, in the order
 of the old labels.
 */
module HnswRebuild {
  import opened MachineInts
  import opened Outcomes
  import opened HnswIdMaps

  type Embedding = seq<real>

  datatype Record = Record(id: string, lbl: U32, seqId: Option<U32>)

  /** What the index library and the file system do not let us see: which calls fail. */
  datatype Faults = Faults(init: bool, initialCapacity: nat, resize: bool, unreadable: set<nat>, refused: set<nat>)

  datatype IndexError = IndexFull | IndexFault

  datatype RebuildError =
    | UnknownDimension
    | InitFailed
    | ResizeFailed
    | MissingEmbedding(lbl: U32, id: string)
    | ReadFailed(lbl: U32)
    | LabelOverflow
    | AddFailed(lbl: U32, cause: IndexError)

  /** The part of an HNSW index that a rebuild uses: vectors by label, up to a capacity. */
  class HnswIndex {
    var vectors: map<nat, Embedding>
    var capacity: nat

    constructor (capacity: nat)
      ensures this.capacity == capacity && vectors == map[]
    {
      this.capacity := capacity;
      vectors := map[];
    }

    method Resize(newCapacity: nat)
      modifies this`capacity
      ensures capacity == newCapacity
    {
      capacity := newCapacity;
    }

    /** Refuses a new label when full. */
    method Add(lbl: nat, embedding: Embedding, fault: bool) returns (failure: Option<IndexError>)
      modifies this`vectors
      ensures failure == if lbl !in old(vectors) && |old(vectors)| >= capacity then Some(IndexFull)
                         else if fault then Some(IndexFault) else None
      ensures vectors == if failure.None? then old(vectors)[lbl := embedding] else old(vectors)
    {
      if lbl !in vectors && |vectors| >= capacity {
        return Some(IndexFull);
      }
      if fault {
        return Some(IndexFault);
      }
      vectors := vectors[lbl := embedding];
      return None;
    }
  }

  // ---- Capacity ----

  function Max(a: int, b: int): int {
    if a < b then b else a
  }

  /** A float-to-usize cast after rounding up: it saturates at both ends. */
  function CeilToUsize(x: real): U64 {
    var up := -((-x).Floor);
    if up < 0 then 0 else Clamp(up)
  }

  function RequiredCapacity(recordCount: U64, resizeFactor: real): U64 {
    var scaled := CeilToUsize((Max(recordCount, 1) as real) * resizeFactor);
    Max(Max(scaled, SatAdd(recordCount, 1)), 100)
  }

  ghost function Power(k: nat): nat {
    if k == 0 then 1 else 2 * Power(k - 1)
  }

  function NextPowerOfTwo(n: nat, power: nat): nat
    requires power > 0
    decreases n - power
  {
    if power >= n then power else NextPowerOfTwo(n, 2 * power)
  }

  /** The least power of two that is large enough. */
  ghost predicate LeastPowerOfTwo(n: nat, p: nat) {
    (exists k: nat :: p == Power(k)) && p >= n && forall k: nat | Power(k) >= n :: p <= Power(k)
  }

  lemma {:induction false} NextPowerOfTwoIsLeast(n: nat, k: nat)
    requires k > 0 ==> Power(k - 1) < n
    ensures Power(k) > 0 && LeastPowerOfTwo(n, NextPowerOfTwo(n, Power(k)))
    decreases n - Power(k)
  {
    PowersGrow(k, k);
    if Power(k) >= n {
      forall j: nat | Power(j) >= n
        ensures Power(k) <= Power(j)
      {
        if j < k { PowersGrow(j, k - 1); } else { PowersGrow(k, j); }
      }
    } else {
      assert Power(k + 1) == 2 * Power(k);
      NextPowerOfTwoIsLeast(n, k + 1);
    }
  }

  lemma {:induction false} PowersGrow(j: nat, k: nat)
    requires j <= k
    ensures 0 < Power(j) <= Power(k)
  {
    if j < k {
      PowersGrow(j, k - 1);
    } else if j > 0 {
      PowersGrow(j - 1, k - 1);
    }
  }

  /** There is always room for one record more than the index has to hold. */
  lemma CapacityExceedsRecords(recordCount: U64, resizeFactor: real)
    requires recordCount < U64_MAX
    ensures RequiredCapacity(recordCount, resizeFactor) > recordCount
    ensures RequiredCapacity(recordCount, resizeFactor) >= 100
  {
  }

  /** The capacity is the least that holds the records with one to spare, the scaled count and the minimum. */
  lemma CapacityIsLeast(recordCount: U64, resizeFactor: real, n: U64)
    requires recordCount < U64_MAX
    ensures RequiredCapacity(recordCount, resizeFactor) <= n <==>
              && n >= 100 && n > recordCount
              && ((Max(recordCount, 1) as real) * resizeFactor <= n as real || n == U64_MAX)
  {
    var scaled := (Max(recordCount, 1) as real) * resizeFactor;
    CeilIsLeast(scaled, n);
  }

  lemma CeilIsLeast(x: real, n: U64)
    ensures CeilToUsize(x) <= n <==> x <= n as real || n == U64_MAX
  {
    var up := -((-x).Floor);
    assert x <= up as real < x + 1.0;
  }

  /** An empty index, grown to the next power of two when the library allocated less than required. */
  method PrepareIndex(required: nat, faults: Faults) returns (r: Result<HnswIndex, RebuildError>)
    ensures r.Ok? ==> fresh(r.value) && r.value.vectors == map[] && r.value.capacity >= required
    ensures r.Ok? ==> if faults.initialCapacity >= required then r.value.capacity == faults.initialCapacity
                      else LeastPowerOfTwo(required, r.value.capacity)
    ensures r.Err? <==> faults.init || (faults.resize && faults.initialCapacity < required)
    ensures r.Err? ==> r.error == if faults.init then InitFailed else ResizeFailed
  {
    if faults.init {
      return Err(InitFailed);
    }
    var index := new HnswIndex(faults.initialCapacity);
    if index.capacity < required {
      if faults.resize {
        return Err(ResizeFailed);
      }
      NextPowerOfTwoIsLeast(required, 0);
      index.Resize(NextPowerOfTwo(required, 1));
    }
    return Ok(index);
  }

  // ---- Order by old label ----

  function Insert(r: Record, sorted: seq<Record>): seq<Record> {
    if sorted == [] || r.lbl <= sorted[0].lbl then [r] + sorted else [sorted[0]] + Insert(r, sorted[1..])
  }

  function SortByLabel(records: seq<Record>): seq<Record> {
    if records == [] then [] else Insert(records[0], SortByLabel(records[1..]))
  }

  ghost predicate StrictlyByLabel(records: seq<Record>) {
    forall i, j | 0 <= i < j < |records| :: records[i].lbl < records[j].lbl
  }

  ghost predicate DistinctLabels(records: seq<Record>) {
    forall i, j | 0 <= i < j < |records| :: records[i].lbl != records[j].lbl
  }

  lemma {:induction false} InsertKeepsOrder(r: Record, sorted: seq<Record>)
    requires StrictlyByLabel(sorted) && forall i | 0 <= i < |sorted| :: sorted[i].lbl != r.lbl
    ensures StrictlyByLabel(Insert(r, sorted))
    ensures |Insert(r, sorted)| == |sorted| + 1
    ensures forall x :: x in Insert(r, sorted) <==> x == r || x in sorted
  {
    if sorted != [] && sorted[0].lbl < r.lbl {
      var rest := sorted[1..];
      InsertKeepsOrder(r, rest);
      assert forall x :: x in sorted <==> x == sorted[0] || x in rest;
      forall j | 0 <= j < |Insert(r, rest)|
        ensures sorted[0].lbl < Insert(r, rest)[j].lbl
      {
        assert Insert(r, rest)[j] in Insert(r, rest);
      }
    }
  }

  lemma {:induction false} SortIsStrict(records: seq<Record>)
    requires DistinctLabels(records)
    ensures StrictlyByLabel(SortByLabel(records)) && |SortByLabel(records)| == |records|
    ensures forall x :: x in SortByLabel(records) <==> x in records
  {
    if records != [] {
      var rest := SortByLabel(records[1..]);
      SortIsStrict(records[1..]);
      forall i | 0 <= i < |rest|
        ensures rest[i].lbl != records[0].lbl
      {
        assert rest[i] in records[1..];
      }
      InsertKeepsOrder(records[0], rest);
      assert forall x :: x in records <==> x == records[0] || x in records[1..];
    }
  }

  // ---- The dense relabelling ----

  ghost function Below(labels: set<U32>, lbl: U32): set<U32> {
    set x | x in labels && x < lbl
  }

  /** The new label of a record: its place in the order of the old labels, counted from 1. */
  ghost function Rank(labels: set<U32>, lbl: U32): nat {
    1 + |Below(labels, lbl)|
  }

  ghost function RankMap(idToLabel: map<string, U32>): map<string, nat> {
    map id | id in idToLabel :: Rank(idToLabel.Values, idToLabel[id])
  }

  ghost function UpTo(n: nat): (s: set<nat>)
    ensures forall x :: x in s <==> 1 <= x <= n
    ensures |s| == n
  {
    if n == 0 then {} else UpTo(n - 1) + {n}
  }

  /** Ranks keep the order of labels. */
  lemma RankKeepsOrder(labels: set<U32>, a: U32, b: U32)
    requires a in labels && b in labels
    ensures a < b <==> Rank(labels, a) < Rank(labels, b)
    ensures a == b <==> Rank(labels, a) == Rank(labels, b)
  {
    if a < b {
      StrictRank(labels, a, b);
    } else if b < a {
      StrictRank(labels, b, a);
    }
  }

  lemma StrictRank(labels: set<U32>, a: U32, b: U32)
    requires a in labels && a < b
    ensures Rank(labels, a) < Rank(labels, b)
  {
    assert a in Below(labels, b);
    SubsetSize(Below(labels, a) + {a}, Below(labels, b));
  }

  lemma RanksAreInjective(idToLabel: map<string, U32>)
    requires InjectiveOn(idToLabel, idToLabel.Keys)
    ensures InjectiveOn(RankMap(idToLabel), idToLabel.Keys)
  {
    var ranks := RankMap(idToLabel);
    forall j, k | j in idToLabel && k in idToLabel && ranks[j] == ranks[k]
      ensures j == k
    {
      RankKeepsOrder(idToLabel.Values, idToLabel[j], idToLabel[k]);
    }
  }

  lemma RankIsWithin(labels: set<U32>, lbl: U32)
    requires lbl in labels
    ensures 1 <= Rank(labels, lbl) <= |labels|
  {
    SubsetSize(Below(labels, lbl) + {lbl}, labels);
  }

  lemma DistinctLabelsCount(idToLabel: map<string, U32>)
    requires InjectiveOn(idToLabel, idToLabel.Keys)
    ensures |idToLabel.Values| == |idToLabel|
  {
    InjectiveImageSize(idToLabel, idToLabel.Keys);
    assert idToLabel.Values == Image(idToLabel, idToLabel.Keys);
    assert |idToLabel| == |idToLabel.Keys|;
  }

  /** The new labels are exactly 1..n. */
  lemma RanksAreDense(idToLabel: map<string, U32>)
    requires InjectiveOn(idToLabel, idToLabel.Keys)
    ensures forall x :: x in RankMap(idToLabel).Values <==> 1 <= x <= |idToLabel|
  {
    hide Rank;
    var ranks := RankMap(idToLabel);
    DistinctLabelsCount(idToLabel);
    RanksAreInjective(idToLabel);
    InjectiveImageSize(ranks, idToLabel.Keys);
    var image := Image(ranks, idToLabel.Keys);
    assert |image| == |idToLabel|;
    assert ranks.Values == image;
    forall x | x in image
      ensures x in UpTo(|idToLabel|)
    {
      var id :| id in idToLabel && ranks[id] == x;
      RankIsWithin(idToLabel.Values, idToLabel[id]);
    }
    SubsetSize(image, UpTo(|idToLabel|));
  }

  /** Rebuilding a rebuilt index moves no label. */
  lemma RelabellingIsIdempotent(idToLabel: map<string, U32>, rebuilt: map<string, U32>)
    requires InjectiveOn(idToLabel, idToLabel.Keys) && rebuilt == RankMap(idToLabel)
    ensures RankMap(rebuilt) == rebuilt
  {
    RanksAreDense(idToLabel);
    forall id | id in rebuilt
      ensures Rank(rebuilt.Values, rebuilt[id]) == rebuilt[id]
    {
      assert rebuilt[id] in rebuilt.Values;
      var below: set<int> := Below(rebuilt.Values, rebuilt[id]);
      assert below == UpTo(rebuilt[id] - 1);
    }
  }

  lemma {:induction false} LabelsSize(records: seq<Record>)
    requires StrictlyByLabel(records)
    ensures |set r | r in records :: r.lbl| == |records|
  {
    if records != [] {
      var front, last := records[..|records| - 1], records[|records| - 1];
      LabelsSize(front);
      var labels := set r | r in front :: r.lbl;
      assert forall r :: r in records <==> r in front || r == last;
      assert (set r | r in records :: r.lbl) == labels + {last.lbl};
    }
  }

  /** In a list sorted by label the k-th record has rank k + 1. */
  lemma SortedPositionIsRank(records: seq<Record>, labels: set<U32>, k: nat)
    requires StrictlyByLabel(records) && k < |records|
    requires labels == set r | r in records :: r.lbl
    ensures Rank(labels, records[k].lbl) == k + 1
  {
    var front := records[..k];
    LabelsSize(front);
    var below := set r | r in front :: r.lbl;
    forall x | x in Below(labels, records[k].lbl)
      ensures x in below
    {
      var r :| r in records && r.lbl == x;
      var j :| 0 <= j < |records| && records[j] == r;
      assert j < k;
      assert r == front[j];
    }
    forall x | x in below
      ensures x in Below(labels, records[k].lbl)
    {
      var r :| r in front && r.lbl == x;
      assert r in records;
    }
    assert below == Below(labels, records[k].lbl);
  }

  // ---- The rebuild ----

  /** The records of a map, listed in the order in which a hash map happens to iterate. */
  method ListRecords(source: HnswIdMap) returns (records: seq<Record>)
    requires ForwardConsistent(source.idToLabel, source.labelToId)
    ensures RecordsOf(records, source.idToLabel, source.idToSeqId) && DistinctLabels(records)
  {
    records := [];
    var ids := source.idToLabel.Keys;
    while ids != {}
      invariant ids <= source.idToLabel.Keys
      invariant |records| + |ids| == |source.idToLabel|
      invariant forall r | r in records :: r == RecordFor(r.id, source.idToLabel, source.idToSeqId) && r.id in source.idToLabel.Keys - ids
      invariant forall id | id in source.idToLabel.Keys - ids :: RecordFor(id, source.idToLabel, source.idToSeqId) in records
      invariant DistinctLabels(records)
      decreases ids
    {
      var id :| id in ids;
      var r := RecordFor(id, source.idToLabel, source.idToSeqId);
      forall i | 0 <= i < |records|
        ensures records[i].lbl != r.lbl
      {
        assert records[i] in records;
        assert records[i].id != id;
      }
      records := records + [r];
      ids := ids - {id};
    }
  }

  function RecordFor(id: string, idToLabel: map<string, U32>, idToSeqId: map<string, U32>): Record {
    Record(id, if id in idToLabel then idToLabel[id] else 0, if id in idToSeqId then Some(idToSeqId[id]) else None)
  }

  ghost predicate RecordsOf(records: seq<Record>, idToLabel: map<string, U32>, idToSeqId: map<string, U32>) {
    && |records| == |idToLabel|
    && (forall r | r in records :: r.id in idToLabel && r == RecordFor(r.id, idToLabel, idToSeqId))
    && (forall id | id in idToLabel :: RecordFor(id, idToLabel, idToSeqId) in records)
  }

  ghost predicate DistinctIds(records: seq<Record>) {
    forall i, j | 0 <= i < j < |records| :: records[i].id != records[j].id
  }

  lemma SortedRecordsHaveDistinctIds(records: seq<Record>, idToLabel: map<string, U32>, idToSeqId: map<string, U32>)
    requires StrictlyByLabel(records) && RecordsOf(records, idToLabel, idToSeqId)
    ensures DistinctIds(records)
  {
    forall i, j | 0 <= i < j < |records|
      ensures records[i].id != records[j].id
    {
      assert records[i] in records && records[j] in records;
    }
  }

  // The first `n` records are in the new map and index under the labels 1..n, and nothing else is.

  ghost predicate LabelsCopied(records: seq<Record>, n: nat, idToLabel: map<string, U32>, labelToId: map<U32, string>) {
    && n <= |records|
    && (forall lbl :: lbl in labelToId <==> 1 <= lbl <= n)
    && (forall k | 0 <= k < n ::
          records[k].id in idToLabel && idToLabel[records[k].id] == k + 1 && labelToId[k + 1] == records[k].id)
    && (forall id | id in idToLabel :: 1 <= idToLabel[id] <= n && records[idToLabel[id] - 1].id == id)
  }

  ghost predicate SeqIdsCopied(records: seq<Record>, n: nat, idToSeqId: map<string, U32>) {
    && n <= |records|
    && (forall k | 0 <= k < n :: (if records[k].id in idToSeqId then Some(idToSeqId[records[k].id]) else None) == records[k].seqId)
    && (forall id | id in idToSeqId :: exists k | 0 <= k < n :: records[k].id == id)
  }

  ghost predicate VectorsCopied(
    records: seq<Record>, n: nat, sourceVectors: map<nat, Embedding>, vectors: map<nat, Embedding>)
  {
    && n <= |records| && vectors.Keys == UpTo(n)
    && (forall k | 0 <= k < n :: records[k].lbl in sourceVectors && vectors[k + 1] == sourceVectors[records[k].lbl])
  }

  lemma LabelsAdvance(records: seq<Record>, n: nat, idToLabel: map<string, U32>, labelToId: map<U32, string>)
    requires LabelsCopied(records, n, idToLabel, labelToId)
    requires DistinctIds(records) && n < |records| && n + 1 <= U32_MAX
    ensures records[n].id !in idToLabel && n + 1 !in labelToId
    ensures LabelsCopied(records, n + 1, idToLabel[records[n].id := n + 1], labelToId[n + 1 := records[n].id])
  {
    forall id | id in idToLabel
      ensures id != records[n].id
    {
      assert records[idToLabel[id] - 1].id == id;
    }
  }

  lemma SeqIdsAdvance(records: seq<Record>, n: nat, idToSeqId: map<string, U32>)
    requires SeqIdsCopied(records, n, idToSeqId) && DistinctIds(records) && n < |records|
    ensures var r := records[n];
            SeqIdsCopied(records, n + 1, if r.seqId.Some? then idToSeqId[r.id := r.seqId.value] else idToSeqId)
  {
    var r := records[n];
    var next := if r.seqId.Some? then idToSeqId[r.id := r.seqId.value] else idToSeqId;
    assert r.id !in idToSeqId;
    forall id | id in next
      ensures exists k | 0 <= k < n + 1 :: records[k].id == id
    {
      if id in idToSeqId {
        var k :| 0 <= k < n && records[k].id == id;
      } else {
        assert records[n].id == id;
      }
    }
  }

  lemma VectorsAdvance(records: seq<Record>, n: nat, sourceVectors: map<nat, Embedding>, vectors: map<nat, Embedding>)
    requires VectorsCopied(records, n, sourceVectors, vectors) && n < |records| && records[n].lbl in sourceVectors
    ensures n + 1 !in vectors && |vectors| == n
    ensures VectorsCopied(records, n + 1, sourceVectors, vectors[n + 1 := sourceVectors[records[n].lbl]])
  {
    var next := vectors[n + 1 := sourceVectors[records[n].lbl]];
    assert next.Keys == UpTo(n + 1);
  }

  /** The same meaning under the new labels. */
  ghost predicate SameMeaning(
    source: HnswIdMap, sourceVectors: map<nat, Embedding>, rebuilt: HnswIdMap, vectors: map<nat, Embedding>)
    reads source, rebuilt
  {
    && rebuilt.WellFormed()
    && rebuilt.idToLabel == RankMap(source.idToLabel)
    && rebuilt.idToSeqId == source.idToSeqId
    && rebuilt.maxSeqId == source.maxSeqId
    && rebuilt.totalElementsAdded == |source.idToLabel| == |vectors|
    && SameEmbeddings(source.idToLabel, sourceVectors, rebuilt.idToLabel, vectors)
  }

  ghost predicate SameEmbeddings(
    oldLabels: map<string, U32>, oldVectors: map<nat, Embedding>, newLabels: map<string, U32>, newVectors: map<nat, Embedding>)
  {
    && newLabels.Keys == oldLabels.Keys
    && forall id | id in oldLabels ::
         && oldLabels[id] in oldVectors && newLabels[id] in newVectors
         && newVectors[newLabels[id]] == oldVectors[oldLabels[id]]
  }

  /** Where the record of an id stands in the sorted list. */
  lemma RecordPosition(records: seq<Record>, idToLabel: map<string, U32>, idToSeqId: map<string, U32>, id: string)
    returns (k: nat)
    requires StrictlyByLabel(records) && RecordsOf(records, idToLabel, idToSeqId) && id in idToLabel
    ensures k < |records| && records[k] == RecordFor(id, idToLabel, idToSeqId)
    ensures Rank(idToLabel.Values, idToLabel[id]) == k + 1
  {
    k :| 0 <= k < |records| && records[k] == RecordFor(id, idToLabel, idToSeqId);
    var labels := set r | r in records :: r.lbl;
    forall l | l in idToLabel.Values
      ensures l in labels
    {
      var other :| other in idToLabel && idToLabel[other] == l;
      assert RecordFor(other, idToLabel, idToSeqId) in records;
    }
    assert labels == idToLabel.Values;
    SortedPositionIsRank(records, labels, k);
  }

  lemma RecordIdIsKnown(records: seq<Record>, idToLabel: map<string, U32>, idToSeqId: map<string, U32>, k: nat)
    requires RecordsOf(records, idToLabel, idToSeqId) && k < |records|
    ensures records[k].id in idToLabel && idToLabel[records[k].id] == records[k].lbl
  {
    assert records[k] in records;
  }

  lemma LabelsComplete(
    records: seq<Record>, oldLabels: map<string, U32>, oldSeqIds: map<string, U32>,
    idToLabel: map<string, U32>, labelToId: map<U32, string>)
    requires StrictlyByLabel(records) && RecordsOf(records, oldLabels, oldSeqIds)
    requires LabelsCopied(records, |records|, idToLabel, labelToId)
    ensures idToLabel == RankMap(oldLabels)
    ensures ForwardConsistent(idToLabel, labelToId) && ReverseConsistent(idToLabel, labelToId)
  {
    hide StrictlyByLabel, Rank, RecordsOf;
    forall id | id in oldLabels
      ensures id in idToLabel && idToLabel[id] == Rank(oldLabels.Values, oldLabels[id])
    {
      var k := RecordPosition(records, oldLabels, oldSeqIds, id);
    }
    forall id | id in idToLabel
      ensures id in oldLabels
      ensures labelToId[idToLabel[id]] == id
    {
      RecordIdIsKnown(records, oldLabels, oldSeqIds, idToLabel[id] - 1);
    }
    forall lbl | lbl in labelToId
      ensures labelToId[lbl] in idToLabel && idToLabel[labelToId[lbl]] == lbl
    {
      assert records[lbl - 1].id in idToLabel;
    }
  }

  lemma SeqIdsComplete(
    records: seq<Record>, oldLabels: map<string, U32>, oldSeqIds: map<string, U32>, idToSeqId: map<string, U32>)
    requires RecordsOf(records, oldLabels, oldSeqIds) && oldSeqIds.Keys <= oldLabels.Keys
    requires SeqIdsCopied(records, |records|, idToSeqId)
    ensures idToSeqId == oldSeqIds
  {
    forall id | id in idToSeqId
      ensures id in oldLabels
    {
      var k :| 0 <= k < |records| && records[k].id == id;
      assert records[k] in records;
    }
    forall id | id in oldLabels
      ensures (if id in idToSeqId then Some(idToSeqId[id]) else None) == (if id in oldSeqIds then Some(oldSeqIds[id]) else None)
    {
      var k :| 0 <= k < |records| && records[k] == RecordFor(id, oldLabels, oldSeqIds);
    }
    assert forall id :: id in idToSeqId <==> id in oldSeqIds;
  }

  lemma VectorsComplete(
    records: seq<Record>, oldLabels: map<string, U32>, oldSeqIds: map<string, U32>, sourceVectors: map<nat, Embedding>,
    idToLabel: map<string, U32>, vectors: map<nat, Embedding>)
    requires StrictlyByLabel(records) && RecordsOf(records, oldLabels, oldSeqIds) && idToLabel == RankMap(oldLabels)
    requires VectorsCopied(records, |records|, sourceVectors, vectors)
    ensures SameEmbeddings(oldLabels, sourceVectors, idToLabel, vectors) && |vectors| == |oldLabels|
  {
    hide StrictlyByLabel, Rank;
    forall id | id in oldLabels
      ensures oldLabels[id] in sourceVectors && idToLabel[id] in vectors
      ensures vectors[idToLabel[id]] == sourceVectors[oldLabels[id]]
    {
      var k := RecordPosition(records, oldLabels, oldSeqIds, id);
      assert records[k].lbl in sourceVectors;
      assert k + 1 in UpTo(|records|);
    }
  }

  /** A valid map has at most one record for each label. */
  lemma LabelsFit(idToLabel: map<string, U32>, n: nat)
    requires InjectiveOn(idToLabel, idToLabel.Keys)
    requires forall id | id in idToLabel :: idToLabel[id] <= n
    ensures |idToLabel| <= n + 1
  {
    DistinctLabelsCount(idToLabel);
    var all: set<nat> := UpTo(n) + {0};
    assert 0 !in UpTo(n);
    var labels: set<nat> := set l | l in idToLabel.Values;
    assert labels == idToLabel.Values;
    SubsetSize(labels, all);
  }

  datatype RebuildOutcome =
    | Skipped
    | Prechecked(recordsScanned: U64)
    | Rebuilt(idMap: HnswIdMap, index: HnswIndex, recordsScanned: U64, vectorsReindexed: U64)

  ghost predicate AllEmbedded(idToLabel: map<string, U32>, sourceVectors: map<nat, Embedding>) {
    forall id | id in idToLabel :: idToLabel[id] in sourceVectors
  }

  /** What goes wrong when the record at position `k` of the sorted list is copied. */
  function CopyFailure(record: Record, k: nat, sourceVectors: map<nat, Embedding>, faults: Faults): Option<RebuildError> {
    if record.lbl in faults.unreadable then Some(ReadFailed(record.lbl))
    else if record.lbl !in sourceVectors then Some(MissingEmbedding(record.lbl, record.id))
    else if k >= U32_MAX then Some(LabelOverflow)
    else if k + 1 in faults.refused then Some(AddFailed(k + 1, IndexFault))
    else None
  }

  ghost predicate NoCopyFailure(records: seq<Record>, n: nat, sourceVectors: map<nat, Embedding>, faults: Faults) {
    n <= |records| && forall k | 0 <= k < n :: CopyFailure(records[k], k, sourceVectors, faults).None?
  }

  ghost predicate FirstCopyFailure(
    records: seq<Record>, n: nat, sourceVectors: map<nat, Embedding>, faults: Faults, error: RebuildError)
  {
    && n < |records| && NoCopyFailure(records, n, sourceVectors, faults)
    && CopyFailure(records[n], n, sourceVectors, faults) == Some(error)
  }

  ghost predicate SortedRecordsOf(records: seq<Record>, idToLabel: map<string, U32>, idToSeqId: map<string, U32>) {
    RecordsOf(records, idToLabel, idToSeqId) && StrictlyByLabel(records)
  }

  /** In the order of the old labels, the first record that cannot be copied fails with this error. */
  ghost predicate FailsFirst(
    idToLabel: map<string, U32>, idToSeqId: map<string, U32>, sourceVectors: map<nat, Embedding>, faults: Faults,
    error: RebuildError)
  {
    exists records: seq<Record>, n: nat :: SortedRecordsOf(records, idToLabel, idToSeqId) && FirstCopyFailure(records, n, sourceVectors, faults, error)
  }

  /** There is one list of the records sorted by label, whatever order they are listed in. */
  lemma SortedListIsUnique(a: seq<Record>, b: seq<Record>, idToLabel: map<string, U32>, idToSeqId: map<string, U32>)
    requires SortedRecordsOf(a, idToLabel, idToSeqId) && SortedRecordsOf(b, idToLabel, idToSeqId)
    ensures a == b
  {
    hide Rank;
    forall k | 0 <= k < |a|
      ensures a[k] == b[k]
    {
      assert a[k] in a;
      var i := RecordPosition(a, idToLabel, idToSeqId, a[k].id);
      var j := RecordPosition(b, idToLabel, idToSeqId, a[k].id);
      assert i == k == j;
    }
  }

  /** So the error of a failed copy does not depend on that order either. */
  lemma FirstFailureIsUnique(
    idToLabel: map<string, U32>, idToSeqId: map<string, U32>, sourceVectors: map<nat, Embedding>, faults: Faults,
    e: RebuildError, f: RebuildError)
    requires FailsFirst(idToLabel, idToSeqId, sourceVectors, faults, e)
    requires FailsFirst(idToLabel, idToSeqId, sourceVectors, faults, f)
    ensures e == f
  {
    hide SortedRecordsOf, CopyFailure;
    var a: seq<Record>, m: nat :| SortedRecordsOf(a, idToLabel, idToSeqId) && FirstCopyFailure(a, m, sourceVectors, faults, e);
    var b: seq<Record>, n: nat :| SortedRecordsOf(b, idToLabel, idToSeqId) && FirstCopyFailure(b, n, sourceVectors, faults, f);
    SortedListIsUnique(a, b, idToLabel, idToSeqId);
    assert m == n;
  }

  /** Copying the sorted list decides it. */
  lemma FailureOfSorted(
    records: seq<Record>, idToLabel: map<string, U32>, idToSeqId: map<string, U32>, sourceVectors: map<nat, Embedding>,
    faults: Faults)
    requires SortedRecordsOf(records, idToLabel, idToSeqId)
    ensures forall n: nat, e | FirstCopyFailure(records, n, sourceVectors, faults, e) ::
              FailsFirst(idToLabel, idToSeqId, sourceVectors, faults, e) && e != InitFailed && e != ResizeFailed
    ensures NoCopyFailure(records, |records|, sourceVectors, faults) ==>
              forall e :: !FailsFirst(idToLabel, idToSeqId, sourceVectors, faults, e)
  {
    hide SortedRecordsOf;
    if NoCopyFailure(records, |records|, sourceVectors, faults) {
      forall e
        ensures !FailsFirst(idToLabel, idToSeqId, sourceVectors, faults, e)
      {
        if FailsFirst(idToLabel, idToSeqId, sourceVectors, faults, e) {
          var other: seq<Record>, n: nat :| SortedRecordsOf(other, idToLabel, idToSeqId) && FirstCopyFailure(other, n, sourceVectors, faults, e);
          SortedListIsUnique(records, other, idToLabel, idToSeqId);
          assert false;
        }
      }
    }
  }

  /** What a first failure says of the source: the labels below it are fine, and the error is what it is about. */
  lemma FailureIsReal(
    idToLabel: map<string, U32>, idToSeqId: map<string, U32>, sourceVectors: map<nat, Embedding>, faults: Faults,
    error: RebuildError)
    requires FailsFirst(idToLabel, idToSeqId, sourceVectors, faults, error)
    ensures match error
            case MissingEmbedding(lbl, id) =>
              id in idToLabel && idToLabel[id] == lbl && lbl !in sourceVectors && EmbeddedBelow(idToLabel, lbl, sourceVectors, faults)
            case ReadFailed(lbl) =>
              lbl in faults.unreadable && lbl in idToLabel.Values && EmbeddedBelow(idToLabel, lbl, sourceVectors, faults)
            case LabelOverflow => |idToLabel| > U32_MAX
            case AddFailed(lbl, cause) => lbl in faults.refused && 1 <= lbl <= |idToLabel| && cause == IndexFault
            case _ => false
  {
    hide Rank;
    var records: seq<Record>, n: nat :| SortedRecordsOf(records, idToLabel, idToSeqId) && FirstCopyFailure(records, n, sourceVectors, faults, error);
    RecordIdIsKnown(records, idToLabel, idToSeqId, n);
    forall id | id in idToLabel && idToLabel[id] < records[n].lbl
      ensures idToLabel[id] in sourceVectors && idToLabel[id] !in faults.unreadable
    {
      var k := RecordPosition(records, idToLabel, idToSeqId, id);
      assert k < n;
      assert CopyFailure(records[k], k, sourceVectors, faults).None?;
    }
  }

  /** Every record with a smaller old label has a readable embedding. */
  ghost predicate EmbeddedBelow(idToLabel: map<string, U32>, lbl: nat, sourceVectors: map<nat, Embedding>, faults: Faults) {
    forall id | id in idToLabel && idToLabel[id] < lbl :: idToLabel[id] in sourceVectors && idToLabel[id] !in faults.unreadable
  }

  lemma NothingCopied(records: seq<Record>, sourceVectors: map<nat, Embedding>)
    ensures LabelsCopied(records, 0, map[], map[])
    ensures SeqIdsCopied(records, 0, map[])
    ensures VectorsCopied(records, 0, sourceVectors, map[])
  {
  }

  /** Sorting keeps the records, puts their labels in strict order and so separates their ids. */
  lemma SortedRecords(listed: seq<Record>, idToLabel: map<string, U32>, idToSeqId: map<string, U32>)
    requires RecordsOf(listed, idToLabel, idToSeqId) && DistinctLabels(listed)
    ensures var records := SortByLabel(listed);
            && SortedRecordsOf(records, idToLabel, idToSeqId) && DistinctIds(records)
            && |records| == |idToLabel|
            && (forall k | 0 <= k < |records| :: records[k].id in idToLabel && idToLabel[records[k].id] == records[k].lbl)
  {
    SortIsStrict(listed);
    var records := SortByLabel(listed);
    SortedRecordsHaveDistinctIds(records, idToLabel, idToSeqId);
    forall k | 0 <= k < |records|
      ensures records[k].id in idToLabel && idToLabel[records[k].id] == records[k].lbl
    {
      RecordIdIsKnown(records, idToLabel, idToSeqId, k);
    }
  }

  /** The copy loop, over the records sorted by label. */
  method CopyRecords(
    records: seq<Record>, sourceVectors: map<nat, Embedding>, idMap: HnswIdMap, index: HnswIndex, faults: Faults)
    returns (r: Result<U64, RebuildError>)
    requires DistinctIds(records) && |records| < index.capacity && |records| <= U32_MAX + 1
    requires idMap.idToLabel == map[] && idMap.labelToId == map[] && idMap.idToSeqId == map[] && index.vectors == map[]
    requires idMap.totalElementsAdded == 0
    modifies idMap, index
    ensures idMap.dimensionality == old(idMap.dimensionality)
    ensures idMap.maxSeqId == old(idMap.maxSeqId) && index.capacity == old(index.capacity)
    ensures r.Ok? ==>
              && r.value == |records| == idMap.totalElementsAdded
              && LabelsCopied(records, |records|, idMap.idToLabel, idMap.labelToId)
              && SeqIdsCopied(records, |records|, idMap.idToSeqId)
              && VectorsCopied(records, |records|, sourceVectors, index.vectors)
    ensures r.Ok? ==> NoCopyFailure(records, |records|, sourceVectors, faults)
    ensures r.Err? ==> exists n: nat :: FirstCopyFailure(records, n, sourceVectors, faults, r.error)
  {
    NothingCopied(records, sourceVectors);
    hide LabelsCopied, SeqIdsCopied, VectorsCopied, DistinctIds;
    var vectorsReindexed: U64 := 0;
    var i := 0;
    while i < |records|
      invariant i <= |records| && i <= U32_MAX
      invariant idMap.totalElementsAdded == i == vectorsReindexed
      invariant idMap.dimensionality == old(idMap.dimensionality)
      invariant idMap.maxSeqId == old(idMap.maxSeqId) && index.capacity == old(index.capacity)
      invariant LabelsCopied(records, i, idMap.idToLabel, idMap.labelToId)
      invariant SeqIdsCopied(records, i, idMap.idToSeqId)
      invariant VectorsCopied(records, i, sourceVectors, index.vectors)
      invariant NoCopyFailure(records, i, sourceVectors, faults)
    {
      var record := records[i];
      ghost var failure := CopyFailure(record, i, sourceVectors, faults);
      assert failure.Some? ==> FirstCopyFailure(records, i, sourceVectors, faults, failure.value);
      if record.lbl in faults.unreadable {
        return Err(ReadFailed(record.lbl));
      }
      if record.lbl !in sourceVectors {
        return Err(MissingEmbedding(record.lbl, record.id));
      }
      if idMap.totalElementsAdded == U32_MAX {
        return Err(LabelOverflow);
      }
      var nextLabel: U32 := idMap.totalElementsAdded + 1;
      VectorsAdvance(records, i, sourceVectors, index.vectors);
      LabelsAdvance(records, i, idMap.idToLabel, idMap.labelToId);
      SeqIdsAdvance(records, i, idMap.idToSeqId);
      var refused := index.Add(nextLabel, sourceVectors[record.lbl], nextLabel in faults.refused);
      if refused.Some? {
        return Err(AddFailed(nextLabel, refused.value));
      }
      var inserted := idMap.InsertRecord(record.id, nextLabel, record.seqId);
      assert inserted.None?;  // ids are distinct and the label is new, so the insertion cannot fail
      vectorsReindexed := SatAdd(vectorsReindexed, 1);
      i := i + 1;
    }
    return Ok(vectorsReindexed);
  }

  lemma ListedCount(records: seq<Record>, idToLabel: map<string, U32>, idToSeqId: map<string, U32>)
    requires RecordsOf(records, idToLabel, idToSeqId)
    ensures |records| == |idToLabel|
  {
  }

  /** Copying all records, sorted by label, keeps the meaning. */
  lemma CopyKeepsMeaning(
    records: seq<Record>, source: HnswIdMap, sourceVectors: map<nat, Embedding>, idMap: HnswIdMap, vectors: map<nat, Embedding>)
    requires source.WellFormed() && SortedRecordsOf(records, source.idToLabel, source.idToSeqId)
    requires LabelsCopied(records, |records|, idMap.idToLabel, idMap.labelToId)
    requires SeqIdsCopied(records, |records|, idMap.idToSeqId)
    requires VectorsCopied(records, |records|, sourceVectors, vectors)
    requires idMap.maxSeqId == source.maxSeqId && idMap.totalElementsAdded == |records|
    ensures SameMeaning(source, sourceVectors, idMap, vectors) && |vectors| == |records|
  {
    ListedCount(records, source.idToLabel, source.idToSeqId);
    hide RecordsOf, StrictlyByLabel, RankMap, ForwardConsistent, ReverseConsistent, LabelsCopied, SeqIdsCopied,
         VectorsCopied, SameEmbeddings;
    LabelsComplete(records, source.idToLabel, source.idToSeqId, idMap.idToLabel, idMap.labelToId);
    SeqIdsComplete(records, source.idToLabel, source.idToSeqId, idMap.idToSeqId);
    VectorsComplete(records, source.idToLabel, source.idToSeqId, sourceVectors, idMap.idToLabel, vectors);
    assert idMap.idToLabel.Keys == source.idToLabel.Keys by { RankKeys(source.idToLabel); }
  }

  lemma RankKeys(idToLabel: map<string, U32>)
    ensures RankMap(idToLabel).Keys == idToLabel.Keys
  {
  }

  /** The part of a rebuild that follows the precheck, over the records in the order they were listed. */
  method RebuildRecords(
    source: HnswIdMap, listed: seq<Record>, sourceVectors: map<nat, Embedding>, dimension: Option<nat>,
    resizeFactor: real, faults: Faults)
    returns (r: Result<(HnswIdMap, HnswIndex, U64), RebuildError>)
    requires source.WellFormed() && RecordsOf(listed, source.idToLabel, source.idToSeqId) && DistinctLabels(listed)
    ensures r.Ok? ==>
              && SameMeaning(source, sourceVectors, r.value.0, r.value.1.vectors)
              && r.value.0.dimensionality == dimension
              && r.value.2 == |source.idToLabel| && |r.value.1.vectors| < r.value.1.capacity
    ensures |listed| <= U32_MAX + 1
    ensures r == Err(InitFailed) <==> faults.init
    ensures r == Err(ResizeFailed) <==>
              !faults.init && faults.resize && faults.initialCapacity < RequiredCapacity(|listed|, resizeFactor)
    ensures r.Err? && r.error != InitFailed && r.error != ResizeFailed ==>
              FailsFirst(source.idToLabel, source.idToSeqId, sourceVectors, faults, r.error)
    ensures r.Ok? ==> forall e :: !FailsFirst(source.idToLabel, source.idToSeqId, sourceVectors, faults, e)
  {
    var records := SortByLabel(listed);
    LabelsFit(source.idToLabel, U32_MAX);
    hide SortByLabel, RecordsOf, StrictlyByLabel, DistinctIds, DistinctLabels, RankMap, ForwardConsistent,
         ReverseConsistent, LabelsCopied, SeqIdsCopied, VectorsCopied, NoCopyFailure, FirstCopyFailure,
         FailsFirst, CopyFailure, SortedRecordsOf, SameMeaning;
    SortedRecords(listed, source.idToLabel, source.idToSeqId);
    FailureOfSorted(records, source.idToLabel, source.idToSeqId, sourceVectors, faults);
    CapacityExceedsRecords(|records|, resizeFactor);
    hide RequiredCapacity;
    var prepared := PrepareIndex(RequiredCapacity(|records|, resizeFactor), faults);
    if prepared.Err? {
      return Err(prepared.error);
    }
    var index := prepared.value;
    var idMap := new HnswIdMap(dimension, source.maxSeqId);
    var copied := CopyRecords(records, sourceVectors, idMap, index, faults);
    if copied.Err? {
      return Err(copied.error);
    }
    CopyKeepsMeaning(records, source, sourceVectors, idMap, index.vectors);
    return Ok((idMap, index, copied.value));
  }

  method RebuildCollection(
    source: HnswIdMap, sourceVectors: map<nat, Embedding>, collectionDimension: Option<nat>, resizeFactor: real,
    precheck: bool, faults: Faults)
    returns (r: Result<RebuildOutcome, RebuildError>)
    requires source.WellFormed()
    ensures (r == Ok(Skipped)) <==> source.idToLabel == map[]
    ensures r == Err(UnknownDimension) <==>
              source.idToLabel != map[] && source.dimensionality.None? && collectionDimension.None?
    ensures r.Ok? && r.value.Prechecked? ==> precheck && r.value.recordsScanned == |source.idToLabel|
    // A rebuild keeps the meaning of the index and numbers its records 1..n.
    ensures r.Ok? && r.value.Rebuilt? ==>
              && SameMeaning(source, sourceVectors, r.value.idMap, r.value.index.vectors)
              && r.value.idMap.dimensionality == (if source.dimensionality.Some? then source.dimensionality else collectionDimension)
              && r.value.recordsScanned == |source.idToLabel| == r.value.vectorsReindexed
              && |r.value.index.vectors| < r.value.index.capacity
    // A precheck changes nothing. A rebuild fails with the first failure in the order of the old labels, if any.
    ensures |source.idToLabel| <= U32_MAX + 1
    ensures source.idToLabel != map[] && r != Err(UnknownDimension) ==>
              if precheck then r == Ok(Prechecked(|source.idToLabel|)) else
                && (r.Ok? ==> r.value.Rebuilt?)
                && (r == Err(InitFailed) <==> faults.init)
                && (r == Err(ResizeFailed) <==>
                      && !faults.init && faults.resize
                      && faults.initialCapacity < RequiredCapacity(|source.idToLabel|, resizeFactor))
                && (r.Err? && r.error != InitFailed && r.error != ResizeFailed ==>
                      FailsFirst(source.idToLabel, source.idToSeqId, sourceVectors, faults, r.error))
                && (r.Ok? ==> forall e :: !FailsFirst(source.idToLabel, source.idToSeqId, sourceVectors, faults, e))
    // An embedding is reported missing only when it is, and the label counter overflows only when every
    // 32-bit label is in use; the new index is never full.
    ensures r.Err? && r.error.MissingEmbedding? ==>
              r.error.id in source.idToLabel && source.idToLabel[r.error.id] == r.error.lbl && r.error.lbl !in sourceVectors
    ensures r.Err? && r.error.LabelOverflow? ==> |source.idToLabel| == U32_MAX + 1
    ensures r.Err? && r.error.AddFailed? ==> r.error.cause == IndexFault
    // Without faults it succeeds exactly when it can.
    ensures (&& !precheck && !faults.init && !faults.resize && faults.unreadable == {} && faults.refused == {}
             && source.idToLabel != map[] && !(source.dimensionality.None? && collectionDimension.None?)) ==>
              (r.Ok? <==> AllEmbedded(source.idToLabel, sourceVectors) && |source.idToLabel| <= U32_MAX)
  {
    LabelsFit(source.idToLabel, U32_MAX);
    hide SameEmbeddings, RankMap, FailsFirst, RequiredCapacity, EmbeddedBelow, RecordsOf, DistinctLabels,
         ForwardConsistent, ReverseConsistent;
    if source.idToLabel == map[] {
      return Ok(Skipped);
    }
    if source.dimensionality.None? && collectionDimension.None? {
      return Err(UnknownDimension);
    }
    var dimension := if source.dimensionality.Some? then source.dimensionality else collectionDimension;

    var listed := ListRecords(source);
    ListedCount(listed, source.idToLabel, source.idToSeqId);
    var recordsScanned: U64 := |listed|;
    if precheck {
      return Ok(Prechecked(recordsScanned));
    }
    var rebuilt := RebuildRecords(source, listed, sourceVectors, dimension, resizeFactor, faults);
    if rebuilt.Err? {
      if rebuilt.error != InitFailed && rebuilt.error != ResizeFailed {
        FailureIsReal(source.idToLabel, source.idToSeqId, sourceVectors, faults, rebuilt.error);
      }
      return Err(rebuilt.error);
    }
    SameEmbeddingsNeedAll(source.idToLabel, sourceVectors, rebuilt.value.0.idToLabel, rebuilt.value.1.vectors);
    return Ok(Rebuilt(rebuilt.value.0, rebuilt.value.1, recordsScanned, rebuilt.value.2));
  }

  lemma SameEmbeddingsNeedAll(
    oldLabels: map<string, U32>, oldVectors: map<nat, Embedding>, newLabels: map<string, U32>, newVectors: map<nat, Embedding>)
    requires SameEmbeddings(oldLabels, oldVectors, newLabels, newVectors)
    ensures AllEmbedded(oldLabels, oldVectors)
  {
  }

  lemma VectorKeysAreRanks(source: HnswIdMap, sourceVectors: map<nat, Embedding>, rebuilt: HnswIdMap, vectors: map<nat, Embedding>)
    requires source.WellFormed() && SameMeaning(source, sourceVectors, rebuilt, vectors)
    ensures vectors.Keys == RankMap(source.idToLabel).Values
  {
    hide Rank;
    var ranks := RankMap(source.idToLabel);
    RanksAreInjective(source.idToLabel);
    InjectiveImageSize(ranks, source.idToLabel.Keys);
    var image := Image(ranks, source.idToLabel.Keys);
    assert ranks.Values == image;
    assert |vectors| == |vectors.Keys| && |source.idToLabel| == |source.idToLabel.Keys|;
    SubsetSize(image, vectors.Keys);
  }

  /** A source has one rebuilt form: two rebuilds, whatever order they list the records in, agree on everything. */
  lemma RebuildIsDetermined(
    source: HnswIdMap, sourceVectors: map<nat, Embedding>, a: HnswIdMap, vectorsA: map<nat, Embedding>,
    b: HnswIdMap, vectorsB: map<nat, Embedding>)
    requires source.WellFormed()
    requires SameMeaning(source, sourceVectors, a, vectorsA) && SameMeaning(source, sourceVectors, b, vectorsB)
    ensures a.idToLabel == b.idToLabel && a.labelToId == b.labelToId && a.idToSeqId == b.idToSeqId
    ensures a.maxSeqId == b.maxSeqId && a.totalElementsAdded == b.totalElementsAdded
    ensures vectorsA == vectorsB
  {
    hide Rank;
    VectorKeysAreRanks(source, sourceVectors, a, vectorsA);
    VectorKeysAreRanks(source, sourceVectors, b, vectorsB);
    forall lbl | lbl in vectorsA
      ensures vectorsA[lbl] == vectorsB[lbl]
    {
      var id :| id in source.idToLabel && RankMap(source.idToLabel)[id] == lbl;
      assert a.idToLabel[id] == lbl == b.idToLabel[id];
    }
    SameInverse(a.idToLabel, a.labelToId, b.labelToId);
  }

  lemma SameInverse(idToLabel: map<string, U32>, a: map<U32, string>, b: map<U32, string>)
    requires ForwardConsistent(idToLabel, a) && ReverseConsistent(idToLabel, a)
    requires ForwardConsistent(idToLabel, b) && ReverseConsistent(idToLabel, b)
    ensures a == b
  {
    forall lbl: U32
      ensures lbl in a ==> lbl in b && a[lbl] == b[lbl]
      ensures lbl in b ==> lbl in a
    {
      assert lbl in a ==> idToLabel[a[lbl]] == lbl;
      assert lbl in b ==> idToLabel[b[lbl]] == lbl;
    }
  }

  /**
   What a rebuilt map looks like, whatever order the old one was iterated in: its labels are exactly 1..n,
   records keep their relative order, and rebuilding it once more would change no label.
   */
  lemma RebuiltLabels(
    source: HnswIdMap, sourceVectors: map<nat, Embedding>, rebuilt: HnswIdMap, vectors: map<nat, Embedding>)
    requires source.WellFormed() && SameMeaning(source, sourceVectors, rebuilt, vectors)
    ensures forall lbl :: lbl in rebuilt.labelToId <==> 1 <= lbl <= |source.idToLabel|
    ensures forall a, b | a in source.idToLabel && b in source.idToLabel ::
              a in rebuilt.idToLabel && b in rebuilt.idToLabel
              && (source.idToLabel[a] < source.idToLabel[b] <==> rebuilt.idToLabel[a] < rebuilt.idToLabel[b])
    ensures RankMap(rebuilt.idToLabel) == rebuilt.idToLabel
  {
    hide Rank;
    assert InjectiveOn(source.idToLabel, source.idToLabel.Keys);
    RanksAreDense(source.idToLabel);
    RelabellingIsIdempotent(source.idToLabel, rebuilt.idToLabel);
    forall lbl
      ensures lbl in rebuilt.labelToId <==> lbl in RankMap(source.idToLabel).Values
    {
      if lbl in RankMap(source.idToLabel).Values {
        var id :| id in source.idToLabel && RankMap(source.idToLabel)[id] == lbl;
        assert rebuilt.idToLabel[id] == lbl;
      }
      if lbl in rebuilt.labelToId {
        assert rebuilt.idToLabel[rebuilt.labelToId[lbl]] == lbl;
      }
    }
    forall a, b | a in source.idToLabel && b in source.idToLabel
      ensures source.idToLabel[a] < source.idToLabel[b] <==> rebuilt.idToLabel[a] < rebuilt.idToLabel[b]
    {
      RankKeepsOrder(source.idToLabel.Values, source.idToLabel[a], source.idToLabel[b]);
      assert rebuilt.idToLabel[a] == RankMap(source.idToLabel)[a] && rebuilt.idToLabel[b] == RankMap(source.idToLabel)[b];
    }
  }
}
