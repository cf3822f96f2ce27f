/** The id/label metadata of an HNSW index, its validation and its growth record by record. */
module HnswIdMaps {
  import opened MachineInts
  import opened Outcomes

  datatype MapFailure =
    | LengthMismatch
    | MissingReverse(id: string, lbl: U32)
    | ForwardMismatch(id: string, lbl: U32)
    | MissingForward(lbl: U32, id: string)
    | ReverseMismatch(lbl: U32, id: string)
    | UnknownSeqId(id: string)
    | MaxSeqIdTooSmall
    | DuplicateId(id: string)
    | DuplicateLabel(lbl: U32)

  /** Each id's label leads back to the id. */
  ghost predicate ForwardConsistent(idToLabel: map<string, U32>, labelToId: map<U32, string>) {
    forall id | id in idToLabel :: idToLabel[id] in labelToId && labelToId[idToLabel[id]] == id
  }

  /** Each label's id leads back to the label. */
  ghost predicate ReverseConsistent(idToLabel: map<string, U32>, labelToId: map<U32, string>) {
    forall lbl | lbl in labelToId :: labelToId[lbl] in idToLabel && idToLabel[labelToId[lbl]] == lbl
  }

  class HnswIdMap {
    var dimensionality: Option<nat>
    var totalElementsAdded: U32
    var maxSeqId: Option<U64>
    var idToLabel: map<string, U32>
    var labelToId: map<U32, string>
    var idToSeqId: map<string, U32>

    /** The two maps are mutual inverses, sequence ids belong to known ids and none exceeds the maximum. */
    ghost predicate WellFormed()
      reads this
    {
      && ForwardConsistent(idToLabel, labelToId)
      && ReverseConsistent(idToLabel, labelToId)
      && idToSeqId.Keys <= idToLabel.Keys
      && (maxSeqId.Some? ==> forall id | id in idToSeqId :: idToSeqId[id] <= maxSeqId.value)
    }

    constructor (dimensionality: Option<nat>, maxSeqId: Option<U64>)
      ensures this.dimensionality == dimensionality && this.maxSeqId == maxSeqId
      ensures totalElementsAdded == 0 && idToLabel == map[] && labelToId == map[] && idToSeqId == map[]
    {
      this.dimensionality := dimensionality;
      this.maxSeqId := maxSeqId;
      totalElementsAdded := 0;
      idToLabel, labelToId, idToSeqId := map[], map[], map[];
    }

    /** Walks the maps in an unspecified order, as hash maps do, and reports the first failure it meets. */
    method Validate() returns (failure: Option<MapFailure>)
      ensures failure.None? <==> WellFormed()
      ensures failure.Some? ==>
                match failure.value
                case LengthMismatch => |idToLabel| != |labelToId|
                case MissingReverse(id, lbl) => id in idToLabel && idToLabel[id] == lbl && lbl !in labelToId
                case ForwardMismatch(id, lbl) =>
                  id in idToLabel && idToLabel[id] == lbl && lbl in labelToId && labelToId[lbl] != id
                case UnknownSeqId(id) => id in idToSeqId && id !in idToLabel
                case MaxSeqIdTooSmall => maxSeqId.Some? && exists id | id in idToSeqId :: idToSeqId[id] > maxSeqId.value
                case MissingForward(_, _) => false  // the reverse loop finds nothing that the first two checks let through
                case ReverseMismatch(_, _) => false
                case DuplicateId(_) => false
                case DuplicateLabel(_) => false
    {
      MutualInversesHaveEqualSize(idToLabel, labelToId);
      if |idToLabel| != |labelToId| {
        return Some(LengthMismatch);
      }

      var ids := idToLabel.Keys;
      while ids != {}
        invariant ids <= idToLabel.Keys
        invariant forall id | id in idToLabel.Keys - ids :: idToLabel[id] in labelToId && labelToId[idToLabel[id]] == id
        decreases ids
      {
        var id :| id in ids;
        var lbl := idToLabel[id];
        if lbl !in labelToId {
          return Some(MissingReverse(id, lbl));
        }
        if labelToId[lbl] != id {
          return Some(ForwardMismatch(id, lbl));
        }
        ids := ids - {id};
      }

      ReverseLoopNeverFails(idToLabel, labelToId);
      var labels := labelToId.Keys;
      while labels != {}
        invariant labels <= labelToId.Keys
        invariant forall lbl | lbl in labelToId.Keys - labels ::
                    labelToId[lbl] in idToLabel && idToLabel[labelToId[lbl]] == lbl
        decreases labels
      {
        var lbl :| lbl in labels;
        var id := labelToId[lbl];
        if id !in idToLabel {
          return Some(MissingForward(lbl, id));
        }
        if idToLabel[id] != lbl {
          return Some(ReverseMismatch(lbl, id));
        }
        labels := labels - {lbl};
      }

      ids := idToSeqId.Keys;
      var observed: Option<U32> := None;
      while ids != {}
        invariant ids <= idToSeqId.Keys
        invariant idToSeqId.Keys - ids <= idToLabel.Keys
        invariant forall id | id in idToSeqId.Keys - ids :: observed.Some? && idToSeqId[id] <= observed.value
        invariant observed.Some? ==> exists id | id in idToSeqId :: idToSeqId[id] == observed.value
        decreases ids
      {
        var id :| id in ids;
        if id !in idToLabel {
          return Some(UnknownSeqId(id));
        }
        if observed.None? || observed.value < idToSeqId[id] {
          observed := Some(idToSeqId[id]);
        }
        ids := ids - {id};
      }
      if maxSeqId.Some? && observed.Some? && maxSeqId.value < observed.value {
        return Some(MaxSeqIdTooSmall);
      }
      return None;
    }

    /** Adds one record under a new id and a new label, or changes nothing. */
    method InsertRecord(id: string, lbl: U32, seqId: Option<U32>) returns (failure: Option<MapFailure>)
      modifies this
      ensures failure.None? <==> id !in old(idToLabel) && lbl !in old(labelToId)
      ensures failure.Some? ==> unchanged(this)
      ensures failure.Some? ==> failure.value == if id in old(idToLabel) then DuplicateId(id) else DuplicateLabel(lbl)
      ensures failure.None? ==>
                && idToLabel == old(idToLabel)[id := lbl]
                && labelToId == old(labelToId)[lbl := id]
                && idToSeqId == (if seqId.Some? then old(idToSeqId)[id := seqId.value] else old(idToSeqId))
                && totalElementsAdded == lbl
      ensures maxSeqId == old(maxSeqId) && dimensionality == old(dimensionality)
    {
      if id in idToLabel {
        return Some(DuplicateId(id));
      }
      if lbl in labelToId {
        return Some(DuplicateLabel(lbl));
      }
      idToLabel := idToLabel[id := lbl];
      labelToId := labelToId[lbl := id];
      if seqId.Some? {
        idToSeqId := idToSeqId[id := seqId.value];
      }
      totalElementsAdded := lbl;
      return None;
    }
  }

  // ---- Counting ----

  function Image<A(!new), B>(f: map<A, B>, keys: set<A>): set<B>
    requires keys <= f.Keys
  {
    set k | k in keys :: f[k]
  }

  ghost predicate InjectiveOn<A(!new), B(!new)>(f: map<A, B>, keys: set<A>)
    requires keys <= f.Keys
  {
    forall j, k | j in keys && k in keys && f[j] == f[k] :: j == k
  }

  lemma {:induction false} InjectiveImageSize<A(!new), B(!new)>(f: map<A, B>, keys: set<A>)
    requires keys <= f.Keys && InjectiveOn(f, keys)
    ensures |Image(f, keys)| == |keys|
  {
    if keys != {} {
      var k :| k in keys;
      InjectiveImageSize(f, keys - {k});
      assert f[k] !in Image(f, keys - {k});
      assert Image(f, keys) == Image(f, keys - {k}) + {f[k]};
    }
  }

  lemma {:induction false} SubsetSize<A(!new)>(a: set<A>, b: set<A>)
    requires a <= b
    ensures |a| <= |b| && (|a| == |b| ==> a == b)
  {
    if a != {} {
      var x :| x in a;
      SubsetSize(a - {x}, b - {x});
      if a - {x} == b - {x} {
        assert a == a - {x} + {x};
        assert b == b - {x} + {x};
      }
    } else if |b| == 0 {
      assert b == {};
    }
  }

  /**
   After the length check and the forward loop the reverse loop cannot fail: with as many ids as labels,
   every label is the label of some id.
   */
  lemma ReverseLoopNeverFails(idToLabel: map<string, U32>, labelToId: map<U32, string>)
    requires |idToLabel| == |labelToId| && ForwardConsistent(idToLabel, labelToId)
    ensures ReverseConsistent(idToLabel, labelToId)
  {
    InjectiveImageSize(idToLabel, idToLabel.Keys);
    var labels := Image(idToLabel, idToLabel.Keys);
    assert |labels| == |labelToId.Keys|;
    SubsetSize(labels, labelToId.Keys);
    forall lbl | lbl in labelToId
      ensures labelToId[lbl] in idToLabel && idToLabel[labelToId[lbl]] == lbl
    {
      assert lbl in labels;
    }
  }

  lemma MutualInversesHaveEqualSize(idToLabel: map<string, U32>, labelToId: map<U32, string>)
    ensures ForwardConsistent(idToLabel, labelToId) && ReverseConsistent(idToLabel, labelToId) ==>
              |idToLabel| == |labelToId|
  {
    if ForwardConsistent(idToLabel, labelToId) && ReverseConsistent(idToLabel, labelToId) {
      InjectiveImageSize(idToLabel, idToLabel.Keys);
      var labels := Image(idToLabel, idToLabel.Keys);
      assert labels == labelToId.Keys by {
        forall lbl | lbl in labelToId
          ensures lbl in labels
        {
          assert labelToId[lbl] in idToLabel.Keys;
        }
      }
      assert |idToLabel| == |idToLabel.Keys| && |labelToId| == |labelToId.Keys|;
    }
  }
}
