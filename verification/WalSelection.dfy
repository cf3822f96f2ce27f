/**
 Retention policies of the WAL prune engine: how many of the oldest candidate rows a prune removes.
 The loops of the shim are methods, each proved against a function; the theorems are about the functions.
 */
module WalSelection {
  import opened MachineInts
  import opened Outcomes

  /** The estimated size of a row: a nonnegative 64-bit signed integer, as the query decodes it. */
  type RowBytes = x: int | 0 <= x <= I64_MAX

  datatype Row = Row(seqId: I64, createdAtSecs: I64, bytes: RowBytes)

  datatype Policies = Policies(
    maxAgeSeconds: Option<U64>,
    maxBytes: Option<U64>,
    highBytes: Option<U64>,
    lowBytes: Option<U64>
  ) {
    predicate HasPolicy() {
      maxAgeSeconds.Some? || maxBytes.Some? || (highBytes.Some? && lowBytes.Some?)
    }

    /** Exactly the payloads that the shim's validation accepts. */
    predicate Valid() {
      && (maxAgeSeconds.Some? ==> maxAgeSeconds.value != 0)
      && highBytes.Some? == lowBytes.Some?
      && (highBytes.Some? && lowBytes.Some? ==> lowBytes.value <= highBytes.value)
    }

    /** Every setting of `weaker` is kept, others may be added. */
    predicate Extends(weaker: Policies) {
      && (weaker.maxAgeSeconds.Some? ==> maxAgeSeconds == weaker.maxAgeSeconds)
      && (weaker.maxBytes.Some? ==> maxBytes == weaker.maxBytes)
      && (weaker.highBytes.Some? ==> highBytes == weaker.highBytes)
      && (weaker.lowBytes.Some? ==> lowBytes == weaker.lowBytes)
    }
  }

  /** The left fold with saturating addition. */
  function TotalBytes(rows: seq<Row>): U64 {
    if rows == [] then 0 else SatAdd(TotalBytes(rows[..|rows| - 1]), rows[|rows| - 1].bytes)
  }

  /** The same total in exact arithmetic. */
  ghost function Sum(rows: seq<Row>): nat {
    if rows == [] then 0 else Sum(rows[..|rows| - 1]) + rows[|rows| - 1].bytes
  }

  // ---- Policy: maximum age ----

  function AgeCutoff(maxAgeSeconds: U64, now: I64): I64 {
    SatSubI64(now, if maxAgeSeconds <= I64_MAX then maxAgeSeconds else I64_MAX)
  }

  function AgePrefix(rows: seq<Row>, cutoff: I64): nat {
    if rows == [] || rows[0].createdAtSecs >= cutoff then 0 else 1 + AgePrefix(rows[1..], cutoff)
  }

  method PrefixForMaxAge(rows: seq<Row>, maxAgeSeconds: U64, now: I64) returns (prefix: nat)
    ensures prefix == AgePrefix(rows, AgeCutoff(maxAgeSeconds, now))
  {
    var maxAge: I64 := if maxAgeSeconds <= I64_MAX then maxAgeSeconds else I64_MAX;
    var cutoff := SatSubI64(now, maxAge);
    prefix := 0;
    while prefix < |rows|
      invariant prefix <= |rows|
      invariant AgePrefix(rows, cutoff) == prefix + AgePrefix(rows[prefix..], cutoff)
    {
      if rows[prefix].createdAtSecs < cutoff {
        prefix := prefix + 1;
        continue;
      }
      break;
    }
  }

  // ---- Policies: maximum bytes, and high/low watermark ----

  /** Removing the first `k` rows leaves at most `bound` bytes, as the shim computes it. */
  predicate Drained(rows: seq<Row>, k: nat, bound: U64)
    requires k <= |rows|
  {
    SatSub(TotalBytes(rows), TotalBytes(rows[..k])) <= bound
  }

  function LeastDrained(rows: seq<Row>, k: nat, bound: U64): nat
    requires k <= |rows|
    decreases |rows| - k
  {
    if k == |rows| || Drained(rows, k, bound) then k else LeastDrained(rows, k + 1, bound)
  }

  /** Nothing while the total is within `trigger`; then the shortest nonempty prefix that drains to `bound`. */
  function DrainPrefix(rows: seq<Row>, trigger: U64, bound: U64): nat {
    if TotalBytes(rows) <= trigger || rows == [] then 0 else LeastDrained(rows, 1, bound)
  }

  lemma {:induction false} LeastDrainedUnique(rows: seq<Row>, k: nat, bound: U64, p: nat)
    requires k <= p <= |rows|
    requires forall j | k <= j < p :: !Drained(rows, j, bound)
    requires p == |rows| || Drained(rows, p, bound)
    ensures LeastDrained(rows, k, bound) == p
    decreases p - k
  {
    if k < p {
      LeastDrainedUnique(rows, k + 1, bound, p);
    }
  }

  method PrefixForMaxBytes(rows: seq<Row>, maxBytes: U64) returns (prefix: nat)
    ensures prefix == DrainPrefix(rows, maxBytes, maxBytes)
  {
    var total := TotalBytes(rows);
    if total <= maxBytes {
      return 0;
    }
    var removed: U64 := 0;
    prefix := 0;
    while prefix < |rows|
      invariant prefix <= |rows|
      invariant removed == TotalBytes(rows[..prefix])
      invariant forall j | 1 <= j <= prefix :: !Drained(rows, j, maxBytes)
    {
      removed := SatAdd(removed, rows[prefix].bytes);
      prefix := prefix + 1;
      assert rows[..prefix][..prefix - 1] == rows[..prefix - 1];
      if SatSub(total, removed) <= maxBytes {
        LeastDrainedUnique(rows, 1, maxBytes, prefix);
        return;
      }
    }
    LeastDrainedUnique(rows, 1, maxBytes, |rows|);
  }

  method PrefixForWatermark(rows: seq<Row>, highBytes: U64, lowBytes: U64) returns (prefix: nat)
    ensures prefix == DrainPrefix(rows, highBytes, lowBytes)
  {
    var total := TotalBytes(rows);
    if total <= highBytes {
      return 0;
    }
    var removed: U64 := 0;
    prefix := 0;
    while prefix < |rows|
      invariant prefix <= |rows|
      invariant removed == TotalBytes(rows[..prefix])
      invariant forall j | 1 <= j <= prefix :: !Drained(rows, j, lowBytes)
    {
      removed := SatAdd(removed, rows[prefix].bytes);
      prefix := prefix + 1;
      assert rows[..prefix][..prefix - 1] == rows[..prefix - 1];
      if SatSub(total, removed) <= lowBytes {
        LeastDrainedUnique(rows, 1, lowBytes, prefix);
        return;
      }
    }
    LeastDrainedUnique(rows, 1, lowBytes, |rows|);
  }

  // ---- All policies together ----

  function Min(a: nat, b: nat): nat {
    if a <= b then a else b
  }

  /** Every configured policy must agree to remove a row. */
  function PrefixCount(rows: seq<Row>, policies: Policies, now: I64): nat {
    if !policies.HasPolicy() then 0 else
    var byAge := if policies.maxAgeSeconds.Some?
                 then AgePrefix(rows, AgeCutoff(policies.maxAgeSeconds.value, now)) else |rows|;
    var byBytes := if policies.maxBytes.Some?
                   then DrainPrefix(rows, policies.maxBytes.value, policies.maxBytes.value) else |rows|;
    var byWatermark := if policies.highBytes.Some? && policies.lowBytes.Some?
                       then DrainPrefix(rows, policies.highBytes.value, policies.lowBytes.value) else |rows|;
    Min(byAge, Min(byBytes, byWatermark))
  }

  method SelectPrefix(rows: seq<Row>, policies: Policies, now: I64) returns (prefix: nat)
    ensures prefix == PrefixCount(rows, policies, now)
  {
    AgePrefixBoundary(rows, if policies.maxAgeSeconds.Some? then AgeCutoff(policies.maxAgeSeconds.value, now) else 0);
    if rows == [] || !policies.HasPolicy() {
      return 0;
    }
    DrainPrefixWithin(rows, policies);
    prefix := |rows|;
    if policies.maxAgeSeconds.Some? {
      var p := PrefixForMaxAge(rows, policies.maxAgeSeconds.value, now);
      prefix := Min(prefix, p);
    }
    if policies.maxBytes.Some? {
      var p := PrefixForMaxBytes(rows, policies.maxBytes.value);
      prefix := Min(prefix, p);
    }
    if policies.highBytes.Some? && policies.lowBytes.Some? {
      var p := PrefixForWatermark(rows, policies.highBytes.value, policies.lowBytes.value);
      prefix := Min(prefix, p);
    }
  }

  // ---- Totals ----

  lemma {:induction false} TotalIsClampedSum(rows: seq<Row>)
    ensures TotalBytes(rows) == Clamp(Sum(rows))
  {
    if rows != [] {
      TotalIsClampedSum(rows[..|rows| - 1]);
    }
  }

  lemma {:induction false} SumSplits(rows: seq<Row>, k: nat)
    requires k <= |rows|
    ensures Sum(rows) == Sum(rows[..k]) + Sum(rows[k..])
  {
    if k < |rows| {
      var front := rows[..|rows| - 1];
      SumSplits(front, k);
      assert front[..k] == rows[..k];
      assert front[k..] == rows[k..][..|rows| - k - 1];
    } else {
      assert rows[..k] == rows;
    }
  }

  /** In exact arithmetic a prefix drains to the bound as soon as the remaining rows fit in it. */
  lemma DrainedExactly(rows: seq<Row>, k: nat, bound: U64)
    requires k <= |rows|
    ensures Sum(rows[k..]) <= bound ==> Drained(rows, k, bound)
    ensures Sum(rows) <= U64_MAX ==> (Drained(rows, k, bound) <==> Sum(rows[k..]) <= bound)
  {
    SumSplits(rows, k);
    TotalIsClampedSum(rows);
    TotalIsClampedSum(rows[..k]);
  }

  lemma {:induction false} LeastDrainedIsLeast(rows: seq<Row>, k: nat, bound: U64)
    requires k <= |rows|
    ensures var p := LeastDrained(rows, k, bound);
            k <= p <= |rows| && Drained(rows, p, bound) && forall j | k <= j < p :: !Drained(rows, j, bound)
    decreases |rows| - k
  {
    if k == |rows| {
      assert rows[..k] == rows;
    } else if !Drained(rows, k, bound) {
      LeastDrainedIsLeast(rows, k + 1, bound);
    }
  }

  lemma DrainPrefixWithin(rows: seq<Row>, policies: Policies)
    ensures policies.maxBytes.Some? ==>
              DrainPrefix(rows, policies.maxBytes.value, policies.maxBytes.value) <= |rows|
    ensures policies.highBytes.Some? && policies.lowBytes.Some? ==>
              DrainPrefix(rows, policies.highBytes.value, policies.lowBytes.value) <= |rows|
  {
    if rows != [] {
      if policies.maxBytes.Some? { LeastDrainedIsLeast(rows, 1, policies.maxBytes.value); }
      if policies.lowBytes.Some? { LeastDrainedIsLeast(rows, 1, policies.lowBytes.value); }
    }
  }

  /**
   Without saturation the byte policies remove nothing up to the trigger, and beyond it the least prefix
   whose removal brings the remaining bytes within the bound.
   */
  lemma DrainPrefixIsLeast(rows: seq<Row>, trigger: U64, bound: U64)
    requires bound <= trigger && Sum(rows) <= U64_MAX
    ensures var p := DrainPrefix(rows, trigger, bound);
            && p <= |rows|
            && (Sum(rows) <= trigger ==> p == 0)
            && (Sum(rows) > trigger ==> Sum(rows[p..]) <= bound && forall k | 0 <= k < p :: Sum(rows[k..]) > bound)
  {
    TotalIsClampedSum(rows);
    if Sum(rows) > trigger {
      LeastDrainedIsLeast(rows, 1, bound);
      forall k | 0 <= k <= |rows|
        ensures Drained(rows, k, bound) <==> Sum(rows[k..]) <= bound
      {
        DrainedExactly(rows, k, bound);
      }
      assert rows[0..] == rows;
    }
  }

  /** With saturation the shim never removes more than exact arithmetic would. */
  lemma SaturationNeverPrunesMore(rows: seq<Row>, trigger: U64, bound: U64, k: nat)
    requires bound <= trigger && k <= |rows|
    requires Sum(rows) > trigger ==> Sum(rows[k..]) <= bound
    ensures DrainPrefix(rows, trigger, bound) <= k
  {
    TotalIsClampedSum(rows);
    if TotalBytes(rows) > trigger {
      assert rows[0..] == rows;
      DrainedExactly(rows, k, bound);
      LeastDrainedIsLeast(rows, 1, bound);
    }
  }

  // ---- Age ----

  lemma {:induction false} AgePrefixBoundary(rows: seq<Row>, cutoff: I64)
    ensures var p := AgePrefix(rows, cutoff);
            && p <= |rows|
            && (forall i | 0 <= i < p :: rows[i].createdAtSecs < cutoff)
            && (p < |rows| ==> rows[p].createdAtSecs >= cutoff)
  {
    if rows != [] && rows[0].createdAtSecs < cutoff {
      AgePrefixBoundary(rows[1..], cutoff);
    }
  }

  function Older(rows: seq<Row>, cutoff: I64): seq<Row> {
    if rows == [] then []
    else if rows[0].createdAtSecs < cutoff then [rows[0]] + Older(rows[1..], cutoff)
    else Older(rows[1..], cutoff)
  }

  ghost predicate CreatedInOrder(rows: seq<Row>) {
    && (forall i | 0 <= i < |rows| :: 0 <= rows[i].createdAtSecs)
    && (forall i, j | 0 <= i < j < |rows| :: rows[i].createdAtSecs <= rows[j].createdAtSecs)
  }

  /** When creation times follow the log order, the age prefix is all of the old rows and nothing else. */
  lemma {:induction false} AgePrefixIsFullFilter(rows: seq<Row>, cutoff: I64)
    requires CreatedInOrder(rows)
    ensures AgePrefix(rows, cutoff) <= |rows| && rows[..AgePrefix(rows, cutoff)] == Older(rows, cutoff)
  {
    if rows != [] {
      AgePrefixIsFullFilter(rows[1..], cutoff);
      AgePrefixBoundary(rows[1..], cutoff);
      if rows[0].createdAtSecs < cutoff {
        assert rows[..AgePrefix(rows, cutoff)] == [rows[0]] + rows[1..][..AgePrefix(rows[1..], cutoff)];
      } else {
        assert AgePrefix(rows[1..], cutoff) == 0;
        assert rows[1..][..0] == [];
      }
    }
  }

  const NANOS_PER_SECOND: int := 1_000_000_000

  /** The Go option rounds a positive duration, in nanoseconds, up to whole seconds. */
  function MaxAgeSeconds(maxAgeNanos: I64): Option<U64> {
    if maxAgeNanos <= 0 then None else
    var seconds := maxAgeNanos / NANOS_PER_SECOND;
    Some(if maxAgeNanos % NANOS_PER_SECOND != 0 then seconds + 1 else seconds)
  }

  /**
   End to end, with both clocks in nanoseconds and truncated to seconds where the code truncates them:
   a row that the age policy prunes is strictly older than the duration the Go caller asked for.
   */
  lemma PrunedRowsAreOlderThanRequested(
    rows: seq<Row>, maxAgeNanos: I64, nowNanos: nat, i: nat, createdNanos: nat)
    requires MaxAgeSeconds(maxAgeNanos).Some? && nowNanos / NANOS_PER_SECOND <= I64_MAX
    requires var cutoff := AgeCutoff(MaxAgeSeconds(maxAgeNanos).value, nowNanos / NANOS_PER_SECOND);
             i < AgePrefix(rows, cutoff) && i < |rows|
    requires rows[i].createdAtSecs == createdNanos / NANOS_PER_SECOND
    ensures nowNanos - createdNanos > maxAgeNanos
  {
    var seconds := MaxAgeSeconds(maxAgeNanos).value;
    AgePrefixBoundary(rows, AgeCutoff(seconds, nowNanos / NANOS_PER_SECOND));
    assert seconds * NANOS_PER_SECOND >= maxAgeNanos;
    assert createdNanos / NANOS_PER_SECOND + seconds + 1 <= nowNanos / NANOS_PER_SECOND;
  }

  /** The rounding loses less than a second, and refuses exactly the durations that are not positive. */
  lemma MaxAgeRoundsUp(maxAgeNanos: I64)
    ensures MaxAgeSeconds(maxAgeNanos).Some? <==> maxAgeNanos > 0
    ensures maxAgeNanos > 0 ==>
              var seconds := MaxAgeSeconds(maxAgeNanos).value;
              (seconds - 1) * NANOS_PER_SECOND < maxAgeNanos <= seconds * NANOS_PER_SECOND
  {
    if maxAgeNanos > 0 {
      var seconds := maxAgeNanos / NANOS_PER_SECOND;
      assert maxAgeNanos == seconds * NANOS_PER_SECOND + maxAgeNanos % NANOS_PER_SECOND;
    }
  }

  // ---- Selection as a whole ----

  /** The row is older than the limit, which is taken as an i64 if it is larger. */
  predicate TooOld(row: Row, maxAgeSeconds: U64, now: I64) {
    now - row.createdAtSecs > (if maxAgeSeconds <= I64_MAX then maxAgeSeconds else I64_MAX)
  }

  /** No policy minds removing the row at `k`, given that the rows before it go. */
  ghost predicate MayGo(rows: seq<Row>, policies: Policies, now: I64, k: nat)
    requires k < |rows|
  {
    && (policies.maxAgeSeconds.Some? ==> TooOld(rows[k], policies.maxAgeSeconds.value, now))
    && (policies.maxBytes.Some? ==> Sum(rows[k..]) > policies.maxBytes.value)
    && (policies.highBytes.Some? && policies.lowBytes.Some? ==>
          Sum(rows) > policies.highBytes.value && Sum(rows[k..]) > policies.lowBytes.value)
  }

  /** An age limit, a byte limit or a complete watermark; half of a watermark is none. */
  predicate SomePolicy(policies: Policies) {
    || policies.maxAgeSeconds != None
    || policies.maxBytes != None
    || (policies.highBytes != None && policies.lowBytes != None)
  }

  /** Every row of the prefix may go, and the one after it may not; without a policy none may. */
  ghost predicate RightPrefix(rows: seq<Row>, policies: Policies, now: I64, p: nat) {
    && p <= |rows|
    && (SomePolicy(policies) || p == 0)
    && (SomePolicy(policies) ==>
          (forall k | 0 <= k < p :: MayGo(rows, policies, now, k)) && (p < |rows| ==> !MayGo(rows, policies, now, p)))
  }

  /** The cutoff decides the age exactly, although its subtraction saturates. */
  lemma CutoffDecidesAge(row: Row, maxAgeSeconds: U64, now: I64)
    ensures row.createdAtSecs < AgeCutoff(maxAgeSeconds, now) <==> TooOld(row, maxAgeSeconds, now)
  {
  }

  /** What is selected, in terms of the age and the sizes of the rows: the prefix up to the first row that may not go. */
  lemma SelectionIsTheRightPrefix(rows: seq<Row>, policies: Policies, now: I64, p: nat)
    requires policies.highBytes.Some? && policies.lowBytes.Some? ==> policies.lowBytes.value <= policies.highBytes.value
    requires Sum(rows) <= U64_MAX
    ensures p == PrefixCount(rows, policies, now) <==> RightPrefix(rows, policies, now, p)
  {
    PrefixIsRight(rows, policies, now);
    hide PrefixCount;
    var q := PrefixCount(rows, policies, now);
    if RightPrefix(rows, policies, now, p) { RightPrefixIsUnique(rows, policies, now, p, q); }
  }

  lemma RightPrefixIsUnique(rows: seq<Row>, policies: Policies, now: I64, p: nat, q: nat)
    requires RightPrefix(rows, policies, now, p) && RightPrefix(rows, policies, now, q)
    ensures p == q
  {
    hide MayGo;
  }

  lemma PrefixIsRight(rows: seq<Row>, policies: Policies, now: I64)
    requires policies.highBytes.Some? && policies.lowBytes.Some? ==> policies.lowBytes.value <= policies.highBytes.value
    requires Sum(rows) <= U64_MAX
    ensures RightPrefix(rows, policies, now, PrefixCount(rows, policies, now))
  {
    hide AgePrefix, AgeCutoff, DrainPrefix, Sum, TooOld;
    var p := PrefixCount(rows, policies, now);
    PrefixCountWithin(rows, policies, now);
    if policies.maxAgeSeconds.Some? { AgePart(rows, policies.maxAgeSeconds.value, now); }
    if policies.maxBytes.Some? { BytesPart(rows, policies.maxBytes.value, policies.maxBytes.value); }
    if policies.highBytes.Some? && policies.lowBytes.Some? { BytesPart(rows, policies.highBytes.value, policies.lowBytes.value); }
    forall k | 0 <= k < p && policies.HasPolicy()
      ensures MayGo(rows, policies, now, k)
    {
      assert policies.maxAgeSeconds.Some? ==> TooOld(rows[k], policies.maxAgeSeconds.value, now);
      assert policies.maxBytes.Some? ==> Sum(rows[k..]) > policies.maxBytes.value;
      assert policies.highBytes.Some? && policies.lowBytes.Some? ==> Sum(rows) > policies.highBytes.value && Sum(rows[k..]) > policies.lowBytes.value;
    }
    if p < |rows| && policies.HasPolicy() {
      assert || (policies.maxAgeSeconds.Some? && !TooOld(rows[p], policies.maxAgeSeconds.value, now))
             || (policies.maxBytes.Some? && (Sum(rows) <= policies.maxBytes.value || Sum(rows[p..]) <= policies.maxBytes.value))
             || (policies.highBytes.Some? && policies.lowBytes.Some?
                 && (Sum(rows) <= policies.highBytes.value || Sum(rows[p..]) <= policies.lowBytes.value));
      SumSplits(rows, p);
    }
  }

  lemma AgePart(rows: seq<Row>, maxAgeSeconds: U64, now: I64)
    ensures var p := AgePrefix(rows, AgeCutoff(maxAgeSeconds, now));
            && p <= |rows| && (forall k | 0 <= k < p :: TooOld(rows[k], maxAgeSeconds, now))
            && (p < |rows| ==> !TooOld(rows[p], maxAgeSeconds, now))
  {
    var cutoff := AgeCutoff(maxAgeSeconds, now);
    AgePrefixBoundary(rows, cutoff);
    forall k | 0 <= k < |rows|
      ensures rows[k].createdAtSecs < cutoff <==> TooOld(rows[k], maxAgeSeconds, now)
    {
      CutoffDecidesAge(rows[k], maxAgeSeconds, now);
    }
  }

  lemma BytesPart(rows: seq<Row>, trigger: U64, bound: U64)
    requires bound <= trigger && Sum(rows) <= U64_MAX
    ensures var p := DrainPrefix(rows, trigger, bound);
            && p <= |rows|
            && (forall k | 0 <= k < p :: Sum(rows) > trigger && Sum(rows[k..]) > bound)
            && (p < |rows| ==> Sum(rows) <= trigger || Sum(rows[p..]) <= bound)
  {
    DrainPrefixIsLeast(rows, trigger, bound);
    assert rows[0..] == rows;
  }

  /** Selecting again on what a prune left selects nothing. */
  ghost predicate SelectsNothingAgain(rows: seq<Row>, policies: Policies, now: I64) {
    var p := PrefixCount(rows, policies, now);
    p <= |rows| && PrefixCount(rows[p..], policies, now) == 0
  }

  lemma SelectionIsFixpoint(rows: seq<Row>, policies: Policies, now: I64)
    requires policies.Valid() && Sum(rows) <= U64_MAX
    ensures SelectsNothingAgain(rows, policies, now)
  {
    var p := PrefixCount(rows, policies, now);
    if !policies.HasPolicy() { return; }
    PrefixCountWithin(rows, policies, now);
    var rest := rows[p..];
    SumSplits(rows, p);
    if policies.maxAgeSeconds.Some? {
      var cutoff := AgeCutoff(policies.maxAgeSeconds.value, now);
      AgePrefixBoundary(rows, cutoff);
      assert p == AgePrefix(rows, cutoff) ==> AgePrefix(rest, cutoff) == 0;
    }
    if policies.maxBytes.Some? {
      var bound := policies.maxBytes.value;
      DrainPrefixIsLeast(rows, bound, bound);
      DrainPrefixIsLeast(rest, bound, bound);
      assert p == DrainPrefix(rows, bound, bound) ==> DrainPrefix(rest, bound, bound) == 0;
    }
    if policies.highBytes.Some? && policies.lowBytes.Some? {
      var high, low := policies.highBytes.value, policies.lowBytes.value;
      DrainPrefixIsLeast(rows, high, low);
      DrainPrefixIsLeast(rest, high, low);
      assert p == DrainPrefix(rows, high, low) ==> DrainPrefix(rest, high, low) == 0;
    }
  }

  lemma PrefixCountWithin(rows: seq<Row>, policies: Policies, now: I64)
    ensures PrefixCount(rows, policies, now) <= |rows|
  {
    if policies.maxAgeSeconds.Some? {
      AgePrefixBoundary(rows, AgeCutoff(policies.maxAgeSeconds.value, now));
    }
    DrainPrefixWithin(rows, policies);
  }

  /**
   A second selection is empty, whatever the policies and the clock, exactly when the byte total of the rows
   fits the integer it is kept in.
   */
  lemma FixpointExactlyWithoutSaturation(rows: seq<Row>)
    ensures (forall policies: Policies, now: I64 | policies.Valid() :: SelectsNothingAgain(rows, policies, now))
            <==> Sum(rows) <= U64_MAX
  {
    hide SelectsNothingAgain;
    if Sum(rows) <= U64_MAX {
      forall policies: Policies, now: I64 | policies.Valid()
        ensures SelectsNothingAgain(rows, policies, now)
      {
        SelectionIsFixpoint(rows, policies, now);
      }
    } else {
      var bound := SaturationSelectsAgain(rows, 0);
      assert Policies(None, Some(bound), None, None).Valid();
    }
  }

  /** The first prefix whose sum passes the limit. */
  lemma {:induction false} FirstSaturation(rows: seq<Row>) returns (k: nat)
    requires Sum(rows) > U64_MAX
    ensures 0 < k <= |rows| && Sum(rows[..k - 1]) <= U64_MAX < Sum(rows[..k])
  {
    var front := rows[..|rows| - 1];
    if Sum(front) <= U64_MAX {
      k := |rows|;
      assert rows[..|rows|] == rows;
    } else {
      k := FirstSaturation(front);
      assert front[..k - 1] == rows[..k - 1] && front[..k] == rows[..k];
    }
  }

  /**
   Rows whose total saturates, with a limit for which the first selection stops short: it takes what is
   missing to the largest u64 for what remains.
   */
  lemma SaturationSelectsAgain(rows: seq<Row>, now: I64) returns (bound: U64)
    requires Sum(rows) > U64_MAX
    ensures !SelectsNothingAgain(rows, Policies(None, Some(bound), None, None), now)
  {
    var k := FirstSaturation(rows);
    assert rows[..k][..k - 1] == rows[..k - 1];
    var removed := Sum(rows[..k - 1]);
    assert removed + rows[k - 1].bytes == Sum(rows[..k]);
    assert Sum(rows[..0]) == 0;
    assert removed > 0 && k > 1;
    bound := U64_MAX - removed;
    TotalIsClampedSum(rows);
    TotalIsClampedSum(rows[..k - 1]);
    LeastDrainedIsLeast(rows, 1, bound);
    var p := LeastDrained(rows, 1, bound);
    assert Drained(rows, k - 1, bound);
    assert p <= k - 1;
    SumGrows(rows, p, k - 1);
    SumSplits(rows, p);
    var rest := rows[p..];
    TotalIsClampedSum(rest);
    assert Sum(rest) > bound;
    LeastDrainedIsLeast(rest, 1, bound);
  }

  lemma SumGrows(rows: seq<Row>, j: nat, k: nat)
    requires j <= k <= |rows|
    ensures Sum(rows[..j]) <= Sum(rows[..k])
  {
    SumSplits(rows[..k], j);
    assert rows[..k][..j] == rows[..j];
  }

  /** Three rows of the largest size, and a limit of one byte: the first selection takes two of them, the second the third. */
  lemma SaturationBreaksFixpoint(a: Row, b: Row, c: Row, now: I64)
    requires a.bytes == b.bytes == c.bytes == I64_MAX
    ensures var policies := Policies(None, Some(1), None, None);
            && policies.Valid()
            && PrefixCount([a, b, c], policies, now) == 2
            && PrefixCount([a, b, c][2..], policies, now) == 1
  {
    var rows := [a, b, c];
    assert rows[2..] == [c];
    SumOfFirst(rows);
    SumOfFirst([c]);
    TotalIsClampedSum(rows);
    TotalIsClampedSum(rows[..1]);
    TotalIsClampedSum(rows[..2]);
    LeastDrainedUnique(rows, 1, 1, 2);
    TotalIsClampedSum([c]);
    TotalIsClampedSum([c][..1]);
    LeastDrainedUnique([c], 1, 1, 1);
  }

  lemma SumOfFirst(rows: seq<Row>)
    requires |rows| == 1 || |rows| == 3
    ensures Sum(rows[..1]) == rows[0].bytes
    ensures |rows| == 1 ==> Sum(rows) == rows[0].bytes
    ensures |rows| == 3 ==> Sum(rows[..2]) == rows[0].bytes + rows[1].bytes && Sum(rows) == Sum(rows[..2]) + rows[2].bytes
  {
    assert rows[..1][..0] == [];
    assert rows[..|rows|] == rows;
    if |rows| == 3 { assert rows[..2][..1] == rows[..1]; }
  }

  /**
   Adding policies never enlarges the selection of a set that already has one, and only then:
   an empty set selects nothing, which any added policy may exceed.
   */
  lemma AddingPoliciesShrinksExactlyWhenOneIsSet(weaker: Policies, now: I64)
    ensures weaker.HasPolicy() <==>
            forall stronger: Policies, rows: seq<Row> | stronger.Extends(weaker) ::
              PrefixCount(rows, stronger, now) <= PrefixCount(rows, weaker, now)
  {
    if weaker.HasPolicy() {
      forall stronger: Policies, rows: seq<Row> | stronger.Extends(weaker)
        ensures PrefixCount(rows, stronger, now) <= PrefixCount(rows, weaker, now)
      {
        PrefixCountWithin(rows, stronger, now);
      }
    } else {
      var rows := [Row(1, 0, 1)];
      var stronger := weaker.(maxBytes := Some(0));
      assert rows[..0] == [] && TotalBytes([]) == 0;
      assert TotalBytes(rows) == 1;
      LeastDrainedUnique(rows, 1, 0, 1);
      assert stronger.Extends(weaker);
      assert PrefixCount(rows, stronger, now) == 1;
    }
  }
}
