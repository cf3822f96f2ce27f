/**
 Listing the collections to maintain, page by page. The listings themselves do not change while they are
 read; a request may fail.
 */
module TargetPaging {
  import opened Outcomes
  import opened MachineInts

  const PAGE_SIZE: U32 := 100

  /** The shortest listing for which the offset saturates before the last page. */
  const SATURATES_AT: int := 42949673 * PAGE_SIZE

  function SatAddU32(a: U32, b: U32): U32 {
    if a + b <= U32_MAX then a + b else U32_MAX
  }

  /** What a request with this offset answers. */
  function Page<T>(listing: seq<T>, offset: U32): seq<T> {
    if |listing| <= offset then []
    else if |listing| < offset + PAGE_SIZE then listing[offset..]
    else listing[offset..offset + PAGE_SIZE]
  }

  /** The offsets that are asked for. */
  predicate AskedFor(length: nat, offset: U32) {
    (offset % PAGE_SIZE == 0 && offset <= length) || (offset == U32_MAX && SATURATES_AT <= length)
  }

  datatype PageError<T> = RequestFailed(offset: U32) | Refused(item: T)

  /** The offsets that are asked for up to the page on which an entry is first seen. */
  predicate AskedUpTo(offset: U32, k: nat) {
    offset <= k && (offset % PAGE_SIZE == 0 || SATURATES_AT <= k)
  }

  /**
   Where the loop stops early: at the first request that fails, all entries before it being accepted, or at the
   first entry that is refused, no request up to its page having failed.
   */
  ghost predicate StopsAt<T>(listing: seq<T>, fails: U32 -> bool, accepts: T -> bool, e: PageError<T>) {
    match e
    case RequestFailed(offset) =>
      && AskedFor(|listing|, offset) && fails(offset)
      && (forall earlier: U32 | AskedFor(|listing|, earlier) && earlier < offset :: !fails(earlier))
      && (forall k | 0 <= k < |listing| && k < offset :: accepts(listing[k]))
    case Refused(item) =>
      exists k | 0 <= k < |listing| ::
        && listing[k] == item && !accepts(item) && (forall j | 0 <= j < k :: accepts(listing[j]))
        && (forall earlier: U32 | AskedFor(|listing|, earlier) && AskedUpTo(earlier, k) :: !fails(earlier))
  }

  /** The first entry of a page that is refused. */
  method FirstRefused<T>(page: seq<T>, accepts: T -> bool) returns (k: nat)
    ensures k <= |page| && (forall j | 0 <= j < k :: accepts(page[j])) && (k < |page| ==> !accepts(page[k]))
  {
    k := 0;
    while k < |page| && accepts(page[k])
      invariant k <= |page| && forall j | 0 <= j < k :: accepts(page[j])
    {
      k := k + 1;
    }
  }

  lemma PageIsPart<T>(listing: seq<T>, offset: U32)
    requires offset <= |listing|
    ensures var page := Page(listing, offset);
            && |page| <= PAGE_SIZE && offset + |page| <= |listing| && page == listing[offset..offset + |page|]
            && (|page| < PAGE_SIZE ==> offset + |page| == |listing|)
            && forall k | 0 <= k < |page| :: page[k] == listing[offset + k]
  {
  }

  /** How many entries were gathered before the request with this offset. */
  function SeenBefore(offset: U32): nat {
    if offset == U32_MAX then SATURATES_AT else offset
  }

  ghost predicate Reached<T>(listing: seq<T>, fails: U32 -> bool, accepts: T -> bool, offset: U32) {
    && AskedFor(|listing|, offset) && SeenBefore(offset) <= |listing|
    && (forall earlier: U32 | AskedFor(|listing|, earlier) && earlier < offset :: !fails(earlier))
    && (forall k | 0 <= k < SeenBefore(offset) :: accepts(listing[k]))
  }

  lemma FailureStops<T>(listing: seq<T>, fails: U32 -> bool, accepts: T -> bool, offset: U32)
    requires Reached(listing, fails, accepts, offset) && fails(offset)
    ensures StopsAt(listing, fails, accepts, RequestFailed(offset))
  {
  }

  lemma RefusalStops<T>(listing: seq<T>, fails: U32 -> bool, accepts: T -> bool, offset: U32, k: nat)
    requires Reached(listing, fails, accepts, offset) && !fails(offset)
    requires offset <= k < offset + PAGE_SIZE && k < |listing| && !accepts(listing[k])
    requires forall j | offset <= j < k :: accepts(listing[j])
    ensures StopsAt(listing, fails, accepts, Refused(listing[k]))
  {
    assert SeenBefore(offset) <= k;
    forall earlier: U32 | AskedFor(|listing|, earlier) && AskedUpTo(earlier, k)
      ensures !fails(earlier)
    {
      assert earlier <= offset;
    }
    assert forall j | 0 <= j < k :: accepts(listing[j]);
  }

  lemma StepReaches<T>(listing: seq<T>, fails: U32 -> bool, accepts: T -> bool, offset: U32)
    requires Reached(listing, fails, accepts, offset) && !fails(offset) && |listing| < U32_MAX + PAGE_SIZE
    requires var page := Page(listing, offset); forall x | x in page :: accepts(x)
    ensures |Page(listing, offset)| == PAGE_SIZE ==>
              offset <= SATURATES_AT - PAGE_SIZE && Reached(listing, fails, accepts, SatAddU32(offset, PAGE_SIZE))
    ensures |Page(listing, offset)| < PAGE_SIZE ==>
              && (forall asked: U32 | AskedFor(|listing|, asked) :: !fails(asked))
              && (forall k | 0 <= k < |listing| :: accepts(listing[k]))
  {
    PageIsPart(listing, offset);
    var page := Page(listing, offset);
    forall k | SeenBefore(offset) <= k < offset + |page|
      ensures accepts(listing[k])
    {
      assert page[k - offset] in page;
    }
    if |page| == PAGE_SIZE {
      assert offset != U32_MAX;
      assert offset % PAGE_SIZE == 0 && offset + PAGE_SIZE <= SATURATES_AT;
    }
  }

  /**
   The paging loop. It gathers the listing exactly when the listing is shorter than `SATURATES_AT`, whether or
   not its length is a multiple of the page size; from there on the saturated offset repeats five entries.
   */
  method ListPages<T>(listing: seq<T>, fails: U32 -> bool, accepts: T -> bool) returns (r: Result<seq<T>, PageError<T>>)
    requires |listing| < U32_MAX + PAGE_SIZE
    ensures r.Ok? ==> r.value == if |listing| < SATURATES_AT then listing
                                 else listing[..SATURATES_AT] + listing[U32_MAX..]
    ensures r.Ok? <==>
              && (forall offset: U32 | AskedFor(|listing|, offset) :: !fails(offset))
              && (forall k | 0 <= k < |listing| :: accepts(listing[k]))
    ensures r.Err? ==> StopsAt(listing, fails, accepts, r.error)
  {
    hide AskedFor, StopsAt;
    var gathered: seq<T> := [];
    var offset: U32 := 0;
    ReachedAtFirst(listing, fails, accepts);
    while true
      invariant Reached(listing, fails, accepts, offset) && gathered == listing[..SeenBefore(offset)]
      decreases U32_MAX - offset
    {
      if fails(offset) {
        FailureStops(listing, fails, accepts, offset);
        return Err(RequestFailed(offset));
      }
      var page := Page(listing, offset);
      AskedIsWithin(|listing|, offset);
      PageIsPart(listing, offset);
      var refused := FirstRefused(page, accepts);
      if refused < |page| {
        assert forall j | offset <= j < offset + refused :: accepts(page[j - offset]) && page[j - offset] == listing[j];
        RefusalStops(listing, fails, accepts, offset, offset + refused);
        return Err(Refused(page[refused]));
      }
      StepReaches(listing, fails, accepts, offset);
      if page == [] { break; }
      gathered := gathered + page;
      if |page| < PAGE_SIZE { break; }
      offset := SatAddU32(offset, |page|);
    }
    return Ok(gathered);
  }

  lemma ReachedAtFirst<T>(listing: seq<T>, fails: U32 -> bool, accepts: T -> bool)
    ensures Reached(listing, fails, accepts, 0)
  {
  }

  lemma AskedIsWithin(length: nat, offset: U32)
    requires AskedFor(length, offset)
    ensures offset <= length && (offset == U32_MAX || offset % PAGE_SIZE == 0)
  {
  }

  function OffsetAfter(fullPages: nat): U32 {
    if fullPages == 0 then 0 else SatAddU32(OffsetAfter(fullPages - 1), PAGE_SIZE)
  }

  lemma {:induction false} OffsetAfterIs(fullPages: nat)
    ensures OffsetAfter(fullPages) == if fullPages * PAGE_SIZE <= U32_MAX then fullPages * PAGE_SIZE else U32_MAX
  {
    if fullPages > 0 { OffsetAfterIs(fullPages - 1); }
  }

  /** The loop meets a page that ends it exactly when the listing does not go a full page past the last offset. */
  lemma PagingEndsExactlyWhen<T>(listing: seq<T>)
    ensures (exists n: nat :: |Page(listing, OffsetAfter(n))| < PAGE_SIZE) <==> |listing| < U32_MAX + PAGE_SIZE
  {
    if |listing| < U32_MAX + PAGE_SIZE {
      OffsetAfterIs(42949673);
      assert |Page(listing, OffsetAfter(42949673))| < PAGE_SIZE;
    }
  }

  // ---- Every collection of every database ----

  datatype Collection = Collection(id: string, name: string, tenant: string, database: string)

  function Flatten(names: seq<string>, collectionsOf: string -> seq<Collection>): seq<Collection> {
    if names == [] then [] else Flatten(names[..|names| - 1], collectionsOf) + collectionsOf(names[|names| - 1])
  }

  datatype ListError = DatabasesNotListed | InvalidName(name: string) | CollectionsNotListed(name: string)

  /** No request fails and no name is refused. */
  ghost predicate Listable(
    names: seq<string>, collectionsOf: string -> seq<Collection>, valid: string -> bool, accepts: Collection -> bool,
    fails: (string, U32) -> bool)
  {
    forall name | name in names ::
      && valid(name)
      && (forall offset: U32 | AskedFor(|collectionsOf(name)|, offset) :: !fails(name, offset))
      && (forall k | 0 <= k < |collectionsOf(name)| :: accepts(collectionsOf(name)[k]))
  }

  /** The trouble with one database: its name, a request for its collections, or the name a collection carries. */
  ghost predicate TroubleWith(
    name: string, collectionsOf: string -> seq<Collection>, valid: string -> bool, accepts: Collection -> bool,
    fails: (string, U32) -> bool, error: ListError)
  {
    if !valid(name) then error == InvalidName(name) else
    exists e :: StopsAt(collectionsOf(name), (offset: U32) => fails(name, offset), accepts, e)
                && error == (if e.RequestFailed? then CollectionsNotListed(name) else InvalidName(e.item.database))
  }

  method ListTargets(
    given: Option<string>, databases: seq<string>, collectionsOf: string -> seq<Collection>,
    valid: string -> bool, accepts: Collection -> bool, databasesFail: U32 -> bool, fails: (string, U32) -> bool)
    returns (r: Result<seq<Collection>, ListError>)
    requires |databases| < SATURATES_AT && forall name :: |collectionsOf(name)| < SATURATES_AT
    ensures var names := if given.Some? then [given.value] else databases;
            && (r.Ok? ==> r.value == Flatten(names, collectionsOf))
            && (r.Ok? <==>
                  && Listable(names, collectionsOf, valid, accepts, fails)
                  && (given.None? ==> forall offset: U32 | AskedFor(|databases|, offset) :: !databasesFail(offset)))
            && (r == Err(DatabasesNotListed) <==>
                  given.None? && exists offset: U32 | AskedFor(|databases|, offset) :: databasesFail(offset))
            && (r.Err? && r.error != DatabasesNotListed ==>
                  exists i | 0 <= i < |names| ::
                    && Listable(names[..i], collectionsOf, valid, accepts, fails)
                    && TroubleWith(names[i], collectionsOf, valid, accepts, fails, r.error))
  {
    var names: seq<string>;
    if given.Some? {
      names := [given.value];
    } else {
      var listed := ListPages(databases, databasesFail, _ => true);
      if listed.Err? { return Err(DatabasesNotListed); }
      names := listed.value;
    }
    var targets: seq<Collection> := [];
    for i := 0 to |names|
      invariant targets == Flatten(names[..i], collectionsOf)
      invariant Listable(names[..i], collectionsOf, valid, accepts, fails)
    {
      var name := names[i];
      if !valid(name) {
        assert TroubleWith(name, collectionsOf, valid, accepts, fails, InvalidName(name));
        return Err(InvalidName(name));
      }
      var listed := ListPages(collectionsOf(name), (offset: U32) => fails(name, offset), accepts);
      if listed.Err? {
        var error := if listed.error.RequestFailed? then CollectionsNotListed(name) else InvalidName(listed.error.item.database);
        assert TroubleWith(name, collectionsOf, valid, accepts, fails, error);
        return Err(error);
      }
      targets := targets + listed.value;
      assert names[..i + 1][..i] == names[..i];
      assert forall n | n in names[..i + 1] :: n in names[..i] || n == name;
    }
    assert names[..|names|] == names;
    return Ok(targets);
  }

  /** The collections come database by database, each database's in the order in which it lists them. */
  lemma {:induction false} FlattenInOrder(names: seq<string>, collectionsOf: string -> seq<Collection>, i: nat)
    requires i < |names|
    ensures var before := |Flatten(names[..i], collectionsOf)|;
            var all := Flatten(names, collectionsOf);
            && before + |collectionsOf(names[i])| <= |all|
            && all[before..before + |collectionsOf(names[i])|] == collectionsOf(names[i])
  {
    var n := |names| - 1;
    if i < n {
      FlattenInOrder(names[..n], collectionsOf, i);
      assert names[..n][..i] == names[..i] && names[..n][i] == names[i];
    }
  }

  ghost predicate NoDuplicates<T>(s: seq<T>) {
    forall i, j | 0 <= i < j < |s| :: s[i] != s[j]
  }

  ghost predicate InSome(names: seq<string>, collectionsOf: string -> seq<Collection>, c: Collection) {
    exists i :: 0 <= i < |names| && c in collectionsOf(names[i])
  }

  lemma {:induction false} FlattenHolds(names: seq<string>, collectionsOf: string -> seq<Collection>, c: Collection)
    ensures c in Flatten(names, collectionsOf) <==> InSome(names, collectionsOf, c)
  {
    if names != [] {
      var rest := names[..|names| - 1];
      FlattenHolds(rest, collectionsOf, c);
      assert forall i | 0 <= i < |rest| :: rest[i] == names[i];
      if i :| 0 <= i < |names| && c in collectionsOf(names[i]) {
        assert i < |rest| ==> c in collectionsOf(rest[i]);
      }
    }
  }

  lemma NoDuplicatesInSum<T>(a: seq<T>, b: seq<T>)
    requires NoDuplicates(a) && NoDuplicates(b) && forall x | x in a :: x !in b
    ensures NoDuplicates(a + b)
  {
    forall i, j | 0 <= i < j < |a + b|
      ensures (a + b)[i] != (a + b)[j]
    {
      if i < |a| <= j {
        assert (a + b)[i] in a && (a + b)[j] == b[j - |a|];
      }
    }
  }

  /** When no two databases share a collection, every collection of every database is a target exactly once. */
  lemma {:induction false} EveryCollectionOnce(names: seq<string>, collectionsOf: string -> seq<Collection>)
    requires forall i | 0 <= i < |names| :: NoDuplicates(collectionsOf(names[i]))
    requires forall i, j, c | 0 <= i < j < |names| && c in collectionsOf(names[i]) :: c !in collectionsOf(names[j])
    ensures NoDuplicates(Flatten(names, collectionsOf))
    ensures forall c :: c in Flatten(names, collectionsOf) <==> InSome(names, collectionsOf, c)
  {
    forall c
      ensures c in Flatten(names, collectionsOf) <==> InSome(names, collectionsOf, c)
    {
      FlattenHolds(names, collectionsOf, c);
    }
    if names != [] {
      var rest, last := names[..|names| - 1], names[|names| - 1];
      var before := Flatten(rest, collectionsOf);
      assert forall i | 0 <= i < |rest| :: rest[i] == names[i];
      hide NoDuplicates;
      EveryCollectionOnce(rest, collectionsOf);
      forall c | c in before
        ensures c !in collectionsOf(last)
      {
        var i :| 0 <= i < |rest| && c in collectionsOf(rest[i]);
        assert c in collectionsOf(names[i]);
      }
      NoDuplicatesInSum(before, collectionsOf(last));
    }
  }
}
