/**
 Normalisation of metadata values before they cross the native boundary. Go values are represented by
 their reflected kind; a float is a finite number, NaN or an infinity, and the conversion of an integer to
 a float is a parameter, so no rounding is assumed.
 */
module MetadataNormalizer {
  import opened MachineInts
  import opened Outcomes

  datatype GoFloat = Finite(value: real) | NaN | Inf

  /** Element kinds of a static slice type; every other kind is `OtherElem`. */
  datatype ElemKind = BoolElem | StringElem | IntElem | Uint8Elem | UintElem | FloatElem | OtherElem

  datatype GoValue =
    | GoNil
    | GoBool(b: bool)
    | GoString(s: string)
    | GoInt(i: I64)
    | GoUint(u: U64)
    | GoFloat(f: GoFloat)
    | GoNilPointer
    | GoPointer(target: GoValue)
    | GoSlice(elem: ElemKind, items: seq<GoValue>)
    | GoMap
    | GoOther

  datatype Scalar = Bool(b: bool) | Str(s: string) | Int(i: I64) | Float(f: real)

  datatype Normal =
    | Null
    | One(scalar: Scalar)
    | Bools(bools: seq<bool>)
    | Strings(strings: seq<string>)
    | Ints(ints: seq<I64>)
    | Floats(floats: seq<real>)

  /** Errors carry the position inside nested values as a trail of indices. */
  datatype MetadataError =
    | CannotBeNull(at: seq<nat>)
    | IntegerOutOfRange(at: seq<nat>)
    | NotFinite(at: seq<nat>)
    | UnsupportedType(at: seq<nat>)
    | UnsupportedArray(at: seq<nat>)
    | EmptyArray(at: seq<nat>)
    | NotHomogeneous(at: seq<nat>)
    | UnsupportedElement(at: seq<nat>)

  type Outcome = Result<Normal, MetadataError>

  // ---- The two-pass specification ----

  datatype Kind = BoolKind | StringKind | IntKind | FloatKind

  function KindOf(s: Scalar): Kind {
    match s
    case Bool(_) => BoolKind
    case Str(_) => StringKind
    case Int(_) => IntKind
    case Float(_) => FloatKind
  }

  /** First pass: the kind of a list of scalars, if it has one. */
  ghost function Classify(scalars: seq<Scalar>): Option<Kind> {
    if scalars == [] then None
    else if forall x | x in scalars :: x.Bool? then Some(BoolKind)
    else if forall x | x in scalars :: x.Str? then Some(StringKind)
    else if forall x | x in scalars :: x.Int? then Some(IntKind)
    else if forall x | x in scalars :: x.Int? || x.Float? then Some(FloatKind)
    else None
  }

  function ToFloat(conv: I64 -> real, s: Scalar): real {
    match s
    case Int(i) => conv(i)
    case Float(f) => f
    case _ => 0.0
  }

  /** Second pass: conversion, once the kind is known. */
  function Convert(conv: I64 -> real, kind: Kind, scalars: seq<Scalar>): Normal {
    match kind
    case BoolKind => Bools(seq(|scalars|, i requires 0 <= i < |scalars| => scalars[i].Bool? && scalars[i].b))
    case StringKind => Strings(seq(|scalars|, i requires 0 <= i < |scalars| => if scalars[i].Str? then scalars[i].s else ""))
    case IntKind => Ints(seq(|scalars|, i requires 0 <= i < |scalars| => if scalars[i].Int? then scalars[i].i else 0))
    case FloatKind => Floats(seq(|scalars|, i requires 0 <= i < |scalars| => ToFloat(conv, scalars[i])))
  }

  function EmptyOf(elem: ElemKind, at: seq<nat>): Outcome {
    match elem
    case BoolElem => Ok(Bools([]))
    case StringElem => Ok(Strings([]))
    case IntElem => Ok(Ints([]))
    case UintElem => Ok(Ints([]))
    case FloatElem => Ok(Floats([]))
    case Uint8Elem => Err(UnsupportedArray(at))
    case OtherElem => Err(EmptyArray(at))
  }

  /** What a value is outside an array. */
  ghost function Spec(conv: I64 -> real, value: GoValue, at: seq<nat>, allowNil: bool): Outcome
    decreases value, 1
  {
    match value
    case GoNil => if allowNil then Ok(Null) else Err(CannotBeNull(at))
    case GoBool(b) => Ok(One(Bool(b)))
    case GoString(s) => Ok(One(Str(s)))
    case GoInt(i) => Ok(One(Int(i)))
    case GoUint(u) => if u > I64_MAX then Err(IntegerOutOfRange(at)) else Ok(One(Int(u)))
    case GoFloat(f) => if f.Finite? then Ok(One(Float(f.value))) else Err(NotFinite(at))
    case GoNilPointer => if allowNil then Ok(Null) else Err(CannotBeNull(at))
    case GoPointer(target) => Spec(conv, target, at, allowNil)
    case GoSlice(elem, items) =>
      if elem.Uint8Elem? then Err(UnsupportedArray(at))
      else if items == [] then EmptyOf(elem, at)
      else SliceSpec(conv, value, at)
    case GoMap => Err(UnsupportedType(at))
    case GoOther => Err(UnsupportedType(at))
  }

  /** The elements of an array, normalised one by one. */
  ghost function Elements(conv: I64 -> real, slice: GoValue, at: seq<nat>, n: nat): (r: seq<Outcome>)
    requires slice.GoSlice? && n <= |slice.items|
    ensures |r| == n
    decreases slice, 0, n
  {
    if n == 0 then [] else Elements(conv, slice, at, n - 1) + [Spec(conv, slice.items[n - 1], at + [n - 1], false)]
  }

  ghost predicate AllScalar(elements: seq<Outcome>) {
    forall x | x in elements :: x.Ok? && x.value.One?
  }

  ghost function Scalars(elements: seq<Outcome>): (r: seq<Scalar>)
    requires AllScalar(elements)
    ensures |r| == |elements|
  {
    seq(|elements|, i requires 0 <= i < |elements| => assert elements[i] in elements; elements[i].value.scalar)
  }

  /** A list of elements that makes an array so far. */
  ghost predicate Accepted(elements: seq<Outcome>) {
    AllScalar(elements) && (elements != [] ==> Classify(Scalars(elements)).Some?)
  }

  /** The least position from `n` on up to which the elements no longer make an array, or their number. */
  ghost function FirstBad(elements: seq<Outcome>, n: nat): (k: nat)
    requires n <= |elements|
    ensures n <= k <= |elements|
    decreases |elements| - n
  {
    if n == |elements| || !Accepted(elements[..n + 1]) then n else FirstBad(elements, n + 1)
  }

  /** What is wrong with the element that spoils an array. */
  ghost function Complaint(element: Outcome, at: seq<nat>, i: nat): MetadataError {
    if element.Err? then element.error
    else if !element.value.One? then UnsupportedElement(at + [i])
    else NotHomogeneous(at)
  }

  /** All elements are classified, and only then converted. */
  ghost function SliceSpec(conv: I64 -> real, slice: GoValue, at: seq<nat>): Outcome
    requires slice.GoSlice? && slice.items != []
    decreases slice, 0, |slice.items| + 1
  {
    var elements := Elements(conv, slice, at, |slice.items|);
    if Accepted(elements) then
      Ok(Convert(conv, Classify(Scalars(elements)).value, Scalars(elements)))
    else
      FirstBadIsInside(elements, 0);
      Err(Complaint(elements[FirstBad(elements, 0)], at, FirstBad(elements, 0)))
  }

  // ---- Laws of the specification ----

  lemma {:induction false} FirstBadIsInside(elements: seq<Outcome>, n: nat)
    requires n <= |elements| && !Accepted(elements) && (n > 0 ==> Accepted(elements[..n]))
    ensures FirstBad(elements, n) < |elements|
    decreases |elements| - n
  {
    assert elements[..|elements|] == elements;
    if n < |elements| && Accepted(elements[..n + 1]) {
      FirstBadIsInside(elements, n + 1);
    }
  }

  lemma {:induction false} FirstBadStopsAt(elements: seq<Outcome>, n: nat, k: nat)
    requires n <= k < |elements|
    requires forall j | n < j <= k :: Accepted(elements[..j])
    requires !Accepted(elements[..k + 1])
    ensures FirstBad(elements, n) == k
    decreases k - n
  {
    if n < k {
      FirstBadStopsAt(elements, n + 1, k);
    }
  }

  lemma {:induction false} ElementsPrefix(conv: I64 -> real, slice: GoValue, at: seq<nat>, k: nat, n: nat)
    requires slice.GoSlice? && k <= n <= |slice.items|
    ensures Elements(conv, slice, at, n)[..k] == Elements(conv, slice, at, k)
    decreases n
  {
    if k < n {
      ElementsPrefix(conv, slice, at, k, n - 1);
      assert Elements(conv, slice, at, n)[..k] == Elements(conv, slice, at, n - 1)[..k];
    }
  }

  lemma ScalarsAppend(elements: seq<Outcome>, element: Outcome)
    requires AllScalar(elements) && element.Ok? && element.value.One?
    ensures AllScalar(elements + [element])
    ensures Scalars(elements + [element]) == Scalars(elements) + [element.value.scalar]
  {
    forall x | x in elements + [element]
      ensures x.Ok? && x.value.One?
    {
      assert x in elements || x == element;
    }
  }

  /** The kind of an array after one more element of a given kind. */
  function Join(kind: Option<Kind>, next: Kind): Option<Kind> {
    if kind.None? || kind.value == next then Some(next)
    else if (kind.value.IntKind? && next.FloatKind?) || (kind.value.FloatKind? && next.IntKind?) then Some(FloatKind)
    else None
  }

  lemma ClassifyAppend(scalars: seq<Scalar>, x: Scalar)
    requires scalars == [] || Classify(scalars).Some?
    ensures Classify(scalars + [x]) == Join(Classify(scalars), KindOf(x))
  {
    var longer := scalars + [x];
    assert forall y :: y in longer <==> y in scalars || y == x;
    assert x in longer;
    if scalars != [] {
      assert scalars[0] in scalars && scalars[0] in longer;
    }
  }

  lemma AcceptedPrefix(elements: seq<Outcome>, k: nat)
    requires Accepted(elements) && k <= |elements|
    ensures Accepted(elements[..k])
  {
    var front := elements[..k];
    assert forall x | x in front :: x in elements;
    if front != [] {
      assert Scalars(front) == Scalars(elements)[..k];
      assert forall x | x in Scalars(front) :: x in Scalars(elements);
    }
  }

  /** The error of an array is the complaint about the first element after which it is no longer one. */
  lemma SliceFailsAt(conv: I64 -> real, slice: GoValue, at: seq<nat>, i: nat)
    requires slice.GoSlice? && i < |slice.items|
    requires forall j | 0 < j <= i :: Accepted(Elements(conv, slice, at, j))
    requires !Accepted(Elements(conv, slice, at, i + 1))
    ensures SliceSpec(conv, slice, at) == Err(Complaint(Spec(conv, slice.items[i], at + [i], false), at, i))
  {
    var n := |slice.items|;
    var elements := Elements(conv, slice, at, n);
    forall j | 0 < j <= i
      ensures Accepted(elements[..j])
    {
      ElementsPrefix(conv, slice, at, j, n);
    }
    ElementsPrefix(conv, slice, at, i + 1, n);
    if Accepted(elements) {
      AcceptedPrefix(elements, i + 1);
    }
    FirstBadStopsAt(elements, 0, i);
    assert elements[i] == elements[..i + 1][i];
  }

  // ---- The one-pass algorithm ----

  /** The variables of the loop. */
  datatype Buffers = Buffers(kind: Option<Kind>, bools: seq<bool>, strings: seq<string>, ints: seq<I64>, floats: seq<real>)

  /** The buffers hold what the second pass would make of the elements seen so far. */
  ghost predicate Built(conv: I64 -> real, scalars: seq<Scalar>, b: Buffers) {
    && b.kind == Classify(scalars)
    && (b.kind.None? ==> scalars == [] && b == Buffers(None, [], [], [], []))
    && (b.kind.Some? ==>
          match b.kind.value
          case BoolKind => Bools(b.bools) == Convert(conv, BoolKind, scalars)
          case StringKind => Strings(b.strings) == Convert(conv, StringKind, scalars)
          case IntKind => Ints(b.ints) == Convert(conv, IntKind, scalars) && b.floats == []
          case FloatKind => Floats(b.floats) == Convert(conv, FloatKind, scalars))
  }

  /** The switch in the loop body: one more scalar, or a refusal. */
  method AddScalar(conv: I64 -> real, scalar: Scalar, b: Buffers, ghost scalars: seq<Scalar>) returns (r: Option<Buffers>)
    requires Built(conv, scalars, b)
    ensures r.Some? <==> Classify(scalars + [scalar]).Some?
    ensures r.Some? ==> Built(conv, scalars + [scalar], r.value)
  {
    ClassifyAppend(scalars, scalar);
    hide Classify;
    var kind, bools, strings, ints, floats := b.kind, b.bools, b.strings, b.ints, b.floats;
    match scalar {
      case Bool(v) =>
        if kind.Some? && !kind.value.BoolKind? {
          return None;
        }
        kind := Some(BoolKind);
        bools := bools + [v];
      case Str(v) =>
        if kind.Some? && !kind.value.StringKind? {
          return None;
        }
        kind := Some(StringKind);
        strings := strings + [v];
      case Int(v) =>
        if kind.None? || kind.value.IntKind? {
          kind := Some(IntKind);
          ints := ints + [v];
        } else if kind.value.FloatKind? {
          floats := floats + [conv(v)];
        } else {
          return None;
        }
      case Float(v) =>
        if kind.None? {
          kind := Some(FloatKind);
        }
        if kind.value.IntKind? {
          IntsOnly(scalars);
          for k := 0 to |ints|
            invariant |floats| == k && forall j | 0 <= j < k :: floats[j] == conv(ints[j])
          {
            floats := floats + [conv(ints[k])];
          }
          ints := [];
          kind := Some(FloatKind);
        }
        if !kind.value.FloatKind? {
          return None;
        }
        floats := floats + [v];
    }
    return Some(Buffers(kind, bools, strings, ints, floats));
  }

  lemma IntsOnly(scalars: seq<Scalar>)
    ensures Classify(scalars) == Some(IntKind) ==> forall k | 0 <= k < |scalars| :: scalars[k].Int?
  {
  }

  method NormalizeValue(conv: I64 -> real, value: GoValue, at: seq<nat>, allowNil: bool) returns (r: Outcome)
    ensures r == Spec(conv, value, at, allowNil)
    decreases value, 1
  {
    match value {
      case GoNil => r := if allowNil then Ok(Null) else Err(CannotBeNull(at));
      case GoBool(b) => r := Ok(One(Bool(b)));
      case GoString(s) => r := Ok(One(Str(s)));
      case GoInt(i) => r := Ok(One(Int(i)));
      case GoUint(u) => r := if u > I64_MAX then Err(IntegerOutOfRange(at)) else Ok(One(Int(u)));
      case GoFloat(f) =>
        match f {
          case Finite(x) => r := Ok(One(Float(x)));
          case _ => r := Err(NotFinite(at));
        }
      case GoNilPointer => r := if allowNil then Ok(Null) else Err(CannotBeNull(at));
      case GoPointer(target) => r := NormalizeValue(conv, target, at, allowNil);
      case GoSlice(_, _) => r := NormalizeSlice(conv, value, at);
      case GoMap => r := Err(UnsupportedType(at));
      case GoOther => r := Err(UnsupportedType(at));
    }
  }

  method NormalizeSlice(conv: I64 -> real, slice: GoValue, at: seq<nat>) returns (r: Outcome)
    requires slice.GoSlice?
    ensures r == Spec(conv, slice, at, false)
    decreases slice, 0
  {
    if slice.elem.Uint8Elem? {
      return Err(UnsupportedArray(at));
    }
    if slice.items == [] {
      return EmptyOf(slice.elem, at);
    }
    var buffers := Buffers(None, [], [], [], []);
    var i := 0;
    while i < |slice.items|
      invariant i <= |slice.items|
      invariant forall j | 0 < j <= i :: Accepted(Elements(conv, slice, at, j))
      invariant AllScalar(Elements(conv, slice, at, i))
      invariant Built(conv, Scalars(Elements(conv, slice, at, i)), buffers)
    {
      hide Built, Classify, SliceSpec, Convert;
      ghost var seen := Elements(conv, slice, at, i);
      var normalized := NormalizeValue(conv, slice.items[i], at + [i], false);
      if normalized.Err? {
        SpoiledBy(conv, slice, at, i);
        return Err(normalized.error);
      }
      if !normalized.value.One? {
        SpoiledBy(conv, slice, at, i);
        return Err(UnsupportedElement(at + [i]));
      }
      ScalarsAppend(seen, normalized);
      var added := AddScalar(conv, normalized.value.scalar, buffers, Scalars(seen));
      if added.None? {
        SliceFailsAt(conv, slice, at, i);
        return Err(NotHomogeneous(at));
      }
      buffers := added.value;
      i := i + 1;
    }
    match buffers.kind.value {
      case BoolKind => return Ok(Bools(buffers.bools));
      case StringKind => return Ok(Strings(buffers.strings));
      case IntKind => return Ok(Ints(buffers.ints));
      case FloatKind => return Ok(Floats(buffers.floats));
    }
  }

  /** An element that is no scalar spoils the array. */
  lemma SpoiledBy(conv: I64 -> real, slice: GoValue, at: seq<nat>, i: nat)
    requires slice.GoSlice? && i < |slice.items|
    requires forall j | 0 < j <= i :: Accepted(Elements(conv, slice, at, j))
    requires var element := Spec(conv, slice.items[i], at + [i], false); element.Err? || !element.value.One?
    ensures SliceSpec(conv, slice, at) == Err(Complaint(Spec(conv, slice.items[i], at + [i], false), at, i))
  {
    var elements := Elements(conv, slice, at, i + 1);
    assert elements[i] in elements;
    SliceFailsAt(conv, slice, at, i);
  }

  // ---- What normalisation means ----

  /** Which arrays are accepted, said of the elements alone. */
  lemma AcceptedArrays(scalars: seq<Scalar>)
    requires scalars != []
    ensures Classify(scalars).Some? <==>
              || (forall i | 0 <= i < |scalars| :: scalars[i].Bool?)
              || (forall i | 0 <= i < |scalars| :: scalars[i].Str?)
              || (forall i | 0 <= i < |scalars| :: scalars[i].Int? || scalars[i].Float?)
    ensures Classify(scalars) == Some(FloatKind) <==>
              && (forall i | 0 <= i < |scalars| :: scalars[i].Int? || scalars[i].Float?)
              && (exists i | 0 <= i < |scalars| :: scalars[i].Float?)
  {
    assert scalars[0] in scalars;
    if (forall i | 0 <= i < |scalars| :: scalars[i].Int? || scalars[i].Float?) && !(forall x | x in scalars :: x.Int?) {
      var x :| x in scalars && !x.Int?;
      var i :| 0 <= i < |scalars| && scalars[i] == x;
      assert scalars[i].Float?;
    }
    if i :| 0 <= i < |scalars| && scalars[i].Float? {
      assert scalars[i] in scalars;
    }
  }

  /** Success does not depend on where a value stands. */
  lemma {:induction false} SpecIgnoresPosition(conv: I64 -> real, value: GoValue, a: seq<nat>, b: seq<nat>, allowNil: bool)
    ensures Spec(conv, value, a, allowNil).Ok? ==> Spec(conv, value, b, allowNil) == Spec(conv, value, a, allowNil)
    decreases value, 1
  {
    match value {
      case GoPointer(target) => SpecIgnoresPosition(conv, target, a, b, allowNil);
      case GoSlice(elem, items) =>
        if !elem.Uint8Elem? && items != [] && Spec(conv, value, a, allowNil).Ok? {
          assert SliceSpec(conv, value, a).Ok?;
          assert Accepted(Elements(conv, value, a, |items|));
          ElementsIgnorePosition(conv, value, a, b, |items|);
        }
      case _ =>
    }
  }

  lemma {:induction false} ElementsIgnorePosition(conv: I64 -> real, slice: GoValue, a: seq<nat>, b: seq<nat>, n: nat)
    requires slice.GoSlice? && n <= |slice.items| && AllScalar(Elements(conv, slice, a, n))
    ensures Elements(conv, slice, b, n) == Elements(conv, slice, a, n)
    decreases slice, 0, n
  {
    if n > 0 {
      var front := Elements(conv, slice, a, n - 1);
      var last := Spec(conv, slice.items[n - 1], a + [n - 1], false);
      assert Elements(conv, slice, a, n) == front + [last];
      assert forall x | x in front :: x in front + [last];
      assert (front + [last])[n - 1] in front + [last];
      ElementsIgnorePosition(conv, slice, a, b, n - 1);
      SpecIgnoresPosition(conv, slice.items[n - 1], a + [n - 1], b + [n - 1], false);
    }
  }

  lemma {:induction false} ElementAt(conv: I64 -> real, slice: GoValue, at: seq<nat>, n: nat, i: nat)
    requires slice.GoSlice? && i < n <= |slice.items|
    ensures Elements(conv, slice, at, n)[i] == Spec(conv, slice.items[i], at + [i], false)
    decreases n
  {
    if i < n - 1 {
      ElementAt(conv, slice, at, n - 1, i);
    }
  }

  /** Whether an array is accepted, and as what, does not depend on the order of its elements. */
  lemma PermutedSliceIsAccepted(conv: I64 -> real, a: GoValue, b: GoValue, at: seq<nat>)
    requires a.GoSlice? && b.GoSlice? && a.elem == b.elem && multiset(a.items) == multiset(b.items) && a.items != []
    requires Spec(conv, a, at, false).Ok?
    ensures var r, s := Spec(conv, a, at, false), Spec(conv, b, at, false);
            && s.Ok?
            && (r.value.Bools? <==> s.value.Bools?) && (r.value.Strings? <==> s.value.Strings?)
            && (r.value.Ints? <==> s.value.Ints?) && (r.value.Floats? <==> s.value.Floats?)
  {
    assert a.items[0] in multiset(a.items);
    assert b.items != [];
    var es, fs := Elements(conv, a, at, |a.items|), Elements(conv, b, at, |b.items|);
    forall j | 0 <= j < |b.items|
      ensures fs[j] in es
    {
      assert b.items[j] in multiset(b.items);
      var i :| 0 <= i < |a.items| && a.items[i] == b.items[j];
      ElementAt(conv, a, at, |a.items|, i);
      ElementAt(conv, b, at, |b.items|, j);
      assert es[i] in es;
      SpecIgnoresPosition(conv, a.items[i], at + [i], at + [j], false);
    }
    assert AllScalar(fs);
    forall i | 0 <= i < |a.items|
      ensures es[i] in fs
    {
      assert a.items[i] in multiset(a.items);
      var j :| 0 <= j < |b.items| && b.items[j] == a.items[i];
      ElementAt(conv, a, at, |a.items|, i);
      ElementAt(conv, b, at, |b.items|, j);
      assert es[i] in es;
      SpecIgnoresPosition(conv, a.items[i], at + [i], at + [j], false);
    }
    SameElementsSameKind(es, fs);
  }

  lemma SameElementsSameKind(es: seq<Outcome>, fs: seq<Outcome>)
    requires AllScalar(es) && AllScalar(fs) && es != [] && fs != []
    requires forall i | 0 <= i < |es| :: es[i] in fs
    requires forall j | 0 <= j < |fs| :: fs[j] in es
    ensures Classify(Scalars(es)) == Classify(Scalars(fs))
  {
    var a, b := Scalars(es), Scalars(fs);
    forall x | x in a
      ensures x in b
    {
      var i :| 0 <= i < |es| && a[i] == x;
      var j :| 0 <= j < |fs| && fs[j] == es[i];
      assert b[j] == x;
    }
    forall x | x in b
      ensures x in a
    {
      var j :| 0 <= j < |fs| && b[j] == x;
      var i :| 0 <= i < |es| && es[i] == fs[j];
      assert a[i] == x;
    }
  }

  /** A normalised value as the Go value it is. */
  function AsGo(n: Normal): GoValue {
    match n
    case Null => GoNil
    case One(s) => ScalarAsGo(s)
    case Bools(bs) => GoSlice(BoolElem, seq(|bs|, i requires 0 <= i < |bs| => GoBool(bs[i])))
    case Strings(ss) => GoSlice(StringElem, seq(|ss|, i requires 0 <= i < |ss| => GoString(ss[i])))
    case Ints(ns) => GoSlice(IntElem, seq(|ns|, i requires 0 <= i < |ns| => GoInt(ns[i])))
    case Floats(fs) => GoSlice(FloatElem, seq(|fs|, i requires 0 <= i < |fs| => GoFloat(Finite(fs[i]))))
  }

  function ScalarAsGo(s: Scalar): GoValue {
    match s
    case Bool(b) => GoBool(b)
    case Str(t) => GoString(t)
    case Int(i) => GoInt(i)
    case Float(f) => GoFloat(Finite(f))
  }

  /** A slice of plain scalars of one kind normalises to the conversion of its items. */
  lemma PlainSlice(conv: I64 -> real, elem: ElemKind, scalars: seq<Scalar>, kind: Kind, at: seq<nat>)
    requires scalars != [] && !elem.Uint8Elem? && forall i | 0 <= i < |scalars| :: KindOf(scalars[i]) == kind
    ensures var slice := GoSlice(elem, seq(|scalars|, i requires 0 <= i < |scalars| => ScalarAsGo(scalars[i])));
            Spec(conv, slice, at, true) == Ok(Convert(conv, kind, scalars))
  {
    var slice := GoSlice(elem, seq(|scalars|, i requires 0 <= i < |scalars| => ScalarAsGo(scalars[i])));
    var es := Elements(conv, slice, at, |scalars|);
    forall i | 0 <= i < |scalars|
      ensures es[i] == Ok(One(scalars[i]))
    {
      ElementAt(conv, slice, at, |scalars|, i);
    }
    assert AllScalar(es);
    assert Scalars(es) == scalars;
    assert scalars[0] in scalars;
  }

  /** Normalising a normalised value changes nothing. */
  lemma NormalisingTwiceIsNormalisingOnce(conv: I64 -> real, n: Normal, at: seq<nat>)
    ensures Spec(conv, AsGo(n), at, true) == Ok(n)
  {
    match n {
      case Null =>
      case One(_) =>
      case Bools(bs) =>
        if bs != [] {
          var scalars := seq(|bs|, i requires 0 <= i < |bs| => Bool(bs[i]));
          PlainSlice(conv, BoolElem, scalars, BoolKind, at);
          assert AsGo(n).items == seq(|scalars|, i requires 0 <= i < |scalars| => ScalarAsGo(scalars[i]));
          assert Convert(conv, BoolKind, scalars) == n;
        }
      case Strings(ss) =>
        if ss != [] {
          var scalars := seq(|ss|, i requires 0 <= i < |ss| => Str(ss[i]));
          PlainSlice(conv, StringElem, scalars, StringKind, at);
          assert AsGo(n).items == seq(|scalars|, i requires 0 <= i < |scalars| => ScalarAsGo(scalars[i]));
          assert Convert(conv, StringKind, scalars) == n;
        }
      case Ints(ns) =>
        if ns != [] {
          var scalars := seq(|ns|, i requires 0 <= i < |ns| => Int(ns[i]));
          PlainSlice(conv, IntElem, scalars, IntKind, at);
          assert AsGo(n).items == seq(|scalars|, i requires 0 <= i < |scalars| => ScalarAsGo(scalars[i]));
          assert Convert(conv, IntKind, scalars) == n;
        }
      case Floats(fs) =>
        if fs != [] {
          var scalars := seq(|fs|, i requires 0 <= i < |fs| => Float(fs[i]));
          PlainSlice(conv, FloatElem, scalars, FloatKind, at);
          assert AsGo(n).items == seq(|scalars|, i requires 0 <= i < |scalars| => ScalarAsGo(scalars[i]));
          assert Convert(conv, FloatKind, scalars) == n;
        }
    }
  }

  // ---- Whole metadata maps ----

  /** Keys are visited in an unspecified order; the first bad value met is reported. */
  method NormalizeMetadata(conv: I64 -> real, metadata: map<string, GoValue>, allowNil: bool)
    returns (r: Result<map<string, Normal>, (string, MetadataError)>)
    ensures r.Ok? <==> forall key | key in metadata :: Spec(conv, metadata[key], [], allowNil).Ok?
    ensures r.Ok? ==> r.value.Keys == metadata.Keys
                      && forall key | key in metadata :: Spec(conv, metadata[key], [], allowNil) == Ok(r.value[key])
    ensures r.Err? ==> r.error.0 in metadata && Spec(conv, metadata[r.error.0], [], allowNil) == Err(r.error.1)
  {
    if metadata == map[] {
      return Ok(map[]);
    }
    var normalized: map<string, Normal> := map[];
    var keys := metadata.Keys;
    while keys != {}
      invariant keys <= metadata.Keys && normalized.Keys == metadata.Keys - keys
      invariant forall key | key in normalized :: Spec(conv, metadata[key], [], allowNil) == Ok(normalized[key])
      decreases keys
    {
      var key :| key in keys;
      var value := NormalizeValue(conv, metadata[key], [], allowNil);
      if value.Err? {
        return Err((key, value.error));
      }
      normalized := normalized[key := value.value];
      keys := keys - {key};
    }
    return Ok(normalized);
  }
}
