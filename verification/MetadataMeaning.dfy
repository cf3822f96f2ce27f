/**
 What normalised metadata stands for, said without the two passes: which Go values a normalised value
 represents, and what is wrong with a value that is refused.
 */
module MetadataMeaning {
  import opened MachineInts
  import opened Outcomes
  import opened MetadataNormalizer

  /** Behind all pointers. */
  function Target(value: GoValue): GoValue {
    match value
    case GoPointer(target) => Target(target)
    case _ => value
  }

  /** The value is this scalar; an integer may come signed or unsigned, with the same number. */
  predicate IsScalar(value: GoValue, s: Scalar) {
    var v := Target(value);
    match s
    case Bool(b) => v == GoBool(b)
    case Str(t) => v == GoString(t)
    case Int(i) => (v.GoInt? && v.i == i) || (v.GoUint? && v.u == i)
    case Float(f) => v == GoFloat(Finite(f))
  }

  predicate HasItems(v: GoValue, n: nat) {
    v.GoSlice? && !v.elem.Uint8Elem? && |v.items| == n
  }

  /** The item as a float: one itself, or an integer converted. */
  ghost predicate IsFloat(conv: I64 -> real, item: GoValue, f: real) {
    IsScalar(item, Float(f)) || (exists i: I64 :: IsScalar(item, Int(i)) && f == conv(i))
  }

  ghost predicate Represents(conv: I64 -> real, value: GoValue, n: Normal) {
    var v := Target(value);
    match n
    case Null => v.GoNil? || v.GoNilPointer?
    case One(s) => IsScalar(v, s)
    case Bools(bs) =>
      && HasItems(v, |bs|) && (bs == [] ==> v.elem.BoolElem?)
      && forall k | 0 <= k < |bs| :: IsScalar(v.items[k], Bool(bs[k]))
    case Strings(ss) =>
      && HasItems(v, |ss|) && (ss == [] ==> v.elem.StringElem?)
      && forall k | 0 <= k < |ss| :: IsScalar(v.items[k], Str(ss[k]))
    case Ints(ns) =>
      && HasItems(v, |ns|) && (ns == [] ==> v.elem.IntElem? || v.elem.UintElem?)
      && forall k | 0 <= k < |ns| :: IsScalar(v.items[k], Int(ns[k]))
    case Floats(fs) =>
      && HasItems(v, |fs|) && (fs == [] ==> v.elem.FloatElem?)
      && (forall k | 0 <= k < |fs| :: IsFloat(conv, v.items[k], fs[k]))
      && (fs != [] ==> exists k | 0 <= k < |fs| :: IsScalar(v.items[k], Float(fs[k])))
  }

  // ---- Scalars ----

  lemma {:induction false} SpecOfTarget(conv: I64 -> real, value: GoValue, at: seq<nat>, allowNil: bool)
    ensures Spec(conv, value, at, allowNil) == Spec(conv, Target(value), at, allowNil)
    ensures !Target(value).GoPointer?
    decreases value
  {
    if value.GoPointer? { SpecOfTarget(conv, value.target, at, allowNil); }
  }

  lemma SliceGivesNoScalar(conv: I64 -> real, slice: GoValue, at: seq<nat>, allowNil: bool)
    requires slice.GoSlice?
    ensures var r := Spec(conv, slice, at, allowNil); r.Ok? ==> !r.value.One? && !r.value.Null?
  {
  }

  lemma ScalarsAreKept(conv: I64 -> real, value: GoValue, at: seq<nat>, allowNil: bool, s: Scalar)
    ensures Spec(conv, value, at, allowNil) == Ok(One(s)) <==> IsScalar(value, s)
  {
    SpecOfTarget(conv, value, at, allowNil);
    var v := Target(value);
    if v.GoSlice? { SliceGivesNoScalar(conv, v, at, allowNil); }
  }

  lemma ElementIsScalar(conv: I64 -> real, slice: GoValue, at: seq<nat>, k: nat, s: Scalar)
    requires slice.GoSlice? && k < |slice.items|
    ensures Elements(conv, slice, at, |slice.items|)[k] == Ok(One(s)) <==> IsScalar(slice.items[k], s)
  {
    ElementAt(conv, slice, at, |slice.items|, k);
    ScalarsAreKept(conv, slice.items[k], at + [k], false, s);
  }

  // ---- Arrays ----

  /** The items of a slice are these scalars, one by one. */
  ghost predicate AreScalars(items: seq<GoValue>, scalars: seq<Scalar>) {
    |items| == |scalars| && forall k | 0 <= k < |items| :: IsScalar(items[k], scalars[k])
  }

  lemma SliceOfScalars(conv: I64 -> real, slice: GoValue, at: seq<nat>, scalars: seq<Scalar>)
    requires slice.GoSlice? && slice.items != [] && AreScalars(slice.items, scalars) && Classify(scalars).Some?
    ensures SliceSpec(conv, slice, at) == Ok(Convert(conv, Classify(scalars).value, scalars))
  {
    hide Classify, Convert, IsScalar;
    var es := Elements(conv, slice, at, |slice.items|);
    forall k | 0 <= k < |es|
      ensures es[k] == Ok(One(scalars[k]))
    {
      ElementIsScalar(conv, slice, at, k, scalars[k]);
    }
    assert AllScalar(es);
    assert Scalars(es) == scalars;
  }

  lemma ScalarsOfSlice(conv: I64 -> real, slice: GoValue, at: seq<nat>) returns (scalars: seq<Scalar>)
    requires slice.GoSlice? && slice.items != [] && SliceSpec(conv, slice, at).Ok?
    ensures AreScalars(slice.items, scalars) && Classify(scalars).Some?
    ensures SliceSpec(conv, slice, at) == Ok(Convert(conv, Classify(scalars).value, scalars))
  {
    hide Classify, Convert, IsScalar;
    var es := Elements(conv, slice, at, |slice.items|);
    assert Accepted(es);
    scalars := Scalars(es);
    forall k | 0 <= k < |slice.items|
      ensures IsScalar(slice.items[k], scalars[k])
    {
      assert es[k] in es;
      ElementIsScalar(conv, slice, at, k, scalars[k]);
    }
  }

  /** What the second pass makes of scalars represents them. */
  lemma ConvertRepresents(conv: I64 -> real, slice: GoValue, scalars: seq<Scalar>)
    requires slice.GoSlice? && !slice.elem.Uint8Elem? && scalars != []
    requires AreScalars(slice.items, scalars) && Classify(scalars).Some?
    ensures Represents(conv, slice, Convert(conv, Classify(scalars).value, scalars))
  {
    hide IsScalar;
    AcceptedArrays(scalars);
    var kind := Classify(scalars).value;
    forall k | 0 <= k < |scalars|
      ensures scalars[k] in scalars
    {
    }
    if kind == FloatKind {
      var fs := Convert(conv, kind, scalars).floats;
      forall k | 0 <= k < |fs|
        ensures IsFloat(conv, slice.items[k], fs[k])
      {
        if scalars[k].Int? { assert IsScalar(slice.items[k], Int(scalars[k].i)); }
      }
      var j :| 0 <= j < |scalars| && scalars[j].Float?;
      assert IsScalar(slice.items[j], Float(fs[j]));
    }
  }

  /** The scalars that a normalised array stands for, and their conversion back. */
  lemma RepresentedScalars(conv: I64 -> real, slice: GoValue, n: Normal) returns (scalars: seq<Scalar>)
    requires slice.GoSlice? && slice.items != [] && Represents(conv, slice, n)
    ensures AreScalars(slice.items, scalars) && Classify(scalars).Some? && !slice.elem.Uint8Elem?
    ensures n == Convert(conv, Classify(scalars).value, scalars)
  {
    assert !n.Null? && !n.One?;
    match n {
      case Bools(bs) => scalars := seq(|bs|, k requires 0 <= k < |bs| => Bool(bs[k]));
      case Strings(ss) => scalars := seq(|ss|, k requires 0 <= k < |ss| => Str(ss[k]));
      case Ints(ns) => scalars := seq(|ns|, k requires 0 <= k < |ns| => Int(ns[k]));
      case Floats(fs) => scalars := FloatScalars(conv, slice.items, fs);
    }
    assert scalars[0] in scalars;
    AcceptedArrays(scalars);
  }

  lemma {:induction false} FloatScalars(conv: I64 -> real, items: seq<GoValue>, fs: seq<real>) returns (scalars: seq<Scalar>)
    requires |items| == |fs| && forall k | 0 <= k < |fs| :: IsFloat(conv, items[k], fs[k])
    ensures AreScalars(items, scalars)
    ensures forall k | 0 <= k < |fs| :: (scalars[k].Int? || scalars[k].Float?) && ToFloat(conv, scalars[k]) == fs[k]
    ensures forall k | 0 <= k < |fs| :: IsScalar(items[k], Float(fs[k])) ==> scalars[k].Float?
    decreases |fs|
  {
    if fs == [] {
      scalars := [];
    } else {
      var n := |fs| - 1;
      var front := FloatScalars(conv, items[..n], fs[..n]);
      if IsScalar(items[n], Float(fs[n])) {
        scalars := front + [Float(fs[n])];
      } else {
        var i: I64 :| IsScalar(items[n], Int(i)) && fs[n] == conv(i);
        scalars := front + [Int(i)];
      }
      hide IsScalar, IsFloat;
      forall k | 0 <= k < |fs|
        ensures IsScalar(items[k], scalars[k])
      {
        if k < n { assert items[..n][k] == items[k] && scalars[k] == front[k]; }
      }
      assert forall k | 0 <= k < n :: items[..n][k] == items[k] && fs[..n][k] == fs[k] && scalars[k] == front[k];
    }
  }

  // ---- The meaning ----

  lemma ArrayMeaning(conv: I64 -> real, v: GoValue, at: seq<nat>, allowNil: bool, n: Normal)
    requires v.GoSlice? && !v.elem.Uint8Elem? && v.items != []
    ensures Spec(conv, v, at, allowNil) == Ok(n) <==> Represents(conv, v, n)
  {
    hide Represents, Convert, Classify, SliceSpec;
    if Spec(conv, v, at, allowNil) == Ok(n) {
      var scalars := ScalarsOfSlice(conv, v, at);
      ConvertRepresents(conv, v, scalars);
    }
    if Represents(conv, v, n) {
      var scalars := RepresentedScalars(conv, v, n);
      SliceOfScalars(conv, v, at, scalars);
    }
  }

  lemma RepresentsTarget(conv: I64 -> real, value: GoValue, n: Normal)
    ensures Represents(conv, value, n) <==> Represents(conv, Target(value), n)
  {
    TargetIsNoPointer(value);
    assert Target(Target(value)) == Target(value);
  }

  lemma {:induction false} TargetIsNoPointer(value: GoValue)
    ensures !Target(value).GoPointer?
  {
    if value.GoPointer? { TargetIsNoPointer(value.target); }
  }

  lemma PlainMeaning(conv: I64 -> real, v: GoValue, at: seq<nat>, allowNil: bool, n: Normal)
    requires !v.GoPointer? && !(v.GoSlice? && !v.elem.Uint8Elem? && v.items != [])
    ensures Spec(conv, v, at, allowNil) == Ok(n) <==> Represents(conv, v, n) && (n.Null? ==> allowNil)
  {
    hide SliceSpec, Convert, Classify;
    assert Target(v) == v;
  }

  /**
   A value normalises to `n` exactly when `n` represents it, and null is allowed where it is null: nothing is
   accepted that is not represented, nothing representable is refused, and no number changes but by the
   conversion of integers among floats.
   */
  lemma NormalisesExactlyToWhatRepresentsIt(conv: I64 -> real, value: GoValue, at: seq<nat>, allowNil: bool, n: Normal)
    ensures Spec(conv, value, at, allowNil) == Ok(n) <==> Represents(conv, value, n) && (n.Null? ==> allowNil)
  {
    SpecOfTarget(conv, value, at, allowNil);
    RepresentsTarget(conv, value, n);
    var v := Target(value);
    if v.GoSlice? && !v.elem.Uint8Elem? && v.items != [] {
      ArrayMeaning(conv, v, at, allowNil, n);
      if Represents(conv, v, n) { ArrayIsNotNull(conv, v, n); }
    } else {
      hide Represents;
      PlainMeaning(conv, v, at, allowNil, n);
    }
  }

  lemma ArrayIsNotNull(conv: I64 -> real, v: GoValue, n: Normal)
    requires v.GoSlice? && Represents(conv, v, n)
    ensures !n.Null?
  {
  }

  // ---- What is wrong with a value that is refused ----

  ghost predicate ScalarItem(value: GoValue) {
    exists s :: IsScalar(value, s)
  }

  /** Scalars without a common kind. */
  ghost predicate Mixed(items: seq<GoValue>) {
    exists scalars :: AreScalars(items, scalars) && scalars != [] && Classify(scalars).None?
  }

  /** The value is guilty of the error, at the end of the trail of indices that leads from it to the culprit. */
  ghost predicate Guilty(conv: I64 -> real, value: GoValue, trail: seq<nat>, allowNil: bool, e: MetadataError)
    decreases |trail|
  {
    var v := Target(value);
    if trail == [] then
      match e
      case CannotBeNull(_) => (v.GoNil? || v.GoNilPointer?) && !allowNil
      case IntegerOutOfRange(_) => v.GoUint? && v.u > I64_MAX
      case NotFinite(_) => v.GoFloat? && !v.f.Finite?
      case UnsupportedType(_) => v.GoMap? || v.GoOther?
      case UnsupportedArray(_) => v.GoSlice? && v.elem.Uint8Elem?
      case EmptyArray(_) => v.GoSlice? && v.elem.OtherElem? && v.items == []
      case NotHomogeneous(_) => v.GoSlice? && exists k | 0 < k <= |v.items| :: Mixed(v.items[..k])
      case UnsupportedElement(_) => false
    else
      && v.GoSlice? && !v.elem.Uint8Elem? && trail[0] < |v.items|
      && (forall k | 0 <= k < trail[0] :: ScalarItem(v.items[k]))
      && (if |trail| == 1 && e.UnsupportedElement? then
            exists n: Normal :: !n.Null? && !n.One? && Represents(conv, v.items[trail[0]], n)
          else Guilty(conv, v.items[trail[0]], trail[1..], false, e))
  }

  /** The element that spoils an array: up to it the elements make one, with it they do not. */
  ghost predicate Spoils(conv: I64 -> real, v: GoValue, at: seq<nat>, i: nat)
    requires v.GoSlice?
  {
    && i < |v.items|
    && (forall j | 0 < j <= i :: Accepted(Elements(conv, v, at, j)))
    && !Accepted(Elements(conv, v, at, i + 1))
  }

  lemma FirstSpoiler(conv: I64 -> real, v: GoValue, at: seq<nat>) returns (i: nat)
    requires v.GoSlice? && v.items != [] && SliceSpec(conv, v, at).Err?
    ensures Spoils(conv, v, at, i)
    ensures SliceSpec(conv, v, at) == Err(Complaint(Spec(conv, v.items[i], at + [i], false), at, i))
  {
    hide Accepted;
    assert !Accepted(Elements(conv, v, at, |v.items|));
    i := 0;
    while Accepted(Elements(conv, v, at, i + 1))
      invariant i < |v.items| && forall j | 0 < j <= i :: Accepted(Elements(conv, v, at, j))
      decreases |v.items| - i
    {
      i := i + 1;
    }
    SliceFailsAt(conv, v, at, i);
  }

  lemma EarlierIsScalar(conv: I64 -> real, v: GoValue, at: seq<nat>, i: nat, k: nat)
    requires v.GoSlice? && Spoils(conv, v, at, i) && k < i
    ensures ScalarItem(v.items[k])
  {
    var es := Elements(conv, v, at, i);
    assert Accepted(es) && es[k] in es;
    ElementAt(conv, v, at, i, k);
    ScalarsAreKept(conv, v.items[k], at + [k], false, es[k].value.scalar);
  }

  lemma SpoiledByKind(conv: I64 -> real, v: GoValue, at: seq<nat>, i: nat)
    requires v.GoSlice? && Spoils(conv, v, at, i)
    requires var element := Spec(conv, v.items[i], at + [i], false); element.Ok? && element.value.One?
    ensures Mixed(v.items[..i + 1])
  {
    hide Classify, IsScalar;
    var es := Elements(conv, v, at, i + 1);
    var front := Elements(conv, v, at, i);
    assert es == front + [Spec(conv, v.items[i], at + [i], false)];
    if i > 0 { assert Accepted(front); }
    ScalarsAppend(front, Spec(conv, v.items[i], at + [i], false));
    var scalars := Scalars(es);
    forall k | 0 <= k <= i
      ensures IsScalar(v.items[..i + 1][k], scalars[k])
    {
      assert es[k] in es;
      ElementAt(conv, v, at, i + 1, k);
      ScalarsAreKept(conv, v.items[k], at + [k], false, scalars[k]);
    }
    assert AreScalars(v.items[..i + 1], scalars);
  }

  /**
   A refusal names the culprit: from the place of the value, the position in the error leads to a part of it
   that is guilty of just this error, past items that are scalars.
   */
  lemma {:induction false} ErrorsNameTheCulprit(conv: I64 -> real, value: GoValue, at: seq<nat>, allowNil: bool)
    ensures var r := Spec(conv, value, at, allowNil);
            r.Err? ==> at <= r.error.at && Guilty(conv, value, r.error.at[|at|..], allowNil, r.error)
    decreases value
  {
    SpecOfTarget(conv, value, at, allowNil);
    TargetIsPart(value);
    var v := Target(value);
    if v.GoSlice? && !v.elem.Uint8Elem? && v.items != [] {
      if SliceSpec(conv, v, at).Err? {
        var i := FirstSpoiler(conv, v, at);
        ErrorsNameTheCulprit(conv, v.items[i], at + [i], false);
        SpoilerIsGuilty(conv, value, at, i, allowNil);
      }
    } else {
      PlainIsGuilty(conv, value, at, allowNil);
    }
  }

  lemma {:induction false} TargetIsPart(value: GoValue)
    ensures Target(value) == value || Target(value) < value
    ensures !Target(value).GoPointer?
  {
    if value.GoPointer? { TargetIsPart(value.target); }
  }

  lemma PlainIsGuilty(conv: I64 -> real, value: GoValue, at: seq<nat>, allowNil: bool)
    requires var v := Target(value); !v.GoPointer? && !(v.GoSlice? && !v.elem.Uint8Elem? && v.items != [])
    ensures var r := Spec(conv, Target(value), at, allowNil);
            r.Err? ==> r.error.at == at && Guilty(conv, value, at[|at|..], allowNil, r.error)
  {
    assert at[|at|..] == [];
  }

  lemma SpoilerIsGuilty(conv: I64 -> real, value: GoValue, at: seq<nat>, i: nat, allowNil: bool)
    requires var v := Target(value);
             && v.GoSlice? && !v.elem.Uint8Elem? && Spoils(conv, v, at, i)
             && SliceSpec(conv, v, at) == Err(Complaint(Spec(conv, v.items[i], at + [i], false), at, i))
             && var element := Spec(conv, v.items[i], at + [i], false);
                element.Err? ==>
                  && at + [i] <= element.error.at
                  && Guilty(conv, v.items[i], element.error.at[|at + [i]|..], false, element.error)
    ensures var e := SliceSpec(conv, Target(value), at).error;
            at <= e.at && Guilty(conv, value, e.at[|at|..], allowNil, e)
  {
    var v := Target(value);
    var element := Spec(conv, v.items[i], at + [i], false);
    var e := Complaint(element, at, i);
    forall k | 0 <= k < i
      ensures ScalarItem(v.items[k])
    {
      EarlierIsScalar(conv, v, at, i, k);
    }
    hide ScalarItem, Spec, Mixed, Represents;
    if element.Err? {
      assert e.at[..|at|] == e.at[..|at| + 1][..|at|] == at;
      assert e.at[|at|..] == [i] + e.at[|at| + 1..];
      assert e.at[|at|..][1..] == e.at[|at + [i]|..];
    } else if !element.value.One? {
      NormalisesExactlyToWhatRepresentsIt(conv, v.items[i], at + [i], false, element.value);
      assert e.at[|at|..] == [i];
    } else {
      SpoiledByKind(conv, v, at, i);
      assert e.at[|at|..] == [];
    }
  }
}
