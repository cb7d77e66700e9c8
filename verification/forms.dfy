/**
  Values held by reactive-form controls, the JavaScript coercions the
  components apply to them (`x || 0`, `x || 1`, `x !== undefined`), the
  validators they attach, and the array removal used by every form array.
 */
module Forms {

  /** A value that may be absent. */
  datatype Option<+T> = None | Some(value: T)

  /** The outcome of a handler that may throw (an index that names no control). */
  datatype Result<+T> = Ok(value: T) | TypeError

  /** A numeric form control's value: `undefined`, blank (`null` or `''`), or a number. */
  datatype Field = Unset | Blank | Num(value: real)

  /** `x || 0`: every falsy value (undefined, null, '', 0) becomes 0. */
  function OrZero(f: Field): (r: real)
    ensures r == 0.0 <==> !(f.Num? && f.value != 0.0)
    ensures r != 0.0 ==> f == Num(r)
  {
    match f
    case Num(x) => x
    case _ => 0.0
  }

  /** `x || 1`: every falsy value, the number 0 included, becomes 1. */
  function OrOne(f: Field): (r: real)
    ensures r != 0.0
    ensures f.Num? && f.value != 0.0 ==> r == f.value
    ensures !(f.Num? && f.value != 0.0) ==> r == 1.0
  {
    match f
    case Num(x) => if x == 0.0 then 1.0 else x
    case _ => 1.0
  }

  /**
    The two defaults agree on every truthy value and differ exactly on the
    falsy ones, which `|| 0` reads as 0 and `|| 1` as 1.
   */
  lemma OrOneOrZero(f: Field)
    ensures OrZero(f) != 0.0 ==> OrOne(f) == OrZero(f)
    ensures OrZero(f) == 0.0 <==> OrOne(f) == 1.0 && OrOne(f) != OrZero(f)
  {
  }

  /** `x !== undefined` */
  predicate IsDefined(f: Field) {
    !f.Unset?
  }

  /** `Validators.required`: undefined, null and '' fail. */
  predicate Required(f: Field) {
    f.Num?
  }

  /** `Validators.min(m)`: an empty value passes, a number must be at least `m`. */
  predicate AtLeast(f: Field, m: real) {
    f.Num? ==> f.value >= m
  }

  /** `Validators.max(m)`: an empty value passes, a number must be at most `m`. */
  predicate AtMost(f: Field, m: real) {
    f.Num? ==> f.value <= m
  }

  /** `Validators.required` together with `Validators.min(m)`. */
  predicate RequiredAtLeast(f: Field, m: real)
    ensures RequiredAtLeast(f, m) <==> f.Num? && f.value >= m
  {
    Required(f) && AtLeast(f, m)
  }

  /** `FormArray.removeAt(i)`: drops the element at `i`; an index past the end removes nothing. */
  function RemoveAt<T>(s: seq<T>, i: nat): (r: seq<T>)
    ensures i < |s| ==> |r| == |s| - 1
    ensures i >= |s| ==> r == s
    ensures forall j :: 0 <= j < i && j < |r| ==> r[j] == s[j]
    ensures forall j :: i <= j < |r| ==> r[j] == s[j + 1]
  {
    if i < |s| then s[..i] + s[i + 1..] else s
  }

  lemma RemoveAtMultiset<T>(s: seq<T>, i: nat)
    requires i < |s|
    ensures multiset(RemoveAt(s, i)) + multiset{s[i]} == multiset(s)
  {
    assert s == s[..i] + [s[i]] + s[i + 1..];
  }

  /** Pushing an element and then removing it at its index gives the array back. */
  lemma RemoveAtPush<T>(s: seq<T>, x: T)
    ensures RemoveAt(s + [x], |s|) == s
  {
    assert (s + [x])[..|s|] == s;
  }

  /** Adding the same element to two multisets keeps them equal only if they were equal. */
  lemma MultisetCancel<T>(a: multiset<T>, b: multiset<T>, x: T)
    requires a + multiset{x} == b + multiset{x}
    ensures a == b
  {
    forall y
      ensures a[y] == b[y]
    {
      assert (a + multiset{x})[y] == (b + multiset{x})[y];
    }
  }
}
