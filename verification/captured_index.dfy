/**
  Form-array lines whose change handlers were registered with the index the
  line had when it was pushed (`setup…Calculations(group, array.length)`).
  The handler later recomputes whatever line sits at that captured index:
  after a removal in front of it this is another line, or no line at all, in
  which case `FormArray.at` yields `undefined` and the handler throws.
 */
module CapturedIndex {

  import opened Forms

  /** A line's value together with the index its change handler captured. */
  datatype Slotted<T> = Slotted(value: T, slot: nat)

  function Values<T>(s: seq<Slotted<T>>): (r: seq<T>)
    ensures |r| == |s|
    ensures forall j :: 0 <= j < |s| ==> r[j] == s[j].value
  {
    seq(|s|, j requires 0 <= j < |s| => s[j].value)
  }

  /** Every line's captured index is its current position. */
  predicate Aligned<T>(s: seq<Slotted<T>>) {
    forall j :: 0 <= j < |s| ==> s[j].slot == j
  }

  /** Push a line, registering its handler with the current array length. */
  function Push<T>(s: seq<Slotted<T>>, x: T): (r: seq<Slotted<T>>)
    ensures |r| == |s| + 1 && r[..|s|] == s
    ensures r[|s|] == Slotted(x, |s|)
    ensures Aligned(s) ==> Aligned(r)
  {
    s + [Slotted(x, |s|)]
  }

  /** Pushes the values in order onto an empty array. */
  function PushAll<T>(xs: seq<T>): (r: seq<Slotted<T>>)
    ensures Aligned(r) && Values(r) == xs
  {
    if |xs| == 0 then [] else Push(PushAll(xs[..|xs| - 1]), xs[|xs| - 1])
  }

  /** `array.at(index)` followed by a recomputation of that line; a missing line throws. */
  function Recompute<T>(s: seq<Slotted<T>>, index: nat, f: T -> T): (r: Result<seq<Slotted<T>>>)
    ensures r.Ok? <==> index < |s|
    ensures r.Ok? ==> |r.value| == |s| && r.value[index] == s[index].(value := f(s[index].value))
    ensures r.Ok? ==> forall j :: 0 <= j < |s| && j != index ==> r.value[j] == s[j]
  {
    if index < |s| then Ok(s[index := s[index].(value := f(s[index].value))]) else TypeError
  }

  /** A change to line `j`: the value is written, then the handler recomputes its captured index. */
  function EditAsWritten<T>(s: seq<Slotted<T>>, j: nat, write: T -> T, f: T -> T): (r: Result<seq<Slotted<T>>>)
    requires j < |s|
    ensures r.Ok? <==> s[j].slot < |s|
    ensures r.Ok? ==> |r.value| == |s|
    ensures r.Ok? && s[j].slot == j ==> r.value[j].value == f(write(s[j].value))
    ensures r.Ok? && s[j].slot != j ==>
              r.value[j].value == write(s[j].value) && r.value[s[j].slot].value == f(s[s[j].slot].value)
    ensures r.Ok? ==> forall k :: 0 <= k < |s| ==> r.value[k].slot == s[k].slot
    ensures r.Ok? ==> forall k :: 0 <= k < |s| && k != j && k != s[j].slot ==> r.value[k] == s[k]
  {
    Recompute(s[j := s[j].(value := write(s[j].value))], s[j].slot, f)
  }

  /**
    The lines after a change to line `j`, whether or not its handler threw:
    the control already holds the written value when the handler runs, so a
    throwing handler leaves that value in place and recomputes nothing.
   */
  function StateAfterEdit<T>(s: seq<Slotted<T>>, j: nat, write: T -> T, f: T -> T): (r: seq<Slotted<T>>)
    requires j < |s|
    ensures |r| == |s| && forall k :: 0 <= k < |s| ==> r[k].slot == s[k].slot
    ensures s[j].slot != j ==> r[j].value == write(s[j].value)
    ensures forall k :: 0 <= k < |s| && k != j && k != s[j].slot ==> r[k] == s[k]
    ensures EditAsWritten(s, j, write, f).Ok? ==> r == EditAsWritten(s, j, write, f).value
    ensures EditAsWritten(s, j, write, f).TypeError? ==>
              r[j].value == write(s[j].value) &&
              forall k :: 0 <= k < |s| && k != j ==> r[k] == s[k]
  {
    match EditAsWritten(s, j, write, f)
    case Ok(t) => t
    case TypeError => s[j := s[j].(value := write(s[j].value))]
  }

  /** A change to line `j` that recomputes line `j` itself. */
  function EditCorrected<T>(s: seq<Slotted<T>>, j: nat, write: T -> T, f: T -> T): (r: seq<Slotted<T>>)
    requires j < |s|
    ensures |r| == |s| && r[j] == s[j].(value := f(write(s[j].value)))
    ensures forall k :: 0 <= k < |s| && k != j ==> r[k] == s[k]
  {
    Recompute(s[j := s[j].(value := write(s[j].value))], j, f).value
  }

  /** While every captured index is current, the handler recomputes the edited line. */
  lemma AlignedEditIsCorrect<T>(s: seq<Slotted<T>>, j: nat, write: T -> T, f: T -> T)
    requires Aligned(s) && j < |s|
    ensures EditAsWritten(s, j, write, f) == Ok(EditCorrected(s, j, write, f))
  {
  }

  /** Removing the last line keeps every captured index current. */
  lemma RemoveLastKeepsAligned<T>(s: seq<Slotted<T>>)
    requires Aligned(s) && |s| > 0
    ensures Aligned(RemoveAt(s, |s| - 1))
  {
  }

  /** Removing any other line leaves the line after it with a stale index, one past its position. */
  lemma RemoveShiftsSlots<T>(s: seq<Slotted<T>>, i: nat)
    requires Aligned(s) && i + 1 < |s|
    ensures !Aligned(RemoveAt(s, i))
    ensures forall k :: i <= k < |s| - 1 ==> RemoveAt(s, i)[k].slot == k + 1
  {
    assert RemoveAt(s, i)[i].slot == i + 1;
  }

  /**
    After removing line `i`, editing the line now at the end recomputes
    nothing and throws, because its captured index is the old length.
   */
  lemma EditAfterRemoveThrows<T>(s: seq<Slotted<T>>, i: nat, write: T -> T, f: T -> T)
    requires Aligned(s) && i + 1 < |s|
    ensures EditAsWritten(RemoveAt(s, i), |s| - 2, write, f) == TypeError
  {
    RemoveShiftsSlots(s, i);
  }

  /**
    After removing line `i`, editing a line other than the last recomputes the
    line behind it, leaving the edited line's value as written.
   */
  lemma EditAfterRemoveHitsNeighbour<T>(s: seq<Slotted<T>>, i: nat, k: nat, write: T -> T, f: T -> T)
    requires Aligned(s) && i <= k && k + 2 < |s|
    ensures var t := RemoveAt(s, i);
            var r := EditAsWritten(t, k, write, f);
            && r.Ok?
            && r.value[k].value == write(t[k].value)
            && r.value[k + 1].value == f(t[k + 1].value)
  {
    RemoveShiftsSlots(s, i);
  }

  /** `controls.reduce((sum, g) => sum + (g.get('finalPrice').value || 0), 0)`: the lines' prices added in order. */
  function SumOf<T>(s: seq<Slotted<T>>, price: T -> real): real {
    if |s| == 0 then 0.0 else SumOf(s[..|s| - 1], price) + price(s[|s| - 1].value)
  }

  lemma {:induction false} SumAppend<T>(a: seq<Slotted<T>>, b: seq<Slotted<T>>, price: T -> real)
    ensures SumOf(a + b, price) == SumOf(a, price) + SumOf(b, price)
    decreases |b|
  {
    if |b| == 0 {
      assert a + b == a;
    } else {
      var last := |b| - 1;
      assert (a + b)[..|a + b| - 1] == a + b[..last];
      SumAppend(a, b[..last], price);
    }
  }

  /** Removing a line takes exactly its price out of the sum. */
  lemma {:induction false} SumRemoveAt<T>(s: seq<Slotted<T>>, index: nat, price: T -> real)
    requires index < |s|
    ensures SumOf(s, price) == SumOf(RemoveAt(s, index), price) + price(s[index].value)
  {
    assert s == s[..index] + [s[index]] + s[index + 1..];
    SumAppend(s[..index] + [s[index]], s[index + 1..], price);
    SumAppend(s[..index], [s[index]], price);
    SumAppend(s[..index], s[index + 1..], price);
    assert [s[index]][..0] == [];
  }

  /** Replacing one line changes the sum by the difference of the two prices. */
  lemma SumUpdate<T>(s: seq<Slotted<T>>, index: nat, x: Slotted<T>, price: T -> real)
    requires index < |s|
    ensures SumOf(s[index := x], price) == SumOf(s, price) - price(s[index].value) + price(x.value)
  {
    SumRemoveAt(s, index, price);
    SumRemoveAt(s[index := x], index, price);
    assert RemoveAt(s[index := x], index) == RemoveAt(s, index);
  }

  /** Summing two prices line by line is adding the two sums. */
  lemma {:induction false} SumAdd<T>(s: seq<Slotted<T>>, f: T -> real, g: T -> real, h: T -> real)
    requires forall k :: 0 <= k < |s| ==> h(s[k].value) == f(s[k].value) + g(s[k].value)
    ensures SumOf(s, h) == SumOf(s, f) + SumOf(s, g)
  {
    if |s| > 0 {
      var n := |s| - 1;
      assert forall k :: 0 <= k < n ==> s[..n][k] == s[k];
      SumAdd(s[..n], f, g, h);
    }
  }

  lemma {:induction false} SumNonNegative<T>(s: seq<Slotted<T>>, price: T -> real)
    requires forall j :: 0 <= j < |s| ==> price(s[j].value) >= 0.0
    ensures SumOf(s, price) >= 0.0
  {
    if |s| > 0 {
      SumNonNegative(s[..|s| - 1], price);
    }
  }
}
