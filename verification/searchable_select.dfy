/**
  The searchable select widget: a list of options filtered by a
  case-insensitive search text, a dropdown that opens and closes, and either
  one selected value or, in multiple mode, a list of selected values that
  each click toggles. The change and touch callbacks the forms API registers
  are not modelled; they receive the new selection.
 */
module SearchableSelect {

  import opened Text
  import opened Forms

  /** A value held by an option or by the bound form control. */
  datatype Value = Undefined | Null | Str(s: string) | Number(n: int) | List(items: seq<Value>)

  /** JavaScript falsiness of a value; every list is truthy. */
  predicate Falsy(v: Value) {
    v == Undefined || v == Null || v == Str("") || v == Number(0)
  }

  /** An option, as read through the label key and the value key. */
  datatype Opt = Opt(labelText: string, value: Value)

  /** The widget's inputs and state. */
  datatype Select = Select(
    options: seq<Opt>, multiple: bool, placeholder: string, defaultOption: Option<Opt>,
    searchText: string, isOpen: bool,
    selectedValue: Value, selectedValues: seq<Value>, filteredOptions: seq<Opt>)

  /** The widget after construction and `ngOnInit`: closed, nothing searched, every option shown. */
  function Init(options: seq<Opt>, multiple: bool, placeholder: string, defaultOption: Option<Opt>): (s: Select)
    ensures s.filteredOptions == s.options == options
    ensures !s.isOpen && s.searchText == "" && s.selectedValues == [] && s.selectedValue == Str("")
  {
    Select(options, multiple, placeholder, defaultOption, "", false, Str(""), [], options)
  }

  /** An option's lower-cased label includes the lower-cased search text. */
  predicate Matches(o: Opt, searchText: string) {
    Contains(Lower(o.labelText), Lower(searchText))
  }

  /** `options.filter(...)`: the matching options, in their order. */
  function Filter(options: seq<Opt>, searchText: string): (r: seq<Opt>)
    ensures |r| <= |options|
    ensures forall o :: o in r <==> o in options && Matches(o, searchText)
  {
    if |options| == 0 then []
    else
      var rest := Filter(options[..|options| - 1], searchText);
      var last := options[|options| - 1];
      assert options == options[..|options| - 1] + [last];
      if Matches(last, searchText) then rest + [last] else rest
  }

  /** Filtering a concatenation filters each part: the kept options stay in order. */
  lemma {:induction false} FilterAppend(a: seq<Opt>, b: seq<Opt>, searchText: string)
    ensures Filter(a + b, searchText) == Filter(a, searchText) + Filter(b, searchText)
    decreases |b|
  {
    if |b| == 0 {
      assert a + b == a;
    } else {
      var last := |b| - 1;
      assert (a + b)[..|a + b| - 1] == a + b[..last];
      FilterAppend(a, b[..last], searchText);
    }
  }

  /** The empty search text keeps every option. */
  lemma {:induction false} FilterEmptySearch(options: seq<Opt>)
    ensures Filter(options, "") == options
  {
    if |options| > 0 {
      FilterEmptySearch(options[..|options| - 1]);
      ContainsEmpty(Lower(options[|options| - 1].labelText));
      assert options == options[..|options| - 1] + [options[|options| - 1]];
    }
  }

  /** `filterOptions`: only the shown options change, to those matching the search text. */
  function FilterOptions(s: Select): (r: Select)
    ensures r.(filteredOptions := s.filteredOptions) == s
    ensures |r.filteredOptions| <= |s.options|
    ensures forall o :: o in r.filteredOptions <==> o in s.options && Matches(o, s.searchText)
  {
    s.(filteredOptions := Filter(s.options, s.searchText))
  }

  /** `onSearch`: stores the typed text and filters. */
  function OnSearch(s: Select, text: string): (r: Select)
    ensures r.searchText == text && r.filteredOptions == Filter(s.options, text)
    ensures r.(searchText := s.searchText, filteredOptions := s.filteredOptions) == s
    ensures forall o :: o in r.filteredOptions <==> o in s.options && Matches(o, text)
  {
    FilterOptions(s.(searchText := text))
  }

  /** `toggleDropdown`: flips the dropdown; opening it clears the search and shows every option. */
  function ToggleDropdown(s: Select): (r: Select)
    ensures r.isOpen == !s.isOpen
    ensures r.isOpen ==> r.searchText == "" && r.filteredOptions == s.options
    ensures !r.isOpen ==> r == s.(isOpen := false)
    ensures r.selectedValue == s.selectedValue && r.selectedValues == s.selectedValues && r.options == s.options
  {
    var t := s.(isOpen := !s.isOpen);
    if t.isOpen then
      FilterEmptySearch(s.options);
      FilterOptions(t.(searchText := ""))
    else t
  }

  /** `writeValue`: a list, or nothing for a falsy value, in multiple mode; the value itself otherwise. */
  function WriteValue(s: Select, v: Value): (r: Select)
    requires s.multiple ==> Falsy(v) || v.List?
    ensures s.multiple && Falsy(v) ==> r.selectedValues == []
    ensures s.multiple && v.List? ==> r.selectedValues == v.items
    ensures !s.multiple ==> r.selectedValue == v
    ensures s.multiple ==> r.selectedValue == s.selectedValue
    ensures !s.multiple ==> r.selectedValues == s.selectedValues
  {
    if s.multiple then s.(selectedValues := if Falsy(v) then [] else v.items)
    else s.(selectedValue := v)
  }

  /** `filter(v => v !== value)`: drops every occurrence of `v`, keeping the rest in order. */
  function RemoveAll(xs: seq<Value>, v: Value): (r: seq<Value>)
    ensures v !in r && |r| <= |xs|
    ensures forall x :: x != v ==> (x in r <==> x in xs)
    ensures multiset(r) == multiset(xs)[v := 0]
  {
    if |xs| == 0 then []
    else
      var rest := RemoveAll(xs[..|xs| - 1], v);
      var last := xs[|xs| - 1];
      assert xs == xs[..|xs| - 1] + [last];
      if last != v then rest + [last] else rest
  }

  /** The kept values stay in their order: removing from a concatenation removes from each part. */
  lemma {:induction false} RemoveAllAppend(a: seq<Value>, b: seq<Value>, v: Value)
    ensures RemoveAll(a + b, v) == RemoveAll(a, v) + RemoveAll(b, v)
    decreases |b|
  {
    if |b| == 0 {
      assert a + b == a;
    } else {
      var last := |b| - 1;
      assert (a + b)[..|a + b| - 1] == a + b[..last];
      RemoveAllAppend(a, b[..last], v);
    }
  }

  predicate NoDup(xs: seq<Value>) {
    forall i, j :: 0 <= i < j < |xs| ==> xs[i] != xs[j]
  }

  /** Removing values keeps a duplicate-free list duplicate-free, and a list without `v` unchanged. */
  lemma {:induction false} RemoveAllFacts(xs: seq<Value>, v: Value)
    ensures NoDup(xs) ==> NoDup(RemoveAll(xs, v))
    ensures v !in xs ==> RemoveAll(xs, v) == xs
  {
    if |xs| > 0 {
      var init, last := xs[..|xs| - 1], xs[|xs| - 1];
      RemoveAllFacts(init, v);
      assert xs == init + [last];
      if NoDup(xs) {
        assert NoDup(init);
        assert last !in init;
        var rest := RemoveAll(init, v);
        if last != v {
          assert last !in rest;
          assert NoDup(rest + [last]);
        }
      }
    }
  }

  /** Toggles `v` in a list: appended when absent, every occurrence removed when present. */
  function Toggle(xs: seq<Value>, v: Value): (r: seq<Value>)
    ensures v in r <==> v !in xs
    ensures forall x :: x != v ==> (x in r <==> x in xs)
    ensures v !in xs ==> r == xs + [v]
    ensures v in xs ==> r == RemoveAll(xs, v)
    ensures v !in xs ==> multiset(r) == multiset(xs) + multiset{v}
    ensures v in xs ==> multiset(r) == multiset(xs)[v := 0]
    ensures NoDup(xs) ==> NoDup(r)
  {
    RemoveAllFacts(xs, v);
    if v !in xs then xs + [v] else RemoveAll(xs, v)
  }

  /** `selectOption`: toggles the option's value in multiple mode; selects it and closes otherwise. */
  function SelectOption(s: Select, o: Opt): (r: Select)
    ensures s.multiple ==> r.(selectedValues := s.selectedValues) == s
    ensures s.multiple ==> (o.value in r.selectedValues <==> o.value !in s.selectedValues)
    ensures s.multiple ==> forall x :: x != o.value ==> (x in r.selectedValues <==> x in s.selectedValues)
    ensures !s.multiple ==> r.selectedValue == o.value && !r.isOpen
    ensures !s.multiple ==> r.(selectedValue := s.selectedValue, isOpen := s.isOpen) == s
  {
    if s.multiple then s.(selectedValues := Toggle(s.selectedValues, o.value))
    else s.(selectedValue := o.value, isOpen := false)
  }

  /** `isSelected`. */
  predicate IsSelected(s: Select, o: Opt) {
    if s.multiple then o.value in s.selectedValues else s.selectedValue == o.value
  }

  /** After `writeValue` exactly the options holding the written value, or one of the written list, are selected. */
  lemma WriteValueSelects(s: Select, v: Value, o: Opt)
    requires s.multiple ==> Falsy(v) || v.List?
    ensures !s.multiple ==> (IsSelected(WriteValue(s, v), o) <==> o.value == v)
    ensures s.multiple && v.List? ==> (IsSelected(WriteValue(s, v), o) <==> o.value in v.items)
    ensures s.multiple && Falsy(v) ==> !IsSelected(WriteValue(s, v), o)
  {
  }

  /** After selecting an option it is selected in single mode, and its state is flipped in multiple mode. */
  lemma SelectOptionFlips(s: Select, o: Opt)
    ensures !s.multiple ==> IsSelected(SelectOption(s, o), o)
    ensures s.multiple ==> (IsSelected(SelectOption(s, o), o) <==> !IsSelected(s, o))
  {
  }

  /** In multiple mode, options with another value keep their state, and the dropdown stays as it was. */
  lemma SelectOptionLeavesOthers(s: Select, o: Opt, other: Opt)
    requires s.multiple && other.value != o.value
    ensures IsSelected(SelectOption(s, o), other) <==> IsSelected(s, other)
    ensures SelectOption(s, o).isOpen == s.isOpen
  {
  }

  /** Selecting an unselected option twice gives the selection back. */
  lemma SelectTwiceRestores(s: Select, o: Opt)
    requires s.multiple && !IsSelected(s, o)
    ensures SelectOption(SelectOption(s, o), o) == s
  {
    var xs := s.selectedValues;
    RemoveAllFacts(xs + [o.value], o.value);
    RemoveAllFacts(xs, o.value);
    assert RemoveAll(xs + [o.value], o.value) == RemoveAll(xs, o.value) by {
      assert (xs + [o.value])[..|xs|] == xs;
    }
  }

  /**
    Selecting a selected option twice leaves it selected exactly once, at
    the end: any duplicates of it are gone.
   */
  lemma SelectTwiceDeduplicates(s: Select, o: Opt)
    requires s.multiple && IsSelected(s, o)
    ensures var r := SelectOption(SelectOption(s, o), o).selectedValues;
            r == RemoveAll(s.selectedValues, o.value) + [o.value]
  {
  }

  /** The label shown for the selection. */
  function GetSelectedLabel(s: Select): (shown: string)
    ensures s.multiple && |s.selectedValues| > 0 ==> shown == NatToString(|s.selectedValues|) + " selected"
    ensures s.multiple && |s.selectedValues| == 0 ==> shown == s.placeholder
    ensures !s.multiple && Falsy(s.selectedValue) && s.defaultOption.Some? ==> shown == s.defaultOption.value.labelText
  {
    if s.multiple then
      if |s.selectedValues| > 0 then NatToString(|s.selectedValues|) + " selected" else s.placeholder
    else if Falsy(s.selectedValue) && s.defaultOption.Some? then s.defaultOption.value.labelText
    else
      match Find(s.options, s.selectedValue)
      case Some(o) => o.labelText
      case None => s.placeholder
  }

  /** `options.find(...)`: the first option holding the value. */
  function Find(options: seq<Opt>, v: Value): (r: Option<Opt>)
    ensures r.None? <==> forall i :: 0 <= i < |options| ==> options[i].value != v
    ensures r.Some? ==> exists i :: 0 <= i < |options| && options[i] == r.value && r.value.value == v &&
                          forall k :: 0 <= k < i ==> options[k].value != v
  {
    if |options| == 0 then None
    else if options[0].value == v then Some(options[0])
    else
      var r := Find(options[1..], v);
      assert forall i :: 1 <= i < |options| ==> options[i] == options[1..][i - 1];
      if r.Some? then
        var i :| 0 <= i < |options[1..]| && options[1..][i] == r.value && r.value.value == v &&
                 forall k :: 0 <= k < i ==> options[1..][k].value != v;
        assert options[i + 1] == r.value;
        r
      else r
  }

  /** In single mode the label is that of the first option holding the selected value, else the placeholder. */
  lemma SingleLabel(s: Select, i: nat)
    requires !s.multiple && !(Falsy(s.selectedValue) && s.defaultOption.Some?)
    requires i < |s.options| && s.options[i].value == s.selectedValue
    requires forall k :: 0 <= k < i ==> s.options[k].value != s.selectedValue
    ensures GetSelectedLabel(s) == s.options[i].labelText
  {
    var r := Find(s.options, s.selectedValue);
    var j :| 0 <= j < |s.options| && s.options[j] == r.value && r.value.value == s.selectedValue &&
             forall k :: 0 <= k < j ==> s.options[k].value != s.selectedValue;
    assert j == i;
  }

  lemma SingleLabelPlaceholder(s: Select)
    requires !s.multiple && !(Falsy(s.selectedValue) && s.defaultOption.Some?)
    requires forall i :: 0 <= i < |s.options| ==> s.options[i].value != s.selectedValue
    ensures GetSelectedLabel(s) == s.placeholder
  {
  }

  /** The multiple-mode label names the count, which can be read back from it. */
  lemma MultiLabelCount(s: Select)
    requires s.multiple && |s.selectedValues| > 0
    ensures var shown := GetSelectedLabel(s);
            var digits := shown[..|shown| - |" selected"|];
            (forall i :: 0 <= i < |digits| ==> '0' <= digits[i] <= '9') && ParseNat(digits) == |s.selectedValues|
  {
    var shown := GetSelectedLabel(s);
    assert shown[..|shown| - |" selected"|] == NatToString(|s.selectedValues|);
    ParseNatToString(|s.selectedValues|);
  }
}
