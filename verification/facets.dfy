/**
 The filter controls of the viewer: a multi-select is a list of options,
 each with a value and a selected flag. `populateSelect` refills one while
 keeping what is still selectable, and `loadFilters` derives the nickname
 and category lists from the catalogue.
 */
module Facets {
  import opened Catalogue
  import opened JsSort
  import opened Lists

  /** One `<option>` of a multi-select. */
  datatype SelectOption = SelectOption(value: string, selected: bool)

  /** Some selected option of the select has value `v`. */
  predicate Selects(options: seq<SelectOption>, v: string)
  {
    exists i :: 0 <= i < |options| && options[i].selected && options[i].value == v
  }

  lemma SelectsSplit(options: seq<SelectOption>, v: string)
    requires options != []
    ensures Selects(options, v) <==> (options[0].selected && options[0].value == v) || Selects(options[1..], v)
  {
    if Selects(options[1..], v) {
      var i :| 0 <= i < |options[1..]| && options[1..][i].selected && options[1..][i].value == v;
      assert options[i + 1] == options[1..][i];
    }
    if Selects(options, v) {
      var i :| 0 <= i < |options| && options[i].selected && options[i].value == v;
      if i > 0 {
        assert options[1..][i - 1] == options[i];
      }
    }
  }

  /**
   `Array.from(select.selectedOptions).map(opt => opt.value)`: the values of
   the selected options, in option order.
   */
  function SelectedValues(options: seq<SelectOption>): (r: seq<string>)
    ensures |r| <= |options|
    ensures forall v :: v in r <==> Selects(options, v)
  {
    if options == [] then []
    else
      var rest := SelectedValues(options[1..]);
      forall v ensures Selects(options, v) <==> (options[0].selected && options[0].value == v) || Selects(options[1..], v) {
        SelectsSplit(options, v);
      }
      (if options[0].selected then [options[0].value] else []) + rest
  }

  /** The values of the options, in order. */
  function Values(options: seq<SelectOption>): seq<string>
  {
    seq(|options|, i requires 0 <= i < |options| => options[i].value)
  }

  /**
   `populateSelect(select, items)`: the options are replaced by one option per
   item, in order, and an option is selected exactly when its value was
   among the values selected before.
   */
  method PopulateSelect(select: seq<SelectOption>, items: seq<string>) returns (r: seq<SelectOption>)
    ensures |r| == |items|
    ensures forall i :: 0 <= i < |r| ==> r[i].value == items[i]
    ensures forall i :: 0 <= i < |r| ==> (r[i].selected <==> items[i] in SelectedValues(select))
  {
    var currentSelection := SelectedValues(select);
    r := [];
    for i := 0 to |items|
      invariant |r| == i
      invariant forall j :: 0 <= j < i ==> r[j] == SelectOption(items[j], items[j] in currentSelection)
    {
      r := r + [SelectOption(items[i], items[i] in currentSelection)];
    }
  }

  /**
   After repopulating, a value is selected exactly when it is one of the new
   items and was selected before: stale selections are dropped, surviving
   ones are kept.
   */
  lemma PopulatedSelection(select: seq<SelectOption>, items: seq<string>, r: seq<SelectOption>)
    requires |r| == |items|
    requires forall i :: 0 <= i < |r| ==> r[i].value == items[i]
    requires forall i :: 0 <= i < |r| ==> (r[i].selected <==> items[i] in SelectedValues(select))
    ensures forall v :: v in SelectedValues(r) <==> v in items && v in SelectedValues(select)
  {
    forall v | v in items && v in SelectedValues(select) ensures v in SelectedValues(r) {
      var i :| 0 <= i < |items| && items[i] == v;
      assert r[i].selected && r[i].value == v;
    }
  }

  /** Repopulating a select with the items it already lists changes nothing. */
  lemma RepopulateSame(select: seq<SelectOption>, r: seq<SelectOption>)
    requires |r| == |select|
    requires forall i :: 0 <= i < |r| ==> r[i].value == select[i].value
    requires forall i :: 0 <= i < |r| ==> (r[i].selected <==> select[i].value in SelectedValues(select))
    requires Distinct(Values(select))
    ensures r == select
  {
    forall i | 0 <= i < |r| ensures r[i] == select[i] {
      if select[i].value in SelectedValues(select) {
        var j :| 0 <= j < |select| && select[j].selected && select[j].value == select[i].value;
        assert Values(select)[j] == Values(select)[i];
        assert j == i;
      }
    }
  }

  /** The two facets `loadFilters` derives from the catalogue. */
  datatype Facet = Nicknames | Categories

  function FieldOf(e: Entry, f: Facet): string
  {
    match f
    case Nicknames => e.nickname
    case Categories => e.category
  }

  /** `if (value) set.add(value)`: a JavaScript `Set` kept as a list in insertion order; empty strings are falsy. */
  function AddTruthy(seen: seq<string>, value: string): seq<string>
  {
    if value == "" || value in seen then seen else seen + [value]
  }

  /** `seen` holds, once each, exactly the non-empty values of facet `f` among the entries under `visited`. */
  ghost predicate Collected(data: Index, visited: set<string>, f: Facet, seen: seq<string>)
  {
    && Distinct(seen)
    && forall v :: v in seen <==> v != "" && exists k :: k in visited && k in data && FieldOf(data[k], f) == v
  }

  lemma CollectStep(data: Index, visited: set<string>, f: Facet, seen: seq<string>, k: string)
    requires Collected(data, visited, f, seen) && k in data
    ensures Collected(data, visited + {k}, f, AddTruthy(seen, FieldOf(data[k], f)))
  {
    var next := AddTruthy(seen, FieldOf(data[k], f));
    forall v | v in next ensures v != "" && exists k' :: k' in visited + {k} && k' in data && FieldOf(data[k'], f) == v {
      if v !in seen {
        assert v == FieldOf(data[k], f);
      }
    }
  }

  /**
   The facet collection of `loadFilters`: the distinct non-empty nicknames
   and categories of the catalogue, each list sorted as `Array.prototype.sort`
   sorts strings. The entries are visited in an order left open (the order
   of the object's keys); by `StrictlySortedUnique` the lists do not depend on it.
   */
  method CollectFacets(data: Index) returns (nicknames: seq<string>, categories: seq<string>)
    ensures StrictlySorted(nicknames) && StrictlySorted(categories)
    ensures forall v :: v in nicknames <==> v != "" && exists k :: k in data && data[k].nickname == v
    ensures forall v :: v in categories <==> v != "" && exists k :: k in data && data[k].category == v
  {
    var nicknameSet: seq<string> := [];
    var categorySet: seq<string> := [];
    var rest := data.Keys;
    while rest != {}
      invariant rest <= data.Keys
      invariant Collected(data, data.Keys - rest, Nicknames, nicknameSet)
      invariant Collected(data, data.Keys - rest, Categories, categorySet)
      decreases rest
    {
      var k :| k in rest;
      CollectStep(data, data.Keys - rest, Nicknames, nicknameSet, k);
      CollectStep(data, data.Keys - rest, Categories, categorySet, k);
      nicknameSet := AddTruthy(nicknameSet, data[k].nickname);
      categorySet := AddTruthy(categorySet, data[k].category);
      assert data.Keys - (rest - {k}) == (data.Keys - rest) + {k};
      rest := rest - {k};
    }
    nicknames := Sorted(nicknameSet);
    categories := Sorted(categorySet);
  }

}
