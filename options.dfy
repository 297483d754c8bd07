/** The values a SelectMenu works on: an option of the menu, the (possibly
    empty) selection, and the first-match lookup that the hidden native
    select's change handler performs over the option list. */
module MenuOptions {

  /** One selectable choice: `value` identifies it, `caption` is the text
      shown for it (the component's `label` field; `label` is a Dafny keyword). */
  datatype MenuOption = MenuOption(value: string, caption: string)

  /** The selected option, or none (JavaScript's `undefined`). */
  datatype Selection = NoSelection | Selected(option: MenuOption)

  /** `i` is the index of the first option whose value is `v`. */
  ghost predicate FirstMatchAt(options: seq<MenuOption>, v: string, i: int)
  {
    && 0 <= i < |options|
    && options[i].value == v
    && forall j :: 0 <= j < i ==> options[j].value != v
  }

  /** The selection is empty or one of the entries of `options`. */
  predicate DrawnFrom(options: seq<MenuOption>, s: Selection)
  {
    s.Selected? ==> s.option in options
  }

  /** No two options share a value. The component assumes this (value is the
      list key and the lookup key) but never checks it. */
  predicate DistinctValues(options: seq<MenuOption>)
  {
    forall i, j :: 0 <= i < j < |options| ==> options[i].value != options[j].value
  }

  /** `options.find(option => option.value === v)`: the first option whose
      value is `v`, or no selection when there is none. */
  function Find(options: seq<MenuOption>, v: string): (r: Selection)
    ensures r.NoSelection? <==> forall i :: 0 <= i < |options| ==> options[i].value != v
    ensures r.Selected? ==> r.option.value == v && r.option in options
    ensures forall i :: FirstMatchAt(options, v, i) ==> r == Selected(options[i])
  {
    if options == [] then NoSelection
    else if options[0].value == v then Selected(options[0])
    else
      var rest := Find(options[1..], v);
      assert forall i :: FirstMatchAt(options, v, i) ==> FirstMatchAt(options[1..], v, i - 1);
      rest
  }

  /** With distinct values, looking up an option's own value finds that option. */
  lemma FindOwnValue(options: seq<MenuOption>, i: int)
    requires DistinctValues(options)
    requires 0 <= i < |options|
    ensures Find(options, options[i].value) == Selected(options[i])
  {
  }
}
