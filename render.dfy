/** What the component shows for a given state: the header text, the option
    list (only while open), and the hidden native select with its value. */
module MenuRender {
  import opened MenuOptions

  /** The header text when nothing is selected. */
  const Placeholder := "Select an option"

  /** Something the view may or may not contain (the option list exists only
      while open). `Selection` keeps its own two named cases because it is the
      component's state, not a piece of output. */
  datatype Maybe<+T> = None | Some(value: T)

  /** One `<li>` of the open list: keyed by the option's value, showing its
      label, and handing `pick` to the click handler. */
  datatype ListEntry = ListEntry(key: string, text: string, pick: MenuOption)

  /** One `<option>` of the hidden native select. */
  datatype NativeEntry = NativeEntry(key: string, value: string, text: string)

  /** Everything the component renders that depends on its state. */
  datatype View = View(
    headerText: string,
    headerOpen: bool,
    list: Maybe<seq<ListEntry>>,
    selectValue: string,
    selectEntries: seq<NativeEntry>)

  /** The header's content: the selection's label, else the placeholder. */
  function HeaderText(s: Selection): (r: string)
    ensures s.Selected? ==> r == s.option.caption
    ensures r == Placeholder <==> s.NoSelection? || s.option.caption == Placeholder
  {
    if s.Selected? then s.option.caption else Placeholder
  }

  /** The value the hidden select is bound to: the selection's value, else "". */
  function SelectValue(s: Selection): (r: string)
    ensures s.Selected? ==> r == s.option.value
    ensures r == "" <==> s.NoSelection? || s.option.value == ""
  {
    if s.Selected? then s.option.value else ""
  }

  /** `options.map(option => <li key=value onClick=pick(option)>label</li>)`. */
  function ListEntries(options: seq<MenuOption>): (r: seq<ListEntry>)
    ensures |r| == |options|
    ensures forall i :: 0 <= i < |options| ==>
      r[i].key == options[i].value && r[i].text == options[i].caption && r[i].pick == options[i]
  {
    if options == [] then []
    else [ListEntry(options[0].value, options[0].caption, options[0])] + ListEntries(options[1..])
  }

  /** `options.map(option => <option key=value value=value>label</option>)`. */
  function NativeEntries(options: seq<MenuOption>): (r: seq<NativeEntry>)
    ensures |r| == |options|
    ensures forall i :: 0 <= i < |options| ==>
      r[i].key == options[i].value && r[i].value == options[i].value && r[i].text == options[i].caption
  {
    if options == [] then []
    else [NativeEntry(options[0].value, options[0].value, options[0].caption)] + NativeEntries(options[1..])
  }

  /** The rendered view of a component in state (`isOpen`, `selected`). */
  function Render(options: seq<MenuOption>, isOpen: bool, selected: Selection): (r: View)
    ensures r.headerOpen == isOpen
    ensures r.list.Some? <==> isOpen
    ensures isOpen ==> |r.list.value| == |options|
    ensures isOpen ==> forall i :: 0 <= i < |options| ==>
      r.list.value[i].text == options[i].caption && r.list.value[i].pick == options[i]
    ensures |r.selectEntries| == |options|
    ensures forall i :: 0 <= i < |options| ==> r.selectEntries[i].value == options[i].value
    ensures selected.NoSelection? ==> r.headerText == Placeholder && r.selectValue == ""
    ensures selected.Selected? ==>
      r.headerText == selected.option.caption && r.selectValue == selected.option.value
  {
    View(
      HeaderText(selected),
      isOpen,
      if isOpen then Some(ListEntries(options)) else None,
      SelectValue(selected),
      NativeEntries(options))
  }

  /** Every option the open list lets the user pick is one of `options`. */
  lemma ListPicksFromOptions(options: seq<MenuOption>, e: ListEntry)
    requires e in ListEntries(options)
    ensures e.pick in options
  {
  }

  /** The hidden select's value leads the change handler's lookup back to the
      selection, provided the selection is one of the options and values are
      distinct. */
  lemma SelectValueFindsSelection(options: seq<MenuOption>, s: Selection)
    requires DistinctValues(options)
    requires DrawnFrom(options, s)
    requires s.Selected?
    ensures Find(options, SelectValue(s)) == s
  {
  }
}
