/** The SelectMenu component instance: the state it owns, updated in place by
    its event handlers, and the log of values its handlers pass to `onChange`. */
module MenuComponent {
  import opened MenuOptions
  import opened MenuRender
  import opened MenuEvents

  class SelectMenu {
    /** Whether the option list is shown (`useState(false)`). */
    var isOpen: bool
    /** The current selection (`useState(defaultValue)`). */
    var selectedOption: Selection
    /** Every value handed to the caller's `onChange`, oldest first. */
    var onChangeCalls: seq<string>

    /** The abstract state the pure transition functions work on. */
    function State(): MenuState
      reads this
    {
      MenuState(isOpen, selectedOption)
    }

    /** What the component renders with the given option list. */
    function View(options: seq<MenuOption>): View
      reads this
    {
      Render(options, isOpen, selectedOption)
    }

    /** Mounting: closed, selecting `defaultValue` (which may be empty). */
    constructor (defaultValue: Selection)
      ensures State() == Initial(defaultValue)
      ensures onChangeCalls == []
    {
      isOpen := false;
      selectedOption := defaultValue;
      onChangeCalls := [];
    }

    /** `toggleMenu`: flips `isOpen` and nothing else. */
    method ToggleMenu()
      modifies this
      ensures isOpen == !old(isOpen)
      ensures selectedOption == old(selectedOption)
      ensures onChangeCalls == old(onChangeCalls)
      ensures forall p :: Apply(p, old(State()), HeaderClick) == Step(State(), [], Handled)
    {
      isOpen := !isOpen;
    }

    /** `handleOptionClick(option)`: selects `option`, closes the list and,
        when `onChange` is given, calls it once with the option's value. */
    method HandleOptionClick(option: MenuOption, hasOnChange: bool)
      modifies this
      ensures selectedOption == Selected(option)
      ensures !isOpen
      ensures onChangeCalls == old(onChangeCalls) + (if hasOnChange then [option.value] else [])
      ensures forall options ::
        Apply(Props(options, hasOnChange), old(State()), OptionClick(option)) ==
        Step(State(), onChangeCalls[|old(onChangeCalls)|..], Handled)
    {
      selectedOption := Selected(option);
      isOpen := false;
      if hasOnChange {
        onChangeCalls := onChangeCalls + [option.value];
      }
    }

    /** `handleSelectChange(e)` with `e.target.value == value`: selects the
        first option with that value, or nothing; then, when `onChange` is
        given, calls it with the found option's value, or throws a TypeError
        reading `.value` of `undefined` when nothing was found. */
    method HandleSelectChange(options: seq<MenuOption>, value: string, hasOnChange: bool)
      returns (outcome: Outcome)
      modifies this
      ensures selectedOption == Find(options, value)
      ensures isOpen == old(isOpen)
      ensures outcome == TypeError <==> hasOnChange && selectedOption.NoSelection?
      ensures onChangeCalls == old(onChangeCalls) +
        (if hasOnChange && selectedOption.Selected? then [value] else [])
      ensures Apply(Props(options, hasOnChange), old(State()), SelectChange(value)) ==
        Step(State(), onChangeCalls[|old(onChangeCalls)|..], outcome)
    {
      var selected := Find(options, value);
      selectedOption := selected;
      outcome := Handled;
      if hasOnChange {
        match selected
        case Selected(o) =>
          onChangeCalls := onChangeCalls + [o.value];
        case NoSelection =>
          outcome := TypeError;
      }
    }

    /** The effect run when the `defaultValue` prop changes: the selection
        becomes the new default; `isOpen` and `onChange` are untouched. */
    method SyncDefault(defaultValue: Selection)
      modifies this
      ensures selectedOption == defaultValue
      ensures isOpen == old(isOpen)
      ensures onChangeCalls == old(onChangeCalls)
      ensures forall p :: Apply(p, old(State()), DefaultValueChange(defaultValue)) == Step(State(), [], Handled)
    {
      selectedOption := defaultValue;
    }
  }

  /** The walk-through of a two-option menu with no default: placeholder,
      open, list shows both labels in order, pick the second, header shows it,
      list closes, `onChange` got its value. */
  method ExampleScenario()
  {
    var a := MenuOption("a", "A");
    var b := MenuOption("b", "B");
    var options := [a, b];
    var menu := new SelectMenu(NoSelection);
    assert menu.View(options).headerText == Placeholder;
    assert menu.View(options).selectValue == "";
    assert menu.View(options).list.None?;

    menu.ToggleMenu();
    var shown := menu.View(options).list.value;
    assert |shown| == 2 && shown[0].text == "A" && shown[1].text == "B";

    menu.HandleOptionClick(shown[1].pick, true);
    assert menu.View(options).headerText == "B";
    assert menu.View(options).list.None?;
    assert menu.onChangeCalls == ["b"];
  }
}
