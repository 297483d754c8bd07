/** The component's state machine as pure functions: its two pieces of state,
    the four events that change them, the values handed to `onChange`, and
    the TypeError the native-select handler raises on a lookup miss. */
module MenuEvents {
  import opened MenuOptions
  import opened MenuRender

  /** The state the component owns: whether the list is open, and the selection. */
  datatype MenuState = MenuState(isOpen: bool, selected: Selection)

  /** What the caller supplies on each render that the handlers use. `hasOnChange`
      stands for whether the `onChange` prop is given; its body is foreign. */
  datatype Props = Props(options: seq<MenuOption>, hasOnChange: bool)

  datatype Event =
    | HeaderClick                          // toggleMenu
    | OptionClick(option: MenuOption)      // handleOptionClick(option)
    | SelectChange(value: string)          // handleSelectChange with e.target.value
    | DefaultValueChange(default: Selection) // the effect on a new defaultValue

  /** Whether a handler returned normally or threw reading `.value` of `undefined`. */
  datatype Outcome = Handled | TypeError

  /** The state after a handler, the values it passed to `onChange`, in order,
      and how it ended. */
  datatype Step = Step(state: MenuState, emitted: seq<string>, outcome: Outcome)

  /** The state a new component starts in: closed, selecting `defaultValue`. */
  function Initial(defaultValue: Selection): (s: MenuState)
    ensures !s.isOpen
    ensures s.selected == defaultValue
  {
    MenuState(false, defaultValue)
  }

  /** One handler run. Only a list pick closes the list and only a header
      click flips it; a header click keeps the selection; `onChange` gets the
      newly selected value once per pick or found match when it is given; the
      handler throws exactly on a native change that finds nothing while
      `onChange` is given. */
  function Apply(p: Props, s: MenuState, e: Event): (r: Step)
    ensures e.OptionClick? ==> !r.state.isOpen
    ensures !e.OptionClick? ==> r.state.isOpen == (s.isOpen != e.HeaderClick?)
    ensures e.HeaderClick? ==> r.state.selected == s.selected
    ensures r.outcome == TypeError <==> p.hasOnChange && Misses(p.options, e)
    ensures r.emitted ==
      if p.hasOnChange && IsUserSelection(e) && !Misses(p.options, e)
      then [SelectValue(r.state.selected)] else []
  {
    match e
    case HeaderClick =>
      Step(s.(isOpen := !s.isOpen), [], Handled)
    case OptionClick(o) =>
      Step(MenuState(false, Selected(o)), if p.hasOnChange then [o.value] else [], Handled)
    case SelectChange(v) =>
      var found := Find(p.options, v);
      var next := s.(selected := found);
      if !p.hasOnChange then Step(next, [], Handled)
      else if found.Selected? then Step(next, [found.option.value], Handled)
      else Step(next, [], TypeError)
    case DefaultValueChange(d) =>
      Step(s.(selected := d), [], Handled)
  }

  /** Handlers run one after another with the same props; the emitted values
      are concatenated, and the run ends in TypeError if any handler did. */
  function Run(p: Props, s: MenuState, events: seq<Event>): Step
    decreases |events|
  {
    if events == [] then Step(s, [], Handled)
    else
      var first := Apply(p, s, events[0]);
      var rest := Run(p, first.state, events[1..]);
      Step(rest.state, first.emitted + rest.emitted,
           if first.outcome == TypeError then TypeError else rest.outcome)
  }

  /** The native-select change that finds no option. */
  predicate Misses(options: seq<MenuOption>, e: Event)
  {
    e.SelectChange? && Find(options, e.value).NoSelection?
  }

  /** A handler run that may change the selection at the user's request. */
  predicate IsUserSelection(e: Event)
  {
    e.OptionClick? || e.SelectChange?
  }

  /** The events whose selections are drawn from `options`: list picks of
      one of its options, and defaults that are empty or one of its options. */
  predicate EventDrawnFrom(options: seq<MenuOption>, e: Event)
  {
    && (e.OptionClick? ==> e.option in options)
    && (e.DefaultValueChange? ==> DrawnFrom(options, e.default))
  }

  function CountUserSelections(events: seq<Event>): nat
  {
    if events == [] then 0
    else (if IsUserSelection(events[0]) then 1 else 0) + CountUserSelections(events[1..])
  }

  /** The values the user picked or typed into the native select, in order. */
  function UserValues(events: seq<Event>): seq<string>
  {
    if events == [] then []
    else
      (match events[0]
       case OptionClick(o) => [o.value]
       case SelectChange(v) => [v]
       case _ => []) + UserValues(events[1..])
  }

  function CountToggles(events: seq<Event>): nat
  {
    if events == [] then 0
    else (if events[0].HeaderClick? then 1 else 0) + CountToggles(events[1..])
  }

  // ---- one event at a time ----

  /** A header click flips `isOpen`, keeps the selection and emits nothing. */
  lemma HeaderClickFlips(p: Props, s: MenuState)
    ensures Apply(p, s, HeaderClick) == Step(MenuState(!s.isOpen, s.selected), [], Handled)
  {
  }

  /** Two header clicks restore the state. */
  lemma HeaderClickTwice(p: Props, s: MenuState)
    ensures Apply(p, Apply(p, s, HeaderClick).state, HeaderClick).state == s
  {
  }

  /** Picking a list entry selects it, closes the list, shows its label and
      value, and passes its value to `onChange` exactly once if given. */
  lemma OptionClickSelects(p: Props, s: MenuState, o: MenuOption)
    ensures var t := Apply(p, s, OptionClick(o));
      && t.state == MenuState(false, Selected(o))
      && t.outcome == Handled
      && t.emitted == (if p.hasOnChange then [o.value] else [])
      && HeaderText(t.state.selected) == o.caption
      && SelectValue(t.state.selected) == o.value
      && Render(p.options, t.state.isOpen, t.state.selected).list.None?
  {
  }

  /** A native change to a value some option has selects the first such
      option, leaves `isOpen` alone, and emits that value once if `onChange`
      is given. */
  lemma SelectChangeHit(p: Props, s: MenuState, i: int)
    requires 0 <= i < |p.options|
    requires FirstMatchAt(p.options, p.options[i].value, i)
    ensures var t := Apply(p, s, SelectChange(p.options[i].value));
      && t.state == MenuState(s.isOpen, Selected(p.options[i]))
      && t.outcome == Handled
      && t.emitted == (if p.hasOnChange then [p.options[i].value] else [])
  {
  }

  /** A native change to a value no option has empties the selection; with
      `onChange` given the handler then throws before emitting anything. */
  lemma SelectChangeMiss(p: Props, s: MenuState, v: string)
    requires forall i :: 0 <= i < |p.options| ==> p.options[i].value != v
    ensures var t := Apply(p, s, SelectChange(v));
      && t.state == MenuState(s.isOpen, NoSelection)
      && t.emitted == []
      && (t.outcome == TypeError <==> p.hasOnChange)
      && HeaderText(t.state.selected) == Placeholder
  {
  }

  /** With distinct values, a native change to an option's value has the same
      effect on the selection and on `onChange` as clicking that option. */
  lemma SelectChangeLikeOptionClick(p: Props, s: MenuState, i: int)
    requires DistinctValues(p.options)
    requires 0 <= i < |p.options|
    ensures var byClick := Apply(p, s, OptionClick(p.options[i]));
      var byChange := Apply(p, s, SelectChange(p.options[i].value));
      && byChange.state.selected == byClick.state.selected
      && byChange.emitted == byClick.emitted
      && byChange.outcome == Handled
  {
  }

  /** A new default replaces the selection, keeps `isOpen`, emits nothing. */
  lemma DefaultValueChangeResets(p: Props, s: MenuState, d: Selection)
    ensures Apply(p, s, DefaultValueChange(d)) == Step(MenuState(s.isOpen, d), [], Handled)
  {
  }

  /** Whatever `onChange` receives is the value the hidden select now shows. */
  lemma EmittedIsSelectValue(p: Props, s: MenuState, e: Event)
    ensures var t := Apply(p, s, e);
      forall v :: v in t.emitted ==> v == SelectValue(t.state.selected) && t.state.selected.Selected?
  {
  }

  /** A new component shows the placeholder and binds the hidden select to ""
      when it has no default, and the default's label and value otherwise. */
  lemma InitialView(options: seq<MenuOption>, d: Selection)
    ensures var v := Render(options, Initial(d).isOpen, Initial(d).selected);
      && v.list.None?
      && (d.NoSelection? ==> v.headerText == Placeholder && v.selectValue == "")
      && (d.Selected? ==> v.headerText == d.option.caption && v.selectValue == d.option.value)
  {
  }

  // ---- sequences of events ----

  /** The selection stays empty or one of the options as long as every list
      pick and every default is drawn from the options: a native change can
      only select an option or empty the selection. */
  lemma {:induction false} RunKeepsSelectionDrawnFrom(p: Props, s: MenuState, events: seq<Event>)
    requires DrawnFrom(p.options, s.selected)
    requires forall k :: 0 <= k < |events| ==> EventDrawnFrom(p.options, events[k])
    ensures DrawnFrom(p.options, Run(p, s, events).state.selected)
    decreases |events|
  {
    if events != [] {
      var first := Apply(p, s, events[0]);
      assert EventDrawnFrom(p.options, events[0]);
      assert DrawnFrom(p.options, first.state.selected);
      assert forall k :: 0 <= k < |events[1..]| ==> events[1..][k] == events[k + 1];
      RunKeepsSelectionDrawnFrom(p, first.state, events[1..]);
    }
  }

  /** Without `onChange` nothing is ever emitted and no handler throws. */
  lemma {:induction false} RunWithoutOnChange(p: Props, s: MenuState, events: seq<Event>)
    requires !p.hasOnChange
    ensures Run(p, s, events).emitted == []
    ensures Run(p, s, events).outcome == Handled
    decreases |events|
  {
    if events != [] {
      RunWithoutOnChange(p, Apply(p, s, events[0]).state, events[1..]);
    }
  }

  /** A run ends in TypeError exactly when `onChange` is given and some native
      change finds no option. */
  lemma {:induction false} RunTypeErrorIff(p: Props, s: MenuState, events: seq<Event>)
    ensures Run(p, s, events).outcome == TypeError <==>
      p.hasOnChange && exists k :: 0 <= k < |events| && Misses(p.options, events[k])
    decreases |events|
  {
    if events != [] {
      var first := Apply(p, s, events[0]);
      RunTypeErrorIff(p, first.state, events[1..]);
      if exists k :: 0 <= k < |events[1..]| && Misses(p.options, events[1..][k]) {
        var k :| 0 <= k < |events[1..]| && Misses(p.options, events[1..][k]);
        assert Misses(p.options, events[k + 1]);
      }
      if exists k :: 0 <= k < |events| && Misses(p.options, events[k]) {
        var k :| 0 <= k < |events| && Misses(p.options, events[k]);
        if k > 0 {
          assert Misses(p.options, events[1..][k - 1]);
        }
      }
    }
  }

  /** With `onChange` given and no native change missing, `onChange` is called
      exactly once per list pick or native change, and never otherwise: the
      k-th call carries the k-th picked or changed value. */
  lemma {:induction false} RunEmitsOncePerSelection(p: Props, s: MenuState, events: seq<Event>)
    requires p.hasOnChange
    requires forall k :: 0 <= k < |events| ==> !Misses(p.options, events[k])
    ensures Run(p, s, events).emitted == UserValues(events)
    ensures |Run(p, s, events).emitted| == CountUserSelections(events)
    decreases |events|
  {
    if events != [] {
      assert !Misses(p.options, events[0]);
      assert forall k :: 0 <= k < |events[1..]| ==> events[1..][k] == events[k + 1];
      RunEmitsOncePerSelection(p, Apply(p, s, events[0]).state, events[1..]);
    }
  }

  /** Between list picks the list is open exactly when the header was clicked
      an odd number of times more than it was open at the start. */
  lemma {:induction false} RunOpenParity(p: Props, s: MenuState, events: seq<Event>)
    requires forall k :: 0 <= k < |events| ==> !events[k].OptionClick?
    ensures Run(p, s, events).state.isOpen == (s.isOpen != (CountToggles(events) % 2 == 1))
    decreases |events|
  {
    if events != [] {
      assert !events[0].OptionClick?;
      assert forall k :: 0 <= k < |events[1..]| ==> events[1..][k] == events[k + 1];
      RunOpenParity(p, Apply(p, s, events[0]).state, events[1..]);
    }
  }

  /** The list is closed after any run that ends with a list pick. */
  lemma {:induction false} RunEndingInPickIsClosed(p: Props, s: MenuState, events: seq<Event>, o: MenuOption)
    ensures !Run(p, s, events + [OptionClick(o)]).state.isOpen
    ensures Run(p, s, events + [OptionClick(o)]).state.selected == Selected(o)
    decreases |events|
  {
    if events != [] {
      assert (events + [OptionClick(o)])[1..] == events[1..] + [OptionClick(o)];
      RunEndingInPickIsClosed(p, Apply(p, s, events[0]).state, events[1..], o);
    }
  }
}
