# SelectMenu, modelled in Dafny

A model of the `SelectMenu` React component (`src/components/SelectMenu/index.jsx`):
a custom dropdown that shows a header, an option list while open, and a hidden
native `<select>` kept in step with the selection, and that reports selection
changes to an optional `onChange` callback.

Without the rendering machinery the component is a small state machine. It owns
two pieces of state, `isOpen` and the selected option. Four handlers change them:
the header toggle, a list-item pick, the hidden select's change event, and the
effect that re-syncs the selection when the `defaultValue` prop changes. The
header text, the hidden select's value and the two option lists are derived
from that state.

- `options.dfy` (module `MenuOptions`): the option record, the selection
  (empty or one option), and `Find`, the first-match lookup by value.
- `render.dfy` (module `MenuRender`): the header text, the hidden select's
  value, the list entries and native `<option>` entries, and the whole view.
- `events.dfy` (module `MenuEvents`): the handlers as a pure transition function
  `Apply` over `MenuState`, with the values passed to `onChange` and whether the
  handler threw. `Run` folds `Apply` over a sequence of events. Lemmas state
  what each event does and what holds over any run.
- `component.dfy` (module `MenuComponent`): the class `SelectMenu` whose fields
  are the component's state plus the log of `onChange` calls. It has one method
  per handler, each tied to `Apply`. `ExampleScenario` walks a two-option menu
  from the placeholder to a pick.

Modelling choices:
- The `onChange` prop is a boolean: given or not. Its body is foreign, so the
  model only keeps the sequence of values passed to it (`onChangeCalls`).
- Props reach the handlers as parameters. This matches the closures that the
  latest render creates.
- A list pick's handler does not check `isOpen`. The list exists only while
  open, but `Apply` and `HandleOptionClick` do exactly what the handler does.
- A change of the hidden select to a value that no option has sets the
  selection to empty (line 44). Then, when `onChange` is given, line 46 reads
  `.value` of `undefined` and throws. The model returns the outcome `TypeError`
  in that case, with the selection already emptied and nothing passed to
  `onChange`. Guarding the miss would avoid the throw; the model keeps the
  code's behaviour.
- The option field `label` is called `caption`, because `label` is a Dafny
  keyword.

## Model

| member | source | states |
|---|---|---|
| `MenuOptions.Find` | src/components/SelectMenu/index.jsx:41-43 | the result is empty exactly when no option has the value; a found option has that value and is one of the options; it is the option at the first index whose value matches |
| `MenuOptions.FindOwnValue` | src/components/SelectMenu/index.jsx:41-43 | when values are distinct, looking up option i's value yields option i |
| `MenuRender.ListEntries` | src/components/SelectMenu/index.jsx:69-78 | one list entry per option, in order; entry i is keyed by option i's value, shows its label and hands option i to the click handler |
| `MenuRender.NativeEntries` | src/components/SelectMenu/index.jsx:86-90 | one native `<option>` per option, in order, with option i's value as key and value and its label as text |
| `MenuRender.HeaderText` | src/components/SelectMenu/index.jsx:65 | with a selection the header shows its label; the header shows the placeholder exactly when there is no selection or the selected label is itself "Select an option" |
| `MenuRender.SelectValue` | src/components/SelectMenu/index.jsx:83 | with a selection the hidden select is bound to its value; the value is "" exactly when there is no selection or the selected value is itself "" |
| `MenuRender.Render` | src/components/SelectMenu/index.jsx:56-93 | the header is marked open iff `isOpen`; the list exists iff `isOpen` and then matches the options in length, order and labels; the hidden select always lists every option; header text is the selected label or "Select an option"; the select value is the selected value or "" |
| `MenuRender.ListPicksFromOptions` | src/components/SelectMenu/index.jsx:69-73 | every option the open list can hand to the click handler is one of the options |
| `MenuRender.SelectValueFindsSelection` | src/components/SelectMenu/index.jsx:83-84 | with distinct values and a selection drawn from the options, looking up the hidden select's value gives back the selection |
| `MenuEvents.Initial` | src/components/SelectMenu/index.jsx:18-19 | a new component is closed and selects `defaultValue`, which may be empty |
| `MenuEvents.Apply` | src/components/SelectMenu/index.jsx:21-54 | only a list pick closes the list and only a header click flips it; a header click keeps the selection; the handler throws exactly on a native change that finds no option while `onChange` is given; `onChange` receives the newly selected value once per pick or found match when given, and nothing otherwise; the per-event lemmas below state each event's full effect |
| `MenuEvents.InitialView` | src/components/SelectMenu/index.jsx:18-19 | a new component shows no list; without a default it shows the placeholder and binds the select to ""; with one it shows that default's label and value |
| `MenuEvents.HeaderClickFlips` | src/components/SelectMenu/index.jsx:52-54 | a header click flips `isOpen`, keeps the selection, emits nothing and does not throw |
| `MenuEvents.HeaderClickTwice` | src/components/SelectMenu/index.jsx:52-54 | two header clicks restore the original state |
| `MenuEvents.OptionClickSelects` | src/components/SelectMenu/index.jsx:27-36 | a list pick selects the option and closes the list; the header shows its label and the select its value; `onChange` gets its value exactly once if given, and nothing is emitted otherwise |
| `MenuEvents.SelectChangeHit` | src/components/SelectMenu/index.jsx:38-50 | a native change to a value that some option has selects the first such option, keeps `isOpen`, and emits that value once if `onChange` is given |
| `MenuEvents.SelectChangeMiss` | src/components/SelectMenu/index.jsx:41-47 | a native change to an unknown value empties the selection, keeps `isOpen`, emits nothing, shows the placeholder, and throws exactly when `onChange` is given |
| `MenuEvents.SelectChangeLikeOptionClick` | src/components/SelectMenu/index.jsx:27-50 | with distinct values, a native change to option i's value selects and emits the same as clicking option i |
| `MenuEvents.DefaultValueChangeResets` | src/components/SelectMenu/index.jsx:21-23 | a new default replaces the selection, keeps `isOpen` and emits nothing |
| `MenuEvents.EmittedIsSelectValue` | src/components/SelectMenu/index.jsx:27-50 | any value a handler passes to `onChange` is the value the hidden select shows afterwards |
| `MenuEvents.RunKeepsSelectionDrawnFrom` | src/components/SelectMenu/index.jsx:21-50 | if the selection starts empty or among the options, and every pick and default comes from the options, it stays empty or among the options after any run |
| `MenuEvents.RunWithoutOnChange` | src/components/SelectMenu/index.jsx:27-50 | without `onChange`, no run emits anything or throws |
| `MenuEvents.RunTypeErrorIff` | src/components/SelectMenu/index.jsx:38-50 | a run throws exactly when `onChange` is given and some native change finds no option |
| `MenuEvents.RunEmitsOncePerSelection` | src/components/SelectMenu/index.jsx:27-50 | with `onChange` given and no failed lookup, the values passed to `onChange` are exactly the picked options' values and the native changes' values, in event order: one call per list pick or native change and none for anything else |
| `MenuEvents.RunOpenParity` | src/components/SelectMenu/index.jsx:52-54 | in a run without list picks, the list ends open iff it started open xor the header was clicked an odd number of times |
| `MenuEvents.RunEndingInPickIsClosed` | src/components/SelectMenu/index.jsx:27-36 | after any run that ends with a pick, the list is closed and the picked option is selected |
| `MenuComponent.SelectMenu.constructor` | src/components/SelectMenu/index.jsx:17-19 | the instance starts closed, selecting `defaultValue`, with no `onChange` calls |
| `MenuComponent.SelectMenu.ToggleMenu` | src/components/SelectMenu/index.jsx:52-54 | flips `isOpen`; selection and `onChange` log unchanged; agrees with `Apply` on a header click |
| `MenuComponent.SelectMenu.HandleOptionClick` | src/components/SelectMenu/index.jsx:27-36 | selects the option, closes the list, appends its value to the `onChange` log iff `onChange` is given; agrees with `Apply` |
| `MenuComponent.SelectMenu.HandleSelectChange` | src/components/SelectMenu/index.jsx:38-50 | selection becomes the first match or empty; `isOpen` unchanged; appends the value iff `onChange` is given and a match was found; returns `TypeError` iff `onChange` is given and there was no match; agrees with `Apply` |
| `MenuComponent.SelectMenu.SyncDefault` | src/components/SelectMenu/index.jsx:21-23 | selection becomes the new default; `isOpen` and the `onChange` log unchanged; agrees with `Apply` |

## Left out

- JSX and DOM rendering, the stylesheet's class names, `tabIndex` focus handling and the `display: 'none'` style: presentation only. The header's open marker is kept as the boolean `headerOpen`.
- React's hook machinery: `useMemo` on line 25 passes `options` through unchanged, so the model uses `options` directly. `useCallback` dependency lists and effect scheduling are framework lifecycle. The effect on lines 21-23 becomes the explicit method `SyncDefault`, called when the default changes. The effect's run on mount sets the selection it already has, so it is not modelled separately.
- The body of the caller's `onChange`: foreign code. Only the values passed to it are kept.
- Event objects: the hidden select's change event is its `target.value` string.
- React's handling of the thrown TypeError (error reporting, whether the queued state update is rendered) is outside the component. The model records the thrown error as an outcome and keeps the selection update that line 44 made before the throw.
- JavaScript truthiness: a `defaultValue` of `null` or another falsy value is the empty selection; `onChange` is given or not.
- `Run` keeps the props fixed for the whole run. A change of `options` or `onChange` between events is a new run with new props.
