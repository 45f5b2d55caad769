# PickerView selection state, in Dafny

A model of the selection bookkeeping of the `PickerView` control (a sliding sheet holding a
multi-column list picker, a date picker or a province / city / district picker), with its view
layer removed. What remains is a small sequential state machine:

- **List ("dataSource") picker.** A table of columns of labels, the selected row and the selected
  label of every column, and an optional ceiling per column. Picking a row updates one column and,
  when ceilings are set, runs a clamp pass over the columns from the left. A caller can also jump
  the wheels to given rows, and set the ceilings.
- **Area picker.** A dataset of provinces, each with an optional name and an optional list of
  cities, each city with an optional name and an optional list of districts (`"state"`, `"cities"`,
  `"city"`, `"areas"` in the property list, each read with a conditional cast). Selecting a province
  or a city re-derives the lists and names below it.
- **Queries.** The component count, the row count of a component and the title of a row, which is
  what the native wheel asks for, and the payload the confirm handler receives.

Files:

- `wrappers.dfy`: `Option`.
- `list_selection.dfy` (module `ListSelection`): the list picker's state on values: the state
  invariant, the labels collected by the initialiser, the clamp pass and the jump as functions, and
  the lemmas about them.
- `area_selection.dfy` (module `AreaSelection`): the dataset, the initial area selection and the
  cascading row selection as functions, and the lemmas about them.
- `picker_view.dfy` (module `Picker`): the class `PickerView` with the source's fields
  (`dataSourceAry`, `selectedRowAry`, `selectedResultAry`, `maxValueInRowsAry`, `areaSource`,
  `cities`, `districts`, `province`, `city`, `district`), its initialisers, the methods that change
  them (proved to compute the functions of the two modules above), and the queries. The calls into
  the native wheel (`selectRow`, `reloadComponent`) are returned by the methods as `WheelEvent`s.
- `scenarios.dfy` (module `Scenarios`): the demo screen's pickers (one 20-row column shown at row 3;
  two 20-row columns with ceilings `[12, 10]`) and two small area datasets, driven through the
  class's contracts.

Behaviour of the code that is easy to misread, and that the model reproduces:

- The clamp pass does not clamp each column independently. It stops at the first column whose row is
  strictly below its ceiling, so a later column can stay above its own ceiling. What the pass does
  guarantee is that the rows, read as one multi-digit value, are lexicographically at most the
  ceilings (`ListSelection.ClampIsLexicographicBound`). The demo's ceilings `[12, 10]` over columns
  `"0".."19"` and `".0"..".19"` read as a maximum of 12.10, which fits that reading.
- A jump does not check every index: it applies rows in column order and stops at the first negative
  one, and an index past the end of its column traps (a precondition here).
- On a province change, the city and district lists are kept when the new province or its first
  city lacks the key, so the current lists need not belong to the selected province, and neither
  need the confirmed names: over Zhejiang (Hangzhou: Xihu, Binjiang; Ningbo) and Macau (no cities
  list), selecting Macau and then the first city of the kept list confirms (Macau, Hangzhou, Xihu)
  (`Scenarios.MixedProvincePayload`). When every province has a non-empty cities list and every
  city an areas list, the confirmed names always belong to one region (`AreaSelection.ReplayCoherent`).
- The list initialiser stops collecting labels at the first empty column.

## Model

| member | source | states |
|---|---|---|
| ListSelection.InitialLabels | PickerView/Class/PickerView.swift:669-677 | the initialiser's labels are each column's first label, in order, up to the first empty column, where collection stops |
| ListSelection.InitialLabelsUnique | PickerView/Class/PickerView.swift:670-677 | any label sequence with those three properties is exactly the initialiser's labels |
| ListSelection.InitialConsistent | PickerView/Class/PickerView.swift:669-677 | with no empty column, rows all 0 and the first labels satisfy the invariant label[i] == column[i][row[i]] |
| ListSelection.PickConsistent | PickerView/Class/PickerView.swift:494-495 | picking row r in column c keeps the invariant and leaves every other column's row and label unchanged |
| ListSelection.ClampStop | PickerView/Class/PickerView.swift:378-383 | the pass stops at the first column whose row is strictly below its ceiling; every column before it is at or above its ceiling |
| ListSelection.ClampedRows | PickerView/Class/PickerView.swift:378-386 | the rows after the pass: every column before the stop holds exactly its ceiling, the stop column and later ones their old row |
| ListSelection.ClampedLabels | PickerView/Class/PickerView.swift:378-387 | the labels after the pass: every column before the stop holds the label at its ceiling, the stop column and later ones their old label |
| ListSelection.ClampConsistentAndNonIncreasing | PickerView/Class/PickerView.swift:378-388 | the pass keeps the invariant, never increases a row, sets every column before the stop to exactly its ceiling and leaves the stop column and later ones unchanged |
| ListSelection.ClampFirstBelowIsNoop | PickerView/Class/PickerView.swift:381-383 | when column 0 is below its ceiling the pass changes no row and no label |
| ListSelection.ClampIsLexicographicBound | PickerView/Class/PickerView.swift:378-388 | after the pass the rows are lexicographically at most the ceilings |
| ListSelection.ClampIdempotent | PickerView/Class/PickerView.swift:374-389 | a second pass changes neither the rows nor the labels |
| ListSelection.PickThenClampIdempotent | PickerView/Class/PickerView.swift:494-498 | picking the same row in the same column again, followed by the pass, ends in the same state |
| ListSelection.FirstNegative | PickerView/Class/PickerView.swift:700-705 | the jump stops at the first negative target row; all targets before it are non-negative |
| ListSelection.JumpedRows | PickerView/Class/PickerView.swift:700-709 | the rows after the jump: columns before the first negative target hold that target, the rest their old row |
| ListSelection.JumpedLabels | PickerView/Class/PickerView.swift:700-710 | the labels after the jump: columns before the first negative target hold the label at that target, the rest their old label |
| ListSelection.JumpConsistent | PickerView/Class/PickerView.swift:700-711 | the jump keeps the invariant; columns before the first negative target take that row and its label, that column and all later ones are unchanged |
| ListSelection.JumpAllNonNegative | PickerView/Class/PickerView.swift:700-711 | with no negative target the rows become exactly the targets and the labels the labels at those rows |
| AreaSelection.Initial | PickerView/Class/PickerView.swift:878-896 | the initial area state: the first province's name, its cities list (empty if it has none), that list's first city name, and with three wheels the first city's areas and their first entry; with two wheels no district |
| AreaSelection.SelectProvince | PickerView/Class/PickerView.swift:505-571 | a province selection: the province's name, its cities list replacing the current one when present (kept otherwise), the first city's name or nothing; with two wheels the district state is untouched |
| AreaSelection.SelectCity | PickerView/Class/PickerView.swift:530-578 | a city selection: that city's name, province and city list kept; with two wheels the district state untouched, with three and no areas list the districts kept and the district cleared |
| AreaSelection.SelectDistrict | PickerView/Class/PickerView.swift:545-550 | a district selection: the district becomes a member of the current district list; nothing else changes |
| AreaSelection.Select | PickerView/Class/PickerView.swift:501-583 | the row-selection handler: only a province selection changes the province and the city list, only province or city selection change the city and the districts, two wheels never touch the district state, and a component outside 0..2 changes nothing |
| AreaSelection.SelectProvinceEffect | PickerView/Class/PickerView.swift:505-571 | province selection sets the province name; with a cities list it replaces the cities, picks the first city (none if the list is empty) and, with three wheels, re-derives the districts from that city (keeping the old list and clearing the district when it has no areas); without a cities list it clears the names below and keeps both lists; with two wheels the districts are untouched |
| AreaSelection.SelectCityEffect | PickerView/Class/PickerView.swift:530-578 | city selection sets the city name, keeps the province and the city list, and with three wheels re-derives the districts from that city the same way |
| AreaSelection.SelectDistrictEffect | PickerView/Class/PickerView.swift:545-550 | district selection sets only the district name |
| AreaSelection.SelectEmptyIsNoop | PickerView/Class/PickerView.swift:501-583 | selecting in a component whose current list is empty, or in a component the picker lacks, changes nothing |
| AreaSelection.SelectIdempotent | PickerView/Class/PickerView.swift:501-583 | selecting the same row in the same component twice ends where selecting it once does |
| AreaSelection.InitialConsistent | PickerView/Class/PickerView.swift:878-896 | after construction a chosen city is in the city list and a chosen district in the district list |
| AreaSelection.SelectConsistent | PickerView/Class/PickerView.swift:501-583 | every row selection keeps that membership invariant |
| AreaSelection.ReplayConsistent | PickerView/Class/PickerView.swift:501-583 | the membership invariant holds after any sequence of selections |
| AreaSelection.TwoLevelDistrictStaysUnset | PickerView/Class/PickerView.swift:556-582 | with two wheels no selection assigns the district, so from an unset district it stays unset after any sequence of selections; construction (lines 884-893) leaves it unset |
| AreaSelection.InitialCoherent | PickerView/Class/PickerView.swift:878-896 | on complete data (every province a non-empty cities list, every city an areas list) with three wheels, the initial province owns the initial city list and the initial city owns the initial district list |
| AreaSelection.SelectCoherent | PickerView/Class/PickerView.swift:503-554 | on complete data with three wheels, every selection keeps the province owning the city list and the city owning the district list |
| AreaSelection.ReplayCoherent | PickerView/Class/PickerView.swift:503-554 | on complete data that coherence holds after any sequence of selections |
| Scenarios.MixedProvincePayload | PickerView/Class/PickerView.swift:505-541 | when a province lacks a cities list, selecting it and then a city of the kept list leaves names from two provinces, (Macau, Hangzhou, Xihu), which are not coherent |
| Picker.PickerView.FromDataSources | PickerView/Class/PickerView.swift:654-681 | the list initialiser: every row 0, the labels as InitialLabels, no ceilings; the state is valid when no column is empty |
| Picker.PickerView.FromAreaType | PickerView/Class/PickerView.swift:859-903 | the area initialiser over a parsed dataset: the area fields are AreaSelection.Initial (first province, its first city, with three wheels its first district) |
| Picker.PickerView.FromDateMode | PickerView/Class/PickerView.swift:756-771 | the date initialiser: date mode with all list and area state empty |
| Picker.PickerView.NumberOfComponents | PickerView/Class/PickerView.swift:394-406 | the column count in list mode, 3 or 2 by depth in area mode, 0 in date mode |
| Picker.PickerView.NumberOfRowsInComponent | PickerView/Class/PickerView.swift:408-447 | a column's length in list mode; the province, city and district list lengths in area mode (0 for a component the depth lacks); 0 in date mode |
| Picker.PickerView.TitleForRow | PickerView/Class/PickerView.swift:449-488 | the label in list mode; the province name, city name or district in area mode, nothing for any other area component; nothing in date mode |
| Picker.PickerView.ListWheelsShowSelection | PickerView/Class/PickerView.swift:394-453 | in list mode every wheel's selected row is one of its rows and its title is the selected label |
| Picker.PickerView.AreaWheelsShowSelection | PickerView/Class/PickerView.swift:408-482 | in area mode a chosen city is the title of some row of the city wheel and a chosen district of some row of the district wheel, which only three wheels have |
| Picker.PickerView.Done | PickerView/Class/PickerView.swift:228-249 | the confirm payload: nothing for a list picker with no columns, otherwise the mode's payload; a list payload satisfies the invariant and a two-wheel area payload has no district |
| Picker.PickerView.SetMaxValuesInRows | PickerView/Class/PickerView.swift:730-741 | ceilings change only in list mode and only when there is one per column; otherwise nothing changes |
| Picker.PickerView.HandleMaxValueInRows | PickerView/Class/PickerView.swift:374-389 | the clamp pass: without ceilings nothing changes; with ceilings the rows and labels become ClampedRows / ClampedLabels and the wheel is scrolled once per clamped column |
| Picker.PickerView.DidSelectRow | PickerView/Class/PickerView.swift:490-588 | list mode: the pick, then the clamp pass when ceilings are set; area mode: AreaSelection.Select, with the dependent wheels reset and reloaded; date mode: nothing; the state stays valid |
| Picker.PickerView.ShowSelectedRows | PickerView/Class/PickerView.swift:689-712 | a no-op outside list mode or on a length mismatch; otherwise the rows and labels become JumpedRows / JumpedLabels, with no clamp pass |
| Scenarios.DoublePickerAtFirstCeiling | PickerView/Class/PickerView.swift:374-389 | on the demo's two-column picker, picking exactly the first ceiling (row 12) keeps rows [12, 4] and labels ["12", ".4"] |
| Scenarios.DoublePicker | PickerView/ViewController.swift:42-60 | the demo's two-column picker with ceilings [12, 10] shown at rows [3, 4] has rows [3, 4] and labels ["3", ".4"] |

## Left out

- UIKit view construction, the toolbar, Auto Layout constraints, the tap gesture and the show and
  dismiss animations (PickerView/Class/PickerView.swift:131-372, 593-631): presentation only, over
  frameworks outside this model. The cancel action (`dismiss`) therefore has no counterpart.
- The date mode's state and operations (`setDate`, bounds, duration, the date formatter and the
  date payload): they delegate to the platform's date picker and date formatting. Only the mode
  itself is modelled, so that the mode guards of the other operations are visible.
- Loading the property list from the bundle and the fatal error when it is missing: the parsed
  dataset is a parameter of `FromAreaType`.
- The shared default toolbar titles and colours that every initialiser overwrites: cosmetic
  configuration.
- Diagnostic `print`s, and storing and invoking the cancel and confirm handlers (including their
  mode-guarded registration): the confirm handler's argument is what `Done` returns, and the handler
  being unset is not modelled.
- The `animated` argument of `showSelectedRows` and of the wheel calls, and the unused `row` and
  `compont` parameters of the clamp helper: they do not affect the selection state.
- Picker.PickerView.FromDataSources: when some column is empty the initialiser's assertion failure
  (a trap in debug builds) is modelled as the release-build behaviour, an early return, after which
  the state is not valid and no other operation is specified.
