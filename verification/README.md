# tailwind-datepicker-react: month grid and widget rules in Dafny

This project models the logic of a themeable date-picker widget. The widget is
a text input that opens a calendar popup. The popup's month view shows a row of
weekday labels and a six-week grid of 42 day buttons. The model covers:

- the weekday header: the configured labels rotated by `startOfWeek`, with
  JavaScript's clamping `slice` semantics;
- the 42-cell grid starting at `start`. Each cell is classified disabled,
  selected or selectable, in that order of precedence, and the model states
  what clicking each kind of cell does;
- the widget's rules. These are the options merge, the input's
  name/id/placeholder defaults and its displayed value, the popup showing
  exactly while `show` is true, and the outside-click rule. Focus and
  mousedown events drive an open/closed machine.

Dates are JavaScript timestamps in milliseconds (`Dates.Instant`), read in
UTC. `addDays` adds whole days of 86 400 000 ms. The availability check
(`changeSelectedDate("check-availability", d)`), the date formatter and DOM
`Node.contains` are opaque function parameters. The precedence rules are
therefore proved for every availability predicate and every formatter.

Three behaviours of the code are worth knowing:

- With caller-supplied children the input ref is never attached. It is attached only through `<Input ref>` (DatePicker.tsx lines 59-60), which renders only without children. So `handleClickOutside` returns early at DatePicker.tsx line 37, and an outside mousedown never closes the popup. `DatePicker.CustomTriggerNeverToggles` proves this.
- A cell is selected when its formatted date equals the formatted selection (Days.tsx line 44). At most one cell is selected only when the formatter tells calendar days apart. `DayGrid.AtMostOneSelected` assumes such a formatter.
- The header accepts a label list of any length. It leaves the list unrotated when `startOfWeek` lies past its end, because `slice` clamps. `WeekHeader.Rotate` models that.

## Model

| member | source | states |
|---|---|---|
| Dates.AddDays | src/Components/Views/Days.tsx:28 | `addDays(start, n)` lands exactly `n` calendar days later at the same time of day |
| Dates.WeekdayAddDays | src/Components/Views/Days.tsx:13 | moving `n` days moves `getDay()` `n` places round the week |
| WeekHeader.Rotate | src/Components/Views/Days.tsx:15 | `slice(k).concat(slice(0, k))` keeps the length and the multiset of labels, and is the identity once `k` reaches the end |
| WeekHeader.RotateIndex | src/Components/Views/Days.tsx:15 | for `k` up to the list length `n`, position `i` of the rotation holds label `(i + k) mod n` |
| WeekHeader.RotateInverse | src/Components/Views/Days.tsx:15 | rotating by the list length minus `k` undoes a rotation by `k` |
| WeekHeader.StartOfWeek | src/Components/Views/Days.tsx:13 | the offset is in 0..6 and is the weekday counted from Monday = 0 |
| WeekHeader.Header | src/Components/Views/Days.tsx:14-15 | absent labels give an empty header; otherwise the header is a permutation of the labels of the same length |
| WeekHeader.MondayStartKeepsOrder | src/Components/Views/Days.tsx:13-15 | a start whose `getDay()` is 1 leaves the labels in their configured order |
| WeekHeader.HeaderIndex | src/Components/Views/Days.tsx:13-15 | for seven labels, header column `i` shows label `(i + startOfWeek) mod 7` |
| WeekHeader.StartOfWeekAddDays | src/Components/Views/Days.tsx:13 | the Monday-based weekday of a day `n` days on is `(startOfWeek + n) mod 7` |
| WeekHeader.HeaderNamesCellWeekday | src/Components/Views/Days.tsx:13-28 | with Monday-first labels, the header column of every grid cell names that cell's own weekday |
| Dates.Weekday | src/Components/Views/Days.tsx:13 | `getDay()` read in UTC: a value in 0..6, counted from Sunday = 0 |
| WeekHeader.SliceFrom | src/Components/Views/Days.tsx:15 | `slice(k)` is the tail from `k`, or empty once `k` reaches the end |
| WeekHeader.SliceTo | src/Components/Views/Days.tsx:15 | `slice(0, k)` is the first `k` labels, or the whole list once `k` reaches the end |
| DayGrid.ShowsSelection | src/Components/Views/Days.tsx:44 | the selection shows on a day iff display is on, the selection is set (`getTime() > 0`) and both format alike |
| DayGrid.Click | src/Components/Views/Days.tsx:49-52 | a button with the `disabled` attribute delivers no click; otherwise a click runs its handler, if it has one |
| DatePicker.Run | src/Components/DatePicker.tsx:36-96 | running events in order never changes the trigger flag (whether children were given) or the element fields; no events leave the widget unchanged |
| DayGrid.MakeCell | src/Components/Views/Days.tsx:33-66 | a cell is disabled exactly when unavailable; it is selected exactly when available and showing the selection; only disabled cells lack a handler; only selected cells carry `disabled` |
| DayGrid.Grid | src/Components/Views/Days.tsx:27-28 | exactly 42 cells; cell `i` is `addDays(start, i)`; consecutive cells are consecutive days, strictly increasing |
| DayGrid.ClickCell | src/Components/Views/Days.tsx:35-66 | clicking a cell fires `changeSelectedDate("date", ·)` exactly when it is selectable, and then with that cell's own date |
| DayGrid.DisabledWinsOverSelected | src/Components/Views/Days.tsx:33-45 | an unavailable day is disabled even when it equals the selected date |
| DayGrid.SelectedIsSelectionDay | src/Components/Views/Days.tsx:44 | with a calendar-day formatter, a cell is selected iff it is available, display is on, the selection is set (`getTime() > 0`) and on that cell's day |
| DayGrid.AtMostOneSelected | src/Components/Views/Days.tsx:44 | with a calendar-day formatter, no two cells of a grid are selected |
| DayGrid.SelectionInWindowIsShown | src/Components/Views/Days.tsx:27-45 | with a calendar-day formatter, a displayed and set (`getTime() > 0`) selection inside the six-week window is shown on its own day's cell unless that day is unavailable |
| DayGrid.GridDependsOnFormattedSelection | src/Components/Views/Days.tsx:27-66 | re-rendering with a selection that formats alike and is equally set (`getTime() > 0`) yields the identical 42 cells |
| DayGrid.GridDependsOnWindowAvailability | src/Components/Views/Days.tsx:27-66 | availability predicates that agree on the 42 days yield the identical grid |
| DatePicker.MergeOptions | src/Components/DatePicker.tsx:30 | merged options have every key of either object; custom values override defaults key by key |
| DatePicker.MergeOptionsIdempotent | src/Components/DatePicker.tsx:30 | merging the same overrides twice changes nothing |
| DatePicker.OrElse | src/Components/DatePicker.tsx:77-79 | `s || fallback`: an absent or empty string gives the fallback |
| DatePicker.InputName | src/Components/DatePicker.tsx:77 | the name defaults to "date" and is never empty |
| DatePicker.InputId | src/Components/DatePicker.tsx:78 | the id defaults to the effective name and is never empty |
| DatePicker.InputPlaceholder | src/Components/DatePicker.tsx:79 | the placeholder defaults to "Select Date" and is never empty |
| DatePicker.InputValue | src/Components/DatePicker.tsx:95 | a given `value` wins, else the selection when its display is on, else "" |
| DatePicker.InputMatchesSelectedCell | src/Components/DatePicker.tsx:95 | with no `value` and no custom format, the input's text equals the formatted date of the grid's selected cell |
| DatePicker.Render | src/Components/DatePicker.tsx:50-69 | the popup is rendered exactly while `show`; the default input, with its resolved attributes, is rendered exactly when no children are given |
| DatePicker.InputRef | src/Components/DatePicker.tsx:52-66 | the input ref is attached exactly when the default input is rendered |
| DatePicker.PopupRef | src/Components/DatePicker.tsx:69 | the popup ref is attached exactly while `show` |
| DatePicker.ClickOutside | src/Components/DatePicker.tsx:36-41 | a missing ref or a target inside either element leaves `setShow` uncalled; otherwise `setShow(false)` is the only effect |
| DatePicker.Step | src/Components/DatePicker.tsx:36-96 | focus on the default input opens; with the default input, a mousedown keeps `show` only if the popup was open and the target is inside either element; with children, a mousedown changes nothing |
| DatePicker.RunFollowsLastVerdict | src/Components/DatePicker.tsx:36-96 | with the default input, after any event sequence `show` is the verdict of the latest focus or outside mousedown, else its initial value |
| DatePicker.CustomTriggerNeverToggles | src/Components/DatePicker.tsx:37-60 | with caller-supplied children, no focus or mousedown changes the widget |
| DatePicker.ClickIntoInputOpens | src/Components/DatePicker.tsx:96 | a mousedown inside the input followed by its focus leaves the popup open |

## Left out

- Date formatting (`getFormattedDate`, the provider's wrapper around `Intl` date formatting) is not part of this model. It is an opaque parameter whose outputs are only compared for equality. The per-cell day, month and year strings (Days.tsx lines 29-31) are display text and are not modelled.
- `addDays` (src/Utils/date) is not part of this model. It is assumed to add whole days of 86 400 000 ms. Local time zones and daylight-saving shifts are not modelled: `getDay()` is read in UTC. Invalid dates (`NaN` timestamps) are not modelled.
- `DatePickerProvider` and `changeSelectedDate` are not part of this model. The availability check is an opaque predicate. What a date selection does to the shared state is not modelled, including whether it closes the popup. The same goes for the default "always available" predicate.
- `selectedDate && showSelectedDate` (DatePicker.tsx line 95) is modelled as `showSelectedDate` alone, because the shared selection is always a `Date` object and hence truthy.
- The mousedown listener's attach/detach lifecycle (DatePicker.tsx lines 43-48) is React effect plumbing. The model assumes one listener that is always attached. The source's remover passes a fresh closure, so it never detaches the listener it added.
- `Step` and `Run` assume two things. First, the caller's `setShow` (a prop, DatePicker.tsx lines 13-14, passed through the provider at line 21) stores its argument into the `show` prop. Second, each event's effect is applied by a re-render before the next event arrives. React applies a state change on the next render, and a caller may handle `setShow` differently. The model does not cover either case.
- DatePicker.InputMatchesSelectedCell: assumes `getFormattedDate(d, null)` (the input's call, DatePicker.tsx lines 82 and 95) formats like `getFormattedDate(d)` (the grid's call, Days.tsx line 44); both are written `format(d, None)`, because `getFormattedDate` lives in the provider, which is not part of this model.
- The machine keeps one `popupEl` and one `contains` relation for a whole run. `popupEl` stands for every node the popup is mounted as. In the source the popup unmounts on each close and mounts a fresh node on each open (DatePicker.tsx line 69), and its contents re-render between events. `contains` is taken as fixed between events.
- `DatePickerPopup` is not part of this model. It is assumed to attach the popup ref to its root element whenever it is rendered.
- Focus and click handling inside caller-supplied children is the caller's code, so it is not modelled.
- JSX markup, `twMerge` class composition, theme class names, the calendar icon and the outer `DatePicker` wrapper (DatePicker.tsx lines 19-27) are presentational.
