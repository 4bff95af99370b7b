/** The 42 day cells of the month view (src/Components/Views/Days.tsx,
    lines 27-66) and how each is classified and what clicking it does.

    The availability check (`changeSelectedDate("check-availability", d)`)
    and the date formatter (`getFormattedDate(d)` with its default options)
    come from the surrounding context; here they are opaque parameters. */
module DayGrid {
  import opened Optional
  import opened Dates

  /** Six full weeks. */
  const GridSize: nat := 42

  datatype CellKind = Disabled | Selected | Selectable

  /** One rendered `<button>`: its date, its class, the date its `onClick`
      handler would pass to `changeSelectedDate("date", ·)` (None when the
      button has no handler) and its HTML `disabled` attribute. */
  datatype Cell = Cell(date: Instant, kind: CellKind, onClick: Option<Instant>, disabledAttr: bool)

  /** The selection is displayed on a cell when display is switched on, the
      selection is set (a timestamp after the epoch) and both format alike. */
  predicate ShowsSelection(selected: Instant, showSelected: bool, format: Instant -> string, current: Instant): (r: bool)
    ensures r ==> format(selected) == format(current)
    ensures !showSelected || selected <= 0 ==> !r
    ensures showSelected && selected > 0 && format(selected) == format(current) ==> r
  {
    showSelected && selected > 0 && format(selected) == format(current)
  }

  /** The button rendered for the day `current`. */
  function MakeCell(current: Instant, selected: Instant, showSelected: bool,
                    available: Instant -> bool, format: Instant -> string): (c: Cell)
    ensures c.date == current
    ensures c.kind == Disabled <==> !available(current)
    ensures c.kind == Selected <==> available(current) && ShowsSelection(selected, showSelected, format, current)
    ensures c.onClick.None? <==> c.kind == Disabled
    ensures c.onClick.Some? ==> c.onClick.value == current
    ensures c.disabledAttr <==> c.kind == Selected
  {
    if !available(current) then
      Cell(current, Disabled, None, false)
    else if ShowsSelection(selected, showSelected, format, current) then
      Cell(current, Selected, Some(current), true)
    else
      Cell(current, Selectable, Some(current), false)
  }

  /** The grid: cell `i` is the day `addDays(start, i)`. */
  function Grid(start: Instant, selected: Instant, showSelected: bool,
                available: Instant -> bool, format: Instant -> string): (g: seq<Cell>)
    ensures |g| == GridSize
    ensures forall i :: 0 <= i < |g| ==> g[i].date == AddDays(start, i)
    ensures forall i :: 0 <= i < |g| - 1 ==> DayNumber(g[i + 1].date) == DayNumber(g[i].date) + 1
    ensures forall i, j :: 0 <= i < j < |g| ==> g[i].date < g[j].date
  {
    seq(GridSize, i requires 0 <= i < GridSize =>
      MakeCell(AddDays(start, i), selected, showSelected, available, format))
  }

  /** What a click on a button does: the date handed to
      `changeSelectedDate("date", ·)`, or None. A browser does not deliver
      clicks to a `disabled` button. */
  function Click(c: Cell): (d: Option<Instant>)
    ensures c.disabledAttr ==> d.None?
    ensures !c.disabledAttr ==> d == c.onClick
  {
    if c.disabledAttr then None else c.onClick
  }

  /** Clicking cell `i` of the rendered grid. Only a selectable cell reacts,
      and it selects its own day. */
  function ClickCell(start: Instant, selected: Instant, showSelected: bool,
                     available: Instant -> bool, format: Instant -> string, i: nat): (d: Option<Instant>)
    requires i < GridSize
    ensures d.Some? <==> Grid(start, selected, showSelected, available, format)[i].kind == Selectable
    ensures d.Some? <==> available(AddDays(start, i)) && !ShowsSelection(selected, showSelected, format, AddDays(start, i))
    ensures d.Some? ==> d.value == AddDays(start, i)
  {
    Click(Grid(start, selected, showSelected, available, format)[i])
  }

  /** An unavailable day is shown disabled even when it is the selected day. */
  lemma DisabledWinsOverSelected(start: Instant, selected: Instant, showSelected: bool,
                                 available: Instant -> bool, format: Instant -> string, i: nat)
    requires i < GridSize
    requires !available(AddDays(start, i))
    ensures Grid(start, selected, showSelected, available, format)[i].kind == Disabled
  {
  }

  /** The formatter tells calendar days apart and nothing finer, as the
      default date-only format does. */
  ghost predicate FormatsCalendarDay(format: Instant -> string) {
    forall a: Instant, b: Instant :: format(a) == format(b) <==> DayNumber(a) == DayNumber(b)
  }

  /** With a calendar-day formatter, a cell is shown selected exactly when it
      is available, the selection is displayed and set, and the selection
      falls on that cell's day. */
  lemma SelectedIsSelectionDay(start: Instant, selected: Instant, showSelected: bool,
                               available: Instant -> bool, format: Instant -> string, i: nat)
    requires FormatsCalendarDay(format)
    requires i < GridSize
    ensures Grid(start, selected, showSelected, available, format)[i].kind == Selected
            <==> available(AddDays(start, i)) && showSelected && selected > 0
                 && DayNumber(selected) == DayNumber(start) + i
  {
  }

  /** At most one cell of a grid is shown selected. */
  lemma AtMostOneSelected(start: Instant, selected: Instant, showSelected: bool,
                          available: Instant -> bool, format: Instant -> string, i: nat, j: nat)
    requires FormatsCalendarDay(format)
    requires i < GridSize && j < GridSize
    requires Grid(start, selected, showSelected, available, format)[i].kind == Selected
    requires Grid(start, selected, showSelected, available, format)[j].kind == Selected
    ensures i == j
  {
  }

  /** A displayed selection inside the six-week window lands on the cell of
      its own day, which shows it unless that day is unavailable. */
  lemma SelectionInWindowIsShown(start: Instant, selected: Instant,
                                 available: Instant -> bool, format: Instant -> string)
    requires FormatsCalendarDay(format)
    requires selected > 0
    requires DayNumber(start) <= DayNumber(selected) < DayNumber(start) + GridSize
    ensures var i := DayNumber(selected) - DayNumber(start);
            Grid(start, selected, true, available, format)[i].kind
              == (if available(AddDays(start, i)) then Selected else Disabled)
  {
  }

  /** The grid depends on the selection only through its formatted value:
      re-rendering with a selection that formats alike gives the same cells. */
  lemma GridDependsOnFormattedSelection(start: Instant, s1: Instant, s2: Instant, showSelected: bool,
                                        available: Instant -> bool, format: Instant -> string)
    requires s1 > 0 <==> s2 > 0
    requires format(s1) == format(s2)
    ensures Grid(start, s1, showSelected, available, format) == Grid(start, s2, showSelected, available, format)
  {
  }

  /** The grid consults the availability check only on its own 42 days. */
  lemma GridDependsOnWindowAvailability(start: Instant, selected: Instant, showSelected: bool,
                                        av1: Instant -> bool, av2: Instant -> bool, format: Instant -> string)
    requires forall i :: 0 <= i < GridSize ==> av1(AddDays(start, i)) == av2(AddDays(start, i))
    ensures Grid(start, selected, showSelected, av1, format) == Grid(start, selected, showSelected, av2, format)
  {
  }
}
