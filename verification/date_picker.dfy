/** The root widget (src/Components/DatePicker.tsx): option merging, the
    text input's defaults and displayed value, the popup's visibility, and the
    open/closed machine driven by focus and document-wide mousedown events.

    DOM nodes are values of an opaque type `N`; `Node.contains` is an opaque
    parameter `contains(container, target)`. */
module DatePicker {
  import opened Optional
  import opened Dates
  import opened DayGrid

  /** `{ ...defaultOptions, ...customOptions }`: every key of either object,
      the custom value winning where both have one. An options object is a
      map from option name to value; spreading `undefined` adds nothing, and
      a key the caller set, even to `undefined`, still overrides. */
  function MergeOptions<K, V>(defaults: map<K, V>, custom: Option<map<K, V>>): (m: map<K, V>)
    ensures m.Keys == defaults.Keys + custom.GetOr(map[]).Keys
    ensures forall k :: k in custom.GetOr(map[]) ==> m[k] == custom.value[k]
    ensures forall k :: k in defaults && k !in custom.GetOr(map[]) ==> m[k] == defaults[k]
  {
    defaults + custom.GetOr(map[])
  }

  /** Merging the same overrides a second time changes nothing. */
  lemma MergeOptionsIdempotent<K, V>(defaults: map<K, V>, custom: Option<map<K, V>>)
    ensures MergeOptions(MergeOptions(defaults, custom), custom) == MergeOptions(defaults, custom)
  {
  }

  /** JavaScript's `s || fallback` on an optional string: an absent or empty
      string is falsy and gives way to the fallback. */
  function OrElse(s: Option<string>, fallback: string): (r: string)
    ensures s.Some? && s.value != "" ==> r == s.value
    ensures s.None? || s.value == "" ==> r == fallback
  {
    if s.Some? && s.value != "" then s.value else fallback
  }

  /** The props the widget hands to its default text input. `F` is the
      (opaque) date-format specification. */
  datatype InputProps<F> = InputProps(
    idProp: Option<string>,
    valueProp: Option<Instant>,
    nameProp: Option<string>,
    placeholderProp: Option<string>,
    dateFormat: Option<F>)

  /** The input's `name`: the configured one, else "date". Never empty. */
  function InputName<F>(p: InputProps<F>): (r: string)
    ensures r != ""
    ensures r == "date" <==> p.nameProp.None? || p.nameProp.value in {"", "date"}
    ensures r != "date" ==> p.nameProp == Some(r)
  {
    OrElse(p.nameProp, "date")
  }

  /** The input's `id`: the configured one, else the effective name. */
  function InputId<F>(p: InputProps<F>): (r: string)
    ensures r != ""
    ensures p.idProp.Some? && p.idProp.value != "" ==> r == p.idProp.value
    ensures p.idProp.None? || p.idProp.value == "" ==> r == InputName(p)
  {
    OrElse(p.idProp, InputName(p))
  }

  /** The input's `placeholder`: the configured one, else "Select Date". */
  function InputPlaceholder<F>(p: InputProps<F>): (r: string)
    ensures r != ""
    ensures r == "Select Date" <==> p.placeholderProp.None? || p.placeholderProp.value in {"", "Select Date"}
    ensures r != "Select Date" ==> p.placeholderProp == Some(r)
  {
    OrElse(p.placeholderProp, "Select Date")
  }

  /** The text shown in the input. A `Date` object is always truthy, so a
      present `valueProp` wins; otherwise the shared selection shows when its
      display is switched on; otherwise the input is empty. */
  function InputValue<F>(p: InputProps<F>, selected: Instant, showSelected: bool,
                         format: (Instant, Option<F>) -> string): (r: string)
    ensures p.valueProp.Some? ==> r == format(p.valueProp.value, p.dateFormat)
    ensures p.valueProp.None? && showSelected ==> r == format(selected, p.dateFormat)
    ensures p.valueProp.None? && !showSelected ==> r == ""
  {
    match p.valueProp
    case Some(v) => format(v, p.dateFormat)
    case None => if showSelected then format(selected, p.dateFormat) else ""
  }

  /** With no explicit value, the input shows the same text as the grid's
      selected cell, when both format without a custom date format. */
  lemma InputMatchesSelectedCell<F>(p: InputProps<F>, start: Instant, selected: Instant, showSelected: bool,
                                    available: Instant -> bool, format: (Instant, Option<F>) -> string, i: nat)
    requires p.valueProp.None? && p.dateFormat.None?
    requires i < GridSize
    requires Grid(start, selected, showSelected, available, x => format(x, None))[i].kind == Selected
    ensures InputValue(p, selected, showSelected, format) == format(AddDays(start, i), None)
  {
  }

  /** What the widget renders in place of the trigger: the caller's own
      children, or the default text input with its resolved attributes. */
  datatype TriggerView = Children | TextInput(name: string, id: string, placeholder: string, value: string)

  datatype View = View(trigger: TriggerView, popupShown: bool)

  /** The widget's state: `show`, whether the caller supplied (truthy)
      children, which replace the default input, and
      the DOM elements the input and the popup are mounted as. */
  datatype Widget<N> = Widget(show: bool, customTrigger: bool, inputEl: N, popupEl: N)

  function Render<N, F>(w: Widget<N>, p: InputProps<F>, selected: Instant, showSelected: bool,
                        format: (Instant, Option<F>) -> string): (v: View)
    ensures v.popupShown <==> w.show
    ensures v.trigger.Children? <==> w.customTrigger
    ensures v.trigger.TextInput? ==>
              v.trigger == TextInput(InputName(p), InputId(p), InputPlaceholder(p),
                                     InputValue(p, selected, showSelected, format))
  {
    var trigger :=
      if w.customTrigger then Children
      else TextInput(InputName(p), InputId(p), InputPlaceholder(p), InputValue(p, selected, showSelected, format));
    View(trigger, w.show)
  }

  /** `InputRef.current`: attached only when the default input is rendered. */
  function InputRef<N>(w: Widget<N>): (r: Option<N>)
    ensures r.Some? <==> !w.customTrigger
  {
    if w.customTrigger then None else Some(w.inputEl)
  }

  /** `DatePickerRef.current`: attached only while the popup is rendered. */
  function PopupRef<N>(w: Widget<N>): (r: Option<N>)
    ensures r.Some? <==> w.show
  {
    if w.show then Some(w.popupEl) else None
  }

  /** `handleClickOutside`: the argument passed to `setShow`, or None when it
      is not called. It is called, with false, only when both refs are
      attached and neither contains the event target. */
  function ClickOutside<N>(inputRef: Option<N>, popupRef: Option<N>, target: N,
                           contains: (N, N) -> bool): (r: Option<bool>)
    ensures inputRef.None? || popupRef.None? ==> r.None?
    ensures inputRef.Some? && contains(inputRef.value, target) ==> r.None?
    ensures popupRef.Some? && contains(popupRef.value, target) ==> r.None?
    ensures r.Some? ==> r.value == false
    ensures r.None? ==> inputRef.None? || popupRef.None?
                        || contains(inputRef.value, target) || contains(popupRef.value, target)
  {
    if !(inputRef.Some? && popupRef.Some?) then None
    else if !contains(inputRef.value, target) && !contains(popupRef.value, target) then Some(false)
    else None
  }

  datatype Event<N> = Focus | MouseDown(target: N)

  /** One event. Focusing the default input calls `setShow(true)`; with
      caller-supplied children there is no input to focus. A mousedown
      anywhere runs `handleClickOutside`. */
  function Step<N>(w: Widget<N>, e: Event<N>, contains: (N, N) -> bool): (w': Widget<N>)
    ensures w'.customTrigger == w.customTrigger && w'.inputEl == w.inputEl && w'.popupEl == w.popupEl
    ensures e.Focus? ==> w'.show == (!w.customTrigger || w.show)
    ensures e.MouseDown? && !w.show ==> !w'.show
    ensures e.MouseDown? && w.customTrigger ==> w'.show == w.show
    ensures e.MouseDown? && !w.customTrigger ==>
              (w'.show <==> w.show && (contains(w.inputEl, e.target) || contains(w.popupEl, e.target)))
  {
    match e
    case Focus =>
      if w.customTrigger then w else w.(show := true)
    case MouseDown(t) =>
      match ClickOutside(InputRef(w), PopupRef(w), t, contains)
      case Some(b) => w.(show := b)
      case None => w
  }

  /** The widget after a sequence of events, oldest first. */
  function Run<N>(w: Widget<N>, events: seq<Event<N>>, contains: (N, N) -> bool): (w': Widget<N>)
    ensures |events| == 0 ==> w' == w
    ensures w'.customTrigger == w.customTrigger && w'.inputEl == w.inputEl && w'.popupEl == w.popupEl
    decreases |events|
  {
    if |events| == 0 then w
    else Step(Run(w, events[..|events| - 1], contains), events[|events| - 1], contains)
  }

  /** How an event settles `show` for the default input, independent of the
      state it meets: focus opens, a mousedown outside both elements closes
      (or keeps closed), a mousedown inside either settles nothing. */
  function Verdict<N>(w: Widget<N>, e: Event<N>, contains: (N, N) -> bool): Option<bool> {
    match e
    case Focus => Some(true)
    case MouseDown(t) =>
      if contains(w.inputEl, t) || contains(w.popupEl, t) then None else Some(false)
  }

  /** The verdict of the latest event that has one, if any. */
  function LastVerdict<N>(w: Widget<N>, events: seq<Event<N>>, contains: (N, N) -> bool): Option<bool>
    decreases |events|
  {
    if |events| == 0 then None
    else match Verdict(w, events[|events| - 1], contains)
      case Some(b) => Some(b)
      case None => LastVerdict(w, events[..|events| - 1], contains)
  }

  /** With the default input, the popup is open after any run of events
      exactly when the latest settling event was a focus, or, if no event
      settled it, when it was open to begin with. */
  lemma {:induction false} RunFollowsLastVerdict<N>(w: Widget<N>, events: seq<Event<N>>, contains: (N, N) -> bool)
    requires !w.customTrigger
    ensures Run(w, events, contains).show == LastVerdict(w, events, contains).GetOr(w.show)
    ensures Run(w, events, contains).inputEl == w.inputEl && Run(w, events, contains).popupEl == w.popupEl
    ensures !Run(w, events, contains).customTrigger
    decreases |events|
  {
    if |events| > 0 {
      RunFollowsLastVerdict(w, events[..|events| - 1], contains);
    }
  }

  /** With caller-supplied children the input ref is never attached, so no
      event ever changes `show`: outside clicks do not close the popup. */
  lemma {:induction false} CustomTriggerNeverToggles<N>(w: Widget<N>, events: seq<Event<N>>, contains: (N, N) -> bool)
    requires w.customTrigger
    ensures Run(w, events, contains) == w
    decreases |events|
  {
    if |events| > 0 {
      CustomTriggerNeverToggles(w, events[..|events| - 1], contains);
    }
  }

  /** Clicking into the closed input (mousedown on it, then focus) opens
      the popup. */
  lemma ClickIntoInputOpens<N>(w: Widget<N>, target: N, contains: (N, N) -> bool)
    requires !w.customTrigger
    requires contains(w.inputEl, target)
    ensures Run(w, [MouseDown(target), Focus], contains).show
  {
  }
}
