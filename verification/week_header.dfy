/** The weekday header row of the month view (src/Components/Views/Days.tsx,
    lines 13-15): the configured labels rotated so that the column of the
    grid's first cell comes first. */
module WeekHeader {
  import opened Optional
  import opened Dates

  /** `xs.slice(k)`: JavaScript clamps a start past the end to the empty tail. */
  function SliceFrom<T>(xs: seq<T>, k: nat): (r: seq<T>)
    ensures k <= |xs| ==> r == xs[k..]
    ensures k >= |xs| ==> r == []
  {
    if k <= |xs| then xs[k..] else []
  }

  /** `xs.slice(0, k)`: an end past the end of the array takes the whole array. */
  function SliceTo<T>(xs: seq<T>, k: nat): (r: seq<T>)
    ensures k <= |xs| ==> r == xs[..k]
    ensures k >= |xs| ==> r == xs
  {
    if k <= |xs| then xs[..k] else xs
  }

  /** `xs.slice(k).concat(xs.slice(0, k))`: a left rotation by `k` places,
      which leaves `xs` as it is when `k` reaches past its end. */
  function Rotate<T>(xs: seq<T>, k: nat): (r: seq<T>)
    ensures |r| == |xs|
    ensures multiset(r) == multiset(xs)
    ensures k >= |xs| ==> r == xs
  {
    assert k <= |xs| ==> xs == xs[..k] + xs[k..];
    SliceFrom(xs, k) + SliceTo(xs, k)
  }

  /** Element `i` of the rotation is element `i + k` of the input, counted
      round the end. */
  lemma RotateIndex<T>(xs: seq<T>, k: nat, i: int)
    requires k <= |xs|
    requires 0 <= i < |xs|
    ensures Rotate(xs, k)[i] == xs[(i + k) % |xs|]
  {
    var n := |xs|;
    if i < n - k {
      ModUnique(i + k, n, 0, i + k);
    } else {
      ModUnique(i + k, n, 1, i + k - n);
    }
  }

  /** Euclidean remainder is determined by any quotient/remainder split. */
  lemma ModUnique(a: int, n: int, q: int, r: int)
    requires 0 <= r < n
    requires a == q * n + r
    ensures a % n == r
  {
    var d := q - a / n;
    assert d * n == a % n - r;
  }

  /** Adding whole multiples of `n` leaves the remainder unchanged. */
  lemma ModAddMultiple(a: int, q: int, n: int)
    requires 0 < n
    ensures (a + q * n) % n == a % n
  {
    ModUnique(a + q * n, n, a / n + q, a % n);
  }

  /** Rotating back by the remaining `|xs| - k` places restores the labels. */
  lemma RotateInverse<T>(xs: seq<T>, k: nat)
    requires k <= |xs|
    ensures Rotate(Rotate(xs, k), |xs| - k) == xs
  {
    var ys := Rotate(xs, k);
    assert ys == xs[k..] + xs[..k];
    assert ys[|xs| - k..] == xs[..k];
    assert ys[..|xs| - k] == xs[k..];
    assert xs == xs[..k] + xs[k..];
  }

  /** `startOfWeek`: how many days the given instant lies after the most
      recent Monday, i.e. its weekday counted from Monday = 0. */
  function StartOfWeek(start: Instant): (k: nat)
    ensures k < 7
    ensures Weekday(start) == (k + 1) % 7
  {
    (Weekday(start) + 6) % 7
  }

  /** The labels actually shown, `options.weekDays || []` rotated by
      `StartOfWeek(start)`. */
  function Header(weekDays: Option<seq<string>>, start: Instant): (r: seq<string>)
    ensures weekDays.None? ==> r == []
    ensures weekDays.Some? ==> |r| == |weekDays.value|
    ensures weekDays.Some? ==> multiset(r) == multiset(weekDays.value)
  {
    Rotate(weekDays.GetOr([]), StartOfWeek(start))
  }

  /** A grid starting on a Monday shows the labels in their configured order. */
  lemma MondayStartKeepsOrder(labels: seq<string>, start: Instant)
    requires Weekday(start) == 1
    ensures Header(Some(labels), start) == labels
  {
  }

  /** For seven labels, header column `i` shows label `(i + startOfWeek) mod 7`. */
  lemma HeaderIndex(labels: seq<string>, start: Instant, i: int)
    requires |labels| == 7
    requires 0 <= i < 7
    ensures Header(Some(labels), start)[i] == labels[(i + StartOfWeek(start)) % 7]
  {
    RotateIndex(labels, StartOfWeek(start), i);
  }

  /** Moving `n` days on moves `startOfWeek` `n` places round the week. */
  lemma StartOfWeekAddDays(start: Instant, n: int)
    ensures StartOfWeek(AddDays(start, n)) == (StartOfWeek(start) + n) % 7
  {
    var w := Weekday(start);
    WeekdayAddDays(start, n);
    ModAddMultiple(w + 6 + n, -((w + n) / 7), 7);
    ModAddMultiple((w + 6) % 7 + n, (w + 6) / 7, 7);
  }

  /** With Monday-first labels, the header column of the cell `n` days after
      `start` (column `n mod 7` of the seven-wide grid) names that cell's
      weekday, in every row of the grid. */
  lemma HeaderNamesCellWeekday(labels: seq<string>, start: Instant, n: nat)
    requires |labels| == 7
    ensures Header(Some(labels), start)[n % 7] == labels[StartOfWeek(AddDays(start, n))]
  {
    var k := StartOfWeek(start);
    HeaderIndex(labels, start, n % 7);
    StartOfWeekAddDays(start, n);
    ModAddMultiple(n % 7 + k, n / 7, 7);
  }
}
