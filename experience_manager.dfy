/**
 * The experience list of the admin dashboard: drag reordering of the stored list, the
 * month/year duration shown on each card, and the search, portfolio and employment filters.
 */
module ExperienceManager {
  import opened Wrappers
  import opened JsText
  import Lists
  import opened Dashboard

  /** The fields of an experience record that the list logic reads. */
  datatype Experience = Experience(
    id: string,
    company: string,
    position: string,
    employmentType: string,
    portfolioType: string,
    current: bool)

  /** The three filter inputs: a search term and two drop-downs whose "show everything" value is "all". */
  datatype ExperienceFilters = ExperienceFilters(searchTerm: string, portfolio: string, employment: string)

  const NoFilters := ExperienceFilters("", "all", "all")

  // ---------------------------------------------------------------- duration

  /** A calendar month as `Date` reports it: the full year and `getMonth()`, 0 for January. */
  datatype YearMonth = YearMonth(year: int, month: int)

  /** The number of months from the start of year 0 to the start of `m`. */
  function MonthIndex(m: YearMonth): int {
    m.year * 12 + m.month
  }

  /**
   * `(end.getFullYear() - start.getFullYear()) * 12 + end.getMonth() - start.getMonth()`: the
   * months from `start` to `end`, negative when `end` comes first.
   */
  function MonthsBetween(start: YearMonth, end: YearMonth): (months: int)
    ensures MonthIndex(start) + months == MonthIndex(end)
  {
    (end.year - start.year) * 12 + end.month - start.month
  }

  /** A count followed by its unit, in the singular exactly when the count is 1. */
  function CountOf(n: int, unit: string, units: string): string {
    IntToString(n) + " " + (if n == 1 then unit else units)
  }

  /**
   * The card's text for `years` whole years and `rest` more months: "Yy Rm" when both are
   * positive, otherwise the years alone when there are any, otherwise the months alone.
   */
  function SpanText(years: int, rest: int): string {
    if years > 0 && rest > 0 then IntToString(years) + "y " + IntToString(rest) + "m"
    else if years > 0 then CountOf(years, "year", "years")
    else CountOf(rest, "month", "months")
  }

  /** For a span that does not run backwards, the years and the leftover months add up to it. */
  lemma DurationSplitsMonths(months: int)
    requires months >= 0
    ensures var years := months / 12; var rest := JsRemainder(months, 12);
      years >= 0 && 0 <= rest < 12 && years * 12 + rest == months
  {
  }

  /**
   * The duration text for a span of `months`, with whole years by `Math.floor(months / 12)`
   * and the rest by the truncating `months % 12`: a span of `years` years and `rest` < 12 more
   * months shows exactly those two numbers; a backwards span shows its signed remainder.
   */
  function DurationText(months: int): (r: string)
    ensures forall years: nat, rest: nat :: rest < 12 && years * 12 + rest == months ==> r == SpanText(years, rest)
    ensures months < 0 ==> r == CountOf(JsRemainder(months, 12), "month", "months")
  {
    if months >= 0 then
      DurationSplitsMonths(months);
      SpanText(months / 12, JsRemainder(months, 12))
    else SpanText(months / 12, JsRemainder(months, 12))
  }

  /**
   * `calculateDuration`: a position that lasted `years` years and `rest` < 12 more months,
   * up to `today` when it is ongoing and up to its end otherwise, shows exactly those numbers.
   */
  function CalculateDuration(start: YearMonth, end: YearMonth, current: bool, today: YearMonth): (r: string)
    ensures var stop := if current then today else end;
      forall years: nat, rest: nat :: rest < 12 && MonthIndex(start) + years * 12 + rest == MonthIndex(stop) ==>
        r == SpanText(years, rest)
  {
    DurationText(MonthsBetween(start, if current then today else end))
  }

  /** An ongoing position's duration does not depend on the stored end month. */
  lemma CurrentIgnoresEnd(start: YearMonth, end1: YearMonth, end2: YearMonth, today: YearMonth)
    ensures CalculateDuration(start, end1, true, today) == CalculateDuration(start, end2, true, today)
      == DurationText(MonthsBetween(start, today))
  {
  }

  /**
   * An end month before the start month gives a negative span; the truncating `%` then keeps
   * the sign, so the card shows a count of months that is zero or negative.
   */
  lemma BackwardsSpanShowsMonths(months: int)
    requires months < 0
    ensures var rest := JsRemainder(months, 12);
      -12 < rest <= 0 && DurationText(months) == IntToString(rest) + " months"
  {
  }

  // ---------------------------------------------------------------- filters

  /** The search term occurs, ignoring ASCII case, in the company or in the position. */
  predicate MatchesSearch(e: Experience, term: string) {
    MatchesText(e.company, term) || MatchesText(e.position, term)
  }

  predicate MatchesEmployment(e: Experience, filter: string) {
    filter == "all" || e.employmentType == filter
  }

  predicate Shown(e: Experience, f: ExperienceFilters) {
    MatchesSearch(e, f.searchTerm) && MatchesPortfolio(e.portfolioType, f.portfolio)
    && MatchesEmployment(e, f.employment)
  }

  /** `filteredExperiences`: the experiences the three filters let through, in stored order. */
  function FilteredExperiences(xs: seq<Experience>, f: ExperienceFilters): (r: seq<Experience>)
    ensures forall e :: e in r <==> e in xs && Shown(e, f)
    ensures |r| <= |xs|
  {
    Lists.Filter(xs, e => Shown(e, f))
  }

  /** With an empty search and both drop-downs on "all", every experience is listed, in order. */
  lemma NoFiltersShowAll(xs: seq<Experience>)
    ensures FilteredExperiences(xs, NoFilters) == xs
  {
    forall i | 0 <= i < |xs| ensures Shown(xs[i], NoFilters) {
      EmptyTermMatches(xs[i].company);
    }
    Lists.FilterKeepsAll(xs, e => Shown(e, NoFilters));
  }

  /** The search ignores case: a term and its lower-case form select the same experiences. */
  lemma SearchIgnoresCaseForExperience(e: Experience, term: string)
    ensures MatchesSearch(e, ToLower(term)) == MatchesSearch(e, term)
  {
    SearchIgnoresCase(e.company, term);
    SearchIgnoresCase(e.position, term);
  }

  // ---------------------------------------------------------------- the component

  /** The experience list's component state. */
  class ExperienceList {
    var experiences: seq<Experience>
    var filters: ExperienceFilters

    constructor ()
      ensures experiences == [] && filters == NoFilters
    {
      experiences := [];
      filters := NoFilters;
    }

    /** What the list on screen shows. */
    function Visible(): seq<Experience>
      reads this
    {
      FilteredExperiences(experiences, filters)
    }

    /**
     * `handleDragEnd`: without a destination nothing changes; otherwise the item at the source
     * index of the stored list is taken out and put back at the destination index. The indices
     * are those of the visible list, which the drag library keeps within its length.
     */
    method HandleDragEnd(result: DragResult)
      modifies this
      requires result.source < |Visible()|
      requires result.destination.Some? ==> result.destination.value < |Visible()|
      ensures result.destination.None? ==> experiences == old(experiences)
      ensures result.destination.Some? ==>
        experiences == Lists.Move(old(experiences), result.source, result.destination.value)
      ensures filters == old(filters)
    {
      if result.destination.None? {
        return;
      }
      var items := experiences;
      var item := items[result.source];
      items := Lists.RemoveIndex(items, result.source);
      var to := result.destination.value;
      items := items[..to] + [item] + items[to..];
      experiences := items;
    }
  }

  /** A drag keeps exactly the experiences there were, each as often as before. */
  lemma DragIsPermutation(xs: seq<Experience>, from: nat, to: nat)
    requires from < |xs| && to < |xs|
    ensures |Lists.Move(xs, from, to)| == |xs| && Lists.Move(xs, from, to)[to] == xs[from]
    ensures multiset(Lists.Move(xs, from, to)) == multiset(xs)
  {
    Lists.MoveIsPermutation(xs, from, to);
  }

  /** Filtering three items of which only the first is dropped, in two orders. */
  lemma FilterDropsFirstOfThree<T>(x: T, y: T, z: T, p: T -> bool)
    requires !p(x) && p(y) && p(z)
    ensures Lists.Filter([x, y, z], p) == [y, z]
    ensures Lists.Filter([y, x, z], p) == [y, z]
  {
    assert [x, y, z][1..] == [y, z];
    assert [y, z][1..] == [z];
    assert [y, x, z][1..] == [x, z];
    assert [x, z][1..] == [z];
    assert [z][1..] == [];
  }

  /** Dragging the first of three items one place down swaps the first two. */
  lemma MoveFirstOfThree<T>(x: T, y: T, z: T)
    ensures Lists.Move([x, y, z], 0, 1) == [y, x, z]
  {
    var rest := Lists.RemoveIndex([x, y, z], 0);
    assert rest == [y, z];
    assert rest[..1] == [y] && rest[1..] == [z];
  }

  /**
   * The drag indices are positions in the visible list but are applied to the stored one: when
   * the first stored experience is hidden, dragging the first visible card below the second
   * moves the hidden experience instead, and the visible order does not change.
   * `ExampleVisibility` shows such a list.
   */
  lemma FilteredDragMovesHiddenItem(hidden: Experience, b: Experience, c: Experience, f: ExperienceFilters)
    requires !Shown(hidden, f) && Shown(b, f) && Shown(c, f)
    ensures FilteredExperiences([hidden, b, c], f) == [b, c]
    ensures Lists.Move([hidden, b, c], 0, 1) == [b, hidden, c]
    ensures FilteredExperiences(Lists.Move([hidden, b, c], 0, 1), f) == [b, c]
  {
    FilterDropsFirstOfThree(hidden, b, c, e => Shown(e, f));
    MoveFirstOfThree(hidden, b, c);
  }

  // A stored list whose first experience the employment filter hides.
  const HiddenExample := Experience("1", "Acme", "Developer", "Full-time", "all", false)
  const FirstExample := Experience("2", "Beta", "Intern", "Internship", "all", false)
  const SecondExample := Experience("3", "Core", "Intern", "Internship", "developer", false)
  const InternshipsOnly := ExperienceFilters("", "all", "Internship")

  /** The three experiences above meet the premise of `FilteredDragMovesHiddenItem`. */
  lemma ExampleVisibility()
    ensures !Shown(HiddenExample, InternshipsOnly)
    ensures Shown(FirstExample, InternshipsOnly) && Shown(SecondExample, InternshipsOnly)
  {
    EmptyTermMatches(FirstExample.company);
    EmptyTermMatches(SecondExample.company);
  }
}
