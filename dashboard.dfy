/**
 * Pieces the dashboard's list managers share: the case-insensitive text search, the portfolio
 * drop-down whose value "all" shows everything, and the result a drag reports.
 */
module Dashboard {
  import opened Wrappers
  import opened JsText

  /** What the drag library reports at the end of a drag; no destination when dropped outside the list. */
  datatype DragResult = DragResult(source: nat, destination: Option<nat>)

  /**
   * `field.toLowerCase().includes(term.toLowerCase())`: the lower-cased term occurs at some
   * position of the lower-cased field.
   */
  function MatchesText(field: string, term: string): (r: bool)
    ensures r <==> exists k: nat :: OccursAt(ToLower(field), ToLower(term), k)
  {
    Contains(ToLower(field), ToLower(term))
  }

  /** A filter of "all" shows every item, and an item for "all" portfolios shows under every filter. */
  predicate MatchesPortfolio(portfolioType: string, filter: string) {
    filter == "all" || portfolioType == filter || portfolioType == "all"
  }

  /** The empty search term matches every field. */
  lemma EmptyTermMatches(field: string)
    ensures MatchesText(field, "")
  {
    assert ToLower("") == "";
    assert OccursAt(ToLower(field), "", 0);
  }

  /** Lower-casing twice is lower-casing once. */
  lemma ToLowerIdempotent(s: string)
    ensures ToLower(ToLower(s)) == ToLower(s)
  {
    forall i | 0 <= i < |s| ensures ToLower(ToLower(s))[i] == ToLower(s)[i] {
      assert LowerChar(LowerChar(s[i])) == LowerChar(s[i]);
    }
  }

  /** The search ignores case: a term and its lower-case form match the same fields. */
  lemma SearchIgnoresCase(field: string, term: string)
    ensures MatchesText(field, ToLower(term)) == MatchesText(field, term)
  {
    ToLowerIdempotent(term);
  }
}
