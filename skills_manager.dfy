/**
 * The skills list of the admin dashboard: skills kept sorted by their `order`, the statistics
 * counted over the list, the search, category and portfolio filters, drag reordering with
 * renumbering, and the colour of each category's badge.
 */
module SkillsManager {
  import opened Wrappers
  import opened JsText
  import Lists
  import opened Dashboard

  /** The fields of a skill record that the list logic reads. */
  datatype Skill = Skill(
    id: string,
    name: string,
    category: string,
    portfolioType: string,
    order: int,
    isVisible: bool)

  /** The search term and the two drop-downs; "all" shows everything. */
  datatype SkillFilters = SkillFilters(searchTerm: string, category: string, portfolio: string)

  const NoFilters := SkillFilters("", "all", "all")

  // ---------------------------------------------------------------- sorting by order

  predicate SortedByOrder(xs: seq<Skill>) {
    forall i, j :: 0 <= i < j < |xs| ==> xs[i].order <= xs[j].order
  }

  /** `x` placed before the first skill of the list whose order is not below its own. */
  function Insert(x: Skill, ys: seq<Skill>): (r: seq<Skill>)
    ensures |r| == |ys| + 1
    ensures multiset(r) == multiset(ys) + multiset{x}
  {
    if ys == [] || x.order <= ys[0].order then [x] + ys
    else
      assert ys == [ys[0]] + ys[1..];
      [ys[0]] + Insert(x, ys[1..])
  }

  /** Inserting into a sorted list keeps it sorted. */
  lemma {:induction false} InsertKeepsSorted(x: Skill, ys: seq<Skill>)
    requires SortedByOrder(ys)
    ensures SortedByOrder(Insert(x, ys))
  {
    if ys != [] && x.order > ys[0].order {
      var rest := Insert(x, ys[1..]);
      InsertKeepsSorted(x, ys[1..]);
      forall k | 0 <= k < |rest| ensures ys[0].order <= rest[k].order {
        assert rest[k] in multiset(ys[1..]) + multiset{x} by {
          assert rest[k] in multiset(rest);
        }
        if rest[k] != x {
          var j :| 0 <= j < |ys[1..]| && ys[1..][j] == rest[k];
          assert ys[j + 1] == rest[k];
        }
      }
    }
  }

  /**
   * `skills.sort((a, b) => a.order - b.order)`: the same skills, ascending by `order`. The
   * insertion below keeps skills of equal order in their relative order, as the stable
   * `Array.prototype.sort` does, but that stability is not proved.
   */
  function SortByOrder(xs: seq<Skill>): (r: seq<Skill>)
    ensures SortedByOrder(r)
    ensures multiset(r) == multiset(xs)
  {
    if xs == [] then []
    else
      assert xs == [xs[0]] + xs[1..];
      InsertKeepsSorted(xs[0], SortByOrder(xs[1..]));
      Insert(xs[0], SortByOrder(xs[1..]))
  }

  /** A list already sorted by order is left as it is. */
  lemma {:induction false} SortSortedIsIdentity(xs: seq<Skill>)
    requires SortedByOrder(xs)
    ensures SortByOrder(xs) == xs
  {
    if xs != [] {
      SortSortedIsIdentity(xs[1..]);
      assert xs[1..] == [] || xs[0].order <= xs[1..][0].order;
      assert xs == [xs[0]] + xs[1..];
    }
  }

  /** Sorting twice sorts once. */
  lemma SortIdempotent(xs: seq<Skill>)
    ensures SortByOrder(SortByOrder(xs)) == SortByOrder(xs)
  {
    SortSortedIsIdentity(SortByOrder(xs));
  }

  // ---------------------------------------------------------------- statistics

  const Categories := ["frontend", "backend", "database", "tools", "datascience", "ml", "design", "other"]
  const Portfolios := ["developer", "datascience", "ux"]

  function CategoryOf(s: Skill): string { s.category }
  function PortfolioOf(s: Skill): string { s.portfolioType }

  /** The skill's `key` field equals `v`. */
  function Having(key: Skill -> string, v: string): Skill -> bool {
    s => key(s) == v
  }

  /** The skill's `key` field is one of `vs`. */
  function HavingOneOf(key: Skill -> string, vs: seq<string>): Skill -> bool {
    s => key(s) in vs
  }

  /** `skills.filter(s => key(s) === v).length`. */
  function CountBy(skills: seq<Skill>, key: Skill -> string, v: string): (n: nat)
    ensures n == |Lists.Filter(skills, Having(key, v))|
    ensures n <= |skills|
  {
    Lists.CountIsFilterLength(skills, Having(key, v));
    Lists.Count(skills, Having(key, v))
  }

  /** The dashboard's statistics object. */
  datatype SkillStats = SkillStats(totalSkills: nat, byCategory: map<string, nat>, byPortfolio: map<string, nat>)

  /**
   * `stats`: the number of skills, and for each of the eight categories and the three
   * portfolios the number of skills that carry it.
   */
  function Stats(skills: seq<Skill>): (r: SkillStats)
    ensures r.totalSkills == |skills|
    ensures r.byCategory.Keys == set c | c in Categories
    ensures r.byPortfolio.Keys == set p | p in Portfolios
    ensures forall c :: c in r.byCategory ==> r.byCategory[c] == |Lists.Filter(skills, Having(CategoryOf, c))|
    ensures forall p :: p in r.byPortfolio ==> r.byPortfolio[p] == |Lists.Filter(skills, Having(PortfolioOf, p))|
  {
    SkillStats(
      |skills|,
      map c | c in Categories :: CountBy(skills, CategoryOf, c),
      map p | p in Portfolios :: CountBy(skills, PortfolioOf, p))
  }

  /** The counts for the values `vs`, added up. */
  function Tally(skills: seq<Skill>, key: Skill -> string, vs: seq<string>): nat {
    if vs == [] then 0 else CountBy(skills, key, vs[0]) + Tally(skills, key, vs[1..])
  }

  /** Over distinct values, the added counts count the skills carrying any one of them. */
  lemma {:induction false} TallyCountsMembers(skills: seq<Skill>, key: Skill -> string, vs: seq<string>)
    requires Lists.NoDuplicates(vs)
    ensures Tally(skills, key, vs) == Lists.Count(skills, HavingOneOf(key, vs))
  {
    if vs == [] {
      assert Lists.Count(skills, HavingOneOf(key, vs)) == 0;
    } else {
      Lists.NoDuplicatesTail(vs);
      TallyCountsMembers(skills, key, vs[1..]);
      CountOneOfSplits(skills, key, vs);
    }
  }

  /** The skills carrying one of `vs` are those carrying the first value and those carrying one of the rest. */
  lemma CountOneOfSplits(skills: seq<Skill>, key: Skill -> string, vs: seq<string>)
    requires vs != [] && vs[0] !in vs[1..]
    ensures Lists.Count(skills, HavingOneOf(key, vs))
      == CountBy(skills, key, vs[0]) + Lists.Count(skills, HavingOneOf(key, vs[1..]))
  {
    var rest := vs[1..];
    forall s ensures HavingOneOf(key, vs)(s) == (Having(key, vs[0])(s) || HavingOneOf(key, rest)(s)) {
      assert vs == [vs[0]] + rest;
    }
    Lists.CountDisjointUnion(skills, Having(key, vs[0]), HavingOneOf(key, rest), HavingOneOf(key, vs));
  }

  lemma CategoriesDistinct()
    ensures Lists.NoDuplicates(Categories)
  {
  }

  lemma PortfoliosDistinct()
    ensures Lists.NoDuplicates(Portfolios)
  {
  }

  /** A list-wide count reaches the length exactly when every skill's `key` field is one of `vs`. */
  lemma CountOneOfIsLength(skills: seq<Skill>, key: Skill -> string, vs: seq<string>)
    ensures Lists.Count(skills, HavingOneOf(key, vs)) == |skills| <==>
      forall i :: 0 <= i < |skills| ==> key(skills[i]) in vs
  {
    assert forall i :: 0 <= i < |skills| ==> HavingOneOf(key, vs)(skills[i]) == (key(skills[i]) in vs);
  }

  /**
   * The category counts add up to the number of skills exactly when every skill has one of the
   * eight categories; a skill with any other category is counted in none of them.
   */
  lemma CategoryCountsCoverList(skills: seq<Skill>)
    ensures Tally(skills, CategoryOf, Categories) <= |skills|
    ensures Tally(skills, CategoryOf, Categories) == |skills| <==>
      forall i :: 0 <= i < |skills| ==> skills[i].category in Categories
  {
    CategoriesDistinct();
    TallyCountsMembers(skills, CategoryOf, Categories);
    CountOneOfIsLength(skills, CategoryOf, Categories);
  }

  /**
   * The portfolio counts add up to the number of skills exactly when every skill names one of
   * the three portfolios; a skill for "all" portfolios is counted in none of them.
   */
  lemma PortfolioCountsCoverList(skills: seq<Skill>)
    ensures Tally(skills, PortfolioOf, Portfolios) <= |skills|
    ensures Tally(skills, PortfolioOf, Portfolios) == |skills| <==>
      forall i :: 0 <= i < |skills| ==> skills[i].portfolioType in Portfolios
  {
    PortfoliosDistinct();
    TallyCountsMembers(skills, PortfolioOf, Portfolios);
    CountOneOfIsLength(skills, PortfolioOf, Portfolios);
  }

  // ---------------------------------------------------------------- filters

  predicate Shown(s: Skill, f: SkillFilters) {
    MatchesText(s.name, f.searchTerm)
    && (f.category == "all" || s.category == f.category)
    && MatchesPortfolio(s.portfolioType, f.portfolio)
  }

  /** `filteredSkills`: the skills the three filters let through, in list order. */
  function FilteredSkills(skills: seq<Skill>, f: SkillFilters): (r: seq<Skill>)
    ensures forall s :: s in r <==> s in skills && Shown(s, f)
    ensures |r| <= |skills|
  {
    Lists.Filter(skills, s => Shown(s, f))
  }

  /** With an empty search and both drop-downs on "all", every skill is listed, in order. */
  lemma NoFiltersShowAll(skills: seq<Skill>)
    ensures FilteredSkills(skills, NoFilters) == skills
  {
    forall i | 0 <= i < |skills| ensures Shown(skills[i], NoFilters) {
      EmptyTermMatches(skills[i].name);
    }
    Lists.FilterKeepsAll(skills, s => Shown(s, NoFilters));
  }

  /** A skill the filters hide makes the filtered list strictly shorter than the full one. */
  lemma HiddenSkillShortensList(skills: seq<Skill>, f: SkillFilters, i: nat)
    requires i < |skills| && !Shown(skills[i], f)
    ensures |FilteredSkills(skills, f)| < |skills|
  {
    Lists.CountIsFilterLength(skills, s => Shown(s, f));
  }

  // ---------------------------------------------------------------- reordering

  /** `items.map((item, index) => ({...item, order: index}))`. */
  function Renumbered(items: seq<Skill>): (r: seq<Skill>)
    ensures |r| == |items|
    ensures forall i :: 0 <= i < |r| ==> r[i] == items[i].(order := i)
  {
    seq(|items|, i requires 0 <= i < |items| => items[i].(order := i))
  }

  /** After renumbering the orders run 0, 1, 2, … so the list is sorted by order and sorting keeps it. */
  lemma RenumberedIsSorted(items: seq<Skill>)
    ensures SortedByOrder(Renumbered(items))
    ensures SortByOrder(Renumbered(items)) == Renumbered(items)
  {
    SortSortedIsIdentity(Renumbered(items));
  }

  /**
   * The list after a drag with a destination: the visible skills, the dragged one moved from
   * `from` to `to`, then renumbered.
   */
  function Reordered(visible: seq<Skill>, from: nat, to: nat): (r: seq<Skill>)
    requires from < |visible| && to < |visible|
    ensures |r| == |visible|
    ensures r[to] == visible[from].(order := to)
    ensures forall i :: 0 <= i < |r| ==> r[i].order == i
  {
    Renumbered(Lists.Move(visible, from, to))
  }

  /**
   * Every skill after a drag is one of the visible skills with a new order, and each visible
   * skill is there exactly once as often as before: the ones the filters hid are gone.
   */
  lemma ReorderedKeepsOnlyVisible(skills: seq<Skill>, f: SkillFilters, from: nat, to: nat)
    requires from < |FilteredSkills(skills, f)| && to < |FilteredSkills(skills, f)|
    ensures var r := Reordered(FilteredSkills(skills, f), from, to);
      forall i :: 0 <= i < |r| ==> exists s :: s in skills && Shown(s, f) && r[i] == s.(order := i)
  {
    var visible := FilteredSkills(skills, f);
    var moved := Lists.Move(visible, from, to);
    Lists.MoveIsPermutation(visible, from, to);
    forall i | 0 <= i < |moved| ensures moved[i] in skills && Shown(moved[i], f) {
      assert moved[i] in multiset(moved);
    }
  }

  // ---------------------------------------------------------------- badge colours

  const DefaultBadgeColor := "#00d4ff"

  const BadgeColors := map[
    "frontend" := "#00d4ff",
    "backend" := "#00ff88",
    "database" := "#ff6b9d",
    "tools" := "#ffd700",
    "datascience" := "#9d4edd",
    "ml" := "#ff006e",
    "design" := "#ff7e00",
    "other" := "#64dfdf"]

  predicate IsHexDigit(c: char) {
    '0' <= c <= '9' || 'a' <= c <= 'f'
  }

  /** `#rrggbb` in lower-case hexadecimal. */
  predicate IsColor(s: string) {
    |s| == 7 && s[0] == '#' && forall i :: 1 <= i < 7 ==> IsHexDigit(s[i])
  }

  /**
   * `getCategoryBadgeColor`: the colour of one of the eight categories, and the default colour,
   * the same as the front-end one, for anything else.
   */
  function BadgeColor(category: string): (r: string)
    ensures category in Categories ==> r == BadgeColors[category]
    ensures category !in Categories ==> r == DefaultBadgeColor
    ensures IsColor(r)
    ensures r == DefaultBadgeColor <==> category == "frontend" || category !in Categories
  {
    if category in BadgeColors then BadgeColors[category] else DefaultBadgeColor
  }

  // ---------------------------------------------------------------- the component

  /** The skills list's component state. */
  class SkillList {
    var skills: seq<Skill>
    var filters: SkillFilters

    constructor ()
      ensures skills == [] && filters == NoFilters
    {
      skills := [];
      filters := NoFilters;
    }

    function Visible(): seq<Skill>
      reads this
    {
      FilteredSkills(skills, filters)
    }

    /** `fetchSkills` once the server answered with a list: it is stored sorted by order. */
    method SetFetched(fetched: seq<Skill>)
      modifies this
      ensures skills == SortByOrder(fetched) && filters == old(filters)
    {
      skills := SortByOrder(fetched);
    }

    /**
     * `handleDragEnd`: without a destination nothing changes; otherwise the visible skills,
     * with the dragged one moved, renumbered from 0, become the whole list.
     */
    method HandleDragEnd(result: DragResult)
      modifies this
      requires result.source < |Visible()|
      requires result.destination.Some? ==> result.destination.value < |Visible()|
      ensures result.destination.None? ==> skills == old(skills)
      ensures result.destination.Some? ==>
        skills == Reordered(old(Visible()), result.source, result.destination.value)
      ensures filters == old(filters)
    {
      if result.destination.None? {
        return;
      }
      var items := Visible();
      var item := items[result.source];
      items := Lists.RemoveIndex(items, result.source);
      var to := result.destination.value;
      items := items[..to] + [item] + items[to..];
      skills := Renumbered(items);
    }
  }
}
