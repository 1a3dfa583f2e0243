/**
 * The value-level rules of the home page: autocomplete suggestions, the relevance order
 * of search hits, the local filter of the debounced search, and the pager arithmetic.
 * Both the current home page and its older copy use the same rules.
 */
module HomeSearch {
  import opened Wrappers
  import opened Text
  import opened Seqs
  import opened HerbRecord
  import opened Tiers

  // ---------------------------------------------------------------- suggestions

  /** At most this many suggestions are offered. */
  const SuggestionLimit: nat := 5

  /** An autocomplete option: selecting it opens the detail page of the herb `value`. */
  datatype Suggestion = Suggestion(value: int, caption: string)

  /** The prefix and suffix around the herb's name in a suggestion's label. */
  const LabelPrefix: string := "🌿 "
  const LabelSuffix: string := " - Derman Ösümligi"

  /** A herb is suggested for `value` when its display name or its category contains it,
      ignoring case. */
  function SuggestsFor(value: string): Osumlik -> bool {
    (o: Osumlik) => IContains(o.ady, value) || IContains(o.kategoriya, value)
  }

  function SuggestionOf(o: Osumlik): (s: Suggestion)
    ensures s.value == o.id
    ensures s.caption == LabelPrefix + (if o.ady != "" then o.ady else o.name) + LabelSuffix
  {
    Suggestion(o.id, LabelPrefix + (if o.ady != "" then o.ady else o.name) + LabelSuffix)
  }

  function SuggestionsOf(hs: seq<Osumlik>): (r: seq<Suggestion>)
    ensures |r| == |hs|
    ensures forall i :: 0 <= i < |hs| ==> r[i] == SuggestionOf(hs[i])
  {
    seq(|hs|, i requires 0 <= i < |hs| => SuggestionOf(hs[i]))
  }

  /** `handleInputChange`'s suggestions for a non-blank input: the first five matching herbs,
      in the order of the listing. */
  function Suggestions(herbs: seq<Osumlik>, value: string): seq<Suggestion> {
    SuggestionsOf(Take(Filter(herbs, SuggestsFor(value)), SuggestionLimit))
  }

  /** Every suggestion names a matching herb of the listing; there are at most five, and
      when fewer than five herbs match, every matching herb is suggested. */
  lemma SuggestionsSound(herbs: seq<Osumlik>, value: string)
    ensures |Suggestions(herbs, value)| <= SuggestionLimit
    ensures forall s :: s in Suggestions(herbs, value) ==>
      exists o :: o in herbs && SuggestsFor(value)(o) && s == SuggestionOf(o)
    ensures |Filter(herbs, SuggestsFor(value))| <= SuggestionLimit ==>
      forall o :: o in herbs && SuggestsFor(value)(o) ==> SuggestionOf(o) in Suggestions(herbs, value)
    ensures |Suggestions(herbs, value)| == if |Filter(herbs, SuggestsFor(value))| < SuggestionLimit
      then |Filter(herbs, SuggestsFor(value))| else SuggestionLimit
  {
    var f := Filter(herbs, SuggestsFor(value));
    var t := Take(f, SuggestionLimit);
    var r := Suggestions(herbs, value);
    forall s | s in r ensures exists o :: o in herbs && SuggestsFor(value)(o) && s == SuggestionOf(o) {
      var i :| 0 <= i < |r| && r[i] == s;
      assert t[i] == f[i] && f[i] in f;
    }
    if |f| <= SuggestionLimit {
      forall o | o in herbs && SuggestsFor(value)(o) ensures SuggestionOf(o) in r {
        var i :| 0 <= i < |f| && f[i] == o;
        assert r[i] == SuggestionOf(o);
      }
    }
  }

  /** When every listed herb carries the listing category, a term found in that category
      (for instance `derman`) matches every herb, so the first five herbs are suggested. */
  lemma CategoryTermSuggestsFirstHerbs(herbs: seq<Osumlik>, value: string)
    requires forall i :: 0 <= i < |herbs| ==> herbs[i].kategoriya == ListingCategory
    requires IContains(ListingCategory, value)
    ensures Suggestions(herbs, value) == SuggestionsOf(Take(herbs, SuggestionLimit))
  {
    FilterAll(herbs, SuggestsFor(value));
  }

  // ---------------------------------------------------------------- relevance

  /** A hit's tier for the searched `value`: 0 for an exact name (ignoring case), 1 for a
      name that starts with it, 2 for any other hit. */
  function Rank(name: string, value: string): (r: nat)
    ensures r <= 2
    ensures r == 0 <==> IEquals(name, value)
    ensures r <= 1 <==> IStartsWith(name, value)
  {
    MatchTiers(name, value);
    if IEquals(name, value) then 0 else if IStartsWith(name, value) then 1 else 2
  }

  /** The comparator of `handleSearch`, branch by branch: it only ever answers -1, 0 or 1. */
  function Compare(a: Osumlik, b: Osumlik, value: string): (c: int)
    ensures -1 <= c <= 1
  {
    var aName := IEquals(a.name, value);
    var bName := IEquals(b.name, value);
    if aName && !bName then -1
    else if !aName && bName then 1
    else
      var aStarts := IStartsWith(a.name, value);
      var bStarts := IStartsWith(b.name, value);
      if aStarts && !bStarts then -1
      else if !aStarts && bStarts then 1
      else 0
  }

  /** The comparator orders hits by their tier, and only by it. */
  lemma CompareIsRankOrder(a: Osumlik, b: Osumlik, value: string)
    ensures Compare(a, b, value) < 0 <==> Rank(a.name, value) < Rank(b.name, value)
    ensures Compare(a, b, value) == 0 <==> Rank(a.name, value) == Rank(b.name, value)
    ensures Compare(a, b, value) > 0 <==> Rank(a.name, value) > Rank(b.name, value)
  {
    MatchTiers(a.name, value);
    MatchTiers(b.name, value);
  }

  /** The tier of a hit for the searched `value`. */
  function RankOf(value: string): Osumlik -> TierIndex {
    (o: Osumlik) => Rank(o.name, value)
  }

  /** What the stable sort with the comparator gives: the exact-name hits, then the prefix
      hits, then the rest, each group in the server's order. */
  function RelevanceOrder(s: seq<Osumlik>, value: string): seq<Osumlik> {
    TierOrder(s, RankOf(value))
  }

  /** The relevance order is a permutation of the hits, in which no hit compares before an
      earlier one, and hits of one tier keep the server's order. */
  lemma RelevanceOrderSpec(s: seq<Osumlik>, value: string)
    ensures multiset(RelevanceOrder(s, value)) == multiset(s)
    ensures forall i, j :: 0 <= i < j < |RelevanceOrder(s, value)| ==>
      Rank(RelevanceOrder(s, value)[i].name, value) <= Rank(RelevanceOrder(s, value)[j].name, value)
    ensures forall i, j :: 0 <= i < j < |RelevanceOrder(s, value)| ==>
      Compare(RelevanceOrder(s, value)[i], RelevanceOrder(s, value)[j], value) <= 0
    ensures forall k: TierIndex :: Group(RelevanceOrder(s, value), RankOf(value), k) == Group(s, RankOf(value), k)
  {
    var r := RelevanceOrder(s, value);
    TierOrderPermutes(s, RankOf(value));
    TierOrderSorted(s, RankOf(value));
    forall i, j | 0 <= i < j < |r| ensures Compare(r[i], r[j], value) <= 0 {
      assert RankOf(value)(r[i]) <= RankOf(value)(r[j]);
      CompareIsRankOrder(r[i], r[j], value);
    }
    forall k: TierIndex ensures Group(r, RankOf(value), k) == Group(s, RankOf(value), k) {
      TierOrderStable(s, RankOf(value), k);
    }
  }

  // ---------------------------------------------------------------- debounced search

  /** The local filter of the debounced search: name, properties, category, habitat or usage
      contains the term, ignoring case. */
  function LocalMatch(term: string): Osumlik -> bool {
    (o: Osumlik) => IContains(o.ady, term) || IContains(o.hasiyeti, term) || IContains(o.kategoriya, term)
         || IContains(o.yayraway, term) || IContains(o.peydalyNys, term)
  }

  /** The first step of the debounced search. */
  datatype DebounceStep =
    | Idle                                   // the term is blank: nothing happens
    | ShowLocal(results: seq<Osumlik>)       // some listed herbs match: show them
    | AskServer(query: string, page: int, limit: int) // none match: ask the server

  const DebouncePage: int := 1
  const DebounceLimit: int := 20

  function Debounce(term: string, herbs: seq<Osumlik>): (d: DebounceStep)
    ensures d.Idle? <==> IsBlank(JsWhitespace, term)
    ensures d.ShowLocal? ==> d.results == Filter(herbs, LocalMatch(term)) && d.results != []
    ensures d.AskServer? <==> !IsBlank(JsWhitespace, term) && forall i :: 0 <= i < |herbs| ==> !LocalMatch(term)(herbs[i])
    ensures d.AskServer? ==> d == AskServer(term, DebouncePage, DebounceLimit)
  {
    FilterEmpty(herbs, LocalMatch(term));
    if IsBlank(JsWhitespace, term) then Idle
    else
      var f := Filter(herbs, LocalMatch(term));
      if |f| > 0 then ShowLocal(f) else AskServer(term, DebouncePage, DebounceLimit)
  }

  /** Every suggested herb is also shown by the debounced local filter, whose fields include
      the name and the category. */
  lemma SuggestedAreLocalMatches(herbs: seq<Osumlik>, value: string)
    ensures forall o :: o in Filter(herbs, SuggestsFor(value)) ==> o in Filter(herbs, LocalMatch(value))
  {
  }

  // ---------------------------------------------------------------- pager

  const PageSize: nat := 50

  /** `Math.ceil(totalItems / pageSize)` for a non-negative total. */
  function PageCount(total: nat): (n: nat)
    ensures n * PageSize >= total
    ensures n > 0 ==> (n - 1) * PageSize < total
    ensures n == 0 <==> total == 0
  {
    (total + PageSize - 1) / PageSize
  }

  /** `PageCount` is the least number of pages that hold `total` items. */
  lemma PageCountLeast(total: nat, m: nat)
    requires m * PageSize >= total
    ensures PageCount(total) <= m
  {
  }

  predicate PrevDisabled(current: int) {
    current <= 1
  }

  predicate NextDisabled(current: int, total: nat) {
    current >= PageCount(total)
  }

  /** `Math.max(1, prev - 1)`: the larger of 1 and the page before. */
  function PrevPage(current: int): (p: int)
    ensures p >= 1 && p >= current - 1
    ensures p == 1 || p == current - 1
  {
    if current - 1 < 1 then 1 else current - 1
  }

  /** `Math.min(pageCount, prev + 1)`: the smaller of the page count and the page after. */
  function NextPage(current: int, total: nat): (p: int)
    ensures p <= PageCount(total) && p <= current + 1
    ensures p == PageCount(total) || p == current + 1
  {
    if PageCount(total) < current + 1 then PageCount(total) else current + 1
  }

  /** An enabled button moves exactly one page, and the page stays at least 1; the next
      button never moves past the last page. */
  lemma PagerSteps(current: int, total: nat)
    requires current >= 1
    ensures !PrevDisabled(current) ==> PrevPage(current) == current - 1 && PrevPage(current) >= 1
    ensures !NextDisabled(current, total) ==> NextPage(current, total) == current + 1 <= PageCount(total)
    ensures PrevPage(current) >= 1
  {
  }

  /** The listed total: the server's `count`, or the number of herbs received when the count
      is missing or zero. */
  function ListedTotal(count: Option<nat>, received: nat): (t: nat)
    ensures count.Some? && count.value != 0 ==> t == count.value
    ensures !(count.Some? && count.value != 0) ==> t == received
  {
    if count.Some? && count.value != 0 then count.value else received
  }
}
