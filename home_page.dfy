/**
 * The home page component as a state machine: its React state is the fields of a
 * `HomePage` object, and every handler, effect and reply is a method that updates them.
 * The handlers' test `!value.trim()` is written `IsBlank(JsWhitespace, value)`: `Text.Trim`
 * gives the empty string exactly for blank strings.
 * An asynchronous handler is split where it awaits: the part before the request, which
 * returns what is requested, and the part that runs when the reply (or the failure)
 * arrives. The older copy of the page is the same object with `variant == Backup`: it maps
 * its listing like search hits and pages through a pagination widget instead of buttons.
 */
module HomePage {
  import opened Wrappers
  import opened Text
  import opened Seqs
  import opened QueryString
  import opened HerbRecord
  import opened Tiers
  import opened HomeSearch
  import Api

  datatype Variant = Current | Backup

  /** The mapping a variant applies to the listing it fetches. */
  function ListingMapping(v: Variant): Mapping {
    if v == Current then Listing else SearchHit
  }

  /** A page of the listing endpoint as received. */
  datatype ListPage = ListPage(results: seq<ApiHerb>, count: Option<nat>)

  /** The search handler asks for up to this many hits. */
  const SearchLimit: int := 100

  /** The listing request for a page: `/words/?page=<page>&limit=50`. */
  function ListingUrl(page: int): string {
    "/words/?page=" + IntToString(page) + "&limit=" + IntToString(PageSize)
  }

  /** The state of the page, as a value. */
  datatype HomeState = HomeState(
    herbs: seq<Osumlik>,
    searchResults: seq<Osumlik>,
    suggestions: seq<Suggestion>,
    searchTerm: string,
    showRecommendations: bool,
    currentPage: int,
    totalItems: int,
    loading: bool)

  const Initial: HomeState := HomeState([], [], [], "", true, 1, 0, false)

  // ---------------------------------------------------------------- what is shown

  /** The content blocks the page renders. */
  datatype Panel = ResultsPanel | HerbListPanel | NoHerbsPanel | SpinnerPanel | NoResultsPanel

  function Panels(s: HomeState): set<Panel> {
    (if !s.loading && |s.searchResults| > 0 then {ResultsPanel} else {}) +
    (if s.showRecommendations && !s.loading && |s.herbs| > 0 then {HerbListPanel} else {}) +
    (if s.showRecommendations && !s.loading && |s.herbs| == 0 then {NoHerbsPanel} else {}) +
    (if s.loading then {SpinnerPanel} else {}) +
    (if !s.loading && s.searchTerm != "" && |s.searchResults| == 0 then {NoResultsPanel} else {})
  }

  /** While loading only the spinner shows; the result list and the no-result message
      exclude each other, and so do the herb list and the no-herb message. */
  lemma PanelsExclusive(s: HomeState)
    ensures SpinnerPanel in Panels(s) <==> s.loading
    ensures s.loading ==> Panels(s) == {SpinnerPanel}
    ensures !(ResultsPanel in Panels(s) && NoResultsPanel in Panels(s))
    ensures !(HerbListPanel in Panels(s) && NoHerbsPanel in Panels(s))
    ensures !s.loading && s.showRecommendations ==> (HerbListPanel in Panels(s) || NoHerbsPanel in Panels(s))
  {
  }

  /** After the search is cleared and nothing is loading, exactly the herb list (or its
      empty message) shows. */
  lemma ClearedShowsListing(s: HomeState)
    requires s.searchResults == [] && s.searchTerm == "" && s.showRecommendations && !s.loading
    ensures Panels(s) == if |s.herbs| > 0 then {HerbListPanel} else {NoHerbsPanel}
  {
  }

  /** A settled search with hits shows the hits and hides the herb list. */
  lemma SearchShowsResults(s: HomeState)
    requires |s.searchResults| > 0 && !s.showRecommendations && !s.loading
    ensures Panels(s) == {ResultsPanel}
  {
  }

  /** Typing only spaces keeps the herb list but also shows the no-result message for the
      blank term, because that message tests the untrimmed term. */
  lemma BlankTermShowsNoResult(s: HomeState)
    requires s.searchTerm != "" && IsBlank(JsWhitespace, s.searchTerm)
    requires s.searchResults == [] && s.showRecommendations && !s.loading && |s.herbs| > 0
    ensures Panels(s) == {HerbListPanel, NoResultsPanel}
  {
  }

  // ---------------------------------------------------------------- the component

  /** The search handler's hits: mapped, then sorted in place by relevance to `value`. */
  method SortedHits(reply: seq<ApiHerb>, value: string) returns (hits: seq<Osumlik>)
    ensures hits == RelevanceOrder(NormaliseAll(reply, SearchHit), value)
    ensures forall i :: 0 <= i < |hits| ==> WellFormed(hits[i])
  {
    var mapped := NormaliseAll(reply, SearchHit);
    var a := new Osumlik[|mapped|](i requires 0 <= i < |mapped| => mapped[i]);
    assert a[..] == mapped;
    SortByTier(a, RankOf(value));
    forall i | 0 <= i < |mapped| ensures WellFormed(mapped[i]) {
      NormaliseFields(reply[i], SearchHit);
    }
    RelevanceOrderSpec(mapped, value);
    hits := a[..];
    forall i | 0 <= i < |hits| ensures WellFormed(hits[i]) {
      assert hits[i] in multiset(mapped);
    }
  }

  class HomePage {
    const variant: Variant
    var herbs: seq<Osumlik>
    var searchResults: seq<Osumlik>
    var suggestions: seq<Suggestion>
    var searchTerm: string
    var showRecommendations: bool
    var currentPage: int
    var totalItems: int
    var loading: bool

    function State(): HomeState
      reads this
    {
      HomeState(herbs, searchResults, suggestions, searchTerm, showRecommendations, currentPage, totalItems, loading)
    }

    /** What the state always satisfies: a page number of at least 1, a non-negative total,
        mapped records, listed herbs in the variant's category, and at most five
        suggestions. */
    ghost predicate Valid()
      reads this
    {
      && currentPage >= 1
      && totalItems >= 0
      && (forall i :: 0 <= i < |herbs| ==> WellFormed(herbs[i]) && herbs[i].kategoriya == CategoryOf(ListingMapping(variant)))
      && (forall i :: 0 <= i < |searchResults| ==> WellFormed(searchResults[i]))
      && |suggestions| <= SuggestionLimit
    }

    constructor (variant: Variant)
      ensures this.variant == variant
      ensures State() == Initial
      ensures Valid()
    {
      this.variant := variant;
      herbs := [];
      searchResults := [];
      suggestions := [];
      searchTerm := "";
      showRecommendations := true;
      currentPage := 1;
      totalItems := 0;
      loading := false;
    }

    /** `fetchHerbs` up to its request: the spinner starts and the current page is
        requested. */
    method StartFetch() returns (url: string)
      requires Valid()
      modifies this
      ensures Valid()
      ensures url == ListingUrl(currentPage)
      ensures State() == old(State()).(loading := true)
    {
      loading := true;
      url := ListingUrl(currentPage);
    }

    /** `fetchHerbs` after its request: a page replaces the listing and its total and shows
        the list; a failure (`None`) empties the listing and keeps the rest. */
    method FetchSettled(reply: Option<ListPage>)
      requires Valid()
      modifies this
      ensures Valid()
      ensures reply.Some? ==> State() == old(State()).(
        herbs := NormaliseAll(reply.value.results, ListingMapping(variant)),
        totalItems := ListedTotal(reply.value.count, |reply.value.results|),
        showRecommendations := true,
        loading := false)
      ensures reply.None? ==> State() == old(State()).(herbs := [], loading := false)
    {
      if reply.Some? {
        var mapped := NormaliseAll(reply.value.results, ListingMapping(variant));
        forall i | 0 <= i < |mapped|
          ensures WellFormed(mapped[i]) && mapped[i].kategoriya == CategoryOf(ListingMapping(variant))
        {
          NormaliseFields(reply.value.results[i], ListingMapping(variant));
        }
        herbs := mapped;
        totalItems := ListedTotal(reply.value.count, |reply.value.results|);
        showRecommendations := true;
        loading := false;
      } else {
        loading := false;
        herbs := [];
      }
    }

    /** `handleInputChange`: records the input; a blank input clears the results and the
        suggestions and shows the list, any other input offers suggestions from the
        listing. */
    method InputChange(value: string)
      requires Valid()
      modifies this
      ensures Valid()
      ensures IsBlank(JsWhitespace, value) ==> State() == old(State()).(
        searchTerm := value, searchResults := [], suggestions := [], showRecommendations := true)
      ensures !IsBlank(JsWhitespace, value) ==> State() == old(State()).(
        searchTerm := value, suggestions := Suggestions(old(herbs), value))
    {
      searchTerm := value;
      if IsBlank(JsWhitespace, value) {
        searchResults := [];
        suggestions := [];
        showRecommendations := true;
        return;
      }
      SuggestionsSound(herbs, value);
      suggestions := Suggestions(herbs, value);
    }

    /** `handleSearch` up to its request: a blank value resets the search and requests
        nothing; any other value starts the spinner, hides the list and requests the first
        hundred hits. */
    method Search(value: string) returns (request: Option<seq<Param>>)
      requires Valid()
      modifies this
      ensures Valid()
      ensures IsBlank(JsWhitespace, value) ==> request.None? && State() == old(State()).(
        searchResults := [], searchTerm := "", showRecommendations := true)
      ensures !IsBlank(JsWhitespace, value) ==> State() == old(State()).(
        loading := true, searchTerm := value, showRecommendations := false)
      ensures !IsBlank(JsWhitespace, value) ==>
        request.Some? && Api.IsSearchQuery(request.value, value, Some(Api.NoFilters), 1, SearchLimit)
    {
      if IsBlank(JsWhitespace, value) {
        searchResults := [];
        searchTerm := "";
        showRecommendations := true;
        return None;
      }
      loading := true;
      searchTerm := value;
      showRecommendations := false;
      var params := Api.SearchParams(value, Some(Api.NoFilters), Some(1), Some(SearchLimit));
      request := Some(params);
    }

    /** `handleSearch` after its request: the hits, mapped and sorted in place by
        relevance to `value`, become the results; a failure empties them. */
    method SearchSettled(value: string, reply: Option<seq<ApiHerb>>)
      requires Valid()
      modifies this
      ensures Valid()
      ensures reply.Some? ==> State() == old(State()).(
        searchResults := RelevanceOrder(NormaliseAll(reply.value, SearchHit), value), loading := false)
      ensures reply.None? ==> State() == old(State()).(searchResults := [], loading := false)
    {
      if reply.None? {
        loading := false;
        searchResults := [];
        return;
      }
      var hits := SortedHits(reply.value, value);
      searchResults := hits;
      loading := false;
    }

    /** The debounced search, when its timer fires: the local matches are shown at once;
        without any, the server is asked (the returned step says which). */
    method DebounceFired() returns (step: DebounceStep)
      requires Valid()
      modifies this
      ensures Valid()
      ensures step == Debounce(old(searchTerm), old(herbs))
      ensures step.ShowLocal? ==> State() == old(State()).(searchResults := step.results)
      ensures !step.ShowLocal? ==> State() == old(State())
    {
      step := Debounce(searchTerm, herbs);
      if step.ShowLocal? {
        forall i | 0 <= i < |step.results| ensures WellFormed(step.results[i]) {
          assert step.results[i] in herbs;
        }
        searchResults := step.results;
      }
    }

    /** The debounced search's server reply: the mapped hits, unsorted, become the results;
        a failure changes nothing. */
    method DebounceSettled(reply: Option<seq<ApiHerb>>)
      requires Valid()
      modifies this
      ensures Valid()
      ensures reply.Some? ==> State() == old(State()).(searchResults := NormaliseAll(reply.value, SearchHit))
      ensures reply.None? ==> State() == old(State())
    {
      if reply.Some? {
        var mapped := NormaliseAll(reply.value, SearchHit);
        forall i | 0 <= i < |mapped| ensures WellFormed(mapped[i]) {
          NormaliseFields(reply.value[i], SearchHit);
        }
        searchResults := mapped;
      }
    }

    /** The back button of the results and the button of the no-result message. */
    method ClearSearch()
      requires Valid()
      modifies this
      ensures Valid()
      ensures State() == old(State()).(searchResults := [], searchTerm := "", showRecommendations := true)
    {
      searchResults := [];
      searchTerm := "";
      showRecommendations := true;
    }

    /** The previous-page button of the current page; disabled on the first page. */
    method PrevClick()
      requires Valid() && variant == Current
      modifies this
      ensures Valid()
      ensures PrevDisabled(old(currentPage)) ==> State() == old(State())
      ensures !PrevDisabled(old(currentPage)) ==> State() == old(State()).(currentPage := old(currentPage) - 1)
    {
      if !PrevDisabled(currentPage) {
        PagerSteps(currentPage, totalItems);
        currentPage := PrevPage(currentPage);
      }
    }

    /** The next-page button of the current page; disabled on the last page. */
    method NextClick()
      requires Valid() && variant == Current
      modifies this
      ensures Valid()
      ensures NextDisabled(old(currentPage), old(totalItems)) ==> State() == old(State())
      ensures !NextDisabled(old(currentPage), old(totalItems)) ==>
        State() == old(State()).(currentPage := old(currentPage) + 1)
      ensures !NextDisabled(old(currentPage), old(totalItems)) ==> currentPage <= PageCount(totalItems)
    {
      if !NextDisabled(currentPage, totalItems) {
        PagerSteps(currentPage, totalItems);
        currentPage := NextPage(currentPage, totalItems);
      }
    }

    /** The older page's pagination widget: it reports one of its pages, from 1 to the
        page count, and that page becomes current. */
    method PageChange(page: int)
      requires Valid() && variant == Backup
      requires 1 <= page <= PageCount(totalItems)
      modifies this
      ensures Valid()
      ensures State() == old(State()).(currentPage := page)
    {
      currentPage := page;
    }
  }
}
