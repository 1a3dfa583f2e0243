/**
 * The server's read-only herb endpoints. Each action computes its response from the table
 * of herb rows: the base set (rows not soft-deleted, by name), a case-insensitive match,
 * an ordering and a slice. Query parameters are read with `QueryString.Get`.
 *
 * A request whose integer parameter does not parse, or whose slice bound is negative,
 * makes Django raise; that is the `ServerError` response here.
 */
module Views {
  import opened Wrappers
  import opened Text
  import opened Seqs
  import opened QueryString
  import Api

  /** A herb row of the database. An empty `photo` is a row without an image. */
  datatype MedicalHerb = MedicalHerb(
    id: int,
    name: string,
    nameLatin: string,
    character: string,
    livingSpecification: string,
    naturalSource: string,
    usage: string,
    chemicalComposition: string,
    rawMaterial: string,
    createdAt: int,
    isDeleted: bool,
    photo: string)

  datatype Response<T> = Served(body: T) | NotFound | ServerError

  // ---------------------------------------------------------------- orderings

  /** Lexicographic order of strings by character code. */
  predicate StrLe(a: string, b: string)
    decreases |a|
  {
    a == [] || (b != [] && (a[0] < b[0] || (a[0] == b[0] && StrLe(a[1..], b[1..]))))
  }

  lemma {:induction false} StrLeTotal(a: string, b: string)
    ensures StrLe(a, b) || StrLe(b, a)
    decreases |a|
  {
    if a != [] && b != [] && a[0] == b[0] {
      StrLeTotal(a[1..], b[1..]);
    }
  }

  lemma {:induction false} StrLeTransitive(a: string, b: string, c: string)
    requires StrLe(a, b) && StrLe(b, c)
    ensures StrLe(a, c)
    decreases |a|
  {
    if a != [] && a[0] == b[0] && b[0] == c[0] {
      StrLeTransitive(a[1..], b[1..], c[1..]);
    }
  }

  /** `order_by('name')`. */
  predicate ByName(a: MedicalHerb, b: MedicalHerb) {
    StrLe(a.name, b.name)
  }

  /** `order_by('-created_at')`. */
  predicate NewestFirst(a: MedicalHerb, b: MedicalHerb) {
    a.createdAt >= b.createdAt
  }

  lemma ByNameTotalPreorder()
    ensures TotalPreorder(ByName)
  {
    forall a: MedicalHerb, b: MedicalHerb ensures ByName(a, b) || ByName(b, a) {
      StrLeTotal(a.name, b.name);
    }
    forall a: MedicalHerb, b: MedicalHerb, c: MedicalHerb | ByName(a, b) && ByName(b, c)
      ensures ByName(a, c)
    {
      StrLeTransitive(a.name, b.name, c.name);
    }
  }

  lemma NewestFirstTotalPreorder()
    ensures TotalPreorder(NewestFirst)
  {
  }

  // ---------------------------------------------------------------- the base set

  predicate NotDeleted(h: MedicalHerb) {
    !h.isDeleted
  }

  /** The view set's `queryset`: the rows not soft-deleted, by name. */
  function Queryset(table: seq<MedicalHerb>): seq<MedicalHerb> {
    SortBy(Filter(table, NotDeleted), ByName)
  }

  /** The base set holds exactly the rows that are not deleted, each as often as the
      table does, ordered by name. */
  lemma QuerysetSpec(table: seq<MedicalHerb>)
    ensures multiset(Queryset(table)) == multiset(Filter(table, NotDeleted))
    ensures forall h :: h in Queryset(table) <==> h in table && !h.isDeleted
    ensures SortedBy(Queryset(table), ByName)
  {
    ByNameTotalPreorder();
    SortBySorted(Filter(table, NotDeleted), ByName);
    forall h ensures h in Queryset(table) <==> h in Filter(table, NotDeleted) {
      assert h in Queryset(table) <==> h in multiset(Queryset(table));
    }
  }

  // ---------------------------------------------------------------- parameters

  /** `int(request.query_params.get(key, default))`: the default when the key is absent,
      nothing when the given text is not an integer. */
  function IntParam(ps: seq<Param>, key: string, default: int): (r: Option<int>)
    ensures Get(ps, key).None? ==> r == Some(default)
    ensures Get(ps, key).Some? ==> r == ParseInt(Get(ps, key).value)
  {
    match Get(ps, key)
    case None => Some(default)
    case Some(s) => ParseInt(s)
  }

  /** `request.query_params.get('q', '').strip()`. */
  function QueryTerm(ps: seq<Param>): (r: string)
    ensures r == "" <==> IsBlank(PyWhitespace, Get(ps, "q").GetOr(""))
  {
    Trim(PyWhitespace, Get(ps, "q").GetOr(""))
  }

  /** A row matches a term when its name, character, usage or natural source contains it,
      ignoring case. */
  predicate MatchesTerm(q: string, h: MedicalHerb) {
    IContains(h.name, q) || IContains(h.character, q) || IContains(h.usage, q) || IContains(h.naturalSource, q)
  }

  function Matches(q: string): MedicalHerb -> bool {
    (h: MedicalHerb) => MatchesTerm(q, h)
  }

  /** `qs[start:end]` on a query set: negative bounds raise. */
  function SliceOrFail<T>(s: seq<T>, start: int, end: int): (r: Option<seq<T>>)
    ensures r.None? <==> start < 0 || end < 0
    ensures r.Some? ==> r.value == Slice(s, start, end)
  {
    if start < 0 || end < 0 then None else Some(Slice(s, start, end))
  }

  // ---------------------------------------------------------------- search

  datatype SearchBody = SearchBody(results: seq<MedicalHerb>, count: nat)

  const SearchDefaultPage: int := 1
  const SearchDefaultLimit: int := 10

  /** The offset of a page: pages are numbered from 1. */
  function PageStart(page: int, limit: int): int {
    (page - 1) * limit
  }

  /** `search` on the parsed parameters. */
  function SearchResponse(table: seq<MedicalHerb>, q: string, page: Option<int>, limit: Option<int>): (r: Response<SearchBody>)
    ensures r.NotFound? == false
    ensures r.ServerError? <==>
      (page.None? || limit.None?
       || (q != "" && (PageStart(page.value, limit.value) < 0 || PageStart(page.value, limit.value) + limit.value < 0)))
    ensures r.Served? && q == "" ==> r.body == SearchBody([], 0)
    ensures r.Served? && q != "" ==>
      var matches := Filter(Queryset(table), Matches(q));
      var start := PageStart(page.value, limit.value);
      var end := start + limit.value;
      && 0 <= start && 0 <= end
      && r.body.count == |matches|
      && r.body.results == Slice(matches, start, end)
  {
    if page.None? || limit.None? then ServerError
    else if q == "" then Served(SearchBody([], 0))
    else
      var matches := Filter(Queryset(table), Matches(q));
      var start := PageStart(page.value, limit.value);
      match SliceOrFail(matches, start, start + limit.value)
      case None => ServerError
      case Some(results) => Served(SearchBody(results, |matches|))
  }

  /** `MedicalHerbViewSet.search`. */
  function Search(table: seq<MedicalHerb>, ps: seq<Param>): Response<SearchBody> {
    SearchResponse(table, QueryTerm(ps), IntParam(ps, "page", SearchDefaultPage), IntParam(ps, "limit", SearchDefaultLimit))
  }

  /** The rows of the base set that satisfy `p` are the table's rows that are not deleted
      and satisfy `p`, in name order. */
  lemma BaseFilter(table: seq<MedicalHerb>, p: MedicalHerb -> bool)
    ensures SortedBy(Filter(Queryset(table), p), ByName)
    ensures forall h :: h in Filter(Queryset(table), p) ==> h in table && !h.isDeleted && p(h)
  {
    var base := Filter(table, NotDeleted);
    ByNameTotalPreorder();
    FilterSortBy(base, ByName, p);
    SortBySorted(Filter(base, p), ByName);
    forall h | h in Filter(Queryset(table), p) ensures h in table && !h.isDeleted {
      assert h in multiset(Queryset(table));
      assert h in multiset(base);
      assert h in base;
    }
  }

  /** Every search result is a row that is not deleted and matches the term, and the
      results are in name order. */
  lemma SearchResultsMatch(table: seq<MedicalHerb>, q: string, page: Option<int>, limit: Option<int>)
    requires SearchResponse(table, q, page, limit).Served?
    ensures forall h :: h in SearchResponse(table, q, page, limit).body.results ==>
      h in table && !h.isDeleted && Matches(q)(h)
    ensures SortedBy(SearchResponse(table, q, page, limit).body.results, ByName)
  {
    if q != "" {
      var matches := Filter(Queryset(table), Matches(q));
      var start := PageStart(page.value, limit.value);
      var end := start + limit.value;
      assert SearchResponse(table, q, page, limit).body.results == Slice(matches, start, end);
      BaseFilter(table, Matches(q));
      SliceSorted(matches, ByName, start, end);
    }
  }

  /** A blank term gives no results and a zero count, once the page and limit parse. */
  lemma SearchBlankTerm(table: seq<MedicalHerb>, ps: seq<Param>)
    requires IntParam(ps, "page", SearchDefaultPage).Some? && IntParam(ps, "limit", SearchDefaultLimit).Some?
    requires IsBlank(PyWhitespace, Get(ps, "q").GetOr(""))
    ensures Search(table, ps) == Served(SearchBody([], 0))
  {
  }

  /** The server reads the client's search request as its query (stripped), page and limit;
      the client's extra filter parameters do not affect the response. */
  lemma SearchOfClientRequest(table: seq<MedicalHerb>, query: string, filters: Option<Api.SearchFilters>,
                              page: int, limit: int, params: seq<Param>)
    requires Api.IsSearchQuery(params, query, filters, page, limit)
    ensures Search(table, params) == SearchResponse(table, Trim(PyWhitespace, query), Some(page), Some(limit))
  {
    Api.SearchRequestRoundTrip(query, filters, page, limit, params);
  }

  /** The count is the number of all matches, whichever page is asked for; a page holds at
      most `limit` of them, and none when a negative limit is let through. */
  lemma SearchCountIgnoresPage(table: seq<MedicalHerb>, q: string, page1: int, page2: int, limit: int)
    requires q != ""
    requires SearchResponse(table, q, Some(page1), Some(limit)).Served?
    requires SearchResponse(table, q, Some(page2), Some(limit)).Served?
    ensures SearchResponse(table, q, Some(page1), Some(limit)).body.count
      == SearchResponse(table, q, Some(page2), Some(limit)).body.count
      == |Filter(Queryset(table), Matches(q))|
    ensures limit >= 0 ==> |SearchResponse(table, q, Some(page1), Some(limit)).body.results| <= limit
    ensures limit < 0 ==> SearchResponse(table, q, Some(page1), Some(limit)).body.results == []
  {
  }

  // ---------------------------------------------------------------- suggestions

  const SuggestionsDefaultLimit: int := 5

  /** A row whose name contains the term, ignoring case. */
  predicate NameContains(q: string, h: MedicalHerb) {
    IContains(h.name, q)
  }

  function NameMatches(q: string): MedicalHerb -> bool {
    (h: MedicalHerb) => NameContains(q, h)
  }

  function Names(hs: seq<MedicalHerb>): (r: seq<string>)
    ensures |r| == |hs|
    ensures forall i :: 0 <= i < |hs| ==> r[i] == hs[i].name
  {
    seq(|hs|, i requires 0 <= i < |hs| => hs[i].name)
  }

  /** `MedicalHerbViewSet.suggestions`: the names of the first `limit` rows of the base set
      whose name contains the term; nothing for a blank term. */
  function Suggestions(table: seq<MedicalHerb>, ps: seq<Param>): (r: Response<seq<string>>)
    ensures r.NotFound? == false
    ensures r.ServerError? <==>
      (IntParam(ps, "limit", SuggestionsDefaultLimit).None?
       || (QueryTerm(ps) != "" && IntParam(ps, "limit", SuggestionsDefaultLimit).value < 0))
    ensures r.Served? && QueryTerm(ps) == "" ==> r.body == []
    ensures r.Served? && QueryTerm(ps) != "" ==>
      var limit := IntParam(ps, "limit", SuggestionsDefaultLimit).value;
      r.body == Names(Take(Filter(Queryset(table), NameMatches(QueryTerm(ps))), limit as nat))
  {
    var q := QueryTerm(ps);
    match IntParam(ps, "limit", SuggestionsDefaultLimit)
    case None => ServerError
    case Some(limit) =>
      if q == "" then Served([])
      else
        var matches := Filter(Queryset(table), NameMatches(q));
        match SliceOrFail(matches, 0, limit)
        case None => ServerError
        case Some(top) =>
          TakeIsSlice(matches, limit as nat);
          Served(Names(top))
  }

  /** `name` is the name of a row of the table that is not deleted and whose name contains
      the term. */
  ghost predicate MatchingName(table: seq<MedicalHerb>, q: string, name: string) {
    exists h :: h in table && !h.isDeleted && IContains(h.name, q) && h.name == name
  }

  /** The names of rows sorted by name, each a live row of the table whose name contains
      the term, are in name order and each belongs to such a row. */
  lemma NamesOfMatchingRows(table: seq<MedicalHerb>, q: string, rows: seq<MedicalHerb>)
    requires SortedBy(rows, ByName)
    requires forall h :: h in rows ==> h in table && !h.isDeleted && NameContains(q, h)
    ensures forall i :: 0 <= i < |Names(rows)| ==> MatchingName(table, q, Names(rows)[i])
    ensures forall i, j :: 0 <= i < j < |Names(rows)| ==> StrLe(Names(rows)[i], Names(rows)[j])
  {
    var names := Names(rows);
    forall i | 0 <= i < |names| ensures MatchingName(table, q, names[i]) {
      var h := rows[i];
      assert h in rows && NameContains(q, h);
      assert h.name == names[i];
    }
    forall i, j | 0 <= i < j < |names| ensures StrLe(names[i], names[j]) {
      assert ByName(rows[i], rows[j]);
    }
  }

  /** There are at most `limit` suggestions, each the name of a row that is not deleted and
      whose name contains the term, in name order. */
  lemma SuggestionsSound(table: seq<MedicalHerb>, ps: seq<Param>)
    requires Suggestions(table, ps).Served?
    ensures QueryTerm(ps) != "" ==> |Suggestions(table, ps).body| <= IntParam(ps, "limit", SuggestionsDefaultLimit).value
    ensures forall i :: 0 <= i < |Suggestions(table, ps).body| ==>
      MatchingName(table, QueryTerm(ps), Suggestions(table, ps).body[i])
    ensures forall i, j :: 0 <= i < j < |Suggestions(table, ps).body| ==>
      StrLe(Suggestions(table, ps).body[i], Suggestions(table, ps).body[j])
  {
    var q := QueryTerm(ps);
    var body := Suggestions(table, ps).body;
    if q != "" {
      var limit: nat := IntParam(ps, "limit", SuggestionsDefaultLimit).value;
      var matches := Filter(Queryset(table), NameMatches(q));
      var top := Take(matches, limit);
      assert body == Names(top);
      BaseFilter(table, NameMatches(q));
      TakeSorted(matches, ByName, limit);
      NamesOfMatchingRows(table, q, top);
    } else {
      assert body == [];
    }
  }

  // ---------------------------------------------------------------- popular and word of the day

  const PopularDefaultLimit: int := 10

  /** The base set, newest first. */
  function Newest(table: seq<MedicalHerb>): seq<MedicalHerb> {
    SortBy(Queryset(table), NewestFirst)
  }

  lemma NewestSpec(table: seq<MedicalHerb>)
    ensures multiset(Newest(table)) == multiset(Queryset(table))
    ensures SortedBy(Newest(table), NewestFirst)
  {
    NewestFirstTotalPreorder();
    SortBySorted(Queryset(table), NewestFirst);
  }

  /** `MedicalHerbViewSet.popular`: the first `limit` rows of the base set, newest first. */
  function Popular(table: seq<MedicalHerb>, ps: seq<Param>): (r: Response<seq<MedicalHerb>>)
    ensures r.NotFound? == false
    ensures r.ServerError? <==> IntParam(ps, "limit", PopularDefaultLimit).None? || IntParam(ps, "limit", PopularDefaultLimit).value < 0
    ensures r.Served? ==> r.body == Take(Newest(table), IntParam(ps, "limit", PopularDefaultLimit).value as nat)
  {
    match IntParam(ps, "limit", PopularDefaultLimit)
    case None => ServerError
    case Some(limit) =>
      match SliceOrFail(Newest(table), 0, limit)
      case None => ServerError
      case Some(top) =>
        TakeIsSlice(Newest(table), limit as nat);
        Served(top)
  }

  /** At most `limit` rows, none deleted, newest first; no row left out is newer than one
      given. */
  lemma PopularSpec(table: seq<MedicalHerb>, ps: seq<Param>)
    requires Popular(table, ps).Served?
    ensures |Popular(table, ps).body| <= IntParam(ps, "limit", PopularDefaultLimit).value
    ensures forall h :: h in Popular(table, ps).body ==> h in table && !h.isDeleted
    ensures SortedBy(Popular(table, ps).body, NewestFirst)
    ensures forall h, o ::
      h in Popular(table, ps).body && o in Queryset(table) && o !in Popular(table, ps).body ==> o.createdAt <= h.createdAt
  {
    var limit: nat := IntParam(ps, "limit", PopularDefaultLimit).value;
    var n := Newest(table);
    assert Popular(table, ps).body == Take(n, limit);
    NewestSpec(table);
    TakeSorted(n, NewestFirst, limit);
    assert forall h :: h in n ==> h in table && !h.isDeleted by {
      QuerysetSpec(table);
      forall h | h in n ensures h in table && !h.isDeleted {
        assert h in multiset(n);
      }
    }
    assert forall o :: o in Queryset(table) ==> o in n by {
      forall o | o in Queryset(table) ensures o in n {
        assert o in multiset(n);
      }
    }
  }

  /** With `limit` at least the size of the base set, every row of it is given. */
  lemma PopularAll(table: seq<MedicalHerb>, ps: seq<Param>)
    requires Popular(table, ps).Served?
    requires IntParam(ps, "limit", PopularDefaultLimit).value >= |Queryset(table)|
    ensures multiset(Popular(table, ps).body) == multiset(Queryset(table))
  {
    NewestSpec(table);
  }

  /** `MedicalHerbViewSet.word_of_the_day`: the newest row of the base set, or not found
      when it is empty. */
  function WordOfTheDay(table: seq<MedicalHerb>): (r: Response<MedicalHerb>)
    ensures r.ServerError? == false
    ensures r.NotFound? <==> Queryset(table) == []
    ensures r.Served? ==> r.body == Newest(table)[0]
  {
    if Newest(table) == [] then NotFound else Served(Newest(table)[0])
  }

  /** The word of the day is a row that is not deleted, and no such row is newer. */
  lemma WordOfTheDayNewest(table: seq<MedicalHerb>)
    ensures WordOfTheDay(table).NotFound? <==> forall h :: h in table ==> h.isDeleted
    ensures WordOfTheDay(table).Served? ==> WordOfTheDay(table).body in table && !WordOfTheDay(table).body.isDeleted
    ensures WordOfTheDay(table).Served? ==>
      forall o :: o in table && !o.isDeleted ==> o.createdAt <= WordOfTheDay(table).body.createdAt
  {
    NewestSpec(table);
    QuerysetSpec(table);
    var n := Newest(table);
    if n != [] {
      assert n[0] in multiset(n);
      forall o | o in table && !o.isDeleted ensures o.createdAt <= n[0].createdAt {
        assert o in multiset(n);
        var m :| 0 <= m < |n| && n[m] == o;
        if m > 0 {
          assert NewestFirst(n[0], n[m]);
        }
      }
    } else {
      assert Queryset(table) == [];
    }
  }

  // ---------------------------------------------------------------- random

  function Ids(hs: seq<MedicalHerb>): (r: seq<int>)
    ensures |r| == |hs|
    ensures forall i :: 0 <= i < |hs| ==> r[i] == hs[i].id
  {
    seq(|hs|, i requires 0 <= i < |hs| => hs[i].id)
  }

  function HasId(id: int): MedicalHerb -> bool {
    (h: MedicalHerb) => h.id == id
  }

  /** `get_object_or_404(queryset, id=…)`: the one row with the id, not found when there is
      none, an error when there are several. */
  function GetById(qs: seq<MedicalHerb>, id: int): (r: Response<MedicalHerb>)
    ensures r.Served? <==> |Filter(qs, HasId(id))| == 1
    ensures r.NotFound? <==> Filter(qs, HasId(id)) == []
    ensures r.Served? ==> r.body in qs && r.body.id == id
  {
    var found := Filter(qs, HasId(id));
    if |found| == 1 then assert found[0] in found; Served(found[0])
    else if found == [] then NotFound
    else ServerError
  }

  /** The index `random.choice` ends at for a draw `pick` among `n` rows. */
  function ChoiceIndex(pick: nat, n: nat): (k: nat)
    requires n > 0
    ensures k < n
    ensures pick < n ==> k == pick
  {
    pick % n
  }

  /** `MedicalHerbViewSet.random`, with the random choice an index `pick` the caller draws
      (taken below the number of rows, as `random.choice` does). */
  function Random(table: seq<MedicalHerb>, pick: nat): (r: Response<MedicalHerb>)
    ensures Queryset(table) == [] ==> r.NotFound?
    ensures r.Served? ==> r.body in Queryset(table)
  {
    var ids := Ids(Queryset(table));
    if ids == [] then NotFound
    else GetById(Queryset(table), ids[ChoiceIndex(pick, |ids|)])
  }

  /** The row's primary key. */
  function Id(h: MedicalHerb): int {
    h.id
  }

  /** With unique primary keys, `random` never fails on a non-empty base set, and every
      row of the base set is the answer for some choice. */
  lemma RandomReachesEveryRow(table: seq<MedicalHerb>, pick: nat)
    requires UniqueKeys(table, Id)
    ensures Queryset(table) != [] ==> Random(table, pick).Served?
    ensures forall h :: h in table && !h.isDeleted ==> exists k: nat :: Random(table, k) == Served(h)
  {
    var qs := Queryset(table);
    QuerysetSpec(table);
    UniqueKeysFilter(table, Id, NotDeleted);
    UniqueKeysSortBy(Filter(table, NotDeleted), ByName, Id);
    if qs != [] {
      RandomAt(table, ChoiceIndex(pick, |qs|));
    }
    forall h | h in table && !h.isDeleted ensures exists k: nat :: Random(table, k) == Served(h) {
      var i :| 0 <= i < |qs| && qs[i] == h;
      RandomAt(table, i);
    }
  }

  /** The choice of index `i` of the base set answers the row at `i`. */
  lemma RandomAt(table: seq<MedicalHerb>, i: nat)
    requires UniqueKeys(Queryset(table), Id) && i < |Queryset(table)|
    ensures Random(table, i) == Served(Queryset(table)[i])
  {
    var qs := Queryset(table);
    var ids := Ids(qs);
    assert ids[ChoiceIndex(i, |ids|)] == qs[i].id;
    assert Filter(qs, HasId(qs[i].id)) == [qs[i]] by {
      FilterOnlyAt(qs, HasId(qs[i].id), i);
    }
    assert Random(table, i) == GetById(qs, qs[i].id);
  }

  // ---------------------------------------------------------------- global search

  const GlobalDefaultLimit: int := 20

  /** `GlobalSearchView.get` on the parsed parameters: the first `limit` rows of the table
      that match the term and are not deleted, by name; the count is the number of
      results. */
  function GlobalSearchResponse(table: seq<MedicalHerb>, q: string, limit: Option<int>): (r: Response<SearchBody>)
    ensures r.NotFound? == false
    ensures r.ServerError? <==> limit.None? || (q != "" && limit.value < 0)
    ensures r.Served? ==> r.body.count == |r.body.results|
    ensures r.Served? && q == "" ==> r.body == SearchBody([], 0)
    ensures r.Served? && q != "" ==> |r.body.results| <= limit.value
  {
    match limit
    case None => ServerError
    case Some(n) =>
      if q == "" then Served(SearchBody([], 0))
      else
        var rows := SortBy(Filter(Filter(table, Matches(q)), NotDeleted), ByName);
        match SliceOrFail(rows, 0, n)
        case None => ServerError
        case Some(results) => Served(SearchBody(results, |results|))
  }

  function GlobalSearch(table: seq<MedicalHerb>, ps: seq<Param>): Response<SearchBody> {
    GlobalSearchResponse(table, QueryTerm(ps), IntParam(ps, "limit", GlobalDefaultLimit))
  }

  /** Matching the term before or after the base set's filter and order selects the same
      rows in the same order. */
  lemma MatchBeforeBaseFilter(table: seq<MedicalHerb>, q: string)
    ensures SortBy(Filter(Filter(table, Matches(q)), NotDeleted), ByName) == Filter(Queryset(table), Matches(q))
  {
    FilterCommute(table, Matches(q), NotDeleted);
    ByNameTotalPreorder();
    FilterSortBy(Filter(table, NotDeleted), ByName, Matches(q));
  }

  /** The global search gives the first page of `search` with the same term and limit:
      applying the match before or after the base set's filter and order selects the same
      rows in the same order. */
  lemma GlobalSearchIsFirstPage(table: seq<MedicalHerb>, q: string, limit: nat)
    requires q != ""
    ensures GlobalSearchResponse(table, q, Some(limit)).Served?
    ensures SearchResponse(table, q, Some(1), Some(limit)).Served?
    ensures GlobalSearchResponse(table, q, Some(limit)).body.results
      == SearchResponse(table, q, Some(1), Some(limit)).body.results
  {
    MatchBeforeBaseFilter(table, q);
    SearchFirstPage(table, q, limit);
  }

  lemma SearchFirstPage(table: seq<MedicalHerb>, q: string, limit: nat)
    requires q != ""
    ensures SearchResponse(table, q, Some(1), Some(limit)).Served?
    ensures SearchResponse(table, q, Some(1), Some(limit)).body.results == Slice(Filter(Queryset(table), Matches(q)), 0, limit)
  {
    assert PageStart(1, limit) == 0;
  }
}
