/**
 * The client's API service: how a search request's query parameters are built, how
 * failed responses are normalised, how the stored token is attached, and the empty
 * fallbacks of the suggestion and popular-word lookups.
 */
module Api {
  import opened Wrappers
  import opened Text
  import opened QueryString

  // ---------------------------------------------------------------- search request

  /** Optional filters of a search; each may be left out. */
  datatype SearchFilters = SearchFilters(
    partOfSpeech: Option<seq<string>>,
    difficulty: Option<seq<string>>,
    frequency: Option<seq<string>>,
    minLength: Option<int>,
    maxLength: Option<int>)

  /** The `{}` the home page passes: an object with no filter set. */
  const NoFilters: SearchFilters := SearchFilters(None, None, None, None, None)

  /** The optional filters. */
  datatype FilterKey = PartOfSpeech | Difficulty | Frequency | MinLength | MaxLength

  /** The query-string key of a filter. */
  function KeyName(k: FilterKey): string {
    match k
    case PartOfSpeech => "partOfSpeech"
    case Difficulty => "difficulty"
    case Frequency => "frequency"
    case MinLength => "minLength"
    case MaxLength => "maxLength"
  }

  /** `list?.length` is truthy: the list is given and not empty. */
  predicate ListGiven(v: Option<seq<string>>) {
    v.Some? && |v.value| > 0
  }

  /** A number is truthy: given and not `0`. */
  predicate NumberGiven(v: Option<int>) {
    v.Some? && v.value != 0
  }

  function ListValue(v: Option<seq<string>>): Option<string> {
    if ListGiven(v) then Some(Join(v.value, ",")) else None
  }

  function NumberValue(v: Option<int>): Option<string> {
    if NumberGiven(v) then Some(IntToString(v.value)) else None
  }

  /** The value a filter contributes, or nothing when it is left out. */
  function FilterValue(f: SearchFilters, k: FilterKey): Option<string> {
    match k
    case PartOfSpeech => ListValue(f.partOfSpeech)
    case Difficulty => ListValue(f.difficulty)
    case Frequency => ListValue(f.frequency)
    case MinLength => NumberValue(f.minLength)
    case MaxLength => NumberValue(f.maxLength)
  }

  /** The pair a filter contributes, if any. */
  function FilterParam(f: SearchFilters, k: FilterKey): seq<Param> {
    if FilterValue(f, k).Some? then [Param(KeyName(k), FilterValue(f, k).value)] else []
  }

  /** The pairs the filters contribute, in the order the service appends them, skipping
      those left out. */
  function FilterParams(f: SearchFilters): (r: seq<Param>)
    ensures |r| <= 5
  {
    FilterParam(f, PartOfSpeech) + FilterParam(f, Difficulty) + FilterParam(f, Frequency)
    + FilterParam(f, MinLength) + FilterParam(f, MaxLength)
  }

  /** The pairs that follow `q`, `page` and `limit`: none without a filter object. */
  function ExpectedFilterParams(filters: Option<SearchFilters>): seq<Param> {
    if filters.None? then [] else FilterParams(filters.value)
  }

  /** The query parameters of a search: `q`, `page` and `limit` first, then the filters
      that are set, in the order of `FilterParams`. */
  predicate IsSearchQuery(params: seq<Param>, query: string, filters: Option<SearchFilters>, page: int, limit: int) {
    && |params| >= 3
    && params[..3] == [Param("q", query), Param("page", IntToString(page)), Param("limit", IntToString(limit))]
    && params[3..] == ExpectedFilterParams(filters)
  }

  /** The page and the page size `searchWords` uses when its caller leaves them out. */
  const DefaultPage: int := 1
  const DefaultLimit: int := 10

  /** `searchWords`' query parameters, appended one after the other. A page or limit the
      caller leaves out takes its default. */
  method SearchParams(query: string, filters: Option<SearchFilters>, givenPage: Option<int>, givenLimit: Option<int>)
    returns (params: seq<Param>)
    ensures IsSearchQuery(params, query, filters, givenPage.GetOr(DefaultPage), givenLimit.GetOr(DefaultLimit))
  {
    var page := givenPage.GetOr(DefaultPage);
    var limit := givenLimit.GetOr(DefaultLimit);
    var head := [Param("q", query), Param("page", IntToString(page)), Param("limit", IntToString(limit))];
    var tail: seq<Param> := [];
    if filters.Some? {
      var f := filters.value;
      ghost var expected := FilterParam(f, PartOfSpeech);
      if ListGiven(f.partOfSpeech) {
        tail := tail + [Param("partOfSpeech", Join(f.partOfSpeech.value, ","))];
      }
      assert tail == expected;
      expected := expected + FilterParam(f, Difficulty);
      if ListGiven(f.difficulty) {
        tail := tail + [Param("difficulty", Join(f.difficulty.value, ","))];
      }
      assert tail == expected;
      expected := expected + FilterParam(f, Frequency);
      if ListGiven(f.frequency) {
        tail := tail + [Param("frequency", Join(f.frequency.value, ","))];
      }
      assert tail == expected;
      expected := expected + FilterParam(f, MinLength);
      if NumberGiven(f.minLength) {
        tail := tail + [Param("minLength", IntToString(f.minLength.value))];
      }
      assert tail == expected;
      expected := expected + FilterParam(f, MaxLength);
      if NumberGiven(f.maxLength) {
        tail := tail + [Param("maxLength", IntToString(f.maxLength.value))];
      }
      assert tail == expected;
    }
    params := head + tail;
    assert params[..3] == head && params[3..] == tail;
  }

  /** A list filter is sent exactly when it is non-empty, as its values joined by commas;
      a length bound is sent exactly when it is non-zero; nothing else is sent. */
  lemma FilterSent(f: SearchFilters, k: FilterKey, v: string)
    ensures Param(KeyName(k), v) in FilterParams(f) <==> FilterValue(f, k) == Some(v)
    ensures FilterValue(f, k).Some? <==>
      match k
      case PartOfSpeech => ListGiven(f.partOfSpeech)
      case Difficulty => ListGiven(f.difficulty)
      case Frequency => ListGiven(f.frequency)
      case MinLength => NumberGiven(f.minLength)
      case MaxLength => NumberGiven(f.maxLength)
  {
  }

  /** Distinct filters have distinct keys. */
  lemma KeyNameInjective(a: FilterKey, b: FilterKey)
    requires KeyName(a) == KeyName(b)
    ensures a == b
  {
  }

  /** The filter pairs never use the keys `q`, `page` or `limit`. */
  lemma FilterKeysDistinct(filters: Option<SearchFilters>)
    ensures !HasKey(ExpectedFilterParams(filters), "q")
    ensures !HasKey(ExpectedFilterParams(filters), "page")
    ensures !HasKey(ExpectedFilterParams(filters), "limit")
  {
    if filters.Some? {
      var ps := ExpectedFilterParams(filters);
      forall i | 0 <= i < |ps| ensures |ps[i].key| >= 9 {
        assert ps[i] in ps;
      }
    }
  }

  /** What the server reads back from a search request: the query, and the page and limit
      parsed back to the integers the client printed. */
  lemma SearchRequestRoundTrip(query: string, filters: Option<SearchFilters>, page: int, limit: int, params: seq<Param>)
    requires IsSearchQuery(params, query, filters, page, limit)
    ensures Get(params, "q") == Some(query)
    ensures Get(params, "page").Some? && ParseInt(Get(params, "page").value) == Some(page)
    ensures Get(params, "limit").Some? && ParseInt(Get(params, "limit").value) == Some(limit)
  {
    FilterKeysDistinct(filters);
    var head := params[..3];
    assert params == head + params[3..];
    GetSkipsOtherKeys(head, params[3..], "q");
    GetSkipsOtherKeys(head, params[3..], "page");
    GetSkipsOtherKeys(head, params[3..], "limit");
    HeadLookups(query, page, limit);
    IntToStringRoundTrip(page);
    IntToStringRoundTrip(limit);
  }

  lemma HeadLookups(query: string, page: int, limit: int)
    ensures var head := [Param("q", query), Param("page", IntToString(page)), Param("limit", IntToString(limit))];
      && Get(head, "q") == Some(query)
      && Get(head, "page") == Some(IntToString(page))
      && Get(head, "limit") == Some(IntToString(limit))
  {
    var head := [Param("q", query), Param("page", IntToString(page)), Param("limit", IntToString(limit))];
    var two := [Param("q", query), Param("page", IntToString(page))];
    var one := [Param("q", query)];
    assert head[..2] == two && two[..1] == one && one[..0] == [];
    assert Get(one, "q") == Some(query);
    assert Get(two, "q") == Some(query) && Get(two, "page") == Some(IntToString(page));
  }

  // ---------------------------------------------------------------- errors

  /** The body of an error response; only its `message` is read. */
  datatype ErrorBody = ErrorBody(message: Option<string>, fields: map<string, string>)

  datatype ErrorResponse = ErrorResponse(status: int, data: Option<ErrorBody>)

  /** A failed request: with a response when the server answered, without one otherwise. */
  datatype HttpError = HttpError(response: Option<ErrorResponse>)

  datatype ErrorCode = Status(status: int) | UnknownError

  /** The object every failed request is rejected with. */
  datatype ApiError = ApiError(message: string, code: ErrorCode, details: Option<ErrorBody>)

  const GenericMessage: string := "An error occurred"
  const AuthTokenKey: string := "authToken"

  predicate Unauthorized(e: HttpError) {
    e.response.Some? && e.response.value.status == 401
  }

  function ServerMessage(e: HttpError): Option<string> {
    if e.response.Some? && e.response.value.data.Some? then e.response.value.data.value.message else None
  }

  function NormaliseError(e: HttpError): (r: ApiError)
    ensures r.message == (if ServerMessage(e).Some? && ServerMessage(e).value != "" then ServerMessage(e).value else GenericMessage)
    ensures r.code.Status? <==> e.response.Some? && e.response.value.status != 0
    ensures r.code.Status? ==> r.code.status == e.response.value.status
    ensures r.details == if e.response.Some? then e.response.value.data else None
  {
    var m := ServerMessage(e);
    ApiError(
      if m.Some? && m.value != "" then m.value else GenericMessage,
      if e.response.Some? && e.response.value.status != 0 then Status(e.response.value.status) else UnknownError,
      if e.response.Some? then e.response.value.data else None)
  }

  /** Without a server answer the error is the generic one, whatever else happened. */
  lemma NoResponseIsGeneric(e: HttpError)
    requires e.response.None?
    ensures NormaliseError(e) == ApiError(GenericMessage, UnknownError, None)
  {
  }

  /** The browser's `localStorage`, as the key/value map it is. */
  class LocalStorage {
    var items: map<string, string>

    constructor (items: map<string, string>)
      ensures this.items == items
    {
      this.items := items;
    }
  }

  /** The response interceptor's error branch: a 401 forgets the stored token and sends the
      browser to the login page; every error is rejected in normalised form. */
  method OnResponseError(e: HttpError, storage: LocalStorage) returns (rejected: ApiError, toLogin: bool)
    modifies storage
    ensures rejected == NormaliseError(e)
    ensures toLogin <==> Unauthorized(e)
    ensures storage.items == if Unauthorized(e) then old(storage.items) - {AuthTokenKey} else old(storage.items)
  {
    toLogin := false;
    if Unauthorized(e) {
      storage.items := storage.items - {AuthTokenKey};
      toLogin := true;
    }
    rejected := NormaliseError(e);
  }

  /** The request interceptor: `Authorization: Bearer <token>` when a non-empty token is
      stored; the headers are otherwise left as they are. */
  function Authorize(headers: map<string, string>, stored: map<string, string>): (r: map<string, string>)
    ensures AuthTokenKey in stored && stored[AuthTokenKey] != "" ==>
      "Authorization" in r && r["Authorization"] == "Bearer " + stored[AuthTokenKey]
    ensures !(AuthTokenKey in stored && stored[AuthTokenKey] != "") ==> r == headers
    ensures forall k :: k in headers && k != "Authorization" ==> k in r && r[k] == headers[k]
    ensures r.Keys <= headers.Keys + {"Authorization"}
  {
    if AuthTokenKey in stored && stored[AuthTokenKey] != "" then
      headers["Authorization" := "Bearer " + stored[AuthTokenKey]]
    else headers
  }

  // ---------------------------------------------------------------- lookups with fallbacks

  /** The outcome of a call: the field read from the response body (absent when the body
      lacks it), or a failure of the call. */
  datatype Reply<T> = Answered(field: Option<T>) | CallFailed

  /** `getWordSuggestions` and `getPopularWords`: the field's list, or `[]` when the field
      is missing or the call failed. They never fail themselves. */
  function ListOrEmpty<T>(r: Reply<seq<T>>): (xs: seq<T>)
    ensures r.CallFailed? ==> xs == []
    ensures r.Answered? && r.field.None? ==> xs == []
    ensures r.Answered? && r.field.Some? ==> xs == r.field.value
  {
    match r
    case CallFailed => []
    case Answered(f) => f.GetOr([])
  }
}
