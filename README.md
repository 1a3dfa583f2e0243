# Medicinal-herb catalogue: a Dafny model

This project models the core of a catalogue of Turkmen medicinal herbs. The catalogue has two parts.

- A Django REST back end serves the herb table. It offers a paged search, name
  autocomplete, a "popular" list, the word of the day, a random herb and a global search.
  It stores each uploaded herb image as three WEBP thumbnails.
- A React front end holds two home pages: the current one and an older copy. Each fetches
  a page of the listing, maps the API records onto its own view model (`Osumlik`), offers
  suggestions while the user types, sorts search hits by relevance and pages through the
  listing. A detail page looks a herb up in its built-in table of records.

Every module follows one source file or one concept:

- `Views`: the view-set actions as pure functions of the herb table and the query string.
- `Thumbnails`: the image field as a class that changes a set of file paths. `Paths`
  models `os.path.join` for it.
- `Serializers`: the photo URL.
- `Api`: the client service. It covers query building, error normalisation, the token
  interceptor and the empty fallbacks.
- `HerbRecord`: the record mapping.
- `HomeSearch`: suggestions, the relevance order, the debounced local filter and the pager.
- `HomePage`: the home page as a class whose fields are its React state.
- `WordDetail`: the detail page.

Four helper modules carry the supporting definitions:

- `Text`: ASCII case folding, strip, integer printing and parsing.
- `Seqs`: filter, slice, a stable insertion sort.
- `Tiers`: the three-tier stable order, with an in-place array sort proved against it.
- `QueryString`: Django's last-value-wins `QueryDict.get`.

Dafny's integers are unbounded. Python's integers are unbounded too. The front end's
numbers stay far below 2^53, so none of them wraps.

## Model

| member | source | states |
|---|---|---|
| Views.Queryset | backend/apps/core/views.py:15 | the base set: the rows not soft-deleted, sorted by name (its properties are `Views.QuerysetSpec`) |
| Views.QuerysetSpec | backend/apps/core/views.py:15 | the base set holds exactly the table's non-deleted rows, each as often as the table does, ordered by name |
| Views.IntParam | backend/apps/core/views.py:29-30 | an absent parameter gives the default; a present one gives its parse, which fails on non-integer text |
| Views.SliceOrFail | backend/apps/core/views.py:43-45 | a query-set slice fails exactly when a bound is negative, and otherwise is the clamped slice |
| Views.SearchResponse | backend/apps/core/views.py:27-46 | it fails exactly when page or limit does not parse, or when a non-blank term's slice bound is negative; a blank term gives no results and count 0; otherwise the count is the number of all matches and the results are the matches from `(page-1)*limit` for `limit` rows |
| Views.QueryTerm | backend/apps/core/views.py:28 | `get('q', '').strip()`: empty exactly when the last `q` is absent or blank under Python's whitespace |
| Views.MatchesTerm | backend/apps/core/views.py:35-40 | the `Q` filter: the name, character, usage or natural source contains the term, ignoring case (`Views.Matches` is the same test as a function value) |
| Views.Search | backend/apps/core/views.py:27-46 | `search` on the request: the stripped `q` and the parsed `page` (default 1) and `limit` (default 10), answered by `Views.SearchResponse` |
| Views.SearchResultsMatch | backend/apps/core/views.py:35-45 | every result is a non-deleted row of the table that matches the term, and the results are in name order |
| Views.SearchBlankTerm | backend/apps/core/views.py:28-33 | a term that strips to nothing gives `{results: [], count: 0}` once page and limit parse |
| Views.SearchCountIgnoresPage | backend/apps/core/views.py:42-46 | the count is the same for every page and equals the number of matches; a page holds at most `limit` rows, and none for a negative limit that does not make a bound negative |
| Views.SearchOfClientRequest | backend/apps/core/views.py:28-30 | the server reads the client's search request as its stripped query, its page and its limit, whatever filters the client appended |
| Views.Names | backend/apps/core/views.py:55 | `values_list('name', flat=True)`: one name per row, in row order |
| Views.Suggestions | backend/apps/core/views.py:49-56 | the names of the first `limit` base-set rows whose name contains the term; empty for a blank term; fails on an unparsable limit, or on a negative one with a non-blank term |
| Views.SuggestionsSound | backend/apps/core/views.py:55-56 | at most `limit` suggestions, each the name of a live row whose name contains the term, in name order |
| Views.Newest | backend/apps/core/views.py:61 | `order_by('-created_at')` on the base set, as a stable sort (its properties are `Views.NewestSpec`) |
| Views.NewestSpec | backend/apps/core/views.py:61 | the newest-first order is a permutation of the base set, sorted newest first |
| Views.Popular | backend/apps/core/views.py:59-63 | the first `limit` rows of the base set, newest first; fails on an unparsable or negative limit |
| Views.PopularSpec | backend/apps/core/views.py:60-61 | at most `limit` live rows of the table, newest first, and no row left out is newer than one given |
| Views.PopularAll | backend/apps/core/views.py:60-61 | a limit at least the size of the base set gives the whole base set |
| Views.WordOfTheDay | backend/apps/core/views.py:76-82 | the first row of the base set, newest first; not found exactly when the base set is empty |
| Views.WordOfTheDayNewest | backend/apps/core/views.py:76-82 | not found exactly when every row is deleted; otherwise a live row that no live row is newer than |
| Views.GetById | backend/apps/core/views.py:71 | `get_object_or_404`: served exactly when one row has the id, not found exactly when none has |
| Views.ChoiceIndex | backend/apps/core/views.py:70 | the index of the random choice is below the number of ids, and is the draw itself when the draw is in range |
| Views.Random | backend/apps/core/views.py:66-73 | not found on an empty base set; any row served is in the base set |
| Views.RandomReachesEveryRow | backend/apps/core/views.py:66-73 | with unique primary keys, `random` is served whenever the base set is non-empty, and every live row is the answer for some draw |
| Views.RandomAt | backend/apps/core/views.py:67-71 | the draw of index `i` serves the base-set row at `i` |
| Views.GlobalSearchResponse | backend/apps/core/views.py:91-105 | it fails exactly when the limit does not parse, or is negative for a non-blank term; the count is the number of results; at most `limit` results |
| Views.GlobalSearch | backend/apps/core/views.py:91-105 | the global search on the request: the stripped `q` and the parsed `limit` (default 20), answered by `Views.GlobalSearchResponse` |
| Views.MatchBeforeBaseFilter | backend/apps/core/views.py:97-102 | matching before the deleted-filter and name order selects the same rows, in the same order, as matching after them |
| Views.GlobalSearchIsFirstPage | backend/apps/core/views.py:91-105 | the global search's results are the first page of `search` with the same term and limit |
| Views.SearchFirstPage | backend/apps/core/views.py:43-45 | page 1 of `search` is served and holds the first `limit` matches |
| Views.ByNameTotalPreorder | backend/apps/core/views.py:15 | ordering by name is total and transitive, so the stable sort yields a sorted base set |
| Thumbnails.SizeTable | backend/apps/core/fields.py:9-13 | the size table has exactly the keys `s`, `m` and `l`, which are distinct; `l` is 600×600 |
| Thumbnails.HashedName | backend/apps/core/fields.py:21-22 | the name is the hex digest of the bytes followed by `.webp` |
| Thumbnails.ThumbnailField.StoredHashedNameRelative | backend/apps/core/fields.py:49-60 | a hex digest and a relative upload directory give a relative stored name, which `Serializers.PhotoUrlOfStoredImage` needs |
| Thumbnails.Subdir | backend/apps/core/fields.py:51 | a string `upload_to` is the subdirectory; a callable gives `''` |
| Thumbnails.ThumbnailField.SavePath | backend/apps/core/fields.py:56-57 | `join(join(media_root, size_key, subdir), hashed)` (what lands there is `Thumbnails.ThumbnailField.WriteVariants`) |
| Thumbnails.ThumbnailField.StoredName | backend/apps/core/fields.py:60 | `join(subdir, hashed)`, the value set on the row (relative under `Thumbnails.ThumbnailField.StoredHashedNameRelative`) |
| Thumbnails.ThumbnailField.VariantPath | backend/apps/core/fields.py:69 | `join(media_root, size_key, name)`, where deletion looks (it meets `SavePath` by `Thumbnails.ThumbnailField.StoredVariantsAreWritten`) |
| Thumbnails.Replaces | backend/apps/core/fields.py:74-82 | a saved row whose stored version has an image that the new value clears or renames |
| Thumbnails.ThumbnailField.ProcessImage | backend/apps/core/fields.py:35-60 | an empty field or an unreadable image changes nothing; otherwise the three variants are added to the disk and the field is set to `<subdir>/<hash>.webp` |
| Thumbnails.ThumbnailField.WriteVariants | backend/apps/core/fields.py:55-58 | after the loop the disk holds exactly its old files plus one file per size key |
| Thumbnails.ThumbnailField.StoredVariantsAreWritten | backend/apps/core/fields.py:56-60 | the files looked up for a stored name are exactly the files written when it was stored |
| Thumbnails.ThumbnailField.VariantsDistinct | backend/apps/core/fields.py:68-69 | the three variant paths of a relative name are distinct |
| Thumbnails.ThumbnailField.RemoveVariants | backend/apps/core/fields.py:68-71 | the loop removes exactly the variants of the name that exist, and nothing else |
| Thumbnails.ThumbnailField.DeleteImages | backend/apps/core/fields.py:62-71 | a row without an image changes nothing; otherwise its variants are removed |
| Thumbnails.ThumbnailField.AutoDeleteOnChange | backend/apps/core/fields.py:73-89 | always answers false; removes the old image's variants exactly when a saved row's stored image is replaced by another or by none |
| Paths.PathJoin | backend/apps/core/fields.py:56-57 | an absolute component replaces the path; otherwise `/` is inserted only when the path so far is non-empty and does not end in one |
| Paths.PathJoinEnds | backend/apps/core/fields.py:56-57 | the joined path ends with the last component and starts with the first unless the last is absolute |
| Paths.PathJoinAssociative | backend/apps/core/fields.py:56-60 | `join(join(a, b), c) == join(a, join(b, c))` |
| Serializers.LargePhotoPath | backend/apps/core/serializers.py:18-19 | the photo path below the media URL is the large variant's key, `/`, then the stored name |
| Serializers.PhotoUrl | backend/apps/core/serializers.py:14-24 | nothing exactly when there is no image; otherwise the media URL plus `l/<name>`, made absolute when there is a request |
| Serializers.PhotoUrlNamesLargeVariant | backend/apps/core/serializers.py:19 | for a relative name, the URL's path below the media root is the file of the large variant |
| Serializers.PhotoUrlOfStoredImage | backend/apps/core/serializers.py:14-24 | the photo URL of a freshly stored image names one of the files the field wrote |
| Api.SearchParams | frontend/src/services/api.ts:50-81 | `q`, `page` and `limit` come first, a left-out page and limit being 1 and 10, then each filter that is set, in the service's order |
| Api.FilterParams | frontend/src/services/api.ts:65-81 | the pairs of the filters that are set, in the order they are appended, at most five |
| Api.FilterSent | frontend/src/services/api.ts:65-81 | a list filter is sent exactly when non-empty, joined by commas; a length bound exactly when non-zero |
| Api.KeyNameInjective | frontend/src/services/api.ts:66-80 | distinct filters are sent under distinct keys |
| Api.FilterKeysDistinct | frontend/src/services/api.ts:58-81 | no filter uses the keys `q`, `page` or `limit` |
| Api.SearchRequestRoundTrip | frontend/src/services/api.ts:58-62 | the server's `get` reads back the query, and page and limit parse back to the client's integers |
| Api.NormaliseError | frontend/src/services/api.ts:40-44 | the message is the server's non-empty message or the generic one; the code is the status when there is a non-zero status; the details are the body |
| Api.NoResponseIsGeneric | frontend/src/services/api.ts:40-44 | a failure without a response is the generic error with unknown code and no details |
| Api.OnResponseError | frontend/src/services/api.ts:31-45 | a 401 removes exactly the stored token and goes to the login page; every error is rejected normalised |
| Api.Authorize | frontend/src/services/api.ts:15-21 | a stored non-empty token sets `Authorization: Bearer <token>` and keeps the other headers; otherwise the headers are unchanged |
| Api.ListOrEmpty | frontend/src/services/api.ts:114-133 | the response's list, or `[]` when the field is missing or the call failed |
| Api.LocalStorage.constructor | frontend/src/services/api.ts:17 | the storage holds the given items |
| QueryString.Get | backend/apps/core/views.py:28-30 | nothing exactly when no pair has the key; otherwise the value of the LAST pair with that key |
| QueryString.GetIsLast | backend/apps/core/views.py:28-30 | the value of the last pair for a key is what the server reads for it |
| QueryString.GetSkipsOtherKeys | frontend/src/services/api.ts:65-81 | pairs appended under other keys do not change what the server reads for a key |
| Text.Trim | backend/apps/core/views.py:28 | for the given whitespace set (Python's here): empty exactly for a blank string; otherwise the text between the leading and trailing blanks, which starts and ends with a non-blank |
| Text.IntToStringRoundTrip | frontend/src/services/api.ts:60-61 | parsing an integer's decimal text gives the integer back |
| Text.ParseInt | backend/apps/core/views.py:29-30 | a parse succeeds exactly on a non-empty run of digits with an optional `-` or `+`; digits parse to their value, and a sign negates it or keeps it |
| Text.Join | frontend/src/services/api.ts:66-73 | `join(',')`: empty for no parts, the part itself for one, and otherwise starts with the first part |
| Text.SplitJoin | frontend/src/services/api.ts:66-73 | splitting a comma-joined list of comma-free values at the commas gives back the list |
| Text.MatchTiers | frontend/src/components/HomePage.tsx:230-244 | an exact match (ignoring case) is a prefix match, and a prefix match is a containment |
| HerbRecord.Normalise | frontend/src/components/HomePage.tsx:103-135 | one record's mapping: each field with its `\|\|` fallback, the legacy fields, the constants and the variant's category (its properties are `HerbRecord.NormaliseFields`) |
| HerbRecord.NormaliseAll | frontend/src/components/HomePage.tsx:103-135 | the mapping keeps the length and maps each record on its own |
| HerbRecord.NormaliseFields | frontend/src/components/HomePage.tsx:103-135 | each present, non-empty text field is copied; a missing one becomes `''` in the primary field and `Mälim däl` in the legacy one; family, genus, picture and category are constants; the result is well formed |
| HerbRecord.MappingsDifferOnlyInCategory | frontend/HomePage_backup.tsx:90-121 | the older mapping equals the listing mapping except for the category and the Latin name |
| HomeSearch.SuggestionsOf | frontend/src/components/HomePage.tsx:172-176 | one suggestion per herb, with the herb's id and a `🌿 <name> - Derman Ösümligi` caption |
| HomeSearch.SuggestsFor | frontend/src/components/HomePage.tsx:167-177 | a herb is suggested when its name or category contains the input, ignoring case |
| HomeSearch.Suggestions | frontend/src/components/HomePage.tsx:167-177 | the first five listed herbs whose name or category contains the input, as suggestions (its properties are `HomeSearch.SuggestionsSound`) |
| HomeSearch.SuggestionsSound | frontend/src/components/HomePage.tsx:167-177 | at most five suggestions, each of a listed herb whose name or category contains the input; when at most five match, every match is suggested |
| HomeSearch.CategoryTermSuggestsFirstHerbs | frontend/src/components/HomePage.tsx:132 | a term found in the listing category matches every listed herb, so the first five are suggested |
| HomeSearch.Rank | frontend/src/components/HomePage.tsx:230-244 | tier 0 exactly for an exact name, tier at most 1 exactly for a prefix name |
| HomeSearch.Compare | frontend/src/components/HomePage.tsx:230-244 | the comparator answers only -1, 0 or 1 (what it orders by is `HomeSearch.CompareIsRankOrder`) |
| HomeSearch.RelevanceOrder | frontend/src/components/HomePage.tsx:230-244 | the stable sort by the comparator: exact-name hits, then prefix hits, then the rest (its properties are `HomeSearch.RelevanceOrderSpec`) |
| HomeSearch.CompareIsRankOrder | frontend/src/components/HomePage.tsx:230-244 | the comparator is negative, zero or positive exactly when the first hit's tier is lower, equal or higher |
| HomeSearch.RelevanceOrderSpec | frontend/src/components/HomePage.tsx:230-244 | the sorted hits are a permutation in which no hit compares before an earlier one, and hits of a tier keep the server's order |
| HomeSearch.LocalMatch | frontend/src/components/HomePage.tsx:261-267 | a herb matches locally when its name, properties, category, habitat or usage contains the term, ignoring case |
| HomeSearch.Debounce | frontend/src/components/HomePage.tsx:256-313 | nothing for a blank term; the local matches when there are some; otherwise a server search for page 1 with limit 20 |
| HomeSearch.SuggestedAreLocalMatches | frontend/src/components/HomePage.tsx:261-267 | every suggested herb is also a local match of the debounced search |
| HomeSearch.PageCount | frontend/src/components/HomePage.tsx:669 | the least page count that holds the total: enough pages, the last one non-empty, zero only for no items |
| HomeSearch.PageCountLeast | frontend/src/components/HomePage.tsx:669 | no smaller page count holds the total |
| HomeSearch.PagerSteps | frontend/src/components/HomePage.tsx:675-688 | an enabled button moves exactly one page; the page stays at least 1 and the next button never passes the last page |
| HomeSearch.PrevPage | frontend/src/components/HomePage.tsx:677 | `Math.max(1, prev - 1)`: at least 1 and at least the page before, and one of the two |
| HomeSearch.NextPage | frontend/src/components/HomePage.tsx:688 | `Math.min(pageCount, prev + 1)`: at most the page count and at most the page after, and one of the two |
| HomeSearch.ListedTotal | frontend/src/components/HomePage.tsx:138 | the server's non-zero count, or else the number of herbs received |
| HomePage.ListingUrl | frontend/src/components/HomePage.tsx:99 | the listing request `/words/?page=<page>&limit=50` |
| HomePage.Panels | frontend/src/components/HomePage.tsx:485-763 | the blocks the page renders, each under its JSX condition (its properties are `HomePage.PanelsExclusive` and the lemmas after it) |
| HomePage.PanelsExclusive | frontend/src/components/HomePage.tsx:485-763 | the spinner shows exactly while loading and then alone; results and the no-result message exclude each other, as do the list and the no-herb message |
| HomePage.ClearedShowsListing | frontend/src/components/HomePage.tsx:517-520 | a cleared search shows exactly the list, or its empty message |
| HomePage.SearchShowsResults | frontend/src/components/HomePage.tsx:485 | a settled search with hits shows exactly the hits |
| HomePage.BlankTermShowsNoResult | frontend/src/components/HomePage.tsx:763 | a term of spaces shows the list and also the no-result message |
| HomePage.SortedHits | frontend/src/components/HomePage.tsx:199-246 | the hits are the mapped records sorted in place into the relevance order, each well formed |
| HomePage.HomePage.constructor | frontend/src/components/HomePage.tsx:70-80 | the initial state: no herbs, no results, empty term, list shown, page 1, total 0, not loading |
| HomePage.HomePage.StartFetch | frontend/src/components/HomePage.tsx:95-99 | the spinner starts and `/words/?page=<page>&limit=50` is requested |
| HomePage.HomePage.FetchSettled | frontend/src/components/HomePage.tsx:100-147 | a page replaces the listing with its mapped records and the total, and shows the list; a failure empties the listing |
| HomePage.HomePage.InputChange | frontend/src/components/HomePage.tsx:157-180 | the term is recorded; a blank input clears results and suggestions and shows the list; otherwise the suggestions are recomputed from the listing |
| HomePage.HomePage.Search | frontend/src/components/HomePage.tsx:182-196 | a blank value resets the search and requests nothing; otherwise the spinner starts, the list hides and page 1 of 100 hits is requested |
| HomePage.HomePage.SearchSettled | frontend/src/components/HomePage.tsx:197-253 | the hits in relevance order become the results; a failure empties them; the spinner stops |
| HomePage.HomePage.DebounceFired | frontend/src/components/HomePage.tsx:256-304 | the local matches become the results when there are some; otherwise nothing changes and the server is asked |
| HomePage.HomePage.DebounceSettled | frontend/src/components/HomePage.tsx:274-309 | the mapped server hits, unsorted, become the results; a failure changes nothing |
| HomePage.HomePage.ClearSearch | frontend/src/components/HomePage.tsx:517-520 | results and term are cleared and the list shows again |
| HomePage.HomePage.PrevClick | frontend/src/components/HomePage.tsx:675-677 | disabled on page 1; otherwise the page goes back by one |
| HomePage.HomePage.NextClick | frontend/src/components/HomePage.tsx:686-688 | disabled on the last page; otherwise the page goes forward by one, staying within the page count |
| HomePage.HomePage.PageChange | frontend/HomePage_backup.tsx:462-470 | the older page's pagination widget makes the chosen page current |
| WordDetail.PlainObjectGet | frontend/src/components/WordDetailPage.tsx:218 | an object literal yields its own value, an inherited member for a prototype name, or nothing |
| WordDetail.CategoryColorAsWritten | frontend/src/components/WordDetailPage.tsx:238-246 | `colors[kategoriýa] \|\| 'default'` as written, over the object-literal lookup |
| WordDetail.CategoryColorAsWrittenInherited | frontend/src/components/WordDetailPage.tsx:238-246 | the category `toString` gets the inherited function, not `'default'` |
| WordDetail.CategoryColor | frontend/src/components/WordDetailPage.tsx:238-246 | each of the four listed categories gets its colour, and every other string gets `'default'` |
| WordDetail.CategoryColorAgrees | frontend/src/components/WordDetailPage.tsx:238-246 | the corrected colour agrees with the code on every category that is not a prototype name |
| WordDetail.LookupAsWritten | frontend/src/components/WordDetailPage.tsx:218-223 | `mockOsumlukMaglumatlary[wordId]` as written: an own record, an inherited member, or nothing |
| WordDetail.LookupAsWrittenFindsMember | frontend/src/components/WordDetailPage.tsx:218-223 | the id `constructor` finds the inherited function, so no not-found error is set |
| WordDetail.LookupRecord | frontend/src/components/WordDetailPage.tsx:218-223 | a record exactly for the table's own ids, and that id's record |
| WordDetail.LookupAgrees | frontend/src/components/WordDetailPage.tsx:218-223 | the two lookups differ only on prototype names missing from the table |
| WordDetail.View | frontend/src/components/WordDetailPage.tsx:248-477 | the spinner exactly while loading; the not-found view exactly for a non-empty (truthy) error or no record, with the error or the default text; otherwise the record, with each optional section shown exactly when it is non-empty |
| WordDetail.WordDetailPage.constructor | frontend/src/components/WordDetailPage.tsx:48-50 | no record, no error, loading, so the spinner shows |
| WordDetail.WordDetailPage.Start | frontend/src/components/WordDetailPage.tsx:209-212 | without an id nothing changes or is looked up; otherwise loading starts and the error clears |
| WordDetail.WordDetailPage.Settle | frontend/src/components/WordDetailPage.tsx:218-227 | a failure sets the load error; an id among the table's own keys shows its record; any other id, a prototype name such as `constructor` included, sets the not-found error (the corrected lookup of the second Findings row); loading always stops |
| WordDetail.LookupOutcomeShown | frontend/src/components/WordDetailPage.tsx:218-272 | a found id shows its record, and the not-found and load-failed errors show the not-found view, whatever record was left before |
| WordDetail.MissingIdKeepsSpinner | frontend/src/components/WordDetailPage.tsx:207-248 | a fresh page started with an absent or empty id looks nothing up and renders the spinner |
| Tiers.SortByTier | frontend/src/components/HomePage.tsx:230-244 | the in-place insertion sort leaves the array in the stable three-tier order of its old contents |
| Tiers.TierOrderPermutes | frontend/src/components/HomePage.tsx:230-244 | the tier order is a permutation of its input |
| Tiers.TierOrderStable | frontend/src/components/HomePage.tsx:230-244 | the items of each tier keep their relative order (a stable sort) |

## Left out

- Transport, time and the browser are parameters or are left out. HTTP and axios stand
  behind `Option` replies. The debounce timer and its cancellation, the simulated
  one-second wait of the detail page, navigation, `window.location`, `console` logging
  and the JSX layout are left out.
- Unicode: case folding (`lower()`, `toLowerCase()`, `icontains`) is modelled for ASCII
  letters only. Trimming is modelled on ASCII whitespace. `Text.IsSpace` keeps the two
  ASCII sets apart: JavaScript's `trim()` removes space, tab, line feed, vertical tab, form
  feed and carriage return, and Python's `strip()` also removes U+001C to U+001F. Neither
  trim's non-ASCII whitespace (U+00A0, U+2028 and the others) is modelled.
- The database: the query set is a sequence of rows, ordered by a stable sort.
  - Rows with equal names keep table order.
  - `Views.Newest` sorts the name-ordered base set by date, so rows with equal creation
    dates come out in name order.
  - The database guarantees neither tie order. Its collation is not modelled.
- Python `int()` also accepts surrounding whitespace, `_` separators and any Unicode
  decimal digit, such as the full-width `３`. `Text.ParseInt` accepts only an optional
  sign and the ASCII digits.
- Percent-encoding in `URLSearchParams` and in the hand-built query strings of
  `getWordSuggestions` and `getPopularWords` is not modelled. Query pairs are kept as
  given. A `&` or `=` inside the suggestion query is therefore not modelled.
- `resize_and_save`: the image decoding, the EXIF transpose, the resizing and the WEBP
  encoding are not modelled, and neither is `os.makedirs`. Writing a variant adds its path
  to the disk.
- The SHA-256 digest is a function the field is given. `settings.MEDIA_ROOT` and
  `MEDIA_URL` are constants of the field or parameters of the serializer. The signal
  wiring in `contribute_to_class` is not modelled: its handlers are the methods.
- `request.build_absolute_uri` is a function parameter of `Serializers.PhotoUrl`. The
  serializer's other output fields (`fields = '__all__'`) are not modelled.
- Views.Random: `random.choice` is the index `pick` that the caller draws.
- The detail page's table of records is a parameter. Its contents are not reproduced:
  six mock herbs, with the ids `1`, `2`, `3`, `4`, `7` and `8`.
- The context and provider files of the front end, and any endpoint beyond the core,
  are left out. So are `getWordDetail`, `getRandomWord`, `getWordOfTheDay` and the
  listing endpoint's own pagination on the server.
- WordDetail.WordDetailPage.Settle: the lookup is the corrected `WordDetail.LookupRecord`
  of the second Findings row, not the lookup as written. As written, the id `constructor`
  (or any other name `Object.prototype` carries) stores the inherited function as the
  record and sets no error. In the model it sets the not-found error.
  `WordDetail.LookupAsWrittenFindsMember` states the behaviour as written.
  A missing id keeps the previously shown record, as the code does. The not-found view
  shows anyway, because the error is set.
- HomeSearch.PageCount: the page count is stated for non-negative totals only, which is
  every total the component can hold.
- The listing pages are not proved to tile the base set.
- The older home page's pagination of its search results, which appears only above 50
  results, is a rendering detail and is not modelled.

## Findings

| source | as written | input that shows it | evidently intended | confidence | as-written member | corrected member |
|---|---|---|---|---|---|---|
| frontend/src/components/WordDetailPage.tsx:238-246 | `colors[kategoriýa] \|\| 'default'` indexes an object literal, so a prototype name yields an inherited function | category `toString` gets the `toString` function as its tag colour (`WordDetail.CategoryColorAsWrittenInherited`); the defect is latent in the function and cannot be reached through the page today, since the one call (WordDetailPage.tsx line 359) passes a table record's category and every record uses one of the four listed categories | `'default'` for every category the table does not list | not executed | WordDetail.CategoryColorAsWritten | WordDetail.CategoryColor |
| frontend/src/components/WordDetailPage.tsx:218-223 | `mockOsumlukMaglumatlary[wordId]` finds inherited members, which are truthy | the route `/osumlik/constructor` sets no error and renders the function as a record (`WordDetail.LookupAsWrittenFindsMember`) | not found for every id the table does not hold | not executed | WordDetail.LookupAsWritten | WordDetail.LookupRecord |
