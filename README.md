# Faststamps: the query logic of the stamp services

Faststamps is a set of small web services over a catalogue of French stamps. This project
models the part of them that decides what an answer holds. Nothing in it is HTTP, pandas or
FastAPI.

- **The catalog API** (`stamp-catalog-api/main.py`) keeps a table of stamps, one row per
  stamp. A row is keyed by its type, its Yvert-Tellier number and its variant code. It answers:
  - `GET /stamps`: a chain of optional filters, then an optional `start`/`count` window, in
    English or French following the `Accept-Language` header;
  - `GET /stamps/{stamp_id}`: one stamp and the variants of its group;
  - `GET /stamp_titles`: a title search with a single `*` wildcard;
  - three sorted listings: years, colors and printed values.
- **The older catalogue API** (`stamp-catalogue-api/main.py`) does the same over a table whose
  rows are keyed by their Yvert-Tellier number alone. It reads years as integers and has no
  language.
- **The web application's search page** (`stamp-app/search.py`) does two things:
  - it keeps the base stamps of a catalog answer and cuts a page out of them;
  - it computes the pagination bar: the page count, the current page, the linked pages, and
    the first-page, last-page and ellipsis flags.

The modules follow the program:

- `PyStr`: the Python string operations the handlers use: slices, `split`, `strip`,
  `startswith`, `endswith`, `find`, `int()` and `str()` of an integer.
- `Seqs`: filters, `unique()` in order of first occurrence, `sorted()` and code-point order.
- `Outcomes`: the answers: a 200 body, a 400 with its JSON body (`null` or a message), a 404,
  or an uncaught exception (a 500).
- `StampIds`: the `T-N-V` / `T-N` stamp identifiers and the `url` column.
- `CatalogRecords`: the table rows, the dictionaries built from them, and
  `convert_db_stamp_to_api_stamp` as a class whose method rewrites its dictionary in place.
- `AcceptLanguage`: `parsed_accept_language` and the locale rule `language[0:2] == "fr"`.
- `Wildcard`: the title masks. Both services use the same masks.
- `CatalogApi`, `CatalogueApi` and `SearchPage`: the handlers.

Where a handler works step by step, it is a method, and its `ensures` ties it to a
specification function. The properties are proved about those functions. This covers
reassigning `stamps` through the filters, the loop that converts the records, the loop that
gives every variant its id, the parsing loop over the languages, and the pagination
computation.

### Where the code and its documentation differ

Wherever the two disagree, the model follows the code.

- `parsed_accept_language` is documented as ordering the languages by weight. It keeps them in
  header order (`AcceptLanguage.NotSortedByWeight`).
- The `value` filter of `GET /stamps` is an equality test on the printed value, like `title`;
  only `issued`, `color` and `stamp_type` take comma-separated lists.
- In the catalog API, `start` is ignored unless `count` is given
  (`CatalogApi.StartIgnoredWithoutCount`). The `count` of the answer is the number of stamps
  returned, not the number that match.
- In the older API, `start` and `count` are validated and then ignored
  (`CatalogueApi.StartCountIgnored`).
- A title query with no `*` is not an exact match. The masks read it as "begins with all but
  the last character and ends with the whole query" (`Wildcard.NoStarIsNotExact`).
- The two halves of a query around its `*` may overlap (`Wildcard.HalvesMayOverlap`).
- The wildcard results are not sorted; they come in order of first occurrence. Only the
  unfiltered title list is sorted.
- The older API sends the years under the key `titles` and the printed values under the key
  `colors`. The model keeps those names.

## Model

| member | source | states |
|---|---|---|
| `SearchPage.SearchResultPageSpec` | stamp-app/search.py:37-131 | For a request meeting the asserts, the page spec built step by step (page count, current page, window, the loop filling the links, the flags) equals the specification `Spec` |
| `SearchPage.Window` | stamp-app/search.py:81-107 | The first and last linked page chosen by the four cases and the two overflow corrections; they never describe a negative run (`first <= last + 1`) |
| `SearchPage.LinkPages` | stamp-app/search.py:109-111 | The loop appending `first..last` builds exactly the run of consecutive pages from `first` to `last` |
| `SearchPage.SetLinkFlags` | stamp-app/search.py:113-129 | The four membership and end tests on the linked pages give: the first-page link iff page 1 is outside the run, the last-page link iff the last page is, each ellipsis iff the run is non-empty and stops short on that side |
| `SearchPage.Interval` | stamp-app/search.py:110-111 | `range(a, b)`: `b - a` consecutive integers starting at `a`, none when `b <= a` |
| `SearchPage.IntervalMembers` | stamp-app/search.py:114-121 | A page is in `range(a, b)` exactly when `a <= page < b` |
| `SearchPage.NoResults` | stamp-app/search.py:54-64 | With no results: no pages, current page 0, no links and every flag false, whatever flags were passed in |
| `SearchPage.PageCountCeiling` | stamp-app/search.py:67 | The page count is the least number of pages of `rpp` results that holds all results |
| `SearchPage.CurrentPageBounds` | stamp-app/search.py:48-69 | A start aligned to the page size and within the results gives a current page between 1 and the page count |
| `SearchPage.LinkedPagesContiguous` | stamp-app/search.py:109-111 | The linked pages are consecutive |
| `SearchPage.FewPagesOrLinks` | stamp-app/search.py:83-92 | Enough links for every page link exactly pages 1..page count; 0 links link nothing; 1 link links the current page alone |
| `SearchPage.WindowWidth` | stamp-app/search.py:93-107 | With more than one link and fewer links than pages, exactly `linked_pages` pages are linked, all of them existing pages, including the current page when it exists |
| `SearchPage.CentredWindow` | stamp-app/search.py:94-100 | Away from both ends the window starts `linked_pages // 2` before the current page and, for an even width, ends one page earlier than it starts before |
| `SearchPage.FirstOfManyPages` | stamp-app/search.py:37-131 | 2735 results, 20 per page, 10 links, from the start: 137 pages, pages 1-10 linked, right ellipsis and last-page link shown, nothing on the left |
| `SearchPage.Flags` | stamp-app/search.py:113-129 | With results, each flag is equivalent to its condition on the linked pages; next/previous are passed through unchanged |
| `SearchPage.BaseStamps` | stamp-app/search.py:141 | The kept stamps are exactly the answer's stamps whose variant code is empty |
| `SearchPage.StampSearchResults` | stamp-app/search.py:134-149 | The query and count are kept; base and variant counts add up to the answer's count; the page holds only base stamps of the answer and at most `results_per_page` of them |
| `SearchPage.PageOfBaseStamps` | stamp-app/search.py:147 | The page is the slice of the base stamps starting at `start`, of length `min(results_per_page, remaining)` |
| `SearchPage.VariantCount` | stamp-app/search.py:142-146 | When the answer's count is its length, the variant count is the number of non-base stamps |
| `SearchPage.CatalogStampsHaveIds` | stamp-app/search.py:141 | Every stamp a successful catalog `GET /stamps` returns has the nested `id` the filter reads |
| `AcceptLanguage.ParseEntry` | stamp-catalog-api/main.py:114-121 | An entry without `;` gives its stripped tag with weight `"1"`; with `;`, the stripped text before the first `;` and, as weight, the text between the first and second `=` of the piece after it |
| `AcceptLanguage.ParseEntries` | stamp-catalog-api/main.py:112-122 | One pair per comma-separated entry, in header order, each the entry's own parse |
| `AcceptLanguage.ParseAcceptLanguage` | stamp-catalog-api/main.py:106-122 | No header gives the bare tuple `('en', '1')`; a header gives one entry per comma piece whose tag is that piece's stripped text before `;` |
| `AcceptLanguage.ParsedAcceptLanguage` | stamp-catalog-api/main.py:106-122 | The imperative parser returns exactly `ParseAcceptLanguage` of the header |
| `AcceptLanguage.ParsedEntries` | stamp-catalog-api/main.py:113-122 | The loop appending one pair per entry returns exactly `ParseEntries` of the entries |
| `AcceptLanguage.ParseEntriesSnoc` | stamp-catalog-api/main.py:114-121 | Parsing one more entry appends that entry's pair to the result so far |
| `AcceptLanguage.ParsedEntry` | stamp-catalog-api/main.py:115-121 | The branch on `split(";")[0] == language` returns exactly `ParseEntry` of the entry |
| `AcceptLanguage.IsFrenchPrefix` | stamp-catalog-api/main.py:252 | `language[0:2] == "fr"` holds exactly when the tag starts with `fr` |
| `AcceptLanguage.LocaleRule` | stamp-catalog-api/main.py:234 | Without a header the language is `"e"` (the first character of `'en'`) and not French; with one, French iff the first entry's tag starts with `fr` |
| `AcceptLanguage.PlainEntry` | stamp-catalog-api/main.py:115-117 | A bare tag parses to itself with weight `"1"` |
| `AcceptLanguage.WeightedEntry` | stamp-catalog-api/main.py:118-121 | `tag;q=w` parses to `(tag, w)` |
| `AcceptLanguage.NotSortedByWeight` | stamp-catalog-api/main.py:106-122 | A header `a;q=w,b` parses to `[(a, w), (b, "1")]` in header order, whatever the weights, and its locale follows `a` |
| `StampIds.ParseStampId` | stamp-catalog-api/main.py:306-317 | An id splits into a key exactly when it has one or two `-`; one `-` gives an empty variant; the parts never contain `-` |
| `StampIds.DecodeEncode` | stamp-catalog-api/main.py:306-317 | An id written from a key whose parts have no `-` splits back into that key |
| `StampIds.UrlDecodes` | stamp-catalog-api/main.py:144-146 | A `url` cell is `stamps/` followed by an id that splits back into the row's key |
| `StampIds.EncodeDecode` | stamp-catalog-api/main.py:306-317 | An id that splits is the id written from its key, or that id followed by `-` (an empty third part) |
| `StampIds.SeparatorInTypeIsAmbiguous` | stamp-catalog-api/main.py:306-317 | A type containing `-` does not round-trip: `A-B-1` is read as type `A`, number `B`, variant `1` |
| `CatalogRecords.NameInjective` | stamp-catalog-api/main.py:97-103 | Distinct fields have distinct Python keys, so dictionaries keyed by field are the handlers' string-keyed dictionaries |
| `CatalogRecords.UrlColumnDecodes` | stamp-catalog-api/main.py:144-146 | Adding the `url` column keeps every row otherwise unchanged, and each row's url decodes, after `stamps/`, to its key |
| `CatalogRecords.Lookup` | stamp-catalog-api/main.py:321 | `indexed_db.loc[key]` finds a row exactly when some row has the key, and the row found has it |
| `CatalogRecords.LookupUnique` | stamp-catalog-api/main.py:148-149 | With unique keys, looking a row's key up finds that row |
| `CatalogRecords.IndexedRowKeys` | stamp-catalog-api/main.py:148 | A row of the indexed table has every column except the three key columns, with the row's values |
| `CatalogRecords.ApiDictOfRow` | stamp-catalog-api/main.py:94-103 | Converting a record gives the API stamp fields: the key columns replaced by a nested `id` holding the row's key, every other column unchanged |
| `CatalogRecords.StampDict.ConvertDbStampToApiStamp` | stamp-catalog-api/main.py:94-103 | In place: the three key columns are deleted, `id` is added with their values, and every other entry is unchanged |
| `CatalogApi.ChainSelects` | stamp-catalog-api/main.py:250-272 | After the first n filters, the remaining rows are those passing the first n masks whose parameters are given |
| `CatalogApi.FilteredSelects` | stamp-catalog-api/main.py:250-272 | The successive reassignments of `stamps` keep exactly the rows, in table order, that pass every mask whose parameter is given |
| `CatalogApi.FilteredIdempotent` | stamp-catalog-api/main.py:250-272 | Filtering twice with the same query gives the same rows |
| `CatalogApi.GetStamps` | stamp-catalog-api/main.py:233-289 | The handler's steps (language, the checks, the filters, the window, the conversion loop) answer exactly `StampsResource` |
| `CatalogApi.RequestLocale` | stamp-catalog-api/main.py:234 | The handler's language test is the locale rule on the header |
| `CatalogApi.FilterStamps` | stamp-catalog-api/main.py:250-272 | The chain of `if … : stamps = stamps[mask]` gives exactly `Filtered` |
| `CatalogApi.SelectStamps` | stamp-catalog-api/main.py:273-278 | The filters followed by the `[i:i+count]` window give exactly `Selected` |
| `CatalogApi.ConvertRecords` | stamp-catalog-api/main.py:281-283 | The loop converting each record gives, position by position, the API stamp of each row |
| `CatalogApi.StampsValidation` | stamp-catalog-api/main.py:235-248 | `start <= 0` first, `count <= 0` next are rejected with a 400 whose body is `null`, and these are the only 400s; otherwise the answer is a list whose count is its length |
| `CatalogApi.SelectedRows` | stamp-catalog-api/main.py:273-278 | Without `count`, all filtered rows; with it, the rows from `start - 1` (or 0), `count` of them or as many as remain |
| `CatalogApi.StampsPage` | stamp-catalog-api/main.py:273-285 | A valid query answers the API stamps of the window, in order, with their number as count |
| `CatalogApi.StartIgnoredWithoutCount` | stamp-catalog-api/main.py:273-278 | Without `count`, a valid `start` changes nothing |
| `CatalogApi.StampsAreApiStamps` | stamp-catalog-api/main.py:280-285 | Every stamp answered has the API stamp fields and is the conversion of a table row that the query selects |
| `CatalogApi.ResolvedDictFields` | stamp-catalog-api/main.py:321-328 | The single-stamp answer has the row's columns, its key as `id`, the `url` built from the id as given, and the `variants` cell |
| `CatalogApi.GetStamp` | stamp-catalog-api/main.py:302-357 | The handler (split, lookup, `id`, `url`, variants and their loop, the 404 paths) answers exactly `StampResource` |
| `CatalogApi.AddVariantIds` | stamp-catalog-api/main.py:336-345 | The loop over the variants gives every entry the id of its code (`" "` meaning no variant) and touches nothing else |
| `CatalogApi.StampNotFound` | stamp-catalog-api/main.py:306-357 | Not found iff the id does not split into 2 or 3 parts or no row has the key it spells |
| `CatalogApi.StampFound` | stamp-catalog-api/main.py:319-328 | A found stamp is the row with the parsed key, with `id` the key, `url` from the id given, and the row's other columns |
| `CatalogApi.ResolveUrl` | stamp-catalog-api/main.py:302-328 | Following a row's `url` finds that row again, with its key as `id` |
| `CatalogApi.StampVariants` | stamp-catalog-api/main.py:330-345 | `variants` is `None` iff the stamp's group has one member; otherwise it maps every variant code of the group to that sibling's columns plus its `id` |
| `CatalogApi.GroupCellCases` | stamp-catalog-api/main.py:330-345 | The same, for any group `(type, number)` |
| `CatalogApi.SiblingsShareVariants` | stamp-catalog-api/main.py:330-335 | Two stamps of the same group answer the same `variants` |
| `CatalogApi.StampTitles` | stamp-catalog-api/main.py:425-467 | No query or `*`: every title of the language once, sorted. More than one `*`: a 400 whose body is the message. Otherwise: the distinct matching titles in order of first occurrence, exactly the titles that match |
| `CatalogApi.StampYears` | stamp-catalog-api/main.py:470-481 | Every issue year once, sorted, with its count |
| `CatalogApi.StampColors` | stamp-catalog-api/main.py:484-503 | Every color of the language once, sorted, with its count |
| `CatalogApi.StampValues` | stamp-catalog-api/main.py:506-525 | Every printed value of the language once, sorted, with its count |
| `Outcomes.Listing` | stamp-catalog-api/main.py:475-477 | `sorted(column.unique())`: ascending, without duplicates, exactly the column's values, with its length as count |
| `Wildcard.PatternFilterMatches` | stamp-catalog-api/main.py:450-461 | For a query with at most one `*`, the masks keep, in order, exactly the titles that match it |
| `Wildcard.BothEndsUnreachable` | stamp-catalog-api/main.py:450-453 | Once `*` alone is handled, a single-star query never has a star at both ends, so the `contains` branch is dead |
| `PyStr.SliceEnds` | stamp-catalog-api/main.py:455-457 | `q[0:-1]` drops the last character and `q[1:]` the first, as the two one-ended masks read the query |
| `Wildcard.TrailingStarMask` | stamp-catalog-api/main.py:454-455 | A trailing `*` keeps the titles that start with the rest |
| `Wildcard.LeadingStarMask` | stamp-catalog-api/main.py:456-457 | A leading `*` keeps the titles that end with the rest |
| `Wildcard.InnerStarMasks` | stamp-catalog-api/main.py:458-461 | An inner `*` keeps the titles that start with the text before it and end with the text after it |
| `Wildcard.NoStarMasks` | stamp-catalog-api/main.py:458-461 | With no `*`, `find` gives -1, so the titles kept start with all but the last character and end with the whole query |
| `Wildcard.StarQuery` | stamp-catalog-api/main.py:443-461 | `a*b` is a valid query and matches exactly the titles that start with `a` and end with `b` |
| `Wildcard.ExactTitleMatches` | stamp-catalog-api/main.py:458-461 | A query with no `*` matches the title equal to it |
| `Wildcard.NoStarIsNotExact` | stamp-catalog-api/main.py:458-461 | A query `ab` with no `*` also matches `aab` |
| `Wildcard.HalvesMayOverlap` | stamp-catalog-api/main.py:458-461 | `a*a` matches the one-letter title `a` |
| `PyStr.ParseInt` | stamp-catalogue-api/main.py:117 | `int()` of a text succeeds exactly when the stripped text, after an optional sign, is digits with single `_` separators |
| `PyStr.IntRoundTrip` | stamp-catalogue-api/main.py:117 | `int(str(n)) == n` for every integer |
| `CatalogueApi.ParseYears` | stamp-catalogue-api/main.py:117 | The list of years parses exactly when every item does, item by item |
| `CatalogueApi.YearTextsParse` | stamp-catalogue-api/main.py:117 | Reading back the texts of a list of years gives the list |
| `CatalogueApi.YearQuery` | stamp-catalogue-api/main.py:116-117 | A `year` parameter made of comma-joined years reads back as those years |
| `CatalogueApi.FilteredSelects` | stamp-catalogue-api/main.py:113-126 | The successive filters keep exactly the rows, in table order, that pass every mask whose parameter is given |
| `CatalogueApi.StampsValidation` | stamp-catalogue-api/main.py:104-130 | `start <= 0` first, `count <= 0` next give a 400 whose body is `null`, and only they do; a non-integer year gives the uncaught error; otherwise all selected rows with their number |
| `CatalogueApi.StartCountIgnored` | stamp-catalogue-api/main.py:104-130 | Valid `start` and `count` do not change the answer |
| `CatalogueApi.YearFilter` | stamp-catalogue-api/main.py:116-118 | A query listing years answers exactly the rows issued in one of them |
| `CatalogueApi.StampResource` | stamp-catalogue-api/main.py:139-145 | Found iff some row has the number; then the first such row, otherwise not found |
| `CatalogueApi.StampFound` | stamp-catalogue-api/main.py:139-142 | With numbers unique, every row is found by its own number |
| `CatalogueApi.StampTitles` | stamp-catalogue-api/main.py:157-184 | No query or `*`: every title once, sorted, under `titles`. More than one `*`: a 400 whose body is the message. Otherwise: the distinct matching titles under `stamp_titles` |
| `CatalogueApi.AllTitles` | stamp-catalogue-api/main.py:160-165 | The distinct titles, sorted, exactly the table's titles |
| `CatalogueApi.SearchTitles` | stamp-catalogue-api/main.py:170-184 | The masks over the distinct titles keep exactly the titles that match, once each |
| `CatalogueApi.DistinctThenSearch` | stamp-catalogue-api/main.py:170-184 | Searching the distinct titles gives the distinct titles of searching the whole column, so both services agree |
| `CatalogueApi.StampYears` | stamp-catalogue-api/main.py:187-193 | Every issue year once, ascending, under `titles` |
| `CatalogueApi.StampColors` | stamp-catalogue-api/main.py:196-202 | Every color once, sorted, under `colors` |
| `CatalogueApi.StampValues` | stamp-catalogue-api/main.py:205-211 | Every printed value once, sorted, under `colors` |

## Left out

- HTTP and FastAPI are not modelled. Status codes become the kinds of `Outcomes.Outcome`, and
  an uncaught exception becomes `ServerError`. A 400 carries the JSON body the client receives.
  For a bad `start` or `count` that body is `null`: the handlers write their message to
  `response.body` of the injected response and return `None`, and the framework sends only
  that response's status code and headers, so the message is never sent. Only the
  multiple-star 400 of the title search sends its message. Parameter coercion is not modelled.
- `CatalogApi.StampVariants`, `CatalogApi.GroupCellCases`: the pydantic
  `StampWithVariants.model_validate` of `get_stamp` is not modelled. Its `variants` field is
  declared as a dictionary, not as optional, so as written a stamp whose group has one member
  sets `variants` to `None`, fails validation, and the error is not the `KeyError` the handler
  catches: that answer is a 500. The model answers such a stamp with `variants` set to `None`,
  the answer the handler builds and evidently intends.
- The `Server-Timing` and `Content-Language` headers, `time.perf_counter_ns`, and the
  `search_time` that `stamp_search_results` parses out of a header are not modelled. They are
  clocks and I/O.
- Loading the CSV table at startup is not modelled. The table is a parameter: a sequence of
  rows with unique keys. pandas' NaN replacement and `sort_index` are also left out. The key
  order of the `variants` object, which `to_dict('index')` takes from the sorted index, is not
  modelled: `variants` is a map.
- `CatalogueApi.StampResource`, `CatalogueApi.StampsResource`: a row of the older table is
  modelled by the six columns the handlers read (`yt`, `title`, `issued`, `color`, `value`,
  `type`), while `to_dict(orient='records')` answers every column of the CSV file. The
  `issued` column is assumed to hold integers: the table is read without a `dtype`, and the
  year filter compares it with the integers of the `year` parameter.
- The image endpoints, `stamp-app/main.py`, `stamp-app/web-app-api/main.py` and the test
  files are not part of this model.
- The `print(q)` of the older `get_stamp_titles` is not modelled. It is output only.
- `CatalogApi.StampTitles`, `CatalogueApi.StampTitles`: require `q != ""`, because
  `q[-1]` raises `IndexError` for an empty query; that crash is not modelled as an answer.
- `AcceptLanguage.ParseAcceptLanguage`: requires `HeaderParses`, because an entry with a
  `;` but no `=` after it raises `IndexError` at `split("=")[1]`. That crash is not modelled
  as an answer; every member that reads the header carries the same precondition.
- `PyStr.ParseInt`: models `int()` on the ASCII digits `0`-`9` only. The other Unicode
  decimal digits that Python also accepts are not modelled.
- `CatalogApi.GetStamp`: works on values. The variant dictionaries that the loop updates in
  place are shared with the `variants` map the answer holds, and that aliasing is not modelled.
- `CatalogApi.StampTitles`: the handler's `start` and `count` parameters are accepted and
  never read, so the model has no such parameters.
- `SearchPage.SearchResultPageSpec`: the `assert`s on the arguments are a precondition
  (`ValidRequest`) rather than a modelled `AssertionError`.
