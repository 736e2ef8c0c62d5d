# TRAVEL: event ingestion and query filters, modelled in Dafny

TRAVEL collects cultural events for sixteen European cities and serves them to a map front end.
This project models two parts of it:

- **The monthly append script** (`event_pipeline_monthly_append.py`). For every city and up to
  nine event types, it searches for events and takes at most five results per search. It skips
  any listing whose link is already in the CSV, and translates the other listings' texts to
  French. It parses the `when` text into start, end and duration, and geocodes the venue through
  a cache that is saved after every new lookup. It writes one 20-column row per new listing, and
  a header only when the file was missing or empty.
- **The query side** (`utils/data_utils.py`, `app.py`, `routes/main_routes.py`):
  - the two copies of `normalize_text`;
  - the tolerant category filter (blueprint version) and the exact one (`app.py`);
  - the date window;
  - the free-text filters;
  - the date sort of `/api/smart-search`;
  - the per-city counts of `/api/cities-by-llm`.

Modules, one per concern:

- `Wrappers` holds `Option`.
- `Seqs` holds filtering, mapping, splitting and joining of sequences, plus substrings and
  subsequences.
- `Text` is `normalize_text` and `str.strip`.
- `Sorting` is an insertion sort under a total preorder. It stands in for `sort_values`.
- `CityCounts` is `groupby(...).size()` followed by a sort by decreasing count.
- `Events` is the event table.
- `DataUtils` is the shared filters of `utils/data_utils.py`.
- `App` is the routes of `app.py`.
- `MainRoutes` is the routes of `routes/main_routes.py`.
- `Geocode`, `Translate` and `DateRange` are the three helpers of the script.
- `Ingest` is the script's configuration and its run as a function: the state holds the known
  links, the cache and the rows written.
- `MonthlyAppend` is the script's CSV file as lines, plus the class `Pipeline`. The class holds
  the script's mutable state (`geo_cache`, its saved copy, `existing_links`, the CSV) and the
  script's three nested loops, written as methods with loop invariants. The methods are proved
  equal to the functional run.

The external services are function-valued parameters, fixed for one run: the event search, the
translator, the geocoder, the `dateutil` parser and `pd.to_datetime`. A service that raises is
modelled as `None`. `pd.to_datetime` on a request bound that it accepts gives either NaT (for
texts such as `"NaT"` or `"nan"`) or a timestamp.

## Model

| member | source | states |
|---|---|---|
| Text.Strip | utils/data_utils.py:10 | `str.strip()`: the result is the middle slice of the input between its leading and trailing whitespace runs, and it neither starts nor ends with whitespace |
| Text.StripOfStripped | utils/data_utils.py:10 | stripping is idempotent |
| Text.Collapse | utils/data_utils.py:14 | `re.sub(r'\s+', ' ', s)`: the result has no whitespace but single spaces, is empty iff the input is, and starts with a space when the input starts with whitespace and with the input's first character otherwise |
| Text.CollapseKeepsText | utils/data_utils.py:14 | collapsing keeps every non-whitespace character, in order |
| Text.CollapseOfCollapsed | utils/data_utils.py:14 | a string that is already collapsed is unchanged |
| Text.CollapseRun | utils/data_utils.py:14 | each maximal whitespace run becomes exactly one space: for `a` not ending and `b` not starting in whitespace and a non-empty run `w`, `Collapse(a + w + b) == Collapse(a) + " " + Collapse(b)` |
| Text.Nfd | utils/data_utils.py:11 | every character of the NFD result is its own decomposition |
| Text.Normalize | utils/data_utils.py:6-15 | `normalize_text` gives a collapsed string of decomposed, unmarked, lower-case characters |
| Text.NormalizeTwice | app.py:13-21 | normalising a normalised string only strips it; both copies of the function are the same text |
| Seqs.Keep | utils/data_utils.py:70 | boolean-mask selection: every kept element passes, and each passing value is kept exactly as often as it occurs in the input |
| Seqs.KeepMembers | utils/data_utils.py:70 | an element is kept iff it occurs in the input and passes |
| Seqs.KeepKeep | utils/data_utils.py:76-87 | two successive selections equal one selection by the conjunction |
| Seqs.JoinSplit | event_pipeline_monthly_append.py:123 | splitting a string on a character and joining the pieces with that character returns the string |
| Seqs.SplitJoin | event_pipeline_monthly_append.py:123 | splitting a join of separator-free pieces returns the pieces |
| Seqs.SplitAfterFirst | event_pipeline_monthly_append.py:123 | `(a + sep + rest).split(sep)` is `[a]` followed by the pieces of `rest` |
| DataUtils.InterestsMembers | utils/data_utils.py:59 | an interest is the normalisation of a non-blank comma-separated piece of the parameter, and every such piece gives one |
| DataUtils.CategoryMatchBySubstring | utils/data_utils.py:61-68 | `category_match` is false on a null cell; otherwise it is true iff some interest occurs in the normalised cell, because every token is itself a substring of the cell |
| DataUtils.TokenIsSubstring | utils/data_utils.py:66 | every stripped token cut at `;,/|-` occurs in the cell |
| DataUtils.FilterByCategorySpec | utils/data_utils.py:48-70 | an empty parameter or a missing Category column returns the table; otherwise exactly the rows with a non-null, matching cell are kept, in order, with the columns kept |
| DataUtils.BlankInterestsKeepNothing | utils/data_utils.py:55-59 | a non-empty parameter with only blank pieces still filters, and it keeps no row |
| DataUtils.FilterByDateWindow | utils/data_utils.py:72-88 | without a DateTime_start column the table is returned as is; otherwise the two steps keep exactly the rows inside the window, in order |
| DataUtils.FilterByDateDropsNaT | utils/data_utils.py:76-87 | the result is an ordered subsequence, and once a bound applies no NaT row survives |
| DataUtils.UnparsableBoundIgnored | utils/data_utils.py:76-81 | a start bound that is empty or fails to parse has the effect of no start bound |
| DataUtils.NaTBoundKeepsNothing | utils/data_utils.py:76-87 | a bound that parses to NaT is applied, no row compares true with it, and no row is kept |
| App.FilterByCategoryExact | app.py:56-61 | an empty parameter returns the table; otherwise a row is kept iff its normalised category equals the normalisation of a non-blank piece of the parameter |
| App.ExactMatchIsTolerant | app.py:61 | on a non-null cell, every exact match is also a match of the tolerant `category_match` |
| App.FilteredRows | app.py:106-115 | category, then dates, then the lower-case text filter keep exactly the rows passing all three tests, in order |
| App.SmartSearchSpec | app.py:98-121 | the result holds exactly the passing rows, as a multiset; without `sort=date` they keep the table's order, and with it the starts never decrease and NaT rows come last |
| App.CitiesByLlmSpec | app.py:126-150 | each distinct City value of the passing rows with a non-blank City appears once, with its row count; the counts never increase and sum to the number of those rows |
| MainRoutes.ApplyFiltersRows | routes/main_routes.py:23-59 | category (only with interests), normalised text (only with a non-empty normalised query), then dates keep exactly the rows passing all three tests, in order |
| MainRoutes.ApplyFiltersSound | routes/main_routes.py:23-59 | the result is an ordered subsequence of the table, and a row is in it iff it is in the table and passes |
| MainRoutes.EmptyArgumentsSkipFilters | routes/main_routes.py:39-57 | empty interests and a blank query apply only the date window |
| MainRoutes.SmartSearchSpec | routes/main_routes.py:85-92 | the result holds exactly the passing rows, as a multiset; with `sort=date` the starts never decrease and NaT rows come last |
| MainRoutes.BlankInterestsDiverge | routes/main_routes.py:33-40 | an all-whitespace interests parameter makes the blueprint keep no row, while `app.py` (which strips it, app.py:100 and 57-58) keeps the table |
| MainRoutes.CityReportSpec | routes/main_routes.py:114-125 | each stripped non-blank City value appears once, itself stripped, with its row count; the counts never increase and sum to the number of those rows |
| MainRoutes.CitiesByLlmSpec | routes/main_routes.py:107-127 | without a City column the answer is `[]`; otherwise it is the report over exactly the passing rows |
| MainRoutes.StrippedCitiesMerge | routes/main_routes.py:114-125 | rows whose City values differ only in surrounding whitespace are reported as one city, with all their rows |
| Events.SortByStart | routes/main_routes.py:91-92 | `sort_values("DateTime_start")` returns a permutation of the rows in which the timestamps never decrease and NaT rows come last |
| Sorting.InsertionSortSorted | app.py:117-118 | the sort is ordered under any total preorder |
| CityCounts.Tally | app.py:143-146 | `groupby("City").size()`: one group per distinct value, carrying its number of occurrences, with the counts summing to the number of values |
| CityCounts.ByCountDesc | app.py:144-149 | the report sorted by decreasing count is still a report of the same values |
| CityCounts.ReportPermutation | routes/main_routes.py:120-125 | sorting a report by count keeps it a report of the same values: distinct, with the same counts and the same total |
| CityCounts.ReportOfOneCity | routes/main_routes.py:120-125 | a report of values that are all equal is that one value with the number of rows |
| Geocode.Resolve | event_pipeline_monthly_append.py:101-117 | an empty address gives `(None, None)` and no cache change; a cached address gives the cached value; otherwise the provider's answer is returned and cached, with a failure cached as `(None, None)` |
| Geocode.ResolveMonotonic | event_pipeline_monthly_append.py:104-116 | the cache only grows, by at most the address, which is then cached with the point returned |
| Geocode.ResolveTwice | event_pipeline_monthly_append.py:104-105 | a second lookup of an address returns the same point, leaves the cache unchanged and never calls the provider |
| Translate.TranslateFr | event_pipeline_monthly_append.py:93-99 | an empty text gives `""`; otherwise the translation, or the text itself when the call raised |
| Translate.TranslateFrSources | event_pipeline_monthly_append.py:93-99 | the result is the text or the service's answer for it |
| DateRange.ParseDateRange | event_pipeline_monthly_append.py:119-129 | an empty text, or a start that fails to parse, gives `(None, None, None)`; the start is the parse of the stripped first segment; there is an end iff there is a duration, the end then agrees with the start on having a time zone (a mix raises at line 126 and gives `(None, None, None)`), and the duration is the distance in hours |
| DateRange.NoDashNoEnd | event_pipeline_monthly_append.py:123-127 | a text without an en dash has no end and no duration |
| DateRange.TwoSegments | event_pipeline_monthly_append.py:123-128 | with one en dash both sides must parse and agree on having a time zone, and the result is the pair with its duration; otherwise `(None, None, None)` |
| DateRange.LaterSegmentsIgnored | event_pipeline_monthly_append.py:123-125 | segments after the second are ignored |
| Ingest.Take | event_pipeline_monthly_append.py:146 | `s[:n]` is the prefix of length `min(len(s), n)` |
| Ingest.TypesForSpec | event_pipeline_monthly_append.py:146 | a city's types are a prefix of at most nine of its language's list, or `["concerts"]` for a language without one |
| Ingest.PairJobs | event_pipeline_monthly_append.py:162-171 | a search yields at most five listings, none when it raised, all tagged with their city and type |
| Ingest.RunBounds | event_pipeline_monthly_append.py:17-18 | at most nine searches and forty-five listings for each city in the list, in total |
| Ingest.FailedSearchSkipsOnlyItsPair | event_pipeline_monthly_append.py:162-167 | a failing search drops exactly its own (city, type) listings and keeps the others, in order |
| Ingest.Cells | event_pipeline_monthly_append.py:190-211 | a row has one field per header name |
| MonthlyAppend.Fields | event_pipeline_monthly_append.py:139-143 | every line of the file has one field per header name: the header line writes the names in order, and a data line writes its row's cells, with the row's link in the `Link` column |
| Ingest.BuildRow | event_pipeline_monthly_append.py:190-211 | the row has source `SerpApi`, venue equal to address and tags equal to category; the date fields are empty without a start, and the duration is left empty when it is zero |
| Ingest.RowForSpec | event_pipeline_monthly_append.py:179-187 | the row of a listing carries its link and its city, is well formed, and the cache only grows |
| Ingest.RunLinks | event_pipeline_monthly_append.py:173-177 | the known links after a run are the initial ones plus every link the run met, and the cache only grows |
| Ingest.RunExtends | event_pipeline_monthly_append.py:173-211 | a run keeps the existing rows, then appends well-formed rows whose links are pairwise different and were unknown at the start |
| Ingest.RunRows | event_pipeline_monthly_append.py:173-211 | the appended rows' links are known at the end, and the link set is the initial one plus the links of the rows appended |
| Ingest.RunWritesEachNewLinkOnce | event_pipeline_monthly_append.py:173-177 | the appended rows' links are exactly the met links that were not known, each once, so one row is written per new link |
| Ingest.KnownLinksWriteNothing | event_pipeline_monthly_append.py:175-176 | a run whose links are all known writes nothing |
| MonthlyAppend.FileLinksAppend | event_pipeline_monthly_append.py:83-87 | the links and headers read back from concatenated lines are those of the two parts |
| MonthlyAppend.AppendRunSpec | event_pipeline_monthly_append.py:134-211 | the file is only appended to. A header is appended iff the file was missing or empty, so there is exactly one header after a first run. Then come one well-formed row per new link, each link once. The links read back are the old ones plus every link met, and the cache only grows |
| MonthlyAppend.AppendJobsSpec | event_pipeline_monthly_append.py:134-211 | the same for any sequence of listings |
| MonthlyAppend.SecondRunAddsNothing | event_pipeline_monthly_append.py:81-87 | rerunning on the output with the same services appends nothing, whatever the cache |
| MonthlyAppend.KnownFileGainsNothing | event_pipeline_monthly_append.py:134-177 | a non-empty file that already holds every link the run meets gains neither a header nor a row |
| MonthlyAppend.Pipeline.constructor | event_pipeline_monthly_append.py:74-87 | the cache is the loaded JSON, or `{}`; the known links are those of the existing CSV |
| MonthlyAppend.Pipeline.Geolocate | event_pipeline_monthly_append.py:101-117 | the point and the new cache are those of `Geocode.Resolve`; the provider is queried and the cache saved only on a miss; the cache file always holds the cache, and no address is sent twice |
| MonthlyAppend.Pipeline.ProcessListing | event_pipeline_monthly_append.py:173-211 | the loop body: the state after it is the functional run extended by this listing |
| MonthlyAppend.Pipeline.RunPair | event_pipeline_monthly_append.py:149-177 | one search and its listings: the state becomes the run extended by that pair's listings |
| MonthlyAppend.Pipeline.RunCity | event_pipeline_monthly_append.py:146-148 | the loop over one city's types |
| MonthlyAppend.Pipeline.RunCities | event_pipeline_monthly_append.py:145 | the loop over the cities |
| MonthlyAppend.Pipeline.RunPipeline | event_pipeline_monthly_append.py:134-211 | the whole script: the CSV and the cache afterwards are those of `MonthlyAppend.AppendRun`, and the file exists |

## Left out

- I/O: reading and writing files, the JSON dump of the cache, `print`, `time.sleep`, Flask's
  request handling, the JSON serialisation of answers, and the serialisation of dates to text in
  `routes/main_routes.py:94-100`. The cache file is modelled as its content (`savedCache`).
- The load-time steps of both services, including the `exit()` on a missing file or a missing
  column, `to_numeric` and `fillna`. The table is taken as already loaded. Both services fill
  null cells with `""` while loading: `app.py:42`, and `utils/data_utils.py:35` in the
  `load_events` that `routes/main_routes.py:18` calls. So neither route ever sees a null Category
  from a loaded table. `App` reads a `None` category as `""`, and its `_cat_norm` column is
  computed per row when filtering. `DataUtils` keeps the `pd.isna` branch of `category_match`
  (`utils/data_utils.py:62-63`) for a table that does hold a null cell.
- The missing-API-key check at `event_pipeline_monthly_append.py:13-15`.
- The external services are not modelled, only their answers: the search, the translator,
  Nominatim, `dateutil` and `pd.to_datetime`. Each is assumed to give the same answer to the
  same input within one run.
- Unicode is modelled in part:
  - whitespace is Python's `str.isspace` set;
  - the combining marks are the U+0300–U+036F block, less U+034F (combining class 0);
  - decomposition and lower-casing cover the Latin-1 letters.
  Characters outside Latin-1 (among them Latin letters such as `č`, `ő` or `ś`) are treated as
  characters without decomposition or case.
- Text.Nfd: does no canonical reordering. Python's NFD also sorts a run of combining marks by
  combining class (`"e\u0301\u0327"` becomes `"e\u0327\u0301"`); `Text.Normalize` is not
  affected, because every mark in U+0300–U+036F is removed afterwards.
- The pattern argument of pandas `str.contains` is a regular expression. It is modelled as a
  literal substring, because the query is free text.
- `Text.Normalize` only models string cells. The `str(s)` conversion of other values, and
  `astype(str)` on non-string columns, are left out.
- In the query filters, comparing a timezone-aware `DateTime_start` with a naive bound raises a
  `TypeError`, which the `except` then swallows. This is not modelled there: query timestamps are
  plain integers. In `parse_date_range` the same mix is modelled: `dt_end - dt_start`
  (`event_pipeline_monthly_append.py:126`) raises, and the bare `except` returns
  `(None, None, None)`, as `DateRange.ParseDateRange` and `DateRange.TwoSegments` state through
  `Stamp.aware`.
- `round(duration_h, 2)` is left out, and durations are exact reals. A NaN duration is not
  modelled either, since a duration always comes from two parsed dates.
- Neither sort fixes the order of equal keys, because pandas' default sort is not stable.
  `Events.SortByStart` and `CityCounts.ByCountDesc` therefore promise a permutation and an
  order, not a particular order of ties. The order of groups before the count sort (pandas sorts
  the keys) is not modelled either.
- `csv.DictReader` and CSV quoting: the file is modelled as a list of lines, each the header
  or a row. An existing file is assumed to have been written by the script, so its first line is
  the header, and its Link values are the links of its rows.
- `MonthlyAppend.Pipeline.Geolocate` leaves out one case. A cached value loaded from JSON is a
  two-element list, and it is returned as such.
- `static/js/main.js` and `generate_embeddings.py` are not part of this model.

## Edge cases the model makes explicit

- `normalize_text` strips before it removes combining marks. A combining mark next to
  whitespace can therefore leave a leading or trailing space in the result (`Text.NormalizeTwice`).
- An interest made only of combining marks normalises to `""`. Since `""` occurs in every
  string, that interest matches every non-null category cell (`DataUtils.CategoryMatchBySubstring`).
- The interests parameter `" , "` has no non-blank piece, but it is not empty, so both services
  apply the category filter and keep nothing (`DataUtils.BlankInterestsKeepNothing`; in `app.py`
  the stripped `","` is still non-empty). A parameter made only of whitespace, such as `"  "`,
  is where they part: `app.py` strips it to `""` and keeps every row, while the blueprint filters
  and keeps none (`MainRoutes.BlankInterestsDiverge`).
- A date bound that `pd.to_datetime` reads as NaT, such as `"nan"`, does not raise. It is applied,
  no comparison with it holds, and the answer is empty (`DataUtils.NaTBoundKeepsNothing`).
- `app.py` counts City values unstripped, so `" Paris"` and `"Paris"` are reported apart. The
  blueprint strips them and merges them (`MainRoutes.StrippedCitiesMerge`).
- A zero duration is written as an empty field (`Ingest.BuildRow`).
