/** The blueprint version of the service: `apply_filters` (tolerant category, normalised free
    text, then the date window), the date sort of `/api/smart-search` and the per-city report
    of `/api/cities-by-llm` on stripped City values. */
module MainRoutes {
  import opened Wrappers
  import opened Seqs
  import opened Text
  import opened Events
  import opened CityCounts
  import DataUtils
  import App

  /** A parameter made only of whitespace, such as `"  "`: `app.py` strips it to `""` and skips
      the category filter, while the blueprint applies the filter and keeps no row. */
  lemma BlankInterestsDiverge(t: Table, param: string)
    requires param != "" && Strip(param) == "" && CategoryColumn in t.columns
    ensures App.FilterByCategory(t, Strip(param)) == t
    ensures DataUtils.FilterByCategory(t, param).rows == []
  {
    forall j | 0 <= j < |param| ensures param[j] !in {','} {
      assert IsSpace(param[j]);
    }
    SplitNoSeparator(param, {','});
    DataUtils.BlankInterestsKeepNothing(t, param);
  }

  /** `normalize_text(EventName).str.contains(query) | normalize_text(Description).str.contains(query)`. */
  function MatchesText(query: string): Event -> bool {
    (e: Event) => IsSubstring(query, Normalize(e.name)) || IsSubstring(query, Normalize(e.description))
  }

  /** `apply_filters`: works on a copy, so the table passed in is left as it is (a value here). */
  function ApplyFilters(t: Table, req: App.Request, toDatetime: string -> Option<Instant>): Table {
    var query := Normalize(req.q);
    var byCategory := if req.interests != "" then DataUtils.FilterByCategory(t, req.interests) else t;
    var byText := if query != "" then Table(byCategory.columns, Keep(byCategory.rows, MatchesText(query))) else byCategory;
    DataUtils.FilterByDate(byText, req.startDate, req.endDate, toDatetime)
  }

  /** What a returned row satisfies, each test holding vacuously when its filter is skipped:
      the category test needs interests and a Category column, the text test a non-empty
      normalised query, the window a DateTime_start column. */
  predicate Passes(columns: set<string>, req: App.Request, toDatetime: string -> Option<Instant>, e: Event) {
    && (req.interests == "" || CategoryColumn !in columns ||
        DataUtils.CategoryMatch(e.category, DataUtils.Interests(req.interests)))
    && (Normalize(req.q) == "" || MatchesText(Normalize(req.q))(e))
    && (StartColumn !in columns ||
        DataUtils.InWindow(DataUtils.Bound(req.startDate, toDatetime), DataUtils.Bound(req.endDate, toDatetime))(e))
  }

  function PassesAll(columns: set<string>, req: App.Request, toDatetime: string -> Option<Instant>): Event -> bool {
    (e: Event) => Passes(columns, req, toDatetime, e)
  }

  /** The filters keep the columns and exactly the passing rows, in their original order. */
  lemma ApplyFiltersRows(t: Table, req: App.Request, toDatetime: string -> Option<Instant>)
    ensures ApplyFilters(t, req, toDatetime).columns == t.columns
    ensures ApplyFilters(t, req, toDatetime).rows == Keep(t.rows, PassesAll(t.columns, req, toDatetime))
  {
    var query := Normalize(req.q);
    var byCategory := if req.interests != "" then DataUtils.FilterByCategory(t, req.interests) else t;
    var byText := if query != "" then Table(byCategory.columns, Keep(byCategory.rows, MatchesText(query))) else byCategory;
    var lo := DataUtils.Bound(req.startDate, toDatetime);
    var hi := DataUtils.Bound(req.endDate, toDatetime);
    var cat: Event -> bool := (e: Event) => req.interests == "" || CategoryColumn !in t.columns ||
      DataUtils.CategoryMatch(e.category, DataUtils.Interests(req.interests));
    var txt: Event -> bool := (e: Event) => query == "" || MatchesText(query)(e);
    var win: Event -> bool := (e: Event) => StartColumn !in t.columns || DataUtils.InWindow(lo, hi)(e);
    var catTxt: Event -> bool := (e: Event) => cat(e) && txt(e);
    if req.interests == "" || CategoryColumn !in t.columns {
      KeepAll(t.rows, cat);
    } else {
      KeepSame(t.rows, cat, DataUtils.MatchesInterests(DataUtils.Interests(req.interests)));
    }
    assert byCategory.rows == Keep(t.rows, cat);
    if query == "" {
      KeepAll(byCategory.rows, txt);
    } else {
      KeepSame(byCategory.rows, txt, MatchesText(query));
    }
    assert byText.rows == Keep(byCategory.rows, txt);
    KeepKeep(t.rows, cat, txt, catTxt);
    DataUtils.FilterByDateWindow(byText, req.startDate, req.endDate, toDatetime);
    if StartColumn in t.columns {
      KeepSame(byText.rows, win, DataUtils.InWindow(lo, hi));
    } else {
      KeepAll(byText.rows, win);
    }
    KeepKeep(t.rows, catTxt, win, PassesAll(t.columns, req, toDatetime));
  }

  /** The result is an ordered subsequence of the table, and every row in it passes the three
      tests. */
  lemma ApplyFiltersSound(t: Table, req: App.Request, toDatetime: string -> Option<Instant>)
    ensures IsSubsequence(ApplyFilters(t, req, toDatetime).rows, t.rows)
    ensures forall e :: e in ApplyFilters(t, req, toDatetime).rows <==> e in t.rows && Passes(t.columns, req, toDatetime, e)
  {
    ApplyFiltersRows(t, req, toDatetime);
    KeepIsSubsequence(t.rows, PassesAll(t.columns, req, toDatetime));
    forall e ensures e in ApplyFilters(t, req, toDatetime).rows <==> e in t.rows && Passes(t.columns, req, toDatetime, e) {
      KeepMembers(t.rows, PassesAll(t.columns, req, toDatetime), e);
    }
  }

  /** Empty interests and a query that normalises to `""` skip their filters: only the date
      window is applied. */
  lemma EmptyArgumentsSkipFilters(t: Table, req: App.Request, toDatetime: string -> Option<Instant>)
    requires req.interests == "" && Normalize(req.q) == ""
    ensures ApplyFilters(t, req, toDatetime) == DataUtils.FilterByDate(t, req.startDate, req.endDate, toDatetime)
  {
  }

  /** `/api/smart-search`: the filtered rows, sorted by start when `sort=date` and the table
      has a DateTime_start column. */
  function SmartSearch(t: Table, req: App.Request, toDatetime: string -> Option<Instant>): seq<Event> {
    var f := ApplyFilters(t, req, toDatetime);
    if req.sort == "date" && StartColumn in f.columns then SortByStart(f.rows) else f.rows
  }

  /** The result holds exactly the passing rows, each as often as in the table; with the date
      sort the starts never decrease and NaT rows come last. */
  lemma SmartSearchSpec(t: Table, req: App.Request, toDatetime: string -> Option<Instant>)
    ensures multiset(SmartSearch(t, req, toDatetime)) == multiset(Keep(t.rows, PassesAll(t.columns, req, toDatetime)))
    ensures !(req.sort == "date" && StartColumn in t.columns) ==>
      SmartSearch(t, req, toDatetime) == Keep(t.rows, PassesAll(t.columns, req, toDatetime))
    ensures req.sort == "date" && StartColumn in t.columns ==>
      var r := SmartSearch(t, req, toDatetime);
      && (forall i, j :: 0 <= i < j < |r| && r[i].start.Some? && r[j].start.Some? ==> r[i].start.value <= r[j].start.value)
      && (forall i, j :: 0 <= i < j < |r| && r[i].start.None? ==> r[j].start.None?)
  {
    ApplyFiltersRows(t, req, toDatetime);
  }

  /** `str.strip() != ""` after the City column was stripped. */
  predicate NonEmpty(s: string) {
    s != ""
  }

  function StrippedCity(e: Event): string {
    Strip(e.city)
  }

  /** The stripped, non-blank City values of some rows. */
  function StrippedCities(rows: seq<Event>): seq<string> {
    Keep(MapSeq(StrippedCity, rows), NonEmpty)
  }

  /** `groupby("City").size()` on the stripped values, sorted by decreasing count; `[]` when
      no row has a City. */
  function CityReport(rows: seq<Event>): seq<CityCount> {
    var cities := StrippedCities(rows);
    if cities == [] then [] else ByCountDesc(cities)
  }

  /** Each stripped City value appears once, itself stripped and not blank, with its number
      of rows; counts never increase and sum to the number of rows with a non-blank City. */
  lemma CityReportSpec(rows: seq<Event>)
    ensures IsCityReport(CityReport(rows), StrippedCities(rows))
    ensures ByCountDescending(CityReport(rows))
    ensures Total(CityReport(rows)) == |StrippedCities(rows)|
    ensures forall i :: 0 <= i < |CityReport(rows)| ==>
      CityReport(rows)[i].city != "" && Strip(CityReport(rows)[i].city) == CityReport(rows)[i].city
  {
    var cities := StrippedCities(rows);
    var r := CityReport(rows);
    if cities == [] {
      assert r == [];
    } else {
      assert r == ByCountDesc(cities);
    }
    assert IsCityReport(r, cities);
    ReportedCitiesStripped(rows, r);
  }

  /** A report of the stripped cities only names stripped, non-blank values. */
  lemma ReportedCitiesStripped(rows: seq<Event>, r: seq<CityCount>)
    requires IsCityReport(r, StrippedCities(rows))
    ensures forall i :: 0 <= i < |r| ==> r[i].city != "" && Strip(r[i].city) == r[i].city
  {
    var stripped := MapSeq(StrippedCity, rows);
    forall i | 0 <= i < |r| ensures r[i].city != "" && Strip(r[i].city) == r[i].city {
      assert r[i].city in multiset(StrippedCities(rows));
      KeepMembers(stripped, NonEmpty, r[i].city);
      var k :| 0 <= k < |stripped| && stripped[k] == r[i].city;
      StripOfStripped(rows[k].city);
    }
  }

  /** `/api/cities-by-llm`: `[]` without a City column, otherwise the report of the stripped
      City values of the filtered rows. */
  function CitiesByLlm(t: Table, req: App.Request, toDatetime: string -> Option<Instant>): seq<CityCount> {
    var f := ApplyFilters(t, req, toDatetime);
    if CityColumn !in f.columns then [] else CityReport(f.rows)
  }

  /** The report is taken over exactly the passing rows; a table without a City column gives
      `[]`. */
  lemma CitiesByLlmSpec(t: Table, req: App.Request, toDatetime: string -> Option<Instant>)
    ensures CityColumn !in t.columns ==> CitiesByLlm(t, req, toDatetime) == []
    ensures CityColumn in t.columns ==>
      CitiesByLlm(t, req, toDatetime) == CityReport(Keep(t.rows, PassesAll(t.columns, req, toDatetime)))
  {
    ApplyFiltersRows(t, req, toDatetime);
  }

  /** Rows whose City values differ only in surrounding whitespace (`" Paris"` and `"Paris"`)
      are counted as one city. */
  lemma StrippedCitiesMerge(rows: seq<Event>, city: string)
    requires city != "" && rows != []
    requires forall i :: 0 <= i < |rows| ==> Strip(rows[i].city) == city
    ensures CityReport(rows) == [CityCount(city, |rows|)]
  {
    var stripped := MapSeq(StrippedCity, rows);
    assert forall i :: 0 <= i < |stripped| ==> stripped[i] == city;
    KeepAll(stripped, NonEmpty);
    assert StrippedCities(rows) == stripped;
    CityReportSpec(rows);
    ReportOfOneCity(CityReport(rows), stripped, city);
    assert |stripped| == |rows|;
  }
}
