/** The single-file version of the service: exact category matching, a lower-cased free-text
    filter, the date window, the date sort of `/api/smart-search` and the per-city report of
    `/api/cities-by-llm`. */
module App {
  import opened Wrappers
  import opened Seqs
  import opened Text
  import opened Events
  import opened CityCounts
  import DataUtils

  /** The query string of a request; absent arguments are `""`. */
  datatype Request = Request(interests: string, q: string, startDate: string, endDate: string, sort: string)

  /** The `_cat_norm` column: the normalised Category, computed after null cells became `""`. */
  function CategoryKey(e: Event): string {
    Normalize(e.category.GetOr(""))
  }

  function InInterests(interests: seq<string>): Event -> bool {
    (e: Event) => CategoryKey(e) in interests
  }

  /** app.py's `filter_by_category`: `_cat_norm.isin(interests)`. */
  function FilterByCategory(t: Table, param: string): Table {
    if param == "" then t
    else Table(t.columns, Keep(t.rows, InInterests(DataUtils.Interests(param))))
  }

  /** An empty parameter keeps the table; otherwise a row is kept exactly when its normalised
      category equals the normalisation of one non-blank piece of the parameter. */
  lemma FilterByCategoryExact(t: Table, param: string)
    ensures FilterByCategory(t, param).columns == t.columns
    ensures IsSubsequence(FilterByCategory(t, param).rows, t.rows)
    ensures param == "" ==> FilterByCategory(t, param) == t
    ensures param != "" ==> forall e :: e in FilterByCategory(t, param).rows <==>
      e in t.rows &&
      exists piece :: piece in SplitOn(param, {','}) && DataUtils.NonBlank(piece) && Normalize(piece) == CategoryKey(e)
  {
    if param == "" {
      SubsequenceRefl(t.rows);
    } else {
      var interests := DataUtils.Interests(param);
      KeepIsSubsequence(t.rows, InInterests(interests));
      forall e ensures e in FilterByCategory(t, param).rows <==>
        e in t.rows &&
        exists piece :: piece in SplitOn(param, {','}) && DataUtils.NonBlank(piece) && Normalize(piece) == CategoryKey(e)
      {
        KeepMembers(t.rows, InInterests(interests), e);
        DataUtils.InterestsMembers(param, CategoryKey(e));
      }
    }
  }

  /** On a non-null cell the exact match is a special case of the tolerant match of the
      blueprint version. */
  lemma ExactMatchIsTolerant(e: Event, interests: seq<string>)
    requires e.category.Some? && InInterests(interests)(e)
    ensures DataUtils.CategoryMatch(e.category, interests)
  {
    var i :| 0 <= i < |interests| && interests[i] == CategoryKey(e);
    assert OccursAt(interests[i], Normalize(e.category.value), 0);
  }

  /** `q.strip().lower()`. */
  function QueryText(q: string): string {
    LowerAll(Strip(q))
  }

  /** `EventName.str.lower().str.contains(query) | Description.str.lower().str.contains(query)`. */
  function MentionsQuery(query: string): Event -> bool {
    (e: Event) => IsSubstring(query, LowerAll(e.name)) || IsSubstring(query, LowerAll(e.description))
  }

  /** The rows the two routes share: category, then dates, then the free text when given. */
  function Filtered(t: Table, req: Request, toDatetime: string -> Option<Instant>): Table {
    var byCategory := FilterByCategory(t, Strip(req.interests));
    var byDate := DataUtils.FilterByDate(byCategory, req.startDate, req.endDate, toDatetime);
    var query := QueryText(req.q);
    if query == "" then byDate else Table(byDate.columns, Keep(byDate.rows, MentionsQuery(query)))
  }

  /** What a row must satisfy to be returned, each test holding vacuously when its filter is
      not applied. */
  predicate Passes(columns: set<string>, req: Request, toDatetime: string -> Option<Instant>, e: Event) {
    && (Strip(req.interests) == "" || InInterests(DataUtils.Interests(Strip(req.interests)))(e))
    && (StartColumn !in columns ||
        DataUtils.InWindow(DataUtils.Bound(req.startDate, toDatetime), DataUtils.Bound(req.endDate, toDatetime))(e))
    && (QueryText(req.q) == "" || MentionsQuery(QueryText(req.q))(e))
  }

  function PassesAll(columns: set<string>, req: Request, toDatetime: string -> Option<Instant>): Event -> bool {
    (e: Event) => Passes(columns, req, toDatetime, e)
  }

  /** The filters keep the columns and exactly the passing rows, in their original order. */
  lemma FilteredRows(t: Table, req: Request, toDatetime: string -> Option<Instant>)
    ensures Filtered(t, req, toDatetime).columns == t.columns
    ensures Filtered(t, req, toDatetime).rows == Keep(t.rows, PassesAll(t.columns, req, toDatetime))
  {
    var interests := Strip(req.interests);
    var byCategory := FilterByCategory(t, interests);
    var byDate := DataUtils.FilterByDate(byCategory, req.startDate, req.endDate, toDatetime);
    var query := QueryText(req.q);
    var lo := DataUtils.Bound(req.startDate, toDatetime);
    var hi := DataUtils.Bound(req.endDate, toDatetime);
    var cat: Event -> bool := (e: Event) => interests == "" || InInterests(DataUtils.Interests(interests))(e);
    var win: Event -> bool := (e: Event) => StartColumn !in t.columns || DataUtils.InWindow(lo, hi)(e);
    var txt: Event -> bool := (e: Event) => query == "" || MentionsQuery(query)(e);
    var catWin: Event -> bool := (e: Event) => cat(e) && win(e);
    if interests == "" {
      KeepAll(t.rows, cat);
    } else {
      KeepSame(t.rows, cat, InInterests(DataUtils.Interests(interests)));
    }
    assert byCategory.rows == Keep(t.rows, cat);
    DataUtils.FilterByDateWindow(byCategory, req.startDate, req.endDate, toDatetime);
    if StartColumn in t.columns {
      KeepSame(byCategory.rows, win, DataUtils.InWindow(lo, hi));
    } else {
      KeepAll(byCategory.rows, win);
    }
    assert byDate.rows == Keep(byCategory.rows, win);
    KeepKeep(t.rows, cat, win, catWin);
    if query == "" {
      KeepAll(byDate.rows, txt);
    } else {
      KeepSame(byDate.rows, txt, MentionsQuery(query));
    }
    KeepKeep(t.rows, catWin, txt, PassesAll(t.columns, req, toDatetime));
  }

  /** `/api/smart-search`: the filtered rows, sorted by start when `sort=date` and the table
      has a DateTime_start column. */
  function SmartSearch(t: Table, req: Request, toDatetime: string -> Option<Instant>): seq<Event> {
    var f := Filtered(t, req, toDatetime);
    if req.sort == "date" && StartColumn in f.columns then SortByStart(f.rows) else f.rows
  }

  /** The result holds exactly the passing rows, each as often as in the table; without the
      date sort it keeps the table's order, with it the starts never decrease and NaT rows
      come last. */
  lemma SmartSearchSpec(t: Table, req: Request, toDatetime: string -> Option<Instant>)
    ensures multiset(SmartSearch(t, req, toDatetime)) == multiset(Keep(t.rows, PassesAll(t.columns, req, toDatetime)))
    ensures forall e :: e in SmartSearch(t, req, toDatetime) <==> e in t.rows && Passes(t.columns, req, toDatetime, e)
    ensures !(req.sort == "date" && StartColumn in t.columns) ==>
      SmartSearch(t, req, toDatetime) == Keep(t.rows, PassesAll(t.columns, req, toDatetime))
    ensures req.sort == "date" && StartColumn in t.columns ==>
      var r := SmartSearch(t, req, toDatetime);
      && (forall i, j :: 0 <= i < j < |r| && r[i].start.Some? && r[j].start.Some? ==> r[i].start.value <= r[j].start.value)
      && (forall i, j :: 0 <= i < j < |r| && r[i].start.None? ==> r[j].start.None?)
  {
    FilteredRows(t, req, toDatetime);
    var r := SmartSearch(t, req, toDatetime);
    var kept := Keep(t.rows, PassesAll(t.columns, req, toDatetime));
    forall e ensures e in r <==> e in t.rows && Passes(t.columns, req, toDatetime, e) {
      assert e in r <==> e in multiset(r);
      assert e in kept <==> e in multiset(kept);
      KeepMembers(t.rows, PassesAll(t.columns, req, toDatetime), e);
    }
  }

  /** `str.strip() != ""` on the City value. */
  predicate NamedCity(e: Event) {
    Strip(e.city) != ""
  }

  function CityOf(e: Event): string {
    e.city
  }

  /** The City values, unstripped, of the filtered rows whose City is not blank. */
  function ReportedCities(t: Table, req: Request, toDatetime: string -> Option<Instant>): seq<string> {
    MapSeq(CityOf, Keep(Filtered(t, req, toDatetime).rows, NamedCity))
  }

  /** `/api/cities-by-llm`: rows with a blank City dropped, then `groupby("City").size()`
      sorted by decreasing count. */
  function CitiesByLlm(t: Table, req: Request, toDatetime: string -> Option<Instant>): seq<CityCount> {
    ByCountDesc(ReportedCities(t, req, toDatetime))
  }

  /** Each distinct City value of the passing, non-blank-City rows appears once with its
      number of rows; counts never increase and sum to the number of those rows. Values are
      not stripped, so `" Paris"` and `"Paris"` are reported apart. */
  lemma CitiesByLlmSpec(t: Table, req: Request, toDatetime: string -> Option<Instant>)
    ensures var r := CitiesByLlm(t, req, toDatetime);
      && IsCityReport(r, MapSeq(CityOf, Keep(Keep(t.rows, PassesAll(t.columns, req, toDatetime)), NamedCity)))
      && ByCountDescending(r)
      && Total(r) == |Keep(Keep(t.rows, PassesAll(t.columns, req, toDatetime)), NamedCity)|
      && forall i :: 0 <= i < |r| ==> Strip(r[i].city) != ""
  {
    FilteredRows(t, req, toDatetime);
    var cities := ReportedCities(t, req, toDatetime);
    var r := CitiesByLlm(t, req, toDatetime);
    var named := Keep(Filtered(t, req, toDatetime).rows, NamedCity);
    forall i | 0 <= i < |r| ensures Strip(r[i].city) != "" {
      assert r[i].city in multiset(cities);
      var k :| 0 <= k < |cities| && cities[k] == r[i].city;
      assert named[k].city == r[i].city;
    }
  }
}
