/** The monthly append script as values: the cities and event types it queries, the listings
    each search yields, the row written for a listing, and the run that skips known links. */
module Ingest {
  import opened Wrappers
  import opened Seqs
  import opened Geocode
  import opened Translate
  import opened DateRange

  datatype City = City(name: string, location: string, gl: string, hl: string)

  const Cities: seq<City> := [
    City("London", "London, United Kingdom", "uk", "en"),
    City("Berlin", "Berlin, Germany", "de", "de"),
    City("Paris", "Paris, France", "fr", "fr"),
    City("Rome", "Rome, Italy", "it", "it"),
    City("Madrid", "Madrid, Spain", "es", "es"),
    City("Amsterdam", "Amsterdam, Netherlands", "nl", "nl"),
    City("Bruxelles", "Brussels, Belgium", "be", "fr"),
    City("Vienne", "Vienna, Austria", "at", "de"),
    City("Zurich", "Zurich, Switzerland", "ch", "de"),
    City("Genève", "Geneva, Switzerland", "ch", "fr"),
    City("Barcelone", "Barcelona, Spain", "es", "es"),
    City("Lisbonne", "Lisbon, Portugal", "pt", "pt"),
    City("Stockholm", "Stockholm, Sweden", "se", "sv"),
    City("Copenhague", "Copenhagen, Denmark", "dk", "da"),
    City("Oslo", "Oslo, Norway", "no", "no"),
    City("Dublin", "Dublin, Ireland", "ie", "en")
  ]

  const EventTypesByLang: map<string, seq<string>> := map[
    "fr" := ["concerts", "expositions", "marchés", "festivals", "théâtre", "spectacles de danse",
             "opéra", "comédies musicales", "foires"],
    "en" := ["concerts", "exhibitions", "markets", "festivals", "theater", "dance shows",
             "opera", "musicals", "fairs"],
    "de" := ["konzerte", "ausstellungen", "märkte", "festivals", "theater", "tanzshows",
             "oper", "musicals", "messen"],
    "it" := ["concerti", "mostre", "mercati", "festival", "teatro", "spettacoli di danza",
             "opera", "musical", "fiere"],
    "es" := ["conciertos", "exposiciones", "mercados", "festivales", "teatro", "espectáculos de danza",
             "ópera", "musicales", "ferias"],
    "nl" := ["concerten", "tentoonstellingen", "markten", "festivals", "theater", "dansvoorstellingen",
             "opera", "musicals", "beurzen"],
    "pt" := ["concertos", "exposições", "mercados", "festivais", "teatro", "espetáculos de dança",
             "ópera", "musicais", "feiras"],
    "sv" := ["konserter", "utställningar", "marknader", "festivaler", "teater", "dansföreställningar",
             "opera", "musikaler", "mässor"],
    "da" := ["koncerter", "udstillinger", "markeder", "festivaler", "teater", "danseshows",
             "opera", "musicals", "messer"],
    "no" := ["konserter", "utstillinger", "markeder", "festivaler", "teater", "danseshow",
             "opera", "musikaler", "messer"],
    "ie" := ["concerts", "exhibitions", "markets", "festivals", "theater", "dance shows",
             "opera", "musicals", "fairs"]
  ]

  /** Listings handled per search. */
  const MaxEvents: nat := 5

  /** Event types queried per city. */
  const TypesPerCity: nat := 9

  /** Python's slice `s[:n]`. */
  function Take<T>(s: seq<T>, n: nat): (r: seq<T>)
    ensures |r| == if |s| <= n then |s| else n
    ensures r == s[..|r|]
  {
    if |s| <= n then s else s[..n]
  }

  /** `event_types_by_lang.get(hl, ["concerts"])[:TYPES_PER_CITY]`. */
  function TypesFor(city: City): seq<string> {
    Take(if city.hl in EventTypesByLang then EventTypesByLang[city.hl] else ["concerts"], TypesPerCity)
  }

  /** At most nine types per city, a prefix of the language's list, or `["concerts"]` for a
      language without one. */
  lemma TypesForSpec(city: City)
    ensures |TypesFor(city)| <= TypesPerCity
    ensures city.hl in EventTypesByLang ==> TypesFor(city) == EventTypesByLang[city.hl][..|TypesFor(city)|]
    ensures city.hl !in EventTypesByLang ==> TypesFor(city) == ["concerts"]
  {
  }

  /** The parameters of one search that vary with the pair. */
  datatype Query = Query(q: string, location: string, gl: string, hl: string)

  function QueryFor(city: City, eventType: string): Query {
    Query(eventType + " in " + city.name, city.location, city.gl, city.hl)
  }

  /** One entry of `events_results`, with absent keys read as the defaults the script uses
      (`""`, or `[]` for the address lines). */
  datatype Listing = Listing(link: string, title: string, description: string, address: seq<string>, when: string)

  /** The external services, as functions of their input. `search` is `None` when the search
      call raised and otherwise the `events_results` list (`[]` when absent). */
  datatype Services = Services(
    search: Query -> Option<seq<Listing>>,
    translate: string -> Option<string>,
    geocode: string -> Option<(real, real)>,
    parse: string -> Option<Stamp>)

  /** A listing to handle, with the pair it was found for. */
  datatype Job = Job(city: City, eventType: string, listing: Listing)

  function JobFor(city: City, eventType: string): Listing -> Job {
    (l: Listing) => Job(city, eventType, l)
  }

  /** The listings handled for one (city, type) pair: none when the search failed, otherwise
      the first `MAX_EVENTS` results. */
  function PairJobs(city: City, eventType: string, svc: Services): (jobs: seq<Job>)
    ensures |jobs| <= MaxEvents
    ensures svc.search(QueryFor(city, eventType)).None? ==> jobs == []
    ensures forall j :: j in jobs ==> j.city == city && j.eventType == eventType
  {
    match svc.search(QueryFor(city, eventType))
    case None => []
    case Some(results) => MapSeq(JobFor(city, eventType), Take(results, MaxEvents))
  }

  /** The listings of one city, type after type. */
  function CityJobs(city: City, types: seq<string>, svc: Services): seq<Job> {
    if types == [] then []
    else CityJobs(city, types[..|types| - 1], svc) + PairJobs(city, types[|types| - 1], svc)
  }

  /** All listings of a run, city after city. */
  function AllJobs(cities: seq<City>, svc: Services): seq<Job> {
    if cities == [] then []
    else
      var city := cities[|cities| - 1];
      AllJobs(cities[..|cities| - 1], svc) + CityJobs(city, TypesFor(city), svc)
  }

  /** Number of searches for a list of cities. */
  function QueryCount(cities: seq<City>): nat {
    if cities == [] then 0 else QueryCount(cities[..|cities| - 1]) + |TypesFor(cities[|cities| - 1])|
  }

  lemma {:induction false} CityJobsBound(city: City, types: seq<string>, svc: Services)
    ensures |CityJobs(city, types, svc)| <= MaxEvents * |types|
  {
    if types != [] {
      CityJobsBound(city, types[..|types| - 1], svc);
    }
  }

  /** At most nine searches and forty-five listings for each city in the list, in total. */
  lemma {:induction false} RunBounds(cities: seq<City>, svc: Services)
    ensures QueryCount(cities) <= TypesPerCity * |cities|
    ensures |AllJobs(cities, svc)| <= MaxEvents * TypesPerCity * |cities|
  {
    if cities != [] {
      var city := cities[|cities| - 1];
      RunBounds(cities[..|cities| - 1], svc);
      TypesForSpec(city);
      CityJobsBound(city, TypesFor(city), svc);
    }
  }

  /** The services with the search for `q` failing. */
  function FailingOn(svc: Services, q: Query): Services {
    svc.(search := (x: Query) => if x == q then None else svc.search(x))
  }

  function NotFrom(q: Query): Job -> bool {
    (j: Job) => QueryFor(j.city, j.eventType) != q
  }

  lemma PairJobsFailing(city: City, eventType: string, svc: Services, q: Query)
    ensures PairJobs(city, eventType, FailingOn(svc, q)) == Keep(PairJobs(city, eventType, svc), NotFrom(q))
  {
    var jobs := PairJobs(city, eventType, svc);
    if QueryFor(city, eventType) == q {
      KeepDropsRejectedPrefix(jobs, NotFrom(q), |jobs|);
    } else {
      assert PairJobs(city, eventType, FailingOn(svc, q)) == jobs;
      KeepAll(jobs, NotFrom(q));
    }
  }

  lemma {:induction false} CityJobsFailing(city: City, types: seq<string>, svc: Services, q: Query)
    ensures CityJobs(city, types, FailingOn(svc, q)) == Keep(CityJobs(city, types, svc), NotFrom(q))
  {
    if types != [] {
      var init := types[..|types| - 1];
      CityJobsFailing(city, init, svc, q);
      PairJobsFailing(city, types[|types| - 1], svc, q);
      KeepAppend(CityJobs(city, init, svc), PairJobs(city, types[|types| - 1], svc), NotFrom(q));
    }
  }

  /** A failed search skips its own (city, type) pair and nothing else: the run handles the
      same listings minus those of the failing query, in the same order. */
  lemma {:induction false} FailedSearchSkipsOnlyItsPair(cities: seq<City>, svc: Services, q: Query)
    ensures AllJobs(cities, FailingOn(svc, q)) == Keep(AllJobs(cities, svc), NotFrom(q))
  {
    if cities != [] {
      var init := cities[..|cities| - 1];
      var city := cities[|cities| - 1];
      FailedSearchSkipsOnlyItsPair(init, svc, q);
      CityJobsFailing(city, TypesFor(city), svc, q);
      KeepAppend(AllJobs(init, svc), CityJobs(city, TypesFor(city), svc), NotFrom(q));
    }
  }

  /** One 20-column data row, field by field in header order. `start` and `end` are the
      `isoformat()` texts, the date parts come from the start stamp and `endHour` from the end
      stamp; `None` is written as an empty field. */
  datatype Row = Row(
    source: string, category: string, eventName: string, dateTime: string, city: string,
    venueName: string, address: string, link: string, description: string,
    start: Option<string>, end: Option<string>,
    day: Option<int>, month: Option<int>, year: Option<int>, hour: Option<int>, endHour: Option<int>,
    lat: Option<real>, lon: Option<real>, durationH: Option<real>, tags: string)

  const Header: seq<string> := [
    "Source", "Category", "EventName", "DateTime", "City", "VenueName", "Address", "Link", "Description",
    "DateTime_start", "DateTime_end", "Jour_start", "Mois_start", "Annee_start", "Heure_start", "Heure_end",
    "lat", "lon", "duration_h", "tags"]

  /** A CSV field as written: text, a number, or empty. */
  datatype Cell = Text(text: string) | Int(value: int) | Num(number: real) | Blank

  function IntCell(v: Option<int>): Cell {
    match v case Some(n) => Int(n) case None => Blank
  }

  function NumCell(v: Option<real>): Cell {
    match v case Some(x) => Num(x) case None => Blank
  }

  function TextCell(v: Option<string>): Cell {
    match v case Some(s) => Text(s) case None => Blank
  }

  /** The list passed to `writer.writerow`, one field per header name. */
  function Cells(r: Row): (cells: seq<Cell>)
    ensures |cells| == |Header|
  {
    [Text(r.source), Text(r.category), Text(r.eventName), Text(r.dateTime), Text(r.city),
     Text(r.venueName), Text(r.address), Text(r.link), Text(r.description),
     TextCell(r.start), TextCell(r.end),
     IntCell(r.day), IntCell(r.month), IntCell(r.year), IntCell(r.hour), IntCell(r.endHour),
     NumCell(r.lat), NumCell(r.lon), NumCell(r.durationH), Text(r.tags)]
  }

  /** What every row of the script satisfies. */
  predicate WellFormed(r: Row) {
    && r.source == "SerpApi"
    && r.venueName == r.address
    && r.tags == r.category
    && (r.start.None? ==> r.day.None? && r.month.None? && r.year.None? && r.hour.None?)
    && (r.end.None? ==> r.endHour.None?)
  }

  /** The row for one listing. The duration is left empty when it is missing or zero. */
  function BuildRow(category: string, title: string, dateStr: string, city: string, venue: string,
                    link: string, description: string, range: Parsed, point: GeoPoint): (r: Row)
    ensures WellFormed(r)
    ensures r.link == link && r.venueName == venue && r.category == category && r.city == city
    ensures range.start.Some? ==> r.start == Some(range.start.value.iso) && r.year == Some(range.start.value.year)
    ensures r.durationH.Some? ==> range.durationH == r.durationH && r.durationH.value != 0.0
  {
    var start := range.start;
    var end := range.end;
    Row(
      "SerpApi", category, title, dateStr, city, venue, venue, link, description,
      if start.Some? then Some(start.value.iso) else None,
      if end.Some? then Some(end.value.iso) else None,
      if start.Some? then Some(start.value.day) else None,
      if start.Some? then Some(start.value.month) else None,
      if start.Some? then Some(start.value.year) else None,
      if start.Some? then Some(start.value.hour) else None,
      if end.Some? then Some(end.value.hour) else None,
      if point.At? then Some(point.lat) else None,
      if point.At? then Some(point.lon) else None,
      if range.durationH.Some? && range.durationH.value != 0.0 then range.durationH else None,
      category)
  }

  /** The state the loop carries: `existing_links`, `geo_cache`, and the rows written so far. */
  datatype RunState = RunState(links: set<string>, cache: Cache, rows: seq<Row>)

  /** The translated fields, the parsed date and the geocoded venue of a listing. */
  function RowFor(job: Job, cache: Cache, svc: Services): (res: (Row, Cache)) {
    var l := job.listing;
    var title := TranslateFr(l.title, svc.translate);
    var description := TranslateFr(l.description, svc.translate);
    var venue := TranslateFr(Join(l.address, ", "), svc.translate);
    var category := TranslateFr(job.eventType, svc.translate);
    var range := ParseDateRange(l.when, svc.parse);
    var (point, cache') := Resolve(cache, venue, svc.geocode);
    (BuildRow(category, title, l.when, job.city.name, venue, l.link, description, range, point), cache')
  }

  /** One listing: skipped when its link is known, otherwise its link is recorded and its row
      written. */
  function Step(st: RunState, job: Job, svc: Services): RunState {
    if job.listing.link in st.links then st
    else
      var (row, cache) := RowFor(job, st.cache, svc);
      RunState(st.links + {job.listing.link}, cache, st.rows + [row])
  }

  /** The listings handled in order. */
  function Run(st: RunState, jobs: seq<Job>, svc: Services): RunState {
    if jobs == [] then st else Step(Run(st, jobs[..|jobs| - 1], svc), jobs[|jobs| - 1], svc)
  }

  /** The links of some listings. */
  ghost function JobLinks(jobs: seq<Job>): set<string> {
    set j | j in jobs :: j.listing.link
  }

  function LinkOf(r: Row): string {
    r.link
  }

  /** The rows carry the links of the state. */
  lemma RowForSpec(job: Job, cache: Cache, svc: Services)
    ensures RowFor(job, cache, svc).0.link == job.listing.link
    ensures RowFor(job, cache, svc).0.city == job.city.name
    ensures WellFormed(RowFor(job, cache, svc).0)
    ensures forall a :: a in cache ==> a in RowFor(job, cache, svc).1 && RowFor(job, cache, svc).1[a] == cache[a]
  {
    var l := job.listing;
    var venue := TranslateFr(Join(l.address, ", "), svc.translate);
    ResolveMonotonic(cache, venue, svc.geocode);
  }

  /** The rows a run appends. */
  function Added(st: RunState, jobs: seq<Job>, svc: Services): seq<Row>
    requires |st.rows| <= |Run(st, jobs, svc).rows|
  {
    Run(st, jobs, svc).rows[|st.rows|..]
  }

  /** A run adds the links of all its listings to the set, and the cache only grows. */
  lemma {:induction false} RunLinks(st: RunState, jobs: seq<Job>, svc: Services)
    ensures Run(st, jobs, svc).links == st.links + JobLinks(jobs)
    ensures forall a :: a in st.cache ==> a in Run(st, jobs, svc).cache && Run(st, jobs, svc).cache[a] == st.cache[a]
  {
    if jobs != [] {
      var init := jobs[..|jobs| - 1];
      var job := jobs[|jobs| - 1];
      RunLinks(st, init, svc);
      assert jobs == init + [job];
      assert JobLinks(jobs) == JobLinks(init) + {job.listing.link};
      RowForSpec(job, Run(st, init, svc).cache, svc);
    }
  }

  /** The links of some rows. */
  function RowLinks(rows: seq<Row>): set<string> {
    if rows == [] then {} else RowLinks(rows[..|rows| - 1]) + {rows[|rows| - 1].link}
  }

  lemma {:induction false} RowLinksMembers(rows: seq<Row>, x: string)
    ensures x in RowLinks(rows) <==> exists i :: 0 <= i < |rows| && rows[i].link == x
  {
    if rows != [] {
      var init := rows[..|rows| - 1];
      RowLinksMembers(init, x);
      if x in RowLinks(init) {
        var i :| 0 <= i < |init| && init[i].link == x;
        assert rows[i].link == x;
      }
      if exists i :: 0 <= i < |rows| && rows[i].link == x {
        var i :| 0 <= i < |rows| && rows[i].link == x;
        if i < |init| {
          assert init[i].link == x;
        }
      }
    }
  }

  /** `after` continues `st`: the rows of `st` kept, then well-formed rows with pairwise
      different links unknown in `st`; the links of `after` are those of `st` and of the new
      rows. */
  ghost predicate Extends(st: RunState, after: RunState) {
    && |st.rows| <= |after.rows| && after.rows[..|st.rows|] == st.rows
    && after.links == st.links + RowLinks(after.rows[|st.rows|..])
    && (forall i :: |st.rows| <= i < |after.rows| ==> after.rows[i].link !in st.links && WellFormed(after.rows[i]))
    && (forall i, j :: |st.rows| <= i < j < |after.rows| ==> after.rows[i].link != after.rows[j].link)
  }

  /** One more listing keeps a state a continuation of `st`. */
  lemma StepExtends(st: RunState, mid: RunState, job: Job, svc: Services)
    requires Extends(st, mid)
    ensures Extends(st, Step(mid, job, svc))
  {
    if job.listing.link !in mid.links {
      RowForSpec(job, mid.cache, svc);
      var (row, cache) := RowFor(job, mid.cache, svc);
      AppendExtends(st, mid, row, cache);
    }
  }

  /** Appending a well-formed row with an unknown link, and recording that link. */
  lemma AppendExtends(st: RunState, mid: RunState, row: Row, cache: Cache)
    requires Extends(st, mid) && row.link !in mid.links && WellFormed(row)
    ensures Extends(st, RunState(mid.links + {row.link}, cache, mid.rows + [row]))
  {
    var next := RunState(mid.links + {row.link}, cache, mid.rows + [row]);
    var n := |st.rows|;
    var prev := mid.rows[n..];
    assert next.rows[..n] == mid.rows[..n];
    assert next.rows[n..] == prev + [row];
    assert (prev + [row])[..|prev|] == prev;
    forall i | n <= i < |mid.rows| ensures mid.rows[i].link != row.link {
      RowLinksMembers(prev, mid.rows[i].link);
      assert prev[i - n] == mid.rows[i];
    }
  }

  /** A run continues its start state. */
  lemma {:induction false} RunExtends(st: RunState, jobs: seq<Job>, svc: Services)
    ensures Extends(st, Run(st, jobs, svc))
  {
    if jobs == [] {
      assert st.rows[..|st.rows|] == st.rows;
      assert st.rows[|st.rows|..] == [];
    } else {
      var init := jobs[..|jobs| - 1];
      RunExtends(st, init, svc);
      StepExtends(st, Run(st, init, svc), jobs[|jobs| - 1], svc);
    }
  }

  /** A run keeps the rows already written and appends well-formed rows whose links were
      unknown at the start, pairwise different, and known at the end. */
  lemma RunRows(st: RunState, jobs: seq<Job>, svc: Services)
    ensures var after := Run(st, jobs, svc);
      && |st.rows| <= |after.rows| && after.rows[..|st.rows|] == st.rows
      && (forall i :: |st.rows| <= i < |after.rows| ==>
        after.rows[i].link in after.links && after.rows[i].link !in st.links && WellFormed(after.rows[i]))
      && (forall i, j :: |st.rows| <= i < j < |after.rows| ==> after.rows[i].link != after.rows[j].link)
      && after.links == st.links + RowLinks(Added(st, jobs, svc))
  {
    RunExtends(st, jobs, svc);
    var after := Run(st, jobs, svc);
    forall i | |st.rows| <= i < |after.rows| ensures after.rows[i].link in after.links {
      RowLinksMembers(Added(st, jobs, svc), after.rows[i].link);
      assert Added(st, jobs, svc)[i - |st.rows|] == after.rows[i];
    }
  }

  /** The links of the appended rows are exactly the links of the listings that were not
      known at the start, each once, so a run writes as many rows as there are such links. */
  lemma RunWritesEachNewLinkOnce(st: RunState, jobs: seq<Job>, svc: Services)
    ensures |st.rows| <= |Run(st, jobs, svc).rows|
    ensures Distinct(MapSeq(LinkOf, Added(st, jobs, svc)))
    ensures RowLinks(Added(st, jobs, svc)) == JobLinks(jobs) - st.links
    ensures |Added(st, jobs, svc)| == |JobLinks(jobs) - st.links|
  {
    RunExtends(st, jobs, svc);
    RunLinks(st, jobs, svc);
    ExtendsAdded(st, Run(st, jobs, svc));
  }

  /** The rows a continuation appends have pairwise different links, none known at the start. */
  lemma ExtendsAdded(st: RunState, after: RunState)
    requires Extends(st, after)
    ensures var added := after.rows[|st.rows|..];
      && Distinct(MapSeq(LinkOf, added))
      && RowLinks(added) !! st.links
      && |RowLinks(added)| == |added|
  {
    var added := after.rows[|st.rows|..];
    forall i, j | 0 <= i < j < |added| ensures added[i].link != added[j].link {
      assert added[i] == after.rows[|st.rows| + i] && added[j] == after.rows[|st.rows| + j];
    }
    forall x | x in RowLinks(added) ensures x !in st.links {
      RowLinksMembers(added, x);
      var i :| 0 <= i < |added| && added[i].link == x;
      assert after.rows[|st.rows| + i] == added[i];
    }
    DistinctCardinality(added);
  }

  /** Rows with pairwise different links have as many links as rows. */
  lemma {:induction false} DistinctCardinality(rows: seq<Row>)
    requires forall i, j :: 0 <= i < j < |rows| ==> rows[i].link != rows[j].link
    ensures |RowLinks(rows)| == |rows|
  {
    if rows != [] {
      var init := rows[..|rows| - 1];
      DistinctCardinality(init);
      RowLinksMembers(init, rows[|rows| - 1].link);
    }
  }

  /** Listings whose links are all known write nothing and leave the links as they are. */
  lemma {:induction false} KnownLinksWriteNothing(st: RunState, jobs: seq<Job>, svc: Services)
    requires JobLinks(jobs) <= st.links
    ensures Run(st, jobs, svc).rows == st.rows && Run(st, jobs, svc).links == st.links
  {
    if jobs != [] {
      var init := jobs[..|jobs| - 1];
      assert jobs == init + [jobs[|jobs| - 1]];
      assert JobLinks(init) <= JobLinks(jobs);
      KnownLinksWriteNothing(st, init, svc);
    }
  }
}
