/** The ingestion script as a stateful object: the geocoding cache and its saved copy, the set
    of known links, and the CSV it appends to, updated by `geolocate` and the main loop. */
module MonthlyAppend {
  import opened Wrappers
  import opened Seqs
  import opened Geocode
  import opened Translate
  import opened DateRange
  import opened Ingest

  /** A line of the output CSV. */
  datatype Line = HeaderLine | DataLine(row: Row)

  function HeaderCell(name: string): Cell {
    Text(name)
  }

  /** The fields `writer.writerow` writes for a line: the header names, or the row's cells. The
      `Link` column carries the row's link, which is what the reader takes back. */
  function Fields(line: Line): (fields: seq<Cell>)
    ensures |fields| == |Header|
    ensures line.HeaderLine? ==> forall i :: 0 <= i < |fields| ==> fields[i] == Text(Header[i])
    ensures Header[7] == "Link" && (line.DataLine? ==> fields[7] == Text(line.row.link))
  {
    match line
    case HeaderLine => MapSeq(HeaderCell, Header)
    case DataLine(row) => Cells(row)
  }

  /** The Link values a `csv.DictReader` reads back from the file. */
  function FileLinks(lines: seq<Line>): set<string> {
    if lines == [] then {}
    else
      var last := lines[|lines| - 1];
      FileLinks(lines[..|lines| - 1]) + (if last.DataLine? then {last.row.link} else {})
  }

  function HeaderCount(lines: seq<Line>): nat {
    if lines == [] then 0
    else HeaderCount(lines[..|lines| - 1]) + (if lines[|lines| - 1].HeaderLine? then 1 else 0)
  }

  /** The lines `writer.writerow` appends for some rows. */
  function DataLines(rows: seq<Row>): (lines: seq<Line>)
    ensures |lines| == |rows|
    ensures forall i :: 0 <= i < |rows| ==> lines[i] == DataLine(rows[i])
  {
    if rows == [] then [] else DataLines(rows[..|rows| - 1]) + [DataLine(rows[|rows| - 1])]
  }

  lemma {:induction false} FileLinksAppend(a: seq<Line>, b: seq<Line>)
    ensures FileLinks(a + b) == FileLinks(a) + FileLinks(b)
    ensures HeaderCount(a + b) == HeaderCount(a) + HeaderCount(b)
  {
    if b == [] {
      assert a + b == a;
    } else {
      var init := b[..|b| - 1];
      FileLinksAppend(a, init);
      assert (a + b)[..|a + b| - 1] == a + init;
    }
  }

  lemma {:induction false} DataLinesLinks(rows: seq<Row>)
    ensures FileLinks(DataLines(rows)) == RowLinks(rows)
    ensures HeaderCount(DataLines(rows)) == 0
  {
    if rows != [] {
      var init := rows[..|rows| - 1];
      DataLinesLinks(init);
      assert DataLines(rows)[..|rows| - 1] == DataLines(init);
    }
  }

  /** `not file_exists or os.path.getsize(output_file) == 0`; `None` is a missing file. */
  predicate NeedsHeader(file: Option<seq<Line>>) {
    file.None? || file.value == []
  }

  /** One run of the script: the CSV after it (`file` is `None` when the CSV is missing) and
      the geocoding cache after it. */
  function AppendRun(file: Option<seq<Line>>, cache: Cache, svc: Services): (seq<Line>, Cache) {
    var lines := file.GetOr([]);
    var headed := if NeedsHeader(file) then lines + [HeaderLine] else lines;
    var st := Ingest.Run(RunState(FileLinks(lines), cache, []), AllJobs(Cities, svc), svc);
    (headed + DataLines(st.rows), st.cache)
  }

  /** The file is only appended to: a header first when it was missing or empty, then one
      well-formed row per link of the run not known from the file, each such link once; the
      links read back afterwards are the old ones plus every link the run met, and the cache
      only grows. */
  lemma AppendRunSpec(file: Option<seq<Line>>, cache: Cache, svc: Services, out: seq<Line>, after: Cache)
    requires (out, after) == AppendRun(file, cache, svc)
    ensures var lines := file.GetOr([]);
      var header := if NeedsHeader(file) then 1 else 0;
      var newLinks := JobLinks(AllJobs(Cities, svc)) - FileLinks(lines);
      && |out| == |lines| + header + |newLinks|
      && out[..|lines|] == lines
      && (NeedsHeader(file) ==> out[0] == HeaderLine)
      && HeaderCount(out) == HeaderCount(lines) + header
      && (forall i :: |lines| + header <= i < |out| ==>
            out[i].DataLine? && WellFormed(out[i].row) && out[i].row.link in newLinks)
      && (forall i, j :: |lines| + header <= i < j < |out| ==> out[i].row.link != out[j].row.link)
      && FileLinks(out) == FileLinks(lines) + JobLinks(AllJobs(Cities, svc))
      && (forall a :: a in cache ==> a in after && after[a] == cache[a])
  {
    var jobs := AllJobs(Cities, svc);
    var met := JobLinks(jobs);
    var st := Ingest.Run(RunState(FileLinks(file.GetOr([])), cache, []), jobs, svc);
    AppendJobsSpec(file, cache, jobs, svc, st);
    assert out == (if NeedsHeader(file) then file.GetOr([]) + [HeaderLine] else file.GetOr([])) + DataLines(st.rows);
  }

  /** `AppendRunSpec` for any sequence of listings. */
  lemma AppendJobsSpec(file: Option<seq<Line>>, cache: Cache, jobs: seq<Job>, svc: Services, st: RunState)
    requires st == Ingest.Run(RunState(FileLinks(file.GetOr([])), cache, []), jobs, svc)
    ensures var lines := file.GetOr([]);
      var header := if NeedsHeader(file) then 1 else 0;
      var out := (if NeedsHeader(file) then lines + [HeaderLine] else lines) + DataLines(st.rows);
      var newLinks := JobLinks(jobs) - FileLinks(lines);
      && |out| == |lines| + header + |newLinks|
      && out[..|lines|] == lines
      && (NeedsHeader(file) ==> out[0] == HeaderLine)
      && HeaderCount(out) == HeaderCount(lines) + header
      && (forall i :: |lines| + header <= i < |out| ==>
            out[i].DataLine? && WellFormed(out[i].row) && out[i].row.link in newLinks)
      && (forall i, j :: |lines| + header <= i < j < |out| ==> out[i].row.link != out[j].row.link)
      && FileLinks(out) == FileLinks(lines) + JobLinks(jobs)
      && (forall a :: a in cache ==> a in st.cache && st.cache[a] == cache[a])
  {
    var st0 := RunState(FileLinks(file.GetOr([])), cache, []);
    RunContinues(st0, jobs, svc);
    AppendFacts(file, st0, st, JobLinks(jobs));
  }

  /** A run from no rows continues its start, meets the links of its listings, and writes one
      row per new link. */
  lemma RunContinues(st0: RunState, jobs: seq<Job>, svc: Services)
    requires st0.rows == []
    ensures var st := Ingest.Run(st0, jobs, svc);
      && Extends(st0, st) && st.links == st0.links + JobLinks(jobs)
      && |st.rows| == |JobLinks(jobs) - st0.links|
      && (forall a :: a in st0.cache ==> a in st.cache && st.cache[a] == st0.cache[a])
  {
    RunExtends(st0, jobs, svc);
    RunLinks(st0, jobs, svc);
    RunWritesEachNewLinkOnce(st0, jobs, svc);
    assert Added(st0, jobs, svc) == Ingest.Run(st0, jobs, svc).rows;
  }

  /** The file after the header step and the rows of a run that continues the file's links
      and meets the links `met`. */
  lemma AppendFacts(file: Option<seq<Line>>, st0: RunState, st: RunState, met: set<string>)
    requires st0.rows == [] && st0.links == FileLinks(file.GetOr([]))
    requires Extends(st0, st) && st.links == st0.links + met
    requires |st.rows| == |met - st0.links|
    ensures var lines := file.GetOr([]);
      var header := if NeedsHeader(file) then 1 else 0;
      var out := (if NeedsHeader(file) then lines + [HeaderLine] else lines) + DataLines(st.rows);
      && |out| == |lines| + header + |met - FileLinks(lines)|
      && out[..|lines|] == lines
      && (NeedsHeader(file) ==> out[0] == HeaderLine)
      && HeaderCount(out) == HeaderCount(lines) + header
      && (forall i :: |lines| + header <= i < |out| ==>
            out[i].DataLine? && WellFormed(out[i].row) && out[i].row.link in met - FileLinks(lines))
      && (forall i, j :: |lines| + header <= i < j < |out| ==> out[i].row.link != out[j].row.link)
      && FileLinks(out) == FileLinks(lines) + met
  {
    var lines := file.GetOr([]);
    var headed := if NeedsHeader(file) then lines + [HeaderLine] else lines;
    var out := headed + DataLines(st.rows);
    assert st.rows[0..] == st.rows;
    FileLinksAppend(headed, DataLines(st.rows));
    FileLinksAppend(lines, [HeaderLine]);
    DataLinesLinks(st.rows);
    forall i | |headed| <= i < |out|
      ensures out[i].DataLine? && WellFormed(out[i].row) && out[i].row.link in met - FileLinks(lines)
    {
      assert out[i] == DataLine(st.rows[i - |headed|]);
      RowLinksMembers(st.rows, st.rows[i - |headed|].link);
    }
    assert out[..|lines|] == lines;
  }

  /** Rerunning on the output with the same services appends nothing: every link the second
      run meets is already in the file, and the file is no longer empty. */
  lemma SecondRunAddsNothing(file: Option<seq<Line>>, cache: Cache, later: Cache, svc: Services)
    ensures AppendRun(Some(AppendRun(file, cache, svc).0), later, svc).0 == AppendRun(file, cache, svc).0
  {
    var out := AppendRun(file, cache, svc).0;
    AppendRunSpec(file, cache, svc, out, AppendRun(file, cache, svc).1);
    assert out != [] by {
      if NeedsHeader(file) {
        assert out[0] == HeaderLine;
      } else {
        assert |out| >= |file.value| > 0;
      }
    }
    assert JobLinks(AllJobs(Cities, svc)) <= FileLinks(out);
    KnownFileGainsNothing(out, later, svc);
  }

  /** A non-empty file that already holds every link a run meets gains no line. */
  lemma KnownFileGainsNothing(lines: seq<Line>, cache: Cache, svc: Services)
    requires lines != [] && JobLinks(AllJobs(Cities, svc)) <= FileLinks(lines)
    ensures AppendRun(Some(lines), cache, svc).0 == lines
  {
    KnownLinksWriteNothing(RunState(FileLinks(lines), cache, []), AllJobs(Cities, svc), svc);
    assert lines + DataLines([]) == lines;
  }

  lemma RunSnoc(st0: RunState, done: seq<Job>, job: Job, svc: Services)
    ensures Ingest.Run(st0, done + [job], svc) == Step(Ingest.Run(st0, done, svc), job, svc)
  {
    assert (done + [job])[..|done|] == done;
  }

  lemma DataLinesSnoc(rows: seq<Row>, row: Row)
    ensures DataLines(rows + [row]) == DataLines(rows) + [DataLine(row)]
  {
    assert (rows + [row])[..|rows|] == rows;
  }

  lemma CityJobsStep(done: seq<Job>, city: City, types: seq<string>, j: nat, svc: Services)
    requires j < |types|
    ensures done + CityJobs(city, types[..j + 1], svc) == done + CityJobs(city, types[..j], svc) + PairJobs(city, types[j], svc)
  {
    assert types[..j + 1][..j] == types[..j];
  }

  lemma PairJobsStep(done: seq<Job>, city: City, eventType: string, events: seq<Listing>, k: nat)
    requires k < |events|
    ensures done + MapSeq(JobFor(city, eventType), events[..k + 1]) ==
      done + MapSeq(JobFor(city, eventType), events[..k]) + [Job(city, eventType, events[k])]
  {
    assert events[..k + 1] == events[..k] + [events[k]];
  }

  lemma AllJobsStep(cities: seq<City>, i: nat, svc: Services)
    requires i < |cities|
    ensures AllJobs(cities[..i + 1], svc) == AllJobs(cities[..i], svc) + CityJobs(cities[i], TypesFor(cities[i]), svc)
  {
    assert cities[..i + 1][..i] == cities[..i];
  }

  /** The script's state. `savedCache` is the content of the JSON cache file (`None` when it
      is missing or unreadable), `lookups` the addresses sent to the geocoder, in order. */
  class Pipeline {
    var geoCache: Cache
    var savedCache: Option<Cache>
    ghost var lookups: seq<string>
    var existingLinks: set<string>
    var csv: seq<Line>
    var fileExists: bool

    /** The cache file always holds what a later run would load, and no address is sent to
        the geocoder twice. */
    ghost predicate CacheValid()
      reads this
    {
      && savedCache.GetOr(map[]) == geoCache
      && Distinct(lookups)
      && (forall i :: 0 <= i < |lookups| ==> lookups[i] in geoCache)
    }

    /** The cache invariant, and the known links are those of the CSV. */
    ghost predicate Valid()
      reads this
    {
      CacheValid() && existingLinks == FileLinks(csv)
    }

    /** The load steps: the JSON cache (or `{}`), and the links of the CSV when it exists. */
    constructor (cacheFile: Option<Cache>, csvFile: Option<seq<Line>>)
      ensures Valid()
      ensures geoCache == cacheFile.GetOr(map[]) && savedCache == cacheFile && lookups == []
      ensures csv == csvFile.GetOr([]) && fileExists == csvFile.Some?
    {
      geoCache := cacheFile.GetOr(map[]);
      savedCache := cacheFile;
      lookups := [];
      csv := csvFile.GetOr([]);
      existingLinks := FileLinks(csvFile.GetOr([]));
      fileExists := csvFile.Some?;
    }

    /** `geolocate(address)`: the cached value when there is one, otherwise the provider's
        answer, cached and saved, with `(None, None)` for a failure. */
    method Geolocate(address: string, geocode: string -> Option<(real, real)>) returns (point: GeoPoint)
      requires CacheValid()
      modifies this
      ensures CacheValid()
      ensures (point, geoCache) == Resolve(old(geoCache), address, geocode)
      ensures address == "" || address in old(geoCache) ==>
        lookups == old(lookups) && savedCache == old(savedCache)
      ensures address != "" && address !in old(geoCache) ==>
        lookups == old(lookups) + [address] && savedCache == Some(geoCache)
      ensures existingLinks == old(existingLinks) && csv == old(csv) && fileExists == old(fileExists)
    {
      if address == "" {
        return Unresolved;
      }
      if address in geoCache {
        return geoCache[address];
      }
      lookups := lookups + [address];
      var reply := geocode(address);
      match reply {
        case Some((lat, lon)) => point := At(lat, lon);
        case None => point := Unresolved;
      }
      geoCache := geoCache[address := point];
      savedCache := Some(geoCache);
    }

    /** The state mirrors the run over `done`, started from `st0` on the lines `headed`. */
    ghost predicate Mirrors(st0: RunState, headed: seq<Line>, done: seq<Job>, svc: Services)
      reads this
    {
      var st := Ingest.Run(st0, done, svc);
      existingLinks == st.links && geoCache == st.cache && csv == headed + DataLines(st.rows)
    }

    /** The main script: the header when the file was missing or empty, then every listing of
        every (city, type) pair, in order. */
    method RunPipeline(svc: Services)
      requires Valid() && (fileExists || csv == [])
      modifies this
      ensures Valid()
      ensures (csv, geoCache) == AppendRun(if old(fileExists) then Some(old(csv)) else None, old(geoCache), svc)
      ensures fileExists
    {
      ghost var file := if fileExists then Some(csv) else None;
      if !fileExists || csv == [] {
        csv := csv + [HeaderLine];
        FileLinksAppend(old(csv), [HeaderLine]);
      }
      fileExists := true;
      assert csv == if NeedsHeader(file) then file.GetOr([]) + [HeaderLine] else file.GetOr([]);
      ghost var st0 := RunState(existingLinks, geoCache, []);
      ghost var headed := csv;
      assert csv + DataLines([]) == csv;
      RunCities(st0, headed, Cities, svc);
      assert st0 == RunState(FileLinks(file.GetOr([])), old(geoCache), []);
    }

    /** `for city in CITIES`, over `cities`. */
    method RunCities(ghost st0: RunState, ghost headed: seq<Line>, cities: seq<City>, svc: Services)
      requires Valid() && Mirrors(st0, headed, [], svc)
      modifies this
      ensures Valid() && Mirrors(st0, headed, AllJobs(cities, svc), svc)
      ensures fileExists == old(fileExists)
    {
      ghost var done: seq<Job> := [];
      var i := 0;
      assert cities[..0] == [];
      while i < |cities|
        invariant 0 <= i <= |cities|
        invariant Valid() && fileExists == old(fileExists)
        invariant done == AllJobs(cities[..i], svc)
        invariant Mirrors(st0, headed, done, svc)
      {
        RunCity(st0, headed, done, cities[i], TypesFor(cities[i]), svc);
        done := done + CityJobs(cities[i], TypesFor(cities[i]), svc);
        AllJobsStep(cities, i, svc);
        i := i + 1;
      }
      assert cities[..i] == cities;
    }

    /** `for event_type in event_types[:TYPES_PER_CITY]`, for one city and its `types`. */
    method RunCity(ghost st0: RunState, ghost headed: seq<Line>, ghost done: seq<Job>,
                   city: City, types: seq<string>, svc: Services)
      requires Valid() && Mirrors(st0, headed, done, svc)
      modifies this
      ensures Valid() && Mirrors(st0, headed, done + CityJobs(city, types, svc), svc)
      ensures fileExists == old(fileExists)
    {
      ghost var now := done;
      var j := 0;
      assert types[..0] == [];
      assert done + CityJobs(city, [], svc) == done;
      while j < |types|
        invariant 0 <= j <= |types|
        invariant Valid() && fileExists == old(fileExists)
        invariant now == done + CityJobs(city, types[..j], svc)
        invariant Mirrors(st0, headed, now, svc)
      {
        RunPair(st0, headed, now, city, types[j], svc);
        CityJobsStep(done, city, types, j, svc);
        now := now + PairJobs(city, types[j], svc);
        j := j + 1;
      }
      assert types[..j] == types;
    }

    /** One search and `for event in results[:MAX_EVENTS]`; a failed search adds nothing. */
    method RunPair(ghost st0: RunState, ghost headed: seq<Line>, ghost done: seq<Job>,
                   city: City, eventType: string, svc: Services)
      requires Valid() && Mirrors(st0, headed, done, svc)
      modifies this
      ensures Valid() && Mirrors(st0, headed, done + PairJobs(city, eventType, svc), svc)
      ensures fileExists == old(fileExists)
    {
      var results := svc.search(QueryFor(city, eventType));
      if results.None? {
        assert done + PairJobs(city, eventType, svc) == done;
        return;
      }
      var events := Take(results.value, MaxEvents);
      ghost var now := done;
      var k := 0;
      assert done + MapSeq(JobFor(city, eventType), events[..0]) == done;
      while k < |events|
        invariant 0 <= k <= |events|
        invariant Valid() && fileExists == old(fileExists)
        invariant now == done + MapSeq(JobFor(city, eventType), events[..k])
        invariant Mirrors(st0, headed, now, svc)
      {
        var ev := events[k];
        ProcessListing(st0, headed, now, city, eventType, ev, svc);
        now := now + [Job(city, eventType, ev)];
        PairJobsStep(done, city, eventType, events, k);
        k := k + 1;
      }
      assert events[..k] == events;
    }

    /** The loop body for one listing: skip a known link, otherwise record it, translate,
        parse the date, geocode the venue and write the row. */
    method ProcessListing(ghost st0: RunState, ghost headed: seq<Line>, ghost done: seq<Job>,
                          city: City, eventType: string, ev: Listing, svc: Services)
      requires Valid() && Mirrors(st0, headed, done, svc)
      modifies this
      ensures Valid() && Mirrors(st0, headed, done + [Job(city, eventType, ev)], svc)
      ensures fileExists == old(fileExists)
    {
      ghost var job := Job(city, eventType, ev);
      ghost var st := Ingest.Run(st0, done, svc);
      RunSnoc(st0, done, job, svc);
      var link := ev.link;
      if link in existingLinks {
        return;
      }
      existingLinks := existingLinks + {link};
      var title := TranslateFr(ev.title, svc.translate);
      var description := TranslateFr(ev.description, svc.translate);
      var venue := TranslateFr(Join(ev.address, ", "), svc.translate);
      var category := TranslateFr(eventType, svc.translate);
      var range := ParseDateRange(ev.when, svc.parse);
      var point := Geolocate(venue, svc.geocode);
      var row := BuildRow(category, title, ev.when, city.name, venue, link, description, range, point);
      assert (row, geoCache) == RowFor(job, st.cache, svc);
      FileLinksAppend(csv, [DataLine(row)]);
      DataLinesSnoc(st.rows, row);
      csv := csv + [DataLine(row)];
    }
  }
}
