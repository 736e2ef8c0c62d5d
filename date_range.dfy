/** `parse_date_range`: the `when` text of a listing split on the en dash into a start and an
    optional end, each read by a fuzzy date parser. */
module DateRange {
  import opened Wrappers
  import opened Seqs
  import opened Text

  /** What the parser yields for a date: seconds since an epoch, whether it carries a time
      zone (`tzinfo` set, as for `"10:00 UTC"`), and the fields written to the CSV
      (`isoformat()`, `day`, `month`, `year`, `hour`). */
  datatype Stamp = Stamp(epoch: int, aware: bool, iso: string, day: int, month: int, year: int, hour: int)

  /** `(dt_start, dt_end, duration_h)`. */
  datatype Parsed = Parsed(start: Option<Stamp>, end: Option<Stamp>, durationH: Option<real>)

  const NoRange := Parsed(None, None, None)

  /** U+2013, the only separator the splitter knows. */
  const EnDash: char := '–'

  /** `(end - start).total_seconds() / 3600`. */
  function Hours(start: Stamp, end: Stamp): real {
    (end.epoch - start.epoch) as real / 3600.0
  }

  /** `parse` is `dateutil.parser.parse(..., fuzzy=True)`: `None` when it raises. Any failure
      gives `(None, None, None)`, including `dt_end - dt_start` raising `TypeError` when one
      stamp has a time zone and the other has none. */
  function ParseDateRange(s: string, parse: string -> Option<Stamp>): (r: Parsed)
    ensures s == "" ==> r == NoRange
    ensures r.start.None? ==> r == NoRange
    ensures r.start.Some? ==> r.start == parse(Strip(SplitOn(s, {EnDash})[0]))
    ensures r.end.Some? <==> r.durationH.Some?
    ensures r.end.Some? ==> r.end.value.aware == r.start.value.aware
    ensures r.durationH.Some? ==> r.durationH.value * 3600.0 == (r.end.value.epoch - r.start.value.epoch) as real
  {
    if s == "" then NoRange
    else
      var parts := SplitOn(s, {EnDash});
      match parse(Strip(parts[0]))
      case None => NoRange
      case Some(start) =>
        if |parts| > 1 then
          match parse(Strip(parts[1]))
          case None => NoRange
          case Some(end) =>
            if start.aware == end.aware then Parsed(Some(start), Some(end), Some(Hours(start, end)))
            else NoRange
        else Parsed(Some(start), None, None)
  }

  /** Without an en dash there is no end and no duration; the start is the parse of the
      stripped text. */
  lemma NoDashNoEnd(s: string, parse: string -> Option<Stamp>)
    requires s != "" && NoneIn(s, {EnDash})
    ensures ParseDateRange(s, parse) == match parse(Strip(s))
      case None => NoRange
      case Some(start) => Parsed(Some(start), None, None)
  {
    SplitNoSeparator(s, {EnDash});
  }

  /** With one en dash both sides must parse and agree on having a time zone, and the duration
      is their distance in hours. */
  lemma TwoSegments(a: string, b: string, parse: string -> Option<Stamp>)
    requires NoneIn(a, {EnDash}) && NoneIn(b, {EnDash})
    ensures ParseDateRange(a + [EnDash] + b, parse) ==
      match (parse(Strip(a)), parse(Strip(b)))
      case (Some(start), Some(end)) =>
        if start.aware == end.aware then Parsed(Some(start), Some(end), Some(Hours(start, end)))
        else NoRange
      case _ => NoRange
  {
    SplitAfterFirst(a, EnDash, b, {EnDash});
    SplitNoSeparator(b, {EnDash});
    assert a + [EnDash] + b != "" by {
      assert (a + [EnDash] + b)[|a|] == EnDash;
    }
  }

  /** Segments after the second are ignored. */
  lemma LaterSegmentsIgnored(a: string, b: string, rest: string, parse: string -> Option<Stamp>)
    requires NoneIn(a, {EnDash}) && NoneIn(b, {EnDash})
    ensures ParseDateRange(a + [EnDash] + b + [EnDash] + rest, parse) == ParseDateRange(a + [EnDash] + b, parse)
  {
    var s := a + [EnDash] + b + [EnDash] + rest;
    assert s == a + [EnDash] + (b + [EnDash] + rest);
    SplitAfterFirst(a, EnDash, b + [EnDash] + rest, {EnDash});
    SplitAfterFirst(b, EnDash, rest, {EnDash});
    SplitAfterFirst(a, EnDash, b, {EnDash});
    SplitNoSeparator(b, {EnDash});
    assert s[|a|] == EnDash;
    assert (a + [EnDash] + b)[|a|] == EnDash;
  }
}
