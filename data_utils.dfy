/** The shared query filters of the blueprint version of the service: tolerant category
    matching and the date window. */
module DataUtils {
  import opened Wrappers
  import opened Seqs
  import opened Text
  import opened Events

  /** Python's truth test on `piece.strip()`. */
  predicate NonBlank(s: string) {
    Strip(s) != ""
  }

  /** The interests of a request: the normalised, non-blank, comma-separated pieces of the
      parameter, in order. */
  function Interests(param: string): seq<string> {
    MapSeq(Normalize, Keep(SplitOn(param, {','}), NonBlank))
  }

  lemma InterestsMembers(param: string, x: string)
    ensures x in Interests(param) <==>
      exists piece :: piece in SplitOn(param, {','}) && NonBlank(piece) && x == Normalize(piece)
  {
    MapKeepMembers(Normalize, SplitOn(param, {','}), NonBlank, x);
  }

  /** The separators a category cell may use between several categories. */
  const CategorySeps: set<char> := {';', ',', '/', '|', '-'}

  /** The stripped, non-blank pieces of a normalised cell. */
  function Tokens(norm: string): seq<string> {
    MapSeq(Strip, Keep(SplitOn(norm, CategorySeps), NonBlank))
  }

  /** The inner `category_match`: a null cell never matches; otherwise some interest is one of
      the cell's tokens or occurs in the whole normalised cell. */
  predicate CategoryMatch(cell: Option<string>, interests: seq<string>) {
    match cell
    case None => false
    case Some(text) =>
      var norm := Normalize(text);
      exists i :: 0 <= i < |interests| && (interests[i] in Tokens(norm) || IsSubstring(interests[i], norm))
  }

  /** Every token occurs in the cell it was cut from, so the token test never decides a match
      on its own: a cell matches exactly when some interest occurs in it. */
  lemma CategoryMatchBySubstring(cell: Option<string>, interests: seq<string>)
    ensures CategoryMatch(cell, interests) <==>
      cell.Some? && exists i :: 0 <= i < |interests| && IsSubstring(interests[i], Normalize(cell.value))
  {
    if cell.Some? {
      var norm := Normalize(cell.value);
      forall i | 0 <= i < |interests| && interests[i] in Tokens(norm)
        ensures IsSubstring(interests[i], norm)
      {
        TokenIsSubstring(norm, interests[i]);
      }
    }
  }

  lemma TokenIsSubstring(norm: string, token: string)
    requires token in Tokens(norm)
    ensures IsSubstring(token, norm)
  {
    var kept := Keep(SplitOn(norm, CategorySeps), NonBlank);
    var i :| 0 <= i < |kept| && token == Strip(kept[i]);
    assert kept[i] in kept;
    KeptPieceIsSubstring(norm, CategorySeps, NonBlank, kept[i]);
    StripIsSubstring(kept[i]);
    SubstringTrans(token, kept[i], norm);
  }

  function MatchesInterests(interests: seq<string>): Event -> bool {
    (e: Event) => CategoryMatch(e.category, interests)
  }

  /** `filter_by_category`: the rows whose cell matches one of the interests. */
  function FilterByCategory(t: Table, param: string): Table {
    if param == "" || CategoryColumn !in t.columns then t
    else Table(t.columns, Keep(t.rows, MatchesInterests(Interests(param))))
  }

  /** The filter keeps the columns and an ordered subsequence of the rows; with a parameter
      and a Category column it keeps exactly the matching rows, never one with a null cell;
      otherwise it keeps the table as it is. */
  lemma FilterByCategorySpec(t: Table, param: string)
    ensures FilterByCategory(t, param).columns == t.columns
    ensures IsSubsequence(FilterByCategory(t, param).rows, t.rows)
    ensures param == "" || CategoryColumn !in t.columns ==> FilterByCategory(t, param) == t
    ensures param != "" && CategoryColumn in t.columns ==>
      forall e :: e in FilterByCategory(t, param).rows <==>
        e in t.rows && e.category.Some? && CategoryMatch(e.category, Interests(param))
  {
    if param == "" || CategoryColumn !in t.columns {
      SubsequenceRefl(t.rows);
    } else {
      KeepIsSubsequence(t.rows, MatchesInterests(Interests(param)));
      forall e ensures e in FilterByCategory(t, param).rows <==>
        e in t.rows && e.category.Some? && CategoryMatch(e.category, Interests(param))
      {
        KeepMembers(t.rows, MatchesInterests(Interests(param)), e);
      }
    }
  }

  /** A parameter with no non-blank piece (such as `" , "`) still applies the filter, and no
      row matches an empty list of interests. */
  lemma BlankInterestsKeepNothing(t: Table, param: string)
    requires param != "" && CategoryColumn in t.columns
    requires forall piece :: piece in SplitOn(param, {','}) ==> !NonBlank(piece)
    ensures FilterByCategory(t, param).rows == []
  {
    var kept := Keep(SplitOn(param, {','}), NonBlank);
    if kept != [] {
      KeepMembers(SplitOn(param, {','}), NonBlank, kept[0]);
    }
  }

  /** `pd.to_datetime(bound)` guarded by `if bound:`; `None` when there is no bound or it does
      not parse (the call raises and `except: pass` leaves the frame as it was). */
  function Bound(param: string, toDatetime: string -> Option<Instant>): Option<Instant> {
    if param == "" then None else toDatetime(param)
  }

  /** `DateTime_start >= lo`, false when either side is NaT. */
  predicate StartsFrom(e: Event, lo: Option<Instant>) {
    lo.None? || (e.start.Some? && lo.value.At? && e.start.value >= lo.value.seconds)
  }

  /** `DateTime_start <= hi`, false when either side is NaT. */
  predicate EndsBy(e: Event, hi: Option<Instant>) {
    hi.None? || (e.start.Some? && hi.value.At? && e.start.value <= hi.value.seconds)
  }

  function AfterStart(lo: Option<Instant>): Event -> bool {
    (e: Event) => StartsFrom(e, lo)
  }

  function BeforeEnd(hi: Option<Instant>): Event -> bool {
    (e: Event) => EndsBy(e, hi)
  }

  /** The date window of a request as one predicate. */
  function InWindow(lo: Option<Instant>, hi: Option<Instant>): Event -> bool {
    (e: Event) => StartsFrom(e, lo) && EndsBy(e, hi)
  }

  /** `filter_by_date`: a start bound, then an end bound, each applied only when given and
      parsable. */
  function FilterByDate(t: Table, startParam: string, endParam: string, toDatetime: string -> Option<Instant>): Table {
    if StartColumn !in t.columns then t
    else
      var lo := Bound(startParam, toDatetime);
      var hi := Bound(endParam, toDatetime);
      var afterStart := if lo.Some? then Keep(t.rows, AfterStart(lo)) else t.rows;
      var beforeEnd := if hi.Some? then Keep(afterStart, BeforeEnd(hi)) else afterStart;
      Table(t.columns, beforeEnd)
  }

  /** With a DateTime_start column the two steps keep exactly the rows inside the window, in
      order; without one the table is returned as it is. */
  lemma FilterByDateWindow(t: Table, startParam: string, endParam: string, toDatetime: string -> Option<Instant>)
    ensures FilterByDate(t, startParam, endParam, toDatetime).columns == t.columns
    ensures StartColumn !in t.columns ==> FilterByDate(t, startParam, endParam, toDatetime) == t
    ensures StartColumn in t.columns ==>
      FilterByDate(t, startParam, endParam, toDatetime).rows ==
        Keep(t.rows, InWindow(Bound(startParam, toDatetime), Bound(endParam, toDatetime)))
  {
    if StartColumn in t.columns {
      var lo := Bound(startParam, toDatetime);
      var hi := Bound(endParam, toDatetime);
      var afterStart := if lo.Some? then Keep(t.rows, AfterStart(lo)) else t.rows;
      if lo.None? {
        KeepAll(t.rows, AfterStart(lo));
      }
      if hi.None? {
        KeepAll(afterStart, BeforeEnd(hi));
      }
      KeepKeep(t.rows, AfterStart(lo), BeforeEnd(hi), InWindow(lo, hi));
    }
  }

  /** The filtered rows form an ordered subsequence, and once a bound applies no row with a
      NaT start survives. */
  lemma FilterByDateDropsNaT(t: Table, startParam: string, endParam: string, toDatetime: string -> Option<Instant>)
    ensures IsSubsequence(FilterByDate(t, startParam, endParam, toDatetime).rows, t.rows)
    ensures StartColumn in t.columns && (Bound(startParam, toDatetime).Some? || Bound(endParam, toDatetime).Some?) ==>
      forall e :: e in FilterByDate(t, startParam, endParam, toDatetime).rows ==> e.start.Some?
  {
    FilterByDateWindow(t, startParam, endParam, toDatetime);
    var w := InWindow(Bound(startParam, toDatetime), Bound(endParam, toDatetime));
    if StartColumn in t.columns {
      KeepIsSubsequence(t.rows, w);
      forall e | e in FilterByDate(t, startParam, endParam, toDatetime).rows ensures w(e) {
        KeepMembers(t.rows, w, e);
      }
    } else {
      SubsequenceRefl(t.rows);
    }
  }

  /** A bound that `pd.to_datetime` reads as NaT is applied, and no row compares true with it:
      the window keeps nothing. */
  lemma NaTBoundKeepsNothing(t: Table, startParam: string, endParam: string, toDatetime: string -> Option<Instant>)
    requires StartColumn in t.columns
    requires Bound(startParam, toDatetime) == Some(NaT) || Bound(endParam, toDatetime) == Some(NaT)
    ensures FilterByDate(t, startParam, endParam, toDatetime).rows == []
  {
    FilterByDateWindow(t, startParam, endParam, toDatetime);
    var r := FilterByDate(t, startParam, endParam, toDatetime).rows;
    var w := InWindow(Bound(startParam, toDatetime), Bound(endParam, toDatetime));
    assert forall e :: !w(e);
    assert multiset(r) == multiset{};
  }

  /** A bound that is empty or does not parse has the same effect as no bound. */
  lemma UnparsableBoundIgnored(t: Table, startParam: string, endParam: string, toDatetime: string -> Option<Instant>)
    requires Bound(startParam, toDatetime).None?
    ensures FilterByDate(t, startParam, endParam, toDatetime) == FilterByDate(t, "", endParam, toDatetime)
  {
  }
}
