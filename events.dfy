/** The event table the query routes filter: the columns they read, one record per CSV row. */
module Events {
  import opened Wrappers
  import Sorting

  /** A row of the merged event CSV. `category` is `None` for a null cell, which a table loaded
      by either service never holds, since both fill null cells with `""`; `start` is the
      `DateTime_start` timestamp in seconds, `None` for NaT (a missing or unparsable date). */
  datatype Event = Event(
    category: Option<string>,
    name: string,
    description: string,
    city: string,
    start: Option<int>)

  /** What `pd.to_datetime` gives for a request bound that it accepts: `NaT` (for texts such as
      `"NaT"` or `"nan"`), which every comparison rejects, or a timestamp in seconds. */
  datatype Instant = NaT | At(seconds: int)

  /** A data frame: the set of its column names and its rows in order. */
  datatype Table = Table(columns: set<string>, rows: seq<Event>)

  const CategoryColumn := "Category"
  const StartColumn := "DateTime_start"
  const CityColumn := "City"

  /** `sort_values("DateTime_start", ascending=True)` compares timestamps and puts NaT last. */
  predicate StartNoLater(a: Event, b: Event) {
    match (a.start, b.start)
    case (Some(x), Some(y)) => x <= y
    case (Some(_), None) => true
    case (None, None) => true
    case (None, Some(_)) => false
  }

  lemma StartNoLaterIsTotalPreorder()
    ensures Sorting.IsTotalPreorder(StartNoLater)
  {
  }

  /** The rows sorted by start: the same rows, timestamps non-decreasing, NaT rows last. The
      order of rows with equal starts is not fixed. */
  function SortByStart(rows: seq<Event>): (r: seq<Event>)
    ensures multiset(r) == multiset(rows)
    ensures forall i, j :: 0 <= i < j < |r| && r[i].start.Some? && r[j].start.Some? ==>
      r[i].start.value <= r[j].start.value
    ensures forall i, j :: 0 <= i < j < |r| && r[i].start.None? ==> r[j].start.None?
  {
    StartNoLaterIsTotalPreorder();
    Sorting.InsertionSortSorted(rows, StartNoLater);
    var r := Sorting.InsertionSort(rows, StartNoLater);
    assert forall i, j :: 0 <= i < j < |r| ==> StartNoLater(r[i], r[j]);
    r
  }
}
