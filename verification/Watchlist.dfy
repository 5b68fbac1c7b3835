/** A sanctions-list entry and the person attributes screening compares, already parsed. */
module Watchlist {
  import opened Wrappers

  datatype Dob = Dob(year: int, month: Option<int>, day: Option<int>)

  /** A list's date of birth: a date (None if unreadable), a range of years, or a year. */
  datatype ListDob =
    | OnDate(date: Option<Dob>)
    | InRange(fromYear: int, toYear: int)
    | InYear(year: int, month: Option<int>, circa: bool)

  datatype Document = Document(kind: string, number: string, country: string)

  datatype WatchRecord = WatchRecord(
    id: string, entryId: string, names: seq<string>,
    dobs: seq<ListDob>, pobs: seq<string>, nationalities: seq<string>, documents: seq<Document>)
}
