/** The schedule parser of the LNT channel: programme titles, descriptions and start times. */
module LNT {
  import opened Wrappers
  import opened DateTimes
  import opened Contracts
  import opened Schedules

  const ChannelId := "lnt"
  const ChannelName := "LNT"
  /** The page address up to the date, which the host appends as "dd.MM.yyyy". */
  const UrlPrefix := "https://tv.lattelecom.lv/lv/kanali/interaktivie/lnt/"
  const TimeZoneId := "FLE Standard Time"

  /**
   * Reads one day's page: one entry per list item of the listing container,
   * with the `b` text as the time of day, the `a` text as title and the `p`
   * text as description; then every entry but the last ends where the next
   * one starts.
   */
  method Parse(document: Document, date: DateTime) returns (r: Result<seq<Programme>, Error>)
    ensures r == DaySchedule(document, date, true)
  {
    var programListing: seq<Programme> := [];
    var container := FindContainer(document);
    if container.Some? {
      var items := container.value.items;
      for k := 0 to |items|
        invariant |programListing| == k
        invariant forall j :: 0 <= j < k ==> ItemEntry(items[j], date, true) == Success(programListing[j])
      {
        var programme := ItemEntry(items[k], date, true);
        if programme.Failure? {
          DayScheduleFirstFailure(document, date, true, k);
          return Failure(programme.error);
        }
        programListing := programListing + [programme.value];
      }
      ParsedEntries(items, date, true, programListing);
      // fill in the End times
      programListing := FillEnds(programListing);
    }
    return Success(programListing);
  }
}
