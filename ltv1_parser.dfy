/** The schedule parser of the LTV1 channel: programme titles and start times; it reads no description. */
module LTV1 {
  import opened Wrappers
  import opened DateTimes
  import opened Contracts
  import opened Schedules

  const ChannelId := "ltv1"
  const ChannelName := "LTV1"
  /** The page address up to the date, which the host appends as "dd.MM.yyyy". */
  const UrlPrefix := "https://tv.lattelecom.lv/lv/kanali/interaktivie/ltv1/"
  const TimeZoneId := "FLE Standard Time"

  /**
   * Reads one day's page: one entry per list item of the listing container,
   * with the `b` text as the time of day and the `a` text as title, and no
   * description even where the item has a `p`; then every entry but the
   * last ends where the next one starts.
   */
  method Parse(document: Document, date: DateTime) returns (r: Result<seq<Programme>, Error>)
    ensures r == DaySchedule(document, date, false)
  {
    var programListing: seq<Programme> := [];
    var container := FindContainer(document);
    if container.Some? {
      var items := container.value.items;
      for k := 0 to |items|
        invariant |programListing| == k
        invariant forall j :: 0 <= j < k ==> ItemEntry(items[j], date, false) == Success(programListing[j])
      {
        var programme := ItemEntry(items[k], date, false);
        if programme.Failure? {
          DayScheduleFirstFailure(document, date, false, k);
          return Failure(programme.error);
        }
        programListing := programListing + [programme.value];
      }
      ParsedEntries(items, date, false, programListing);
      // fill in the End times
      programListing := FillEnds(programListing);
    }
    return Success(programListing);
  }
}
