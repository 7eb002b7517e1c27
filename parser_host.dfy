/**
 * The host of the channel parsers: it walks a range of dates and collects
 * each parser's listings (Worker), renders a timestamp in the XMLTV form
 * (DateToISOString), keeps the allow-listed channels of the ShuraTV guide
 * (GetShuraTvChannelsWithProgram) and assembles the `tv` document (Build).
 */
module ParserHost {
  import opened Wrappers
  import opened Text
  import opened DateTimes
  import opened Contracts
  import opened Schedules
  import opened Sorting
  import opened Xmltv
  import opened ShuraTv
  import LNT
  import LTV1

  // ---------------------------------------------------------------------------
  // The parsers the host drives

  /**
   * A loaded channel parser (IParser): its channel id and name, the address
   * of a date's page (string.Format of its Url template with the date), its
   * time zone, and what its Parse computes.
   */
  datatype Parser = Parser(
    channelId: string,
    channelName: string,
    url: DateTime -> string,
    timeZoneId: string,
    parse: (Document, DateTime) -> Result<seq<Programme>, Error>)

  /** A Url template "prefix{0:dd.MM.yyyy}" formatted with a date. */
  function PageAddress(prefix: string, date: DateTime): string
  {
    prefix + FormatDayMonthYear(date)
  }

  /** Two dates share a page exactly when they fall on the same day. */
  lemma PageAddressIdentifiesDay(prefix: string, t: DateTime, u: DateTime)
    ensures PageAddress(prefix, t) == PageAddress(prefix, u) <==> Day(t) == Day(u)
  {
    var n := |prefix|;
    assert PageAddress(prefix, t)[n..] == FormatDayMonthYear(t);
    assert PageAddress(prefix, u)[n..] == FormatDayMonthYear(u);
    FormatDayMonthYearIdentifiesDay(t, u);
  }

  /** The LNT parser; LNT.Parse computes its `parse`. */
  const LntParser := Parser(LNT.ChannelId, LNT.ChannelName,
    (date: DateTime) => PageAddress(LNT.UrlPrefix, date), LNT.TimeZoneId,
    (document: Document, date: DateTime) => DaySchedule(document, date, true))

  /** The LTV1 parser; LTV1.Parse computes its `parse`. */
  const Ltv1Parser := Parser(LTV1.ChannelId, LTV1.ChannelName,
    (date: DateTime) => PageAddress(LTV1.UrlPrefix, date), LTV1.TimeZoneId,
    (document: Document, date: DateTime) => DaySchedule(document, date, false))

  /**
   * The parsed page: GetSource gives null unless the response is 200 OK, and
   * a null source parses to a document without any element.
   */
  function PageOf(response: Option<Document>): Document
  {
    if response.Some? then response.value else EmptyDocument
  }

  /**
   * The listing of one date: the page fetched from that date's address,
   * parsed by the parser. `fetch` stands for the HTTP request and the HTML
   * parser, None where the response is not 200 OK.
   */
  function Visit(parser: Parser, fetch: string -> Option<Document>): DateTime -> Result<seq<Programme>, Error>
  {
    (date: DateTime) => parser.parse(PageOf(fetch(parser.url(date))), date)
  }

  /** With either parser, a page that does not load contributes no programmes. */
  lemma FailedFetchGivesEmptyDay(parser: Parser, date: DateTime, fetch: string -> Option<Document>)
    requires parser == LntParser || parser == Ltv1Parser
    requires fetch(parser.url(date)).None?
    ensures Visit(parser, fetch)(date) == Success([])
  {
    DayScheduleWithoutContainer(EmptyDocument, date, parser == LntParser);
  }

  // ---------------------------------------------------------------------------
  // Worker: the inclusive range of dates, one day at a time

  /**
   * What Worker computes from `date` on, for a parser and page source given
   * as `visit` (the listing of one date): the day's listing followed by the
   * listings of the following days up to `to`. The step to the next day
   * (AddDays(1.0)) is taken after every day, the last one included.
   */
  function Gather(visit: DateTime -> Result<seq<Programme>, Error>, date: DateTime, to: DateTime): Result<seq<Programme>, Error>
    decreases to - date
  {
    if date > to then Success([])
    else
      match visit(date)
      case Failure(e) => Failure(e)
      case Success(ps) =>
        match AddDays(date, 1)
        case None => Failure(DateOutOfRange)
        case Some(next) => Glue(ps, Gather(visit, next, to))
  }

  /** The body of Worker's loop up to AddRange: the page of the date, fetched and parsed. */
  method LoadDay(parser: Parser, date: DateTime, fetch: string -> Option<Document>)
    returns (r: Result<seq<Programme>, Error>)
    ensures r == Visit(parser, fetch)(date)
  {
    var url := parser.url(date);
    var source := fetch(url);
    var document := PageOf(source);
    r := parser.parse(document, date);
  }

  /** One turn of Worker's loop: the day's listing, then the step to the next day. */
  lemma GatherStep(visit: DateTime -> Result<seq<Programme>, Error>, date: DateTime, to: DateTime, acc: seq<Programme>)
    requires date <= to
    ensures visit(date).Failure? ==> Glue(acc, Gather(visit, date, to)) == Failure(visit(date).error)
    ensures visit(date).Success? && date + 86400 > MaxSecond ==> Glue(acc, Gather(visit, date, to)) == Failure(DateOutOfRange)
    ensures visit(date).Success? && date + 86400 <= MaxSecond ==>
      Glue(acc, Gather(visit, date, to)) == Glue(acc + visit(date).value, Gather(visit, date + 86400, to))
  {
    if visit(date).Success? && date + 86400 <= MaxSecond {
      GlueGlue(acc, visit(date).value, Gather(visit, date + 86400, to));
    }
  }

  method Worker(parser: Parser, from: DateTime, to: DateTime, fetch: string -> Option<Document>)
    returns (r: Result<seq<Programme>, Error>)
    ensures r == Gather(Visit(parser, fetch), from, to)
    ensures from > to ==> r == Success([])
  {
    ghost var visit := Visit(parser, fetch);
    var programList: seq<Programme> := [];
    var date: DateTime := from;
    GlueNothing(Gather(visit, from, to));
    while date <= to
      invariant Glue(programList, Gather(visit, date, to)) == Gather(visit, from, to)
      decreases (to as int) - (date as int)
    {
      var day := LoadDay(parser, date, fetch);
      GatherStep(visit, date, to, programList);
      if day.Failure? {
        return Failure(day.error);
      }
      var next := AddDays(date, 1);
      if next.None? {
        return Failure(DateOutOfRange);
      }
      programList := programList + day.value;
      date := next.value;
    }
    assert programList + [] == programList;
    return Success(programList);
  }

  /** The dates the loop visits: `from`, the day after, and so on while not past `to`. */
  function Dates(from: DateTime, to: DateTime): seq<DateTime>
    decreases to - from
  {
    if from > to then []
    else if from + 86400 > MaxSecond then [from]
    else [from] + Dates(from + 86400, to)
  }

  /** The loop leaves the range without the step past the last date leaving the calendar. */
  predicate LeavesRange(from: DateTime, to: DateTime)
    decreases to - from
  {
    from > to || (from + 86400 <= MaxSecond && LeavesRange(from + 86400, to))
  }

  /** The visited dates are `from` plus whole days, every one up to `to` and none left out. */
  lemma {:induction false} DatesAreEachDay(from: DateTime, to: DateTime)
    decreases to - from
    ensures |Dates(from, to)| == if from > to then 0 else (to - from) / 86400 + 1
    ensures forall i :: 0 <= i < |Dates(from, to)| ==> Dates(from, to)[i] == from + 86400 * i <= to
  {
    if from <= to {
      if from + 86400 > MaxSecond {
        assert (to - from) / 86400 == 0;
      } else {
        DatesAreEachDay(from + 86400, to);
        if from + 86400 <= to {
          assert (to - (from + 86400)) / 86400 + 1 == (to - from) / 86400;
        } else {
          assert (to - from) / 86400 == 0;
        }
        var ds := Dates(from, to);
        forall i | 0 <= i < |ds|
          ensures ds[i] == from + 86400 * i <= to
        {
          if i > 0 {
            assert ds[i] == Dates(from + 86400, to)[i - 1];
          }
        }
      }
    }
  }

  /** The step past the last date stays in the calendar unless that date is in the calendar's last day. */
  lemma {:induction false} LeavesRangeExactly(from: DateTime, to: DateTime)
    decreases to - from
    ensures LeavesRange(from, to) <==> from > to || from + 86400 * ((to - from) / 86400 + 1) <= MaxSecond
  {
    if from <= to && from + 86400 <= MaxSecond {
      LeavesRangeExactly(from + 86400, to);
      if from + 86400 <= to {
        assert (to - (from + 86400)) / 86400 + 1 == (to - from) / 86400;
      } else {
        assert (to - from) / 86400 == 0;
      }
    }
  }

  /**
   * Worker parses exactly the dates of the range, in ascending order, and
   * its listing is theirs one after the other; it fails with the first
   * failing day, or when the step past the last date leaves the calendar.
   */
  lemma {:induction false} WorkerVisitsEachDate(visit: DateTime -> Result<seq<Programme>, Error>, from: DateTime, to: DateTime)
    decreases to - from
    ensures Gather(visit, from, to) ==
      (match Traverse(Dates(from, to), visit)
       case Failure(e) => Failure(e)
       case Success(days) => if LeavesRange(from, to) then Success(Flatten(days)) else Failure(DateOutOfRange))
  {
    if from <= to {
      var ds := Dates(from, to);
      assert ds[0] == from;
      if visit(from).Success? {
        var ps := visit(from).value;
        if from + 86400 > MaxSecond {
          assert ds[1..] == [];
        } else {
          var next := from + 86400;
          assert ds[1..] == Dates(next, to);
          WorkerVisitsEachDate(visit, next, to);
          var rest := Traverse(Dates(next, to), visit);
          if rest.Success? {
            assert ([ps] + rest.value)[1..] == rest.value;
          }
        }
      }
    }
  }

  /**
   * A successful run holds, for every date of the range in order, that
   * date's listing; its length is the sum of theirs.
   */
  lemma WorkerListing(visit: DateTime -> Result<seq<Programme>, Error>, from: DateTime, to: DateTime)
    ensures Gather(visit, from, to).Success? <==>
      LeavesRange(from, to) && forall i :: 0 <= i < |Dates(from, to)| ==> visit(Dates(from, to)[i]).Success?
    ensures Gather(visit, from, to).Success? ==>
      Traverse(Dates(from, to), visit).Success? &&
      var days := Traverse(Dates(from, to), visit).value;
      |days| == |Dates(from, to)| &&
      (forall i :: 0 <= i < |days| ==> Success(days[i]) == visit(Dates(from, to)[i])) &&
      Gather(visit, from, to).value == Flatten(days) &&
      |Gather(visit, from, to).value| == TotalLength(days)
  {
    var ds := Dates(from, to);
    WorkerVisitsEachDate(visit, from, to);
    TraverseSuccess(ds, visit);
    if Traverse(ds, visit).Success? {
      FlattenLength(Traverse(ds, visit).value);
    }
  }

  // ---------------------------------------------------------------------------
  // DateToISOString: "yyyyMMddHHmmss" and the UTC offset

  function Abs(x: int): nat
  {
    if x < 0 then -x else x
  }

  /**
   * The offset text: " -" for a negative offset and " +" otherwise, then
   * utcOffset.ToString("hhmm"), the hours (not counting whole days) and the
   * minutes of the offset's magnitude, two digits each.
   */
  function OffsetText(offsetMinutes: int): string
  {
    var a := Abs(offsetMinutes);
    (if offsetMinutes < 0 then " -" else " +") + Pad2(a / 60 % 24) + Pad2(a % 60)
  }

  /** $"{date:yyyyMMddHHmmss} {offsetString}" for an offset already looked up. */
  function IsoText(date: DateTime, offsetMinutes: int): string
  {
    Format14(date) + " " + OffsetText(offsetMinutes)
  }

  /**
   * DateToISOString(date, timeZoneId). `utcOffset` stands for the time-zone
   * database: the offset in minutes that the zone has at the date, None
   * where the zone id is unknown or the conversion fails.
   */
  function DateToISOString(date: DateTime, timeZoneId: string, utcOffset: (string, DateTime) -> Option<int>): (r: Result<string, Error>)
    ensures r.Failure? <==> utcOffset(timeZoneId, date).None?
    ensures r.Failure? ==> r.error == UnknownTimeZone(timeZoneId)
    ensures r.Success? ==> r.value == IsoText(date, utcOffset(timeZoneId, date).value)
  {
    match utcOffset(timeZoneId, date)
    case None => Failure(UnknownTimeZone(timeZoneId))
    case Some(offset) => Success(IsoText(date, offset))
  }

  /**
   * The offset text is the sign and four digits, the hours and the minutes
   * of the offset's magnitude; an offset of less than a day reads back to
   * itself.
   */
  lemma OffsetTextFields(offsetMinutes: int)
    ensures var s := OffsetText(offsetMinutes);
      && |s| == 6 && s[0] == ' '
      && (s[1] == '-' <==> offsetMinutes < 0) && (s[1] == '+' <==> offsetMinutes >= 0)
      && AllDigits(s[2..4]) && AllDigits(s[4..])
      && Value(s[2..4]) == Abs(offsetMinutes) / 60 % 24 && Value(s[4..]) == Abs(offsetMinutes) % 60
      && (Abs(offsetMinutes) < 1440 ==> 60 * Value(s[2..4]) + Value(s[4..]) == Abs(offsetMinutes))
  {
    var a := Abs(offsetMinutes);
    var sign := if offsetMinutes < 0 then " -" else " +";
    var hh, mm := Pad2(a / 60 % 24), Pad2(a % 60);
    var s := sign + hh + mm;
    assert OffsetText(offsetMinutes) == s;
    assert s[2..4] == hh;
    assert s[4..] == mm;
  }

  /**
   * The timestamp is the 14 digits of the date itself (not converted to the
   * zone), which read back to the date, a space, and the offset text, which
   * itself starts with a space.
   */
  lemma IsoTextFields(date: DateTime, offsetMinutes: int)
    ensures var s := IsoText(date, offsetMinutes);
      && |s| == 21 && s[14] == ' ' && s[15] == ' '
      && AllDigits(s[..14]) && Read14(s[..14]) == Some(date)
      && s[15..] == OffsetText(offsetMinutes)
  {
    var s := IsoText(date, offsetMinutes);
    OffsetTextFields(offsetMinutes);
    assert s[..14] == Format14(date);
    assert s[15..] == OffsetText(offsetMinutes);
    Format14RoundTrip(date);
  }

  /**
   * The timestamp renderer Build uses: DateToISOString over the time-zone
   * database `utcOffset`. Build and the functions that specify it are
   * stated for any renderer `stamp` of this shape.
   */
  function Stamper(utcOffset: (string, DateTime) -> Option<int>): (DateTime, string) -> Result<string, Error>
  {
    (date: DateTime, timeZoneId: string) => DateToISOString(date, timeZoneId, utcOffset)
  }

  /** With Build's renderer, a timestamp is 21 characters that read back as the instant, or the zone's error. */
  lemma StamperTexts(utcOffset: (string, DateTime) -> Option<int>, date: DateTime, timeZoneId: string)
    ensures Stamper(utcOffset)(date, timeZoneId).Failure? <==> utcOffset(timeZoneId, date).None?
    ensures Stamper(utcOffset)(date, timeZoneId).Failure? ==> Stamper(utcOffset)(date, timeZoneId).error == UnknownTimeZone(timeZoneId)
    ensures Stamper(utcOffset)(date, timeZoneId).Success? ==>
      var s := Stamper(utcOffset)(date, timeZoneId).value;
      |s| == 21 && Read14(s[..14]) == Some(date) && s[15..] == OffsetText(utcOffset(timeZoneId, date).value)
  {
    if utcOffset(timeZoneId, date).Some? {
      IsoTextFields(date, utcOffset(timeZoneId, date).value);
    }
  }

  // ---------------------------------------------------------------------------
  // Build: stop times and programme elements

  /** A channel to be written: its id, display name, time zone and listing. */
  datatype Channel = Channel(id: string, name: string, timeZoneId: string, listing: seq<Programme>)

  /** new DateTime(start.Year, start.Month, start.Day, 0, 0, 0).AddDays(1). */
  function NextMidnight(t: DateTime): Option<DateTime>
  {
    AddDays(Midnight(CivilOf(t)), 1)
  }

  /** The midnight that starts the next day, unless `t` is on the calendar's last day. */
  lemma NextMidnightIsNextDay(t: DateTime)
    ensures NextMidnight(t).Some? <==> Day(t) + 1 < DaysInCalendar
    ensures NextMidnight(t).Some? ==>
      var m := NextMidnight(t).value;
      Day(m) == Day(t) + 1 && SecondOfDay(m) == 0 && t < m
  {
    AddDaysMovesDay(Midnight(CivilOf(t)), 1);
  }

  /**
   * The stop time Build writes for the entry at `p` of the sorted listing:
   * its End where set; otherwise the next day's midnight for the last entry,
   * and the next entry's Start for any other. None where AddDays fails.
   */
  function StopOf(sorted: seq<Programme>, p: nat): Option<DateTime>
    requires p < |sorted|
  {
    if sorted[p].end.Some? then sorted[p].end
    else if p == |sorted| - 1 then NextMidnight(sorted[p].start)
    else Some(sorted[p + 1].start)
  }

  /**
   * A set End is kept as it is. In a listing ordered by start, a stop time
   * Build supplies is never before the entry's start, and the last entry's
   * one is the midnight that ends its day.
   */
  lemma StopOfSupplied(sorted: seq<Programme>, p: nat)
    requires p < |sorted| && SortedByStart(sorted)
    ensures sorted[p].end.Some? ==> StopOf(sorted, p) == sorted[p].end
    ensures sorted[p].end.None? && StopOf(sorted, p).Some? ==> sorted[p].start <= StopOf(sorted, p).value
    ensures sorted[p].end.None? && p == |sorted| - 1 ==>
      (StopOf(sorted, p).Some? <==> Day(sorted[p].start) + 1 < DaysInCalendar) &&
      (StopOf(sorted, p).Some? ==> Day(StopOf(sorted, p).value) == Day(sorted[p].start) + 1 &&
                                   SecondOfDay(StopOf(sorted, p).value) == 0)
    ensures sorted[p].end.None? && p < |sorted| - 1 ==> StopOf(sorted, p) == Some(sorted[p + 1].start)
  {
    NextMidnightIsNextDay(sorted[p].start);
  }

  /** The desc child: present exactly for a description that is neither null nor empty. */
  function DescOf(description: Option<string>): (r: Option<string>)
    ensures r.Some? <==> description.Some? && description.value != ""
    ensures r.Some? ==> r == description
  {
    if description.Some? && description.value != "" then description else None
  }

  /** An entry of a sorted listing with the stop time Build gives it. */
  datatype Slot = Slot(entry: Programme, stop: Option<DateTime>)

  function WithStops(sorted: seq<Programme>): seq<Slot>
  {
    seq(|sorted|, (p: int) requires 0 <= p < |sorted| => Slot(sorted[p], StopOf(sorted, p)))
  }

  /** The programme element of one entry, or the exception that writing it raises first. */
  function EmitSlot(ch: Channel, slot: Slot, stamp: (DateTime, string) -> Result<string, Error>): Result<Element, Error>
  {
    match slot.stop
    case None => Failure(DateOutOfRange)
    case Some(stop) =>
      match stamp(slot.entry.start, ch.timeZoneId)
      case Failure(e) => Failure(e)
      case Success(startText) =>
        match stamp(stop, ch.timeZoneId)
        case Failure(e) => Failure(e)
        case Success(stopText) =>
          Success(ProgrammeElement(startText, stopText, Some(ch.id), slot.entry.title, DescOf(slot.entry.description)))
  }

  function Emitter(ch: Channel, stamp: (DateTime, string) -> Result<string, Error>): Slot -> Result<Element, Error>
  {
    slot => EmitSlot(ch, slot, stamp)
  }

  /** The programme elements of one channel: its listing ordered by start; Last() fails on an empty one. */
  function ChannelProgrammes(ch: Channel, stamp: (DateTime, string) -> Result<string, Error>): Result<seq<Element>, Error>
  {
    var sorted := SortByStart(ch.listing);
    if sorted == [] then Failure(EmptyListing(ch.id))
    else Traverse(WithStops(sorted), Emitter(ch, stamp))
  }

  function ProgrammesFor(stamp: (DateTime, string) -> Result<string, Error>): Channel -> Result<seq<Element>, Error>
  {
    ch => ChannelProgrammes(ch, stamp)
  }

  /** The programme elements of all channels, channel by channel. */
  function OwnProgrammes(channels: seq<Channel>, stamp: (DateTime, string) -> Result<string, Error>): Result<seq<Element>, Error>
  {
    match Traverse(channels, ProgrammesFor(stamp))
    case Failure(e) => Failure(e)
    case Success(lists) => Success(Flatten(lists))
  }

  /** One channel element per channel: its id and its name as display-name. */
  function ChannelElements(channels: seq<Channel>): seq<Element>
  {
    seq(|channels|, (i: int) requires 0 <= i < |channels| => ChannelElement(Some(channels[i].id), [channels[i].name]))
  }

  /** The number of entries of all listings. */
  function ListingTotal(channels: seq<Channel>): nat
  {
    if channels == [] then 0 else |channels[0].listing| + ListingTotal(channels[1..])
  }

  /**
   * The element of one entry: the channel's id, the entry's title, a desc
   * exactly for a non-empty description, and start and stop rendered in the
   * channel's zone; it fails where the stop time or a zone lookup fails.
   */
  lemma EmitSlotShape(ch: Channel, slot: Slot, stamp: (DateTime, string) -> Result<string, Error>)
    ensures EmitSlot(ch, slot, stamp).Success? <==>
      slot.stop.Some? &&
      stamp(slot.entry.start, ch.timeZoneId).Success? &&
      stamp(slot.stop.value, ch.timeZoneId).Success?
    ensures EmitSlot(ch, slot, stamp).Success? ==>
      var e := EmitSlot(ch, slot, stamp).value;
      && e.ProgrammeElement? && e.channel == Some(ch.id) && e.title == slot.entry.title
      && (e.desc.Some? <==> slot.entry.description.Some? && slot.entry.description.value != "")
      && (e.desc.Some? ==> e.desc == slot.entry.description)
      && stamp(slot.entry.start, ch.timeZoneId) == Success(e.start)
      && stamp(slot.stop.value, ch.timeZoneId) == Success(e.stop)
  {
  }

  /**
   * A channel's programme elements: one per entry of its listing ordered
   * (stably) by start, each the element of that entry with the stop time
   * Build gives it. They are written unless the listing is empty or some
   * entry fails, and then the first failing entry's error is the result.
   */
  lemma ChannelProgrammesShape(ch: Channel, stamp: (DateTime, string) -> Result<string, Error>)
    ensures SortedByStart(SortByStart(ch.listing)) && multiset(SortByStart(ch.listing)) == multiset(ch.listing)
    ensures ch.listing == [] ==> ChannelProgrammes(ch, stamp) == Failure(EmptyListing(ch.id))
    ensures ChannelProgrammes(ch, stamp).Success? <==>
      ch.listing != [] &&
      forall p :: 0 <= p < |ch.listing| ==> EmitSlot(ch, Slot(SortByStart(ch.listing)[p], StopOf(SortByStart(ch.listing), p)), stamp).Success?
    ensures ChannelProgrammes(ch, stamp).Success? ==>
      |ChannelProgrammes(ch, stamp).value| == |ch.listing| &&
      forall p :: 0 <= p < |ch.listing| ==>
        Success(ChannelProgrammes(ch, stamp).value[p]) ==
        EmitSlot(ch, Slot(SortByStart(ch.listing)[p], StopOf(SortByStart(ch.listing), p)), stamp)
  {
    var sorted := SortByStart(ch.listing);
    SortByStartSorted(ch.listing);
    SortByStartPermutes(ch.listing);
    var slots, f := WithStops(sorted), Emitter(ch, stamp);
    TraverseSuccess(slots, f);
    forall p | 0 <= p < |sorted|
      ensures f(slots[p]) == EmitSlot(ch, Slot(sorted[p], StopOf(sorted, p)), stamp)
    {
    }
  }

  /** Every channel's programmes or the first failing channel's error; one element per listing entry in all. */
  lemma {:induction false} OwnProgrammesShape(channels: seq<Channel>, stamp: (DateTime, string) -> Result<string, Error>)
    ensures OwnProgrammes(channels, stamp).Success? <==>
      forall i :: 0 <= i < |channels| ==> ChannelProgrammes(channels[i], stamp).Success?
    ensures OwnProgrammes(channels, stamp).Success? ==> |OwnProgrammes(channels, stamp).value| == ListingTotal(channels)
  {
    var f := ProgrammesFor(stamp);
    TraverseSuccess(channels, f);
    if channels != [] {
      OwnProgrammesShape(channels[1..], stamp);
      TraverseSuccess(channels[1..], f);
      if OwnProgrammes(channels, stamp).Success? {
        ChannelProgrammesShape(channels[0], stamp);
        var lists := Traverse(channels, f).value;
        assert lists == [f(channels[0]).value] + Traverse(channels[1..], f).value;
        FlattenLength(lists);
        FlattenLength(lists[1..]);
        assert lists[1..] == Traverse(channels[1..], f).value;
      }
    }
  }

  /** A channel with an empty listing makes writing the programmes fail. */
  lemma EmptyListingFails(channels: seq<Channel>, stamp: (DateTime, string) -> Result<string, Error>, i: nat)
    requires i < |channels| && channels[i].listing == []
    ensures OwnProgrammes(channels, stamp).Failure?
  {
    ChannelProgrammesShape(channels[i], stamp);
    OwnProgrammesShape(channels, stamp);
  }

  /** The listing's entry `p` fails to be written, after every earlier one was: that is the channel's error. */
  lemma ChannelProgrammesFails(ch: Channel, stamp: (DateTime, string) -> Result<string, Error>, p: nat)
    requires p < |ch.listing|
    requires var sorted := SortByStart(ch.listing);
      && EmitSlot(ch, Slot(sorted[p], StopOf(sorted, p)), stamp).Failure?
      && forall j :: 0 <= j < p ==> EmitSlot(ch, Slot(sorted[j], StopOf(sorted, j)), stamp).Success?
    ensures var sorted := SortByStart(ch.listing);
      ChannelProgrammes(ch, stamp) == Failure(EmitSlot(ch, Slot(sorted[p], StopOf(sorted, p)), stamp).error)
  {
    var sorted := SortByStart(ch.listing);
    var slots, f := WithStops(sorted), Emitter(ch, stamp);
    forall j | 0 <= j <= p
      ensures f(slots[j]) == EmitSlot(ch, Slot(sorted[j], StopOf(sorted, j)), stamp)
    {
    }
    TraverseFailure(slots, f, p);
  }

  /** Elements that are, one by one, the entries' elements are what the channel writes. */
  lemma ChannelProgrammesOf(ch: Channel, stamp: (DateTime, string) -> Result<string, Error>, elements: seq<Element>)
    requires ch.listing != [] && |elements| == |ch.listing|
    requires var sorted := SortByStart(ch.listing);
      forall j :: 0 <= j < |sorted| ==> EmitSlot(ch, Slot(sorted[j], StopOf(sorted, j)), stamp) == Success(elements[j])
    ensures ChannelProgrammes(ch, stamp) == Success(elements)
  {
    var sorted := SortByStart(ch.listing);
    var slots, f := WithStops(sorted), Emitter(ch, stamp);
    forall j | 0 <= j < |slots|
      ensures f(slots[j]) == Success(elements[j])
    {
      assert f(slots[j]) == EmitSlot(ch, Slot(sorted[j], StopOf(sorted, j)), stamp);
    }
    TraverseOfResults(slots, f, elements);
  }

  /**
   * The programme elements of one channel, as Build's inner loop writes
   * them: the listing is ordered by start and its Last() taken; each entry
   * gets its stop time, its start and stop texts, its channel and title,
   * and a desc where its description is not empty.
   */
  method EmitListing(ch: Channel, stamp: (DateTime, string) -> Result<string, Error>) returns (r: Result<seq<Element>, Error>)
    ensures r == ChannelProgrammes(ch, stamp)
  {
    var programme := SortByStart(ch.listing);
    if programme == [] {
      return Failure(EmptyListing(ch.id));
    }
    var elements: seq<Element> := [];
    for p := 0 to |programme|
      invariant |elements| == p
      invariant forall j :: 0 <= j < p ==> EmitSlot(ch, Slot(programme[j], StopOf(programme, j)), stamp) == Success(elements[j])
    {
      var startDate := programme[p].start;
      var endDate := programme[p].end;
      if endDate.None? {
        if p == |programme| - 1 {
          endDate := NextMidnight(startDate);
        } else {
          endDate := Some(programme[p + 1].start);
        }
      }
      assert endDate == StopOf(programme, p);
      if endDate.None? {
        ChannelProgrammesFails(ch, stamp, p);
        return Failure(DateOutOfRange);
      }
      var start := stamp(startDate, ch.timeZoneId);
      if start.Failure? {
        ChannelProgrammesFails(ch, stamp, p);
        return Failure(start.error);
      }
      var stop := stamp(endDate.value, ch.timeZoneId);
      if stop.Failure? {
        ChannelProgrammesFails(ch, stamp, p);
        return Failure(stop.error);
      }
      var element := ProgrammeElement(start.value, stop.value, Some(ch.id), programme[p].title, None);
      if programme[p].description.Some? && programme[p].description.value != "" {
        element := element.(desc := programme[p].description);
      }
      elements := elements + [element];
    }
    ChannelProgrammesOf(ch, stamp, elements);
    return Success(elements);
  }

  /** Every element Build writes for the host's own channels is a programme element. */
  lemma {:induction false} OwnProgrammesAreProgrammes(channels: seq<Channel>, stamp: (DateTime, string) -> Result<string, Error>)
    ensures OwnProgrammes(channels, stamp).Success? ==>
      forall j :: 0 <= j < |OwnProgrammes(channels, stamp).value| ==> OwnProgrammes(channels, stamp).value[j].ProgrammeElement?
  {
    var f := ProgrammesFor(stamp);
    if channels != [] && OwnProgrammes(channels, stamp).Success? {
      OwnProgrammesAreProgrammes(channels[1..], stamp);
      var own := f(channels[0]).value;
      var lists := Traverse(channels, f).value;
      assert lists == [own] + Traverse(channels[1..], f).value;
      assert lists[1..] == Traverse(channels[1..], f).value;
      ChannelProgrammesShape(channels[0], stamp);
      var sorted := SortByStart(channels[0].listing);
      forall j | 0 <= j < |own|
        ensures own[j].ProgrammeElement?
      {
        EmitSlotShape(channels[0], Slot(sorted[j], StopOf(sorted, j)), stamp);
      }
      assert OwnProgrammes(channels, stamp).value == own + OwnProgrammes(channels[1..], stamp).value;
    }
  }

  // ---------------------------------------------------------------------------
  // Build: the guide

  /**
   * The `tv` document Build writes: with the ShuraTV guide, its staged
   * channels first, then one channel element per own channel, then the
   * staged programmes, then the own channels' programmes; or the first
   * exception on the way.
   */
  function BuildGuide(channels: seq<Channel>, shuratv: bool, shuraDoc: seq<Element>,
                      stamp: (DateTime, string) -> Result<string, Error>): Result<Tv, Error>
  {
    match (if shuratv then Stage(shuraDoc, AllowList) else Success([]))
    case Failure(e) => Failure(e)
    case Success(extra) =>
      match OwnProgrammes(channels, stamp)
      case Failure(e) => Failure(e)
      case Success(own) => Success(Tv(GeneratorInfoName, Channels(extra) + ChannelElements(channels) + Programmes(extra) + own))
  }

  /**
   * Build's loop over its own channels: each channel's programme elements
   * in turn, or the first channel's exception.
   */
  method WriteProgrammes(channels: seq<Channel>, stamp: (DateTime, string) -> Result<string, Error>)
    returns (r: Result<seq<Element>, Error>)
    ensures r == OwnProgrammes(channels, stamp)
  {
    var root: seq<Element> := [];
    ghost var f := ProgrammesFor(stamp);
    ghost var lists: seq<seq<Element>> := [];
    GlueNothing(Traverse(channels, f));
    for i := 0 to |channels|
      invariant Glue(lists, Traverse(channels[i..], f)) == Traverse(channels, f)
      invariant root == Flatten(lists)
    {
      var elements := EmitListing(channels[i], stamp);
      assert f(channels[i]) == elements;
      if elements.Failure? {
        assert channels[i..][0] == channels[i];
        return Failure(elements.error);
      }
      TraverseStep(lists, channels, f, i);
      FlattenSnoc(lists, elements.value);
      root := root + elements.value;
      lists := lists + [elements.value];
    }
    assert channels[|channels|..] == [];
    assert lists + [] == lists;
    return Success(root);
  }

  /** The guide of a successful staging and a successful programme loop. */
  lemma BuildGuideOf(channels: seq<Channel>, shuratv: bool, shuraDoc: seq<Element>,
                     stamp: (DateTime, string) -> Result<string, Error>, extra: seq<Element>, own: seq<Element>)
    requires (if shuratv then Stage(shuraDoc, AllowList) else Success([])) == Success(extra)
    requires OwnProgrammes(channels, stamp) == Success(own)
    ensures BuildGuide(channels, shuratv, shuraDoc, stamp) ==
      Success(Tv(GeneratorInfoName, Channels(extra) + ChannelElements(channels) + Programmes(extra) + own))
  {
  }

  /** Build's first loop over its own channels: one channel element each, in order. */
  method WriteChannels(channels: seq<Channel>) returns (elements: seq<Element>)
    ensures elements == ChannelElements(channels)
  {
    elements := [];
    for i := 0 to |channels|
      invariant elements == ChannelElements(channels)[..i]
    {
      assert ChannelElements(channels)[..i + 1] == ChannelElements(channels)[..i] + [ChannelElement(Some(channels[i].id), [channels[i].name])];
      elements := elements + [ChannelElement(Some(channels[i].id), [channels[i].name])];
    }
    assert ChannelElements(channels)[..|channels|] == ChannelElements(channels);
  }

  /**
   * Assembles the guide: `shuraDoc` is the children of the downloaded
   * ShuraTV document, read only when `shuratv` is set; the result is the
   * document that is saved, or the exception that stops Build.
   */
  method Build(channels: seq<Channel>, shuratv: bool, shuraDoc: seq<Element>,
               stamp: (DateTime, string) -> Result<string, Error>) returns (r: Result<Tv, Error>)
    ensures r == BuildGuide(channels, shuratv, shuraDoc, stamp)
  {
    var root: seq<Element> := [];
    var shuratvEpg: seq<Element> := [];
    if shuratv {
      var staged := GetShuraTvChannelsWithProgram(shuraDoc);
      if staged.Failure? {
        return Failure(staged.error);
      }
      shuratvEpg := staged.value;
      root := root + Channels(shuratvEpg);
    }
    ghost var staging := if shuratv then Stage(shuraDoc, AllowList) else Success([]);
    assert staging == Success(shuratvEpg);
    assert root == Channels(shuratvEpg);
    var own := WriteChannels(channels);
    root := root + own;
    if shuratv {
      root := root + Programmes(shuratvEpg);
    } else {
      assert root + Programmes(shuratvEpg) == root;
    }
    var programmes := WriteProgrammes(channels, stamp);
    if programmes.Failure? {
      return Failure(programmes.error);
    }
    root := root + programmes.value;
    BuildGuideOf(channels, shuratv, shuraDoc, stamp, shuratvEpg, programmes.value);
    return Success(Tv(GeneratorInfoName, root));
  }

  /**
   * The guide is written exactly when the ShuraTV staging (if asked for)
   * and every own channel's programmes are.
   */
  lemma BuildSucceeds(channels: seq<Channel>, shuratv: bool, shuraDoc: seq<Element>,
                      stamp: (DateTime, string) -> Result<string, Error>)
    ensures BuildGuide(channels, shuratv, shuraDoc, stamp).Success? <==>
      (shuratv ==> Stage(shuraDoc, AllowList).Success?) &&
      forall i :: 0 <= i < |channels| ==> ChannelProgrammes(channels[i], stamp).Success?
  {
    OwnProgrammesShape(channels, stamp);
  }

  /**
   * A written guide carries the generator name; its channel elements are
   * the staged channels and then the own channels, and its programme
   * elements the staged programmes and then the own channels' ones.
   */
  lemma BuildLayout(channels: seq<Channel>, shuratv: bool, shuraDoc: seq<Element>,
                    stamp: (DateTime, string) -> Result<string, Error>)
    ensures BuildGuide(channels, shuratv, shuraDoc, stamp).Success? ==>
      var tv := BuildGuide(channels, shuratv, shuraDoc, stamp).value;
      var extra := if shuratv then Stage(shuraDoc, AllowList).value else [];
      && tv.generatorInfoName == GeneratorInfoName
      && Channels(tv.children) == (if shuratv then Found(shuraDoc, AllowList) else []) + ChannelElements(channels)
      && Programmes(tv.children) == Programmes(extra) + OwnProgrammes(channels, stamp).value
  {
    var g := BuildGuide(channels, shuratv, shuraDoc, stamp);
    if g.Success? {
      var extra := if shuratv then Stage(shuraDoc, AllowList).value else [];
      var own := OwnProgrammes(channels, stamp).value;
      OwnProgrammesAreProgrammes(channels, stamp);
      if shuratv {
        StageChannels(shuraDoc, AllowList);
      }
      var cs, pe := ChannelElements(channels), Programmes(extra);
      GuideChildren(extra, cs, own);
      assert g.value.children == Channels(extra) + cs + pe + own;
    }
  }

  /** A written guide holds one programme element per own listing entry besides the staged ones. */
  lemma BuildCount(channels: seq<Channel>, shuratv: bool, shuraDoc: seq<Element>,
                   stamp: (DateTime, string) -> Result<string, Error>)
    ensures BuildGuide(channels, shuratv, shuraDoc, stamp).Success? ==>
      var extra := if shuratv then Stage(shuraDoc, AllowList).value else [];
      |Programmes(BuildGuide(channels, shuratv, shuraDoc, stamp).value.children)| == |Programmes(extra)| + ListingTotal(channels)
  {
    BuildLayout(channels, shuratv, shuraDoc, stamp);
    OwnProgrammesShape(channels, stamp);
  }

  /** The children of the guide split into its channels and its programmes. */
  lemma GuideChildren(extra: seq<Element>, cs: seq<Element>, own: seq<Element>)
    requires forall j :: 0 <= j < |own| ==> own[j].ProgrammeElement?
    requires forall j :: 0 <= j < |cs| ==> cs[j].ChannelElement?
    ensures Channels(Channels(extra) + cs + Programmes(extra) + own) == Channels(extra) + cs
    ensures Programmes(Channels(extra) + cs + Programmes(extra) + own) == Programmes(extra) + own
  {
    var ce, pe := Channels(extra), Programmes(extra);
    OnlyProgrammes(own);
    OnlyProgrammes(pe);
    OnlyChannels(ce);
    var a := ce + cs;
    FiltersOfConcat(a + pe, own);
    FiltersOfConcat(a, pe);
    FiltersOfConcat(ce, cs);
    var ca := Channels(a);
    assert Channels(a + pe) == ca;
    assert Channels(a + pe + own) == ca;
    OnlyChannels(cs);
    assert Programmes(a) == [];
    assert Programmes(a + pe) == pe;
  }

  /** A channel with an empty listing makes Build fail: Last() of an empty list throws. */
  lemma EmptyListingStopsBuild(channels: seq<Channel>, shuratv: bool, shuraDoc: seq<Element>,
                               stamp: (DateTime, string) -> Result<string, Error>, i: nat)
    requires i < |channels| && channels[i].listing == []
    ensures BuildGuide(channels, shuratv, shuraDoc, stamp).Failure?
  {
    EmptyListingFails(channels, stamp, i);
  }
}
