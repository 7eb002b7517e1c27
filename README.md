# XMLTV generator: channel parsers and guide assembly

The XMLTV generator builds a guide file for a media-centre client. It loads
channel parsers. For each parser it fetches one schedule page per day of a
date range and collects the programme entries the parser reads from the
pages. It can also take in a third-party guide (ShuraTV), from which it keeps
an allow-listed set of channels with their programmes. Finally it writes one
`tv` document that holds all the channels and programmes. Every programme
gets `start` and `stop` timestamps: 14 digits `yyyyMMddHHmmss`, two spaces,
then the signed UTC offset `+hhmm` or `-hhmm`.

The model covers five parts:

- **The two page parsers (`LNT`, `LTV1`).** Each reads one day's page. It finds
  the `ul` whose id is `program-list-view` and turns each `li` into an entry.
  The entry's start is the date plus the `hh:mm` text of the item's `b`
  element, read with .NET's `Convert.ToInt32` and `TimeSpan` rules. Its title
  comes from the `a` element, and for LNT the description comes from the `p`
  element. Every entry but the last ends where the next one starts. Both
  parsers share their schedule logic, in module `Schedules`.
- **The date walk (`ParserHost.Worker`).** It visits `from`, then each
  following day while the date is not past `to`. It appends the listings of
  those days in order.
- **The timestamp (`ParserHost.DateToISOString`).** This is the 14-digit
  local date and time, then a space, then the text `" +hhmm"` or `" -hhmm"`
  for the zone's UTC offset.
- **The ShuraTV filter (`ShuraTv.GetShuraTvChannelsWithProgram`).** For each
  of 16 channel names, in their fixed order, it takes the first channel with
  that display name. It keeps that channel and every programme on its id.
- **Guide assembly (`ParserHost.Build`).** The document holds, in order:
  - the ShuraTV channels;
  - one channel element per own channel;
  - the ShuraTV programmes;
  - each own channel's listing, sorted by start with a stable sort. An
    entry with no end gets a stop time: the next entry's start, or, for
    the last entry, midnight of the next day. The `desc` element is
    written only for a non-empty description.

Exceptions in the C# code are modelled as `Result` failures. Each failure
names its cause (`Contracts.Error`), and the first exception in evaluation
order decides the error. `DateTime` is whole seconds since 0001-01-01
00:00:00, limited to the years 1 to 9999. The civil calendar is spelled out
in `DateTimes`.

Four behaviours of the code that the model keeps as they are:

- The ShuraTV channels come before the generator's own channels
  (XMLTVGenerator/ParserHost.cs:171-184).
- A non-last entry without an end takes the next sorted entry's start, and
  this is not an error (XMLTVGenerator/ParserHost.cs:212-215).
- The timestamp has two spaces before the sign. The format is
  `"{date} {offsetString}"`, and the offset string itself starts with a space
  (XMLTVGenerator/ParserHost.cs:245-246).
- A malformed list item aborts the whole day's parse, and with it the whole
  run; it is not skipped (LNT/Parser.cs:30-37). A malformed item is one with
  a missing `b` or `a`, a bad number, or no minutes part.

## Model

| member | source | states |
|---|---|---|
| LNT.Parse | LNT/Parser.cs:17-54 | The listing is the day's schedule DaySchedule(document, date, true): the entries of the container's items, with descriptions, each but the last ending at the next start; it fails exactly as the item loop does. |
| LTV1.Parse | LTV1/Parser.cs:17-53 | The same schedule without descriptions: DaySchedule(document, date, false). |
| Schedules.ContainerIndex | LNT/Parser.cs:21-23 | The position of the first `ul` whose id is program-list-view; no earlier list has that id. |
| Schedules.FindContainer | LNT/Parser.cs:21-25 | There is no container exactly when no list has the id; otherwise it is the first one. |
| Schedules.DayScheduleWithoutContainer | LNT/Parser.cs:19-53 | A page without the container gives an empty listing, with no error. |
| Schedules.ClockTime | LNT/Parser.cs:30-31 | A time text that is accepted gives an offset within the TimeSpan range. |
| Schedules.ClockTimeBadHours | LNT/Parser.cs:30-31 | When the hours piece before the first colon is not an Int32 number, the time fails with that number error. |
| Schedules.ClockTimeBadMinutes | LNT/Parser.cs:30-31 | When the hours piece reads but the minutes piece does not, the time fails with the minutes' number error. |
| Schedules.TimeOfNumbers | LNT/Parser.cs:30-31 | When the first two pieces read as h and m, the time is the TimeSpan of h hours and m minutes. |
| Schedules.ClockTimeOfDigits | LNT/Parser.cs:30-31 | A text of digits, a colon and digits (with or without a ":..." tail) reads as those hours and minutes. |
| Schedules.ClockTimeIgnoresExtraParts | LNT/Parser.cs:30-31 | Only the first two colon-separated pieces count: "h:m:x" reads as "h:m". |
| Schedules.ClockTimeWithoutColon | LNT/Parser.cs:30-31 | A text without a colon fails: with the number error if it is not a number, and otherwise because time[1] does not exist. |
| Schedules.ItemEntry | LNT/Parser.cs:30-38 | An item parses exactly when it has a `b` element whose time text reads, an `a` element, and a start inside the calendar. Otherwise it fails in the C# order: a missing `b`, then the time text's error, then a missing `a`, then the date overflow. A parsed entry's title is the `a` text, its description the `p` text (LNT only), its start the date plus the clock time, and it has no end yet. |
| Schedules.ItemStartsAtClock | LNT/Parser.cs:30-37 | On a date at midnight, an item whose time text is "HH:MM" for a clock time starts that same day at HH:MM:00. |
| Schedules.ChainEnds | LNT/Parser.cs:43-50 | Only the ends change. Every entry but the last ends at the next entry's start, and the last entry is unchanged. |
| Schedules.FillEnds | LNT/Parser.cs:43-50 | The end-filling loop leaves exactly the chained listing ChainEnds(entries). |
| Schedules.ParseItemsShape | LNT/Parser.cs:27-41 | The item loop succeeds exactly when every item parses. Then it has one entry per item, in item order. |
| Schedules.ParsedEntries | LNT/Parser.cs:28-41 | When every item parses to the entry at its position, the loop's result is those entries. |
| Schedules.DayScheduleShape | LNT/Parser.cs:21-50 | With a container, the day succeeds exactly when every item parses. Its i-th entry, without its end, is the parse of the i-th item, and it ends at entry i+1's start; the last entry has no end. |
| Schedules.DayScheduleFirstFailure | LNT/Parser.cs:28-41 | The day fails with the error of the first item that does not parse. |
| ParserHost.PageAddressIdentifiesDay | XMLTVGenerator/ParserHost.cs:130 | Two dates give the same page address exactly when they are on the same day. |
| ParserHost.FailedFetchGivesEmptyDay | XMLTVGenerator/ParserHost.cs:148-160 | For either parser, a page that is not 200 OK (null source) contributes no programmes. |
| ParserHost.Worker | XMLTVGenerator/ParserHost.cs:124-146 | The result is the dates' listings glued in order (Gather). An empty range gives an empty list. |
| ParserHost.DatesAreEachDay | XMLTVGenerator/ParserHost.cs:128 | The visited dates are from, from + 1 day, and so on: exactly (to - from)/1 day + 1 of them, each one not past `to`. |
| ParserHost.LeavesRangeExactly | XMLTVGenerator/ParserHost.cs:128 | The loop ends normally exactly when the step past the last visited date stays inside the calendar. |
| ParserHost.WorkerVisitsEachDate | XMLTVGenerator/ParserHost.cs:124-146 | Worker's result is the day listings of Dates(from, to) concatenated. The first failing day's error wins, and a step past year 9999 fails. |
| ParserHost.WorkerListing | XMLTVGenerator/ParserHost.cs:124-146 | Worker succeeds exactly when every date's parse succeeds and the steps stay in the calendar. The list is then the listings of the dates in order, and its length is their sum. |
| ParserHost.DateToISOString | XMLTVGenerator/ParserHost.cs:238-247 | It fails exactly when the offset lookup fails: an unknown zone, or a date that ConvertTime rejects. The error names the zone. Otherwise the text is built from the unconverted date and the zone's offset at that date. |
| ParserHost.OffsetTextFields | XMLTVGenerator/ParserHost.cs:244-245 | The offset text is a space, '-' exactly for a negative offset and '+' otherwise, then the hours (mod 24) and minutes of its magnitude as two digits each. |
| ParserHost.IsoTextFields | XMLTVGenerator/ParserHost.cs:246 | The timestamp has 21 characters. Its first 14 digits read back as the date, then come two spaces, then the offset text. |
| ParserHost.StamperTexts | XMLTVGenerator/ParserHost.cs:238-247 | The renderer Build uses fails exactly when the offset lookup fails (an unknown zone, or a date that ConvertTime rejects). Its text reads back as the date and carries the zone's offset. |
| ParserHost.NextMidnightIsNextDay | XMLTVGenerator/ParserHost.cs:210 | Midnight of the next day exists unless the date is on the calendar's last day. It is on the next day at 00:00:00, after the date. |
| ParserHost.StopOfSupplied | XMLTVGenerator/ParserHost.cs:204-216 | A set End is kept unchanged. Otherwise, in a sorted listing, the supplied stop is never before the start: the last entry stops at the next day's midnight, any other at the next entry's start. |
| ParserHost.EmitSlotShape | XMLTVGenerator/ParserHost.cs:218-226 | An entry's element exists exactly when it has a stop and both timestamps render. It is a programme on the channel's id, with the entry's title, the rendered start and stop, and a desc exactly for a non-empty description. |
| ParserHost.ChannelProgrammesShape | XMLTVGenerator/ParserHost.cs:199-228 | The order is sorted by start and a permutation of the listing. An empty listing fails (Last()). The channel succeeds exactly when each sorted entry's element does, and element p is the one written for sorted entry p. |
| ParserHost.EmitListing | XMLTVGenerator/ParserHost.cs:199-228 | The loop over one channel's sorted listing gives its programme elements ChannelProgrammes, or the first failure. |
| ParserHost.OwnProgrammesShape | XMLTVGenerator/ParserHost.cs:196-229 | The own programmes succeed exactly when every channel does. There is then one element per listing entry. |
| ParserHost.OwnProgrammesAreProgrammes | XMLTVGenerator/ParserHost.cs:218-227 | Every element written for the own channels is a programme element. |
| ParserHost.EmptyListingFails | XMLTVGenerator/ParserHost.cs:201 | A channel with an empty listing makes writing the programmes fail. |
| ParserHost.WriteProgrammes | XMLTVGenerator/ParserHost.cs:196-229 | The loop over the channels gives OwnProgrammes: the channels' elements in channel order, or the first failure. |
| ParserHost.WriteChannels | XMLTVGenerator/ParserHost.cs:180-184 | The loop over the own channels writes one channel element per channel, in order, with the id attribute and the name as display-name (ChannelElements). |
| ParserHost.Build | XMLTVGenerator/ParserHost.cs:166-231 | The document built is BuildGuide: the ShuraTV channels, the own channel elements, the ShuraTV programmes, then the own programmes. |
| ParserHost.BuildSucceeds | XMLTVGenerator/ParserHost.cs:166-231 | The build succeeds exactly when the ShuraTV stage succeeds (if it is requested) and every own channel's programmes can be written. |
| ParserHost.BuildLayout | XMLTVGenerator/ParserHost.cs:169-229 | The root carries generator-info-name "xmltv-generator". Its channels are the ShuraTV channels found and then one per own channel. Its programmes are the ShuraTV ones and then the own ones. |
| ParserHost.BuildCount | XMLTVGenerator/ParserHost.cs:196-229 | The guide holds the ShuraTV programmes plus exactly one programme per listing entry of the own channels. |
| ParserHost.EmptyListingStopsBuild | XMLTVGenerator/ParserHost.cs:201 | One channel with an empty listing makes the whole build fail. |
| ShuraTv.FirstNamed | XMLTVGenerator/ParserHost.cs:284 | The position of the first channel with the display name; no earlier channel has it. |
| ShuraTv.OnChannel | XMLTVGenerator/ParserHost.cs:290 | Every element kept is a programme of the document whose channel attribute is the id. |
| ShuraTv.OnChannelHas | XMLTVGenerator/ParserHost.cs:290 | Every programme of the document on the id is kept. |
| ShuraTv.ChannelListing | XMLTVGenerator/ParserHost.cs:290 | The programme query succeeds exactly when every programme has a channel attribute. It then gives the programmes on the id, and otherwise the missing-attribute error. |
| ShuraTv.GetShuraTvChannelsWithProgram | XMLTVGenerator/ParserHost.cs:253-303 | The loop over the 16 names gives Stage(doc, AllowList): for each name found, its channel followed by that channel's programmes. |
| ShuraTv.Found | XMLTVGenerator/ParserHost.cs:284-287 | The channels found are channel elements of the document. |
| ShuraTv.StageSucceeds | XMLTVGenerator/ParserHost.cs:282-298 | The filter succeeds exactly when every channel found has an id and, if any was found, every programme has a channel attribute. |
| ShuraTv.StageChannels | XMLTVGenerator/ParserHost.cs:284-287 | The channel elements of the result are exactly the channels found, in allow-list order. |
| ShuraTv.StageProgrammes | XMLTVGenerator/ParserHost.cs:288-291 | An element is among the result's programmes exactly when it is a programme of the document whose channel is the id of a channel found. |
| ShuraTv.OnChannelHoldsNoChannels | XMLTVGenerator/ParserHost.cs:290-291 | A channel's programme list adds no channel element, and all of it counts as programmes. |
| Sorting.SortByStartSorted | XMLTVGenerator/ParserHost.cs:199 | The sorted listing is ordered by start. |
| Sorting.SortByStartPermutes | XMLTVGenerator/ParserHost.cs:199 | The sorted listing holds the same entries, with multiplicity. |
| Sorting.SortByStartStable | XMLTVGenerator/ParserHost.cs:199 | Entries with the same start keep their order (OrderBy is stable). |
| Sorting.SortedArrangementUnique | XMLTVGenerator/ParserHost.cs:199 | A sorted listing is determined by which entries start at each time and in what order; so the sort of a listing is unique. |
| Sorting.SortIgnoresInterleaving | XMLTVGenerator/ParserHost.cs:199 | Listings that differ only in how entries with different starts interleave sort to the same listing. |
| Sorting.SortOfSorted | XMLTVGenerator/ParserHost.cs:199 | A listing already in start order is left unchanged. |
| Xmltv.Channels | XMLTVGenerator/ParserHost.cs:175 | Descendants("channel") yields only channel elements. |
| Xmltv.Programmes | XMLTVGenerator/ParserHost.cs:188 | Descendants("programme") yields only programme elements. |
| Xmltv.FiltersOfConcat | XMLTVGenerator/ParserHost.cs:175-189 | Both element filters distribute over concatenation of children. |
| Text.Split | LNT/Parser.cs:30 | String.Split always yields at least one piece. |
| Text.SplitJoin | LNT/Parser.cs:30 | Joining the pieces with the separator gives back the text. There is one more piece than there are separators, and no piece holds the separator. |
| Text.SplitWithoutSeparator | LNT/Parser.cs:30 | A text without the separator is one piece. |
| Text.SplitAtFirstSeparator | LNT/Parser.cs:30 | The text before the first separator is the first piece, and the rest splits on its own. |
| Text.ToInt32 | LNT/Parser.cs:31 | A number Convert.ToInt32 accepts is within the 32-bit range. |
| Text.ToInt32OfDigits | LNT/Parser.cs:31 | A zero-padded decimal within range reads as its value. |
| Text.ToInt32OfNegativeDigits | LNT/Parser.cs:31 | A leading '-' before padded digits reads as the negated value, down to -2^31. |
| Text.ToInt32OfNegative | LNT/Parser.cs:31 | "-" followed by digits whose value is at most 2^31 reads as the negated value. |
| Text.ToInt32OnlyNumericText | LNT/Parser.cs:31 | An accepted text holds only digits, white space and signs, and at least one digit. |
| DateTimes.AddClockTime | LNT/Parser.cs:37 | date.Add of a clock time h:m on a midnight stays on that day, at hour h, minute m and second 0. |
| DateTimes.AddDaysMovesDay | XMLTVGenerator/ParserHost.cs:128 | AddDays(n) succeeds exactly when the day stays in the calendar. It moves the day by n and keeps the time of day. |
| DateTimes.CivilOf | XMLTVGenerator/ParserHost.cs:210 | Year, Month and Day of a date form a valid calendar date that names the date's day. |
| DateTimes.Midnight | XMLTVGenerator/ParserHost.cs:210 | new DateTime(y, m, d, 0, 0, 0) is 00:00:00 on that calendar date. |
| DateTimes.Format14RoundTrip | XMLTVGenerator/ParserHost.cs:246 | The "yyyyMMddHHmmss" text reads back as the same date and time. |
| DateTimes.FormatDayMonthYearIdentifiesDay | LNT/Parser.cs:14 | The "dd.MM.yyyy" texts of two dates are equal exactly when the dates are on the same day. |

## Left out

- The hosting program calls Start with a fixed window, from today to today + 3 days (XMLTVGenerator/Program.cs:68). Worker is modelled for any `from` and `to`.
- The `Feedback` switch has no case for `Fatal`, so such messages are dropped; no message is modelled.
- Plugin discovery and loading (XMLTVGenerator/ParserHost.cs:42-94) and the hosting program (XMLTVGenerator/Program.cs): these are reflection and configuration. The model has the two parsers as values.
- Feedback and logging: they only write messages.
- HTTP and HTML parsing: the page fetch is the parameter `fetch`, None where the response is not 200 OK.
- ParserHost.Worker: it does not model a fetch that throws. In the program, a transport error or time-out in `GetAsync` (XMLTVGenerator/ParserHost.cs:152) leaves Worker and aborts the run. Here `fetch` answers every request, so WorkerListing's success condition covers only parse and calendar failures. A parsed page is reduced to its `ul` lists and their items' `b`, `a` and `p` texts (`Contracts.Document`).
- The time-zone database: `FindSystemTimeZoneById` and `GetUtcOffset` are the parameter `utcOffset`. It gives None wherever the lookup throws: for an unknown zone id, and for a date that `ConvertTime` rejects (a local time inside a daylight-saving gap). Both are reported as `UnknownTimeZone`. Build takes its timestamp renderer as the parameter `stamp`, and `Stamper(utcOffset)` is the one the source uses.
- DateToISOString: `utcOffset(zone, date)` stands for the pair `ConvertTime` then `GetUtcOffset`, that is, the offset in force at the converted date. The printed date is the date as given, unconverted, as in the source.
- File I/O: finding the ShuraTV file (`GetFiles("*.xml")[0]`), `XDocument.Load`, `ClearDirectory` and `doc.Save`. The ShuraTV document is the parameter, and the guide is the returned value.
- XMLTVGenerator/ShuraTvEpgLoader.cs is not part of this model.
- XML structure: `Descendants` is modelled over the top-level children only. A ShuraTV document is a sequence of `channel` and `programme` elements, and a display name counts only under a `channel`. Adding an element that already has a parent copies it, so the copies are the same values.
- async/await and concurrency: each step is sequential. The public `Start` (XMLTVGenerator/ParserHost.cs:119-122) only awaits Worker, so Worker stands for it.
- Sub-second ticks of DateTime and the DateTimeKind are left out. Culture-specific formatting is left out too; the invariant digits are used.
- Object identity: `programme[p].Equals(lastProgramme)` compares references, which is modelled as `p` being the last position.
- ParserHost.Build: it does not model a null `ProgramListing` (a NullReferenceException), because `Channel` values always carry a listing here.
- Programme (ParserContracts) is not part of this model; its four properties are the fields of `Contracts.Programme`.
