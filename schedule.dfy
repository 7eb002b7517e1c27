/**
 * What the two channel parsers compute, as functions: the schedule list of
 * a page, the start time of one list item, the entries of a whole list with
 * the first failure winning, and the chaining of each entry's end to the
 * next entry's start.
 */
module Schedules {
  import opened Wrappers
  import opened Text
  import opened DateTimes
  import opened Contracts

  /** The id of the `ul` element that holds a day's listing. */
  const ContainerId := "program-list-view"

  /** The largest number of whole seconds a .NET TimeSpan holds (Int64.MaxValue ticks). */
  const MaxTimeSpanSeconds := 922337203685

  /** The position of the first `ul` with the listing's id; |lists| when there is none. */
  function ContainerIndex(lists: seq<UList>): (k: nat)
    ensures k <= |lists|
    ensures k < |lists| ==> lists[k].id == ContainerId
    ensures forall j :: 0 <= j < k ==> lists[j].id != ContainerId
  {
    if lists == [] then 0
    else if lists[0].id == ContainerId then 0
    else 1 + ContainerIndex(lists[1..])
  }

  /** The listing container of a page, None when no `ul` has its id (FirstOrDefault). */
  function FindContainer(doc: Document): (r: Option<UList>)
    ensures r.None? <==> forall j :: 0 <= j < |doc.lists| ==> doc.lists[j].id != ContainerId
    ensures r.Some? ==> r.value == doc.lists[ContainerIndex(doc.lists)]
  {
    var k := ContainerIndex(doc.lists);
    if k < |doc.lists| then Some(doc.lists[k]) else None
  }

  /**
   * The TimeSpan, in seconds, that a time text denotes: the text is split on
   * ':', the first two parts are read as Int32 hours and minutes, and the
   * seconds are 0.
   */
  function ClockTime(text: string): (r: Result<int, Error>)
    ensures r.Success? ==> -MaxTimeSpanSeconds <= r.value <= MaxTimeSpanSeconds
  {
    TimeOfParts(Split(text, ':'))
  }

  /**
   * new TimeSpan(Convert.ToInt32(parts[0]), Convert.ToInt32(parts[1]), 0) in
   * seconds. Further parts are not looked at, and the hours and minutes are
   * not checked against a clock.
   */
  function TimeOfParts(parts: seq<string>): (r: Result<int, Error>)
    requires |parts| >= 1
    ensures r.Success? ==> -MaxTimeSpanSeconds <= r.value <= MaxTimeSpanSeconds
    ensures r.Success? ==> |parts| >= 2
  {
    match ToInt32(parts[0])
    case Failure(e) => Failure(BadNumber(e))
    case Success(h) =>
      if |parts| < 2 then Failure(MissingMinutes)
      else match ToInt32(parts[1])
        case Failure(e) => Failure(BadNumber(e))
        case Success(m) => NewTimeSpan(h, m)
  }

  /** new TimeSpan(hours, minutes, 0) in seconds; it throws beyond the range of a TimeSpan. */
  function NewTimeSpan(hours: int, minutes: int): (r: Result<int, Error>)
    ensures r.Success? <==> -MaxTimeSpanSeconds <= hours * 3600 + minutes * 60 <= MaxTimeSpanSeconds
    ensures r.Success? ==> r.value == hours * 3600 + minutes * 60
    ensures r.Failure? ==> r.error == TimeSpanOverflow
  {
    var total := hours * 3600 + minutes * 60;
    if -MaxTimeSpanSeconds <= total <= MaxTimeSpanSeconds then Success(total) else Failure(TimeSpanOverflow)
  }

  /**
   * The entry one list item becomes, or the exception that building it
   * raises, checked in the order the C# evaluates them: the time text, its
   * numbers, the TimeSpan, the title, and last the date addition.
   * `withDescription` says whether the parser copies the `p` text.
   */
  function ItemEntry(item: Item, date: DateTime, withDescription: bool): (r: Result<Programme, Error>)
    ensures r.Success? <==>
      item.b.Some? && ClockTime(item.b.value).Success? && item.a.Some? &&
      Add(date, ClockTime(item.b.value).value).Some?
    ensures item.b.None? ==> r == Failure(MissingElement("b"))
    ensures item.b.Some? && ClockTime(item.b.value).Failure? ==> r == Failure(ClockTime(item.b.value).error)
    ensures item.b.Some? && ClockTime(item.b.value).Success? && item.a.None? ==> r == Failure(MissingElement("a"))
    ensures item.b.Some? && ClockTime(item.b.value).Success? && item.a.Some? ==>
      (Add(date, ClockTime(item.b.value).value).None? ==> r == Failure(DateOutOfRange))
    ensures r.Success? ==> r.value.title == item.a.value
    ensures r.Success? ==> r.value.description == (if withDescription then item.p else None)
    ensures r.Success? ==> ClockTime(item.b.value) == Success(r.value.start - date)
    ensures r.Success? ==> r.value.end == None
  {
    if item.b.None? then Failure(MissingElement("b"))
    else match ClockTime(item.b.value)
      case Failure(e) => Failure(e)
      case Success(offset) =>
        if item.a.None? then Failure(MissingElement("a"))
        else match Add(date, offset)
          case None => Failure(DateOutOfRange)
          case Some(start) =>
            Success(Programme(item.a.value, if withDescription then item.p else None, start, None))
  }

  /** ItemEntry for one date and parser, as a function of the item alone. */
  function EntryFor(date: DateTime, withDescription: bool): Item -> Result<Programme, Error>
  {
    item => ItemEntry(item, date, withDescription)
  }

  /** The entries of a list of items in order; the first item that fails decides the result. */
  function ParseItems(items: seq<Item>, date: DateTime, withDescription: bool): Result<seq<Programme>, Error>
  {
    Traverse(items, EntryFor(date, withDescription))
  }

  /** Every entry but the last gets the next entry's start as its end; nothing else changes. */
  function ChainEnds(ps: seq<Programme>): (r: seq<Programme>)
    ensures |r| == |ps|
    ensures forall i {:trigger r[i]} :: 0 <= i < |ps| - 1 ==> r[i] == ps[i].(end := Some(ps[i + 1].start))
    ensures |ps| > 0 ==> r[|ps| - 1] == ps[|ps| - 1]
    ensures forall i {:trigger r[i]} :: 0 <= i < |ps| ==> r[i].start == ps[i].start
  {
    if |ps| <= 1 then ps
    else [ps[0].(end := Some(ps[1].start))] + ChainEnds(ps[1..])
  }

  /**
   * The parsers' second pass over a listing, in place: each entry but the
   * last gets the start of the entry after it as its end.
   */
  method FillEnds(entries: seq<Programme>) returns (programListing: seq<Programme>)
    ensures programListing == ChainEnds(entries)
  {
    ghost var chained := ChainEnds(entries);
    programListing := entries;
    for i := 0 to |programListing|
      invariant |programListing| == |entries|
      invariant programListing[..i] == chained[..i]
      invariant programListing[i..] == entries[i..]
    {
      assert programListing[i] == entries[i] by {
        assert programListing[i..][0] == entries[i..][0];
      }
      if i < |programListing| - 1 {
        assert programListing[i + 1] == entries[i + 1] by {
          assert programListing[i..][1] == entries[i..][1];
        }
        programListing := programListing[i := programListing[i].(end := Some(programListing[i + 1].start))];
      }
      assert programListing[i] == chained[i];
      assert programListing[..i + 1] == programListing[..i] + [programListing[i]];
      assert chained[..i + 1] == chained[..i] + [chained[i]];
    }
    assert programListing == programListing[..|entries|];
  }

  /** The listing one parser produces for a page and its date. */
  function DaySchedule(doc: Document, date: DateTime, withDescription: bool): Result<seq<Programme>, Error>
  {
    match FindContainer(doc)
    case None => Success([])
    case Some(container) =>
      match ParseItems(container.items, date, withDescription)
      case Failure(e) => Failure(e)
      case Success(ps) => Success(ChainEnds(ps))
  }

  // ---------------------------------------------------------------------------
  // Time texts

  /** Parts that start with two Int32 numbers give the TimeSpan of those hours and minutes. */
  lemma TimeOfNumbers(parts: seq<string>, h: int, m: int)
    requires |parts| >= 2 && ToInt32(parts[0]) == Success(h) && ToInt32(parts[1]) == Success(m)
    ensures TimeOfParts(parts) == NewTimeSpan(h, m)
  {
  }

  /** No ':' occurs in a text of digits. */
  lemma NoColonInDigits(s: string)
    requires AllDigits(s)
    ensures ':' !in s
  {
  }

  /**
   * An "H:M" text of decimal digits, optionally followed by further
   * ':'-separated parts, denotes H hours and M minutes, whether or not they
   * make a clock time; only a TimeSpan overflow makes it fail.
   */
  lemma ClockTimeOfDigits(h: nat, wh: nat, m: nat, wm: nat, tail: string)
    requires 1 <= wh && h < Pow10(wh) && h <= Int32Max
    requires 1 <= wm && m < Pow10(wm) && m <= Int32Max
    requires tail == [] || tail[0] == ':'
    ensures ClockTime(Digits(h, wh) + ":" + Digits(m, wm) + tail) == NewTimeSpan(h, m)
  {
    var dh, dm := Digits(h, wh), Digits(m, wm);
    NoColonInDigits(dh);
    NoColonInDigits(dm);
    var rest := dm + tail;
    assert dh + ":" + dm + tail == dh + [':'] + rest;
    SplitAtFirstSeparator(dh, ':', rest);
    if tail == [] {
      assert rest == dm;
      SplitWithoutSeparator(dm, ':');
    } else {
      assert rest == dm + [':'] + tail[1..];
      SplitAtFirstSeparator(dm, ':', tail[1..]);
    }
    ToInt32OfDigits(h, wh);
    ToInt32OfDigits(m, wm);
    TimeOfNumbers(Split(dh + ":" + dm + tail, ':'), h, m);
  }

  /** Only the first two ':'-separated parts of a time text matter. */
  lemma ClockTimeIgnoresExtraParts(hours: string, minutes: string, extra: string)
    requires ':' !in hours && ':' !in minutes
    ensures ClockTime(hours + ":" + minutes + ":" + extra) == ClockTime(hours + ":" + minutes)
  {
    assert hours + ":" + minutes + ":" + extra == hours + [':'] + (minutes + [':'] + extra);
    assert hours + ":" + minutes == hours + [':'] + minutes;
    SplitAtFirstSeparator(hours, ':', minutes + [':'] + extra);
    SplitAtFirstSeparator(minutes, ':', extra);
    SplitAtFirstSeparator(hours, ':', minutes);
    SplitWithoutSeparator(minutes, ':');
  }

  /** An hours part that is not an Int32 number makes the time text fail with that number error. */
  lemma ClockTimeBadHours(hours: string, rest: string)
    requires ':' !in hours && ToInt32(hours).Failure?
    ensures ClockTime(hours + ":" + rest) == Failure(BadNumber(ToInt32(hours).error))
  {
    assert hours + ":" + rest == hours + [':'] + rest;
    SplitAtFirstSeparator(hours, ':', rest);
  }

  /** With a good hours part, a minutes part that is not an Int32 number fails with that number error. */
  lemma ClockTimeBadMinutes(hours: string, minutes: string)
    requires ':' !in hours && ':' !in minutes
    requires ToInt32(hours).Success? && ToInt32(minutes).Failure?
    ensures ClockTime(hours + ":" + minutes) == Failure(BadNumber(ToInt32(minutes).error))
  {
    assert hours + ":" + minutes == hours + [':'] + minutes;
    SplitAtFirstSeparator(hours, ':', minutes);
    SplitWithoutSeparator(minutes, ':');
  }

  /**
   * On a date at midnight, an item whose time text is "HH:MM" for a clock
   * time starts on that day at HH:MM.
   */
  lemma ItemStartsAtClock(item: Item, date: DateTime, withDescription: bool, h: nat, m: nat)
    requires SecondOfDay(date) == 0 && h < 24 && m < 60
    requires item.b == Some(Digits(h, 2) + ":" + Digits(m, 2)) && item.a.Some?
    ensures ItemEntry(item, date, withDescription).Success?
    ensures var start := ItemEntry(item, date, withDescription).value.start;
      Day(start) == Day(date) && Hour(start) == h && Minute(start) == m && Second(start) == 0
  {
    var text := item.b.value;
    var offset := h * 3600 + m * 60;
    assert Digits(h, 2) + ":" + Digits(m, 2) + [] == text;
    ClockTimeOfDigits(h, 2, m, 2, []);
    assert ClockTime(text) == Success(offset);
    AddClockTime(date, h, m);
    var e := ItemEntry(item, date, withDescription);
    assert e.Success?;
    assert e.value.start == Add(date, offset).value;
  }

  /** A time text without ':' never gives a time: it is not a number, or the minutes are missing. */
  lemma ClockTimeWithoutColon(text: string)
    requires ':' !in text
    ensures ClockTime(text) == match ToInt32(text)
      case Failure(e) => Failure(BadNumber(e))
      case Success(_) => Failure(MissingMinutes)
  {
    SplitWithoutSeparator(text, ':');
  }

  // ---------------------------------------------------------------------------
  // A day's listing

  /** A page without the listing container gives an empty listing, not an error. */
  lemma DayScheduleWithoutContainer(doc: Document, date: DateTime, withDescription: bool)
    requires forall j :: 0 <= j < |doc.lists| ==> doc.lists[j].id != ContainerId
    ensures DaySchedule(doc, date, withDescription) == Success([])
  {
  }

  /** A list of items parses if and only if every item does, into the items' entries in order. */
  lemma ParseItemsShape(items: seq<Item>, date: DateTime, withDescription: bool)
    ensures ParseItems(items, date, withDescription).Success? <==>
      forall i :: 0 <= i < |items| ==> ItemEntry(items[i], date, withDescription).Success?
    ensures var r := ParseItems(items, date, withDescription);
      r.Success? ==>
        |r.value| == |items| &&
        forall i :: 0 <= i < |items| ==> ItemEntry(items[i], date, withDescription) == Success(r.value[i])
  {
    var f := EntryFor(date, withDescription);
    TraverseSuccess(items, f);
    forall i | 0 <= i < |items|
      ensures f(items[i]) == ItemEntry(items[i], date, withDescription)
    {
    }
  }

  /** Entry `i` of a chained listing is the unchained entry with the next start as its end. */
  lemma ChainedEntry(ps: seq<Programme>, i: nat)
    requires i < |ps| && ps[i].end == None
    ensures ChainEnds(ps)[i].(end := None) == ps[i]
    ensures ChainEnds(ps)[i].end == if i < |ps| - 1 then Some(ChainEnds(ps)[i + 1].start) else None
  {
    var r := ChainEnds(ps);
    if i < |ps| - 1 {
      assert r[i] == ps[i].(end := Some(ps[i + 1].start));
      assert r[i + 1].start == ps[i + 1].start;
    } else {
      assert r[i] == ps[i];
    }
  }

  /** A listing of entries without ends, chained: each entry keeps its fields and ends at the next start. */
  lemma ChainedEntries(ps: seq<Programme>)
    requires forall i :: 0 <= i < |ps| ==> ps[i].end == None
    ensures forall i :: 0 <= i < |ps| ==> ChainEnds(ps)[i].(end := None) == ps[i]
    ensures forall i :: 0 <= i < |ps| ==>
      ChainEnds(ps)[i].end == if i < |ps| - 1 then Some(ChainEnds(ps)[i + 1].start) else None
  {
    forall i | 0 <= i < |ps|
      ensures ChainEnds(ps)[i].(end := None) == ps[i]
      ensures ChainEnds(ps)[i].end == if i < |ps| - 1 then Some(ChainEnds(ps)[i + 1].start) else None
    {
      ChainedEntry(ps, i);
    }
  }

  /** Entries that are, one by one, the items' entries are what the list parses to. */
  lemma ParsedEntries(items: seq<Item>, date: DateTime, withDescription: bool, entries: seq<Programme>)
    requires |entries| == |items|
    requires forall j :: 0 <= j < |items| ==> ItemEntry(items[j], date, withDescription) == Success(entries[j])
    ensures ParseItems(items, date, withDescription) == Success(entries)
  {
    var f := EntryFor(date, withDescription);
    forall j | 0 <= j < |items|
      ensures f(items[j]) == Success(entries[j])
    {
      assert f(items[j]) == ItemEntry(items[j], date, withDescription);
    }
    TraverseOfResults(items, f, entries);
  }

  /**
   * With the container present, the day parses if and only if every item
   * does; there is then one entry per `li` in document order, each the
   * item's entry with its end set to the next entry's start, and the last
   * entry's end left unset.
   */
  lemma DayScheduleShape(doc: Document, date: DateTime, withDescription: bool)
    requires FindContainer(doc).Some?
    ensures var items := FindContainer(doc).value.items;
      DaySchedule(doc, date, withDescription).Success? <==>
        forall i :: 0 <= i < |items| ==> ItemEntry(items[i], date, withDescription).Success?
    ensures var items, r := FindContainer(doc).value.items, DaySchedule(doc, date, withDescription);
      r.Success? ==>
        && |r.value| == |items|
        && forall i :: 0 <= i < |items| ==>
          && ItemEntry(items[i], date, withDescription) == Success(r.value[i].(end := None))
          && r.value[i].end == (if i < |items| - 1 then Some(r.value[i + 1].start) else None)
  {
    var items := FindContainer(doc).value.items;
    ParseItemsShape(items, date, withDescription);
    var r := DaySchedule(doc, date, withDescription);
    if r.Success? {
      var ps := ParseItems(items, date, withDescription).value;
      assert r.value == ChainEnds(ps);
      forall i | 0 <= i < |ps|
        ensures ps[i].end == None
      {
        assert ItemEntry(items[i], date, withDescription) == Success(ps[i]);
      }
      ChainedEntries(ps);
    }
  }

  /** A day whose items do not all parse fails with the error of its first failing item. */
  lemma DayScheduleFirstFailure(doc: Document, date: DateTime, withDescription: bool, k: nat)
    requires FindContainer(doc).Some?
    requires var items := FindContainer(doc).value.items;
      && k < |items| && ItemEntry(items[k], date, withDescription).Failure?
      && forall i :: 0 <= i < k ==> ItemEntry(items[i], date, withDescription).Success?
    ensures DaySchedule(doc, date, withDescription)
      == Failure(ItemEntry(FindContainer(doc).value.items[k], date, withDescription).error)
  {
    TraverseFailure(FindContainer(doc).value.items, EntryFor(date, withDescription), k);
  }
}
