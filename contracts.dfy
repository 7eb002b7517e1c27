/**
 * The values passed between the channel parsers and the host: a programme
 * entry, the parsed schedule page a parser reads, and the errors that the
 * C# code raises as exceptions.
 */
module Contracts {
  import opened Wrappers
  import opened Text
  import opened DateTimes

  /**
   * One entry of a channel's listing. `description` is None where the C#
   * property stays null; `end` is None until a stop time is known.
   */
  datatype Programme = Programme(
    title: string,
    description: Option<string>,
    start: DateTime,
    end: Option<DateTime>)

  /**
   * A list item of a schedule page: the text content of its first `b`, `a`
   * and `p` descendants, None where the page has no such element.
   */
  datatype Item = Item(b: Option<string>, a: Option<string>, p: Option<string>)

  /** A `ul` element: its id ("" when it has none) and all its `li` descendants in document order. */
  datatype UList = UList(id: string, items: seq<Item>)

  /** A parsed schedule page, reduced to its `ul` elements in document order. */
  datatype Document = Document(lists: seq<UList>)

  /** What a page that did not load parses to: a document without any element. */
  const EmptyDocument := Document([])

  /** The exceptions of the pipeline, one constructor per cause. */
  datatype Error =
    | MissingElement(tag: string)      // a QuerySelector that found nothing is dereferenced
    | BadNumber(cause: NumberError)    // Convert.ToInt32 throws
    | MissingMinutes                   // the time text has no second ':'-separated part
    | TimeSpanOverflow                 // new TimeSpan(h, m, 0) is out of range
    | DateOutOfRange                   // DateTime.Add or AddDays leaves year 1 to 9999
    | EmptyListing(channel: string)    // Last() on a channel with no programmes
    | UnknownTimeZone(zone: string)    // the time-zone lookup or conversion fails
    | MissingAttribute(name: string)   // Attribute(name).Value on an element without it
}
