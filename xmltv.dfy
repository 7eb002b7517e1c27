/** The XMLTV elements the guide is assembled from, as records rather than text. */
module Xmltv {
  import opened Wrappers

  /**
   * A child of the `tv` root. A `channel` has an optional `id` attribute
   * and its `display-name` texts; a `programme` has its `start` and `stop`
   * texts, an optional `channel` attribute, a `title` text and an optional
   * `desc` text.
   */
  datatype Element =
    | ChannelElement(id: Option<string>, displayNames: seq<string>)
    | ProgrammeElement(start: string, stop: string, channel: Option<string>, title: string, desc: Option<string>)

  /** The `tv` root element: its `generator-info-name` attribute and its children in order. */
  datatype Tv = Tv(generatorInfoName: string, children: seq<Element>)

  const GeneratorInfoName := "xmltv-generator"

  /** The `channel` elements among `es`, in document order (Descendants("channel")). */
  function Channels(es: seq<Element>): (r: seq<Element>)
    ensures forall i :: 0 <= i < |r| ==> r[i].ChannelElement?
  {
    if es == [] then []
    else (if es[0].ChannelElement? then [es[0]] else []) + Channels(es[1..])
  }

  /** The `programme` elements among `es`, in document order (Descendants("programme")). */
  function Programmes(es: seq<Element>): (r: seq<Element>)
    ensures forall i :: 0 <= i < |r| ==> r[i].ProgrammeElement?
  {
    if es == [] then []
    else (if es[0].ProgrammeElement? then [es[0]] else []) + Programmes(es[1..])
  }

  /** Both filters distribute over concatenation. */
  lemma {:induction false} FiltersOfConcat(a: seq<Element>, b: seq<Element>)
    ensures Channels(a + b) == Channels(a) + Channels(b)
    ensures Programmes(a + b) == Programmes(a) + Programmes(b)
  {
    if a != [] {
      assert (a + b)[0] == a[0] && (a + b)[1..] == a[1..] + b;
      FiltersOfConcat(a[1..], b);
      var c := if a[0].ChannelElement? then [a[0]] else [];
      var p := if a[0].ProgrammeElement? then [a[0]] else [];
      assert Channels(a + b) == c + (Channels(a[1..]) + Channels(b));
      assert Programmes(a + b) == p + (Programmes(a[1..]) + Programmes(b));
    } else {
      assert a + b == b;
    }
  }

  /** A sequence of programme elements holds no channels and is its own programme list. */
  lemma {:induction false} OnlyProgrammes(ps: seq<Element>)
    requires forall i :: 0 <= i < |ps| ==> ps[i].ProgrammeElement?
    ensures Channels(ps) == []
    ensures Programmes(ps) == ps
  {
    if ps != [] {
      OnlyProgrammes(ps[1..]);
      assert ps == [ps[0]] + ps[1..];
    }
  }

  /** A sequence of channel elements holds no programmes and is its own channel list. */
  lemma {:induction false} OnlyChannels(cs: seq<Element>)
    requires forall i :: 0 <= i < |cs| ==> cs[i].ChannelElement?
    ensures Channels(cs) == cs
    ensures Programmes(cs) == []
  {
    if cs != [] {
      OnlyChannels(cs[1..]);
      assert cs == [cs[0]] + cs[1..];
    }
  }
}
