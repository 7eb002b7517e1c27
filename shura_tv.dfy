/**
 * The ShuraTV guide: from a downloaded XMLTV document, the host keeps the
 * channels of a fixed allow-list of display names, each followed by that
 * channel's programmes, and merges them into its own guide.
 */
module ShuraTv {
  import opened Wrappers
  import opened Contracts
  import opened Xmltv

  /** The display names of the channels taken from the ShuraTV guide, in the order they are looked up. */
  const AllowList: seq<string> := [
    "Первый HD",
    "Россия HD",
    "Россия 24",
    "НТВ HD",
    "РЕН ТВ",
    "ТНТ Comedy",
    "ТНТ HD",
    "СТС",
    "ТВЦ",
    "24 док",
    "24 техно",
    "Наука 2.0",
    "Discovery HD",
    "Discovery Science",
    "Nat Geo Wild HD",
    "National Geographic HD"
  ]

  /** A `channel` element with a `display-name` whose text is `name`. */
  predicate Named(e: Element, name: string)
  {
    e.ChannelElement? && name in e.displayNames
  }

  /**
   * The position of the channel that owns the first `display-name` with
   * text `name` in document order (the parent of FirstOrDefault); |es| when
   * there is none.
   */
  function FirstNamed(es: seq<Element>, name: string): (k: nat)
    ensures k <= |es|
    ensures k < |es| ==> Named(es[k], name)
    ensures forall j :: 0 <= j < k ==> !Named(es[j], name)
  {
    if es == [] then 0
    else if Named(es[0], name) then 0
    else 1 + FirstNamed(es[1..], name)
  }

  /** The `programme` elements of `es` whose `channel` attribute is `id`, in document order. */
  function OnChannel(es: seq<Element>, id: string): (r: seq<Element>)
    ensures forall i :: 0 <= i < |r| ==> r[i].ProgrammeElement? && r[i].channel == Some(id) && r[i] in es
  {
    if es == [] then []
    else (if es[0].ProgrammeElement? && es[0].channel == Some(id) then [es[0]] else []) + OnChannel(es[1..], id)
  }

  /** Every `programme` element of `es` has a `channel` attribute. */
  predicate Attributed(es: seq<Element>)
  {
    forall i :: 0 <= i < |es| ==> es[i].ProgrammeElement? ==> es[i].channel.Some?
  }

  /**
   * The programmes of channel `id` (the Where over all programmes made into
   * an array): reading the `channel` attribute of a programme that has none
   * throws, whichever channel is asked for.
   */
  function ChannelListing(es: seq<Element>, id: string): (r: Result<seq<Element>, Error>)
    ensures r.Success? <==> Attributed(es)
    ensures r.Success? ==> r.value == OnChannel(es, id)
    ensures r.Failure? ==> r.error == MissingAttribute("channel")
  {
    if Attributed(es) then Success(OnChannel(es, id)) else Failure(MissingAttribute("channel"))
  }

  /**
   * What looking up `names` in order adds to the staging element: for every
   * name that some channel displays, that channel followed by its
   * programmes; a name no channel displays adds nothing. A found channel
   * without an `id` attribute throws.
   */
  function Stage(es: seq<Element>, names: seq<string>): Result<seq<Element>, Error>
    decreases |names|
  {
    if names == [] then Success([])
    else
      var k := FirstNamed(es, names[0]);
      if k == |es| then Stage(es, names[1..])
      else match es[k].id
        case None => Failure(MissingAttribute("id"))
        case Some(id) =>
          match ChannelListing(es, id)
          case Failure(e) => Failure(e)
          case Success(ps) => Glue([es[k]] + ps, Stage(es, names[1..]))
  }

  /**
   * Reads the ShuraTV document `doc` (its `tv` children) and returns the
   * children of the staging element, or the exception that stops it.
   */
  method GetShuraTvChannelsWithProgram(doc: seq<Element>) returns (r: Result<seq<Element>, Error>)
    ensures r == Stage(doc, AllowList)
  {
    var shuratv: seq<Element> := [];
    var russianChannels := AllowList;
    GlueNothing(Stage(doc, russianChannels));
    for i := 0 to |russianChannels|
      invariant Glue(shuratv, Stage(doc, russianChannels[i..])) == Stage(doc, russianChannels)
    {
      var rus := russianChannels[i];
      StageStep(doc, russianChannels, i, shuratv);
      var channel := FirstNamed(doc, rus);
      if channel < |doc| {
        shuratv := shuratv + [doc[channel]];
        if doc[channel].id.None? {
          return Failure(MissingAttribute("id"));
        }
        var channelId := doc[channel].id.value;
        var programList := ChannelListing(doc, channelId);
        if programList.Failure? {
          return Failure(programList.error);
        }
        shuratv := shuratv + programList.value;
      }
    }
    assert russianChannels[|russianChannels|..] == [];
    assert shuratv + [] == shuratv;
    return Success(shuratv);
  }

  // ---------------------------------------------------------------------------
  // What the staging element holds

  /** The channels `names` find, in the order of the names, each as often as it is found. */
  function Found(es: seq<Element>, names: seq<string>): (r: seq<Element>)
    ensures forall i :: 0 <= i < |r| ==> r[i] in es && r[i].ChannelElement?
    decreases |names|
  {
    if names == [] then []
    else
      var k := FirstNamed(es, names[0]);
      (if k < |es| then [es[k]] else []) + Found(es, names[1..])
  }

  /** The ids of the channels `names` find. */
  predicate FoundHaveIds(es: seq<Element>, names: seq<string>)
  {
    forall j :: 0 <= j < |names| ==> FirstNamed(es, names[j]) < |es| ==> es[FirstNamed(es, names[j])].id.Some?
  }

  /** Some name finds a channel. */
  predicate AnyFound(es: seq<Element>, names: seq<string>)
  {
    exists j :: 0 <= j < |names| && FirstNamed(es, names[j]) < |es|
  }

  lemma OnChannelHoldsNoChannels(es: seq<Element>, id: string)
    ensures Channels(OnChannel(es, id)) == []
    ensures Programmes(OnChannel(es, id)) == OnChannel(es, id)
  {
    OnlyProgrammes(OnChannel(es, id));
  }

  /** One step of the loop over the names: what the name at `i` adds, then the rest. */
  lemma StageStep(es: seq<Element>, names: seq<string>, i: nat, acc: seq<Element>)
    requires i < |names|
    ensures var k := FirstNamed(es, names[i]);
      Glue(acc, Stage(es, names[i..])) ==
        if k == |es| then Glue(acc, Stage(es, names[i + 1..]))
        else if es[k].id.None? then Failure(MissingAttribute("id"))
        else if ChannelListing(es, es[k].id.value).Failure? then Failure(MissingAttribute("channel"))
        else Glue(acc + [es[k]] + ChannelListing(es, es[k].id.value).value, Stage(es, names[i + 1..]))
  {
    var ns := names[i..];
    assert ns[0] == names[i] && ns[1..] == names[i + 1..];
    var k := FirstNamed(es, names[i]);
    var rest := Stage(es, names[i + 1..]);
    if k < |es| && es[k].id.Some? {
      var listing := ChannelListing(es, es[k].id.value);
      if listing.Success? {
        var head := [es[k]] + listing.value;
        assert Stage(es, ns) == Glue(head, rest);
        GlueGlue(acc, head, rest);
        assert acc + head == acc + [es[k]] + listing.value;
      }
    }
  }

  /**
   * The staging succeeds exactly when every channel found has an `id`
   * and, if any channel is found at all, every programme of the document
   * has a `channel` attribute.
   */
  lemma {:induction false} StageSucceeds(es: seq<Element>, names: seq<string>)
    ensures Stage(es, names).Success? <==> FoundHaveIds(es, names) && (AnyFound(es, names) ==> Attributed(es))
    decreases |names|
  {
    if names != [] {
      StageSucceeds(es, names[1..]);
      assert forall j :: 1 <= j < |names| ==> names[1..][j - 1] == names[j];
      if FirstNamed(es, names[0]) < |es| {
        assert AnyFound(es, names);
      } else {
        assert AnyFound(es, names) ==> AnyFound(es, names[1..]) by {
          if AnyFound(es, names) {
            var j :| 0 <= j < |names| && FirstNamed(es, names[j]) < |es|;
            assert names[1..][j - 1] == names[j];
          }
        }
        assert AnyFound(es, names[1..]) ==> AnyFound(es, names) by {
          if AnyFound(es, names[1..]) {
            var j :| 0 <= j < |names[1..]| && FirstNamed(es, names[1..][j]) < |es|;
            assert names[j + 1] == names[1..][j];
          }
        }
      }
      assert FoundHaveIds(es, names) <==>
        (FirstNamed(es, names[0]) < |es| ==> es[FirstNamed(es, names[0])].id.Some?) && FoundHaveIds(es, names[1..]) by {
        if FoundHaveIds(es, names[1..]) {
          forall j | 1 <= j < |names|
            ensures FirstNamed(es, names[j]) < |es| ==> es[FirstNamed(es, names[j])].id.Some?
          {
            assert names[1..][j - 1] == names[j];
          }
        }
      }
    } else {
      assert !AnyFound(es, names);
    }
  }

  /**
   * A successful staging holds exactly the found channels as its `channel`
   * elements, in the order of the names.
   */
  lemma {:induction false} StageChannels(es: seq<Element>, names: seq<string>)
    ensures Stage(es, names).Success? ==> Channels(Stage(es, names).value) == Found(es, names)
    decreases |names|
  {
    if names != [] && Stage(es, names).Success? {
      StageChannels(es, names[1..]);
      var k := FirstNamed(es, names[0]);
      if k < |es| {
        var id := es[k].id.value;
        var ps := OnChannel(es, id);
        var rest := Stage(es, names[1..]).value;
        assert Stage(es, names).value == [es[k]] + ps + rest;
        FiltersOfConcat([es[k]] + ps, rest);
        FiltersOfConcat([es[k]], ps);
        OnChannelHoldsNoChannels(es, id);
        assert Channels([es[k]]) == [es[k]];
      }
    }
  }

  /** Some channel of `cs` has `channel` as its id. */
  predicate HasId(cs: seq<Element>, channel: Option<string>)
  {
    exists j :: 0 <= j < |cs| && cs[j].ChannelElement? && cs[j].id == channel
  }

  lemma HasIdConcat(a: seq<Element>, b: seq<Element>, channel: Option<string>)
    ensures HasId(a + b, channel) <==> HasId(a, channel) || HasId(b, channel)
  {
    if HasId(a + b, channel) {
      var j :| 0 <= j < |a + b| && (a + b)[j].ChannelElement? && (a + b)[j].id == channel;
      if j >= |a| {
        assert b[j - |a|] == (a + b)[j];
      } else {
        assert a[j] == (a + b)[j];
      }
    }
    if HasId(a, channel) {
      var j :| 0 <= j < |a| && a[j].ChannelElement? && a[j].id == channel;
      assert (a + b)[j] == a[j];
    }
    if HasId(b, channel) {
      var j :| 0 <= j < |b| && b[j].ChannelElement? && b[j].id == channel;
      assert (a + b)[j + |a|] == b[j];
    }
  }

  /** Some found channel has `channel` as its id. */
  predicate OnFound(es: seq<Element>, names: seq<string>, channel: Option<string>)
  {
    HasId(Found(es, names), channel)
  }

  lemma OnFoundStep(es: seq<Element>, names: seq<string>, channel: Option<string>)
    requires names != []
    ensures var k := FirstNamed(es, names[0]);
      OnFound(es, names, channel) <==> (k < |es| && es[k].id == channel) || OnFound(es, names[1..], channel)
  {
    var k := FirstNamed(es, names[0]);
    var head := if k < |es| then [es[k]] else [];
    var rest := Found(es, names[1..]);
    assert Found(es, names) == head + rest;
    HasIdConcat(head, rest, channel);
    if k < |es| {
      HasIdSingle(es[k], channel);
    } else {
      assert !HasId(head, channel);
    }
  }

  lemma HasIdSingle(e: Element, channel: Option<string>)
    requires e.ChannelElement?
    ensures HasId([e], channel) <==> e.id == channel
  {
    if e.id == channel {
      assert [e][0] == e;
    }
  }

  /**
   * A successful staging holds, as its `programme` elements, the document's
   * programmes of the found channels and no others.
   */
  lemma {:induction false} StageProgrammes(es: seq<Element>, names: seq<string>, e: Element)
    requires Stage(es, names).Success?
    ensures e in Programmes(Stage(es, names).value) <==> e in es && e.ProgrammeElement? && OnFound(es, names, e.channel)
    decreases |names|
  {
    if names == [] {
      assert Found(es, names) == [];
    } else {
      StageProgrammes(es, names[1..], e);
      if e.ProgrammeElement? {
        OnFoundStep(es, names, e.channel);
      }
      var k := FirstNamed(es, names[0]);
      if k < |es| {
        var id := es[k].id.value;
        var ps := OnChannel(es, id);
        var rest := Stage(es, names[1..]).value;
        var head := [es[k]] + ps;
        assert Stage(es, names).value == head + rest;
        FiltersOfConcat(head, rest);
        FiltersOfConcat([es[k]], ps);
        OnChannelHoldsNoChannels(es, id);
        assert Programmes([es[k]]) == [];
        assert Programmes(head) == ps;
        if e in es && e.ProgrammeElement? && e.channel == Some(id) {
          OnChannelHas(es, id, e);
        }
      }
    }
  }

  lemma {:induction false} OnChannelHas(es: seq<Element>, id: string, e: Element)
    requires e in es && e.ProgrammeElement? && e.channel == Some(id)
    ensures e in OnChannel(es, id)
  {
    if es[0] != e {
      OnChannelHas(es[1..], id, e);
    }
  }
}
