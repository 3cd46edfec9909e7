/**
 * OPML import: the feeds listed in an OPML document. The XML reader is an
 * abstract stream of events; only the opening tags it reports and their
 * attributes matter here.
 */
module Opml {
  import opened Wrappers

  datatype Attribute = Attribute(key: string, value: string)

  /** What the reader reports, as far as the import looks at it. */
  datatype XmlEvent =
    | Start(name: string, attributes: seq<Attribute>)   // <outline ...>
    | Empty(name: string, attributes: seq<Attribute>)   // <outline .../>
    | Other                                              // text, closing tags, declarations
    | Eof
    | Malformed(message: string)

  datatype OpmlFeed = OpmlFeed(url: string, name: string)

  const UNNAMED_FEED: string := "Unnamed Feed"
  const PARSE_ERROR_PREFIX: string := "Failed to parse OPML: "

  // ---------------------------------------------------------------- attributes

  /** The value of the last attribute called `key`: a later one overwrites an earlier one. */
  function LastValue(attrs: seq<Attribute>, key: string): (r: Option<string>)
  {
    if |attrs| == 0 then None
    else if attrs[|attrs| - 1].key == key then Some(attrs[|attrs| - 1].value)
    else LastValue(attrs[..|attrs| - 1], key)
  }

  /** The value of the first attribute called `key`: once set, it is kept. */
  function FirstValue(attrs: seq<Attribute>, key: string): (r: Option<string>)
  {
    if |attrs| == 0 then None
    else if FirstValue(attrs[..|attrs| - 1], key).Some? then FirstValue(attrs[..|attrs| - 1], key)
    else if attrs[|attrs| - 1].key == key then Some(attrs[|attrs| - 1].value)
    else None
  }

  /** The last `key` attribute is the one whose value is reported, and there is one iff the key occurs. */
  lemma {:induction false} LastValueSpec(attrs: seq<Attribute>, key: string)
    ensures LastValue(attrs, key).None? <==> forall i :: 0 <= i < |attrs| ==> attrs[i].key != key
    ensures forall i :: 0 <= i < |attrs| && attrs[i].key == key && (forall j :: i < j < |attrs| ==> attrs[j].key != key)
                ==> LastValue(attrs, key) == Some(attrs[i].value)
  {
    if |attrs| > 0 {
      var init := attrs[..|attrs| - 1];
      LastValueSpec(init, key);
      assert forall i :: 0 <= i < |init| ==> init[i] == attrs[i];
    }
  }

  /** The first `key` attribute is the one whose value is reported, and there is one iff the key occurs. */
  lemma {:induction false} FirstValueSpec(attrs: seq<Attribute>, key: string)
    ensures FirstValue(attrs, key).None? <==> forall i :: 0 <= i < |attrs| ==> attrs[i].key != key
    ensures forall i :: 0 <= i < |attrs| && attrs[i].key == key && (forall j :: 0 <= j < i ==> attrs[j].key != key)
                ==> FirstValue(attrs, key) == Some(attrs[i].value)
  {
    if |attrs| > 0 {
      var init := attrs[..|attrs| - 1];
      FirstValueSpec(init, key);
      assert forall i :: 0 <= i < |init| ==> init[i] == attrs[i];
    }
  }

  /** The feed's name: the last `title`, else the first `text`. */
  function NameOf(attrs: seq<Attribute>): (r: Option<string>)
  {
    if LastValue(attrs, "title").Some? then LastValue(attrs, "title") else FirstValue(attrs, "text")
  }

  /**
   * `title` wins over `text` wherever the two stand among the attributes;
   * without a title the first `text` names the feed; without either there
   * is no name.
   */
  lemma NameOfSpec(attrs: seq<Attribute>)
    ensures forall i :: 0 <= i < |attrs| && attrs[i].key == "title" && (forall j :: i < j < |attrs| ==> attrs[j].key != "title")
                ==> NameOf(attrs) == Some(attrs[i].value)
    ensures (forall i :: 0 <= i < |attrs| ==> attrs[i].key != "title") ==>
              forall i :: 0 <= i < |attrs| && attrs[i].key == "text" && (forall j :: 0 <= j < i ==> attrs[j].key != "text")
                ==> NameOf(attrs) == Some(attrs[i].value)
    ensures NameOf(attrs).None? <==> forall i :: 0 <= i < |attrs| ==> attrs[i].key != "title" && attrs[i].key != "text"
  {
    LastValueSpec(attrs, "title");
    FirstValueSpec(attrs, "text");
  }

  /** The two orders of a title and a text give the same name. */
  lemma TitleRegardlessOfOrder(title: string, text: string, url: string)
    ensures var t := Attribute("title", title);
      var x := Attribute("text", text);
      var u := Attribute("xmlUrl", url);
      NameOf([x, t, u]) == NameOf([t, x, u]) == NameOf([u, t, x]) == Some(title)
  {
    var t := Attribute("title", title);
    var x := Attribute("text", text);
    var u := Attribute("xmlUrl", url);
    NameOfSpec([x, t, u]);
    assert [x, t, u][1] == t;
    NameOfSpec([t, x, u]);
    assert [t, x, u][0] == t;
    NameOfSpec([u, t, x]);
    assert [u, t, x][1] == t;
  }

  /**
   * The loop over one outline's attributes: `xmlUrl` and `title` overwrite,
   * `text` only fills a name that is still missing; other keys are ignored.
   */
  method ScanAttributes(attrs: seq<Attribute>) returns (xmlUrl: Option<string>, name: Option<string>)
    ensures xmlUrl == LastValue(attrs, "xmlUrl")
    ensures name == NameOf(attrs)
  {
    xmlUrl, name := None, None;
    for i := 0 to |attrs|
      invariant xmlUrl == LastValue(attrs[..i], "xmlUrl")
      invariant name == NameOf(attrs[..i])
    {
      assert attrs[..i + 1][..i] == attrs[..i];
      var attr := attrs[i];
      if attr.key == "xmlUrl" {
        xmlUrl := Some(attr.value);
      } else if attr.key == "title" {
        name := Some(attr.value);
      } else if attr.key == "text" && name.None? {
        name := Some(attr.value);
      }
    }
    assert attrs[..|attrs|] == attrs;
  }

  // ---------------------------------------------------------------- events

  predicate IsOutline(ev: XmlEvent)
  {
    (ev.Start? || ev.Empty?) && ev.name == "outline"
  }

  /** The feed an event contributes: an outline with an `xmlUrl`, named by `NameOf` or "Unnamed Feed". */
  function FeedOf(ev: XmlEvent): (r: Option<OpmlFeed>)
    ensures r.Some? <==> IsOutline(ev) && exists i :: 0 <= i < |ev.attributes| && ev.attributes[i].key == "xmlUrl"
    ensures r.Some? && NameOf(ev.attributes).None? ==> r.value.name == UNNAMED_FEED
  {
    if IsOutline(ev) then
      LastValueSpec(ev.attributes, "xmlUrl");
      match LastValue(ev.attributes, "xmlUrl")
      case Some(url) => Some(OpmlFeed(url, NameOf(ev.attributes).UnwrapOr(UNNAMED_FEED)))
      case None => None
    else None
  }

  /** The feeds of a run of events, in document order. */
  function FeedsOf(events: seq<XmlEvent>): seq<OpmlFeed>
  {
    if |events| == 0 then []
    else
      var last := events[|events| - 1];
      FeedsOf(events[..|events| - 1]) + (if FeedOf(last).Some? then [FeedOf(last).value] else [])
  }

  /** Document order: the feeds of two runs are those of the first, then those of the second. */
  lemma {:induction false} FeedsOfAppend(a: seq<XmlEvent>, b: seq<XmlEvent>)
    ensures FeedsOf(a + b) == FeedsOf(a) + FeedsOf(b)
    decreases |b|
  {
    if |b| == 0 {
      assert a + b == a;
    } else {
      var init := b[..|b| - 1];
      FeedsOfAppend(a, init);
      assert (a + b)[..|a + b| - 1] == a + init;
    }
  }

  /** Every feed comes from an outline with an `xmlUrl`, and every such outline gives one. */
  lemma {:induction false} FeedsOfSpec(events: seq<XmlEvent>)
    ensures forall k :: 0 <= k < |FeedsOf(events)| ==> exists i :: 0 <= i < |events| && FeedOf(events[i]) == Some(FeedsOf(events)[k])
    ensures (forall i :: 0 <= i < |events| ==> FeedOf(events[i]).None?) <==> FeedsOf(events) == []
  {
    if |events| > 0 {
      var init := events[..|events| - 1];
      FeedsOfSpec(init);
      assert forall i :: 0 <= i < |init| ==> init[i] == events[i];
      var fs := FeedsOf(events);
      if fs == [] {
        assert FeedsOf(init) == [] && FeedOf(events[|events| - 1]).None?;
      }
      if forall i :: 0 <= i < |events| ==> FeedOf(events[i]).None? {
        assert FeedOf(events[|events| - 1]).None?;
        assert FeedsOf(init) == [];
      }
      forall k | 0 <= k < |FeedsOf(events)|
        ensures exists i :: 0 <= i < |events| && FeedOf(events[i]) == Some(FeedsOf(events)[k])
      {
        if k < |FeedsOf(init)| {
          var i :| 0 <= i < |init| && FeedOf(init[i]) == Some(FeedsOf(init)[k]);
          assert FeedOf(events[i]) == Some(fs[k]);
        } else {
          assert FeedOf(events[|events| - 1]) == Some(FeedsOf(events)[k]);
        }
      }
    } else {
      assert FeedsOf(events) == [];
    }
  }

  /** Where the reader stops: the first end of file or error, or the end of the stream. */
  function Stop(events: seq<XmlEvent>): (n: nat)
    ensures n <= |events|
    ensures forall j :: 0 <= j < n ==> !events[j].Eof? && !events[j].Malformed?
    ensures n < |events| ==> events[n].Eof? || events[n].Malformed?
  {
    if |events| == 0 || events[0].Eof? || events[0].Malformed? then 0
    else 1 + Stop(events[1..])
  }

  /**
   * `parse_opml`: reads events until the end of the document and collects
   * the feeds; a reader error ends the import with an error instead.
   * Running out of events counts as the end of the document.
   */
  method ParseOpml(events: seq<XmlEvent>) returns (r: Result<seq<OpmlFeed>, string>)
    ensures r.Err? <==> Stop(events) < |events| && events[Stop(events)].Malformed?
    ensures r.Err? ==> r.error == PARSE_ERROR_PREFIX + events[Stop(events)].message
    ensures r.Ok? ==> r.value == FeedsOf(events[..Stop(events)])
  {
    var feeds: seq<OpmlFeed> := [];
    var i := 0;
    while i < |events|
      invariant i <= Stop(events)
      invariant feeds == FeedsOf(events[..i])
      decreases |events| - i
    {
      assert events[..i + 1][..i] == events[..i];
      match events[i] {
        case Eof =>
          return Ok(feeds);
        case Malformed(message) =>
          return Err(PARSE_ERROR_PREFIX + message);
        case _ =>
          if IsOutline(events[i]) {
            var xmlUrl, name := ScanAttributes(events[i].attributes);
            if xmlUrl.Some? {
              feeds := feeds + [OpmlFeed(xmlUrl.value, name.UnwrapOr(UNNAMED_FEED))];
            }
          }
      }
      i := i + 1;
    }
    r := Ok(feeds);
  }

  /** An outline with a title, a text, an `xmlUrl` and a type, in that order. */
  function TitledOutline(text: string, title: string, url: string): XmlEvent
  {
    Empty("outline", [Attribute("text", text), Attribute("title", title), Attribute("xmlUrl", url), Attribute("type", "rss")])
  }

  /** An outline with a text, an `xmlUrl` and a type, in that order. */
  function TextOutline(text: string, url: string): XmlEvent
  {
    Empty("outline", [Attribute("text", text), Attribute("xmlUrl", url), Attribute("type", "rss")])
  }

  lemma TitledOutlineFeed(text: string, title: string, url: string)
    ensures FeedOf(TitledOutline(text, title, url)) == Some(OpmlFeed(url, title))
  {
    var a := TitledOutline(text, title, url).attributes;
    LastValueSpec(a, "xmlUrl");
    NameOfSpec(a);
    assert a[2].key == "xmlUrl" && a[3].key != "xmlUrl" && a[1].key == "title";
  }

  lemma TextOutlineFeed(text: string, url: string)
    ensures FeedOf(TextOutline(text, url)) == Some(OpmlFeed(url, text))
  {
    var b := TextOutline(text, url).attributes;
    LastValueSpec(b, "xmlUrl");
    NameOfSpec(b);
    assert b[1].key == "xmlUrl" && b[2].key != "xmlUrl" && b[0].key == "text";
  }

  /** A category: an outline with a text and no `xmlUrl`. */
  lemma CategoryOutline(text: string)
    ensures FeedOf(Start("outline", [Attribute("text", text)])).None?
  {
    LastValueSpec([Attribute("text", text)], "xmlUrl");
  }

  /** One more event adds its feed, if any, at the end. */
  lemma FeedsOfSnoc(events: seq<XmlEvent>, ev: XmlEvent)
    ensures FeedsOf(events + [ev]) == FeedsOf(events) + (if FeedOf(ev).Some? then [FeedOf(ev).value] else [])
  {
    assert (events + [ev])[..|events|] == events;
  }

  /**
   * The shape of the first document of the module's tests: a category
   * holding a titled feed and an untitled one, then a direct feed, gives
   * three feeds in document order, named by title, else by text; the
   * category itself gives none.
   */
  lemma CategoryDocument(category: string, text1: string, title1: string, url1: string, text2: string, url2: string, text3: string, url3: string)
    ensures var events := [
        Start("opml", [Attribute("version", "2.0")]),
        Start("outline", [Attribute("text", category)]),
        TitledOutline(text1, title1, url1),
        TextOutline(text2, url2),
        Other,
        TextOutline(text3, url3),
        Other,
        Eof];
      FeedsOf(events[..Stop(events)]) == [OpmlFeed(url1, title1), OpmlFeed(url2, text2), OpmlFeed(url3, text3)]
  {
    var e0 := Start("opml", [Attribute("version", "2.0")]);
    var e1 := Start("outline", [Attribute("text", category)]);
    var e2 := TitledOutline(text1, title1, url1);
    var e3 := TextOutline(text2, url2);
    var e5 := TextOutline(text3, url3);
    var events := [e0, e1, e2, e3, Other, e5, Other, Eof];
    assert forall j :: 0 <= j < 7 ==> !events[j].Eof? && !events[j].Malformed?;
    assert events[7].Eof?;
    assert Stop(events) == 7;
    assert events[..7] == [e0, e1, e2, e3, Other, e5, Other];
    CategoryOutline(category);
    TitledOutlineFeed(text1, title1, url1);
    TextOutlineFeed(text2, url2);
    TextOutlineFeed(text3, url3);
    DocumentFeeds(e0, e1, e2, e3, Other, e5, Other);
  }

  /** Seven events of which the third, fourth and sixth give feeds. */
  lemma DocumentFeeds(e0: XmlEvent, e1: XmlEvent, e2: XmlEvent, e3: XmlEvent, e4: XmlEvent, e5: XmlEvent, e6: XmlEvent)
    requires FeedOf(e0).None? && FeedOf(e1).None? && FeedOf(e4).None? && FeedOf(e6).None?
    requires FeedOf(e2).Some? && FeedOf(e3).Some? && FeedOf(e5).Some?
    ensures FeedsOf([e0, e1, e2, e3, e4, e5, e6]) == [FeedOf(e2).value, FeedOf(e3).value, FeedOf(e5).value]
  {
    assert FeedsOf([e0, e1]) == [] by {
      FeedsOfSnoc([], e0);
      FeedsOfSnoc([e0], e1);
      assert [] + [e0] == [e0] && [e0] + [e1] == [e0, e1];
    }
    assert FeedsOf([e0, e1, e2, e3]) == [FeedOf(e2).value, FeedOf(e3).value] by {
      FeedsOfSnoc([e0, e1], e2);
      FeedsOfSnoc([e0, e1, e2], e3);
      assert [e0, e1] + [e2] == [e0, e1, e2] && [e0, e1, e2] + [e3] == [e0, e1, e2, e3];
    }
    assert FeedsOf([e0, e1, e2, e3, e4, e5]) == [FeedOf(e2).value, FeedOf(e3).value, FeedOf(e5).value] by {
      FeedsOfSnoc([e0, e1, e2, e3], e4);
      FeedsOfSnoc([e0, e1, e2, e3, e4], e5);
      assert [e0, e1, e2, e3] + [e4] == [e0, e1, e2, e3, e4];
      assert [e0, e1, e2, e3, e4] + [e5] == [e0, e1, e2, e3, e4, e5];
    }
    FeedsOfSnoc([e0, e1, e2, e3, e4, e5], e6);
    assert [e0, e1, e2, e3, e4, e5] + [e6] == [e0, e1, e2, e3, e4, e5, e6];
  }

  /** The second test document: a lone category gives no feed. */
  lemma EmptyCategoryExample()
    ensures var events := [Start("opml", []), Empty("outline", [Attribute("text", "Empty Category")]), Eof];
      FeedsOf(events[..Stop(events)]) == []
  {
    var f0 := Start("opml", []);
    var f1 := Empty("outline", [Attribute("text", "Empty Category")]);
    var empty := [f0, f1, Eof];
    assert empty[1..] == [f1, Eof] && empty[1..][1..] == [Eof];
    assert Stop([Eof]) == 0;
    assert Stop([f1, Eof]) == 1;
    assert Stop(empty) == 2;
    assert empty[..2] == [f0] + [f1] && [f0] == [] + [f0];
    LastValueSpec(f1.attributes, "xmlUrl");
    FeedsOfSnoc([], f0);
    FeedsOfSnoc([f0], f1);
  }
}
