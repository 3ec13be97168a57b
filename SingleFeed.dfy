/**
  The single-feed syndication adapters. The Huawei adapter and the AI cloud-native
  compute adapter are the same code apart from the label they use as default
  author and as source, so both are one adapter parameterised by that label.

  The feed address is the environment variable the adapter reads (`None` when it
  is not set); the one HTTP request is request number 0 of the `Net` oracle; the
  current time, used when a publication date does not parse, is the ISO string
  `now`.
*/
module SingleFeed {
  import opened Wrappers
  import opened Json
  import opened Text
  import opened Markup
  import opened Retry
  import opened Unified
  import Carrier

  type IsoDate = Carrier.IsoDate
  type Window = Carrier.Window

  const HuaweiLabel: string := "华为"
  const AiLabel: string := "AI云原生智能算力架构"

  /** The record pushed for a kept item. */
  datatype FeedItem = FeedItem(
    id: string, url: string, title: string, contentHtml: string, datePublished: string,
    author: string, source: string)

  /** What `extractCDATA` reads from one item block, before any fallback. */
  datatype Fields = Fields(
    title: string, link: string, pubDate: string, description: string, guid: string,
    contentEncoded: string, author: string, dcCreator: string, creator: string)

  function FieldsOf(body: string): Fields {
    Fields(ExtractCData(body, "title"), ExtractCData(body, "link"), ExtractCData(body, "pubDate"),
           ExtractCData(body, "description"), ExtractCData(body, "guid"),
           ExtractCData(body, "content:encoded"), ExtractCData(body, "author"),
           ExtractCData(body, "dc:creator"), ExtractCData(body, "creator"))
  }

  /** `a || b` on strings. */
  function OrElse(a: string, b: string): (r: string)
    ensures r == a || r == b
    ensures r == "" <==> a == "" && b == ""
  {
    if a != "" then a else b
  }

  /** `isoDate`: empty without a `pubDate`, the parsed date, or the current time
      when parsing throws. */
  function IsoDateOf(pubDate: string, toIso: IsoDate, now: string): string {
    if pubDate == "" then "" else toIso(pubDate).GetOr(now)
  }

  /** The record for one item, or `None` when its date is empty or out of the window. */
  function EntryFrom(f: Fields, sourceLabel: string, toIso: IsoDate, now: string, window: Window): Option<FeedItem> {
    var link := Trim(f.link);
    var isoDate := IsoDateOf(Trim(f.pubDate), toIso, now);
    if isoDate != "" && window(isoDate) then
      Some(FeedItem(OrElse(f.guid, link), link, Trim(f.title), OrElse(f.contentEncoded, f.description), isoDate,
                    OrElse(f.author, OrElse(f.dcCreator, OrElse(f.creator, sourceLabel))), sourceLabel))
    else None
  }

  /** The fallbacks of one item: the id is the guid, else the link; the body is
      `content:encoded`, else the description; the author is the first non-empty
      of `author`, `dc:creator` and `creator`, else the label; the source is the
      label; a kept item has a non-empty date inside the window, which is the
      parsed `pubDate` or, when that does not parse, the current time. */
  lemma EntryLaws(f: Fields, sourceLabel: string, toIso: IsoDate, now: string, window: Window)
    ensures var e := EntryFrom(f, sourceLabel, toIso, now, window);
      e.Some? ==>
        && e.value.url == Trim(f.link) && e.value.title == Trim(f.title)
        && (f.guid != "" ==> e.value.id == f.guid) && (f.guid == "" ==> e.value.id == e.value.url)
        && (f.contentEncoded != "" ==> e.value.contentHtml == f.contentEncoded)
        && (f.contentEncoded == "" ==> e.value.contentHtml == f.description)
        && (e.value.author == f.author || e.value.author == f.dcCreator ||
            e.value.author == f.creator || e.value.author == sourceLabel)
        && (f.author == "" && f.dcCreator == "" && f.creator == "" ==> e.value.author == sourceLabel)
        && (f.author != "" ==> e.value.author == f.author)
        && e.value.source == sourceLabel
        && e.value.datePublished != "" && window(e.value.datePublished)
        && (toIso(Trim(f.pubDate)).Some? ==> e.value.datePublished == toIso(Trim(f.pubDate)).value)
        && (toIso(Trim(f.pubDate)).None? ==> e.value.datePublished == now)
    ensures Trim(f.pubDate) == "" ==> EntryFrom(f, sourceLabel, toIso, now, window).None?
    ensures var d := IsoDateOf(Trim(f.pubDate), toIso, now);
      EntryFrom(f, sourceLabel, toIso, now, window).Some? <==> d != "" && window(d)
  {
  }

  /** Elements missing from an item block take their fallbacks: no `guid` makes the
      link the id, no `content:encoded` makes the description the body, no author
      element of any kind makes the label the author, and no `pubDate` drops the
      item. */
  lemma {:induction false} MissingElements(body: string, sourceLabel: string, toIso: IsoDate, now: string, window: Window)
    ensures var e := EntryFrom(FieldsOf(body), sourceLabel, toIso, now, window);
      e.Some? && !Contains(body, OpenTag("guid")) ==> e.value.id == e.value.url
    ensures var e := EntryFrom(FieldsOf(body), sourceLabel, toIso, now, window);
      e.Some? && !Contains(body, OpenTag("content:encoded")) ==> e.value.contentHtml == ExtractCData(body, "description")
    ensures var e := EntryFrom(FieldsOf(body), sourceLabel, toIso, now, window);
      (e.Some? && !Contains(body, OpenTag("author")) && !Contains(body, OpenTag("dc:creator")) &&
       !Contains(body, OpenTag("creator"))) ==> e.value.author == sourceLabel
    ensures !Contains(body, OpenTag("pubDate")) ==> EntryFrom(FieldsOf(body), sourceLabel, toIso, now, window).None?
  {
    var f := FieldsOf(body);
    EntryLaws(f, sourceLabel, toIso, now, window);
    if !Contains(body, OpenTag("guid")) {
      ExtractAbsent(body, "guid");
    }
    if !Contains(body, OpenTag("content:encoded")) {
      ExtractAbsent(body, "content:encoded");
    }
    if !Contains(body, OpenTag("author")) && !Contains(body, OpenTag("dc:creator")) && !Contains(body, OpenTag("creator")) {
      ExtractAbsent(body, "author");
      ExtractAbsent(body, "dc:creator");
      ExtractAbsent(body, "creator");
    }
    if !Contains(body, OpenTag("pubDate")) {
      ExtractAbsent(body, "pubDate");
      assert Trim("") == "";
    }
  }

  /** The two kinds of adapter part ways on a `pubDate` that does not parse: the
      carrier adapter keeps the date `null` and drops the item, this adapter
      substitutes the current time and keeps the item when that is in the window. */
  lemma UnparsableDate(f: Fields, sourceLabel: string, toIso: IsoDate, now: string, window: Window, feed: Carrier.Feed)
    requires Trim(f.pubDate) != "" && toIso(Trim(f.pubDate)).None?
    requires now != "" && window(now)
    ensures EntryFrom(f, sourceLabel, toIso, now, window).Some?
    ensures EntryFrom(f, sourceLabel, toIso, now, window).value.datePublished == now
    ensures Carrier.ValidItems(feed, [Carrier.RssItem(Trim(f.title), Trim(f.link), Trim(f.description), toIso(Trim(f.pubDate)))], window) == []
  {
  }

  function EntryOf(body: string, sourceLabel: string, toIso: IsoDate, now: string, window: Window): Option<FeedItem> {
    EntryFrom(FieldsOf(body), sourceLabel, toIso, now, window)
  }

  /** The records of the items that were kept, in order. */
  function Kept(outcomes: seq<Option<FeedItem>>): (r: seq<FeedItem>)
    ensures |r| <= |outcomes|
  {
    if outcomes == [] then []
    else
      var last := outcomes[|outcomes| - 1];
      Kept(outcomes[..|outcomes| - 1]) + (if last.Some? then [last.value] else [])
  }

  lemma KeptSnoc(outcomes: seq<Option<FeedItem>>, k: nat)
    requires k < |outcomes|
    ensures Kept(outcomes[..k + 1]) == Kept(outcomes[..k]) + (if outcomes[k].Some? then [outcomes[k].value] else [])
  {
    assert outcomes[..k + 1][..k] == outcomes[..k];
  }

  /** What the item loop decides for each block, in document order. */
  function Outcomes(bodies: seq<string>, sourceLabel: string, toIso: IsoDate, now: string, window: Window): (r: seq<Option<FeedItem>>)
    ensures |r| == |bodies|
    ensures forall k :: 0 <= k < |bodies| ==> r[k] == EntryOf(bodies[k], sourceLabel, toIso, now, window)
  {
    seq(|bodies|, k requires 0 <= k < |bodies| => EntryOf(bodies[k], sourceLabel, toIso, now, window))
  }

  /** The records pushed for a run of item blocks. */
  function Entries(bodies: seq<string>, sourceLabel: string, toIso: IsoDate, now: string, window: Window): seq<FeedItem> {
    Kept(Outcomes(bodies, sourceLabel, toIso, now, window))
  }

  /** `fetch`: no request without a feed address; no items after a failed request
      or a response that is not OK; otherwise the kept items of the document. */
  function Fetch(net: Net, url: Option<string>, sourceLabel: string, toIso: IsoDate, now: string, window: Window): Run<seq<FeedItem>> {
    if url.None? || url.value == "" then Run([], 0, [])
    else
      match net(0, url.value)
      case Threw(_) => Run([], 1, [])
      case Responded(ok, _, _, body) =>
        if !ok then Run([], 1, []) else Run(Entries(ItemBlocks(body), sourceLabel, toIso, now, window), 1, [])
  }

  /** The `for (const match of itemMatches)` loop. */
  method CollectEntries(bodies: seq<string>, sourceLabel: string, toIso: IsoDate, now: string, window: Window)
    returns (items: seq<FeedItem>)
    ensures items == Entries(bodies, sourceLabel, toIso, now, window)
  {
    ghost var outcomes := Outcomes(bodies, sourceLabel, toIso, now, window);
    items := [];
    for k := 0 to |bodies|
      invariant items == Kept(outcomes[..k])
    {
      KeptSnoc(outcomes, k);
      var entry := EntryOf(bodies[k], sourceLabel, toIso, now, window);
      assert entry == outcomes[k];
      if entry.Some? {
        items := items + [entry.value];
      }
    }
    assert outcomes[..|bodies|] == outcomes;
  }

  method FetchFeed(net: Net, url: Option<string>, sourceLabel: string, toIso: IsoDate, now: string, window: Window)
    returns (items: seq<FeedItem>, requests: nat)
    ensures Run(items, requests, []) == Fetch(net, url, sourceLabel, toIso, now, window)
  {
    if url.None? || url.value == "" {
      return [], 0;
    }
    var response := net(0, url.value);
    requests := 1;
    if response.Threw? || !response.ok {
      return [], requests;
    }
    items := CollectEntries(ItemBlocks(response.body), sourceLabel, toIso, now, window);
  }

  /** Every kept record is one of the outcomes. */
  lemma {:induction false} KeptFromOutcomes(outcomes: seq<Option<FeedItem>>)
    ensures forall e :: e in Kept(outcomes) ==> exists k :: 0 <= k < |outcomes| && outcomes[k] == Some(e)
  {
    if outcomes != [] {
      var init := outcomes[..|outcomes| - 1];
      KeptFromOutcomes(init);
      forall k | 0 <= k < |init|
        ensures init[k] == outcomes[k]
      {
      }
    }
  }

  /** One block gives its record exactly when it was kept. */
  lemma KeptOne(o: Option<FeedItem>)
    ensures Kept([o]) == if o.Some? then [o.value] else []
  {
    assert [o][..0] == [];
  }

  /** Document order: the records kept from two consecutive runs of blocks are
      those of the first run followed by those of the second. */
  lemma {:induction false} KeptAppend(a: seq<Option<FeedItem>>, b: seq<Option<FeedItem>>)
    ensures Kept(a + b) == Kept(a) + Kept(b)
    decreases |b|
  {
    if b == [] {
      assert a + b == a;
    } else {
      var init := b[..|b| - 1];
      assert (a + b)[..|a + b| - 1] == a + init;
      assert (a + b)[|a + b| - 1] == b[|b| - 1];
      KeptAppend(a, init);
    }
  }

  /** Every pushed record is the record of one of the blocks. */
  lemma EntriesFromBlocks(bodies: seq<string>, sourceLabel: string, toIso: IsoDate, now: string, window: Window)
    ensures |Entries(bodies, sourceLabel, toIso, now, window)| <= |bodies|
    ensures forall e :: e in Entries(bodies, sourceLabel, toIso, now, window) ==>
              exists k :: 0 <= k < |bodies| && EntryOf(bodies[k], sourceLabel, toIso, now, window) == Some(e)
  {
    KeptFromOutcomes(Outcomes(bodies, sourceLabel, toIso, now, window));
  }

  /** The adapter's output: nothing and no request without an address; otherwise
      exactly one request, nothing when it throws or is not OK, else the records of
      the document's items; every record is in the window and labelled with the
      source. */
  lemma FetchLaws(net: Net, url: Option<string>, sourceLabel: string, toIso: IsoDate, now: string, window: Window)
    ensures var run := Fetch(net, url, sourceLabel, toIso, now, window);
      && run.requests <= 1
      && (url.None? || url.value == "" ==> run.requests == 0 && run.result == [])
      && (url.Some? && url.value != "" ==> run.requests == 1)
      && (url.Some? && url.value != "" && (net(0, url.value).Threw? || !net(0, url.value).ok) ==> run.result == [])
      && (url.Some? && url.value != "" && net(0, url.value).Responded? && net(0, url.value).ok ==>
            run.result == Entries(ItemBlocks(net(0, url.value).body), sourceLabel, toIso, now, window))
      && (forall e :: e in run.result ==> e.source == sourceLabel && e.datePublished != "" && window(e.datePublished))
  {
    var run := Fetch(net, url, sourceLabel, toIso, now, window);
    if url.Some? && url.value != "" && net(0, url.value).Responded? && net(0, url.value).ok {
      var bodies := ItemBlocks(net(0, url.value).body);
      EntriesFromBlocks(bodies, sourceLabel, toIso, now, window);
      forall e | e in run.result
        ensures e.source == sourceLabel && e.datePublished != "" && window(e.datePublished)
      {
        var k :| 0 <= k < |bodies| && EntryOf(bodies[k], sourceLabel, toIso, now, window) == Some(e);
        EntryLaws(FieldsOf(bodies[k]), sourceLabel, toIso, now, window);
      }
    }
  }

  // ----------------------------------------------------------------- transform

  /** A pushed record as a JSON value. */
  function ItemValue(e: FeedItem): JsValue {
    JObj(map[
      "id" := JStr(e.id), "url" := JStr(e.url), "title" := JStr(e.title),
      "content_html" := JStr(e.contentHtml), "date_published" := JStr(e.datePublished),
      "authors" := JArr([JObj(map["name" := JStr(e.author)])]), "source" := JStr(e.source)])
  }

  /** The envelope `fetch` returns, reduced to its `items`. */
  function Envelope(items: seq<FeedItem>): JsValue {
    JObj(map["items" := JArr(seq(|items|, k requires 0 <= k < |items| => ItemValue(items[k])))])
  }

  /** `transform(rawData, sourceType)`: one unified record per stored item when
      `rawData.items` is an array, none otherwise. */
  function Transform(rawData: JsValue, sourceType: JsValue, sourceLabel: string, strip: StripHtml): (r: Result<seq<UnifiedItem>, JsError>)
    ensures !Truthy(rawData) || !OptProp(rawData, "items").JArr? ==> r == Success([])
    ensures r.Success? && OptProp(rawData, "items").JArr? ==> |r.value| == |OptProp(rawData, "items").elems|
  {
    if Truthy(rawData) && OptProp(rawData, "items").JArr? then
      UnifyAll(OptProp(rawData, "items").elems, sourceType, sourceLabel, strip)
    else Success([])
  }

  /** The unified record of a record this adapter stored. */
  function UnifiedOf(e: FeedItem, sourceType: JsValue, strip: StripHtml): UnifiedItem {
    UnifiedItem(JStr(e.id), sourceType, JStr(e.url), JStr(e.title), strip(JStr(e.contentHtml)),
                JStr(e.datePublished), JStr(e.author), JStr(e.source), JStr(e.contentHtml))
  }

  lemma UnifyStored(e: FeedItem, sourceType: JsValue, sourceLabel: string, strip: StripHtml)
    requires e.source == sourceLabel
    ensures UnifyItem(ItemValue(e), sourceType, sourceLabel, strip) == Success(UnifiedOf(e, sourceType, strip))
  {
    var v := ItemValue(e);
    assert !IsNullish(v);
    OneAuthorLabel(JStr(e.author));
    assert OptProp(v, "id") == JStr(e.id) && OptProp(v, "url") == JStr(e.url) && OptProp(v, "title") == JStr(e.title);
    assert OptProp(v, "date_published") == JStr(e.datePublished);
    assert OptProp(v, "authors") == JArr([JObj(map["name" := JStr(e.author)])]);
    assert OptProp(v, "content_html") == JStr(e.contentHtml);
    assert OptProp(v, "source") == JStr(e.source);
  }

  /** `transform` of what `fetch` stored: the same records in the same order, with
      the author as the authors label and the HTML body both stripped and kept. */
  lemma TransformOfFetched(items: seq<FeedItem>, sourceType: JsValue, sourceLabel: string, strip: StripHtml)
    requires forall e :: e in items ==> e.source == sourceLabel
    ensures Transform(Envelope(items), sourceType, sourceLabel, strip) ==
            Success(seq(|items|, k requires 0 <= k < |items| => UnifiedOf(items[k], sourceType, strip)))
  {
    var values := seq(|items|, k requires 0 <= k < |items| => ItemValue(items[k]));
    assert OptProp(Envelope(items), "items") == JArr(values);
    var expected := seq(|items|, k requires 0 <= k < |items| => UnifiedOf(items[k], sourceType, strip));
    forall k | 0 <= k < |items|
      ensures UnifyItem(values[k], sourceType, sourceLabel, strip) == Success(expected[k])
    {
      UnifyStored(items[k], sourceType, sourceLabel, strip);
    }
    UnifyAllExact(values, expected, sourceType, sourceLabel, strip);
  }
}
