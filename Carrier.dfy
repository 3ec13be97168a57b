/**
  The carrier-network adapter: its five configured feeds, `parseRSS` with its
  `extractTag`, the per-feed loop of `fetch` (mirror fallback, parsing, date
  filter, mapping to feed records) and `transform`.

  Date parsing (`new Date(s).toISOString()`) is an oracle that answers `None`
  where `toISOString` throws; the recency test `isDateWithinLastDays(date, days)`
  is an oracle over the ISO date, the number of days being fixed for a run.
*/
module Carrier {
  import opened Wrappers
  import opened Json
  import opened Text
  import opened Markup
  import opened Retry

  type IsoDate = string -> Option<string>
  type Window = string -> bool

  datatype Feed = Feed(name: string, url: string, category: string)

  /** The configured feeds, in the order they are fetched. The three Google News
      searches are written as the Google News RSS prefix followed by the query. */
  const Feeds: seq<Feed> := [
    Feed("ArXiv (cs.NI)", "http://export.arxiv.org/rss/cs.NI", "Academic"),
    Feed("Google News - Standards (TM Forum/ETSI/3GPP)",
         GoogleNewsRss + "search?q=site:tmforum.org+OR+site:etsi.org+OR+site:3gpp.org+%22AI%22+OR+%22Autonomous+Network%22+when:7d&hl=en-US&gl=US&ceid=US:en",
         "Standards"),
    Feed("Google News - Vendors (Huawei/Ericsson/Nokia)",
         GoogleNewsRss + "search?q=site:nokia.com+OR+site:ericsson.com+OR+site:huawei.com+%22Network+AI%22+OR+%226G%22+when:7d&hl=en-US&gl=US&ceid=US:en",
         "Vendors"),
    Feed("Google News - Media (SDxCentral)",
         GoogleNewsRss + "search?q=site:sdxcentral.com+%22AI%22+when:7d&hl=en-US&gl=US&ceid=US:en",
         "Media"),
    Feed("邮电设计技术 (WeChat)", "https://rsshub.app/wechat/gzh/ydsjjs", "Academic")
  ]

  /** Exactly the three Google News feeds get a mirror candidate. */
  lemma FeedsCandidates()
    ensures forall k :: 0 <= k < |Feeds| ==> (|CandidateUrls(Feeds[k].url)| == 2 <==> 1 <= k <= 3)
  {
    forall k | 1 <= k <= 3
      ensures StartsWith(Feeds[k].url, GoogleNewsRss)
    {
      var q := Feeds[k].url[|GoogleNewsRss|..];
      assert Feeds[k].url == GoogleNewsRss + q;
      assert Feeds[k].url[..|GoogleNewsRss|] == GoogleNewsRss;
    }
    assert GoogleNewsRss[4] == 's';
    assert Feeds[0].url[4] == ':' && Feeds[4].url[8] == 'r' && GoogleNewsRss[8] == 'n';
    assert !StartsWith(Feeds[0].url, GoogleNewsRss) by {
      if |GoogleNewsRss| <= |Feeds[0].url| {
        assert Feeds[0].url[..|GoogleNewsRss|][4] == ':';
      }
    }
    assert !StartsWith(Feeds[4].url, GoogleNewsRss) by {
      if |GoogleNewsRss| <= |Feeds[4].url| {
        assert Feeds[4].url[..|GoogleNewsRss|][8] == 'r';
      }
    }
  }

  // ------------------------------------------------------------------ parseRSS

  /** What `parseRSS` keeps of an item; `date` is `null` (`None`) when the item has
      no `pubDate` or when it does not parse. */
  datatype RssItem = RssItem(title: string, link: string, description: string, date: Option<string>)

  /** The fields of one item block, or the TypeError an empty CDATA section makes
      `extractTag` throw; `None` when the title or the link is empty. */
  function ParseItem(body: string, toIso: IsoDate): Result<Option<RssItem>, JsError> {
    var title :- ExtractTag(body, "title");
    var link :- ExtractTag(body, "link");
    var description :- ExtractTag(body, "description");
    var pubDate :- ExtractTag(body, "pubDate");
    var date := if pubDate == "" then None else toIso(pubDate);
    Success(if title != "" && link != "" then Some(RssItem(title, link, description, date)) else None)
  }

  /** What is done with one item block. */
  type ItemParser = string -> Result<Option<RssItem>, JsError>

  function Parser(toIso: IsoDate): ItemParser {
    (body: string) => ParseItem(body, toIso)
  }

  /** The item blocks in document order; the first block that throws makes the
      whole parse throw. */
  function ParseBlocks(bodies: seq<string>, parse: ItemParser): Result<seq<RssItem>, JsError> {
    if bodies == [] then Success([])
    else
      var item :- parse(bodies[0]);
      var rest :- ParseBlocks(bodies[1..], parse);
      Success((if item.Some? then [item.value] else []) + rest)
  }

  /** `parseRSS(xmlText)`. */
  function ParseRss(xml: string, toIso: IsoDate): Result<seq<RssItem>, JsError> {
    ParseBlocks(ItemBlocks(xml), Parser(toIso))
  }

  /** `items` already pushed, followed by what the blocks still to come give. */
  function Pushed(items: seq<RssItem>, rest: Result<seq<RssItem>, JsError>): Result<seq<RssItem>, JsError> {
    if rest.Failure? then rest else Success(items + rest.value)
  }

  /** The `while ((match = itemRegex.exec(xmlText)) !== null)` loop. */
  method ParseRssLoop(xml: string, toIso: IsoDate) returns (r: Result<seq<RssItem>, JsError>)
    ensures r == ParseRss(xml, toIso)
  {
    r := ParseWith(xml, Parser(toIso));
  }

  /** The loop itself, for any treatment of a block. */
  method ParseWith(xml: string, parse: ItemParser) returns (r: Result<seq<RssItem>, JsError>)
    ensures r == ParseBlocks(ItemBlocks(xml), parse)
  {
    var items: seq<RssItem> := [];
    var pos := 0;
    ghost var whole := ParseBlocks(ItemBlocks(xml), parse);
    PushedNil(whole);
    while true
      invariant pos <= |xml|
      invariant whole == Pushed(items, ParseBlocks(ItemBlocksFrom(xml, pos), parse))
      decreases |xml| - pos
    {
      var m := ItemMatch(xml, pos);
      if m.None? {
        ItemBlocksNext(xml, pos);
        assert items + [] == items;
        return Success(items);
      }
      var (start, end) := m.value;
      var p := parse(xml[start..end]);
      ParseTurn(xml, pos, items, parse, whole, start, end, p);
      if p.Failure? {
        return Failure(p.error);
      }
      items := items + if p.value.Some? then [p.value.value] else [];
      pos := end + |ItemClose|;
    }
  }

  /** One turn of the loop on the document: the block found at `pos` is parsed
      and the search resumes after its closing tag. */
  lemma ParseTurn(xml: string, pos: nat, items: seq<RssItem>, parse: ItemParser,
                  whole: Result<seq<RssItem>, JsError>, start: nat, end: nat,
                  p: Result<Option<RssItem>, JsError>)
    requires pos <= |xml| && ItemMatch(xml, pos) == Some((start, end))
    requires p == parse(xml[start..end])
    requires whole == Pushed(items, ParseBlocks(ItemBlocksFrom(xml, pos), parse))
    ensures p.Failure? ==> whole == Failure(p.error)
    ensures p.Success? ==>
      whole == Pushed(items + (if p.value.Some? then [p.value.value] else []),
                      ParseBlocks(ItemBlocksFrom(xml, end + |ItemClose|), parse))
  {
    ItemBlocksNext(xml, pos);
    var rest := ItemBlocksFrom(xml, end + |ItemClose|);
    assert ItemBlocksFrom(xml, pos) == [xml[start..end]] + rest;
    ParseStep(xml[start..end], rest, items, parse, whole, p);
  }

  /** One turn of the loop: the next block either throws, which is the outcome
      of the whole parse, or its item is pushed. */
  lemma ParseStep(body: string, rest: seq<string>, items: seq<RssItem>, parse: ItemParser,
                  whole: Result<seq<RssItem>, JsError>, p: Result<Option<RssItem>, JsError>)
    requires p == parse(body)
    requires whole == Pushed(items, ParseBlocks([body] + rest, parse))
    ensures p.Failure? ==> whole == Failure(p.error)
    ensures p.Success? ==>
      whole == Pushed(items + (if p.value.Some? then [p.value.value] else []), ParseBlocks(rest, parse))
  {
    ParseBlocksCons(body, rest, parse);
    if p.Success? {
      PushedAppend(items, if p.value.Some? then [p.value.value] else [], ParseBlocks(rest, parse));
    }
  }

  lemma PushedNil(r: Result<seq<RssItem>, JsError>)
    ensures Pushed([], r) == r
  {
    if r.Success? {
      assert [] + r.value == r.value;
    }
  }

  lemma PushedAppend(a: seq<RssItem>, b: seq<RssItem>, r: Result<seq<RssItem>, JsError>)
    ensures Pushed(a, Pushed(b, r)) == Pushed(a + b, r)
  {
    if r.Success? {
      assert a + (b + r.value) == a + b + r.value;
    }
  }

  /** One item block followed by more: what it gives, then what they give. */
  lemma ParseBlocksCons(body: string, rest: seq<string>, parse: ItemParser)
    ensures ParseBlocks([body] + rest, parse) ==
      match parse(body)
      case Failure(e) => Failure(e)
      case Success(item) => Pushed(if item.Some? then [item.value] else [], ParseBlocks(rest, parse))
  {
    assert ([body] + rest)[0] == body;
    assert ([body] + rest)[1..] == rest;
  }

  /** Every item `parseRSS` emits has a non-empty title and link, and a date only
      when it had a `pubDate`; it throws exactly when some block throws. */
  lemma {:induction false} ParseBlocksLaws(bodies: seq<string>, toIso: IsoDate)
    ensures ParseBlocks(bodies, Parser(toIso)).Success? ==>
      forall it :: it in ParseBlocks(bodies, Parser(toIso)).value ==> it.title != "" && it.link != ""
    ensures ParseBlocks(bodies, Parser(toIso)).Success? <==>
      forall k :: 0 <= k < |bodies| ==> ParseItem(bodies[k], toIso).Success?
    ensures ParseBlocks(bodies, Parser(toIso)).Success? ==> |ParseBlocks(bodies, Parser(toIso)).value| <= |bodies|
  {
    if bodies != [] {
      ParseBlocksLaws(bodies[1..], toIso);
      forall k | 1 <= k < |bodies|
        ensures bodies[k] == bodies[1..][k - 1]
      {
      }
    }
  }

  /** `extractTag` throws on an empty CDATA section, so one item with an empty
      CDATA title makes `parseRSS` throw for the whole document. */
  lemma EmptyCDataTitleThrows(bodies: seq<string>, k: nat, toIso: IsoDate)
    requires k < |bodies|
    requires OccursAt(bodies[k], CDataElement("title", ""), 0)
    ensures ParseBlocks(bodies, Parser(toIso)).Failure?
  {
    ExtractOfCData(bodies[k], 0, "title", "");
    assert !Contains("", CDataClose);
    ParseBlocksLaws(bodies, toIso);
  }

  // ------------------------------------------------------------ the feed loop

  /** A record of the carrier feed, as `fetch` builds it. */
  datatype CarrierItem = CarrierItem(
    id: string, url: string, title: string, contentHtml: string, datePublished: string,
    authors: seq<string>, source: string, category: string)

  /** The filter of `fetch`: the item has a date, and it is inside the window. */
  predicate Dated(it: RssItem, window: Window) {
    it.date.Some? && it.date.value != "" && window(it.date.value)
  }

  /** The feed record of a dated item: the link is both id and url, the feed's name
      is author and source. */
  function Record(feed: Feed, it: RssItem): CarrierItem
    requires it.date.Some?
  {
    CarrierItem(it.link, it.link, it.title, it.description, it.date.value, [feed.name], feed.name, feed.category)
  }

  /** `items.filter(date present and recent).map(to a feed record)` for one feed:
      no more records than items, and one for every dated item. */
  function ValidItems(feed: Feed, items: seq<RssItem>, window: Window): (r: seq<CarrierItem>)
    ensures |r| <= |items|
    ensures forall k :: 0 <= k < |items| && Dated(items[k], window) ==> Record(feed, items[k]) in r
  {
    if items == [] then []
    else
      var it := items[0];
      var rest := ValidItems(feed, items[1..], window);
      assert forall k :: 1 <= k < |items| ==> items[k] == items[1..][k - 1];
      if Dated(it, window) then [Record(feed, it)] + rest else rest
  }

  /** One item gives its record exactly when it is dated. */
  lemma ValidItemsOne(feed: Feed, it: RssItem, window: Window)
    ensures ValidItems(feed, [it], window) == if Dated(it, window) then [Record(feed, it)] else []
  {
    assert [it][1..] == [];
  }

  /** The filter keeps the order of the feed: the records of two runs of items are
      those of the first run followed by those of the second. */
  lemma {:induction false} ValidItemsAppend(feed: Feed, a: seq<RssItem>, b: seq<RssItem>, window: Window)
    ensures ValidItems(feed, a + b, window) == ValidItems(feed, a, window) + ValidItems(feed, b, window)
    decreases |a|
  {
    if a == [] {
      assert a + b == b;
    } else {
      assert (a + b)[0] == a[0];
      assert (a + b)[1..] == a[1..] + b;
      ValidItemsAppend(feed, a[1..], b, window);
      var rest := ValidItems(feed, a[1..], window);
      if Dated(a[0], window) {
        assert [Record(feed, a[0])] + (rest + ValidItems(feed, b, window)) ==
               [Record(feed, a[0])] + rest + ValidItems(feed, b, window);
      }
    }
  }

  /** What one feed adds to `allItems`: nothing when no candidate yields a text or
      when parsing throws (the per-feed `catch`). */
  function FeedContribution(feed: Feed, text: Option<string>, toIso: IsoDate, window: Window): seq<CarrierItem> {
    match text
    case None => []
    case Some(t) =>
      match ParseRss(t, toIso)
      case Failure(_) => []
      case Success(items) => ValidItems(feed, items, window)
  }

  /** One feed, its first request numbered `req`: the mirror loop, then parsing
      and filtering what it fetched (the body of the `for` over the feeds). */
  function FeedRun(net: Net, toIso: IsoDate, window: Window, feed: Feed, req: nat): Run<seq<CarrierItem>> {
    var got := FirstText(net, CandidateUrls(feed.url), req);
    Run(FeedContribution(feed, got.result, toIso, window), got.requests, got.sleeps)
  }

  /** The body of the feed loop as the loop sees it: a feed and the number of its
      first request give what it adds, with the requests and back-offs it made. */
  type Feeder = (Feed, nat) -> Run<seq<CarrierItem>>

  function Adapter(net: Net, toIso: IsoDate, window: Window): Feeder {
    (feed: Feed, req: nat) => FeedRun(net, toIso, window, feed, req)
  }

  /** The feeds from the one at `i` on, their first request numbered `req`. */
  function FetchFrom(feeder: Feeder, feeds: seq<Feed>, i: nat, req: nat): Run<seq<CarrierItem>>
    requires i <= |feeds|
    decreases |feeds| - i
  {
    if i == |feeds| then Run([], 0, [])
    else
      var got := feeder(feeds[i], req);
      var rest := FetchFrom(feeder, feeds, i + 1, req + got.requests);
      Run(got.result + rest.result, got.requests + rest.requests, got.sleeps + rest.sleeps)
  }

  /** `CarrierDataSource.fetch`: the items of all feeds, in feed order. */
  function Fetch(net: Net, toIso: IsoDate, window: Window, feeds: seq<Feed>): Run<seq<CarrierItem>> {
    FetchFrom(Adapter(net, toIso, window), feeds, 0, 0)
  }

  /** One turn of the feed loop keeps its invariant. */
  lemma FeedStep(feeder: Feeder, feeds: seq<Feed>, i: nat, items: seq<CarrierItem>, requests: nat, sleeps: seq<nat>,
                 added: seq<CarrierItem>, n: nat, slept: seq<nat>, all: Run<seq<CarrierItem>>)
    requires i < |feeds| && Run(added, n, slept) == feeder(feeds[i], requests)
    requires all ==
             Run(items + FetchFrom(feeder, feeds, i, requests).result,
                 FetchFrom(feeder, feeds, i, requests).requests + requests,
                 sleeps + FetchFrom(feeder, feeds, i, requests).sleeps)
    ensures var rest := FetchFrom(feeder, feeds, i + 1, requests + n);
      all == Run(items + added + rest.result, rest.requests + (requests + n), sleeps + slept + rest.sleeps)
  {
    var rest := FetchFrom(feeder, feeds, i + 1, requests + n);
    assert items + (added + rest.result) == items + added + rest.result;
    assert sleeps + (slept + rest.sleeps) == sleeps + slept + rest.sleeps;
  }

  /** One feed: the mirror loop, then parsing and filtering what it fetched; a
      parse that throws adds nothing. */
  method FetchFeed(net: Net, toIso: IsoDate, window: Window, feed: Feed, req: nat)
    returns (added: seq<CarrierItem>, n: nat, ghost slept: seq<nat>)
    ensures Run(added, n, slept) == Adapter(net, toIso, window)(feed, req)
  {
    var text;
    text, n, slept := FetchFirstText(net, CandidateUrls(feed.url), req);
    added := [];
    if text.Some? {
      var parsed := ParseRssLoop(text.value, toIso);
      if parsed.Success? {
        added := ValidItems(feed, parsed.value, window);
      }
    }
  }

  method FetchFeeds(net: Net, toIso: IsoDate, window: Window, feeds: seq<Feed>)
    returns (items: seq<CarrierItem>, requests: nat, ghost sleeps: seq<nat>)
    ensures Run(items, requests, sleeps) == Fetch(net, toIso, window, feeds)
  {
    items, requests, sleeps := [], 0, [];
    ghost var feeder := Adapter(net, toIso, window);
    ghost var all := FetchFrom(feeder, feeds, 0, 0);
    ghost var rest := all;
    assert [] + all.result == all.result && [] + all.sleeps == all.sleeps;
    var i := 0;
    while i < |feeds|
      invariant i <= |feeds|
      invariant rest == FetchFrom(feeder, feeds, i, requests)
      invariant all == Run(items + rest.result, rest.requests + requests, sleeps + rest.sleeps)
    {
      var added, n, slept := FetchFeed(net, toIso, window, feeds[i], requests);
      FeedStep(feeder, feeds, i, items, requests, sleeps, added, n, slept, all);
      rest := FetchFrom(feeder, feeds, i + 1, requests + n);
      items, requests, sleeps := items + added, requests + n, sleeps + slept;
      i := i + 1;
    }
    assert items + rest.result == items && sleeps + rest.sleeps == sleeps;
  }

  /** Every kept item had a date inside the window and a non-empty title and link,
      uses its link as both id and url, and names the feed it came from as author,
      source and category. */
  predicate FromFeed(it: CarrierItem, feed: Feed, window: Window) {
    && it.datePublished != "" && window(it.datePublished)
    && it.title != "" && it.url != "" && it.id == it.url
    && it.authors == [feed.name] && it.source == feed.name && it.category == feed.category
  }

  lemma {:induction false} ValidItemsLaws(feed: Feed, items: seq<RssItem>, window: Window)
    requires forall it :: it in items ==> it.title != "" && it.link != ""
    ensures forall c :: c in ValidItems(feed, items, window) ==> FromFeed(c, feed, window)
    ensures forall c :: c in ValidItems(feed, items, window) ==>
              exists it :: it in items && Dated(it, window) && c == Record(feed, it)
  {
    if items != [] {
      ValidItemsLaws(feed, items[1..], window);
      forall it | it in items[1..]
        ensures it in items
      {
      }
    }
  }

  /** A feed adds nothing when no candidate yielded a text or when its text does
      not parse, and otherwise the records of its dated items; whatever it adds
      passed the filter and carries that feed's name. */
  lemma FeedContributionLaws(feed: Feed, text: Option<string>, toIso: IsoDate, window: Window)
    ensures text.None? ==> FeedContribution(feed, text, toIso, window) == []
    ensures text.Some? && ParseRss(text.value, toIso).Failure? ==> FeedContribution(feed, text, toIso, window) == []
    ensures text.Some? && ParseRss(text.value, toIso).Success? ==>
              FeedContribution(feed, text, toIso, window) == ValidItems(feed, ParseRss(text.value, toIso).value, window)
    ensures forall c :: c in FeedContribution(feed, text, toIso, window) ==> FromFeed(c, feed, window)
  {
    if text.Some? && ParseRss(text.value, toIso).Success? {
      ParseBlocksLaws(ItemBlocks(text.value), toIso);
      ValidItemsLaws(feed, ParseRss(text.value, toIso).value, window);
    }
  }

  /** One feed adds only records that passed its filter, after at most six
      requests (two candidates, three attempts each). */
  lemma FeedRunLaws(net: Net, toIso: IsoDate, window: Window, feed: Feed, req: nat)
    ensures forall c :: c in FeedRun(net, toIso, window, feed, req).result ==> FromFeed(c, feed, window)
    ensures FeedRun(net, toIso, window, feed, req).requests <= 6
  {
    var urls := CandidateUrls(feed.url);
    FirstTextLaws(net, urls, 0, req);
    FeedContributionLaws(feed, FirstText(net, urls, req).result, toIso, window);
  }

  /** A feed step that adds only records of the feed it fetched, after at most six
      requests. */
  ghost predicate Sound(feeder: Feeder, window: Window) {
    && (forall feed, req, c :: c in feeder(feed, req).result ==> FromFeed(c, feed, window))
    && (forall feed, req :: feeder(feed, req).requests <= 6)
  }

  lemma AdapterSound(net: Net, toIso: IsoDate, window: Window)
    ensures Sound(Adapter(net, toIso, window), window)
  {
    forall feed, req
      ensures forall c :: c in Adapter(net, toIso, window)(feed, req).result ==> FromFeed(c, feed, window)
      ensures Adapter(net, toIso, window)(feed, req).requests <= 6
    {
      FeedRunLaws(net, toIso, window, feed, req);
    }
  }

  /** Every record from the feeds at `i` and after passed the filter of one of
      them, and each of those feeds made at most six requests. */
  lemma {:induction false} FetchFromLaws(feeder: Feeder, window: Window, feeds: seq<Feed>, i: nat, req: nat)
    requires i <= |feeds| && Sound(feeder, window)
    ensures forall c :: c in FetchFrom(feeder, feeds, i, req).result ==>
              exists k :: i <= k < |feeds| && FromFeed(c, feeds[k], window)
    ensures FetchFrom(feeder, feeds, i, req).requests <= 6 * (|feeds| - i)
    decreases |feeds| - i
  {
    if i < |feeds| {
      var got := feeder(feeds[i], req);
      var rest := FetchFrom(feeder, feeds, i + 1, req + got.requests);
      FetchFromLaws(feeder, window, feeds, i + 1, req + got.requests);
      assert got.requests <= 6;
      forall c | c in got.result + rest.result
        ensures exists k :: i <= k < |feeds| && FromFeed(c, feeds[k], window)
      {
        if c in got.result {
          assert FromFeed(c, feeds[i], window);
        }
      }
    }
  }

  /** The adapter's output: every record passed the date filter and carries its
      feed's name and category; no feed makes more than six requests (two
      candidates, three attempts each). */
  lemma FetchLaws(net: Net, toIso: IsoDate, window: Window, feeds: seq<Feed>)
    ensures forall c :: c in Fetch(net, toIso, window, feeds).result ==>
              exists k :: 0 <= k < |feeds| && FromFeed(c, feeds[k], window)
    ensures Fetch(net, toIso, window, feeds).requests <= 6 * |feeds|
  {
    AdapterSound(net, toIso, window);
    FetchFromLaws(Adapter(net, toIso, window), window, feeds, 0, 0);
  }

  /** A feed whose document holds an item with an empty CDATA title adds nothing,
      while the feeds after it are still fetched. */
  lemma EmptyCDataDropsFeed(net: Net, toIso: IsoDate, window: Window, feeds: seq<Feed>, i: nat, req: nat, k: nat)
    requires i < |feeds|
    requires var got := FirstText(net, CandidateUrls(feeds[i].url), req);
      got.result.Some? && k < |ItemBlocks(got.result.value)| &&
      OccursAt(ItemBlocks(got.result.value)[k], CDataElement("title", ""), 0)
    ensures var got := FirstText(net, CandidateUrls(feeds[i].url), req);
      FetchFrom(Adapter(net, toIso, window), feeds, i, req).result ==
        FetchFrom(Adapter(net, toIso, window), feeds, i + 1, req + got.requests).result
  {
    var got := FirstText(net, CandidateUrls(feeds[i].url), req);
    EmptyCDataTitleThrows(ItemBlocks(got.result.value), k, toIso);
    var feeder := Adapter(net, toIso, window);
    assert feeder(feeds[i], req) == Run([], got.requests, got.sleeps);
    assert [] + FetchFrom(feeder, feeds, i + 1, req + got.requests).result ==
           FetchFrom(feeder, feeds, i + 1, req + got.requests).result;
  }

  // ----------------------------------------------------------------- transform

  /** `transform(rawData)`: `rawData.items || []`; reading `items` of null or
      undefined throws. */
  function Transform(rawData: JsValue): (r: Result<JsValue, JsError>)
    ensures r.Failure? <==> IsNullish(rawData)
    ensures r.Success? && Truthy(OptProp(rawData, "items")) ==> r.value == OptProp(rawData, "items")
    ensures r.Success? && !Truthy(OptProp(rawData, "items")) ==> r.value == JArr([])
  {
    match Prop(rawData, "items")
    case None => Failure(TypeError("Cannot read properties of " + ToJsString(rawData) + " (reading 'items')"))
    case Some(items) => Success(Or(items, JArr([])))
  }

  /** A feed record as a JSON value. */
  function ItemValue(c: CarrierItem): JsValue {
    JObj(map[
      "id" := JStr(c.id), "url" := JStr(c.url), "title" := JStr(c.title),
      "content_html" := JStr(c.contentHtml), "date_published" := JStr(c.datePublished),
      "authors" := JArr(seq(|c.authors|, k requires 0 <= k < |c.authors| => JObj(map["name" := JStr(c.authors[k])]))),
      "source" := JStr(c.source), "category" := JStr(c.category)])
  }

  /** The envelope `fetch` returns, reduced to its `items`. */
  function Envelope(items: seq<CarrierItem>): JsValue {
    JObj(map["items" := JArr(seq(|items|, k requires 0 <= k < |items| => ItemValue(items[k])))])
  }

  /** `transform` hands the fetched records back unchanged, in order. */
  lemma TransformOfFetched(items: seq<CarrierItem>)
    ensures Transform(Envelope(items)) ==
            Success(JArr(seq(|items|, k requires 0 <= k < |items| => ItemValue(items[k]))))
  {
  }
}
