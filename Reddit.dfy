/**
  The Reddit adapter: a paginated crawl of a Folo list. Each page request carries
  the list id and, after the first page, a `publishedAfter` cursor taken from the
  last raw entry of the previous page; the crawl stops at the first page that
  fails, is not OK, is empty or throws while being read.

  The data API is the oracle `PageNet`, answering request number `i` (from 0)
  with a page outcome; the recency test is an oracle over the entry's
  `publishedAt` value, the number of days being fixed for a run.
*/
module Reddit {
  import opened Wrappers
  import opened Json
  import opened Unified

  /** The parts of a page request that vary: the list id, the `publishedAfter`
      field of the body and the `Cookie` header, each present or absent. */
  datatype PageRequest = PageRequest(listId: string, publishedAfter: Option<JsValue>, cookie: Option<JsValue>)

  /** `fetch` or `response.json()` threw, the response was not OK, or the parsed body. */
  datatype PageOutcome = Failed | NotOk | Ok(data: JsValue)

  type PageNet = (nat, PageRequest) -> PageOutcome
  type Window = JsValue -> bool

  /** The record pushed for an in-window entry. */
  datatype RedditItem = RedditItem(
    id: JsValue, url: JsValue, title: JsValue, contentHtml: JsValue, datePublished: JsValue,
    author: JsValue, source: string)

  /** The request of one page: `publishedAfter` only when the cursor is truthy, the
      cookie only when it is truthy. */
  function Request(listId: string, cursor: JsValue, cookie: JsValue): (r: PageRequest)
    ensures r.publishedAfter.Some? <==> Truthy(cursor)
    ensures r.publishedAfter.Some? ==> r.publishedAfter.value == cursor
    ensures r.cookie.Some? <==> Truthy(cookie)
    ensures r.cookie.Some? ==> r.cookie.value == cookie
  {
    PageRequest(listId, if Truthy(cursor) then Some(cursor) else None, if Truthy(cookie) then Some(cookie) else None)
  }

  /** `entry.entries.publishedAt`. */
  function PublishedAt(entry: JsValue): Result<JsValue, JsError> {
    var entries :- Read(entry, "entries");
    Read(entries, "publishedAt")
  }

  /** `entries.filter(entry => isDateWithinLastDays(entry.entries.publishedAt, days))`. */
  function FilterEntries(entries: seq<JsValue>, window: Window): (r: Result<seq<JsValue>, JsError>)
    ensures r.Success? ==> forall e :: e in r.value ==> e in entries && PublishedAt(e).Success? && window(PublishedAt(e).value)
    ensures r.Success? <==> forall k :: 0 <= k < |entries| ==> PublishedAt(entries[k]).Success?
    ensures r.Success? ==> forall k :: 0 <= k < |entries| && PublishedAt(entries[k]).Success? && window(PublishedAt(entries[k]).value) ==>
              entries[k] in r.value
  {
    if entries == [] then Success([])
    else
      var at :- PublishedAt(entries[0]);
      var rest :- FilterEntries(entries[1..], window);
      Success(if window(at) then [entries[0]] + rest else rest)
  }

  /** One entry is kept exactly when its date is in the window; reading a missing
      `entries` throws. */
  lemma FilterOne(e: JsValue, window: Window)
    ensures FilterEntries([e], window) ==
      match PublishedAt(e)
      case Failure(err) => Failure(err)
      case Success(at) => Success(if window(at) then [e] else [])
  {
    assert [e][1..] == [];
    assert FilterEntries([e][1..], window) == Success([]);
    assert [e] + [] == [e];
  }

  /** The filter keeps the order of the page: filtering two runs of entries gives
      the kept entries of the first run followed by those of the second. */
  lemma {:induction false} FilterAppend(a: seq<JsValue>, b: seq<JsValue>, window: Window)
    ensures FilterEntries(a + b, window).Success? <==> FilterEntries(a, window).Success? && FilterEntries(b, window).Success?
    ensures FilterEntries(a + b, window).Success? ==>
              FilterEntries(a + b, window).value == FilterEntries(a, window).value + FilterEntries(b, window).value
    decreases |a|
  {
    if a == [] {
      assert a + b == b;
    } else {
      assert (a + b)[0] == a[0];
      assert (a + b)[1..] == a[1..] + b;
      FilterAppend(a[1..], b, window);
      var r := FilterEntries(a + b, window);
      if r.Success? {
        var at := PublishedAt(a[0]).value;
        var ra := FilterEntries(a[1..], window).value;
        var rb := FilterEntries(b, window).value;
        if window(at) {
          assert r.value == [a[0]] + (ra + rb);
          assert FilterEntries(a, window).value == [a[0]] + ra;
        }
      }
    }
  }

  /** The record of one kept entry; the source is `${entry.feeds.title}`. */
  function ToItem(entry: JsValue): Result<RedditItem, JsError> {
    var entries :- Read(entry, "entries");
    var feedTitle :- Read(OptProp(entry, "feeds"), "title");
    Success(RedditItem(OptProp(entries, "id"), OptProp(entries, "url"), OptProp(entries, "title"),
                       OptProp(entries, "content"), OptProp(entries, "publishedAt"), OptProp(entries, "author"),
                       ToJsString(feedTitle)))
  }

  function ToItems(entries: seq<JsValue>): (r: Result<seq<RedditItem>, JsError>)
    ensures r.Success? ==> |r.value| == |entries|
    ensures r.Success? ==> forall k :: 0 <= k < |entries| ==> ToItem(entries[k]) == Success(r.value[k])
  {
    if entries == [] then Success([])
    else
      var first :- ToItem(entries[0]);
      var rest :- ToItems(entries[1..]);
      Success([first] + rest)
  }

  /** What a page yields: its in-window records and the cursor for the next
      request, or `Stop`. */
  datatype PageResult = Stop | Page(items: seq<RedditItem>, cursor: JsValue)

  /** The processing of a parsed page. Only a non-empty array under `data` is
      read: a falsy or empty one ends the crawl, and any other value either has no
      positive `length` or no `filter`, which ends it through the `catch`. A
      TypeError while filtering or mapping also ends it, before anything from
      the page is pushed. */
  function PageOf(data: JsValue, window: Window): PageResult {
    var list := OptProp(data, "data");
    if !(list.JArr? && |list.elems| > 0) then Stop
    else
      match FilterEntries(list.elems, window)
      case Failure(_) => Stop
      case Success(kept) =>
        match ToItems(kept)
        case Failure(_) => Stop
        case Success(items) => Page(items, OptProp(OptProp(list.elems[|list.elems| - 1], "entries"), "publishedAt"))
  }

  /** A page continues the crawl exactly when `data` is a non-empty array whose
      entries can all be filtered and whose kept entries can all be mapped; its
      records are then the mapped in-window entries, each in the window, and the
      cursor is the `publishedAt` of the page's last raw entry, whether or not that
      entry was kept. */
  lemma PageLaws(data: JsValue, window: Window)
    ensures var p := PageOf(data, window);
      var list := OptProp(data, "data");
      p.Page? <==>
        && list.JArr? && |list.elems| > 0
        && FilterEntries(list.elems, window).Success?
        && ToItems(FilterEntries(list.elems, window).value).Success?
    ensures var p := PageOf(data, window);
      p.Page? ==>
        && p.items == ToItems(FilterEntries(OptProp(data, "data").elems, window).value).value
        && (forall it :: it in p.items ==> window(it.datePublished))
        && (var list := OptProp(data, "data").elems;
            PublishedAt(list[|list| - 1]) == Success(p.cursor))
  {
    var list := OptProp(data, "data");
    var p := PageOf(data, window);
    if p.Page? {
      var kept := FilterEntries(list.elems, window).value;
      var items := ToItems(kept).value;
      forall it | it in items
        ensures window(it.datePublished)
      {
        var k :| 0 <= k < |items| && items[k] == it;
        assert kept[k] in kept;
        var entries := Read(kept[k], "entries").value;
        assert it.datePublished == OptProp(entries, "publishedAt");
      }
      assert PublishedAt(list.elems[|list.elems| - 1]).Success?;
    }
  }

  /** What request number `i` yields: `Stop` when it throws, is not OK or its page
      ends the crawl. */
  function Step(net: PageNet, i: nat, req: PageRequest, window: Window): PageResult {
    var out := net(i, req);
    if out.Ok? then PageOf(out.data, window) else Stop
  }

  /** The page loop sees each request only through what it yields. */
  type Answer = (nat, PageRequest) -> PageResult

  function Answers(net: PageNet, window: Window): Answer {
    (i: nat, req: PageRequest) => Step(net, i, req, window)
  }

  /** The requests made and the records gathered. */
  datatype Crawl = Crawl(items: seq<RedditItem>, sent: seq<PageRequest>)

  /** Pages `i` to `pages - 1`, the first one requested with `cursor`. */
  function CrawlFrom(answer: Answer, listId: string, cookie: JsValue, pages: int, i: nat, cursor: JsValue): Crawl
    decreases pages - i
  {
    if i >= pages then Crawl([], [])
    else
      var req := Request(listId, cursor, cookie);
      match answer(i, req)
      case Stop => Crawl([], [req])
      case Page(items, next) =>
        var rest := CrawlFrom(answer, listId, cookie, pages, i + 1, next);
        Crawl(items + rest.items, [req] + rest.sent)
  }

  /** `fetch` up to the post-map: no request without a list id, otherwise the crawl
      from page 0 with the cursor `null`. */
  function Fetch(net: PageNet, listId: Option<string>, cookie: JsValue, window: Window, pages: int): Crawl {
    if listId.None? || listId.value == "" then Crawl([], [])
    else CrawlFrom(Answers(net, window), listId.value, cookie, pages, 0, JNull)
  }

  /** A stored record after the post-map. */
  datatype Post = Post(item: RedditItem, titleZh: JsValue)

  /** `items.map(item => ({...item, title_zh: item.title || ""}))`. */
  function WithTitleZh(items: seq<RedditItem>): (r: seq<Post>)
    ensures |r| == |items|
    ensures forall k :: 0 <= k < |items| ==> r[k].item == items[k] && r[k].titleZh == Or(items[k].title, JStr(""))
  {
    seq(|items|, k requires 0 <= k < |items| => Post(items[k], Or(items[k].title, JStr(""))))
  }

  /** One turn of the page loop: a stop ends the crawl with this request, a page
      adds its records and moves the cursor. */
  lemma PageStep(answer: Answer, listId: string, cookie: JsValue, pages: int,
                 whole: Crawl, items: seq<RedditItem>, sent: seq<PageRequest>, i: nat, cursor: JsValue,
                 req: PageRequest, step: PageResult)
    requires i < pages && req == Request(listId, cursor, cookie) && step == answer(i, req)
    requires var rest := CrawlFrom(answer, listId, cookie, pages, i, cursor);
      whole == Crawl(items + rest.items, sent + rest.sent)
    ensures step.Stop? ==> whole == Crawl(items, sent + [req])
    ensures step.Page? ==>
      var rest := CrawlFrom(answer, listId, cookie, pages, i + 1, step.cursor);
      whole == Crawl(items + step.items + rest.items, sent + [req] + rest.sent)
  {
    var here := CrawlFrom(answer, listId, cookie, pages, i, cursor);
    if step.Page? {
      var rest := CrawlFrom(answer, listId, cookie, pages, i + 1, step.cursor);
      assert here == Crawl(step.items + rest.items, [req] + rest.sent);
      assert items + (step.items + rest.items) == items + step.items + rest.items;
      assert sent + ([req] + rest.sent) == sent + [req] + rest.sent;
    } else {
      assert here == Crawl([], [req]);
      assert items + [] == items;
    }
  }

  /** The `for (let i = 0; i < fetchPages; i++)` loop and the post-map. */
  method FetchPosts(net: PageNet, listId: Option<string>, cookie: JsValue, window: Window, pages: int)
    returns (posts: seq<Post>, requests: nat, ghost sent: seq<PageRequest>)
    ensures sent == Fetch(net, listId, cookie, window, pages).sent
    ensures posts == WithTitleZh(Fetch(net, listId, cookie, window, pages).items)
    ensures requests == |sent|
  {
    if listId.None? || listId.value == "" {
      return [], 0, [];
    }
    var id := listId.value;
    ghost var answer := Answers(net, window);
    ghost var whole := CrawlFrom(answer, id, cookie, pages, 0, JNull);
    var items: seq<RedditItem> := [];
    var cursor := JNull;
    sent := [];
    requests := 0;
    var i := 0;
    assert [] + whole.items == whole.items && [] + whole.sent == whole.sent;
    while i < pages
      invariant requests == |sent|
      invariant var rest := CrawlFrom(answer, id, cookie, pages, i, cursor);
        whole == Crawl(items + rest.items, sent + rest.sent)
      decreases pages - i
    {
      var req := Request(id, cursor, cookie);
      var step := Step(net, i, req, window);
      assert step == answer(i, req);
      PageStep(answer, id, cookie, pages, whole, items, sent, i, cursor, req, step);
      sent, requests := sent + [req], requests + 1;
      if step.Stop? {
        break;
      }
      items, cursor := items + step.items, step.cursor;
      i := i + 1;
    }
    if i >= pages {
      assert items + [] == items && sent + [] == sent;
    }
    posts := WithTitleZh(items);
  }

  /** At most one request per remaining page, and at least one when a page
      remains; the first carries the cursor it was given; every request names the
      list and carries the cookie exactly when it is truthy. */
  lemma {:induction false} CrawlRequests(answer: Answer, listId: string, cookie: JsValue, pages: int, i: nat, cursor: JsValue)
    ensures var c := CrawlFrom(answer, listId, cookie, pages, i, cursor);
      && (i >= pages ==> c.sent == [])
      && (i < pages ==> 1 <= |c.sent| <= pages - i && c.sent[0] == Request(listId, cursor, cookie))
      && (forall r :: r in c.sent ==> r.listId == listId && r.cookie == Request(listId, cursor, cookie).cookie)
    decreases pages - i
  {
    if i < pages {
      var req := Request(listId, cursor, cookie);
      var step := answer(i, req);
      if step.Page? {
        CrawlRequests(answer, listId, cookie, pages, i + 1, step.cursor);
      }
    }
  }

  /** Each request after the first follows a page that continued the crawl and
      carries that page's cursor as `publishedAfter` (absent when it is falsy). */
  lemma {:induction false} CrawlChain(answer: Answer, listId: string, cookie: JsValue, pages: int, i: nat, cursor: JsValue)
    ensures var c := CrawlFrom(answer, listId, cookie, pages, i, cursor);
      forall k :: 0 <= k < |c.sent| - 1 ==>
        answer(i + k, c.sent[k]).Page? &&
        c.sent[k + 1] == Request(listId, answer(i + k, c.sent[k]).cursor, cookie)
    decreases pages - i
  {
    var c := CrawlFrom(answer, listId, cookie, pages, i, cursor);
    if i < pages {
      var req := Request(listId, cursor, cookie);
      var step := answer(i, req);
      if step.Page? {
        var rest := CrawlFrom(answer, listId, cookie, pages, i + 1, step.cursor);
        CrawlChain(answer, listId, cookie, pages, i + 1, step.cursor);
        CrawlRequests(answer, listId, cookie, pages, i + 1, step.cursor);
        assert c.sent == [req] + rest.sent;
        forall k | 0 <= k < |c.sent| - 1
          ensures answer(i + k, c.sent[k]).Page?
          ensures c.sent[k + 1] == Request(listId, answer(i + k, c.sent[k]).cursor, cookie)
        {
          if k == 0 {
            assert c.sent[0] == req && c.sent[1] == rest.sent[0];
          } else {
            var j := k - 1;
            assert c.sent[k] == rest.sent[j] && c.sent[k + 1] == rest.sent[j + 1];
            assert 0 <= j < |rest.sent| - 1;
            assert (i + 1) + j == i + k;
          }
        }
      }
    }
  }

  /** The crawl ends before its page budget only when its last request did not
      continue it. */
  lemma {:induction false} CrawlStop(answer: Answer, listId: string, cookie: JsValue, pages: int, i: nat, cursor: JsValue)
    ensures var c := CrawlFrom(answer, listId, cookie, pages, i, cursor);
      0 < |c.sent| < pages - i ==> answer(i + |c.sent| - 1, c.sent[|c.sent| - 1]).Stop?
    decreases pages - i
  {
    var c := CrawlFrom(answer, listId, cookie, pages, i, cursor);
    if i < pages {
      var req := Request(listId, cursor, cookie);
      var step := answer(i, req);
      if step.Page? {
        var rest := CrawlFrom(answer, listId, cookie, pages, i + 1, step.cursor);
        CrawlStop(answer, listId, cookie, pages, i + 1, step.cursor);
        CrawlRequests(answer, listId, cookie, pages, i + 1, step.cursor);
        assert c.sent == [req] + rest.sent;
        if 0 < |c.sent| < pages - i {
          assert 0 < |rest.sent| < pages - (i + 1);
          assert c.sent[|c.sent| - 1] == rest.sent[|rest.sent| - 1];
          assert i + |c.sent| - 1 == (i + 1) + |rest.sent| - 1;
        }
      }
    }
  }

  /** The records of the pages that continued the crawl, page after page, for the
      requests `sent` from page `i` on. */
  ghost function Gathered(answer: Answer, i: nat, sent: seq<PageRequest>): seq<RedditItem>
    decreases |sent|
  {
    if sent == [] then []
    else
      var here := match answer(i, sent[0]) case Page(items, _) => items case Stop => [];
      here + Gathered(answer, i + 1, sent[1..])
  }

  /** The crawl gathers exactly the records of the pages it requested, in request
      order, and nothing of the page that stopped it. */
  lemma {:induction false} CrawlItems(answer: Answer, listId: string, cookie: JsValue, pages: int, i: nat, cursor: JsValue)
    ensures var c := CrawlFrom(answer, listId, cookie, pages, i, cursor);
      c.items == Gathered(answer, i, c.sent)
    decreases pages - i
  {
    var c := CrawlFrom(answer, listId, cookie, pages, i, cursor);
    if i < pages {
      var req := Request(listId, cursor, cookie);
      var step := answer(i, req);
      if step.Page? {
        var rest := CrawlFrom(answer, listId, cookie, pages, i + 1, step.cursor);
        CrawlItems(answer, listId, cookie, pages, i + 1, step.cursor);
        assert c.sent == [req] + rest.sent;
        assert c.sent[1..] == rest.sent;
      } else {
        assert c.sent == [req];
        assert c.sent[1..] == [];
      }
    }
  }

  /** A first page that continues and a second that stops: the records of the
      first page and no third request. */
  lemma TwoPages(answer: Answer, listId: string, cookie: JsValue, pages: int)
    requires pages >= 2
    requires answer(0, Request(listId, JNull, cookie)).Page?
    requires answer(1, Request(listId, answer(0, Request(listId, JNull, cookie)).cursor, cookie)).Stop?
    ensures var c := CrawlFrom(answer, listId, cookie, pages, 0, JNull);
      && c.items == answer(0, Request(listId, JNull, cookie)).items
      && |c.sent| == 2
  {
    var first := answer(0, Request(listId, JNull, cookie));
    var second := CrawlFrom(answer, listId, cookie, pages, 1, first.cursor);
    assert second == Crawl([], [Request(listId, first.cursor, cookie)]);
    assert first.items + [] == first.items;
  }

  /** Every gathered record passed the recency test. */
  lemma {:induction false} CrawlInWindow(net: PageNet, window: Window, listId: string, cookie: JsValue, pages: int, i: nat, cursor: JsValue)
    ensures forall it :: it in CrawlFrom(Answers(net, window), listId, cookie, pages, i, cursor).items ==> window(it.datePublished)
    decreases pages - i
  {
    if i < pages {
      var req := Request(listId, cursor, cookie);
      var step := Step(net, i, req, window);
      assert Answers(net, window)(i, req) == step;
      if step.Page? {
        PageLaws(net(i, req).data, window);
        CrawlInWindow(net, window, listId, cookie, pages, i + 1, step.cursor);
      }
    }
  }

  /** The crawl as a whole: nothing without a list id; otherwise at most
      `fetchPages` requests, the first without `publishedAfter`, and the records
      are those of the pages that continued the crawl, in request order, each in
      the window. */
  lemma FetchLaws(net: PageNet, listId: Option<string>, cookie: JsValue, window: Window, pages: int)
    ensures var c := Fetch(net, listId, cookie, window, pages);
      && (listId.None? || listId.value == "" ==> c == Crawl([], []))
      && |c.sent| <= (if pages > 0 then pages else 0)
      && (|c.sent| > 0 ==> c.sent[0].publishedAfter.None?)
      && (forall it :: it in c.items ==> window(it.datePublished))
      && c.items == Gathered(Answers(net, window), 0, c.sent)
  {
    if !(listId.None? || listId.value == "") {
      CrawlRequests(Answers(net, window), listId.value, cookie, pages, 0, JNull);
      CrawlInWindow(net, window, listId.value, cookie, pages, 0, JNull);
      CrawlItems(Answers(net, window), listId.value, cookie, pages, 0, JNull);
    }
  }

  // ----------------------------------------------------------------- transform

  function ItemValue(p: Post): JsValue {
    JObj(map[
      "id" := p.item.id, "url" := p.item.url, "title" := p.item.title,
      "content_html" := p.item.contentHtml, "date_published" := p.item.datePublished,
      "authors" := JArr([JObj(map["name" := p.item.author])]), "source" := JStr(p.item.source),
      "title_zh" := p.titleZh])
  }

  /** The envelope `fetch` returns, reduced to its `items`. */
  function Envelope(posts: seq<Post>): JsValue {
    JObj(map["items" := JArr(seq(|posts|, k requires 0 <= k < |posts| => ItemValue(posts[k])))])
  }

  /** `transform(rawData, sourceType)`: nothing for missing data or items, a
      TypeError when `items` is truthy but not an array, else one unified record per
      stored item with the source defaulting to "reddit". */
  function Transform(rawData: JsValue, sourceType: JsValue, strip: StripHtml): (r: Result<seq<UnifiedItem>, JsError>)
    ensures !Truthy(rawData) || !Truthy(OptProp(rawData, "items")) ==> r == Success([])
    ensures Truthy(rawData) && Truthy(OptProp(rawData, "items")) && !OptProp(rawData, "items").JArr? ==> r.Failure?
    ensures r.Success? && OptProp(rawData, "items").JArr? ==> |r.value| == |OptProp(rawData, "items").elems|
  {
    if !Truthy(rawData) || !Truthy(OptProp(rawData, "items")) then Success([])
    else
      var items := OptProp(rawData, "items");
      if !items.JArr? then Failure(TypeError("rawData.items.map is not a function"))
      else UnifyAll(items.elems, sourceType, "reddit", strip)
  }

  /** How `transform` sees a record `fetch` stored: the author as the authors label
      (empty when missing), the feed title as the source unless it printed empty. */
  function UnifiedOf(p: Post, sourceType: JsValue, strip: StripHtml): UnifiedItem {
    var html := Or(p.item.contentHtml, JStr(""));
    UnifiedItem(p.item.id, sourceType, p.item.url, p.item.title, strip(html), p.item.datePublished,
                JStr(if IsNullish(p.item.author) then "" else ToJsString(p.item.author)),
                Or(JStr(p.item.source), JStr("reddit")), html)
  }

  lemma UnifyStored(p: Post, sourceType: JsValue, strip: StripHtml)
    ensures UnifyItem(ItemValue(p), sourceType, "reddit", strip) == Success(UnifiedOf(p, sourceType, strip))
  {
    var v := ItemValue(p);
    assert !IsNullish(v);
    OneAuthorLabel(p.item.author);
    assert OptProp(v, "id") == p.item.id && OptProp(v, "url") == p.item.url && OptProp(v, "title") == p.item.title;
    assert OptProp(v, "date_published") == p.item.datePublished;
    assert OptProp(v, "authors") == JArr([JObj(map["name" := p.item.author])]);
    assert OptProp(v, "content_html") == p.item.contentHtml;
    assert OptProp(v, "source") == JStr(p.item.source);
  }

  /** `transform` of what `fetch` stored keeps every record, in order. */
  lemma TransformOfFetched(posts: seq<Post>, sourceType: JsValue, strip: StripHtml)
    ensures Transform(Envelope(posts), sourceType, strip) ==
            Success(seq(|posts|, k requires 0 <= k < |posts| => UnifiedOf(posts[k], sourceType, strip)))
  {
    var values := seq(|posts|, k requires 0 <= k < |posts| => ItemValue(posts[k]));
    assert OptProp(Envelope(posts), "items") == JArr(values);
    var expected := seq(|posts|, k requires 0 <= k < |posts| => UnifiedOf(posts[k], sourceType, strip));
    forall k | 0 <= k < |posts|
      ensures UnifyItem(values[k], sourceType, "reddit", strip) == Success(expected[k])
    {
      UnifyStored(posts[k], sourceType, strip);
    }
    UnifyAllExact(values, expected, sourceType, "reddit", strip);
  }
}
