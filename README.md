# Feed ingestion and mind-map tagging, modelled in Dafny

This project models the part of the news back end that pulls items out of syndication
feeds and then tags them against the board mind map. It covers:

- **The carrier-network adapter** (`src/dataSources/carrierSources.js`):
  - five configured feeds;
  - `fetchTextWithRetry`: three attempts, with a `600 * attempt` ms back-off, a status
    error, and an error for a body that carries the "internal error; reference=" marker;
  - the mirror fallback: Google News feeds are tried again through a reader proxy;
  - `parseRSS` and its `extractTag`;
  - the per-feed date filter and the mapping to feed records;
  - `transform`.
- **The two single-feed adapters** (`src/dataSources/huawei.js` and
  `src/dataSources/ai-yuanshengsuanli.js`). They are the same code apart from their
  label, so they are modelled as one adapter parameterised by the label:
  - one request to the configured address;
  - `extractCDATA` with its fallbacks for id, body and author;
  - the date window, where a date that does not parse becomes the current time;
  - `transform`.
- **The Reddit adapter** (`src/dataSources/reddit.js`):
  - a paginated crawl of a Folo list with a `publishedAfter` cursor;
  - the recency filter;
  - the `title_zh` post-map;
  - `transform`.
- **The tagging batcher** `tagItemsWithMindmap` (`src/handlers/writeData.js`):
  - the first `maxItems` items are cut into batches of `batchSize`, with one model call
    per batch;
  - code fences are stripped from the reply and the reply is parsed;
  - tags are merged back by `String(id)`;
  - a failed batch passes through unchanged, and the items beyond `maxItems` come back
    untagged.
- **The tagging prompts** (`src/prompt/mindmapTaggingPrompt.js`):
  - the board taxonomy of the system prompt;
  - the user payload, which projects every item onto seven fields.

Everything outside the code is a parameter of the model:

- the network is an oracle from a request number and URL to an outcome;
- the model call, `JSON.parse`, date parsing, the recency test and `stripHtml` are
  oracles too;
- the current time is a string.

Every run reports how many requests it made and, as a ghost log, how long it slept.

Modules:

| Module | Contents |
|---|---|
| `Wrappers` and `Json` | JavaScript values, truthiness, `\|\|`, `??`, `?.` and `String()` |
| `Text` | leftmost search and `trim` |
| `Markup` | the regular expressions over RSS |
| `Retry` | `fetchTextWithRetry` and the mirror loop |
| `Carrier` | the carrier adapter |
| `SingleFeed` | the two single-feed adapters |
| `Reddit` | the Reddit adapter |
| `Unified` | the record that `transform` builds |
| `TaggingPrompt` | the tagging prompts |
| `Tagging` | the tagging batcher |

Two behaviours one might expect of such a pipeline are absent from the code, and the model
follows the code:

- The carrier adapter does not wait between feeds; it sleeps only between retries of one
  URL.
- The batcher does not check or clamp the board ids the model returns. It copies the
  five tag fields of the reply entry as they are.

## Model

| member | source | states |
|---|---|---|
| Json.Prop | src/dataSources/reddit.js:71 | reading a property throws exactly on null or undefined, and gives the property of an object |
| Json.NatToDecimal | src/handlers/writeData.js:46 | `String(n)` of a natural number is a non-empty run of decimal digits without a leading zero |
| Json.DecimalRoundTrip | src/handlers/writeData.js:46 | reading the digits of `String(n)` back gives `n` |
| Json.NegativeReadBack | src/handlers/writeData.js:49 | `String(n)` of a negative number is a minus sign followed by the digits of `-n` |
| Json.NonNegativeReadBack | src/handlers/writeData.js:49 | `String(n)` of a non-negative number has no sign and reads back as `n` |
| Json.IntToDecimalInjective | src/handlers/writeData.js:46-49 | two integers with the same `String()` are equal |
| Json.ToJsStringSeparatesIds | src/handlers/writeData.js:46-49 | the merge key `String(id)` tells apart distinct string ids and distinct numeric ids |
| Json.ToJsString | src/handlers/writeData.js:46-49 | `String(v)`: a string is itself, a number its decimal digits, an array its elements joined by ","; its contract is stated by `ToJsStringSeparatesIds`, `NegativeReadBack`, `NonNegativeReadBack` and `ElementStrings` |
| Json.Join | src/dataSources/huawei.js:126 | joining no parts gives "", and joining one part gives that part |
| Json.JoinSnoc | src/dataSources/huawei.js:126 | one more part is appended after the separator, so the separator stands between every two consecutive parts |
| Json.ElementStrings | src/dataSources/huawei.js:126 | `join` prints one string per array element, in order, each being that element printed as `join` prints it: "" for null or undefined, `String()` otherwise |
| Text.Find | src/dataSources/carrierSources.js:141 | a found occurrence lies inside the string at or after the start |
| Text.FindSound | src/dataSources/carrierSources.js:141 | the search finds an occurrence, it is the leftmost one, and it answers none only when there is none |
| Text.FindSkip | src/dataSources/carrierSources.js:134 | positions without an occurrence can be skipped without changing the answer |
| Text.FindAt | src/dataSources/carrierSources.js:134 | the first occurrence after `from` is found |
| Text.FindSuffix | src/dataSources/carrierSources.js:134-137 | searching a document from inside a suffix is searching the suffix |
| Text.TrimStartLaws | src/dataSources/carrierSources.js:143 | trimming the start drops a prefix made only of white space, and what is left does not start with white space |
| Text.TrimEndLaws | src/dataSources/carrierSources.js:143 | trimming the end drops a suffix made only of white space, and what is left does not end with white space |
| Text.TrimIsInfix | src/dataSources/huawei.js:60-62 | `trim` returns a slice of its input, surrounded only by white space, with no white space at either end |
| Text.TrimIdempotent | src/dataSources/huawei.js:60-62 | trimming twice is trimming once |
| Text.TrimOfTrimmed | src/dataSources/carrierSources.js:143 | a string with no white space at either end is its own trim |
| Text.Trim | src/dataSources/carrierSources.js:143 | `trim`; its contract is stated by `TrimIsInfix`, `TrimIdempotent` and `TrimOfTrimmed` |
| Markup.ItemMatch | src/dataSources/carrierSources.js:134-137 | a match of the item expression has its body after `<item` and its `</item>` inside the document |
| Markup.ItemBlocksFrom | src/dataSources/carrierSources.js:134-138 | the bodies the global item scan yields from a position; its contract is stated by `ItemBlocksNext` and `ItemBlocksAt` |
| Markup.ItemBlocks | src/dataSources/huawei.js:46-50 | the bodies of all item matches in document order; its contract is stated by `ItemBlocksOfRendered` |
| Markup.ItemBlocksNext | src/dataSources/carrierSources.js:137-138 | the item scan yields the next block and continues after its `</item>`, or stops when there is no match |
| Markup.ItemCloseAt | src/dataSources/huawei.js:46 | the lazy body ends at the first `</item>` after the body |
| Markup.ItemMatchAt | src/dataSources/huawei.js:46 | the item expression finds the element `<item>body</item>` placed at the first `<item` |
| Markup.ItemBlocksAt | src/dataSources/huawei.js:46-50 | scanning a rendering of item bodies gives those bodies, in order |
| Markup.ItemBlocksOfRendered | src/dataSources/carrierSources.js:134-138 | rendering bodies free of `</item>` as items and scanning the document gives the bodies back |
| Markup.ExtractTag | src/dataSources/carrierSources.js:140-144 | `extractTag` throws exactly when the first element holds an empty CDATA section |
| Markup.CarrierTagMatch | src/dataSources/carrierSources.js:141-142 | the match of the carrier tag expression: no match, a CDATA payload or a plain text; its contract is stated by `CDataMatchAt`, `TextMatchAt` and `ExtractAbsent` |
| Markup.ExtractAbsent | src/dataSources/huawei.js:53-58 | without the opening tag both extractors return "" |
| Markup.ExtractCData | src/dataSources/huawei.js:53-58 | `extractCDATA`: the CDATA payload when the CDATA expression matches, else the plain text, else ""; its contract is stated by `ExtractAbsent`, `ExtractOfCData` and `ExtractOfText` |
| Markup.NoEarlyCDataEnd | src/dataSources/carrierSources.js:141 | `]]></tag>` cannot start inside a CDATA payload that does not contain `]]>` |
| Markup.NoEarlyClose | src/dataSources/carrierSources.js:141 | `</tag>` cannot start inside character data that holds no `<` |
| Markup.OpenTagAt | src/dataSources/carrierSources.js:141 | an element whose opening tag is the first occurrence of `<tag` is where both expressions begin |
| Markup.CDataEndAt | src/dataSources/huawei.js:54 | the lazy payload ends at the first `]]></tag>` after it |
| Markup.CloseAt | src/dataSources/huawei.js:56 | the lazy inner text ends at the first `</tag>` after it |
| Markup.CDataMatchAt | src/dataSources/carrierSources.js:141 | when `<![CDATA[` follows the opening tag, the carrier expression takes the CDATA alternative |
| Markup.CDataSearchAt | src/dataSources/huawei.js:54-55 | the CDATA-only expression captures the payload up to the first `]]></tag>` |
| Markup.TextMatchAt | src/dataSources/carrierSources.js:141 | without `<![CDATA[`, the carrier expression takes the plain alternative and the plain expression captures the same text |
| Markup.CDataElementParts | src/dataSources/carrierSources.js:141 | a CDATA element is the opening tag, `<![CDATA[`, the payload and `]]></tag>` in a row |
| Markup.ExtractOfCData | src/dataSources/carrierSources.js:140-144 | on a CDATA element, `extractTag` gives the trimmed payload (it throws for an empty one) and `extractCDATA` gives the payload |
| Markup.ExtractOfText | src/dataSources/huawei.js:53-58 | on a plain element, `extractTag` gives the trimmed text and `extractCDATA` gives the text |
| Markup.NoCDataOpenAt | src/dataSources/carrierSources.js:141 | content that does not start with `<!` does not open a CDATA section |
| Retry.SkipSpaces | src/dataSources/carrierSources.js:50 | greedy `\s*` stops at the first character that is not white space |
| Retry.MarkerAtAnySpacing | src/dataSources/carrierSources.js:50 | the marker matches with any run of white space exactly when it matches with the greedy run |
| Retry.FindMarker | src/dataSources/carrierSources.js:50 | a marker match is found at or after the start |
| Retry.FindMarkerSound | src/dataSources/carrierSources.js:50 | the marker test answers yes exactly when the marker occurs, ignoring case |
| Retry.RefEnd | src/dataSources/carrierSources.js:51 | `[^\s<]+` runs to the first white space or `<` |
| Retry.FindMessage | src/dataSources/carrierSources.js:51 | a message match is found at or after the start |
| Retry.FindMessageSound | src/dataSources/carrierSources.js:51 | the message match is a real match and none is missed |
| Retry.MarkerMessageLaws | src/dataSources/carrierSources.js:51 | the thrown message is never empty, it is the fallback text when no reference id follows the marker, and otherwise it is the leftmost full match |
| Retry.MatchedText | src/dataSources/carrierSources.js:51 | the matched text starts with "internal error;", ignoring case |
| Retry.FindMessageFirst | src/dataSources/carrierSources.js:51 | no match is missed before the one found |
| Retry.Snippet | src/dataSources/carrierSources.js:47 | `slice(0, 300)` is the whole body when it has at most 300 characters, and otherwise its prefix of exactly 300 characters |
| Retry.HttpMessage | src/dataSources/carrierSources.js:47 | the message of a response that is not OK; its contract is stated by `ServerErrorMessage` |
| Retry.MarkerMessage | src/dataSources/carrierSources.js:51 | the message thrown for a body with the marker; its contract is stated by `MarkerMessageLaws` |
| Retry.Attempt | src/dataSources/carrierSources.js:42-54 | one attempt of the `try`; its contract is stated by `AttemptLaws` |
| Retry.AttemptLaws | src/dataSources/carrierSources.js:42-54 | an attempt succeeds exactly on an OK response free of the marker; it yields the body; the status error carries the status line and the snippet, and the marker error carries the matched message |
| Retry.FetchTextWithRetry | src/dataSources/carrierSources.js:39-64 | the retry loop computes the run of `Retry`: its result, its request count and its back-offs |
| Retry.RetryFrom | src/dataSources/carrierSources.js:41-63 | the attempts from `attempt` on; its contract is stated by `RetryFromShape` and `RetryFromResult` |
| Retry.Retry | src/dataSources/carrierSources.js:39-64 | `fetchTextWithRetry` as a function of the network; its contract is stated by `RetryLaws` and `AlwaysServerError` |
| Retry.RetryFromShape | src/dataSources/carrierSources.js:41-61 | from attempt `a` on, the loop makes at most `maxAttempts + 1 - a` requests and sleeps `600 * attempt` ms between each two |
| Retry.RetryFromResult | src/dataSources/carrierSources.js:41-63 | the result is the first attempt that succeeds; when all fail the last error is thrown |
| Retry.RetryLaws | src/dataSources/carrierSources.js:39-64 | between 1 and `maxAttempts` requests; the body of the first OK marker-free response; back-offs of 600, 1200, ... ms between attempts; after every attempt fails, the last error (`undefined` when there were no attempts) |
| Retry.ServerErrorMessage | src/dataSources/carrierSources.js:47 | the message of a 500 response is "HTTP 500 Internal Server Error: " followed by the snippet |
| Retry.AlwaysServerError | src/dataSources/carrierSources.js:39-64 | against a server that always answers 500, three requests are made, 600 and 1200 ms are slept, and the 500 message is thrown |
| Retry.CandidateUrls | src/dataSources/carrierSources.js:76-79 | the feed URL comes first, and the reader-proxy mirror is added exactly for Google News RSS URLs |
| Retry.MirrorStep | src/dataSources/carrierSources.js:83-90 | one candidate either yields the text, which ends the loop, or fails, and the loop moves to the next candidate |
| Retry.FirstTextFrom | src/dataSources/carrierSources.js:83-90 | the candidate loop from candidate `i` on; its contract is stated by `FirstTextFromCandidate` and `MirrorStep` |
| Retry.FirstText | src/dataSources/carrierSources.js:81-90 | the candidate loop with three attempts per URL; its contract is stated by `FirstTextLaws` |
| Retry.FirstTextLoop | src/dataSources/carrierSources.js:81-90 | the candidate loop computes `FirstTextFrom`: the first text, the requests made and the back-offs |
| Retry.FetchFirstText | src/dataSources/carrierSources.js:81-90 | the candidate loop with three attempts per URL computes `FirstText` |
| Retry.FirstTextLaws | src/dataSources/carrierSources.js:83-90 | at most three requests per candidate; a later candidate is requested only after the earlier one failed; with no text, exactly three requests per candidate |
| Retry.FirstTextFromCandidate | src/dataSources/carrierSources.js:83-90 | a text that was obtained is the body of an OK, marker-free response to one of the candidates |
| Carrier.FeedsCandidates | src/dataSources/carrierSources.js:7-33 | exactly the three Google News feeds (the second to fourth) get a mirror candidate |
| Carrier.ParseRssLoop | src/dataSources/carrierSources.js:132-165 | the `exec` loop computes `parseRSS` |
| Carrier.ParseItem | src/dataSources/carrierSources.js:140-162 | one item block: the four tags, the date when `pubDate` is present, and an item only with a title and a link; its contract is stated by `ParseBlocksLaws` and `EmptyCDataTitleThrows` |
| Carrier.ParseBlocks | src/dataSources/carrierSources.js:137-163 | the items of the blocks in order, or the first throw; its contract is stated by `ParseBlocksLaws` and `ParseBlocksCons` |
| Carrier.ParseRss | src/dataSources/carrierSources.js:132-165 | `parseRSS`; its contract is stated by `ParseBlocksLaws` and `EmptyCDataTitleThrows`, and `ParseRssLoop` computes it |
| Carrier.ParseWith | src/dataSources/carrierSources.js:133-164 | the loop pushes the items of the blocks in document order and throws with the first block that throws |
| Carrier.ParseTurn | src/dataSources/carrierSources.js:137-162 | one turn of the loop on the document keeps its account of what remains to parse |
| Carrier.ParseStep | src/dataSources/carrierSources.js:146-162 | a block that throws decides the outcome; otherwise its item is pushed when it has one |
| Carrier.ParseBlocksCons | src/dataSources/carrierSources.js:137-163 | parsing a block followed by more gives that block's item, then their items |
| Carrier.ParseBlocksLaws | src/dataSources/carrierSources.js:146-162 | every emitted item has a non-empty title and link; parsing succeeds exactly when no block throws; there is at most one item per block |
| Carrier.EmptyCDataTitleThrows | src/dataSources/carrierSources.js:143 | one item with an empty CDATA title makes `parseRSS` throw for the whole document |
| Carrier.ValidItems | src/dataSources/carrierSources.js:100-113 | no more records than items, and the record of every item whose date is present and inside the window |
| Carrier.ValidItemsOne | src/dataSources/carrierSources.js:100-113 | one item gives its record exactly when its date is present and inside the window, and nothing otherwise |
| Carrier.ValidItemsAppend | src/dataSources/carrierSources.js:100-113 | the records of two runs of items are those of the first run followed by those of the second, so the filter keeps the feed's order |
| Carrier.FeedStep | src/dataSources/carrierSources.js:66-120 | one turn of the feed loop appends that feed's items, requests and back-offs |
| Carrier.FetchFeed | src/dataSources/carrierSources.js:67-119 | one feed's body of the loop computes what the adapter's step for that feed defines |
| Carrier.FetchFeeds | src/dataSources/carrierSources.js:35-120 | the feed loop computes `Fetch`: the items of all feeds in feed order, with every request and back-off |
| Carrier.ValidItemsLaws | src/dataSources/carrierSources.js:100-113 | every record had a present date inside the window; id and url are the link; author and source are the feed name; the category is the feed's; each record is the record of a dated item, body included |
| Carrier.FeedContributionLaws | src/dataSources/carrierSources.js:92-115 | a feed adds nothing when no candidate yields a text or the text does not parse, and otherwise the records of its dated items; whatever it adds passed the filter and carries that feed's name |
| Carrier.FeedContribution | src/dataSources/carrierSources.js:92-115 | what one feed adds to `allItems`; its contract is stated by `FeedContributionLaws` |
| Carrier.FeedRunLaws | src/dataSources/carrierSources.js:76-115 | one feed adds only its own filtered records, after at most six requests |
| Carrier.FeedRun | src/dataSources/carrierSources.js:76-115 | one feed: the candidate loop, then parsing and filtering; its contract is stated by `FeedRunLaws` |
| Carrier.AdapterSound | src/dataSources/carrierSources.js:67-119 | the adapter's per-feed step adds only records of the feed it fetched, after at most six requests |
| Carrier.FetchFromLaws | src/dataSources/carrierSources.js:66-120 | every record from the remaining feeds comes from one of them; at most six requests per feed |
| Carrier.FetchFrom | src/dataSources/carrierSources.js:66-120 | the feeds from `i` on; its contract is stated by `FetchFromLaws` and `FeedStep` |
| Carrier.Fetch | src/dataSources/carrierSources.js:35-130 | `fetch`: the items of all feeds in feed order; its contract is stated by `FetchLaws` and `EmptyCDataDropsFeed`, and `FetchFeeds` computes it |
| Carrier.FetchLaws | src/dataSources/carrierSources.js:35-130 | every record of `fetch` passed the date filter of the feed whose name it carries; at most six requests per feed |
| Carrier.EmptyCDataDropsFeed | src/dataSources/carrierSources.js:97-119 | a feed whose document holds an item with an empty CDATA title adds nothing, and the loop goes on with the next feed |
| Carrier.Transform | src/dataSources/carrierSources.js:167-169 | `rawData.items \|\| []` throws on null or undefined, and otherwise returns the items or an empty array |
| Carrier.TransformOfFetched | src/dataSources/carrierSources.js:122-169 | `transform` hands back the fetched records unchanged and in order |
| SingleFeed.OrElse | src/dataSources/huawei.js:64-74 | `a \|\| b` on strings is one of the two, and is empty only when both are |
| SingleFeed.EntryFrom | src/dataSources/huawei.js:60-98 | the record of one item or none; its contract is stated by `EntryLaws`, `MissingElements` and `UnparsableDate` |
| SingleFeed.EntryLaws | src/dataSources/huawei.js:60-98 | the fallbacks of one item: the id is the guid, else the link; the body is `content:encoded`, else the description; the author is the first present author element, else the label; the source is the label; a kept item has a date in the window, which is the parsed date or else the current time |
| SingleFeed.MissingElements | src/dataSources/huawei.js:53-85 | a missing guid makes the link the id; a missing `content:encoded` makes the description the body; no author element makes the label the author; a missing `pubDate` drops the item |
| SingleFeed.UnparsableDate | src/dataSources/huawei.js:78-85 | a date that does not parse keeps the item with the current time here, while the carrier filter drops it |
| SingleFeed.Kept | src/dataSources/huawei.js:88-98 | no more records than outcomes |
| SingleFeed.Outcomes | src/dataSources/huawei.js:49-99 | one outcome per item block, in document order |
| SingleFeed.CollectEntries | src/dataSources/huawei.js:49-99 | the item loop pushes exactly the kept records, in document order |
| SingleFeed.FetchFeed | src/dataSources/huawei.js:4-114 | `fetch` computes `Fetch`: no request without an address; no items after a failed or non-OK request; otherwise the kept records |
| SingleFeed.KeptFromOutcomes | src/dataSources/huawei.js:88-98 | every kept record is the outcome of some block |
| SingleFeed.KeptAppend | src/dataSources/huawei.js:49-99 | records from consecutive runs of blocks are kept in document order |
| SingleFeed.KeptOne | src/dataSources/huawei.js:88-98 | one block gives its record exactly when it was kept |
| SingleFeed.EntriesFromBlocks | src/dataSources/huawei.js:49-99 | at most one record per block, and each record is the record of some block |
| SingleFeed.Entries | src/dataSources/huawei.js:49-99 | the records pushed for a run of item blocks; its contract is stated by `EntriesFromBlocks`, `KeptAppend` and `KeptOne` |
| SingleFeed.FetchLaws | src/dataSources/huawei.js:4-114 | no request and no items without an address; otherwise exactly one request, no items when it throws or is not OK, and else the kept records of the document's item blocks; every record is labelled with the source and dated inside the window |
| SingleFeed.Fetch | src/dataSources/huawei.js:4-114 | `fetch` up to the envelope; its contract is stated by `FetchLaws`, and `FetchFeed` computes it |
| SingleFeed.Transform | src/dataSources/huawei.js:115-135 | no records unless `rawData.items` is an array; otherwise one record per item |
| SingleFeed.UnifyStored | src/dataSources/huawei.js:115-131 | `transform` of a stored record gives its fields, the author as the authors label, and the body stripped and kept |
| SingleFeed.TransformOfFetched | src/dataSources/huawei.js:106-135 | `transform` of what `fetch` stored keeps every record, in order |
| Unified.Read | src/dataSources/reddit.js:117-129 | a property read throws exactly on null or undefined |
| Unified.AuthorNames | src/dataSources/reddit.js:128 | `authors.map(a => a.name)` throws exactly when some author is null or undefined, and otherwise gives each name in order |
| Unified.AuthorNamesSnoc | src/dataSources/reddit.js:128 | `map` over one more author gives the earlier names followed by that author's name |
| Unified.NameStrings | src/dataSources/reddit.js:128 | one printed name per author, in order, each printed as `join` prints it |
| Unified.AuthorsLabel | src/dataSources/reddit.js:128 | falsy authors give 'Unknown'; a truthy value that is not an array throws; an array succeeds exactly when no author is nullish and then gives a string, "" for an empty array |
| Unified.AuthorsLabelSnoc | src/dataSources/reddit.js:128 | one more author appends ", " and that author's printed name to the label, so an array gives its names joined by ", " |
| Unified.TwoAuthorsLabel | src/dataSources/reddit.js:128 | two authors named x and y are labelled "x, y" |
| Unified.OneAuthorLabel | src/dataSources/huawei.js:95-126 | the one-author list the adapters store is labelled with that author's name |
| Unified.UnifyItem | src/dataSources/reddit.js:121-133 | the unified record throws exactly on a null item or bad authors; otherwise the id, url, title and published date are copied, the type is the source type, the authors are the authors label, the body is `content_html \|\| ""` both kept and stripped, the source defaults to the adapter label, and missing authors give 'Unknown' |
| Unified.UnifyAll | src/dataSources/huawei.js:117-133 | one record per item in order, and a throw when any item throws |
| Reddit.Request | src/dataSources/reddit.js:43-55 | `publishedAfter` is present exactly when the cursor is truthy, and the cookie exactly when it is truthy |
| Reddit.PublishedAt | src/dataSources/reddit.js:71 | `entry.entries.publishedAt`, throwing when `entries` is missing; its contract is stated by `FilterEntries` and `FilterOne` |
| Reddit.FilterEntries | src/dataSources/reddit.js:71 | the kept entries are entries dated inside the window, and every entry dated inside the window is kept; reading the date throws for an entry without `entries` |
| Reddit.FilterOne | src/dataSources/reddit.js:71 | one entry is kept exactly when its date is in the window, and a missing `entries` throws |
| Reddit.FilterAppend | src/dataSources/reddit.js:71 | filtering two runs of entries gives the kept entries of the first followed by those of the second, so the page order is kept |
| Reddit.ToItems | src/dataSources/reddit.js:72-80 | one record per kept entry, in order |
| Reddit.ToItem | src/dataSources/reddit.js:72-80 | the record of one kept entry; its contract is stated by `ToItems` |
| Reddit.PageLaws | src/dataSources/reddit.js:69-85 | a page continues the crawl exactly when `data` is a non-empty array whose entries can be filtered and mapped; its records are then the mapped in-window entries, each in the window, and the cursor is the `publishedAt` of the page's last raw entry, kept or not |
| Reddit.PageOf | src/dataSources/reddit.js:69-85 | what a parsed page yields; its contract is stated by `PageLaws` |
| Reddit.WithTitleZh | src/dataSources/reddit.js:108-111 | every stored record gets `title_zh = title \|\| ""`, in order |
| Reddit.PageStep | src/dataSources/reddit.js:23-92 | one turn of the page loop: a stop ends the crawl with that request; a page adds its records and moves the cursor |
| Reddit.FetchPosts | src/dataSources/reddit.js:4-114 | the page loop sends the requests of `Fetch` and stores its records with `title_zh` |
| Reddit.CrawlRequests | src/dataSources/reddit.js:22-92 | at most one request per remaining page and at least one when a page remains; the first request carries the given cursor; every request names the list and carries the cookie |
| Reddit.CrawlFrom | src/dataSources/reddit.js:23-92 | the crawl from page `i` on; its contract is stated by `CrawlRequests`, `CrawlChain`, `CrawlStop`, `CrawlItems` and `CrawlInWindow` |
| Reddit.CrawlChain | src/dataSources/reddit.js:53-81 | each later request follows a page that continued the crawl, and carries that page's cursor |
| Reddit.CrawlStop | src/dataSources/reddit.js:65-89 | the crawl ends before its page budget only when its last request stopped it |
| Reddit.CrawlInWindow | src/dataSources/reddit.js:71-80 | every gathered record passed the recency test |
| Reddit.CrawlItems | src/dataSources/reddit.js:23-92 | the gathered records are the records of the pages that continued the crawl, in request order, and nothing of the page that stopped it |
| Reddit.TwoPages | src/dataSources/reddit.js:23-92 | a first page that continues and a second that stops give exactly the first page's records, after two requests and no third |
| Reddit.FetchLaws | src/dataSources/reddit.js:4-114 | no request without a list id; at most `fetchPages` requests; the first request has no `publishedAfter`; every record is in the window; the records are those of the pages that continued the crawl, in request order |
| Reddit.Fetch | src/dataSources/reddit.js:4-100 | `fetch` up to the post-map; its contract is stated by `FetchLaws`, and `FetchPosts` computes it |
| Reddit.Transform | src/dataSources/reddit.js:116-134 | missing data or items give nothing; truthy non-array items throw; otherwise one record per item |
| Reddit.UnifyStored | src/dataSources/reddit.js:121-133 | `transform` of a stored post gives its fields, with 'reddit' only as the default source |
| Reddit.TransformOfFetched | src/dataSources/reddit.js:94-133 | `transform` of what `fetch` stored keeps every record, in order |
| TaggingPrompt.Family | src/prompt/mindmapTaggingPrompt.js:10-32 | a top-level board with `c` sub-boards gives `c + 1` ids |
| TaggingPrompt.BoardsAreFamilies | src/prompt/mindmapTaggingPrompt.js:10-32 | the taxonomy is exactly the top-level boards 0 to 3, each followed by its sub-boards numbered from 1: 3, 5, 5 and 6 of them |
| TaggingPrompt.FamiliesStart | src/prompt/mindmapTaggingPrompt.js:10-32 | every id in a board's family starts with that board's digit |
| TaggingPrompt.FamiliesDistinct | src/prompt/mindmapTaggingPrompt.js:10-32 | ids built from families are pairwise distinct |
| TaggingPrompt.BoardIdsDistinct | src/prompt/mindmapTaggingPrompt.js:10-32 | the 23 board ids are pairwise distinct |
| TaggingPrompt.FieldOr | src/prompt/mindmapTaggingPrompt.js:68-73 | `it?.k ?? ""` is "" for a nullish field and the field otherwise |
| TaggingPrompt.RequestItem | src/prompt/mindmapTaggingPrompt.js:66-74 | a projected item has exactly the seven keys; the id is `String(it?.id ?? "")`, and the rest are copied or default to "" |
| TaggingPrompt.UserPayload | src/prompt/mindmapTaggingPrompt.js:60-79 | the payload is the fixed instruction and one projected item per input item, in order; a non-array counts as no items |
| TaggingPrompt.ProjectionForgets | src/prompt/mindmapTaggingPrompt.js:66-74 | two items that agree on the seven fields project to the same request |
| Tagging.StripFences | src/handlers/writeData.js:37 | removing fences never lengthens the reply |
| Tagging.StripFencesPlain | src/handlers/writeData.js:37 | a reply without backticks is left alone |
| Tagging.StripClosingFence | src/handlers/writeData.js:37 | a trailing "\n```" is removed |
| Tagging.FencedReply | src/handlers/writeData.js:37 | a reply wrapped as "```json\n" + body + "\n```" gives back the body |
| Tagging.TagsMap | src/handlers/writeData.js:46 | building the map succeeds exactly when no entry is nullish, and every key maps to an entry carrying that key |
| Tagging.LastEntryWins | src/handlers/writeData.js:46 | with duplicated ids, a key maps to the last entry that carries it |
| Tagging.AbsentKey | src/handlers/writeData.js:46-49 | a key no entry carries is not in the map |
| Tagging.MindmapTags | src/handlers/writeData.js:53-59 | the tags are exactly the five fields, copied from the reply entry |
| Tagging.AllSameOrTaggedAppend | src/handlers/writeData.js:48-66 | kept-or-tagged composes over concatenation |
| Tagging.Merge | src/handlers/writeData.js:48-64 | an item is kept, or gets `mindmap_tags` with nothing else changed |
| Tagging.TagBatch | src/handlers/writeData.js:20-72 | a failed call or reply passes the batch through unchanged |
| Tagging.TagBatchLaws | src/handlers/writeData.js:44-71 | a batch keeps its length and order, with each item kept or tagged |
| Tagging.TagOfReply | src/handlers/writeData.js:46-60 | an item whose key the reply carries receives that entry's five tag fields |
| Tagging.BatchTags | src/handlers/writeData.js:31-46 | the tags map of one reply, or none when the call, the parse or the reply fails; its contract is stated by `TagOfReply`, `UntaggedOfReply` and `AllCallsThrow` |
| Tagging.UntaggedOfReply | src/handlers/writeData.js:49-62 | an item whose key no entry carries is kept |
| Tagging.BatchesLaws | src/handlers/writeData.js:16-17 | the batches cut the items into consecutive non-empty pieces of `batchSize`; only the last may be shorter; there are ceil(n / batchSize) of them |
| Tagging.Batches | src/handlers/writeData.js:16-17 | the batches of the processed items; its contract is stated by `BatchesLaws` |
| Tagging.ModelTaggerKeepsItems | src/handlers/writeData.js:20-72 | a model call with its merge keeps every batch's items in place |
| Tagging.TaggedFromLaws | src/handlers/writeData.js:16-73 | tagging the batches keeps every item in its place, kept or tagged |
| Tagging.AllCallsThrow | src/handlers/writeData.js:69-72 | when every call throws, every batch passes through unchanged |
| Tagging.TagAllLaws | src/handlers/writeData.js:8-80 | the output has the input's length and order, each item kept or only tagged, and the items from `maxItems` on are untouched |
| Tagging.TagAll | src/handlers/writeData.js:8-80 | `tagItemsWithMindmap` as a function of the per-batch step; its contract is stated by `TagAllLaws`, `KeepingTagAll`, `ModelDown` and `NoBudgetNoTags` |
| Tagging.KeepingTagAll | src/handlers/writeData.js:13-80 | the same for any per-batch step that keeps its items |
| Tagging.ModelDown | src/handlers/writeData.js:69-80 | when every model call throws, the items come back as they went in |
| Tagging.NoBudgetNoTags | src/handlers/writeData.js:13-78 | with `maxItems` 0, nothing is tagged |
| Tagging.BatchStep | src/handlers/writeData.js:16-17 | the next batch is `slice(i, i + batchSize)`, followed by the batches after it |
| Tagging.TaggedStep | src/handlers/writeData.js:16-73 | one turn of the batch loop keeps the account of the items tagged and the calls made |
| Tagging.TagWith | src/handlers/writeData.js:8-80 | the loop computes `TagAll` with one call per batch, and none for an empty list |
| Tagging.TagItems | src/handlers/writeData.js:8-80 | `tagItemsWithMindmap` returns as many items as it was given, computed as `TagAll` with the model step, one call per batch |

## Left out

- Json.ToJsString: numbers are integers (`Json.JsValue` has `JNum(n: int)`). Fractional
  numbers, such as a fractional `confidence` or id in a reply, NaN and infinities, and the
  exponent form `String()` uses from 1e21 on are not modelled. The code copies such values
  through untouched, uses numbers otherwise only as ids, and leaves every other numeric
  computation to the oracles.
- Retry.Snippet: counts characters, while JavaScript's `slice` counts UTF-16 code units, so
  a body with characters outside the Basic Multilingual Plane is cut at a different place.
- I/O, logging and the time spent sleeping are not modelled. The back-off delays are kept
  as a ghost log. The random delay after each Reddit page (`Math.random() * 5000`) and the
  random user agents are left out.
- Request headers and bodies are left out: headers, `Accept` values, the cookie header text
  and the `JSON.stringify` text of the request and of the user prompt. The Reddit request is
  reduced to the list id, the cursor and whether a cookie is sent. The user prompt is the
  value before `JSON.stringify`.
- Request options beyond the URL are not modelled. The network oracle answers by request
  number and URL.
- The envelope constants are not modelled: version, title, home page and language. Only
  `items` is.
- `parseInt` of the environment is not modelled. The day window and the page budget are
  parameters. A value that does not parse (`NaN`) is not modelled.
- The prose of the system prompt is not modelled. Only its board taxonomy is:
  `TaggingPrompt.Boards`, and the source dimensions as a constant.
- Regular expressions are matched case-sensitively on tag names, although the source uses
  the `i` flag. The error marker is the exception: it is matched case-insensitively with
  ASCII folding.
- Date parsing, `toISOString`, `isDateWithinLastDays`, `stripHtml`, `JSON.parse` and the
  model call are oracles. Their behaviour is not modelled.
- A failing `res.text()` or `response.json()` is modelled as a thrown outcome of the
  request.
- Reddit's `response.json()` is an oracle giving the parsed page. Floating point and dates
  in the recency test are not modelled.
- Tagging.TagItems: requires `batchSize >= 1`. With 0 the source loops forever. With `NaN`
  it sends one empty batch and loses the processed items. Neither case is modelled.
- Tagging.TagItems: items are modelled as objects. The source can receive `null` items or
  a non-array `items`; those cases are not modelled. A `null` item makes
  `String(originalItem.id)` throw after part of the batch was pushed, which would
  duplicate items.
- Tagging.TagItems: `maxItems` is a natural number. A negative `slice` bound is not
  modelled.
- SingleFeed.FetchFeed: the exception that the outer `try` catches around the item loop
  cannot arise in the modelled code, so that `catch` is not modelled.
- The carrier adapter models `fetchTextWithRetry` twice:
  - `Retry.FetchTextWithRetry` proves the retry loop against `Retry.Retry`;
  - the mirror loop `Retry.FetchFirstText` uses `Retry.Retry` through `Retry.Retrier` rather
    than calling that method.
- `generateHtml` of every adapter and the other handlers of `src/handlers/writeData.js` are
  not part of this model.
