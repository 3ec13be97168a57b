/**
  The mind-map tagging batcher: the first `maxItems` items are cut into
  consecutive batches of `batchSize`, each batch is sent to the language model
  with the tagging prompts, and the tags of the reply are merged back into the
  batch's items by `String(id)`; a batch whose call or reply fails passes through
  unchanged, and the items beyond `maxItems` are appended untagged.

  The model call is the oracle `Ai`, answering call number `n` (from 0) for a
  user payload; `JSON.parse` is the oracle `JsonParse`.
*/
module Tagging {
  import opened Wrappers
  import opened Json
  import opened Text
  import opened Unified
  import opened TaggingPrompt

  /** `callAIModel` threw, or the value it resolved to. */
  datatype Reply = Threw | Replied(text: JsValue)

  type Ai = (nat, JsValue) -> Reply

  /** `JSON.parse`: `None` when it throws. */
  type JsonParse = string -> Option<JsValue>

  // ------------------------------------------------------------ code fences

  /** `text.replace(/```json\n?|\n?```/g, "")`: scanning left to right, at each
      position the first alternative that matches is removed and the scan goes on
      after it. */
  function StripFences(s: string): (r: string)
    ensures |r| <= |s|
    decreases |s|
  {
    if s == [] then []
    else if StartsWith(s, "```json") then
      if |s| > 7 && s[7] == '\n' then StripFences(s[8..]) else StripFences(s[7..])
    else if StartsWith(s, "\n```") then StripFences(s[4..])
    else if StartsWith(s, "```") then StripFences(s[3..])
    else [s[0]] + StripFences(s[1..])
  }

  predicate NoBacktick(s: string) {
    forall k :: 0 <= k < |s| ==> s[k] != '`'
  }

  /** Text without a backtick is left as it is. */
  lemma {:induction false} StripFencesPlain(s: string)
    requires NoBacktick(s)
    ensures StripFences(s) == s
    decreases |s|
  {
    if s != [] {
      assert !StartsWith(s, "```json") && !StartsWith(s, "```") && !StartsWith(s, "\n```") by {
        assert s[0] != '`';
        if |s| > 1 {
          assert s[1] != '`';
        }
      }
      StripFencesPlain(s[1..]);
    }
  }

  /** A closing fence after backtick-free text is removed and nothing else. */
  lemma {:induction false} StripClosingFence(body: string)
    requires NoBacktick(body)
    ensures StripFences(body + "\n```") == body
    decreases |body|
  {
    var s := body + "\n```";
    if body == [] {
      assert s == "\n```";
      assert s[4..] == [];
    } else {
      assert s[0] == body[0] && s[0] != '`';
      assert !StartsWith(s, "```json") && !StartsWith(s, "```");
      assert !StartsWith(s, "\n```") by {
        if |body| > 1 {
          assert s[1] == body[1];
        } else {
          assert s[1] == '\n';
        }
      }
      assert s[1..] == body[1..] + "\n```";
      StripClosingFence(body[1..]);
    }
  }

  /** A reply wrapped in a ```json fence is read as the text inside the fence. */
  lemma FencedReply(body: string)
    requires NoBacktick(body)
    ensures StripFences("```json\n" + body + "\n```") == body
  {
    var s := "```json\n" + body + "\n```";
    assert StartsWith(s, "```json") && s[7] == '\n';
    assert s[8..] == body + "\n```";
    StripClosingFence(body);
  }

  // ------------------------------------------------------------ tag merge

  /** The merge key `String(it.id)` of a reply entry. */
  function Key(entry: JsValue): string {
    ToJsString(OptProp(entry, "id"))
  }

  /** `new Map(items.map(it => [String(it.id), it]))`: later entries overwrite
      earlier ones with the same key; an entry that is null or undefined throws. */
  function TagsMap(entries: seq<JsValue>): (r: Result<map<string, JsValue>, JsError>)
    ensures r.Success? <==> forall k :: 0 <= k < |entries| ==> !IsNullish(entries[k])
    ensures r.Success? ==> forall key :: key in r.value ==> r.value[key] in entries && Key(r.value[key]) == key
    decreases |entries|
  {
    if entries == [] then Success(map[])
    else
      var m :- TagsMap(entries[..|entries| - 1]);
      var last := entries[|entries| - 1];
      if IsNullish(last) then Failure(ReadError(last, "id")) else Success(m[Key(last) := last])
  }

  /** With duplicated ids the last entry wins: a key maps to the last entry that
      carries it. */
  lemma {:induction false} LastEntryWins(entries: seq<JsValue>, j: nat)
    requires TagsMap(entries).Success?
    requires j < |entries|
    requires forall k :: j < k < |entries| ==> Key(entries[k]) != Key(entries[j])
    ensures Key(entries[j]) in TagsMap(entries).value
    ensures TagsMap(entries).value[Key(entries[j])] == entries[j]
    decreases |entries|
  {
    var init := entries[..|entries| - 1];
    if j < |entries| - 1 {
      assert forall k :: 0 <= k < |init| ==> init[k] == entries[k];
      LastEntryWins(init, j);
    }
  }

  /** A key that no entry carries is not in the map. */
  lemma {:induction false} AbsentKey(entries: seq<JsValue>, key: string)
    requires TagsMap(entries).Success?
    requires forall k :: 0 <= k < |entries| ==> Key(entries[k]) != key
    ensures key !in TagsMap(entries).value
  {
  }

  /** The five tag fields, copied from the reply entry. */
  const TagKeys: set<string> := {"primary_board_id", "secondary_board_ids", "source_dimension", "confidence", "reasons"}

  function MindmapTags(tagInfo: JsValue): (r: JsValue)
    ensures r.JObj? && r.props.Keys == TagKeys
    ensures forall k :: k in TagKeys ==> r.props[k] == OptProp(tagInfo, k)
  {
    JObj(map[
      "primary_board_id" := OptProp(tagInfo, "primary_board_id"),
      "secondary_board_ids" := OptProp(tagInfo, "secondary_board_ids"),
      "source_dimension" := OptProp(tagInfo, "source_dimension"),
      "confidence" := OptProp(tagInfo, "confidence"),
      "reasons" := OptProp(tagInfo, "reasons")])
  }

  /** `out` is `orig`, or `orig` with `mindmap_tags` set and nothing else changed. */
  predicate SameOrTagged(orig: Obj, out: Obj) {
    out == orig || ("mindmap_tags" in out && out == orig["mindmap_tags" := out["mindmap_tags"]])
  }

  /** `out` is `orig` item by item, each item kept or tagged. */
  predicate AllSameOrTagged(orig: seq<Obj>, out: seq<Obj>) {
    |out| == |orig| && forall k :: 0 <= k < |orig| ==> SameOrTagged(orig[k], out[k])
  }

  lemma AllSameOrTaggedAppend(a: seq<Obj>, b: seq<Obj>, c: seq<Obj>, d: seq<Obj>)
    requires AllSameOrTagged(a, c) && AllSameOrTagged(b, d)
    ensures AllSameOrTagged(a + b, c + d)
  {
    forall k | 0 <= k < |a + b|
      ensures SameOrTagged((a + b)[k], (c + d)[k])
    {
      if k >= |a| {
        assert (a + b)[k] == b[k - |a|] && (c + d)[k] == d[k - |a|];
      } else {
        assert (a + b)[k] == a[k] && (c + d)[k] == c[k];
      }
    }
  }

  /** The merge key `String(originalItem.id)` of an item. */
  function ItemKey(item: Obj): string {
    ToJsString(Get(item, "id"))
  }

  /** One item of a batch whose reply parsed: tagged when the map holds a truthy
      entry under its key, otherwise kept as it is. */
  function Merge(m: map<string, JsValue>, item: Obj): (r: Obj)
    ensures SameOrTagged(item, r)
  {
    var key := ItemKey(item);
    if key in m && Truthy(m[key]) then item["mindmap_tags" := MindmapTags(m[key])] else item
  }

  // ------------------------------------------------------------ one batch

  /** The tag map of a batch, or `None` when the batch passes through: the call
      threw, the reply is not a string (so `replace` throws and the inner `catch`
      leaves `aiResponse` null), `JSON.parse` threw, the parsed value is falsy or
      has no `items` array, or building the map threw. */
  function BatchTags(reply: Reply, parse: JsonParse): Option<map<string, JsValue>> {
    if reply.Threw? || !reply.text.JStr? then None
    else
      match parse(Trim(StripFences(reply.text.s)))
      case None => None
      case Some(response) =>
        var items := OptProp(response, "items");
        if !Truthy(response) || !items.JArr? then None
        else
          match TagsMap(items.elems)
          case Failure(_) => None
          case Success(m) => Some(m)
  }

  /** What a batch contributes to `taggedItems`. */
  function TagBatch(reply: Reply, parse: JsonParse, batch: seq<Obj>): (r: seq<Obj>)
    ensures BatchTags(reply, parse).None? ==> r == batch
  {
    match BatchTags(reply, parse)
    case None => batch
    case Some(m) => seq(|batch|, k requires 0 <= k < |batch| => Merge(m, batch[k]))
  }

  /** A batch keeps its length and order, each item kept or tagged. */
  lemma TagBatchLaws(reply: Reply, parse: JsonParse, batch: seq<Obj>)
    ensures AllSameOrTagged(batch, TagBatch(reply, parse, batch))
  {
  }

  /** The tags an item of a batch receives: when the reply parses to an `items`
      array without null entries, an item whose key the reply carries is tagged
      with the five fields of the last entry carrying it (if that entry is truthy);
      an item whose key no entry carries is kept. */
  lemma TagOfReply(reply: Reply, parse: JsonParse, batch: seq<Obj>, i: nat, j: nat)
    requires i < |batch|
    requires reply.Replied? && reply.text.JStr?
    requires var v := parse(Trim(StripFences(reply.text.s)));
      v.Some? && Truthy(v.value) && OptProp(v.value, "items").JArr?
    requires var entries := OptProp(parse(Trim(StripFences(reply.text.s))).value, "items").elems;
      && (forall k :: 0 <= k < |entries| ==> !IsNullish(entries[k]))
      && j < |entries| && Key(entries[j]) == ItemKey(batch[i]) && Truthy(entries[j])
      && (forall k :: j < k < |entries| ==> Key(entries[k]) != Key(entries[j]))
    ensures var entries := OptProp(parse(Trim(StripFences(reply.text.s))).value, "items").elems;
      TagBatch(reply, parse, batch)[i] == batch[i]["mindmap_tags" := MindmapTags(entries[j])]
  {
    var entries := OptProp(parse(Trim(StripFences(reply.text.s))).value, "items").elems;
    LastEntryWins(entries, j);
  }

  lemma UntaggedOfReply(reply: Reply, parse: JsonParse, batch: seq<Obj>, i: nat)
    requires i < |batch|
    requires reply.Replied? && reply.text.JStr?
    requires var v := parse(Trim(StripFences(reply.text.s)));
      v.Some? && Truthy(v.value) && OptProp(v.value, "items").JArr?
    requires var entries := OptProp(parse(Trim(StripFences(reply.text.s))).value, "items").elems;
      forall k :: 0 <= k < |entries| ==> Key(entries[k]) != ItemKey(batch[i])
    ensures TagBatch(reply, parse, batch)[i] == batch[i]
  {
    var entries := OptProp(parse(Trim(StripFences(reply.text.s))).value, "items").elems;
    if TagsMap(entries).Success? {
      AbsentKey(entries, ItemKey(batch[i]));
    }
  }

  // ------------------------------------------------------------ batching

  /** `slice(i, i + batchSize)` for `i = 0, batchSize, 2 * batchSize, ...` while
      `i` is below the length. */
  function Batches(s: seq<Obj>, size: nat): seq<seq<Obj>>
    requires size >= 1
    decreases |s|
  {
    if s == [] then []
    else if |s| <= size then [s]
    else [s[..size]] + Batches(s[size..], size)
  }

  function Flatten(batches: seq<seq<Obj>>): seq<Obj> {
    if batches == [] then [] else batches[0] + Flatten(batches[1..])
  }

  /** The batches cut the sequence into consecutive non-empty pieces of `size`
      items, only the last of which may be shorter; there are ceil(|s| / size) of
      them. */
  lemma {:induction false} BatchesLaws(s: seq<Obj>, size: nat)
    requires size >= 1
    ensures var b := Batches(s, size);
      && Flatten(b) == s
      && (forall k :: 0 <= k < |b| ==> 0 < |b[k]| <= size)
      && (forall k :: 0 <= k < |b| - 1 ==> |b[k]| == size)
      && (s == [] <==> b == [])
      && (s != [] ==> (|b| - 1) * size < |s| <= |b| * size)
    decreases |s|
  {
    var b := Batches(s, size);
    if s != [] && |s| > size {
      var rest := Batches(s[size..], size);
      BatchesLaws(s[size..], size);
      assert b == [s[..size]] + rest;
      assert b[1..] == rest;
      assert s[..size] + s[size..] == s;
      forall k | 0 <= k < |b|
        ensures 0 < |b[k]| <= size
      {
        if k > 0 {
          assert b[k] == rest[k - 1];
        }
      }
      forall k | 0 <= k < |b| - 1
        ensures |b[k]| == size
      {
        if k > 0 {
          assert b[k] == rest[k - 1];
        }
      }
      assert (|b| - 1) * size == (|rest| - 1) * size + size;
      assert |b| * size == |rest| * size + size;
    } else if s != [] {
      assert b[1..] == [];
      assert s + [] == s;
    }
  }

  /** The user payload of a batch. */
  function BatchPayload(batch: seq<Obj>): JsValue {
    UserPayload(JArr(seq(|batch|, k requires 0 <= k < |batch| => JObj(batch[k]))))
  }

  /** What the loop does with batch number `n`: the batch as it goes into
      `taggedItems`. */
  type Tagger = (nat, seq<Obj>) -> seq<Obj>

  /** The tagger of the batcher: call the model with the batch's payload and merge
      its reply. */
  function ModelTagger(ai: Ai, parse: JsonParse): Tagger {
    (n: nat, batch: seq<Obj>) => TagBatch(ai(n, BatchPayload(batch)), parse, batch)
  }

  /** A tagger that keeps every batch's items in place, each kept or tagged. */
  ghost predicate KeepsItems(tag: Tagger) {
    forall n: nat, batch: seq<Obj> :: AllSameOrTagged(batch, tag(n, batch))
  }

  lemma ModelTaggerKeepsItems(ai: Ai, parse: JsonParse)
    ensures KeepsItems(ModelTagger(ai, parse))
  {
    forall n: nat, batch: seq<Obj>
      ensures AllSameOrTagged(batch, ModelTagger(ai, parse)(n, batch))
    {
      TagBatchLaws(ai(n, BatchPayload(batch)), parse, batch);
    }
  }

  /** The batches from call number `n` on, each through the tagger. */
  function TaggedFrom(tag: Tagger, batches: seq<seq<Obj>>, n: nat): seq<Obj> {
    if batches == [] then [] else tag(n, batches[0]) + TaggedFrom(tag, batches[1..], n + 1)
  }

  /** Tagging keeps every item of every batch in its place. */
  lemma {:induction false} TaggedFromLaws(tag: Tagger, batches: seq<seq<Obj>>, n: nat)
    requires KeepsItems(tag)
    ensures AllSameOrTagged(Flatten(batches), TaggedFrom(tag, batches, n))
    decreases |batches|
  {
    if batches != [] {
      TaggedFromLaws(tag, batches[1..], n + 1);
      AllSameOrTaggedAppend(batches[0], Flatten(batches[1..]), tag(n, batches[0]), TaggedFrom(tag, batches[1..], n + 1));
    }
  }

  /** When every call throws, every batch passes through unchanged. */
  lemma {:induction false} AllCallsThrow(ai: Ai, parse: JsonParse, batches: seq<seq<Obj>>, n: nat)
    requires forall m: nat, v: JsValue :: ai(m, v) == Threw
    ensures TaggedFrom(ModelTagger(ai, parse), batches, n) == Flatten(batches)
    decreases |batches|
  {
    if batches != [] {
      assert ai(n, BatchPayload(batches[0])) == Threw;
      AllCallsThrow(ai, parse, batches[1..], n + 1);
    }
  }

  // ------------------------------------------------------------ the batcher

  function Min(a: nat, b: nat): nat {
    if a <= b then a else b
  }

  /** `tagItemsWithMindmap(env, items)`: an empty list is returned as it is;
      otherwise the batches of the first `maxItems` items, each through the
      tagger, followed by the remaining items untouched. */
  function TagAll(tag: Tagger, items: seq<Obj>, batchSize: nat, maxItems: nat): seq<Obj>
    requires batchSize >= 1
  {
    if items == [] then items
    else
      var processed := items[..Min(maxItems, |items|)];
      TaggedFrom(tag, Batches(processed, batchSize), 0) +
      (if |items| > maxItems then items[maxItems..] else [])
  }

  /** The output has as many items as the input, in the same order: each is the
      input item or that item with only `mindmap_tags` added, and the items from
      `maxItems` on are untouched. */
  lemma TagAllLaws(ai: Ai, parse: JsonParse, items: seq<Obj>, batchSize: nat, maxItems: nat)
    requires batchSize >= 1
    ensures AllSameOrTagged(items, TagAll(ModelTagger(ai, parse), items, batchSize, maxItems))
    ensures var r := TagAll(ModelTagger(ai, parse), items, batchSize, maxItems);
      forall k :: maxItems <= k < |items| ==> r[k] == items[k]
  {
    ModelTaggerKeepsItems(ai, parse);
    KeepingTagAll(ModelTagger(ai, parse), items, batchSize, maxItems);
  }

  /** The same for any tagging of a batch that keeps its items. */
  lemma KeepingTagAll(tag: Tagger, items: seq<Obj>, batchSize: nat, maxItems: nat)
    requires batchSize >= 1 && KeepsItems(tag)
    ensures AllSameOrTagged(items, TagAll(tag, items, batchSize, maxItems))
    ensures var r := TagAll(tag, items, batchSize, maxItems);
      forall k :: maxItems <= k < |items| ==> r[k] == items[k]
  {
    if items != [] {
      var processed := items[..Min(maxItems, |items|)];
      var batches := Batches(processed, batchSize);
      BatchesLaws(processed, batchSize);
      TaggedFromLaws(tag, batches, 0);
      var tagged := TaggedFrom(tag, batches, 0);
      var tail := if |items| > maxItems then items[maxItems..] else [];
      assert AllSameOrTagged(tail, tail);
      AllSameOrTaggedAppend(processed, tail, tagged, tail);
      assert processed + tail == items;
      var r := tagged + tail;
      forall k | maxItems <= k < |items|
        ensures r[k] == items[k]
      {
        assert r[k] == tail[k - maxItems];
      }
    }
  }

  /** When every call throws, the items come back as they went in. */
  lemma ModelDown(ai: Ai, parse: JsonParse, items: seq<Obj>, batchSize: nat, maxItems: nat)
    requires batchSize >= 1
    requires forall m: nat, v: JsValue :: ai(m, v) == Threw
    ensures TagAll(ModelTagger(ai, parse), items, batchSize, maxItems) == items
  {
    if items != [] {
      var processed := items[..Min(maxItems, |items|)];
      BatchesLaws(processed, batchSize);
      AllCallsThrow(ai, parse, Batches(processed, batchSize), 0);
      if |items| > maxItems {
        assert processed + items[maxItems..] == items;
      } else {
        assert processed + [] == items;
      }
    }
  }

  /** With `maxItems` 0 nothing is tagged. */
  lemma NoBudgetNoTags(tag: Tagger, items: seq<Obj>, batchSize: nat)
    requires batchSize >= 1
    ensures TagAll(tag, items, batchSize, 0) == items
  {
    if items != [] {
      assert items[..0] == [];
      assert [] + items[0..] == items;
    }
  }

  lemma Associative(a: seq<Obj>, b: seq<Obj>, c: seq<Obj>)
    ensures a + (b + c) == (a + b) + c
  {
  }

  /** The items from index `i` on; none once `i` has passed the end. */
  function Remaining(s: seq<Obj>, i: nat): (r: seq<Obj>)
    ensures i <= |s| ==> r == s[i..]
    ensures i >= |s| ==> r == []
  {
    if i <= |s| then s[i..] else []
  }

  /** One turn of the batch loop: the next batch is `slice(i, i + batchSize)`. */
  lemma BatchStep(processed: seq<Obj>, size: nat, i: nat)
    requires size >= 1 && i < |processed|
    ensures Batches(Remaining(processed, i), size) ==
      [processed[i..Min(i + size, |processed|)]] + Batches(Remaining(processed, i + size), size)
  {
    var s := processed[i..];
    if |s| <= size {
      assert s == processed[i..Min(i + size, |processed|)];
      assert Remaining(processed, i + size) == [];
    } else {
      assert s[..size] == processed[i..i + size];
      assert s[size..] == processed[i + size..];
    }
  }

  /** One turn of the loop keeps its account: what is tagged so far followed by
      the tagging of the batches still to do is the whole result, and the calls
      made plus the batches still to do are all the batches. */
  lemma TaggedStep(tag: Tagger, processed: seq<Obj>, size: nat, i: nat, n: nat, all: seq<Obj>, tagged: seq<Obj>)
    requires size >= 1 && i < |processed|
    requires all == tagged + TaggedFrom(tag, Batches(Remaining(processed, i), size), n)
    requires |Batches(processed, size)| == n + |Batches(Remaining(processed, i), size)|
    ensures var batch := processed[i..Min(i + size, |processed|)];
      all == (tagged + tag(n, batch)) + TaggedFrom(tag, Batches(Remaining(processed, i + size), size), n + 1)
    ensures |Batches(processed, size)| == (n + 1) + |Batches(Remaining(processed, i + size), size)|
  {
    var batch := processed[i..Min(i + size, |processed|)];
    var rest := Batches(Remaining(processed, i + size), size);
    BatchStep(processed, size, i);
    var todo := Batches(Remaining(processed, i), size);
    assert todo[0] == batch && todo[1..] == rest;
    var here := tag(n, batch);
    var later := TaggedFrom(tag, rest, n + 1);
    assert TaggedFrom(tag, todo, n) == here + later;
    Associative(tagged, here, later);
  }

  /** The `for (let i = 0; i < processedItems.length; i += batchSize)` loop and
      the tail, for any per-batch step; `calls` counts the batches, one model
      call each. */
  method TagWith(tag: Tagger, items: seq<Obj>, batchSize: nat, maxItems: nat)
    returns (tagged: seq<Obj>, calls: nat)
    requires batchSize >= 1
    ensures tagged == TagAll(tag, items, batchSize, maxItems)
    ensures items != [] ==> calls == |Batches(items[..Min(maxItems, |items|)], batchSize)|
    ensures items == [] ==> calls == 0
  {
    if items == [] {
      return items, 0;
    }
    var processed := items[..Min(maxItems, |items|)];
    ghost var all := TaggedFrom(tag, Batches(processed, batchSize), 0);
    tagged := [];
    calls := 0;
    var i: nat := 0;
    assert Remaining(processed, 0) == processed;
    assert [] + all == all;
    while i < |processed|
      invariant all == tagged + TaggedFrom(tag, Batches(Remaining(processed, i), batchSize), calls)
      invariant |Batches(processed, batchSize)| == calls + |Batches(Remaining(processed, i), batchSize)|
      decreases |processed| - i
    {
      var batch := processed[i..Min(i + batchSize, |processed|)];
      TaggedStep(tag, processed, batchSize, i, calls, all, tagged);
      tagged := tagged + tag(calls, batch);
      calls := calls + 1;
      i := i + batchSize;
    }
    assert Batches(Remaining(processed, i), batchSize) == [];
    assert tagged + [] == tagged;
    if |items| > maxItems {
      tagged := tagged + items[maxItems..];
    } else {
      assert tagged + [] == tagged;
    }
  }

  /** `tagItemsWithMindmap` with the model call and merge as the per-batch step. */
  method TagItems(ai: Ai, parse: JsonParse, items: seq<Obj>, batchSize: nat, maxItems: nat)
    returns (tagged: seq<Obj>, calls: nat)
    requires batchSize >= 1
    ensures tagged == TagAll(ModelTagger(ai, parse), items, batchSize, maxItems)
    ensures |tagged| == |items|
    ensures items != [] ==> calls == |Batches(items[..Min(maxItems, |items|)], batchSize)|
  {
    tagged, calls := TagWith(ModelTagger(ai, parse), items, batchSize, maxItems);
    TagAllLaws(ai, parse, items, batchSize, maxItems);
  }
}
