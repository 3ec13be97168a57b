/**
  The unified news record that the `transform` of the single-feed and Reddit
  adapters builds from each stored feed item, with the `authors` label and the
  `||` defaults they share. Each adapter supplies its own guard on `rawData` and
  its own default source.
*/
module Unified {
  import opened Wrappers
  import opened Json

  /** `{ id, type, url, title, description, published_date, authors, source,
      details: { content_html } }`. */
  datatype UnifiedItem = UnifiedItem(
    id: JsValue, kind: JsValue, url: JsValue, title: JsValue, description: JsValue,
    publishedDate: JsValue, authors: JsValue, source: JsValue, contentHtml: JsValue)

  /** The `stripHtml` helper, which is not part of this model. */
  type StripHtml = JsValue -> JsValue

  /** The TypeError of reading property `k` of null or undefined. */
  function ReadError(v: JsValue, k: string): JsError {
    TypeError("Cannot read properties of " + ToJsString(v) + " (reading '" + k + "')")
  }

  /** `v.k` where reading from null or undefined throws. */
  function Read(v: JsValue, k: string): (r: Result<JsValue, JsError>)
    ensures r.Failure? <==> IsNullish(v)
    ensures r.Success? ==> r.value == OptProp(v, k)
  {
    if IsNullish(v) then Failure(ReadError(v, k)) else Success(OptProp(v, k))
  }

  /** `authors.map(a => a.name)`: fails at the first author that is null or undefined. */
  function AuthorNames(authors: seq<JsValue>): (r: Result<seq<JsValue>, JsError>)
    ensures r.Success? ==> |r.value| == |authors|
    ensures r.Success? ==> forall k :: 0 <= k < |authors| ==> r.value[k] == OptProp(authors[k], "name")
    ensures r.Success? <==> forall k :: 0 <= k < |authors| ==> !IsNullish(authors[k])
  {
    if authors == [] then Success([])
    else if IsNullish(authors[0]) then Failure(ReadError(authors[0], "name"))
    else
      var rest :- AuthorNames(authors[1..]);
      Success([OptProp(authors[0], "name")] + rest)
  }

  /** How `join` prints each name. */
  function NameStrings(names: seq<JsValue>): (r: seq<string>)
    ensures |r| == |names|
    ensures forall k :: 0 <= k < |names| ==> r[k] == JoinElement(names[k])
  {
    seq(|names|, k requires 0 <= k < |names| => JoinElement(names[k]))
  }

  /** `authors ? authors.map(a => a.name).join(', ') : 'Unknown'`. Only an array
      has `map`; any other truthy value makes the call throw. */
  function AuthorsLabel(authors: JsValue): (r: Result<JsValue, JsError>)
    ensures !Truthy(authors) ==> r == Success(JStr("Unknown"))
    ensures Truthy(authors) && !authors.JArr? ==> r.Failure?
    ensures authors.JArr? ==>
      (r.Success? <==> forall k :: 0 <= k < |authors.elems| ==> !IsNullish(authors.elems[k]))
    ensures r.Success? ==> r.value.JStr?
    ensures authors == JArr([]) ==> r == Success(JStr(""))
  {
    if !Truthy(authors) then Success(JStr("Unknown"))
    else if !authors.JArr? then Failure(TypeError("authors.map is not a function"))
    else
      var names :- AuthorNames(authors.elems);
      Success(JStr(Join(NameStrings(names), ", ")))
  }

  /** A one-author list, as the adapters store it, is labelled with that author's
      name; a missing name prints as the empty string. */
  lemma OneAuthorLabel(name: JsValue)
    ensures AuthorsLabel(JArr([JObj(map["name" := name])])) ==
            Success(JStr(if IsNullish(name) then "" else ToJsString(name)))
  {
    var a := JObj(map["name" := name]);
    assert OptProp(a, "name") == name;
    assert AuthorNames([a]) == Success([name]) by {
      assert [a][1..] == [];
      assert [name] + [] == [name];
    }
    assert NameStrings([name]) == [JoinElement(name)];
  }

  /** `map` over one more author gives one more name at the end. */
  lemma AuthorNamesSnoc(elems: seq<JsValue>, a: JsValue)
    requires AuthorNames(elems).Success? && !IsNullish(a)
    ensures AuthorNames(elems + [a]) == Success(AuthorNames(elems).value + [OptProp(a, "name")])
  {
    var all := elems + [a];
    forall k | 0 <= k < |all| ensures !IsNullish(all[k]) {
      if k < |elems| {
        assert all[k] == elems[k];
      }
    }
    var names := AuthorNames(elems).value + [OptProp(a, "name")];
    var r := AuthorNames(all);
    assert r.Success?;
    forall k | 0 <= k < |all| ensures r.value[k] == names[k] {
      if k < |elems| {
        assert all[k] == elems[k];
      }
    }
    assert r.value == names;
  }

  /** The names of a list of authors are printed with ", " between each two: one
      more author adds a separator and that author's name, a missing name
      printing as the empty string. */
  lemma AuthorsLabelSnoc(elems: seq<JsValue>, a: JsValue)
    requires |elems| >= 1 && !IsNullish(a)
    requires AuthorsLabel(JArr(elems)).Success?
    ensures AuthorsLabel(JArr(elems + [a])) ==
            Success(JStr(AuthorsLabel(JArr(elems)).value.s + ", " + JoinElement(OptProp(a, "name"))))
  {
    var names := AuthorNames(elems).value;
    var n := OptProp(a, "name");
    AuthorNamesSnoc(elems, a);
    var printed := NameStrings(names);
    assert NameStrings(names + [n]) == printed + [JoinElement(n)];
    JoinSnoc(printed, JoinElement(n), ", ");
  }

  /** Two authors are labelled with their names separated by ", ". */
  lemma TwoAuthorsLabel(x: string, y: string)
    ensures AuthorsLabel(JArr([JObj(map["name" := JStr(x)]), JObj(map["name" := JStr(y)])])) == Success(JStr(x + ", " + y))
  {
    var a := JObj(map["name" := JStr(x)]);
    var b := JObj(map["name" := JStr(y)]);
    OneAuthorLabel(JStr(x));
    AuthorsLabelSnoc([a], b);
    assert [a] + [b] == [a, b];
    assert OptProp(b, "name") == JStr(y);
  }

  /** The record built for one stored item, or the TypeError it raises: the type is
      the caller's source type, the description is the stripped HTML body, the
      source falls back to the adapter's default and the body to the empty string;
      it fails exactly when the item is null or undefined or its authors cannot be
      labelled. */
  function UnifyItem(item: JsValue, sourceType: JsValue, defaultSource: string, strip: StripHtml): (r: Result<UnifiedItem, JsError>)
    ensures r.Failure? <==> IsNullish(item) || AuthorsLabel(OptProp(item, "authors")).Failure?
    ensures r.Success? ==>
      && r.value.kind == sourceType
      && r.value.id == OptProp(item, "id")
      && r.value.url == OptProp(item, "url")
      && r.value.title == OptProp(item, "title")
      && r.value.publishedDate == OptProp(item, "date_published")
      && r.value.authors == AuthorsLabel(OptProp(item, "authors")).value
      && r.value.description == strip(r.value.contentHtml)
      && (Truthy(OptProp(item, "content_html")) ==> r.value.contentHtml == OptProp(item, "content_html"))
      && (!Truthy(OptProp(item, "content_html")) ==> r.value.contentHtml == JStr(""))
      && (Truthy(OptProp(item, "source")) ==> r.value.source == OptProp(item, "source"))
      && (!Truthy(OptProp(item, "source")) ==> r.value.source == JStr(defaultSource))
      && (!Truthy(OptProp(item, "authors")) ==> r.value.authors == JStr("Unknown"))
  {
    if IsNullish(item) then Failure(ReadError(item, "id"))
    else
      var html := Or(OptProp(item, "content_html"), JStr(""));
      var authors :- AuthorsLabel(OptProp(item, "authors"));
      Success(UnifiedItem(
        OptProp(item, "id"), sourceType, OptProp(item, "url"), OptProp(item, "title"), strip(html),
        OptProp(item, "date_published"), authors, Or(OptProp(item, "source"), JStr(defaultSource)), html))
  }

  /** When every item gives its expected record, the whole list gives those records. */
  lemma UnifyAllExact(items: seq<JsValue>, expected: seq<UnifiedItem>, sourceType: JsValue, defaultSource: string, strip: StripHtml)
    requires |items| == |expected|
    requires forall k :: 0 <= k < |items| ==> UnifyItem(items[k], sourceType, defaultSource, strip) == Success(expected[k])
    ensures UnifyAll(items, sourceType, defaultSource, strip) == Success(expected)
  {
    var r := UnifyAll(items, sourceType, defaultSource, strip);
    assert r.Success?;
    assert r.value == expected;
  }

  /** `items.map(...)` (or `forEach` with `push`): the records in order, or the
      first TypeError. */
  function UnifyAll(items: seq<JsValue>, sourceType: JsValue, defaultSource: string, strip: StripHtml): (r: Result<seq<UnifiedItem>, JsError>)
    ensures r.Success? <==> forall k :: 0 <= k < |items| ==> UnifyItem(items[k], sourceType, defaultSource, strip).Success?
    ensures r.Success? ==> |r.value| == |items|
    ensures r.Success? ==> forall k :: 0 <= k < |items| ==> r.value[k] == UnifyItem(items[k], sourceType, defaultSource, strip).value
  {
    if items == [] then Success([])
    else
      var first :- UnifyItem(items[0], sourceType, defaultSource, strip);
      var rest :- UnifyAll(items[1..], sourceType, defaultSource, strip);
      Success([first] + rest)
  }
}
