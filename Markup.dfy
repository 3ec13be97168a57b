/**
  The regular-expression parsing of RSS 2.0 documents that the syndication
  adapters share, stated as searches for literal markers:

  - item blocks: `<item ...>` up to the first `</item>` after it (the carrier
    adapter's `<item[\s\S]*?>` and the single-feed adapters' `<item[^>]*>` select
    the same blocks: the opening tag ends at the first `>` in both);
  - the carrier adapter's `extractTag`, one regular expression with a CDATA
    alternative and a plain alternative, followed by `trim`;
  - the single-feed adapters' `extractCDATA`, a CDATA-only expression searched
    first, then the plain expression, untrimmed.

  Tag names are matched case-sensitively here (see README, "Left out").
*/
module Markup {
  import opened Wrappers
  import opened Json
  import opened Text

  const ItemOpen: string := "<item"
  const ItemClose: string := "</item>"
  const CDataOpen: string := "<![CDATA["
  const CDataClose: string := "]]>"

  function OpenTag(tag: string): string { "<" + tag }
  function CloseTag(tag: string): string { "</" + tag + ">" }

  /** What ends a CDATA-wrapped element: `]]></tag>`. */
  function CDataEnd(tag: string): string { CDataClose + CloseTag(tag) }

  /** An element name the extraction expressions can be built from. */
  predicate TagName(tag: string) {
    tag != [] && '<' !in tag && '>' !in tag && '/' !in tag
  }

  // ---------------------------------------------------------------- item blocks

  /** The next match of the item expression at or after `from`: the bounds of the
      captured content. */
  function ItemMatch(s: string, from: nat): (r: Option<(nat, nat)>)
    ensures r.Some? ==> from + |ItemOpen| < r.value.0 <= r.value.1
    ensures r.Some? ==> r.value.1 + |ItemClose| <= |s|
  {
    match Find(s, ItemOpen, from)
    case None => None
    case Some(i) =>
      match Find(s, ">", i + |ItemOpen|)
      case None => None
      case Some(j) =>
        match Find(s, ItemClose, j + 1)
        case None => None
        case Some(k) => Some((j + 1, k))
  }

  /** The contents of the item blocks at or after `from`, in document order. */
  function ItemBlocksFrom(s: string, from: nat): seq<string>
    requires from <= |s|
    decreases |s| - from
  {
    match ItemMatch(s, from)
    case None => []
    case Some((c, k)) => [s[c..k]] + ItemBlocksFrom(s, k + |ItemClose|)
  }

  /** One step of the item scan: the next block, then the blocks after it. */
  lemma ItemBlocksNext(s: string, from: nat)
    requires from <= |s|
    ensures ItemMatch(s, from).None? ==> ItemBlocksFrom(s, from) == []
    ensures ItemMatch(s, from).Some? ==>
      var m := ItemMatch(s, from).value;
      ItemBlocksFrom(s, from) == [s[m.0..m.1]] + ItemBlocksFrom(s, m.1 + |ItemClose|)
  {
  }

  /** What the item loop of every syndication adapter iterates over. */
  function ItemBlocks(s: string): seq<string> {
    ItemBlocksFrom(s, 0)
  }

  /** `<item>body</item>`. */
  function ItemElement(body: string): string {
    ItemOpen + ">" + (body + ItemClose)
  }

  function RenderItems(bodies: seq<string>): string {
    if bodies == [] then "" else ItemElement(bodies[0]) + RenderItems(bodies[1..])
  }

  /** `</item>` cannot start inside an item body that does not contain it. */
  lemma {:induction false} NoEarlyItemClose(s: string, c: nat, body: string, j: nat)
    requires OccursAt(s, body + ItemClose, c)
    requires !Contains(body, ItemClose)
    requires j < |body|
    ensures !OccursAt(s, ItemClose, c + j)
  {
    var u := body + ItemClose;
    if j + |ItemClose| <= |body| {
      Piece(s, u, c, j, j + |ItemClose|);
      assert u[j..j + |ItemClose|] == body[j..j + |ItemClose|];
      assert !OccursAt(body, ItemClose, j);
    } else {
      var o := |body| - j;
      Piece(s, u, c, |body|, |body| + 1);
      assert s[c + |body|] == u[|body|] == '<';
      OccursChar(s, ItemClose, c + j, o);
    }
  }

  /** The first `</item>` after an item body is the one placed after it. */
  lemma {:induction false} ItemCloseAt(s: string, c: nat, body: string)
    requires OccursAt(s, body + ItemClose, c)
    requires !Contains(body, ItemClose)
    ensures Find(s, ItemClose, c) == Some(c + |body|)
  {
    forall j: nat | c <= j < c + |body|
      ensures !OccursAt(s, ItemClose, j)
    {
      NoEarlyItemClose(s, c, body, j - c);
    }
    OccursSplit(s, body, ItemClose, c);
    FindAt(s, ItemClose, c, c + |body|);
  }

  /** The item expression searched from `from` finds the element `<item>body</item>`
      placed at `n` when no `<item` starts between `from` and `n`. */
  lemma {:induction false} ItemMatchAt(s: string, from: nat, n: nat, body: string)
    requires from <= n
    requires forall j: nat :: from <= j < n ==> !OccursAt(s, ItemOpen, j)
    requires OccursAt(s, ItemElement(body), n)
    requires !Contains(body, ItemClose)
    ensures ItemMatch(s, from) == Some((n + |ItemOpen| + 1, n + |ItemOpen| + 1 + |body|))
  {
    var o := |ItemOpen|;
    OccursSplit(s, ItemOpen + ">", body + ItemClose, n);
    OccursSplit(s, ItemOpen, ">", n);
    FindAt(s, ItemOpen, from, n);
    FindFirst(s, ">", n + o);
    ItemCloseAt(s, n + o + 1, body);
  }

  /** Scanning a document from `n`, where a rendering of item bodies begins, gives
      the bodies back in order. */
  lemma {:induction false} ItemBlocksAt(s: string, n: nat, bodies: seq<string>)
    requires n <= |s| && s[n..] == RenderItems(bodies)
    requires forall b :: b in bodies ==> !Contains(b, ItemClose)
    ensures ItemBlocksFrom(s, n) == bodies
    decreases |bodies|
  {
    if bodies == [] {
      assert |s| == n;
      assert Find(s, ItemOpen, n).None?;
    } else {
      var b := bodies[0];
      var e := ItemElement(b);
      var rest := RenderItems(bodies[1..]);
      var c := n + |ItemOpen| + 1;
      assert s[n..] == e + rest;
      assert s[n..n + |e|] == e by {
        assert s[n..n + |e|] == s[n..][..|e|];
      }
      ItemMatchAt(s, n, n, b);
      OccursSplit(s, ItemOpen + ">", b + ItemClose, n);
      OccursSplit(s, b, ItemClose, c);
      assert s[n + |e|..] == rest by {
        assert s[n + |e|..] == s[n..][|e|..];
      }
      ItemBlocksAt(s, n + |e|, bodies[1..]);
    }
  }

  /** Rendering item bodies as `<item>` elements and scanning the document gives
      the bodies back, in order, when no body contains the closing tag. */
  lemma ItemBlocksOfRendered(bodies: seq<string>)
    requires forall b :: b in bodies ==> !Contains(b, ItemClose)
    ensures ItemBlocks(RenderItems(bodies)) == bodies
  {
    ItemBlocksAt(RenderItems(bodies), 0, bodies);
  }

  // -------------------------------------------------- carrier adapter: extractTag

  /** What the carrier adapter's tag expression captures. */
  datatype TagMatch = NoMatch | CDataMatch(payload: string) | TextMatch(text: string)

  /** `<tag[^>]*>(?:<![CDATA[(.*?)]]>|(.*?))</tag>`. The expression is decided at the
      first `<tag`: a later start has a later `>` and can only fail too. */
  function CarrierTagMatch(x: string, tag: string): (r: TagMatch)
  {
    match Find(x, OpenTag(tag), 0)
    case None => NoMatch
    case Some(i) =>
      match Find(x, ">", i + |OpenTag(tag)|)
      case None => NoMatch
      case Some(j) =>
        var c := j + 1;
        var cdataEnd := Find(x, CDataEnd(tag), c + |CDataOpen|);
        if OccursAt(x, CDataOpen, c) && cdataEnd.Some? then
          CDataMatch(x[c + |CDataOpen|..cdataEnd.value])
        else
          match Find(x, CloseTag(tag), c)
          case None => NoMatch
          case Some(k) => TextMatch(x[c..k])
  }

  /** `extractTag`: `(m[1] || m[2]).trim()`, or "" without a match. An empty CDATA
      payload makes `m[1]` the falsy "" while `m[2]` is undefined, so `trim` is
      called on undefined and throws. */
  function ExtractTag(x: string, tag: string): (r: Result<string, JsError>)
    ensures r.Failure? <==> CarrierTagMatch(x, tag) == CDataMatch("")
  {
    match CarrierTagMatch(x, tag)
    case NoMatch => Success("")
    case CDataMatch(p) => if p == "" then Failure(TypeError("Cannot read properties of undefined (reading 'trim')")) else Success(Trim(p))
    case TextMatch(t) => Success(Trim(t))
  }

  // ---------------------------------------- single-feed adapters: extractCDATA

  /** `<tag[^>]*><![CDATA[(.*?)]]></tag>`, searched from `from`: unlike the carrier
      expression, a start whose element is not CDATA-wrapped lets the search move on
      to a later `<tag`. */
  function CDataSearch(x: string, tag: string, from: nat): Option<string>
    requires from <= |x|
    decreases |x| - from
  {
    match Find(x, OpenTag(tag), from)
    case None => None
    case Some(i) =>
      var j := Find(x, ">", i + |OpenTag(tag)|);
      var c := if j.Some? then j.value + 1 else 0;
      var e := Find(x, CDataEnd(tag), c + |CDataOpen|);
      if j.Some? && OccursAt(x, CDataOpen, c) && e.Some? then
        Some(x[c + |CDataOpen|..e.value])
      else
        CDataSearch(x, tag, i + 1)
  }

  /** `<tag[^>]*>(.*?)</tag>`: decided at the first `<tag`. */
  function PlainMatch(x: string, tag: string): Option<string> {
    match Find(x, OpenTag(tag), 0)
    case None => None
    case Some(i) =>
      match Find(x, ">", i + |OpenTag(tag)|)
      case None => None
      case Some(j) =>
        match Find(x, CloseTag(tag), j + 1)
        case None => None
        case Some(k) => Some(x[j + 1..k])
  }

  /** `extractCDATA`: the CDATA payload, else the plain inner text, else "". */
  function ExtractCData(x: string, tag: string): string {
    match CDataSearch(x, tag, 0)
    case Some(p) => p
    case None => PlainMatch(x, tag).GetOr("")
  }

  // ------------------------------------------------------------- properties

  /** A fragment without the opening tag yields "" from both extractors. */
  lemma {:induction false} ExtractAbsent(x: string, tag: string)
    requires !Contains(x, OpenTag(tag))
    ensures ExtractTag(x, tag) == Success("")
    ensures ExtractCData(x, tag) == ""
  {
    FindSound(x, OpenTag(tag), 0);
  }

  /** `<tag><![CDATA[payload]]></tag>`. */
  function CDataElement(tag: string, payload: string): string {
    OpenTag(tag) + ">" + (CDataOpen + (payload + CDataEnd(tag)))
  }

  /** `<tag>text</tag>`. */
  function TextElement(tag: string, text: string): string {
    OpenTag(tag) + ">" + (text + CloseTag(tag))
  }

  /** A CDATA payload (XML 1.0, section 2.7) never contains `]]>`, so the first
      `]]></tag>` after it is the one that closes it. */
  lemma {:induction false} NoEarlyCDataEnd(s: string, d: nat, tag: string, payload: string, j: nat)
    requires OccursAt(s, payload + CDataEnd(tag), d)
    requires !Contains(payload, CDataClose)
    requires j < |payload|
    ensures !OccursAt(s, CDataEnd(tag), d + j)
  {
    var m := CDataEnd(tag);
    var u := payload + m;
    assert m[..|CDataClose|] == CDataClose;
    OccursHead(s, m, d + j, |CDataClose|);
    if j + |CDataClose| <= |payload| {
      Piece(s, u, d, j, j + |CDataClose|);
      assert u[j..j + |CDataClose|] == payload[j..j + |CDataClose|];
      assert !OccursAt(payload, CDataClose, j);
    } else {
      Piece(s, u, d, j + 2, j + 3);
      assert u[j + 2] == ']';
      OccursChar(s, m, d + j, 2);
    }
  }

  /** Character data (XML 1.0, section 2.4) holds no `<`, so the first `</tag>`
      after it is the one that closes it. */
  lemma {:induction false} NoEarlyClose(s: string, c: nat, tag: string, text: string, j: nat)
    requires OccursAt(s, text + CloseTag(tag), c)
    requires '<' !in text
    requires j < |text|
    ensures !OccursAt(s, CloseTag(tag), c + j)
  {
    Piece(s, text + CloseTag(tag), c, j, j + 1);
    assert s[c + j] == text[j];
    OccursChar(s, CloseTag(tag), c + j, 0);
  }

  /** An element placed at `n`, before which the tag never opens: the search for
      `<tag` stops there and the opening tag ends at its own `>`. */
  lemma {:induction false} OpenTagAt(s: string, tag: string, n: nat, inner: string)
    requires forall j: nat :: j < n ==> !OccursAt(s, OpenTag(tag), j)
    requires OccursAt(s, OpenTag(tag) + ">" + inner, n)
    ensures Find(s, OpenTag(tag), 0) == Some(n)
    ensures Find(s, ">", n + |OpenTag(tag)|) == Some(n + |OpenTag(tag)|)
    ensures OccursAt(s, inner, n + |OpenTag(tag)| + 1)
  {
    var o := |OpenTag(tag)|;
    OccursSplit(s, OpenTag(tag) + ">", inner, n);
    OccursSplit(s, OpenTag(tag), ">", n);
    FindAt(s, OpenTag(tag), 0, n);
    FindFirst(s, ">", n + o);
  }

  lemma {:induction false} NoCDataEndInPayload(s: string, d: nat, tag: string, payload: string)
    requires OccursAt(s, payload + CDataEnd(tag), d)
    requires !Contains(payload, CDataClose)
    ensures forall j: nat :: d <= j < d + |payload| ==> !OccursAt(s, CDataEnd(tag), j)
    ensures OccursAt(s, CDataEnd(tag), d + |payload|)
    ensures s[d..d + |payload|] == payload
  {
    var m := CDataEnd(tag);
    var u := payload + m;
    forall j: nat | d <= j < d + |payload|
      ensures !OccursAt(s, m, j)
    {
      NoEarlyCDataEnd(s, d, tag, payload, j - d);
    }
    OccursSplit(s, payload, m, d);
  }

  /** The first `]]></tag>` after a CDATA payload is the one placed after it. */
  lemma {:induction false} CDataEndAt(s: string, d: nat, tag: string, payload: string)
    requires OccursAt(s, payload + CDataEnd(tag), d)
    requires !Contains(payload, CDataClose)
    ensures Find(s, CDataEnd(tag), d) == Some(d + |payload|)
    ensures s[d..d + |payload|] == payload
  {
    NoCDataEndInPayload(s, d, tag, payload);
    FindAt(s, CDataEnd(tag), d, d + |payload|);
  }

  /** The first `</tag>` after character data is the one placed after it. */
  lemma {:induction false} CloseAt(s: string, c: nat, tag: string, text: string)
    requires OccursAt(s, text + CloseTag(tag), c)
    requires '<' !in text
    ensures Find(s, CloseTag(tag), c) == Some(c + |text|)
    ensures s[c..c + |text|] == text
  {
    var u := text + CloseTag(tag);
    forall j: nat | c <= j < c + |text|
      ensures !OccursAt(s, CloseTag(tag), j)
    {
      NoEarlyClose(s, c, tag, text, j - c);
    }
    OccursSplit(s, text, CloseTag(tag), c);
    FindAt(s, CloseTag(tag), c, c + |text|);
  }

  /** Both expressions on an element whose opening tag is the first, at `n`, and
      whose content opens a CDATA section with its end marker first found at `e`. */
  lemma {:induction false} CDataMatchAt(s: string, tag: string, n: nat, e: nat)
    requires Find(s, OpenTag(tag), 0) == Some(n)
    requires Find(s, ">", n + |OpenTag(tag)|) == Some(n + |OpenTag(tag)|)
    requires OccursAt(s, CDataOpen, n + |OpenTag(tag)| + 1)
    requires Find(s, CDataEnd(tag), n + |OpenTag(tag)| + 1 + |CDataOpen|) == Some(e)
    ensures CarrierTagMatch(s, tag) == CDataMatch(s[n + |OpenTag(tag)| + 1 + |CDataOpen|..e])
  {
  }

  /** The same element for the single-feed expression. */
  lemma {:induction false} CDataSearchAt(s: string, tag: string, n: nat, e: nat)
    requires Find(s, OpenTag(tag), 0) == Some(n)
    requires Find(s, ">", n + |OpenTag(tag)|) == Some(n + |OpenTag(tag)|)
    requires OccursAt(s, CDataOpen, n + |OpenTag(tag)| + 1)
    requires Find(s, CDataEnd(tag), n + |OpenTag(tag)| + 1 + |CDataOpen|) == Some(e)
    ensures CDataSearch(s, tag, 0) == Some(s[n + |OpenTag(tag)| + 1 + |CDataOpen|..e])
  {
  }

  /** Both expressions on an element whose opening tag is the first, at `n`, and
      whose content is not CDATA, with its closing tag first found at `k`. */
  lemma {:induction false} TextMatchAt(s: string, tag: string, n: nat, k: nat)
    requires Find(s, OpenTag(tag), 0) == Some(n)
    requires Find(s, ">", n + |OpenTag(tag)|) == Some(n + |OpenTag(tag)|)
    requires !OccursAt(s, CDataOpen, n + |OpenTag(tag)| + 1)
    requires Find(s, CloseTag(tag), n + |OpenTag(tag)| + 1) == Some(k)
    ensures CarrierTagMatch(s, tag) == TextMatch(s[n + |OpenTag(tag)| + 1..k])
    ensures PlainMatch(s, tag) == Some(s[n + |OpenTag(tag)| + 1..k])
  {
  }

  /** The parts of `<tag><![CDATA[payload]]></tag>` placed at `n`. */
  lemma {:induction false} CDataElementParts(s: string, n: nat, tag: string, payload: string)
    requires OccursAt(s, CDataElement(tag, payload), n)
    ensures OccursAt(s, OpenTag(tag) + ">" + (CDataOpen + (payload + CDataEnd(tag))), n)
    ensures OccursAt(s, CDataOpen, n + |OpenTag(tag)| + 1)
    ensures OccursAt(s, payload + CDataEnd(tag), n + |OpenTag(tag)| + 1 + |CDataOpen|)
  {
    OccursSplit(s, OpenTag(tag) + ">", CDataOpen + (payload + CDataEnd(tag)), n);
    OccursSplit(s, CDataOpen, payload + CDataEnd(tag), n + |OpenTag(tag)| + 1);
  }

  /** A CDATA-wrapped element at `n`, before which the tag never opens: `extractTag`
      gives the trimmed payload, and throws when the payload is empty;
      `extractCDATA` gives the payload verbatim. */
  lemma {:induction false} ExtractOfCData(s: string, n: nat, tag: string, payload: string)
    requires forall j: nat :: j < n ==> !OccursAt(s, OpenTag(tag), j)
    requires OccursAt(s, CDataElement(tag, payload), n)
    requires !Contains(payload, CDataClose)
    ensures CarrierTagMatch(s, tag) == CDataMatch(payload)
    ensures ExtractTag(s, tag) ==
            if payload == [] then Failure(TypeError("Cannot read properties of undefined (reading 'trim')"))
            else Success(Trim(payload))
    ensures ExtractCData(s, tag) == payload
  {
    var d := n + |OpenTag(tag)| + 1 + |CDataOpen|;
    CDataElementParts(s, n, tag, payload);
    OpenTagAt(s, tag, n, CDataOpen + (payload + CDataEnd(tag)));
    CDataEndAt(s, d, tag, payload);
    CDataMatchAt(s, tag, n, d + |payload|);
    CDataSearchAt(s, tag, n, d + |payload|);
    assert CarrierTagMatch(s, tag) == CDataMatch(payload);
  }

  /** A plain element at `n`, before which the tag never opens: `extractTag` gives
      its trimmed text and the plain expression its text. */
  lemma {:induction false} ExtractOfText(s: string, n: nat, tag: string, text: string)
    requires forall j: nat :: j < n ==> !OccursAt(s, OpenTag(tag), j)
    requires OccursAt(s, TextElement(tag, text), n)
    requires '<' !in text
    ensures CarrierTagMatch(s, tag) == TextMatch(text)
    ensures ExtractTag(s, tag) == Success(Trim(text))
    ensures PlainMatch(s, tag) == Some(text)
  {
    var u := text + CloseTag(tag);
    var c := n + |OpenTag(tag)| + 1;
    assert TextElement(tag, text) == OpenTag(tag) + ">" + u;
    OpenTagAt(s, tag, n, u);
    if text == [] {
      assert u[1] == '/';
    } else {
      assert u[0] == text[0];
    }
    NoCDataOpenAt(s, c, u);
    CloseAt(s, c, tag, text);
    TextMatchAt(s, tag, n, c + |text|);
  }

  /** Content that does not start with `<!` does not open a CDATA section. */
  lemma NoCDataOpenAt(s: string, c: nat, u: string)
    requires OccursAt(s, u, c) && |u| >= 2 && (u[0] != '<' || u[1] != '!')
    ensures !OccursAt(s, CDataOpen, c)
  {
    assert s[c] == u[0] && s[c + 1] == u[1] by {
      assert s[c..c + |u|][0] == u[0] && s[c..c + |u|][1] == u[1];
    }
    assert CDataOpen[0] == '<' && CDataOpen[1] == '!';
  }
}
