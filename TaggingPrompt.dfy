/**
  The prompts of the mind-map tagging call: the fixed system prompt, reduced here
  to the board taxonomy it lists, and the user payload, which projects each item
  onto seven display fields next to a fixed instruction. The payload is the value
  handed to `JSON.stringify`; its text form is not modelled.
*/
module TaggingPrompt {
  import opened Wrappers
  import opened Json

  /** A node of the board mind map: its number and its name. */
  datatype Board = Board(id: string, name: string)

  /** The taxonomy the system prompt lists, in its order: four top-level boards,
      each followed by its sub-boards. */
  const Boards: seq<Board> := [
    Board("0", "决策导向"),
    Board("0.1", "今日关键结论（1–3 条）"),
    Board("0.2", "机会清单（1–3 个月）"),
    Board("0.3", "风险与不确定性"),
    Board("1", "数智技术底座"),
    Board("1.1", "AI / 大模型 / 智能体"),
    Board("1.2", "通信网络与 6G 演进"),
    Board("1.3", "云 / 边缘 / 算力基础设施"),
    Board("1.4", "安全与隐私"),
    Board("1.5", "学术研究前沿"),
    Board("2", "行业应用与场景"),
    Board("2.1", "低空经济 / 空天地一体"),
    Board("2.2", "网智 / 网络智能运维"),
    Board("2.3", "行业专网 / 私网 / 工业互联网"),
    Board("2.4", "政企 / 行业客户场景"),
    Board("2.5", "消费者与媒娱场景"),
    Board("3", "产业格局与商业模式"),
    Board("3.1", "运营商转型与战略"),
    Board("3.2", "生态与合作模式"),
    Board("3.3", "商业模式与收益模式创新"),
    Board("3.4", "资本与投融资动态"),
    Board("3.5", "政策与监管"),
    Board("3.6", "标准与联盟")
  ]

  /** The values the prompt allows for `source_dimension`. */
  const SourceDimensions: seq<string> := ["学", "产", "学/产"]

  /** The board ids of the system prompt. */
  function BoardIds(): (r: seq<string>)
    ensures |r| == |Boards|
    ensures forall k :: 0 <= k < |Boards| ==> r[k] == Boards[k].id
  {
    seq(|Boards|, k requires 0 <= k < |Boards| => Boards[k].id)
  }

  function Digit(d: nat): char
    requires d < 10
  {
    (d + '0' as int) as char
  }

  /** Top-level board `t` followed by its sub-boards `t.1` to `t.c`. */
  function Family(t: nat, c: nat): (r: seq<string>)
    requires t < 10 && c < 10
    ensures |r| == c + 1
  {
    [[Digit(t)]] + seq(c, j requires 0 <= j < c => [Digit(t), '.', Digit(j + 1)])
  }

  /** The families of the top-level boards `t`, `t + 1`, ..., with `counts[i]`
      sub-boards for board `t + i`. */
  function Families(counts: seq<nat>, t: nat): seq<string>
    requires t + |counts| <= 10
    requires forall i :: 0 <= i < |counts| ==> counts[i] < 10
    decreases |counts|
  {
    if counts == [] then [] else Family(t, counts[0]) + Families(counts[1..], t + 1)
  }

  /** How many sub-boards each of the top-level boards 0 to 3 has. */
  const SubBoardCounts: seq<nat> := [3, 5, 5, 6]

  lemma Family0()
    ensures BoardIds()[..4] == Family(0, 3)
  {
    var ids: seq<string> := ["0", "0.1", "0.2", "0.3"];
    assert BoardIds()[..4] == ids by {
      forall j | 0 <= j < |ids| ensures BoardIds()[..4][j] == ids[j] {
        assert BoardIds()[..4][j] == Boards[0 + j].id;
      }
    }
    assert Family(0, 3) == ids by {
      var f := Family(0, 3);
      forall j | 0 <= j < |ids| ensures f[j] == ids[j] {
        if j > 0 {
          assert f[j] == [Digit(0), '.', Digit(j)];
        }
      }
    }
  }

  lemma Family1()
    ensures BoardIds()[4..10] == Family(1, 5)
  {
    var ids: seq<string> := ["1", "1.1", "1.2", "1.3", "1.4", "1.5"];
    assert BoardIds()[4..10] == ids by {
      forall j | 0 <= j < |ids| ensures BoardIds()[4..10][j] == ids[j] {
        assert BoardIds()[4..10][j] == Boards[4 + j].id;
      }
    }
    assert Family(1, 5) == ids by {
      var f := Family(1, 5);
      forall j | 0 <= j < |ids| ensures f[j] == ids[j] {
        if j > 0 {
          assert f[j] == [Digit(1), '.', Digit(j)];
        }
      }
    }
  }

  lemma Family2()
    ensures BoardIds()[10..16] == Family(2, 5)
  {
    var ids: seq<string> := ["2", "2.1", "2.2", "2.3", "2.4", "2.5"];
    assert BoardIds()[10..16] == ids by {
      forall j | 0 <= j < |ids| ensures BoardIds()[10..16][j] == ids[j] {
        assert BoardIds()[10..16][j] == Boards[10 + j].id;
      }
    }
    assert Family(2, 5) == ids by {
      var f := Family(2, 5);
      forall j | 0 <= j < |ids| ensures f[j] == ids[j] {
        if j > 0 {
          assert f[j] == [Digit(2), '.', Digit(j)];
        }
      }
    }
  }

  lemma Family3()
    ensures BoardIds()[16..] == Family(3, 6)
  {
    var ids: seq<string> := ["3", "3.1", "3.2", "3.3", "3.4", "3.5", "3.6"];
    assert BoardIds()[16..] == ids by {
      forall j | 0 <= j < |ids| ensures BoardIds()[16..][j] == ids[j] {
        assert BoardIds()[16..][j] == Boards[16 + j].id;
      }
    }
    assert Family(3, 6) == ids by {
      var f := Family(3, 6);
      forall j | 0 <= j < |ids| ensures f[j] == ids[j] {
        if j > 0 {
          assert f[j] == [Digit(3), '.', Digit(j)];
        }
      }
    }
  }

  /** The system prompt lists exactly the four top-level boards 0 to 3, each
      followed by its sub-boards numbered from 1: 3, 5, 5 and 6 of them. */
  lemma BoardsAreFamilies()
    ensures BoardIds() == Families(SubBoardCounts, 0)
  {
    var c := SubBoardCounts;
    var ids := BoardIds();
    Family0();
    Family1();
    Family2();
    Family3();
    assert Families(c[3..], 3) == Family(3, 6) by {
      assert c[3..][1..] == [];
    }
    assert Families(c[2..], 2) == Family(2, 5) + Family(3, 6) by {
      assert c[2..][1..] == c[3..];
    }
    assert Families(c[1..], 1) == Family(1, 5) + Family(2, 5) + Family(3, 6) by {
      assert c[1..][1..] == c[2..];
    }
    assert ids == ids[..4] + ids[4..10] + ids[10..16] + ids[16..];
  }

  /** Every id in the family of board `t` starts with the digit of `t`. */
  lemma {:induction false} FamiliesStart(counts: seq<nat>, t: nat, k: nat)
    requires t + |counts| <= 10
    requires forall i :: 0 <= i < |counts| ==> counts[i] < 10
    requires k < |Families(counts, t)|
    ensures var id := Families(counts, t)[k];
      |id| > 0 && '0' as int + t <= id[0] as int < '0' as int + t + |counts|
    decreases |counts|
  {
    var f := Family(t, counts[0]);
    if k >= |f| {
      FamiliesStart(counts[1..], t + 1, k - |f|);
    } else if k > 0 {
      assert f[k] == [Digit(t), '.', Digit(k)];
    }
  }

  predicate Distinct(ids: seq<string>) {
    forall j, k :: 0 <= j < k < |ids| ==> ids[j] != ids[k]
  }

  /** Board ids built from families are pairwise distinct. */
  lemma {:induction false} FamiliesDistinct(counts: seq<nat>, t: nat)
    requires t + |counts| <= 10
    requires forall i :: 0 <= i < |counts| ==> counts[i] < 10
    ensures Distinct(Families(counts, t))
    decreases |counts|
  {
    if counts != [] {
      var f := Family(t, counts[0]);
      var rest := Families(counts[1..], t + 1);
      var ids := f + rest;
      assert Families(counts, t) == ids;
      assert ids[0] == [Digit(t)];
      FamiliesDistinct(counts[1..], t + 1);
      forall j, k | 0 <= j < k < |ids|
        ensures ids[j] != ids[k]
      {
        if k < |f| {
          assert ids[k] == [Digit(t), '.', Digit(k)];
          if j > 0 {
            assert ids[j] == [Digit(t), '.', Digit(j)];
          }
          assert ids[j] != ids[k];
        } else if j < |f| {
          FamiliesStart(counts[1..], t + 1, k - |f|);
          assert ids[k] == rest[k - |f|];
          if j > 0 {
            assert ids[j] == [Digit(t), '.', Digit(j)];
          }
          assert ids[j][0] as int == '0' as int + t;
          assert ids[j] != ids[k];
        } else {
          var j', k' := j - |f|, k - |f|;
          assert ids[j] == rest[j'] && ids[k] == rest[k'];
          assert 0 <= j' < k' < |rest|;
          assert rest[j'] != rest[k'];
        }
      }
    }
  }

  /** The 23 board ids of the system prompt are pairwise distinct. */
  lemma BoardIdsDistinct()
    ensures |Boards| == 23
    ensures forall j, k :: 0 <= j < k < |Boards| ==> Boards[j].id != Boards[k].id
  {
    BoardsAreFamilies();
    FamiliesDistinct(SubBoardCounts, 0);
    var ids := BoardIds();
    forall j, k | 0 <= j < k < |Boards|
      ensures Boards[j].id != Boards[k].id
    {
      assert ids[j] == Boards[j].id && ids[k] == Boards[k].id;
    }
  }

  /** The fixed `instruction` of the user payload. */
  const Instruction: string := "请对 items 中每条信息打标签，返回严格 JSON，结构必须符合 system 指定的输出 JSON 结构。"

  /** The keys of a projected item. */
  const RequestKeys: set<string> := {"id", "type", "title", "url", "published_date", "source", "content"}

  /** `it?.k ?? ""`. */
  function FieldOr(it: JsValue, k: string): (r: JsValue)
    ensures IsNullish(OptProp(it, k)) ==> r == JStr("")
    ensures !IsNullish(OptProp(it, k)) ==> r == OptProp(it, k)
  {
    Coalesce(OptProp(it, k), JStr(""))
  }

  /** The projection of one item: `String(it?.id ?? "")` and six copied fields. */
  function RequestItem(it: JsValue): (r: JsValue)
    ensures r.JObj? && r.props.Keys == RequestKeys
    ensures r.props["id"] == JStr(if IsNullish(OptProp(it, "id")) then "" else ToJsString(OptProp(it, "id")))
    ensures forall k :: k in RequestKeys && k != "id" ==> r.props[k] == FieldOr(it, k)
  {
    var id := if IsNullish(OptProp(it, "id")) then "" else ToJsString(OptProp(it, "id"));
    JObj(map[
      "id" := JStr(id), "type" := FieldOr(it, "type"), "title" := FieldOr(it, "title"),
      "url" := FieldOr(it, "url"), "published_date" := FieldOr(it, "published_date"),
      "source" := FieldOr(it, "source"), "content" := FieldOr(it, "content")])
  }

  /** `getUserPromptMindmapTagging(items)` before `JSON.stringify`: the fixed
      instruction and one projected item per input item, in order; anything but an
      array counts as no items. */
  function UserPayload(items: JsValue): (r: JsValue)
    ensures r.JObj? && r.props.Keys == {"instruction", "items"}
    ensures r.props["instruction"] == JStr(Instruction)
    ensures r.props["items"].JArr?
    ensures !items.JArr? ==> r.props["items"].elems == []
    ensures items.JArr? ==> |r.props["items"].elems| == |items.elems|
    ensures items.JArr? ==> forall k :: 0 <= k < |items.elems| ==> r.props["items"].elems[k] == RequestItem(items.elems[k])
  {
    var normalized := if items.JArr? then items.elems else [];
    JObj(map[
      "instruction" := JStr(Instruction),
      "items" := JArr(seq(|normalized|, k requires 0 <= k < |normalized| => RequestItem(normalized[k])))])
  }

  /** No field outside the seven leaks into the payload: two items that agree on
      the seven fields project to the same request. */
  lemma {:induction false} ProjectionForgets(a: JsValue, b: JsValue)
    requires forall k :: k in RequestKeys ==> OptProp(a, k) == OptProp(b, k)
    ensures RequestItem(a) == RequestItem(b)
  {
    assert "id" in RequestKeys && "type" in RequestKeys && "title" in RequestKeys && "url" in RequestKeys;
    assert "published_date" in RequestKeys && "source" in RequestKeys && "content" in RequestKeys;
  }
}
