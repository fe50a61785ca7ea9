/**
  The attribute tables of a detail page (`parse_attrs` in operators_detail_parse.py): the
  base-attribute table read by tier column, and the extra-attribute table read by exact label.
 */
module Attributes {
  import opened Wrappers
  import opened Strings
  import opened Markup
  import opened Utils
  import opened Dicts
  import opened Soup

  /** The five tiers of `base_attributes`, and the header phrase that names each, in the order
      they are tried. */
  const TIERS: seq<string> := ["elite_0_level_1", "elite_0_max", "elite_1_max", "elite_2_max", "trust_bonus"]
  const TIER_PHRASES: seq<string> := ["精英0 1级", "精英0 满级", "精英1 满级", "精英2 满级", "信赖加成上限"]

  /** The tier a header cell names: that of the first phrase it contains, or "" for none. */
  function TierOf(h: string): (t: string)
    ensures t == "" || t in TIERS
  {
    if Contains(h, "精英0 1级") then "elite_0_level_1"
    else if Contains(h, "精英0 满级") then "elite_0_max"
    else if Contains(h, "精英1 满级") then "elite_1_max"
    else if Contains(h, "精英2 满级") then "elite_2_max"
    else if Contains(h, "信赖加成上限") then "trust_bonus"
    else ""
  }

  /** A header names no tier exactly when it contains none of the phrases; otherwise it names the
      tier of the first phrase it contains. */
  lemma TierOfSpec(h: string)
    ensures TierOf(h) == "" <==> forall k :: 0 <= k < |TIER_PHRASES| ==> !Contains(h, TIER_PHRASES[k])
    ensures forall k :: 0 <= k < |TIERS| && TierOf(h) == TIERS[k] ==>
              Contains(h, TIER_PHRASES[k]) && forall j :: 0 <= j < k ==> !Contains(h, TIER_PHRASES[j])
  {
    assert TIER_PHRASES[0] == "精英0 1级" && TIER_PHRASES[1] == "精英0 满级" && TIER_PHRASES[2] == "精英1 满级"
        && TIER_PHRASES[3] == "精英2 满级" && TIER_PHRASES[4] == "信赖加成上限";
  }

  /** `key_mapping`: the tier of each header cell, by column. */
  function KeyMapping(headers: seq<string>): (km: seq<string>)
    ensures |km| == |headers|
    ensures forall i :: 0 <= i < |km| ==> km[i] == TierOf(headers[i])
  {
    if headers == [] then [] else [TierOf(headers[0])] + KeyMapping(headers[1..])
  }

  /** `attr_mapping.get(label, label.lower())` */
  function AttrKey(rowLabel: string): string {
    if rowLabel == "生命上限" then "max_hp"
    else if rowLabel == "攻击" then "atk"
    else if rowLabel == "防御" then "def"
    else if rowLabel == "法术抗性" then "res"
    else Lower(rowLabel)
  }

  /** `base_attributes`: tier to (attribute to value). */
  type Tiers = map<string, map<string, string>>

  /** What `parse_attrs` returns: `base_attributes` and `extra_attributes`. */
  datatype Attrs = Attrs(baseAttributes: Tiers, extraAttributes: map<string, string>)

  function EmptyTiers(): (m: Tiers)
    ensures m.Keys == set t | t in TIERS
    ensures forall t :: t in m ==> m[t] == map[]
  {
    map t | t in TIERS :: map[]
  }

  /** One `base_attrs[tier][attr] = value` assignment. */
  datatype Write = Write(tier: string, attr: string, value: string)

  /** The assignments of the columns 1 .. j-1 of a data row whose cell texts are `cells`. */
  function ColumnWrites(cells: seq<string>, km: seq<string>, j: nat): seq<Write>
    requires 0 < |cells| && j <= |cells|
    decreases j
  {
    if j <= 1 then []
    else
      ColumnWrites(cells, km, j - 1)
      + (if j - 1 < |km| && km[j - 1] != "" then [Write(km[j - 1], AttrKey(cells[0]), cells[j - 1])] else [])
  }

  /** The assignments of one data row: none for a row of fewer than two cells. */
  function RowWrites(cells: seq<string>, km: seq<string>): seq<Write> {
    if |cells| < 2 then [] else ColumnWrites(cells, km, |cells|)
  }

  /** The assignments of the data rows 0 .. i-1, in order. */
  function TableWrites(cellRows: seq<seq<string>>, km: seq<string>, i: nat): seq<Write>
    requires i <= |cellRows|
    decreases i
  {
    if i == 0 then [] else TableWrites(cellRows, km, i - 1) + RowWrites(cellRows[i - 1], km)
  }

  /** Python's `rows[1:]` */
  function Tail<T>(rows: seq<T>): seq<T> {
    if rows == [] then [] else rows[1..]
  }

  /** The cell texts of every row. */
  function RowTexts(rows: seq<Node>): (r: seq<seq<string>>)
    ensures |r| == |rows|
    ensures forall i :: 0 <= i < |r| ==> r[i] == CleanAll(Cells(rows[i]))
  {
    if rows == [] then [] else [CleanAll(Cells(rows[0]))] + RowTexts(rows[1..])
  }

  /** `select("tr:first-child th, tr:first-child td")` over a list of siblings and what lies below
      them: the `th` and `td` nodes, in document order, that have an ancestor `tr` which is the
      first element among its own siblings. `under` says that such a row already encloses the
      list; `elementBefore` that an element precedes the list among its siblings. */
  function FirstChildCells(ns: seq<Node>, under: bool, elementBefore: bool): seq<Node>
    decreases ns
  {
    if ns == [] then []
    else
      var x := ns[0];
      var here := if under && Matches(Named(["th", "td"]), x) then [x] else [];
      var below :=
        if x.Element? then FirstChildCells(x.children, under || (x.name == "tr" && !elementBefore), false) else [];
      here + below + FirstChildCells(ns[1..], under, elementBefore || x.Element?)
  }

  /** The header cells of a located base table. */
  function HeaderCells(table: Node): seq<Node> {
    if table.Element? then FirstChildCells(table.children, false, false) else []
  }

  /** `[clean_text(th) for th in base_tbl.select("tr:first-child th, tr:first-child td")]` */
  function HeaderTexts(table: Node): seq<string> {
    CleanAll(HeaderCells(table))
  }

  /** The tier of each column of a located base table. */
  function Mapping(table: Node): seq<string> {
    KeyMapping(HeaderTexts(table))
  }

  /** Below a first-child row every `th` and `td` is a header cell, in document order. */
  lemma {:induction false} FirstChildCellsUnder(ns: seq<Node>, elementBefore: bool)
    ensures FirstChildCells(ns, true, elementBefore) == Filter(DescendantsAll(ns), Named(["th", "td"]))
    decreases ns
  {
    if ns != [] {
      var x := ns[0];
      var sel := Named(["th", "td"]);
      if x.Element? {
        FirstChildCellsUnder(x.children, false);
      }
      FirstChildCellsUnder(ns[1..], elementBefore || x.Element?);
      assert DescendantsAll(ns) == [x] + (Descendants(x) + DescendantsAll(ns[1..]));
      FilterAppend([x], Descendants(x) + DescendantsAll(ns[1..]), sel);
      FilterAppend(Descendants(x), DescendantsAll(ns[1..]), sel);
    }
  }

  /** Every header cell is a `th` or `td` below the list. */
  lemma {:induction false} FirstChildCellsAreCells(ns: seq<Node>, under: bool, elementBefore: bool)
    ensures forall c :: c in FirstChildCells(ns, under, elementBefore) ==>
              Matches(Named(["th", "td"]), c) && c in DescendantsAll(ns)
    decreases ns
  {
    if ns != [] {
      var x := ns[0];
      var under' := under || (x.Element? && x.name == "tr" && !elementBefore);
      if x.Element? {
        FirstChildCellsAreCells(x.children, under', false);
      }
      FirstChildCellsAreCells(ns[1..], under, elementBefore || x.Element?);
      assert DescendantsAll(ns) == [x] + Descendants(x) + DescendantsAll(ns[1..]);
    }
  }

  /** The header cells are `th` and `td` descendants of the table. */
  lemma HeaderCellsAreCells(table: Node)
    ensures forall c :: c in HeaderCells(table) ==> Matches(Named(["th", "td"]), c) && c in Descendants(table)
  {
    if table.Element? {
      FirstChildCellsAreCells(table.children, false, false);
    }
  }

  /** A row that is the first child of the table gives all its cells first, in order. */
  lemma HeaderCellsOfFirstRow(table: Node)
    requires table.Element? && table.children != [] && Matches(Named(["tr"]), table.children[0])
    ensures Cells(table.children[0]) <= HeaderCells(table)
  {
    var x := table.children[0];
    var rest := FirstChildCells(table.children[1..], false, true);
    FirstChildCellsUnder(x.children, false);
    assert Cells(x) == Filter(DescendantsAll(x.children), Named(["th", "td"]));
    assert HeaderCells(table) == [] + FirstChildCells(x.children, true, false) + rest;
  }

  /** The first row of every row group is a header row: with a `thead` and a `tbody`, the first
      row of each contributes its cells, and a later data row contributes nothing. */
  lemma HeaderOfEveryRowGroup(hs: seq<Node>, bs: seq<Node>, ds: seq<Node>)
    requires LeafCellsOnly(hs) && LeafCellsOnly(bs) && LeafCellsOnly(ds)
    ensures var data := Element("tr", "", [], ds);
      var t := Element("table", "", [], [Element("thead", "", [], [Element("tr", "", [], hs)]),
                                         Element("tbody", "", [], [Element("tr", "", [], bs), data])]);
      HeaderCells(t) == hs + bs
  {
    var r1, r2, data := Element("tr", "", [], hs), Element("tr", "", [], bs), Element("tr", "", [], ds);
    var head, body := Element("thead", "", [], [r1]), Element("tbody", "", [], [r2, data]);
    RowStep(data, [], true);
    assert FirstChildCells([data], false, true) == [] by { assert [data] + [] == [data]; }
    RowStep(r2, [data], false);
    assert FirstChildCells(body.children, false, false) == bs;
    RowStep(r1, [], false);
    assert FirstChildCells(head.children, false, false) == hs by { assert [r1] + [] == [r1]; }
    GroupStep(body, [], true);
    assert FirstChildCells([body], false, true) == bs by { assert [body] + [] == [body]; }
    GroupStep(head, [body], false);
    assert [head] + [body] == [head, body];
  }

  /** Every node is a `th` or `td` cell holding a single text node. */
  predicate LeafCellsOnly(cs: seq<Node>) {
    forall i :: 0 <= i < |cs| ==> Matches(Named(["th", "td"]), cs[i]) && |cs[i].children| == 1 && cs[i].children[0].Text?
  }

  /** A row of text cells gives its cells exactly when it is the first element among its siblings. */
  lemma RowStep(r: Node, rest: seq<Node>, elementBefore: bool)
    requires r.Element? && r.name == "tr" && LeafCellsOnly(r.children)
    ensures FirstChildCells([r] + rest, false, elementBefore) ==
              (if elementBefore then [] else r.children) + FirstChildCells(rest, false, true)
  {
    LeafCells(r.children, !elementBefore, false);
    assert ([r] + rest)[0] == r && ([r] + rest)[1..] == rest;
  }

  /** A row group that is not itself a row or a cell passes through what its children give. */
  lemma GroupStep(g: Node, rest: seq<Node>, elementBefore: bool)
    requires g.Element? && g.name != "tr" && !Matches(Named(["th", "td"]), g)
    ensures FirstChildCells([g] + rest, false, elementBefore) ==
              FirstChildCells(g.children, false, false) + FirstChildCells(rest, false, true)
  {
    assert ([g] + rest)[0] == g && ([g] + rest)[1..] == rest;
  }

  /** Cells that hold only text give themselves below a first-child row, and nothing elsewhere. */
  lemma {:induction false} LeafCells(cs: seq<Node>, under: bool, elementBefore: bool)
    requires LeafCellsOnly(cs)
    ensures FirstChildCells(cs, under, elementBefore) == if under then cs else []
    decreases cs
  {
    if cs != [] {
      var c := cs[0];
      assert c.children[1..] == [];
      assert FirstChildCells(c.children, under || (c.name == "tr" && !elementBefore), false) == [];
      LeafCells(cs[1..], under, true);
    }
  }

  /** The cell texts of the data rows (`base_tbl.select("tr")[1:]`). */
  function DataTexts(table: Node): seq<seq<string>> {
    RowTexts(Tail(Rows(table)))
  }

  /** Every assignment `parse_attrs` makes into `base_attributes` for a located table, in order. */
  function BaseWrites(table: Node): seq<Write> {
    TableWrites(DataTexts(table), Mapping(table), |DataTexts(table)|)
  }

  function SetAttr(m: Tiers, w: Write): Tiers {
    if w.tier in m then m[w.tier := m[w.tier][w.attr := w.value]] else m
  }

  function ApplyWrites(m: Tiers, ws: seq<Write>): Tiers
    decreases |ws|
  {
    if ws == [] then m else SetAttr(ApplyWrites(m, ws[..|ws| - 1]), ws[|ws| - 1])
  }

  /** `base_attributes` as `parse_attrs` leaves it. */
  function BaseAttributes(table: Option<Node>): Tiers {
    match table
    case None => EmptyTiers()
    case Some(t) => ApplyWrites(EmptyTiers(), BaseWrites(t))
  }

  lemma ApplyWritesSnoc(m: Tiers, ws: seq<Write>, w: Write)
    ensures ApplyWrites(m, ws + [w]) == SetAttr(ApplyWrites(m, ws), w)
  {
    assert (ws + [w])[..|ws|] == ws;
  }

  /** Applying two lists of writes in turn is applying their concatenation. */
  lemma {:induction false} ApplyWritesAppend(m: Tiers, a: seq<Write>, b: seq<Write>)
    ensures ApplyWrites(m, a + b) == ApplyWrites(ApplyWrites(m, a), b)
    decreases |b|
  {
    if b != [] {
      var p := b[..|b| - 1];
      ApplyWritesAppend(m, a, p);
      assert (a + b)[..|a + b| - 1] == a + p;
      assert (a + b)[|a + b| - 1] == b[|b| - 1];
    } else {
      assert a + b == a;
    }
  }

  lemma {:induction false} ApplyWritesKeys(m: Tiers, ws: seq<Write>)
    ensures ApplyWrites(m, ws).Keys == m.Keys
    decreases |ws|
  {
    if ws != [] { ApplyWritesKeys(m, ws[..|ws| - 1]); }
  }

  /** Every tier a header names is still a key after any writes. */
  lemma TiersStay(base0: Tiers, km: seq<string>, ws: seq<Write>)
    requires forall k :: 0 <= k < |km| && km[k] != "" ==> km[k] in base0
    ensures forall k :: 0 <= k < |km| && km[k] != "" ==> km[k] in ApplyWrites(base0, ws)
  {
    ApplyWritesKeys(base0, ws);
  }

  /** Filling row `i` after the rows before it is filling the rows up to `i`. */
  lemma RowsStep(base0: Tiers, texts: seq<seq<string>>, km: seq<string>, i: nat, mid: Tiers, after: Tiers)
    requires i < |texts|
    requires mid == ApplyWrites(base0, TableWrites(texts, km, i))
    requires after == ApplyWrites(mid, RowWrites(texts[i], km))
    ensures after == ApplyWrites(base0, TableWrites(texts, km, i + 1))
  {
    ApplyWritesAppend(base0, TableWrites(texts, km, i), RowWrites(texts[i], km));
  }

  /** `parse_attrs`'s base-attribute part: the five empty tiers, filled from a located table. */
  method FillBaseAttributes(table: Option<Node>) returns (base: Tiers)
    ensures base == BaseAttributes(table)
  {
    base := EmptyTiers();
    if table.Some? {
      var rows := Rows(table.value);
      var km := KeyMapping(HeaderTexts(table.value));
      base := FillRows(base, Tail(rows), km);
    }
  }

  /** The outer loop: every `tr` after the first one in document order, starting from `base0`. */
  method FillRows(base0: Tiers, data: seq<Node>, km: seq<string>) returns (base: Tiers)
    requires forall k :: 0 <= k < |km| && km[k] != "" ==> km[k] in base0
    ensures base == ApplyWrites(base0, TableWrites(RowTexts(data), km, |data|))
  {
    base := base0;
    ghost var texts := RowTexts(data);
    assert TableWrites(texts, km, 0) == [];
    var i := 0;
    while i < |data|
      invariant 0 <= i <= |data|
      invariant base == ApplyWrites(base0, TableWrites(texts, km, i))
    {
      var tds := ReadCells(data, i);
      TiersStay(base0, km, TableWrites(texts, km, i));
      ghost var mid := base;
      base := FillRow(base, tds, km);
      RowsStep(base0, texts, km, i, mid, base);
      i := i + 1;
    }
  }

  /** The cleaned texts of the header and data cells of data row `i`. */
  method ReadCells(data: seq<Node>, i: nat) returns (tds: seq<string>)
    requires i < |data|
    ensures tds == RowTexts(data)[i]
  {
    tds := CleanAll(Cells(data[i]));
  }

  /** One data row of the base-attribute fill: a row of fewer than two cells is skipped. */
  method FillRow(base0: Tiers, tds: seq<string>, km: seq<string>) returns (base: Tiers)
    requires forall k :: 0 <= k < |km| && km[k] != "" ==> km[k] in base0
    ensures base == ApplyWrites(base0, RowWrites(tds, km))
  {
    if |tds| < 2 {
      base := base0;
    } else {
      base := FillColumns(base0, tds, km);
    }
  }

  /** The inner loop of the base-attribute fill: column `idx` ≥ 1 of the row goes to the tier
      its header names, under the attribute key of the row's label. */
  method FillColumns(base0: Tiers, tds: seq<string>, km: seq<string>) returns (base: Tiers)
    requires 2 <= |tds|
    requires forall k :: 0 <= k < |km| && km[k] != "" ==> km[k] in base0
    ensures base == ApplyWrites(base0, RowWrites(tds, km))
  {
    base := base0;
    var attrKey := AttrKey(tds[0]);
    var idx := 1;
    while idx < |tds|
      invariant 1 <= idx <= |tds|
      invariant base == ApplyWrites(base0, ColumnWrites(tds, km, idx))
    {
      ghost var done := ColumnWrites(tds, km, idx);
      if idx < |km| && km[idx] != "" {
        var w := Write(km[idx], attrKey, tds[idx]);
        assert ColumnWrites(tds, km, idx + 1) == done + [w];
        ApplyWritesSnoc(base0, done, w);
        ApplyWritesKeys(base0, done);
        base := base[km[idx] := base[km[idx]][attrKey := tds[idx]]];
      } else {
        assert ColumnWrites(tds, km, idx + 1) == done;
      }
      idx := idx + 1;
    }
  }

  /** The (attribute, value) assignments `ws` makes to one tier, in order. */
  function EntriesFor(ws: seq<Write>, tier: string): seq<(string, string)>
    decreases |ws|
  {
    if ws == [] then []
    else
      var w := ws[|ws| - 1];
      EntriesFor(ws[..|ws| - 1], tier) + (if w.tier == tier then [(w.attr, w.value)] else [])
  }

  lemma {:induction false} ApplyWritesPerTier(m: Tiers, ws: seq<Write>, tier: string)
    requires tier in m
    ensures tier in ApplyWrites(m, ws) && ApplyWrites(m, ws)[tier] == Assign(m[tier], EntriesFor(ws, tier))
    decreases |ws|
  {
    if ws != [] {
      var p, w := ws[..|ws| - 1], ws[|ws| - 1];
      ApplyWritesPerTier(m, p, tier);
      ApplyWritesKeys(m, p);
      var es := EntriesFor(p, tier);
      if w.tier == tier {
        assert (es + [(w.attr, w.value)])[..|es|] == es;
      } else {
        assert es + [] == es;
      }
    }
  }

  /** `base_attributes` always has exactly the five tiers; within a tier an attribute is present
      exactly when some assignment targets it, and it holds the value of the last one. */
  lemma BaseAttributesSpec(table: Option<Node>, tier: string, attr: string)
    ensures BaseAttributes(table).Keys == set t | t in TIERS
    ensures tier in TIERS ==>
      var ws := if table.Some? then BaseWrites(table.value) else [];
      var es := EntriesFor(ws, tier);
      && (attr in BaseAttributes(table)[tier] <==> exists i :: 0 <= i < |es| && es[i].0 == attr)
      && forall i: nat :: LastFor(es, attr, i) ==> BaseAttributes(table)[tier][attr] == es[i].1
  {
    var ws := if table.Some? then BaseWrites(table.value) else [];
    assert BaseAttributes(table) == ApplyWrites(EmptyTiers(), ws);
    ApplyWritesKeys(EmptyTiers(), ws);
    if tier in TIERS {
      ApplyWritesPerTier(EmptyTiers(), ws, tier);
      AssignSpec(map[], EntriesFor(ws, tier), attr);
    }
  }

  /** The assignments of one tier are those of the whole sequence aimed at it. */
  lemma {:induction false} EntriesForSpec(ws: seq<Write>, tier: string, e: (string, string))
    ensures e in EntriesFor(ws, tier) <==> Write(tier, e.0, e.1) in ws
    decreases |ws|
  {
    if ws != [] {
      var p := ws[..|ws| - 1];
      EntriesForSpec(p, tier, e);
      assert ws == p + [ws[|ws| - 1]];
    }
  }

  lemma {:induction false} ColumnWritesOrigin(cells: seq<string>, km: seq<string>, j: nat, w: Write)
    requires 0 < |cells| && j <= |cells|
    requires w in ColumnWrites(cells, km, j)
    ensures exists idx :: 1 <= idx < j && idx < |km| && km[idx] == w.tier && w.tier != ""
              && w.attr == AttrKey(cells[0]) && w.value == cells[idx]
    decreases j
  {
    if w !in ColumnWrites(cells, km, j - 1) {
      assert w == Write(km[j - 1], AttrKey(cells[0]), cells[j - 1]);
    } else {
      ColumnWritesOrigin(cells, km, j - 1, w);
    }
  }

  lemma {:induction false} TableWritesOrigin(cellRows: seq<seq<string>>, km: seq<string>, i: nat, w: Write)
    requires i <= |cellRows|
    requires w in TableWrites(cellRows, km, i)
    ensures exists r, idx :: 0 <= r < i && 2 <= |cellRows[r]| && 1 <= idx < |cellRows[r]| && idx < |km|
              && km[idx] == w.tier && w.tier != "" && w.attr == AttrKey(cellRows[r][0]) && w.value == cellRows[r][idx]
    decreases i
  {
    if w in TableWrites(cellRows, km, i - 1) {
      TableWritesOrigin(cellRows, km, i - 1, w);
    } else {
      ColumnWritesOrigin(cellRows[i - 1], km, |cellRows[i - 1]|, w);
    }
  }

  /** A base attribute is written only from a data row of at least two cells, at a column `idx`
      ≥ 1 whose header names a tier, under the attribute key of the row's first cell. */
  lemma BaseWriteOrigin(table: Node, w: Write)
    requires w in BaseWrites(table)
    ensures w.tier in TIERS
    ensures var texts, km := DataTexts(table), Mapping(table);
            exists r, idx :: 0 <= r < |texts| && 2 <= |texts[r]| && 1 <= idx < |texts[r]| && idx < |km|
              && km[idx] == w.tier && w.attr == AttrKey(texts[r][0]) && w.value == texts[r][idx]
  {
    TableWritesOrigin(DataTexts(table), Mapping(table), |DataTexts(table)|, w);
  }

  // ---------------------------------------------------------------------------
  // Extra attributes
  // ---------------------------------------------------------------------------

  /** `extra_key_map`: the six labels of the extra-attribute table and their keys. */
  const EXTRA_KEYS: map<string, string> := map[
    "再部署时间" := "redployment_time",
    "初始部署费用" := "initial_deployment_cost",
    "攻击间隔" := "attack_interval",
    "阻挡数" := "block_count",
    "所属势力" := "faction",
    "隐藏势力" := "hidden_faction"]

  /** A header text with its straight and curly double quotes deleted, then stripped. */
  function ExtraLabel(header: string): string {
    Strip(RemoveAll(RemoveAll(RemoveAll(header, "\""), "“"), "”"))
  }

  /** The (key, value) one row of the extra table contributes: a row with a header cell and a data
      cell whose label is exactly one of the six. */
  function ExtraEntry(row: Node): (e: Option<(string, string)>)
    ensures e.Some? ==> Ths(row) != [] && Tds(row) != []
    ensures e.Some? <==> Ths(row) != [] && Tds(row) != [] && ExtraLabel(CleanTag(Ths(row)[0])) in EXTRA_KEYS
    ensures e.Some? ==> e.value.0 in EXTRA_KEYS.Values && e.value.1 == CleanTag(Tds(row)[0])
  {
    var ths, tds := Ths(row), Tds(row);
    if ths == [] || tds == [] then None
    else
      var name := ExtraLabel(CleanTag(ths[0]));
      if name in EXTRA_KEYS then Some((EXTRA_KEYS[name], CleanTag(tds[0]))) else None
  }

  /** The entries of the rows, in row order. */
  function ExtraEntries(rows: seq<Node>): seq<(string, string)>
    decreases |rows|
  {
    if rows == [] then []
    else
      var e := ExtraEntry(rows[|rows| - 1]);
      ExtraEntries(rows[..|rows| - 1]) + (if e.Some? then [e.value] else [])
  }

  /** `extra_attributes` as `parse_attrs` leaves it. */
  function ExtraAttributes(table: Option<Node>): map<string, string> {
    match table
    case None => map[]
    case Some(t) => Assign(map[], ExtraEntries(Rows(t)))
  }

  lemma ExtraEntriesSnoc(rows: seq<Node>, i: nat)
    requires i < |rows|
    ensures var e := ExtraEntry(rows[i]);
            ExtraEntries(rows[..i + 1]) == ExtraEntries(rows[..i]) + (if e.Some? then [e.value] else [])
  {
    assert rows[..i + 1][..i] == rows[..i];
  }

  /** The extra-attribute loop over every row of the table. */
  method FillExtraAttributes(table: Option<Node>) returns (extra: map<string, string>)
    ensures extra == ExtraAttributes(table)
  {
    extra := map[];
    if table.None? {
      return;
    }
    var rows := Rows(table.value);
    var i := 0;
    while i < |rows|
      invariant 0 <= i <= |rows|
      invariant extra == Assign(map[], ExtraEntries(rows[..i]))
    {
      ExtraEntriesSnoc(rows, i);
      ghost var es := ExtraEntries(rows[..i]);
      var ths := Ths(rows[i]);
      var tds := Tds(rows[i]);
      if ths == [] || tds == [] {
        assert ExtraEntry(rows[i]).None? && es + [] == es;
        i := i + 1;
        continue;
      }
      var thText := CleanTag(ths[0]);
      thText := Strip(RemoveAll(RemoveAll(RemoveAll(thText, "\""), "“"), "”"));
      var tdText := CleanTag(tds[0]);
      assert thText == ExtraLabel(CleanTag(ths[0]));
      if thText in EXTRA_KEYS {
        var e := (EXTRA_KEYS[thText], tdText);
        assert ExtraEntry(rows[i]) == Some(e);
        AssignSnoc(map[], es, e);
        extra := extra[EXTRA_KEYS[thText] := tdText];
      } else {
        assert ExtraEntry(rows[i]).None? && es + [] == es;
      }
      i := i + 1;
    }
    assert rows[..i] == rows;
  }

  lemma {:induction false} ExtraEntriesKeys(rows: seq<Node>)
    ensures forall i :: 0 <= i < |ExtraEntries(rows)| ==> ExtraEntries(rows)[i].0 in EXTRA_KEYS.Values
    decreases |rows|
  {
    if rows != [] { ExtraEntriesKeys(rows[..|rows| - 1]); }
  }

  /** Every key of `extra_attributes` is one of the six canonical names; each is present exactly
      when some row contributes it, and it holds the value of the last such row. */
  lemma ExtraAttributesSpec(table: Option<Node>, k: string)
    ensures k in ExtraAttributes(table) ==> k in EXTRA_KEYS.Values
    ensures var es := if table.Some? then ExtraEntries(Rows(table.value)) else [];
            && (k in ExtraAttributes(table) <==> exists i :: 0 <= i < |es| && es[i].0 == k)
            && forall i: nat :: LastFor(es, k, i) ==> k in ExtraAttributes(table) && ExtraAttributes(table)[k] == es[i].1
  {
    var es := if table.Some? then ExtraEntries(Rows(table.value)) else [];
    assert ExtraAttributes(table) == Assign(map[], es);
    AssignSpec(map[], es, k);
    if table.Some? { ExtraEntriesKeys(Rows(table.value)); }
  }
}
