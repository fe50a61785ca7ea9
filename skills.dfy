/**
  The skill tables of a detail page: `parse_skills` with its `extract_visible_text` and
  `parse_single_skill` in operators_detail_parse.py.

  A skill table's row 0 names the skill and lists its type tooltips; the rows at the fixed
  indices 8 and 11 (the level-7 and mastery-3 rows) give a level when they have five or more
  data cells; a row at n-2 holding a `<th>` switches to remark mode, and the next row with data
  cells gives the remark. A row without data cells is passed over before any of these tests.
 */
module Skills {
  import opened Wrappers
  import opened Strings
  import opened Markup
  import opened Utils
  import opened Soup

  datatype SkillLevel = SkillLevel(level: string, description: string, initialSp: string, spCost: string, duration: string)

  datatype Skill = Skill(
    skillNumber: nat,
    skillName: string,
    skillType: string,
    unlockCondition: string,
    remark: string,
    skillLevels: seq<SkillLevel>)

  const NO_LEVEL: SkillLevel := SkillLevel("", "", "", "", "")

  /** `"精英" + str(n)` */
  function Unlock(n: nat): string {
    "精英" + NatToString(n)
  }

  /** The rows that can give a level: index 8 (level 7) and index 11 (mastery 3). */
  predicate IsLevelRow(i: nat) {
    i == 8 || i == 11
  }

  // ---------------------------------------------------------------------------
  // extract_visible_text
  // ---------------------------------------------------------------------------

  /** `elem.contents`: the children of an element. */
  function Contents(n: Node): seq<Node> {
    if n.Element? then n.children else []
  }

  /** A `<span>` whose style hides it. */
  predicate HiddenSpan(n: Node) {
    n.Element? && n.name == "span" && Contains(n.style, "display:none")
  }

  /** What one child of a cell adds: a string child its stripped text, a visible `<span>` the
      text `spanText` gives it, each only when non-empty; any other child nothing. */
  function VisiblePart(child: Node, spanText: Node -> string): seq<string> {
    match child
    case Text(s) => if Strip(s) == "" then [] else [Strip(s)]
    case Element(name, style, _, _) =>
      if name == "span" && !Contains(style, "display:none") && spanText(child) != "" then [spanText(child)] else []
  }

  /** What the children `cs` add, in order. */
  function VisibleParts(cs: seq<Node>, spanText: Node -> string): seq<string> {
    Concat(cs, (c: Node) => VisiblePart(c, spanText))
  }

  /** `extract_visible_text`: the visible parts of a cell joined with single spaces. */
  function VisibleText(td: Node, spanText: Node -> string): string {
    Join(VisibleParts(Contents(td), spanText), " ")
  }

  method ExtractVisibleText(td: Node, spanText: Node -> string) returns (r: string)
    ensures r == VisibleText(td, spanText)
  {
    var cs := Contents(td);
    var parts: seq<string> := [];
    for i := 0 to |cs|
      invariant parts == VisibleParts(cs[..i], spanText)
    {
      assert cs[..i + 1][..i] == cs[..i];
      var part := VisibleChild(cs[i], spanText);
      parts := parts + part;
    }
    assert cs[..|cs|] == cs;
    r := Join(parts, " ");
  }

  /** The loop body of `extract_visible_text` on one child: what it appends to `visible_parts`. */
  method VisibleChild(child: Node, spanText: Node -> string) returns (part: seq<string>)
    ensures part == VisiblePart(child, spanText)
  {
    part := [];
    match child
    case Text(s) =>
      var stripped := Strip(s);
      if stripped != "" {
        part := [stripped];
      }
    case Element(name, style, _, _) =>
      if name == "span" && !Contains(style, "display:none") {
        var text := spanText(child);
        if text != "" {
          part := [text];
        }
      }
  }

  lemma VisiblePartsAppend(a: seq<Node>, b: seq<Node>, spanText: Node -> string)
    ensures VisibleParts(a + b, spanText) == VisibleParts(a, spanText) + VisibleParts(b, spanText)
  {
    ConcatAppend(a, b, (c: Node) => VisiblePart(c, spanText));
  }

  /** A child that is neither a string nor a visible `<span>` (a hidden span, a `<b>`, a `<br>`)
      adds nothing to the visible text. */
  lemma InvisibleChild(a: seq<Node>, h: Node, b: seq<Node>, spanText: Node -> string)
    requires h.Element? && (h.name != "span" || HiddenSpan(h))
    ensures VisibleParts(a + [h] + b, spanText) == VisibleParts(a + b, spanText)
  {
    assert (a + [h])[..|a|] == a;
    assert VisibleParts(a + [h], spanText) == VisibleParts(a, spanText);
    VisiblePartsAppend(a + [h], b, spanText);
    VisiblePartsAppend(a, b, spanText);
  }

  /** Every visible part is non-empty and trimmed when the span texts are trimmed. */
  lemma {:induction false} VisiblePartsTrimmed(cs: seq<Node>, spanText: Node -> string)
    requires forall n :: NoEdgeSpace(spanText(n))
    ensures forall i :: 0 <= i < |VisibleParts(cs, spanText)| ==>
              VisibleParts(cs, spanText)[i] != "" && NoEdgeSpace(VisibleParts(cs, spanText)[i])
    decreases |cs|
  {
    if cs != [] {
      var p := cs[..|cs| - 1];
      VisiblePartsTrimmed(p, spanText);
      assert VisibleParts(cs, spanText) == VisibleParts(p, spanText) + VisiblePart(cs[|cs| - 1], spanText);
    }
  }

  /** The visible text has no whitespace at either end. */
  lemma VisibleTextTrimmed(td: Node, spanText: Node -> string)
    requires forall n :: NoEdgeSpace(spanText(n))
    ensures NoEdgeSpace(VisibleText(td, spanText))
  {
    VisiblePartsTrimmed(Contents(td), spanText);
    JoinNoEdgeSpace(VisibleParts(Contents(td), spanText), " ");
  }

  // ---------------------------------------------------------------------------
  // What the row machine reads from a row
  // ---------------------------------------------------------------------------

  /** What either skill-row machine reads from one row: its number of data cells, whether it
      holds a `<th>`, the cleaned text of its first data cell, the skill name of cell 1 (its
      `<big>` if it has one), the cleaned texts of the `span.mc-tooltips` of cell 2, and the
      level of a row with five or more data cells. */
  datatype RowView = RowView(tdCount: nat, hasTh: bool, first: string, name: string, types: seq<string>, level: SkillLevel)

  /** The skill name in a header cell: the text of its first `<big>`, else of the cell. */
  function NameOf(cell: Node): string {
    match SelectOne(cell, Named(["big"]))
    case Some(big) => CleanTag(big)
    case None => CleanTag(cell)
  }

  function LevelOf(tds: seq<Node>, spanText: Node -> string): SkillLevel
    requires |tds| >= 5
  {
    SkillLevel(CleanTag(tds[0]), VisibleText(tds[1], spanText), CleanTag(tds[2]), CleanTag(tds[3]), CleanTag(tds[4]))
  }

  function ViewOf(row: Node, spanText: Node -> string): RowView {
    var tds := Tds(row);
    RowView(
      |tds|,
      HasTh(row),
      if tds == [] then "" else CleanTag(tds[0]),
      if |tds| >= 2 then NameOf(tds[1]) else "",
      if |tds| >= 3 then CleanAll(Select(tds[2], SpanOfClass("mc-tooltips"))) else [],
      if |tds| >= 5 then LevelOf(tds, spanText) else NO_LEVEL)
  }

  /** The views of all rows of a table; the non-empty case is its own function so that a proof
      about the views of a table does not read the cells of its first row. */
  function Views(rows: seq<Node>, spanText: Node -> string): (vs: seq<RowView>)
    ensures |vs| == |rows|
    decreases |rows|, 1
  {
    if rows == [] then [] else ViewsCons(rows, spanText)
  }

  function ViewsCons(rows: seq<Node>, spanText: Node -> string): (vs: seq<RowView>)
    requires rows != []
    ensures |vs| == |rows|
    decreases |rows|, 0
  {
    [ViewOf(rows[0], spanText)] + Views(rows[1..], spanText)
  }

  lemma {:induction false} ViewsAt(rows: seq<Node>, spanText: Node -> string, i: nat)
    requires i < |rows|
    ensures Views(rows, spanText)[i] == ViewOf(rows[i], spanText)
    decreases i
  {
    assert Views(rows, spanText) == ViewsCons(rows, spanText) == [ViewOf(rows[0], spanText)] + Views(rows[1..], spanText);
    if i > 0 {
      ViewsAt(rows[1..], spanText, i - 1);
      assert rows[1..][i - 1] == rows[i];
    }
  }

  /** What one iteration reads from row `idx`: `row.find_all("td")`, `row.find("th")`, and the
      texts of the cells it indexes. */
  method ReadRow(rows: seq<Node>, spanText: Node -> string, idx: nat) returns (v: RowView)
    requires idx < |rows|
    ensures v == Views(rows, spanText)[idx]
  {
    var tds := Tds(rows[idx]);
    var th := SelectOne(rows[idx], Named(["th"]));
    var first := if tds == [] then "" else CleanTag(tds[0]);
    var name := if |tds| >= 2 then NameOf(tds[1]) else "";
    var types := if |tds| >= 3 then CleanAll(Select(tds[2], SpanOfClass("mc-tooltips"))) else [];
    var level := NO_LEVEL;
    if |tds| >= 5 {
      var description := ExtractVisibleText(tds[1], spanText);
      level := SkillLevel(CleanTag(tds[0]), description, CleanTag(tds[2]), CleanTag(tds[3]), CleanTag(tds[4]));
    }
    ViewsAt(rows, spanText, idx);
    v := RowView(|tds|, th.Some?, first, name, types, level);
  }

  /** The level a row at `j` gives: one when it is a row of the table with five or more data cells. */
  function LevelAt(vs: seq<RowView>, j: nat): seq<SkillLevel> {
    if j < |vs| && vs[j].tdCount >= 5 then [vs[j].level] else []
  }

  /** The levels of a skill table: those of rows 8 and 11, in that order. */
  function LevelsOf(vs: seq<RowView>): (ls: seq<SkillLevel>)
    ensures |ls| <= 2
    ensures |vs| <= 8 ==> ls == []
    ensures |vs| <= 11 ==> |ls| <= 1
  {
    LevelAt(vs, 8) + LevelAt(vs, 11)
  }

  /** The rows up to `k` have given the levels of the level rows among them. */
  function LevelsBelow(vs: seq<RowView>, k: nat): seq<SkillLevel> {
    (if 8 < k then LevelAt(vs, 8) else []) + (if 11 < k then LevelAt(vs, 11) else [])
  }

  // ---------------------------------------------------------------------------
  // parse_single_skill
  // ---------------------------------------------------------------------------

  /** The loop's variables: `is_remark`, the skill's name, type, remark and levels, and whether
      the loop has left by `break`. */
  datatype Scan = Scan(isRemark: bool, name: string, skillType: string, remark: string, levels: seq<SkillLevel>, broke: bool)

  const START: Scan := Scan(false, "", "", "", [], false)

  /** One iteration of the loop on row `i`. */
  function Step(s: Scan, vs: seq<RowView>, i: nat): Scan
    requires i < |vs|
  {
    var v := vs[i];
    if s.broke || v.tdCount == 0 then s
    else if i == 0 then
      s.(name := if v.tdCount >= 2 then v.name else s.name,
         skillType := if v.tdCount >= 3 then Join(v.types, "|") else s.skillType)
    else if IsLevelRow(i) then
      if v.tdCount >= 5 then s.(levels := s.levels + [v.level]) else s
    else if i == |vs| - 2 && v.hasTh then s.(isRemark := true)
    else if s.isRemark then s.(remark := v.first, broke := true)
    else s
  }

  function ScanUpTo(vs: seq<RowView>, k: nat): Scan
    requires k <= |vs|
  {
    if k == 0 then START else Step(ScanUpTo(vs, k - 1), vs, k - 1)
  }

  /** The skill the loop's final state describes. */
  function Outcome(s: Scan, number: nat): (r: Skill)
    ensures r.skillNumber == number && r.unlockCondition == Unlock(number)
  {
    Skill(number, s.name, s.skillType, Unlock(number), s.remark, s.levels)
  }

  /** What `parse_single_skill` gives on table number `number`. */
  function SingleSkill(table: Node, number: nat): Skill {
    var vs := Views(Rows(table), CleanTag);
    Outcome(ScanUpTo(vs, |vs|), number)
  }

  /** The body of the row loop on row `idx`, given the row's view. */
  method SkillRow(ghost vs: seq<RowView>, n: nat, idx: nat, row: RowView, s: Scan) returns (t: Scan)
    requires n == |vs| && idx < n && vs[idx] == row
    requires !s.broke
    ensures t == Step(s, vs, idx)
  {
    t := s;
    if row.tdCount == 0 {
      return;
    }
    if idx == 0 {
      if row.tdCount >= 2 {
        t := t.(name := row.name);
      }
      if row.tdCount >= 3 {
        t := t.(skillType := Join(row.types, "|"));
      }
      return;
    }
    if idx == 8 || idx == 11 {
      if row.tdCount >= 5 {
        t := t.(levels := t.levels + [row.level]);
      }
      return;
    }
    if idx == n - 2 && row.hasTh {
      return t.(isRemark := true);
    }
    if s.isRemark {
      t := t.(remark := row.first, broke := true);
    }
  }

  /** The row loop: the loop's variables when it runs out of rows or `break`s after the remark. */
  method SkillRows(rows: seq<Node>) returns (s: Scan)
    ensures s == ScanUpTo(Views(rows, CleanTag), |rows|)
  {
    ghost var vs := Views(rows, CleanTag);
    var n := |rows|;
    s := START;
    var idx := 0;
    while idx < n
      invariant 0 <= idx <= n
      invariant !s.broke && ScanUpTo(vs, idx) == s
    {
      var row := ReadRow(rows, CleanTag, idx);
      s := SkillRow(vs, n, idx, row, s);
      if s.broke {
        StoppedStays(vs, idx + 1, n);
        return;
      }
      idx := idx + 1;
    }
  }

  method ParseSingleSkill(table: Node, number: nat) returns (skill: Skill)
    ensures skill == SingleSkill(table, number)
  {
    var s := SkillRows(Rows(table));
    skill := Skill(number, s.name, s.skillType, Unlock(number), s.remark, s.levels);
  }

  lemma {:induction false} StoppedStays(vs: seq<RowView>, k: nat, k': nat)
    requires k <= k' <= |vs|
    requires ScanUpTo(vs, k).broke
    ensures ScanUpTo(vs, k') == ScanUpTo(vs, k)
    decreases k' - k
  {
    if k < k' {
      StoppedStays(vs, k, k' - 1);
    }
  }

  // ---------------------------------------------------------------------------
  // The closed form of the machine
  // ---------------------------------------------------------------------------

  /** Row 0's skill name and type, when it has the cells for them. */
  function HeadName(vs: seq<RowView>): string {
    if vs != [] && vs[0].tdCount >= 2 then vs[0].name else ""
  }

  function HeadType(vs: seq<RowView>): string {
    if vs != [] && vs[0].tdCount >= 3 then Join(vs[0].types, "|") else ""
  }

  /** The row at n-2 switches to remark mode: it is neither row 0 nor a level row, and it has
      data cells and a `<th>`. */
  predicate RemarkSwitch(vs: seq<RowView>) {
    |vs| >= 3 && !IsLevelRow(|vs| - 2) && vs[|vs| - 2].tdCount > 0 && vs[|vs| - 2].hasTh
  }

  /** In remark mode the last row gives the remark, unless it is a level row or has no data cells. */
  predicate RemarkRead(vs: seq<RowView>) {
    RemarkSwitch(vs) && !IsLevelRow(|vs| - 1) && vs[|vs| - 1].tdCount > 0
  }

  function RemarkOf(vs: seq<RowView>): string {
    if RemarkRead(vs) then vs[|vs| - 1].first else ""
  }

  /** The machine's state after rows 0 .. k-1, in closed form. */
  function ScanAt(vs: seq<RowView>, k: nat): Scan
    requires k <= |vs|
  {
    Scan(
      RemarkSwitch(vs) && k > |vs| - 2,
      if k > 0 then HeadName(vs) else "",
      if k > 0 then HeadType(vs) else "",
      if k == |vs| then RemarkOf(vs) else "",
      LevelsBelow(vs, k),
      k == |vs| && RemarkRead(vs))
  }

  lemma {:induction false} ScanIsClosed(vs: seq<RowView>, k: nat)
    requires k <= |vs|
    ensures ScanUpTo(vs, k) == ScanAt(vs, k)
    decreases k
  {
    if k > 0 {
      ScanIsClosed(vs, k - 1);
      var i := k - 1;
      if IsLevelRow(i) && vs[i].tdCount >= 5 {
        assert LevelsBelow(vs, k) == LevelsBelow(vs, i) + [vs[i].level];
      } else {
        assert LevelsBelow(vs, k) == LevelsBelow(vs, i);
      }
    }
  }

  /** The skill a table describes, in closed form. */
  function SkillOf(vs: seq<RowView>, number: nat): Skill {
    Skill(number, HeadName(vs), HeadType(vs), Unlock(number), RemarkOf(vs), LevelsOf(vs))
  }

  lemma MachineIsClosedForm(vs: seq<RowView>, number: nat)
    ensures Outcome(ScanUpTo(vs, |vs|), number) == SkillOf(vs, number)
  {
    ScanIsClosed(vs, |vs|);
  }

  /** A skill's levels are those of rows 8 and 11 when they have five or more data cells, in
      that order, so a table of at most 8 rows has none and one of at most 11 rows at most one. */
  lemma SkillLevelsShape(table: Node, number: nat)
    ensures var r, rows := SingleSkill(table, number), Rows(table);
            && r.skillNumber == number && r.unlockCondition == Unlock(number)
            && r.skillLevels ==
                 (if 8 < |rows| && |Tds(rows[8])| >= 5 then [LevelOf(Tds(rows[8]), CleanTag)] else [])
                 + (if 11 < |rows| && |Tds(rows[11])| >= 5 then [LevelOf(Tds(rows[11]), CleanTag)] else [])
            && (|rows| <= 8 ==> r.skillLevels == [])
            && (|rows| <= 11 ==> |r.skillLevels| <= 1)
  {
    var rows := Rows(table);
    var vs := Views(rows, CleanTag);
    MachineIsClosedForm(vs, number);
    if 8 < |rows| { ViewsAt(rows, CleanTag, 8); }
    if 11 < |rows| { ViewsAt(rows, CleanTag, 11); }
  }

  /** The name and type come from row 0 only: the name from its cell 1 (the `<big>` text if there
      is one), the type from the tooltip spans of its cell 2, joined with `|`. */
  lemma SkillHeadShape(table: Node, number: nat)
    ensures var r, rows := SingleSkill(table, number), Rows(table);
            && (rows == [] || |Tds(rows[0])| < 2 ==> r.skillName == "")
            && (rows != [] && |Tds(rows[0])| >= 2 ==> r.skillName == NameOf(Tds(rows[0])[1]))
            && (rows != [] && |Tds(rows[0])| >= 3 ==>
                  r.skillType == Join(CleanAll(Select(Tds(rows[0])[2], SpanOfClass("mc-tooltips"))), "|"))
  {
    var rows := Rows(table);
    var vs := Views(rows, CleanTag);
    MachineIsClosedForm(vs, number);
    if rows != [] { ViewsAt(rows, CleanTag, 0); }
  }

  /** A remark is read only from the last row, when the row before it holds a `<th>` and neither
      of the two is a level row. */
  lemma SkillRemarkShape(table: Node, number: nat)
    ensures var r, rows := SingleSkill(table, number), Rows(table);
            r.remark != "" ==>
              && |rows| >= 3 && HasTh(rows[|rows| - 2])
              && !IsLevelRow(|rows| - 2) && !IsLevelRow(|rows| - 1)
              && |Tds(rows[|rows| - 1])| > 0 && r.remark == CleanTag(Tds(rows[|rows| - 1])[0])
  {
    var rows := Rows(table);
    var vs := Views(rows, CleanTag);
    var r := SingleSkill(table, number);
    assert r.remark == RemarkOf(vs) by {
      MachineIsClosedForm(vs, number);
    }
    if r.remark != "" {
      var n := |rows|;
      assert RemarkRead(vs) && r.remark == vs[n - 1].first;
      assert HasTh(rows[n - 2]) by {
        RowFacts(rows, CleanTag, n - 2);
      }
      assert |Tds(rows[n - 1])| > 0 && r.remark == CleanTag(Tds(rows[n - 1])[0]) by {
        RowFacts(rows, CleanTag, n - 1);
      }
    }
  }

  /** The cell count, `<th>` test and first text the view of row `i` holds. */
  lemma RowFacts(rows: seq<Node>, spanText: Node -> string, i: nat)
    requires i < |rows|
    ensures var v := Views(rows, spanText)[i];
            && v.tdCount == |Tds(rows[i])| && v.hasTh == HasTh(rows[i])
            && (v.tdCount > 0 ==> v.first == CleanTag(Tds(rows[i])[0]))
  {
    ViewsAt(rows, spanText, i);
  }

  /** The cell count and `<th>` test the view of row `i` holds. */
  lemma RowCounts(rows: seq<Node>, spanText: Node -> string, i: nat)
    requires i < |rows|
    ensures Views(rows, spanText)[i].tdCount == |Tds(rows[i])|
    ensures Views(rows, spanText)[i].hasTh == HasTh(rows[i])
  {
    ViewsAt(rows, spanText, i);
  }

  // ---------------------------------------------------------------------------
  // parse_skills: the table walk and the skills
  // ---------------------------------------------------------------------------

  /** A `<table>` whose class list holds `wikitable`, `nomobile` and `logo`. */
  predicate IsSkillTable(n: Node) {
    n.Element? && "wikitable" in n.classes && "nomobile" in n.classes && "logo" in n.classes
  }

  /** `clean_text(skill_no).find("技能") > -1` */
  method MentionsSkills(sibs: seq<Node>, p: nat) returns (b: bool)
    requires p < |sibs|
    ensures b == Contains(CleanTexts(sibs)[p], "技能")
  {
    var text := ReadText(sibs, p);
    b := Contains(text, "技能");
  }

  /** The skill tables found from the anchor paragraph `p` on, with `left` tries remaining: a
      paragraph whose text mentions 技能 contributes the next `<table>` sibling when it is a
      skill table, and the walk goes on from the next paragraph; any other paragraph, or none,
      ends it. */
  function SkillTables(sibs: seq<Node>, p: Option<nat>, left: nat): (r: seq<Node>)
    requires p.Some? ==> p.value < |sibs|
    ensures |r| <= left
    decreases left, 1
  {
    if left == 0 || p.None? then [] else SkillTablesAt(sibs, p.value, left)
  }

  /** The walk at the anchor paragraph `sibs[p]`. */
  function SkillTablesAt(sibs: seq<Node>, p: nat, left: nat): (r: seq<Node>)
    requires p < |sibs| && 0 < left
    ensures |r| <= left
    decreases left, 0
  {
    if !Contains(CleanTexts(sibs)[p], "技能") then []
    else
      var t := NextNamed(sibs, p + 1, "table");
      (if t.Some? && IsSkillTable(sibs[t.value]) then [sibs[t.value]] else [])
      + SkillTables(sibs, NextNamed(sibs, p + 1, "p"), left - 1)
  }

  /** Every table the walk finds is one of the siblings and carries the three skill-table
      classes. */
  lemma {:induction false} SkillTablesShape(sibs: seq<Node>, p: Option<nat>, left: nat)
    requires p.Some? ==> p.value < |sibs|
    ensures forall i :: 0 <= i < |SkillTables(sibs, p, left)| ==>
      IsSkillTable(SkillTables(sibs, p, left)[i]) && SkillTables(sibs, p, left)[i] in sibs
    decreases left
  {
    if left > 0 && p.Some? && Contains(CleanTexts(sibs)[p.value], "技能") {
      var next := NextNamed(sibs, p.value + 1, "p");
      SkillTablesShape(sibs, next, left - 1);
      var t := NextNamed(sibs, p.value + 1, "table");
      var head := if t.Some? && IsSkillTable(sibs[t.value]) then [sibs[t.value]] else [];
      assert SkillTables(sibs, p, left) == head + SkillTables(sibs, next, left - 1);
    }
  }

  /** One try of the walk: the table the anchor `skillNo` contributes and the next anchor, or
      `stop` when the walk ends here. */
  method WalkStep(sibs: seq<Node>, skillNo: Option<nat>, left: nat)
    returns (found: seq<Node>, next: Option<nat>, stop: bool)
    requires 0 < left
    requires skillNo.Some? ==> skillNo.value < |sibs|
    ensures next.Some? ==> next.value < |sibs|
    ensures stop ==> found == [] && SkillTables(sibs, skillNo, left) == []
    ensures !stop ==> SkillTables(sibs, skillNo, left) == found + SkillTables(sibs, next, left - 1)
  {
    found, next, stop := [], None, true;
    if skillNo.None? {
      return;
    }
    var mentions := MentionsSkills(sibs, skillNo.value);
    if mentions {
      var current := NextNamed(sibs, skillNo.value + 1, "table");
      if current.Some? && IsSkillTable(sibs[current.value]) {
        found := [sibs[current.value]];
      }
      next, stop := NextNamed(sibs, skillNo.value + 1, "p"), false;
    }
  }

  /** The walk over at most three anchor paragraphs after the skills' `<h2>`. */
  method FindSkillTables(sibs: seq<Node>) returns (tables: seq<Node>)
    ensures tables == SkillTables(sibs, NextNamed(sibs, 0, "p"), 3)
  {
    ghost var all := SkillTables(sibs, NextNamed(sibs, 0, "p"), 3);
    var skillNo: Option<nat> := NextNamed(sibs, 0, "p");
    tables := [];
    for i := 1 to 4
      invariant skillNo.Some? ==> skillNo.value < |sibs|
      invariant tables + SkillTables(sibs, skillNo, 4 - i) == all
    {
      var found, next, stop := WalkStep(sibs, skillNo, 4 - i);
      if stop {
        Regroup(tables, [], [], all);
        break;
      }
      Regroup(tables, found, SkillTables(sibs, next, 3 - i), all);
      tables, skillNo := tables + found, next;
    }
    Regroup(tables, [], SkillTables(sibs, skillNo, 4 - 4), all);
  }

  lemma Regroup(a: seq<Node>, b: seq<Node>, c: seq<Node>, all: seq<Node>)
    requires a + (b + c) == all
    ensures (a + b) + c == all && (b == [] && c == [] ==> a == all)
  {
    assert a + (b + c) == (a + b) + c;
    if b == [] && c == [] {
      assert a + [] == a;
    }
  }

  /** What `parse_single_skill` gives on every table found, numbered from 1. */
  function ParsedSkills(tables: seq<Node>): (r: seq<Skill>)
    ensures |r| == |tables|
    ensures forall i :: 0 <= i < |r| ==> r[i].skillNumber == i + 1 && r[i].unlockCondition == Unlock(i + 1)
  {
    seq(|tables|, i requires 0 <= i < |tables| => SingleSkill(tables[i], i + 1))
  }

  /** The skills among the first `k` that have a name, in order. */
  function KeptSkills(parsed: seq<Skill>, k: nat): (r: seq<Skill>)
    requires k <= |parsed|
    ensures |r| <= k
    ensures forall i :: 0 <= i < |r| ==> r[i].skillName != ""
    decreases k
  {
    if k == 0 then []
    else KeptSkills(parsed, k - 1) + (if parsed[k - 1].skillName != "" then [parsed[k - 1]] else [])
  }

  /** With skills numbered by position, the kept skills are in increasing order of number and
      each is the parsed skill of its number ... */
  lemma {:induction false} KeptSkillsOrder(parsed: seq<Skill>, k: nat)
    requires k <= |parsed|
    requires forall i :: 0 <= i < |parsed| ==> parsed[i].skillNumber == i + 1
    ensures forall i :: 0 <= i < |KeptSkills(parsed, k)| ==>
      var s := KeptSkills(parsed, k)[i]; 1 <= s.skillNumber <= k && s == parsed[s.skillNumber - 1]
    ensures forall i, j :: 0 <= i < j < |KeptSkills(parsed, k)| ==>
      KeptSkills(parsed, k)[i].skillNumber < KeptSkills(parsed, k)[j].skillNumber
    decreases k
  {
    if k > 0 {
      KeptSkillsOrder(parsed, k - 1);
      var r0 := KeptSkills(parsed, k - 1);
      var tail := if parsed[k - 1].skillName != "" then [parsed[k - 1]] else [];
      var r := r0 + tail;
      assert KeptSkills(parsed, k) == r;
      forall i | 0 <= i < |r|
        ensures 1 <= r[i].skillNumber <= k && r[i] == parsed[r[i].skillNumber - 1]
        ensures i < |r0| ==> r[i].skillNumber < k
      {
        if i < |r0| {
          assert r[i] == r0[i];
        } else {
          assert r[i] == parsed[k - 1];
        }
      }
      forall i, j | 0 <= i < j < |r| ensures r[i].skillNumber < r[j].skillNumber {
        if j < |r0| {
          assert r[i] == r0[i] && r[j] == r0[j];
        }
      }
    }
  }

  /** ... and skill `j + 1` is kept exactly when it has a name. */
  lemma {:induction false} KeptSkillsNamed(parsed: seq<Skill>, k: nat, j: nat)
    requires k <= |parsed| && j < k
    requires forall i :: 0 <= i < |parsed| ==> parsed[i].skillNumber == i + 1
    ensures parsed[j] in KeptSkills(parsed, k) <==> parsed[j].skillName != ""
    decreases k
  {
    var r0 := KeptSkills(parsed, k - 1);
    var tail := if parsed[k - 1].skillName != "" then [parsed[k - 1]] else [];
    assert KeptSkills(parsed, k) == r0 + tail;
    if j < k - 1 {
      KeptSkillsNamed(parsed, k - 1, j);
      assert parsed[j] != parsed[k - 1] by {
        assert parsed[j].skillNumber != parsed[k - 1].skillNumber;
      }
      assert parsed[j] !in tail;
    } else {
      KeptSkillsOrder(parsed, k - 1);
      assert forall i :: 0 <= i < |r0| ==> r0[i] != parsed[j];
    }
  }

  /** `parse_skills`: nothing without the `span#技能` header or its `<h2>`; otherwise the skills
      of the tables found, those without a name dropped. */
  function SkillsOf(s: Soup): (r: seq<Skill>)
    ensures |r| <= 3
    ensures s.skillHeader.NoSkillHeader? || s.skillHeader.NoH2? ==> r == []
    ensures forall i :: 0 <= i < |r| ==> r[i].skillName != ""
  {
    match s.skillHeader
    case NoSkillHeader => []
    case NoH2 => []
    case UnderH2(sibs) =>
      var tables := SkillTables(sibs, NextNamed(sibs, 0, "p"), 3);
      KeptSkills(ParsedSkills(tables), |tables|)
  }

  /** The skills of a page are numbered 1 to 3 in increasing order, each with the unlock
      condition of its number and the content of its own table. */
  lemma SkillsOfShape(s: Soup)
    requires s.skillHeader.UnderH2?
    ensures var sibs := s.skillHeader.siblings;
      var tables := SkillTables(sibs, NextNamed(sibs, 0, "p"), 3);
      var r := SkillsOf(s);
      && (forall i :: 0 <= i < |r| ==> 1 <= r[i].skillNumber <= |tables| <= 3)
      && (forall i :: 0 <= i < |r| ==> r[i].unlockCondition == Unlock(r[i].skillNumber))
      && (forall i :: 0 <= i < |r| ==> r[i] == SingleSkill(tables[r[i].skillNumber - 1], r[i].skillNumber))
      && (forall i, j :: 0 <= i < j < |r| ==> r[i].skillNumber < r[j].skillNumber)
  {
    var sibs := s.skillHeader.siblings;
    var tables := SkillTables(sibs, NextNamed(sibs, 0, "p"), 3);
    assert SkillsOf(s) == KeptSkills(ParsedSkills(tables), |tables|);
    KeptParsedShape(tables);
  }

  /** The kept skills of any list of tables, numbered by position. */
  lemma KeptParsedShape(tables: seq<Node>)
    ensures var r := KeptSkills(ParsedSkills(tables), |tables|);
      && (forall i :: 0 <= i < |r| ==> 1 <= r[i].skillNumber <= |tables|)
      && (forall i :: 0 <= i < |r| ==> r[i].unlockCondition == Unlock(r[i].skillNumber))
      && (forall i :: 0 <= i < |r| ==> r[i] == SingleSkill(tables[r[i].skillNumber - 1], r[i].skillNumber))
      && (forall i, j :: 0 <= i < j < |r| ==> r[i].skillNumber < r[j].skillNumber)
  {
    var parsed := ParsedSkills(tables);
    var r := KeptSkills(parsed, |tables|);
    KeptSkillsOrder(parsed, |tables|);
    forall i | 0 <= i < |r|
      ensures r[i] == SingleSkill(tables[r[i].skillNumber - 1], r[i].skillNumber)
    {
      var q := r[i].skillNumber - 1;
      assert r[i] == parsed[q];
    }
  }

  method ParseSkills(s: Soup) returns (skills: seq<Skill>)
    ensures skills == SkillsOf(s)
  {
    if s.skillHeader.NoSkillHeader? || s.skillHeader.NoH2? {
      return [];
    }
    var tables := FindSkillTables(s.skillHeader.siblings);
    skills := ParseSkillTables(tables);
  }

  /** The loop over the tables found, numbered from 1, keeping the skills that have a name. */
  method ParseSkillTables(tables: seq<Node>) returns (skills: seq<Skill>)
    ensures skills == KeptSkills(ParsedSkills(tables), |tables|)
  {
    ghost var parsed := ParsedSkills(tables);
    skills := [];
    for idx := 1 to |tables| + 1
      invariant skills == KeptSkills(parsed, idx - 1)
    {
      var skill := ParseSingleSkill(tables[idx - 1], idx);
      assert skill == parsed[idx - 1];
      if skill.skillName != "" {
        skills := skills + [skill];
      }
    }
  }
}
