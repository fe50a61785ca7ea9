/**
  The older single-operator parser of parse_operator.py, where it differs from the detail
  parser: its text helpers `_txt` and `_clean_desc`, the extra-attribute table read as
  consecutive (key, value) cell pairs, the skill row machine that does not pass over rows
  without data cells, and the skill-table walk that follows `<table>` siblings directly and
  keeps every skill it parses.

  Its base-attribute table, trait table and talent tables are read by the same code as in the
  detail parser, and they are modelled once, in Attributes, Characteristic and Talents.
 */
module Legacy {
  import opened Wrappers
  import opened Strings
  import opened Markup
  import opened Utils
  import opened Dicts
  import opened Soup
  import Attributes
  import Skills

  // ---------------------------------------------------------------------------
  // _txt and _clean_desc
  // ---------------------------------------------------------------------------

  /** `_txt(tag)`: "" for no tag; otherwise the stripped strings concatenated, the "（+）"
      marker deleted and the result stripped. It agrees with `clean_text` on a tag. */
  function Txt(tag: Option<Node>): (r: string)
    ensures tag.None? ==> r == ""
    ensures tag.Some? ==> r == CleanText(Tag(tag.value), true, false)
  {
    match tag
    case None => ""
    case Some(n) => Strip(RemoveAll(GetText(n, ""), PLUS_MARK))
  }

  /** `_clean_desc(tag)`: the noise spans emptied, then `_txt`; it agrees with `clean_desc`. */
  function DescText(tag: Option<Node>): (r: string)
    ensures r == CleanDesc(tag)
  {
    match tag
    case None => ""
    case Some(n) => Txt(Some(Prune(n)))
  }

  // ---------------------------------------------------------------------------
  // The extra-attribute table, read pairwise
  // ---------------------------------------------------------------------------

  /** `extra_key_map.get(raw_key, raw_key)`: a known label's canonical key, any other label as it is. */
  function ExtraKey(raw: string): string {
    if raw in Attributes.EXTRA_KEYS then Attributes.EXTRA_KEYS[raw] else raw
  }

  /** The first `j` (key, value) pairs of a row's cell texts: cells 2q and 2q+1 for each q < j. */
  function Pairs(cells: seq<string>, j: nat): (r: seq<(string, string)>)
    requires 2 * j <= |cells|
    ensures |r| == j
    decreases j
  {
    if j == 0 then [] else Pairs(cells, j - 1) + [(ExtraKey(cells[2 * j - 2]), cells[2 * j - 1])]
  }

  /** The pairs `for i in range(0, len(cells) - 1, 2)` visits. */
  function RowPairs(cells: seq<string>): seq<(string, string)> {
    Pairs(cells, |cells| / 2)
  }

  lemma {:induction false} PairsAt(cells: seq<string>, j: nat, q: nat)
    requires 2 * j <= |cells| && q < j
    ensures Pairs(cells, j)[q] == (ExtraKey(cells[2 * q]), cells[2 * q + 1])
    decreases j
  {
    if q < j - 1 {
      PairsAt(cells, j - 1, q);
    }
  }

  lemma {:induction false} PairsExtend(cells: seq<string>, c: string, j: nat)
    requires 2 * j <= |cells|
    ensures Pairs(cells + [c], j) == Pairs(cells, j)
    decreases j
  {
    if j > 0 {
      PairsExtend(cells, c, j - 1);
      assert (cells + [c])[2 * j - 2] == cells[2 * j - 2] && (cells + [c])[2 * j - 1] == cells[2 * j - 1];
    }
  }

  /** A row of n cells gives n / 2 pairs; pair q is cell 2q, under its key, with cell 2q+1. */
  lemma RowPairsSpec(cells: seq<string>)
    ensures |RowPairs(cells)| == |cells| / 2
    ensures forall q :: 0 <= q < |cells| / 2 ==> RowPairs(cells)[q] == (ExtraKey(cells[2 * q]), cells[2 * q + 1])
  {
    forall q | 0 <= q < |cells| / 2
      ensures RowPairs(cells)[q] == (ExtraKey(cells[2 * q]), cells[2 * q + 1])
    {
      PairsAt(cells, |cells| / 2, q);
    }
  }

  /** A trailing cell left over after the pairs contributes nothing. */
  lemma TrailingCellIgnored(cells: seq<string>, c: string)
    requires |cells| % 2 == 0
    ensures RowPairs(cells + [c]) == RowPairs(cells)
  {
    assert |cells + [c]| / 2 == |cells| / 2;
    PairsExtend(cells, c, |cells| / 2);
  }

  /** The pairs of the rows 0 .. i-1, in order. */
  function TablePairs(texts: seq<seq<string>>, i: nat): seq<(string, string)>
    requires i <= |texts|
    decreases i
  {
    if i == 0 then [] else TablePairs(texts, i - 1) + RowPairs(texts[i - 1])
  }

  /** The cell texts (`tr.select("th, td")`) of every row of the table. */
  function PairTexts(table: Node): (r: seq<seq<string>>)
    ensures |r| == |Rows(table)|
  {
    Attributes.RowTexts(Rows(table))
  }

  /** `extra_attributes` as the older `parse_attrs` leaves it. */
  function PairedExtra(table: Option<Node>): map<string, string> {
    match table
    case None => map[]
    case Some(t) => Assign(map[], TablePairs(PairTexts(t), |PairTexts(t)|))
  }

  lemma {:induction false} TablePairsContains(texts: seq<seq<string>>, i: nat, r: nat, e: (string, string))
    requires r < i <= |texts|
    requires e in RowPairs(texts[r])
    ensures e in TablePairs(texts, i)
    decreases i
  {
    if r < i - 1 {
      TablePairsContains(texts, i - 1, r, e);
    }
  }

  /** A key is present exactly when some pair carries it, and it holds the value of the last such
      pair: a later pair overwrites an earlier one. */
  lemma PairedExtraSpec(table: Option<Node>, k: string)
    ensures var es := if table.Some? then TablePairs(PairTexts(table.value), |PairTexts(table.value)|) else [];
            && (k in PairedExtra(table) <==> exists i :: 0 <= i < |es| && es[i].0 == k)
            && forall i: nat :: LastFor(es, k, i) ==> k in PairedExtra(table) && PairedExtra(table)[k] == es[i].1
  {
    var es := if table.Some? then TablePairs(PairTexts(table.value), |PairTexts(table.value)|) else [];
    assert PairedExtra(table) == Assign(map[], es);
    AssignSpec(map[], es, k);
  }

  /** A label outside the six known ones is kept as a key of its own. */
  lemma UnknownLabelKept(table: Node, r: nat, q: nat)
    requires r < |PairTexts(table)| && 2 * q + 1 < |PairTexts(table)[r]|
    requires PairTexts(table)[r][2 * q] !in Attributes.EXTRA_KEYS
    ensures PairTexts(table)[r][2 * q] in PairedExtra(Some(table))
  {
    var texts := PairTexts(table);
    var cells := texts[r];
    RowPairsSpec(cells);
    var e := RowPairs(cells)[q];
    assert e.0 == cells[2 * q];
    TablePairsContains(texts, |texts|, r, e);
    var es := TablePairs(texts, |texts|);
    var i :| 0 <= i < |es| && es[i] == e;
    AssignSpec(map[], es, e.0);
  }

  /** The older extra-attribute fill: every row, every pair of its cells. */
  method FillPairedExtra(table: Option<Node>) returns (extra: map<string, string>)
    ensures extra == PairedExtra(table)
  {
    extra := map[];
    if table.None? {
      return;
    }
    var rows := Rows(table.value);
    ghost var texts := PairTexts(table.value);
    for r := 0 to |rows|
      invariant extra == Assign(map[], TablePairs(texts, r))
    {
      var cells := Attributes.ReadCells(rows, r);
      extra := FillPairs(extra, cells);
      AssignAppend(map[], TablePairs(texts, r), RowPairs(cells));
    }
  }

  /** The pairwise loop over one row's cells: each pair assigns its canonical key. */
  method FillPairs(extra0: map<string, string>, cells: seq<string>) returns (extra: map<string, string>)
    ensures extra == Assign(extra0, RowPairs(cells))
  {
    extra := extra0;
    var i := 0;
    ghost var j: nat := 0;
    while i < |cells| - 1
      invariant i == 2 * j <= |cells|
      invariant extra == Assign(extra0, Pairs(cells, j))
    {
      var rawKey, val := cells[i], cells[i + 1];
      var key := ExtraKey(rawKey);
      assert Pairs(cells, j + 1) == Pairs(cells, j) + [(key, val)];
      AssignSnoc(extra0, Pairs(cells, j), (key, val));
      extra := extra[key := val];
      i, j := i + 2, j + 1;
    }
    HalfOf(|cells|, j);
  }

  lemma HalfOf(n: nat, j: nat)
    requires 2 * j <= n <= 2 * j + 1
    ensures n / 2 == j
  {
  }

  // ---------------------------------------------------------------------------
  // parse_single_skill, the older machine
  // ---------------------------------------------------------------------------

  /** `child.get_text(strip=True)`: the text the older `extract_visible_text` takes from a span. */
  function PlainText(n: Node): string {
    GetText(n, "")
  }

  /** The tooltip texts that are not empty, in order. */
  function NonEmpty(ts: seq<string>): seq<string> {
    KeepIf(ts, (t: string) => t != "")
  }

  /** The "|"-join of the non-empty tooltip texts: `skill_type`. */
  function TypeText(types: seq<string>): string {
    Join(NonEmpty(types), "|")
  }

  /** The parts of `skill_type` are the non-empty tooltip texts, and every one of them. */
  lemma NonEmptySpec(ts: seq<string>)
    ensures forall i :: 0 <= i < |NonEmpty(ts)| ==> NonEmpty(ts)[i] != "" && NonEmpty(ts)[i] in ts
    ensures forall t :: t in ts && t != "" ==> t in NonEmpty(ts)
  {
    KeepIfSpec(ts, (t: string) => t != "");
  }

  /** How the loop has ended: not yet, by `break` after the remark, or by an `IndexError`. */
  datatype Stop = Reading | Broke | Failed

  /** The loop's variables: `is_remark`, the skill's name, type, remark and levels, and how it ended. */
  datatype Scan = Scan(isRemark: bool, name: string, skillType: string, remark: string,
                       levels: seq<Skills.SkillLevel>, stop: Stop)

  const START: Scan := Scan(false, "", "", "", [], Reading)

  /** One iteration on row `i`: row 0 indexes cells 1 and 2, the level rows read five cells
      when they have them, the row at n-2 with a `<th>` switches to remark mode, and in remark
      mode the next row's cell 0 is the remark. */
  function Step(s: Scan, vs: seq<Skills.RowView>, i: nat): Scan
    requires i < |vs|
  {
    var v := vs[i];
    if s.stop != Reading then s
    else if i == 0 then
      if v.tdCount < 2 then s.(stop := Failed)
      else if v.tdCount < 3 then s.(name := v.name, stop := Failed)
      else s.(name := v.name, skillType := TypeText(v.types))
    else if Skills.IsLevelRow(i) then
      if v.tdCount >= 5 then s.(levels := s.levels + [v.level]) else s
    else if i == |vs| - 2 && v.hasTh then s.(isRemark := true)
    else if s.isRemark then
      if v.tdCount == 0 then s.(stop := Failed) else s.(remark := v.first, stop := Broke)
    else s
  }

  function ScanUpTo(vs: seq<Skills.RowView>, k: nat): Scan
    requires k <= |vs|
  {
    if k == 0 then START else Step(ScanUpTo(vs, k - 1), vs, k - 1)
  }

  /** The skill the final state describes, or the `IndexError` that ended the loop. */
  function Outcome(s: Scan, number: nat): (r: Result<Skills.Skill, ParseError>)
    ensures r.Err? <==> s.stop == Failed
    ensures r.Ok? ==> r.value.skillNumber == number && r.value.unlockCondition == Skills.Unlock(number)
  {
    if s.stop == Failed then Err(IndexError)
    else Ok(Skills.Skill(number, s.name, s.skillType, Skills.Unlock(number), s.remark, s.levels))
  }

  /** What the older `parse_single_skill` gives on table number `number`. */
  function SingleSkill(table: Node, number: nat): Result<Skills.Skill, ParseError> {
    var vs := Skills.Views(Rows(table), PlainText);
    Outcome(ScanUpTo(vs, |vs|), number)
  }

  lemma {:induction false} StoppedStays(vs: seq<Skills.RowView>, k: nat, k': nat)
    requires k <= k' <= |vs|
    requires ScanUpTo(vs, k).stop != Reading
    ensures ScanUpTo(vs, k') == ScanUpTo(vs, k)
    decreases k' - k
  {
    if k < k' {
      StoppedStays(vs, k, k' - 1);
    }
  }

  /** The body of the row loop on row `idx`, given the row's view. */
  method SkillRow(ghost vs: seq<Skills.RowView>, n: nat, idx: nat, row: Skills.RowView, s: Scan) returns (t: Scan)
    requires n == |vs| && idx < n && vs[idx] == row
    requires s.stop == Reading
    ensures t == Step(s, vs, idx)
  {
    t := s;
    if idx == 0 {
      if row.tdCount < 2 {
        return t.(stop := Failed);
      }
      t := t.(name := row.name);
      if row.tdCount < 3 {
        return t.(stop := Failed);
      }
      return t.(skillType := Join(NonEmpty(row.types), "|"));
    }
    if idx == 8 || idx == 11 {
      if row.tdCount >= 5 {
        t := t.(levels := t.levels + [row.level]);
      }
      return;
    }
    if idx == n - 2 && row.hasTh {
      return t.(isRemark := true);
    }
    if s.isRemark {
      if row.tdCount == 0 {
        return t.(stop := Failed);
      }
      t := t.(remark := row.first, stop := Broke);
    }
  }

  /** The row loop, until the rows run out, the remark is read or an `IndexError` is raised. */
  method SkillRows(rows: seq<Node>) returns (s: Scan)
    ensures s == ScanUpTo(Skills.Views(rows, PlainText), |rows|)
  {
    ghost var vs := Skills.Views(rows, PlainText);
    var n := |rows|;
    s := START;
    var idx := 0;
    while idx < n
      invariant 0 <= idx <= n
      invariant s.stop == Reading && ScanUpTo(vs, idx) == s
    {
      var row := Skills.ReadRow(rows, PlainText, idx);
      s := SkillRow(vs, n, idx, row, s);
      if s.stop != Reading {
        StoppedStays(vs, idx + 1, n);
        return;
      }
      idx := idx + 1;
    }
  }

  method ParseSingleSkill(table: Node, number: nat) returns (r: Result<Skills.Skill, ParseError>)
    ensures r == SingleSkill(table, number)
  {
    var s := SkillRows(Rows(table));
    if s.stop == Failed {
      return Err(IndexError);
    }
    r := Ok(Skills.Skill(number, s.name, s.skillType, Skills.Unlock(number), s.remark, s.levels));
  }

  // ---------------------------------------------------------------------------
  // The closed form of the older machine
  // ---------------------------------------------------------------------------

  /** Row 0 lacks cell 1 or cell 2. */
  predicate HeadFails(vs: seq<Skills.RowView>) {
    vs != [] && vs[0].tdCount < 3
  }

  /** The row at n-2 switches to remark mode: it is neither row 0 nor a level row and holds a `<th>`. */
  predicate RemarkSwitch(vs: seq<Skills.RowView>) {
    |vs| >= 3 && !Skills.IsLevelRow(|vs| - 2) && vs[|vs| - 2].hasTh
  }

  /** In remark mode the last row is read for the remark, unless it is a level row. */
  predicate RemarkRow(vs: seq<Skills.RowView>) {
    RemarkSwitch(vs) && !Skills.IsLevelRow(|vs| - 1)
  }

  function RemarkOf(vs: seq<Skills.RowView>): string {
    if RemarkRow(vs) && vs[|vs| - 1].tdCount > 0 then vs[|vs| - 1].first else ""
  }

  /** The skill a table describes, in closed form: an `IndexError` when row 0 is short or the
      remark row has no data cell. */
  function SkillOf(vs: seq<Skills.RowView>, number: nat): Result<Skills.Skill, ParseError> {
    if HeadFails(vs) || (RemarkRow(vs) && vs[|vs| - 1].tdCount == 0) then Err(IndexError)
    else
      Ok(Skills.Skill(number, if vs == [] then "" else vs[0].name, if vs == [] then "" else TypeText(vs[0].types),
                      Skills.Unlock(number), RemarkOf(vs), Skills.LevelsOf(vs)))
  }

  /** The machine's state after rows 0 .. k-1 when row 0 is complete. */
  function ScanAt(vs: seq<Skills.RowView>, k: nat): Scan
    requires k <= |vs| && !HeadFails(vs)
  {
    Scan(
      RemarkSwitch(vs) && k > |vs| - 2,
      if k > 0 then vs[0].name else "",
      if k > 0 then TypeText(vs[0].types) else "",
      if k == |vs| then RemarkOf(vs) else "",
      Skills.LevelsBelow(vs, k),
      if k == |vs| && RemarkRow(vs) then (if vs[|vs| - 1].tdCount > 0 then Broke else Failed) else Reading)
  }

  lemma {:induction false} ScanIsClosed(vs: seq<Skills.RowView>, k: nat)
    requires k <= |vs| && !HeadFails(vs)
    ensures ScanUpTo(vs, k) == ScanAt(vs, k)
    decreases k
  {
    if k > 0 {
      ScanIsClosed(vs, k - 1);
      var i := k - 1;
      if Skills.IsLevelRow(i) && vs[i].tdCount >= 5 {
        assert Skills.LevelsBelow(vs, k) == Skills.LevelsBelow(vs, i) + [vs[i].level];
      } else {
        assert Skills.LevelsBelow(vs, k) == Skills.LevelsBelow(vs, i);
      }
    }
  }

  lemma MachineIsClosedForm(vs: seq<Skills.RowView>, number: nat)
    ensures Outcome(ScanUpTo(vs, |vs|), number) == SkillOf(vs, number)
  {
    if HeadFails(vs) {
      assert ScanUpTo(vs, 1).stop == Failed;
      StoppedStays(vs, 1, |vs|);
    } else {
      ScanIsClosed(vs, |vs|);
    }
  }

  lemma SingleSkillClosed(table: Node, number: nat)
    ensures SingleSkill(table, number) == SkillOf(Skills.Views(Rows(table), PlainText), number)
  {
    MachineIsClosedForm(Skills.Views(Rows(table), PlainText), number);
  }

  /** The older machine raises `IndexError` exactly when row 0 has fewer than three data cells,
      or the row it reads for the remark has none. */
  lemma SingleSkillFails(table: Node, number: nat)
    ensures var rows := Rows(table);
            var n := |rows|;
            SingleSkill(table, number).Err? <==>
              || (rows != [] && |Tds(rows[0])| < 3)
              || (n >= 3 && !Skills.IsLevelRow(n - 2) && HasTh(rows[n - 2])
                  && !Skills.IsLevelRow(n - 1) && |Tds(rows[n - 1])| == 0)
  {
    var rows := Rows(table);
    var vs, n := Skills.Views(rows, PlainText), |rows|;
    assert SingleSkill(table, number) == SkillOf(vs, number) by { SingleSkillClosed(table, number); }
    assert SkillOf(vs, number).Err? <==> HeadFails(vs) || (RemarkRow(vs) && vs[n - 1].tdCount == 0) by {
      SkillOfFails(vs, number);
    }
    assert HeadFails(vs) <==> rows != [] && |Tds(rows[0])| < 3 by { HeadFailsRows(rows); }
    assert RemarkRow(vs) && vs[n - 1].tdCount == 0 <==>
      n >= 3 && !Skills.IsLevelRow(n - 2) && HasTh(rows[n - 2]) && !Skills.IsLevelRow(n - 1) && |Tds(rows[n - 1])| == 0 by {
      RemarkFailsRows(rows);
    }
  }

  lemma HeadFailsRows(rows: seq<Node>)
    ensures HeadFails(Skills.Views(rows, PlainText)) <==> rows != [] && |Tds(rows[0])| < 3
  {
    if rows != [] { Skills.RowCounts(rows, PlainText, 0); }
  }

  lemma RemarkFailsRows(rows: seq<Node>)
    ensures var vs, n := Skills.Views(rows, PlainText), |rows|;
      RemarkRow(vs) && vs[n - 1].tdCount == 0 <==>
      n >= 3 && !Skills.IsLevelRow(n - 2) && HasTh(rows[n - 2]) && !Skills.IsLevelRow(n - 1) && |Tds(rows[n - 1])| == 0
  {
    var vs, n := Skills.Views(rows, PlainText), |rows|;
    if n >= 3 {
      Skills.RowCounts(rows, PlainText, n - 2);
      Skills.RowCounts(rows, PlainText, n - 1);
      assert RemarkSwitch(vs) == (!Skills.IsLevelRow(n - 2) && HasTh(rows[n - 2]));
      assert vs[n - 1].tdCount == |Tds(rows[n - 1])|;
    } else {
      assert !RemarkSwitch(vs);
    }
  }

  lemma SkillOfFails(vs: seq<Skills.RowView>, number: nat)
    ensures SkillOf(vs, number).Err? <==> HeadFails(vs) || (RemarkRow(vs) && vs[|vs| - 1].tdCount == 0)
  {
  }

  /** What a parsed skill holds: its number and unlock condition, the name and the non-empty
      tooltip texts of row 0, the levels of rows 8 and 11 when they have five or more cells,
      and a remark only from the last row after a `<th>` row. */
  lemma SingleSkillFields(table: Node, number: nat)
    ensures var r, rows := SingleSkill(table, number), Rows(table);
            var n := |rows|;
            r.Ok? ==>
              && r.value.skillNumber == number && r.value.unlockCondition == Skills.Unlock(number)
              && (rows == [] ==> r.value.skillName == "" && r.value.skillType == "")
              && (rows != [] ==>
                    && |Tds(rows[0])| >= 3
                    && r.value.skillName == Skills.NameOf(Tds(rows[0])[1])
                    && r.value.skillType == TypeText(CleanAll(Select(Tds(rows[0])[2], SpanOfClass("mc-tooltips")))))
              && r.value.skillLevels ==
                   (if 8 < n && |Tds(rows[8])| >= 5 then [Skills.LevelOf(Tds(rows[8]), PlainText)] else [])
                   + (if 11 < n && |Tds(rows[11])| >= 5 then [Skills.LevelOf(Tds(rows[11]), PlainText)] else [])
              && (r.value.remark != "" ==>
                    n >= 3 && HasTh(rows[n - 2]) && |Tds(rows[n - 1])| > 0
                    && r.value.remark == CleanTag(Tds(rows[n - 1])[0]))
  {
    var rows := Rows(table);
    var vs := Skills.Views(rows, PlainText);
    assert SingleSkill(table, number) == SkillOf(vs, number) by { SingleSkillClosed(table, number); }
    if SkillOf(vs, number).Ok? {
      if rows != [] {
        assert vs[0] == Skills.ViewOf(rows[0], PlainText) by { Skills.ViewsAt(rows, PlainText, 0); }
      }
      assert SkillOf(vs, number).value.skillLevels == Skills.LevelAt(vs, 8) + Skills.LevelAt(vs, 11);
      LevelAtRows(rows, 8);
      LevelAtRows(rows, 11);
      RemarkOfRows(rows);
    }
  }

  /** The level the view of row `j` gives, read off the row itself. */
  lemma LevelAtRows(rows: seq<Node>, j: nat)
    ensures Skills.LevelAt(Skills.Views(rows, PlainText), j) ==
              if j < |rows| && |Tds(rows[j])| >= 5 then [Skills.LevelOf(Tds(rows[j]), PlainText)] else []
  {
    if j < |rows| { Skills.ViewsAt(rows, PlainText, j); }
  }

  /** A remark comes from the first cell of the last row, after a row holding a `<th>`. */
  lemma RemarkOfRows(rows: seq<Node>)
    ensures var vs, n := Skills.Views(rows, PlainText), |rows|;
            RemarkOf(vs) != "" ==>
              n >= 3 && HasTh(rows[n - 2]) && |Tds(rows[n - 1])| > 0 && RemarkOf(vs) == CleanTag(Tds(rows[n - 1])[0])
  {
    var vs, n := Skills.Views(rows, PlainText), |rows|;
    if RemarkOf(vs) != "" {
      assert RemarkRow(vs) && vs[n - 1].tdCount > 0 && RemarkOf(vs) == vs[n - 1].first;
      Skills.RowFacts(rows, PlainText, n - 2);
      Skills.RowFacts(rows, PlainText, n - 1);
    }
  }

  // ---------------------------------------------------------------------------
  // parse_skills: the older table walk
  // ---------------------------------------------------------------------------

  /** The class string the walk looks for after the first skill table. */
  const LOGO_CLASS: string := "wikitable nomobile logo"

  /** `"wikitable" in table.get("class", [])` */
  predicate IsWikitable(n: Node) {
    n.Element? && "wikitable" in n.classes
  }

  /** A `<table>` that `class_="wikitable nomobile logo"` matches: its class attribute is that
      exact string, or one of its class values is. */
  predicate IsLogoTable(n: Node) {
    n.Element? && n.name == "table" && (Join(n.classes, " ") == LOGO_CLASS || LOGO_CLASS in n.classes)
  }

  /** `find_next_sibling("table", class_="wikitable nomobile logo")` over the siblings from `from` on. */
  function NextLogoTable(sibs: seq<Node>, from: nat): (r: Option<nat>)
    ensures r.Some? ==> from <= r.value < |sibs| && IsLogoTable(sibs[r.value])
    decreases |sibs| - from
  {
    if from >= |sibs| then None
    else if IsLogoTable(sibs[from]) then Some(from)
    else NextLogoTable(sibs, from + 1)
  }

  /** It finds the first such table, and none exactly when there is none. */
  lemma {:induction false} NextLogoTableSpec(sibs: seq<Node>, from: nat)
    ensures var r := NextLogoTable(sibs, from);
      && (r.Some? ==> forall k :: from <= k < r.value ==> !IsLogoTable(sibs[k]))
      && (r.None? ==> forall k :: from <= k < |sibs| ==> !IsLogoTable(sibs[k]))
    decreases |sibs| - from
  {
    if from < |sibs| && !IsLogoTable(sibs[from]) {
      NextLogoTableSpec(sibs, from + 1);
    }
  }

  /** The tables the walk collects from the table `cur`, with `left` tries remaining: a table
      that carries the `wikitable` class is kept and the walk moves to the next logo table;
      anything else ends it. */
  function Tables(sibs: seq<Node>, cur: Option<nat>, left: nat): (r: seq<Node>)
    requires cur.Some? ==> cur.value < |sibs|
    ensures |r| <= left
    decreases left
  {
    if left == 0 || cur.None? || !IsWikitable(sibs[cur.value]) then []
    else [sibs[cur.value]] + Tables(sibs, NextLogoTable(sibs, cur.value + 1), left - 1)
  }

  /** Every table the walk collects is a sibling with the `wikitable` class; the first is the
      table it starts from, and every later one is a logo table. */
  lemma {:induction false} TablesShape(sibs: seq<Node>, cur: Option<nat>, left: nat)
    requires cur.Some? ==> cur.value < |sibs|
    ensures forall i :: 0 <= i < |Tables(sibs, cur, left)| ==>
      Tables(sibs, cur, left)[i] in sibs && IsWikitable(Tables(sibs, cur, left)[i])
    ensures forall i :: 0 < i < |Tables(sibs, cur, left)| ==> IsLogoTable(Tables(sibs, cur, left)[i])
    ensures Tables(sibs, cur, left) != [] ==> cur.Some? && Tables(sibs, cur, left)[0] == sibs[cur.value]
    decreases left
  {
    if left > 0 && cur.Some? && IsWikitable(sibs[cur.value]) {
      var next := NextLogoTable(sibs, cur.value + 1);
      TablesShape(sibs, next, left - 1);
      var rest := Tables(sibs, next, left - 1);
      assert Tables(sibs, cur, left) == [sibs[cur.value]] + rest;
      assert rest != [] ==> next.Some? && rest[0] == sibs[next.value];
    }
  }

  /** The walk: the first `<table>` sibling of the skills' `<h2>`, then up to two logo tables. */
  method FindTables(sibs: seq<Node>) returns (tables: seq<Node>)
    ensures tables == Tables(sibs, NextNamed(sibs, 0, "table"), 3)
  {
    ghost var all := Tables(sibs, NextNamed(sibs, 0, "table"), 3);
    var current: Option<nat> := NextNamed(sibs, 0, "table");
    tables := [];
    for i := 0 to 3
      invariant current.Some? ==> current.value < |sibs|
      invariant tables + Tables(sibs, current, 3 - i) == all
    {
      if current.Some? && IsWikitable(sibs[current.value]) {
        var next := NextLogoTable(sibs, current.value + 1);
        assert Tables(sibs, current, 3 - i) == [sibs[current.value]] + Tables(sibs, next, 2 - i);
        Skills.Regroup(tables, [sibs[current.value]], Tables(sibs, next, 2 - i), all);
        tables, current := tables + [sibs[current.value]], next;
      } else {
        Skills.Regroup(tables, [], [], all);
        break;
      }
    }
    Skills.Regroup(tables, [], Tables(sibs, current, 3 - 3), all);
  }

  /** The skills of the first `k` tables, numbered from 1, or the first `IndexError`. */
  function NumberedSkills(tables: seq<Node>, k: nat): (r: Result<seq<Skills.Skill>, ParseError>)
    requires k <= |tables|
    ensures r.Ok? ==> |r.value| == k
    decreases k
  {
    if k == 0 then Ok([])
    else
      match NumberedSkills(tables, k - 1)
      case Err(e) => Err(e)
      case Ok(ss) =>
        match SingleSkill(tables[k - 1], k)
        case Err(e) => Err(e)
        case Ok(sk) => Ok(ss + [sk])
  }

  lemma {:induction false} FailurePersists(tables: seq<Node>, k: nat, k': nat)
    requires k <= k' <= |tables|
    requires NumberedSkills(tables, k).Err?
    ensures NumberedSkills(tables, k') == NumberedSkills(tables, k)
    decreases k' - k
  {
    if k < k' {
      FailurePersists(tables, k, k' - 1);
    }
  }

  /** Every table gives exactly one skill, whatever its name, numbered by its position; the
      whole fails exactly when some table's machine does. */
  lemma {:induction false} NumberedSkillsSpec(tables: seq<Node>, k: nat)
    requires k <= |tables|
    ensures NumberedSkills(tables, k).Ok? <==> forall i :: 0 <= i < k ==> SingleSkill(tables[i], i + 1).Ok?
    ensures NumberedSkills(tables, k).Ok? ==>
      forall i :: 0 <= i < k ==> NumberedSkills(tables, k).value[i] == SingleSkill(tables[i], i + 1).value
    decreases k
  {
    if k > 0 {
      NumberedSkillsSpec(tables, k - 1);
      var prev, cur := NumberedSkills(tables, k - 1), SingleSkill(tables[k - 1], k);
      if prev.Ok? && cur.Ok? {
        var r := prev.value + [cur.value];
        assert NumberedSkills(tables, k) == Ok(r);
        forall i | 0 <= i < k ensures SingleSkill(tables[i], i + 1).Ok? && r[i] == SingleSkill(tables[i], i + 1).value {
          if i < k - 1 {
            assert r[i] == prev.value[i];
          } else {
            assert r[i] == cur.value;
          }
        }
      } else if prev.Err? {
        assert NumberedSkills(tables, k).Err?;
        var i :| 0 <= i < k - 1 && SingleSkill(tables[i], i + 1).Err?;
        assert !SingleSkill(tables[i], i + 1).Ok?;
      } else {
        assert NumberedSkills(tables, k).Err?;
        assert !SingleSkill(tables[k - 1], (k - 1) + 1).Ok?;
      }
    }
  }

  /** The older `parse_skills`: nothing without the `span#技能` header, an `AttributeError`
      when the header is outside any `<h2>`, otherwise one skill per table found. */
  function SkillsOf(s: SkillHeader): Result<seq<Skills.Skill>, ParseError> {
    match s
    case NoSkillHeader => Ok([])
    case NoH2 => Err(AttributeError)
    case UnderH2(sibs) =>
      var tables := Tables(sibs, NextNamed(sibs, 0, "table"), 3);
      NumberedSkills(tables, |tables|)
  }

  lemma SkillsOfShape(s: SkillHeader)
    ensures s.NoSkillHeader? ==> SkillsOf(s) == Ok([])
    ensures s.NoH2? ==> SkillsOf(s) == Err(AttributeError)
    ensures s.UnderH2? ==>
      var tables := Tables(s.siblings, NextNamed(s.siblings, 0, "table"), 3);
      var r := SkillsOf(s);
      && |tables| <= 3
      && (r.Ok? <==> forall i :: 0 <= i < |tables| ==> SingleSkill(tables[i], i + 1).Ok?)
      && (r.Ok? ==> |r.value| == |tables|
                    && forall i :: 0 <= i < |tables| ==>
                         r.value[i] == SingleSkill(tables[i], i + 1).value && r.value[i].skillNumber == i + 1)
  {
    if s.UnderH2? {
      var tables := Tables(s.siblings, NextNamed(s.siblings, 0, "table"), 3);
      NumberedSkillsSpec(tables, |tables|);
    }
  }

  method ParseSkills(s: SkillHeader) returns (r: Result<seq<Skills.Skill>, ParseError>)
    ensures r == SkillsOf(s)
  {
    match s
    case NoSkillHeader => return Ok([]);
    case NoH2 => return Err(AttributeError);
    case UnderH2(sibs) =>
      var tables := FindTables(sibs);
      r := ParseTables(tables);
  }

  /** `for idx, table in enumerate(skill_tables, 1)`: one skill per table. */
  method ParseTables(tables: seq<Node>) returns (r: Result<seq<Skills.Skill>, ParseError>)
    ensures r == NumberedSkills(tables, |tables|)
  {
    var skills: seq<Skills.Skill> := [];
    for idx := 1 to |tables| + 1
      invariant NumberedSkills(tables, idx - 1) == Ok(skills)
    {
      var skill := ParseSingleSkill(tables[idx - 1], idx);
      if skill.Err? {
        FailurePersists(tables, idx, |tables|);
        return Err(skill.error);
      }
      skills := skills + [skill.value];
    }
    r := Ok(skills);
  }
}
