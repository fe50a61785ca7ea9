/**
  The talent tables of a detail page (`parse_talents` and its `parse_single_talent` in
  operators_detail_parse.py; the copy in parse_operator.py is the same machine).

  The row machine skips row 0; a row at index n-2 that holds a `<th>` switches it to remark
  mode; in remark mode the next row with data cells gives the remark and ends the loop; every
  other row with data cells adds one detail, and the first non-empty first cell names the
  talent. Since remark mode can only begin at row n-2, the machine is equal to the closed form
  below: the details come from rows 1 .. DetailEnd-1 and the remark from row n-1.
 */
module Talents {
  import opened Wrappers
  import opened Strings
  import opened Markup
  import opened Utils
  import opened Soup

  datatype TalentDetail = TalentDetail(triggerCondition: string, description: string, potentialEnhancement: string)

  datatype Talent = Talent(talentType: string, talentName: string, remarks: string, details: seq<TalentDetail>)

  const FIRST_TALENT: string := "第一天赋"
  const SECOND_TALENT: string := "第二天赋"

  /** What the row machine reads from one row: its number of data cells, whether it holds a
      `<th>`, the text of its first data cell and, with three or more data cells, its detail. */
  datatype RowView = RowView(tdCount: nat, hasTh: bool, first: string, detail: TalentDetail)

  /** The detail of a row: trigger condition from cell 1, description and potential enhancement
      from the `span.{prefix}潜能_1` and `span.{prefix}潜能_2` of cell 2. */
  function DetailOf(tds: seq<Node>, prefix: string): TalentDetail
    requires |tds| >= 3
  {
    TalentDetail(
      CleanTag(tds[1]),
      CleanDesc(SelectOne(tds[2], SpanOfClass(prefix + "潜能_1"))),
      CleanDesc(SelectOne(tds[2], SpanOfClass(prefix + "潜能_2"))))
  }

  function ViewOf(row: Node, prefix: string): RowView {
    var tds := Tds(row);
    RowView(
      |tds|,
      HasTh(row),
      if tds == [] then "" else CleanTag(tds[0]),
      if |tds| >= 3 then DetailOf(tds, prefix) else TalentDetail("", "", ""))
  }

  /** The views of all rows of a table. The non-empty case is a function of its own, so that
      a proof that mentions the views of a table does not also read the cells of its first row. */
  function Views(rows: seq<Node>, prefix: string): (vs: seq<RowView>)
    ensures |vs| == |rows|
    decreases |rows|, 1
  {
    if rows == [] then [] else ViewsCons(rows, prefix)
  }

  function ViewsCons(rows: seq<Node>, prefix: string): (vs: seq<RowView>)
    requires rows != []
    ensures |vs| == |rows|
    decreases |rows|, 0
  {
    [ViewOf(rows[0], prefix)] + Views(rows[1..], prefix)
  }

  lemma {:induction false} ViewsAt(rows: seq<Node>, prefix: string, i: nat)
    requires i < |rows|
    ensures Views(rows, prefix)[i] == ViewOf(rows[i], prefix)
    decreases i
  {
    assert Views(rows, prefix) == ViewsCons(rows, prefix) == [ViewOf(rows[0], prefix)] + Views(rows[1..], prefix);
    if i > 0 {
      ViewsAt(rows[1..], prefix, i - 1);
      assert rows[1..][i - 1] == rows[i];
    }
  }

  // ---------------------------------------------------------------------------
  // The row machine
  // ---------------------------------------------------------------------------

  /** How the loop of `parse_single_talent` stands: still reading rows, left by `break` after
      the remark, or left by the `IndexError` of a row with one or two data cells. */
  datatype Stop = Reading | Broke | Failed

  /** The loop's variables: `is_remark_section`, the talent's name and details, `remark_text`. */
  datatype Scan = Scan(isRemark: bool, name: string, details: seq<TalentDetail>, remark: string, stop: Stop)

  const START: Scan := Scan(false, "", [], "", Reading)

  /** One iteration of the loop, on row `i` of `vs`. */
  function Step(s: Scan, vs: seq<RowView>, i: nat): Scan
    requires i < |vs|
  {
    var v := vs[i];
    if s.stop != Reading || i == 0 then s
    else if i == |vs| - 2 && v.hasTh then s.(isRemark := true)
    else if v.tdCount == 0 then s
    else if s.isRemark then s.(remark := v.first, stop := Broke)
    else
      var name := if s.name == "" && v.first != "" then v.first else s.name;
      if v.tdCount < 3 then s.(name := name, stop := Failed)
      else s.(name := name, details := s.details + [v.detail])
  }

  /** The loop's state after the rows 0 .. k-1. */
  function ScanUpTo(vs: seq<RowView>, k: nat): Scan
    requires k <= |vs|
  {
    if k == 0 then START else Step(ScanUpTo(vs, k - 1), vs, k - 1)
  }

  /** What `parse_single_talent` returns once the loop is over. */
  function Outcome(s: Scan, talentType: string): (r: Result<Option<Talent>, ParseError>)
    ensures r.Err? <==> s.stop == Failed
    ensures r.Ok? && r.value.Some? ==>
              r.value.value.talentType == talentType && r.value.value.talentName != "" && r.value.value.details != []
  {
    if s.stop == Failed then Err(IndexError)
    else if s.name != "" && s.details != [] then Ok(Some(Talent(talentType, s.name, s.remark, s.details)))
    else Ok(None)
  }

  /** What `parse_single_talent` gives on a table. */
  function SingleTalent(table: Node, talentType: string, prefix: string): Result<Option<Talent>, ParseError> {
    var vs := Views(Rows(table), prefix);
    Outcome(ScanUpTo(vs, |vs|), talentType)
  }

  /** Once the loop has stopped, no later row changes anything. */
  lemma {:induction false} StoppedStays(vs: seq<RowView>, k: nat, k': nat)
    requires k <= k' <= |vs|
    requires ScanUpTo(vs, k).stop != Reading
    ensures ScanUpTo(vs, k') == ScanUpTo(vs, k)
    decreases k' - k
  {
    if k < k' {
      StoppedStays(vs, k, k' - 1);
    }
  }

  /** What one iteration of `parse_single_talent` reads from row `idx`: `row.find_all("td")`,
      `row.find("th")`, and the cleaned texts of the cells it indexes. */
  method ReadRow(rows: seq<Node>, prefix: string, idx: nat) returns (v: RowView)
    requires idx < |rows|
    ensures v == Views(rows, prefix)[idx]
  {
    var tds := Tds(rows[idx]);
    var th := SelectOne(rows[idx], Named(["th"]));
    var first := if tds == [] then "" else CleanTag(tds[0]);
    var detail := TalentDetail("", "", "");
    if |tds| >= 3 {
      detail := TalentDetail(
        CleanTag(tds[1]),
        CleanDesc(SelectOne(tds[2], SpanOfClass(prefix + "潜能_1"))),
        CleanDesc(SelectOne(tds[2], SpanOfClass(prefix + "潜能_2"))));
    }
    ViewsAt(rows, prefix, idx);
    v := RowView(|tds|, th.Some?, first, detail);
  }

  /** The body of the row loop of `parse_single_talent` on a row past the header, given the
      row's view and the number `n` of rows: the loop's variables after it, whose `stop` says
      whether the loop goes on, `break`s after the remark, or raises the `IndexError` of a row
      with one or two data cells (after the name was taken from it). */
  method TalentRow(ghost vs: seq<RowView>, n: nat, idx: nat, row: RowView, s: Scan) returns (t: Scan)
    requires n == |vs| && 0 < idx < n && vs[idx] == row
    requires s.stop == Reading
    ensures t == Step(s, vs, idx)
  {
    if idx == n - 2 && row.hasTh {
      return s.(isRemark := true);
    }
    if row.tdCount == 0 {
      return s;
    }
    if s.isRemark {
      return s.(remark := row.first, stop := Broke);
    }
    var name := s.name;
    if name == "" && row.first != "" {
      name := row.first;
    }
    if row.tdCount < 3 {
      return s.(name := name, stop := Failed);
    }
    t := s.(name := name, details := s.details + [row.detail]);
  }

  /** The row loop of `parse_single_talent`: the loop's variables when it ends, by running out
      of rows, by the `break` after the remark, or by an `IndexError`. */
  method TalentRows(rows: seq<Node>, prefix: string) returns (s: Scan)
    ensures s == ScanUpTo(Views(rows, prefix), |rows|)
  {
    ghost var vs := Views(rows, prefix);
    var n := |rows|;
    s := START;
    var idx := 0;
    while idx < n
      invariant 0 <= idx <= n
      invariant s.stop == Reading && ScanUpTo(vs, idx) == s
    {
      if idx > 0 {
        var row := ReadRow(rows, prefix, idx);
        s := TalentRow(vs, n, idx, row, s);
        if s.stop != Reading {
          StoppedStays(vs, idx + 1, n);
          return;
        }
      }
      idx := idx + 1;
    }
  }

  /** `parse_single_talent`: the row loop, then the talent unless it lacks a name or details. */
  method ParseSingleTalent(table: Node, talentType: string, prefix: string) returns (r: Result<Option<Talent>, ParseError>)
    ensures r == SingleTalent(table, talentType, prefix)
  {
    var s := TalentRows(Rows(table), prefix);
    if s.stop == Failed {
      return Err(IndexError);
    }
    if s.name != "" && s.details != [] {
      r := Ok(Some(Talent(talentType, s.name, s.remark, s.details)));
    } else {
      r := Ok(None);
    }
  }

  // ---------------------------------------------------------------------------
  // The closed form of the machine
  // ---------------------------------------------------------------------------

  /** The row at n-2 holds a `<th>` (and is not row 0). */
  predicate RemarkMode(vs: seq<RowView>) {
    |vs| >= 3 && vs[|vs| - 2].hasTh
  }

  /** The rows before this index can give details. */
  function DetailEnd(vs: seq<RowView>): (e: nat)
    ensures e <= |vs|
    ensures RemarkMode(vs) ==> e == |vs| - 2
  {
    if RemarkMode(vs) then |vs| - 2 else |vs|
  }

  /** The details of the rows 1 .. k-1; a row with one or two data cells raises `IndexError`. */
  function DetailsUpTo(vs: seq<RowView>, k: nat): (r: Result<seq<TalentDetail>, ParseError>)
    requires k <= |vs|
    ensures r.Err? ==> r.error == IndexError
    decreases k
  {
    if k <= 1 then Ok([])
    else
      match DetailsUpTo(vs, k - 1)
      case Err(e) => Err(e)
      case Ok(ds) =>
        if vs[k - 1].tdCount == 0 then Ok(ds)
        else if vs[k - 1].tdCount < 3 then Err(IndexError)
        else Ok(ds + [vs[k - 1].detail])
  }

  /** The first non-empty first-cell text among the rows 1 .. k-1 that have data cells. */
  function NameUpTo(vs: seq<RowView>, k: nat): string
    requires k <= |vs|
    decreases k
  {
    if k <= 1 then ""
    else
      var prev := NameUpTo(vs, k - 1);
      if prev != "" then prev
      else if vs[k - 1].tdCount == 0 then "" else vs[k - 1].first
  }

  /** The first cell of row n-1, in remark mode. */
  function RemarkOf(vs: seq<RowView>): string {
    if RemarkMode(vs) && vs[|vs| - 1].tdCount > 0 then vs[|vs| - 1].first else ""
  }

  /** The talent the rows describe: the details of the rows before DetailEnd, the first name
      among them, and the remark of row n-1; None unless there is a name and a detail. */
  function TalentOf(vs: seq<RowView>, talentType: string): Result<Option<Talent>, ParseError> {
    match DetailsUpTo(vs, DetailEnd(vs))
    case Err(e) => Err(e)
    case Ok(ds) =>
      var name := NameUpTo(vs, DetailEnd(vs));
      if name != "" && ds != [] then Ok(Some(Talent(talentType, name, RemarkOf(vs), ds))) else Ok(None)
  }

  /** Before DetailEnd the machine never meets the remark switch: it has failed exactly when
      the closed form has, and otherwise holds the closed form's name and details. */
  lemma {:induction false} ScanBeforeRemark(vs: seq<RowView>, k: nat)
    requires k <= DetailEnd(vs)
    ensures var s := ScanUpTo(vs, k);
            && !s.isRemark && s.remark == "" && s.stop != Broke
            && (s.stop == Failed <==> DetailsUpTo(vs, k).Err?)
            && (s.stop == Reading ==> s.details == DetailsUpTo(vs, k).value && s.name == NameUpTo(vs, k))
    decreases k
  {
    if k > 0 {
      ScanBeforeRemark(vs, k - 1);
      assert k - 1 == |vs| - 2 && k - 1 > 0 ==> !vs[k - 1].hasTh;
      if ScanUpTo(vs, k - 1).stop == Failed {
        DetailsErrPersists(vs, k - 1, k);
      }
    }
  }

  lemma {:induction false} DetailsErrPersists(vs: seq<RowView>, k: nat, k': nat)
    requires k <= k' <= |vs|
    requires DetailsUpTo(vs, k).Err?
    ensures DetailsUpTo(vs, k').Err?
    decreases k' - k
  {
    if k < k' {
      DetailsErrPersists(vs, k, k' - 1);
    }
  }

  /** In remark mode the row at n-2 sets the flag and the last row, if it has data cells,
      gives the remark and stops the loop. */
  lemma RemarkRows(vs: seq<RowView>)
    requires RemarkMode(vs)
    requires ScanUpTo(vs, |vs| - 2).stop == Reading && !ScanUpTo(vs, |vs| - 2).isRemark && ScanUpTo(vs, |vs| - 2).remark == ""
    ensures var s, t := ScanUpTo(vs, |vs| - 2), ScanUpTo(vs, |vs|);
            && t.name == s.name && t.details == s.details && t.remark == RemarkOf(vs)
            && (t.stop == Reading || t.stop == Broke)
  {
    var n := |vs|;
    var s, u := ScanUpTo(vs, n - 2), ScanUpTo(vs, n - 1);
    assert u == Step(s, vs, n - 2);
    assert u.name == s.name && u.details == s.details && u.isRemark && u.remark == "" && u.stop == Reading;
  }

  /** The row machine equals its closed form: remark mode can only begin at row n-2, so the
      details and the name come from the rows before it and the remark from row n-1. */
  lemma MachineIsClosedForm(vs: seq<RowView>, talentType: string)
    ensures Outcome(ScanUpTo(vs, |vs|), talentType) == TalentOf(vs, talentType)
  {
    var e := DetailEnd(vs);
    ScanBeforeRemark(vs, e);
    if ScanUpTo(vs, e).stop == Failed {
      StoppedStays(vs, e, |vs|);
    } else if RemarkMode(vs) {
      RemarkRows(vs);
    }
  }

  /** Every detail comes from a row in 1 .. k-1 with at least three data cells, so row 0 (the
      header) never gives one; there is at most one detail per such row. */
  lemma {:induction false} DetailsOrigin(vs: seq<RowView>, k: nat)
    requires k <= |vs|
    requires DetailsUpTo(vs, k).Ok?
    ensures |DetailsUpTo(vs, k).value| <= if k == 0 then 0 else k - 1
    ensures forall d :: d in DetailsUpTo(vs, k).value ==>
              exists j :: 1 <= j < k && vs[j].tdCount >= 3 && d == vs[j].detail
    decreases k
  {
    if k > 1 {
      DetailsOrigin(vs, k - 1);
    }
  }

  /** The name is the first non-empty first-cell text; once set it is never overwritten. */
  lemma {:induction false} NameIsFirst(vs: seq<RowView>, k: nat)
    requires k <= |vs|
    ensures NameUpTo(vs, k) == "" <==>
              forall j :: 1 <= j < k && vs[j].tdCount > 0 ==> vs[j].first == ""
    ensures NameUpTo(vs, k) != "" ==>
              exists j :: 1 <= j < k && vs[j].tdCount > 0 && vs[j].first == NameUpTo(vs, k)
                && forall i :: 1 <= i < j && vs[i].tdCount > 0 ==> vs[i].first == ""
    decreases k
  {
    if k > 1 {
      NameIsFirst(vs, k - 1);
    }
  }

  /** A talent has its type, a name and at least one detail; each detail is that of a row before
      DetailEnd with three or more data cells (so neither row 0, the `<th>` row at n-2 nor the
      remark row gives one); a remark is only read in remark mode. */
  lemma SingleTalentShape(table: Node, talentType: string, prefix: string)
    ensures var r := SingleTalent(table, talentType, prefix);
            var rows := Rows(table);
            var vs := Views(rows, prefix);
            r.Ok? && r.value.Some? ==>
              && r.value.value.talentType == talentType
              && r.value.value.talentName != ""
              && 0 < |r.value.value.details| < DetailEnd(vs)
              && (r.value.value.remarks != "" ==> RemarkMode(vs))
              && forall d :: d in r.value.value.details ==>
                   exists j :: 1 <= j < DetailEnd(vs) && |Tds(rows[j])| >= 3 && d == DetailOf(Tds(rows[j]), prefix)
  {
    var rows := Rows(table);
    var vs := Views(rows, prefix);
    MachineIsClosedForm(vs, talentType);
    if DetailsUpTo(vs, DetailEnd(vs)).Ok? {
      DetailsOrigin(vs, DetailEnd(vs));
      forall j | 1 <= j < DetailEnd(vs) ensures vs[j] == ViewOf(rows[j], prefix) {
        ViewsAt(rows, prefix, j);
      }
    }
  }

  // ---------------------------------------------------------------------------
  // parse_talents
  // ---------------------------------------------------------------------------

  function Optional(t: Option<Talent>): seq<Talent> {
    if t.Some? then [t.value] else []
  }

  /** `parse_talents`: nothing without the header; the first table's talent, then the talent of
      the second table (looked for only when a first table exists). */
  function TalentsOf(s: Soup): (r: Result<seq<Talent>, ParseError>)
    ensures r.Ok? ==> |r.value| <= 2
    ensures r.Ok? && (!s.talentHeader || s.firstTalentTable.None?) ==> r.value == []
    ensures r.Ok? ==> forall t :: t in r.value ==> t.talentName != "" && t.details != []
    ensures r.Ok? ==> forall t :: t in r.value ==> t.talentType == FIRST_TALENT || t.talentType == SECOND_TALENT
    ensures r.Ok? && |r.value| == 2 ==> r.value[0].talentType == FIRST_TALENT && r.value[1].talentType == SECOND_TALENT
  {
    if !s.talentHeader || s.firstTalentTable.None? then Ok([])
    else
      var first := SingleTalent(s.firstTalentTable.value, FIRST_TALENT, FIRST_TALENT);
      if first.Err? then Err(first.error)
      else if s.secondTalentTable.None? then Ok(Optional(first.value))
      else
        var second := SingleTalent(s.secondTalentTable.value, SECOND_TALENT, SECOND_TALENT);
        if second.Err? then Err(second.error)
        else Ok(Optional(first.value) + Optional(second.value))
  }

  method ParseTalents(s: Soup) returns (r: Result<seq<Talent>, ParseError>)
    ensures r == TalentsOf(s)
  {
    var talents: seq<Talent> := [];
    if !s.talentHeader {
      return Ok(talents);
    }
    var firstTable := s.firstTalentTable;
    if firstTable.Some? {
      var first := ParseSingleTalent(firstTable.value, FIRST_TALENT, FIRST_TALENT);
      if first.Err? {
        return Err(first.error);
      }
      if first.value.Some? {
        talents := talents + [first.value.value];
      }
    }
    var secondTable := if firstTable.Some? then s.secondTalentTable else None;
    if secondTable.Some? {
      var second := ParseSingleTalent(secondTable.value, SECOND_TALENT, SECOND_TALENT);
      if second.Err? {
        return Err(second.error);
      }
      if second.value.Some? {
        talents := talents + [second.value.value];
      }
    }
    if firstTable.Some? {
      var f := SingleTalent(firstTable.value, FIRST_TALENT, FIRST_TALENT);
      assert f.Ok?;
      if secondTable.Some? {
        var g := SingleTalent(secondTable.value, SECOND_TALENT, SECOND_TALENT);
        assert g.Ok?;
        assert talents == Optional(f.value) + Optional(g.value);
      } else {
        assert talents == Optional(f.value);
      }
    }
    r := Ok(talents);
  }
}
