/** The trait table of a detail page (`parse_chara` in operators_detail_parse.py). */
module Characteristic {
  import opened Wrappers
  import opened Strings
  import opened Markup
  import opened Utils
  import opened Soup

  datatype Characteristic = Characteristic(branchName: string, branchDescription: string, traitDetails: string)

  /** A `tr` whose `.string` mentions 分支信息 (`find("tr", string=re.compile("分支信息"))`). */
  predicate IsBranchRow(row: Node) {
    var s := StringOf(row);
    Matches(Named(["tr"]), row) && s.Some? && Contains(s.value, "分支信息")
  }

  /** The index of the first item at or after `from` that `p` accepts. */
  function FirstWhere<T>(xs: seq<T>, from: nat, p: T -> bool): (r: Option<nat>)
    ensures r.Some? ==> from <= r.value < |xs| && p(xs[r.value])
    ensures r.Some? ==> forall k :: from <= k < r.value ==> !p(xs[k])
    ensures r.None? ==> forall k :: from <= k < |xs| ==> !p(xs[k])
    decreases |xs| - from
  {
    if from >= |xs| then None
    else if p(xs[from]) then Some(from)
    else FirstWhere(xs, from + 1, p)
  }

  /** The index of the first branch row at or after `from`. */
  function FirstBranchRow(rows: seq<Node>, from: nat): (r: Option<nat>)
    ensures r.Some? ==> from <= r.value < |rows| && IsBranchRow(rows[r.value])
    ensures r.Some? ==> forall k :: from <= k < r.value ==> !IsBranchRow(rows[k])
    ensures r.None? ==> forall k :: from <= k < |rows| ==> !IsBranchRow(rows[k])
  {
    FirstWhere(rows, from, IsBranchRow)
  }

  /** `find` over a list of siblings and everything below them, in document order: the first
      branch row, together with the siblings that follow it in its parent (the nodes
      `find_next_sibling` walks). */
  function BranchSearch(ns: seq<Node>): Option<(Node, seq<Node>)>
    decreases ns
  {
    if ns == [] then None
    else if IsBranchRow(ns[0]) then Some((ns[0], ns[1..]))
    else
      var below := if ns[0].Element? then BranchSearch(ns[0].children) else None;
      if below.Some? then below else BranchSearch(ns[1..])
  }

  /** `trait_tbl.find("tr", string=…)` followed by `find_next_sibling("tr")`: the first `tr`
      after the branch row among the branch row's own siblings. */
  function TraitRow(table: Node): Option<Node> {
    var found := if table.Element? then BranchSearch(table.children) else None;
    if found.None? then None
    else
      var siblings := found.value.1;
      var k := NextNamed(siblings, 0, "tr");
      if k.Some? then Some(siblings[k.value]) else None
  }

  /** `[clean_desc(li) for li in items]` */
  function CleanDescAll(items: seq<Node>): (r: seq<string>)
    ensures |r| == |items|
    ensures forall i :: 0 <= i < |items| ==> r[i] == CleanDesc(Some(items[i]))
  {
    if items == [] then [] else [CleanDesc(Some(items[0]))] + CleanDescAll(items[1..])
  }

  /** `parse_chara`: branch name and description from the first two cells of row 1; trait details
      from the list items of the row that follows the branch row among its siblings. */
  function ParseChara(table: Option<Node>): (c: Characteristic)
    ensures table.None? ==> c == Characteristic("", "", "")
    ensures NoEdgeSpace(c.branchName) && NoEdgeSpace(c.branchDescription)
    ensures table.Some? && |Rows(table.value)| > 1 && Tds(Rows(table.value)[1]) != [] ==>
              c.branchName == CleanTag(Tds(Rows(table.value)[1])[0])
    ensures table.Some? && |Rows(table.value)| > 1 && |Tds(Rows(table.value)[1])| > 1 ==>
              c.branchDescription == CleanTag(Tds(Rows(table.value)[1])[1])
    ensures c.branchName != "" ==> table.Some? && |Rows(table.value)| > 1 && Tds(Rows(table.value)[1]) != []
    ensures c.branchDescription != "" ==> table.Some? && |Rows(table.value)| > 1 && |Tds(Rows(table.value)[1])| > 1
    ensures table.Some? && TraitRow(table.value).Some? ==>
              c.traitDetails == Join(CleanDescAll(Select(TraitRow(table.value).value, Named(["li"]))), "")
    ensures c.traitDetails != "" ==> table.Some? && TraitRow(table.value).Some?
  {
    match table
    case None => Characteristic("", "", "")
    case Some(t) =>
      var rows := Rows(t);
      var tds := if |rows| > 1 then Tds(rows[1]) else [];
      var name := if tds != [] then CleanTag(tds[0]) else "";
      var desc := if |tds| > 1 then CleanTag(tds[1]) else "";
      var next := TraitRow(t);
      var details := if next.Some? then Join(CleanDescAll(Select(next.value, Named(["li"]))), "") else "";
      Characteristic(name, desc, details)
  }

  /** The first accepted item of a concatenation is the first one of its left part, or else the
      first one of its right part. */
  lemma FirstWhereAppend<T>(a: seq<T>, b: seq<T>, p: T -> bool)
    ensures FirstWhere(a + b, 0, p) ==
              if FirstWhere(a, 0, p).Some? then FirstWhere(a, 0, p)
              else if FirstWhere(b, 0, p).Some? then Some(|a| + FirstWhere(b, 0, p).value)
              else None
  {
    FirstWhereAppendFrom(a, b, p, 0);
  }

  lemma {:induction false} FirstWhereAppendFrom<T>(a: seq<T>, b: seq<T>, p: T -> bool, i: nat)
    requires i <= |a|
    ensures FirstWhere(a + b, i, p) ==
              if FirstWhere(a, i, p).Some? then FirstWhere(a, i, p)
              else if FirstWhere(b, 0, p).Some? then Some(|a| + FirstWhere(b, 0, p).value)
              else None
    decreases |a| - i
  {
    if i == |a| {
      FirstWhereShift(a, b, p, 0);
    } else {
      assert (a + b)[i] == a[i];
      if !p(a[i]) {
        FirstWhereAppendFrom(a, b, p, i + 1);
      }
    }
  }

  lemma {:induction false} FirstWhereShift<T>(a: seq<T>, b: seq<T>, p: T -> bool, j: nat)
    requires j <= |b|
    ensures FirstWhere(a + b, |a| + j, p) ==
              if FirstWhere(b, j, p).Some? then Some(|a| + FirstWhere(b, j, p).value) else None
    decreases |b| - j
  {
    if j < |b| {
      assert (a + b)[|a| + j] == b[j];
      if !p(b[j]) {
        FirstWhereShift(a, b, p, j + 1);
      }
    }
  }

  /** The search finds the first branch row in document order, and finds none exactly when no
      node at or below the list is a branch row. */
  lemma {:induction false} BranchSearchIsFirst(ns: seq<Node>)
    ensures var f := FirstBranchRow(DescendantsAll(ns), 0);
      && (BranchSearch(ns).None? <==> f.None?)
      && (BranchSearch(ns).Some? ==> BranchSearch(ns).value.0 == DescendantsAll(ns)[f.value])
    decreases ns
  {
    if ns != [] {
      var x := ns[0];
      var below := Descendants(x);
      var rest := DescendantsAll(ns[1..]);
      assert DescendantsAll(ns) == [x] + (below + rest);
      FirstWhereAppend([x], below + rest, IsBranchRow);
      FirstWhereAppend(below, rest, IsBranchRow);
      if !IsBranchRow(x) {
        assert FirstWhere([x], 0, IsBranchRow).None? by {
          assert FirstWhere([x], 1, IsBranchRow).None?;
        }
        if x.Element? {
          BranchSearchIsFirst(x.children);
        }
        BranchSearchIsFirst(ns[1..]);
        var fb := FirstBranchRow(below, 0);
        var fr := FirstBranchRow(rest, 0);
        if fb.Some? {
          assert DescendantsAll(ns)[1 + fb.value] == below[fb.value];
        } else if fr.Some? {
          assert DescendantsAll(ns)[1 + |below| + fr.value] == rest[fr.value];
        }
      }
    }
  }

  /** What `find_next_sibling` finds after the branch row is a `tr`; there is none when the table
      has no branch row, and the branch row is the first one in document order. */
  lemma TraitRowSpec(table: Node)
    requires table.Element?
    ensures var f := FirstBranchRow(Descendants(table), 0);
      && (BranchSearch(table.children).Some? ==> f.Some? && BranchSearch(table.children).value.0 == Descendants(table)[f.value])
      && (f.None? ==> TraitRow(table).None?)
      && (TraitRow(table).Some? ==> Matches(Named(["tr"]), TraitRow(table).value))
  {
    BranchSearchIsFirst(table.children);
    var found := BranchSearch(table.children);
    if found.Some? {
      NextNamedSpec(found.value.1, 0, "tr");
    }
  }

  /** A branch row that is the last `tr` of its parent has no next sibling row, even when the
      table has further rows elsewhere: then there are no trait details. */
  lemma LastBranchRowHasNoDetails()
    ensures var branch := Element("tr", "", [], [Text("分支信息")]);
      var later := Element("tr", "", [], [Element("li", "", [], [Text("x")])]);
      var t := Element("table", "", [], [Element("tbody", "", [], [branch]), Element("tbody", "", [], [later])]);
      TraitRow(t).None? && ParseChara(Some(t)).traitDetails == ""
  {
    var branch := Element("tr", "", [], [Text("分支信息")]);
    var later := Element("tr", "", [], [Element("li", "", [], [Text("x")])]);
    var b1 := Element("tbody", "", [], [branch]);
    var t := Element("table", "", [], [b1, Element("tbody", "", [], [later])]);
    assert Contains("分支信息", "分支信息");
    assert IsBranchRow(branch);
    assert !IsBranchRow(b1);
    assert [branch][1..] == [];
    assert BranchSearch([branch]) == Some((branch, []));
    assert BranchSearch(t.children) == Some((branch, []));
  }
}
