/**
  The parsed detail page as the section extractors see it: the regions that their
  `select_one`/`find` calls locate, and the row and cell queries they make on a table.
 */
module Soup {
  import opened Wrappers
  import opened Strings
  import opened Markup
  import opened Utils

  /** Where the skill tables are looked for: no `span#技能` header, a header outside any `<h2>`,
      or the siblings that follow the header's `<h2>`, in document order. */
  datatype SkillHeader = NoSkillHeader | NoH2 | UnderH2(siblings: seq<Node>)

  /** The regions of a detail page:
      `table.char-base-attr-table`, `table.char-extra-attr-table`, `table.wikitable.logo`;
      whether a `span#天赋` header exists, the first `table.wikitable` after it and the first
      `table.wikitable` sibling after that one; the skill header; `div#mw-content-text`. */
  datatype Soup = Soup(
    baseTable: Option<Node>,
    extraTable: Option<Node>,
    traitTable: Option<Node>,
    talentHeader: bool,
    firstTalentTable: Option<Node>,
    secondTalentTable: Option<Node>,
    skillHeader: SkillHeader,
    content: Option<Node>)

  /** The exceptions the extractors let escape: an `IndexError` from indexing a short cell list,
      and the `AttributeError` of reading a page that was never loaded. */
  datatype ParseError = IndexError | AttributeError

  /** `table.find_all("tr")` / `table.select("tr")` */
  function Rows(table: Node): seq<Node> {
    Select(table, Named(["tr"]))
  }

  /** `row.find_all("td")` */
  function Tds(row: Node): seq<Node> {
    Select(row, Named(["td"]))
  }

  /** `row.select("th")` */
  function Ths(row: Node): seq<Node> {
    Select(row, Named(["th"]))
  }

  /** `row.find("th")` is not None */
  predicate HasTh(row: Node) {
    SelectOne(row, Named(["th"])).Some?
  }

  /** `row.select("th, td")`: the header and data cells in document order. */
  function Cells(row: Node): seq<Node> {
    Select(row, Named(["th", "td"]))
  }

  /** `[clean_text(c) for c in ns]` */
  function CleanAll(ns: seq<Node>): (r: seq<string>)
    ensures |r| == |ns|
    ensures forall i :: 0 <= i < |r| ==> r[i] == CleanTag(ns[i])
  {
    if ns == [] then [] else [CleanTag(ns[0])] + CleanAll(ns[1..])
  }

  /** `[clean_text(c) for c in ns]` as the walks read it, one node at a time: the non-empty
      case is its own function so that a proof about one text does not read the others. */
  function CleanTexts(ns: seq<Node>): (ts: seq<string>)
    ensures |ts| == |ns|
    decreases |ns|, 1
  {
    if ns == [] then [] else CleanTextsCons(ns)
  }

  function CleanTextsCons(ns: seq<Node>): (ts: seq<string>)
    requires ns != []
    ensures |ts| == |ns|
    decreases |ns|, 0
  {
    [CleanTag(ns[0])] + CleanTexts(ns[1..])
  }

  lemma {:induction false} CleanTextsAt(ns: seq<Node>, i: nat)
    requires i < |ns|
    ensures CleanTexts(ns)[i] == CleanTag(ns[i])
    decreases i
  {
    assert CleanTexts(ns) == CleanTextsCons(ns) == [CleanTag(ns[0])] + CleanTexts(ns[1..]);
    if i > 0 {
      CleanTextsAt(ns[1..], i - 1);
      assert ns[1..][i - 1] == ns[i];
    }
  }

  /** `clean_text(ns[i])` */
  method ReadText(ns: seq<Node>, i: nat) returns (t: string)
    requires i < |ns|
    ensures t == CleanTexts(ns)[i]
  {
    CleanTextsAt(ns, i);
    t := CleanTag(ns[i]);
  }
}
