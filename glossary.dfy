/**
  The static glossary page (`TermStaticCrawler.parse` in terms_parse.py): every anchor
  paragraph of the content area names a term by its id, the paragraph after it explains the
  term, and the records are deduplicated by name.
 */
module Glossary {
  import opened Wrappers
  import opened Strings
  import opened Markup
  import opened Utils

  /** An anchor paragraph (`<p style="margin:0;padding:0;" id=…>`): its `id` attribute and the
      first `<p>` sibling after it, if any. */
  datatype Anchor = Anchor(id: string, next: Option<Node>)

  /** The parsed page: no `div#mw-content-text`, or the anchor paragraphs inside it in document order. */
  datatype GlossaryPage = NoContent | Content(anchors: seq<Anchor>)

  const NAME_KEY: string := "term_name"
  const EXPLANATION_KEY: string := "term_explanation"

  /** The explanation of the term `name`: the next paragraph's text with `<br>` handling, or ""
      without one; when the name occurs in it, its occurrences are deleted and the rest stripped,
      so the explanation is shorter than that text by at least the name's length. */
  function Explanation(name: string, next: Option<Node>): (r: string)
    requires name != ""
    ensures next.None? ==> r == ""
    ensures NoEdgeSpace(r)
    ensures var raw := if next.Some? then CleanText(Tag(next.value), true, true) else "";
            && (!Contains(raw, name) ==> r == raw)
            && (Contains(raw, name) ==> |r| <= |raw| - |name|)
  {
    var raw := if next.Some? then CleanBrText(next.value) else "";
    if Contains(raw, name) then RemoveAllShrinks(raw, name); Strip(RemoveAll(raw, name)) else raw
  }

  /** The record `{"term_name": name, "term_explanation": explanation}`. */
  function TermRecord(name: string, explanation: string): Record {
    map[NAME_KEY := name, EXPLANATION_KEY := explanation]
  }

  /** The record of one anchor, or none when its stripped id is empty. */
  function EntryOf(a: Anchor): seq<Record> {
    var name := Strip(a.id);
    if name == "" then [] else [TermRecord(name, Explanation(name, a.next))]
  }

  /** The records of the anchors, in order, before deduplication. */
  function Entries(anchors: seq<Anchor>): seq<Record> {
    Concat(anchors, EntryOf)
  }

  /** What `parse` returns. */
  function GlossaryTerms(page: GlossaryPage): seq<Record> {
    match page
    case NoContent => []
    case Content(anchors) => FirstOccurrences(Entries(anchors), KeyGetter(NAME_KEY))
  }

  /** Every record has exactly the two keys, a non-empty stripped name and a stripped
      explanation, and comes from an anchor whose stripped id is that name. */
  lemma {:induction false} EntriesShape(anchors: seq<Anchor>)
    ensures forall i :: 0 <= i < |Entries(anchors)| ==>
      var e := Entries(anchors)[i];
      && e.Keys == {NAME_KEY, EXPLANATION_KEY}
      && e[NAME_KEY] != "" && NoEdgeSpace(e[NAME_KEY]) && NoEdgeSpace(e[EXPLANATION_KEY])
      && exists j :: 0 <= j < |anchors| && Strip(anchors[j].id) == e[NAME_KEY]
                     && e[EXPLANATION_KEY] == Explanation(e[NAME_KEY], anchors[j].next)
    decreases |anchors|
  {
    if anchors != [] {
      var p, a := anchors[..|anchors| - 1], anchors[|anchors| - 1];
      EntriesShape(p);
      var r := Entries(anchors);
      assert r == Entries(p) + EntryOf(a);
      forall i | 0 <= i < |r|
        ensures exists j :: 0 <= j < |anchors| && Strip(anchors[j].id) == r[i][NAME_KEY]
                            && r[i][EXPLANATION_KEY] == Explanation(r[i][NAME_KEY], anchors[j].next)
      {
        if i < |Entries(p)| {
          var j :| 0 <= j < |p| && Strip(p[j].id) == r[i][NAME_KEY]
                   && r[i][EXPLANATION_KEY] == Explanation(r[i][NAME_KEY], p[j].next);
          assert anchors[j] == p[j];
        } else {
          assert anchors[|anchors| - 1] == a;
        }
      }
    }
  }

  /** Every anchor with a non-empty stripped id gives a record. */
  lemma EntriesComplete(anchors: seq<Anchor>, j: nat)
    requires j < |anchors| && Strip(anchors[j].id) != ""
    ensures var name := Strip(anchors[j].id);
            TermRecord(name, Explanation(name, anchors[j].next)) in Entries(anchors)
  {
    var name := Strip(anchors[j].id);
    assert TermRecord(name, Explanation(name, anchors[j].next)) in EntryOf(anchors[j]);
    ConcatContains(anchors, EntryOf, j, TermRecord(name, Explanation(name, anchors[j].next)));
  }

  /** No content area gives no terms; the terms otherwise have exactly the two keys, pairwise
      distinct names, appear in anchor order, and are the first record of each name. */
  lemma GlossaryTermsShape(page: GlossaryPage)
    ensures page.NoContent? ==> GlossaryTerms(page) == []
    ensures forall i :: 0 <= i < |GlossaryTerms(page)| ==>
      GlossaryTerms(page)[i].Keys == {NAME_KEY, EXPLANATION_KEY} && GlossaryTerms(page)[i][NAME_KEY] != ""
    ensures DistinctKeys(GlossaryTerms(page), KeyGetter(NAME_KEY))
    ensures page.Content? ==>
      var es := Entries(page.anchors);
      && Subsequence(GlossaryTerms(page), es)
      && KeysOf(GlossaryTerms(page), KeyGetter(NAME_KEY)) == KeysOf(es, KeyGetter(NAME_KEY))
      && (forall i :: 0 <= i < |es| && IsFirst(es, KeyGetter(NAME_KEY), i) ==> es[i] in GlossaryTerms(page))
      && (forall y :: y in GlossaryTerms(page) ==>
            exists i :: 0 <= i < |es| && IsFirst(es, KeyGetter(NAME_KEY), i) && es[i] == y)
  {
    if page.Content? {
      var es := Entries(page.anchors);
      var key := KeyGetter(NAME_KEY);
      EntriesShape(page.anchors);
      FirstOccurrencesDistinct(es, key);
      FirstOccurrencesSubsequence(es, key);
      FirstOccurrencesKeys(es, key);
      FirstOccurrencesKeepsFirsts(es, key);
      FirstOccurrencesOnlyFirsts(es, key);
      var r := GlossaryTerms(page);
      forall i | 0 <= i < |r| ensures r[i].Keys == {NAME_KEY, EXPLANATION_KEY} && r[i][NAME_KEY] != "" {
        assert r[i] in r;
      }
    }
  }

  /** The anchor loop: one record per anchor with a non-empty stripped id. */
  method CollectEntries(anchors: seq<Anchor>) returns (terms: seq<Record>)
    ensures terms == Entries(anchors)
  {
    terms := [];
    for i := 0 to |anchors|
      invariant terms == Entries(anchors[..i])
    {
      assert anchors[..i + 1][..i] == anchors[..i];
      var termName := Strip(anchors[i].id);
      if termName == "" {
        continue;
      }
      var nextP := anchors[i].next;
      var explanation := if nextP.Some? then CleanText(Tag(nextP.value), true, true) else "";
      if Contains(explanation, termName) {
        explanation := Strip(RemoveAll(explanation, termName));
      }
      terms := terms + [map[NAME_KEY := termName, EXPLANATION_KEY := explanation]];
    }
    assert anchors[..|anchors|] == anchors;
  }

  /** `TermStaticCrawler.parse`: the records of the anchors, deduplicated by name. */
  method Parse(page: GlossaryPage) returns (terms: seq<Record>)
    ensures terms == GlossaryTerms(page)
  {
    if page.NoContent? {
      return [];
    }
    var entries := CollectEntries(page.anchors);
    EntriesShape(page.anchors);
    var unique := DeduplicateTerms(entries, NAME_KEY);
    assert unique.Ok?;
    terms := unique.value;
  }
}
