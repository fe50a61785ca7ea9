/**
  The older stateful parser (`SingleOperatorParser` in parse_operator.py) and its entry point
  `parse_single_operator`: the parser is handed an open page and parses its content into a soup
  the first time an extractor asks for it.
 */
module LegacyParser {
  import opened Wrappers
  import opened Strings
  import opened Soup
  import opened Operators
  import Attributes
  import Characteristic
  import Talents
  import Skills
  import Terms
  import Utils
  import Legacy

  /** `parse_all(operator_name)` over the page's soup: the characteristic, the attributes with
      the pairwise extra table, the talents and the skills (whose exceptions escape, talents
      first), and the uncapped terms, read from the content as loaded, without the pruning of the
      earlier extractors. */
  function LegacyRecord(name: string, s: Soup, probe: nat -> Terms.Probe): Result<Operator, ParseError> {
    var talents := Talents.TalentsOf(s);
    var skills := Legacy.SkillsOf(s.skillHeader);
    if talents.Err? then Err(talents.error)
    else if skills.Err? then Err(skills.error)
    else Ok(Operator(
      name,
      Characteristic.ParseChara(s.traitTable),
      Attributes.Attrs(Attributes.BaseAttributes(s.baseTable), Legacy.PairedExtra(s.extraTable)),
      talents.value,
      skills.value,
      Terms.LegacyTerms(s.content, probe)))
  }

  /** The record fails exactly when the talents or the skills raise; otherwise it has the five
      base tiers, at most two talents, the skills of at most three tables numbered from 1, and
      distinct terms. */
  lemma LegacyRecordShape(name: string, s: Soup, probe: nat -> Terms.Probe)
    ensures LegacyRecord(name, s, probe).Ok? <==>
              Talents.TalentsOf(s).Ok? && Legacy.SkillsOf(s.skillHeader).Ok?
    ensures LegacyRecord(name, s, probe).Err? && Talents.TalentsOf(s).Ok? ==>
              LegacyRecord(name, s, probe).error == Legacy.SkillsOf(s.skillHeader).error
    ensures LegacyRecord(name, s, probe).Ok? ==>
      var op := LegacyRecord(name, s, probe).value;
      && op.operatorName == name
      && op.attributes.baseAttributes.Keys == set t | t in Attributes.TIERS
      && |op.talents| <= 2
      && |op.skills| <= 3 && (forall i :: 0 <= i < |op.skills| ==> op.skills[i].skillNumber == i + 1)
      && Utils.DistinctKeys(op.terms, Terms.TermName)
  {
    if LegacyRecord(name, s, probe).Ok? {
      Attributes.BaseAttributesSpec(s.baseTable, "", "");
      Legacy.SkillsOfShape(s.skillHeader);
      Terms.LegacyTermsShape(s.content, probe);
    }
  }

  class SingleOperatorParser {
    /** The page handed in, as the content it serves. */
    const page: Soup
    /** The soup parsed from the page by the first `get_soup`. */
    var soup: Option<Soup>

    /** `__init__` */
    constructor(page: Soup)
      ensures this.page == page && soup == None
    {
      this.page := page;
      soup := None;
    }

    /** `get_soup`: parse the page's content unless a soup is already held. */
    method GetSoup() returns (s: Soup)
      modifies this
      ensures soup == (if old(soup).None? then Some(page) else old(soup))
      ensures soup == Some(s)
    {
      if soup.None? {
        soup := Some(page);
      }
      s := soup.value;
    }

    /** `parse_attrs` */
    method ParseAttrs() returns (attrs: Attributes.Attrs)
      modifies this
      ensures soup == (if old(soup).None? then Some(page) else old(soup))
      ensures attrs == Attributes.Attrs(
        Attributes.BaseAttributes(soup.value.baseTable), Legacy.PairedExtra(soup.value.extraTable))
    {
      var s := GetSoup();
      var base := Attributes.FillBaseAttributes(s.baseTable);
      var extra := Legacy.FillPairedExtra(s.extraTable);
      attrs := Attributes.Attrs(base, extra);
    }

    /** `parse_chara` */
    method ParseChara() returns (c: Characteristic.Characteristic)
      modifies this
      ensures soup == (if old(soup).None? then Some(page) else old(soup))
      ensures c == Characteristic.ParseChara(soup.value.traitTable)
    {
      var s := GetSoup();
      c := Characteristic.ParseChara(s.traitTable);
    }

    /** `parse_talents` */
    method ParseTalents() returns (r: Result<seq<Talents.Talent>, ParseError>)
      modifies this
      ensures soup == (if old(soup).None? then Some(page) else old(soup))
      ensures r == Talents.TalentsOf(soup.value)
    {
      var s := GetSoup();
      r := Talents.ParseTalents(s);
    }

    /** `parse_skills` */
    method ParseSkills() returns (r: Result<seq<Skills.Skill>, ParseError>)
      modifies this
      ensures soup == (if old(soup).None? then Some(page) else old(soup))
      ensures r == Legacy.SkillsOf(soup.value.skillHeader)
    {
      var s := GetSoup();
      r := Legacy.ParseSkills(s.skillHeader);
    }

    /** `parse_terms`, with the hover probe standing for the browser. */
    method ParseTerms(probe: nat -> Terms.Probe) returns (terms: seq<Terms.Term>)
      modifies this
      ensures soup == (if old(soup).None? then Some(page) else old(soup))
      ensures terms == Terms.LegacyTerms(soup.value.content, probe)
    {
      var s := GetSoup();
      terms := Terms.ParseLegacyTerms(s.content, probe);
    }

    /** `parse_all`: the five extractors in order over the soup as loaded. The terms are read from
        the content before the trait and talent descriptions' noise spans are pruned. */
    method ParseAll(operatorName: string, probe: nat -> Terms.Probe) returns (r: Result<Operator, ParseError>)
      modifies this
      ensures soup == (if old(soup).None? then Some(page) else old(soup))
      ensures r == LegacyRecord(operatorName, soup.value, probe)
    {
      var chara := ParseChara();
      var attrs := ParseAttrs();
      var talents := ParseTalents();
      if talents.Err? {
        return Err(talents.error);
      }
      var skills := ParseSkills();
      if skills.Err? {
        return Err(skills.error);
      }
      var terms := ParseTerms(probe);
      r := Ok(Operator(operatorName, chara, attrs, talents.value, skills.value, terms));
    }
  }

  /** `parse_single_operator`: nothing for a name that strips to empty; `loaded` is the content of
      the page the browser opened, none when starting the browser or loading the page raises;
      any exception of the parse gives nothing. */
  method ParseSingleOperator(operatorName: string, loaded: Option<Soup>, probe: nat -> Terms.Probe)
    returns (r: Option<Operator>)
    ensures Strip(operatorName) == "" || loaded.None? ==> r == None
    ensures Strip(operatorName) != "" && loaded.Some? ==>
      var p := LegacyRecord(Strip(operatorName), loaded.value, probe);
      r == if p.Ok? then Some(p.value) else None
  {
    var name := Strip(operatorName);
    if name == "" {
      return None;
    }
    if loaded.None? {
      return None;
    }
    var parser := new SingleOperatorParser(loaded.value);
    var result := parser.ParseAll(name, probe);
    r := if result.Ok? then Some(result.value) else None;
  }
}
