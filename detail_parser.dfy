/**
  The stateful detail parser (`OperatorDetailParser` in operators_detail_parse.py): it holds the
  operator's name and URL, the browser page it opened and the soup it parsed from that page the
  first time a section extractor asked for it.
 */
module DetailParser {
  import opened Wrappers
  import opened Strings
  import opened Config
  import opened Soup
  import opened Operators
  import Attributes
  import Characteristic
  import Talents
  import Skills
  import Terms
  import Utils

  /** `f"{BASE_URL}/w/{name}"` for a non-empty name, "" otherwise. */
  function DetailUrl(name: string): string {
    if name == "" then "" else BASE_URL + "/w/" + name
  }

  /** The soup after `_get_soup`: the one already held, else the open page's content (none
      without a page). */
  function Loaded(soup: Option<Soup>, page: Option<Soup>): Option<Soup> {
    if soup.None? then page else soup
  }

  /** `parse_all` over a parsed page: the characteristic, the attributes, the talents (whose
      `IndexError` escapes), the skills and the terms; `alive` is whether the page answers. The
      terms are read from the content as loaded, without the pruning of the earlier extractors. */
  function DetailRecord(name: string, s: Soup, alive: bool, probe: nat -> Terms.Probe): Result<Operator, ParseError> {
    var talents := Talents.TalentsOf(s);
    if talents.Err? then Err(talents.error)
    else Ok(Operator(
      name,
      Characteristic.ParseChara(s.traitTable),
      Attributes.Attrs(Attributes.BaseAttributes(s.baseTable), Attributes.ExtraAttributes(s.extraTable)),
      talents.value,
      Skills.SkillsOf(s),
      Terms.DetailTerms(s.content, alive, probe)))
  }

  /** `parse_all` with the soup the parser holds: without one, the first extractor raises
      `AttributeError`. */
  function Parsed(name: string, soup: Option<Soup>, alive: bool, probe: nat -> Terms.Probe): Result<Operator, ParseError> {
    if soup.None? then Err(AttributeError) else DetailRecord(name, soup.value, alive, probe)
  }

  /** Loading is done once: a second `_get_soup` keeps the soup of the first, whatever page
      is open by then. */
  lemma LoadedOnce(soup: Option<Soup>, page: Option<Soup>, later: Option<Soup>)
    ensures Loaded(soup, page).Some? ==> Loaded(Loaded(soup, page), later) == Loaded(soup, page)
    ensures Loaded(soup, page).None? <==> soup.None? && page.None?
  {
  }

  /** A parsed page always gives the five base tiers, at most the six canonical extra keys, at
      most two talents and three named skills, and distinct terms, at most 20; it fails only
      when a talent table raises. */
  lemma DetailRecordShape(name: string, s: Soup, alive: bool, probe: nat -> Terms.Probe)
    ensures DetailRecord(name, s, alive, probe).Ok? <==> Talents.TalentsOf(s).Ok?
    ensures DetailRecord(name, s, alive, probe).Err? ==> DetailRecord(name, s, alive, probe).error == Talents.TalentsOf(s).error
    ensures DetailRecord(name, s, alive, probe).Ok? ==>
      var op := DetailRecord(name, s, alive, probe).value;
      && op.operatorName == name
      && op.attributes.baseAttributes.Keys == set t | t in Attributes.TIERS
      && op.attributes.extraAttributes.Keys <= Attributes.EXTRA_KEYS.Values
      && |op.talents| <= 2
      && |op.skills| <= 3 && (forall i :: 0 <= i < |op.skills| ==> op.skills[i].skillName != "")
      && Utils.DistinctKeys(op.terms, Terms.TermName) && |op.terms| <= Terms.MAX_TERMS
  {
    if Talents.TalentsOf(s).Ok? {
      Attributes.BaseAttributesSpec(s.baseTable, "", "");
      forall k | k in Attributes.ExtraAttributes(s.extraTable) ensures k in Attributes.EXTRA_KEYS.Values {
        Attributes.ExtraAttributesSpec(s.extraTable, k);
      }
      Terms.DetailTermsShape(s.content, alive, probe);
    }
  }

  class OperatorDetailParser {
    const operatorName: string
    const url: string
    /** The open browser page, as the content it serves; none before it is opened or after
        `run` closes it. */
    var page: Option<Soup>
    /** The soup parsed from the page by the first `_get_soup` that found one. */
    var soup: Option<Soup>

    /** `__init__`: the stripped name, its URL, no page and no soup. */
    constructor(operatorName: string)
      ensures this.operatorName == Strip(operatorName)
      ensures url == DetailUrl(this.operatorName)
      ensures page == None && soup == None
    {
      this.operatorName := Strip(operatorName);
      url := DetailUrl(Strip(operatorName));
      page := None;
      soup := None;
    }

    /** `_get_soup`: parse the page's content when there is no soup yet and a page is open. */
    method GetSoup() returns (s: Option<Soup>)
      modifies this
      ensures page == old(page) && soup == Loaded(old(soup), old(page))
      ensures s == soup
    {
      if soup.None? && page.Some? {
        soup := page;
      }
      s := soup;
    }

    /** `parse_attrs` */
    method ParseAttrs() returns (r: Result<Attributes.Attrs, ParseError>)
      modifies this
      ensures page == old(page) && soup == Loaded(old(soup), old(page))
      ensures soup.None? ==> r == Err(AttributeError)
      ensures soup.Some? ==> r == Ok(Attributes.Attrs(
        Attributes.BaseAttributes(soup.value.baseTable), Attributes.ExtraAttributes(soup.value.extraTable)))
    {
      var s := GetSoup();
      if s.None? {
        return Err(AttributeError);
      }
      var base := Attributes.FillBaseAttributes(s.value.baseTable);
      var extra := Attributes.FillExtraAttributes(s.value.extraTable);
      r := Ok(Attributes.Attrs(base, extra));
    }

    /** `parse_chara` */
    method ParseChara() returns (r: Result<Characteristic.Characteristic, ParseError>)
      modifies this
      ensures page == old(page) && soup == Loaded(old(soup), old(page))
      ensures soup.None? ==> r == Err(AttributeError)
      ensures soup.Some? ==> r == Ok(Characteristic.ParseChara(soup.value.traitTable))
    {
      var s := GetSoup();
      if s.None? {
        return Err(AttributeError);
      }
      r := Ok(Characteristic.ParseChara(s.value.traitTable));
    }

    /** `parse_talents` */
    method ParseTalents() returns (r: Result<seq<Talents.Talent>, ParseError>)
      modifies this
      ensures page == old(page) && soup == Loaded(old(soup), old(page))
      ensures soup.None? ==> r == Err(AttributeError)
      ensures soup.Some? ==> r == Talents.TalentsOf(soup.value)
    {
      var s := GetSoup();
      if s.None? {
        return Err(AttributeError);
      }
      r := Talents.ParseTalents(s.value);
    }

    /** `parse_skills` */
    method ParseSkills() returns (r: Result<seq<Skills.Skill>, ParseError>)
      modifies this
      ensures page == old(page) && soup == Loaded(old(soup), old(page))
      ensures soup.None? ==> r == Err(AttributeError)
      ensures soup.Some? ==> r == Ok(Skills.SkillsOf(soup.value))
    {
      var s := GetSoup();
      if s.None? {
        return Err(AttributeError);
      }
      var skills := Skills.ParseSkills(s.value);
      r := Ok(skills);
    }

    /** `parse_terms`: its outer `except` turns the missing soup into no terms; `answers` is
        whether `page.evaluate` succeeds, and a missing page never does. */
    method ParseTerms(answers: bool, probe: nat -> Terms.Probe) returns (terms: seq<Terms.Term>)
      modifies this
      ensures page == old(page) && soup == Loaded(old(soup), old(page))
      ensures soup.None? ==> terms == []
      ensures soup.Some? ==> terms == Terms.DetailTerms(soup.value.content, page.Some? && answers, probe)
    {
      var s := GetSoup();
      if s.None? {
        return [];
      }
      terms := Terms.ParseDetailTerms(s.value.content, page.Some? && answers, probe);
    }

    /** `parse_all`: the five extractors in order over the soup as loaded. The terms are read from
        the content before the trait and talent descriptions' noise spans are pruned. */
    method ParseAll(answers: bool, probe: nat -> Terms.Probe) returns (r: Result<Operator, ParseError>)
      modifies this
      ensures page == old(page) && soup == Loaded(old(soup), old(page))
      ensures r == Parsed(operatorName, soup, page.Some? && answers, probe)
    {
      var chara := ParseChara();
      if chara.Err? {
        return Err(chara.error);
      }
      var attrs := ParseAttrs();
      var talents := ParseTalents();
      if talents.Err? {
        return Err(talents.error);
      }
      var skills := ParseSkills();
      var terms := ParseTerms(answers, probe);
      r := Ok(Operator(operatorName, chara.value, attrs.value, talents.value, skills.value, terms));
    }

    /** `run`: nothing for an empty name; otherwise open the page (`loaded` is the page
        `_init_browser_page` leaves, none when it raises), parse, turn any exception into
        nothing, and close the page. */
    method Run(loaded: Option<Soup>, answers: bool, probe: nat -> Terms.Probe) returns (r: Option<Operator>)
      modifies this
      ensures operatorName == "" ==> r == None && page == old(page) && soup == old(soup)
      ensures operatorName != "" ==> page == None
      ensures operatorName != "" && loaded.None? ==> r == None && soup == old(soup)
      ensures operatorName != "" && loaded.Some? ==>
        && soup == Loaded(old(soup), loaded)
        && r == (var p := Parsed(operatorName, soup, answers, probe); if p.Ok? then Some(p.value) else None)
    {
      if operatorName == "" {
        return None;
      }
      page := loaded;
      if loaded.None? {
        page := None;
        return None;
      }
      var result := ParseAll(answers, probe);
      page := None;
      r := if result.Ok? then Some(result.value) else None;
    }
  }
}
