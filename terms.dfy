/**
  `parse_terms`: the glossary terms of a detail page. Every `span` carrying an `mc-tooltips…`
  class whose text is long enough and not a number is a candidate; each is hovered in the
  browser and the tooltip that appears gives the term's type (its `<strong>` parts) and its
  description. The browser is an oracle here: for candidate `i` it answers with what the
  tooltip showed, that no tooltip appeared, that a call failed, or that the page crashed.

  Two variants exist: the detail parser stops after 20 processed candidates and on a crash,
  and checks that the page is alive before starting; the older single-operator parser has
  none of these.
 */
module Terms {
  import opened Wrappers
  import opened Strings
  import opened Markup
  import opened Utils
  import opened Soup
  import Config

  /** The type given to a term whose tooltip names none, or names only the term itself. */
  const NO_TYPE: string := "无"

  /** At most this many candidates are processed by the detail parser. */
  const MAX_TERMS: nat := 20

  /** One output record: `term_name`, `term_type`, `term_description`. */
  datatype Term = Term(name: string, termType: string, description: string)

  function TermName(t: Term): string {
    t.name
  }

  /** What hovering candidate `i` produced: a tooltip, with the `inner_text` of its `<strong>`
      parts, of its other parts, and of the whole tooltip; no tooltip for any selector; a
      timeout or other browser error; an error whose message says the page crashed. */
  datatype Probe = Tip(strongs: seq<string>, parts: seq<string>, fullText: string) | NoTip | Failure | Crash

  // ---------------------------------------------------------------------------
  // Candidates
  // ---------------------------------------------------------------------------

  predicate TooltipClasses(classes: seq<string>) {
    exists i :: 0 <= i < |classes| && Contains(classes[i], "mc-tooltips")
  }

  /** The `find_all` filter: a span with a tooltip class whose cleaned text has at least
      `min_length` characters and is not all digits. */
  predicate IsTermTag(n: Node) {
    && n.Element? && n.name == "span" && n.classes != [] && TooltipClasses(n.classes)
    && |CleanTag(n)| >= Config.TERM_MIN_LENGTH && !IsDigits(CleanTag(n))
  }

  /** A name the candidate filter lets through. */
  predicate ValidName(s: string) {
    |s| >= Config.TERM_MIN_LENGTH && !IsDigits(s) && NoEdgeSpace(s)
  }

  lemma CandidateNamesValid(tags: seq<Node>)
    requires forall i :: 0 <= i < |tags| ==> IsTermTag(tags[i])
    ensures forall i :: 0 <= i < |tags| ==> ValidName(CleanTexts(tags)[i])
  {
    forall i | 0 <= i < |tags| ensures ValidName(CleanTexts(tags)[i]) {
      CleanTextsAt(tags, i);
    }
  }

  // ---------------------------------------------------------------------------
  // Reading a tooltip
  // ---------------------------------------------------------------------------

  /** `s.split(":")[0]`: the longest prefix without an ASCII colon. */
  function BeforeColon(s: string): (r: string)
    ensures r <= s
    ensures forall i :: 0 <= i < |r| ==> r[i] != ':'
    ensures |r| < |s| ==> s[|r|] == ':'
  {
    if s == [] || s[0] == ':' then [] else [s[0]] + BeforeColon(s[1..])
  }

  predicate IsColon(c: char) {
    c == ':' || c == '：'
  }

  /** `s.rstrip("：:")` */
  function TrimColons(s: string): (r: string)
    ensures r <= s
    ensures r == [] || !IsColon(r[|r| - 1])
    ensures forall i :: |r| <= i < |s| ==> IsColon(s[i])
  {
    if s != [] && IsColon(s[|s| - 1]) then TrimColons(s[..|s| - 1]) else s
  }

  /** `text.strip().split(":")[0].rstrip("：:")` */
  function StrongText(raw: string): (r: string)
    ensures forall i :: 0 <= i < |r| ==> r[i] != ':'
    ensures r == [] || r[|r| - 1] != '：'
  {
    var b := BeforeColon(Strip(raw));
    var r := TrimColons(b);
    assert forall i :: 0 <= i < |r| ==> r[i] == b[i];
    r
  }

  /** The non-empty strong texts, in order. */
  function StrongTexts(raws: seq<string>): (r: seq<string>)
    ensures |r| <= |raws|
    ensures forall i :: 0 <= i < |r| ==> r[i] != []
  {
    if raws == [] then []
    else
      var t := StrongText(raws[|raws| - 1]);
      StrongTexts(raws[..|raws| - 1]) + (if t != [] then [t] else [])
  }

  /** The stripped, non-empty texts of the tooltip's other parts, in order. */
  function ContentParts(raws: seq<string>): (r: seq<string>)
    ensures |r| <= |raws|
    ensures forall i :: 0 <= i < |r| ==> r[i] != [] && NoEdgeSpace(r[i])
  {
    if raws == [] then []
    else
      var t := Strip(raws[|raws| - 1]);
      ContentParts(raws[..|raws| - 1]) + (if t != [] then [t] else [])
  }

  /** The type of a term: its strong texts joined with "，", or "无" when there are none or
      when they spell the term's own name. */
  function TermType(strongs: seq<string>, name: string): (r: string)
    ensures r != []
    ensures r == name ==> r == NO_TYPE
    ensures StrongTexts(strongs) == [] ==> r == NO_TYPE
    ensures r != NO_TYPE ==> r == Join(StrongTexts(strongs), "，")
  {
    var ts := StrongTexts(strongs);
    var t := if ts == [] then NO_TYPE else Join(ts, "，");
    assert t != [] by {
      if ts != [] { JoinNonEmpty(ts, "，"); }
    }
    if t == name then NO_TYPE else t
  }

  lemma {:induction false} JoinNonEmpty(parts: seq<string>, sep: string)
    requires parts != [] && parts[0] != []
    ensures Join(parts, sep) != []
  {
    if |parts| > 1 {
      assert Join(parts, sep) == parts[0] + sep + Join(parts[1..], sep);
    }
  }

  /** The raw description: the other parts joined with "\n", or, when they give nothing, the
      whole tooltip text with the type (followed by "：", by ":", and then alone) deleted,
      stripped. */
  function TipDescription(parts: seq<string>, fullText: string, termType: string): string {
    var d := Join(ContentParts(parts), "\n");
    if d != "" then d
    else if termType != NO_TYPE then
      Strip(RemoveAll(RemoveAll(RemoveAll(fullText, termType + "："), termType + ":"), termType))
    else Strip(fullText)
  }

  /** `re.sub(r"\s+", "\n", desc).strip()` */
  function FormatDesc(d: string): (r: string)
    ensures Normalized(r, '\n')
  {
    CollapseStripNormalized(d, '\n');
    Strip(Collapse(d, "\n"))
  }

  /** Formatting a description twice changes nothing more. */
  lemma FormatDescIdempotent(d: string)
    ensures FormatDesc(FormatDesc(d)) == FormatDesc(d)
  {
    var r := FormatDesc(d);
    CollapseIdentity(r, '\n');
    StripIdentity(r);
  }

  /** The strong-text loop over the tooltip's `<strong>` handles. */
  method CollectStrongTexts(raws: seq<string>) returns (ts: seq<string>)
    ensures ts == StrongTexts(raws)
  {
    ts := [];
    for i := 0 to |raws|
      invariant ts == StrongTexts(raws[..i])
    {
      assert raws[..i + 1][..i] == raws[..i];
      var t := StrongText(raws[i]);
      if t != [] {
        ts := ts + [t];
      }
    }
    assert raws[..|raws|] == raws;
  }

  /** The content-part loop over the tooltip's other handles. */
  method CollectContentParts(raws: seq<string>) returns (ps: seq<string>)
    ensures ps == ContentParts(raws)
  {
    ps := [];
    for i := 0 to |raws|
      invariant ps == ContentParts(raws[..i])
    {
      assert raws[..i + 1][..i] == raws[..i];
      var t := Strip(raws[i]);
      if t != [] {
        ps := ps + [t];
      }
    }
    assert raws[..|raws|] == raws;
  }

  // ---------------------------------------------------------------------------
  // The candidate loop
  // ---------------------------------------------------------------------------

  /** What one candidate's hover comes to: a term to keep; a miss (no tooltip, or a
      description too short), which is a failure that does not count as processed; a browser
      error; a crash. */
  datatype Outcome = Found(term: Term) | Missed | Failed | Crashed

  /** Reading candidate `name`'s tooltip as the loop body does. */
  function Evaluate(name: string, pr: Probe): (o: Outcome)
    ensures o.Found? ==> o.term.name == name
    ensures o.Found? ==> |o.term.description| >= Config.DESC_MIN_LENGTH && Normalized(o.term.description, '\n')
    ensures o.Found? ==> (o.term.termType == name ==> o.term.termType == NO_TYPE)
    ensures pr.NoTip? ==> o == Missed
    ensures pr.Failure? ==> o == Failed
    ensures pr.Crash? ==> o == Crashed
  {
    match pr
    case NoTip => Missed
    case Failure => Failed
    case Crash => Crashed
    case Tip(strongs, parts, fullText) =>
      var ty := TermType(strongs, name);
      var d := FormatDesc(TipDescription(parts, fullText, ty));
      if |d| < Config.DESC_MIN_LENGTH then Missed else Found(Term(name, ty, d))
  }

  /** `[f(i), …, f(n - 1)]`; the non-empty case is its own function so that a proof about
      one element does not evaluate the others. */
  function Tabulate<T>(f: nat -> T, i: nat, n: nat): (r: seq<T>)
    ensures i <= n ==> |r| == n - i
    decreases n - i, 1
  {
    if i >= n then [] else TabulateCons(f, i, n)
  }

  function TabulateCons<T>(f: nat -> T, i: nat, n: nat): (r: seq<T>)
    requires i < n
    ensures |r| == n - i
    decreases n - i, 0
  {
    [f(i)] + Tabulate(f, i + 1, n)
  }

  lemma {:induction false} TabulateAt<T>(f: nat -> T, i: nat, n: nat, j: nat)
    requires i <= j < n
    ensures Tabulate(f, i, n)[j - i] == f(j)
    decreases j - i
  {
    assert Tabulate(f, i, n) == TabulateCons(f, i, n) == [f(i)] + Tabulate(f, i + 1, n);
    if i < j {
      TabulateAt(f, i + 1, n, j);
    }
  }

  /** The outcome of hovering candidate `j`. */
  function HoverOf(names: seq<string>, probe: nat -> Probe): nat -> Outcome {
    (j: nat) => if j < |names| then Evaluate(names[j], probe(j)) else Missed
  }

  /** The outcome every candidate would have if it were hovered. */
  function Outcomes(names: seq<string>, probe: nat -> Probe): (r: seq<Outcome>)
    ensures |r| == |names|
  {
    Tabulate(HoverOf(names, probe), 0, |names|)
  }

  /** A candidate whose hover crashed has the outcome `Crashed`. */
  lemma CrashOutcome(names: seq<string>, probe: nat -> Probe, j: nat)
    requires j < |names| && probe(j) == Crash
    ensures Outcomes(names, probe)[j] == Crashed
  {
    OutcomesAt(names, probe, j);
  }

  lemma OutcomesAt(names: seq<string>, probe: nat -> Probe, j: nat)
    requires j < |names|
    ensures Outcomes(names, probe)[j] == Evaluate(names[j], probe(j))
  {
    var f := HoverOf(names, probe);
    assert Outcomes(names, probe)[j] == f(j) by { TabulateAt(f, 0, |names|, j); }
    assert f(j) == Evaluate(names[j], probe(j));
  }

  /** What the loop may rely on about candidate `j`'s outcome. */
  lemma OutcomeFacts(names: seq<string>, probe: nat -> Probe, j: nat)
    requires j < |names|
    ensures var o := Outcomes(names, probe)[j];
      && (o.Found? ==> o.term.name == names[j])
      && (o.Found? ==> |o.term.description| >= Config.DESC_MIN_LENGTH && Normalized(o.term.description, '\n'))
      && (o.Found? ==> (o.term.termType == names[j] ==> o.term.termType == NO_TYPE))
  {
    OutcomesAt(names, probe, j);
  }

  /** How a variant of the loop treats its candidates: the number of processed candidates at
      which it stops, if any, and whether a crash ends it. */
  datatype Policy = Policy(limit: Option<nat>, crashStops: bool)

  function Min(a: nat, b: nat): nat {
    if a <= b then a else b
  }

  /** The detail parser: `max_terms = min(total_terms, 20)`, and a crash ends the loop. */
  function DetailPolicy(total: nat): Policy {
    Policy(Some(Min(total, MAX_TERMS)), true)
  }

  /** The single-operator parser: no cap, and a crash is one more failure. */
  const LEGACY_POLICY: Policy := Policy(None, false)

  /** The loop's variables: `terms`, `term_seen`, `processed_terms`, and whether it broke. */
  datatype TermScan = TermScan(terms: seq<Term>, seen: set<string>, processed: nat, stopped: bool)

  const START: TermScan := TermScan([], {}, 0, false)

  /** One iteration on a candidate named `name` whose hover comes to `o`: over the cap the loop
      breaks; a duplicate or empty name is skipped unhovered. */
  function Step(p: Policy, s: TermScan, name: string, o: Outcome): TermScan {
    if s.stopped then s
    else if p.limit.Some? && s.processed >= p.limit.value then s.(stopped := true)
    else if name == "" || name in s.seen then s
    else
      match o
      case Missed => s
      case Failed => s.(processed := s.processed + 1)
      case Crashed => if p.crashStops then s.(stopped := true) else s.(processed := s.processed + 1)
      case Found(t) => s.(terms := s.terms + [t], seen := s.seen + {name}, processed := s.processed + 1)
  }

  /** The state after the first `k` candidates. */
  function ScanTerms(p: Policy, names: seq<string>, probe: nat -> Probe, k: nat): TermScan
    requires k <= |names|
  {
    if k == 0 then START
    else Step(p, ScanTerms(p, names, probe, k - 1), names[k - 1], Outcomes(names, probe)[k - 1])
  }

  lemma {:induction false} StoppedStays(p: Policy, names: seq<string>, probe: nat -> Probe, k: nat, n: nat)
    requires k <= n <= |names| && ScanTerms(p, names, probe, k).stopped
    ensures ScanTerms(p, names, probe, n) == ScanTerms(p, names, probe, k)
    decreases n - k
  {
    if k < n {
      StoppedStays(p, names, probe, k, n - 1);
    }
  }

  /** What the loop keeps true: `term_seen` is the set of names collected, the names are
      distinct candidates, each description is long enough and normalized to single "\n"
      separators, a type equal to the name has become "无", and every collected term was a
      processed candidate, within the cap. */
  ghost predicate ScanOk(p: Policy, names: seq<string>, k: nat, s: TermScan) {
    && s.seen == KeysOf(s.terms, TermName)
    && DistinctKeys(s.terms, TermName)
    && (forall i :: 0 <= i < |s.terms| ==> s.terms[i].name in names && s.terms[i].name != "")
    && (forall i :: 0 <= i < |s.terms| ==>
          |s.terms[i].description| >= Config.DESC_MIN_LENGTH && Normalized(s.terms[i].description, '\n'))
    && (forall i :: 0 <= i < |s.terms| ==> s.terms[i].termType == s.terms[i].name ==> s.terms[i].termType == NO_TYPE)
    && |s.terms| <= s.processed <= k
    && (p.limit.Some? ==> s.processed <= p.limit.value)
  }

  /** Collecting a new term keeps the loop's invariant. */
  lemma CollectOk(p: Policy, names: seq<string>, k: nat, s: TermScan, t: Term)
    requires k < |names| && ScanOk(p, names, k, s)
    requires t.name == names[k] && t.name != "" && t.name !in s.seen
    requires |t.description| >= Config.DESC_MIN_LENGTH && Normalized(t.description, '\n')
    requires t.termType == t.name ==> t.termType == NO_TYPE
    requires p.limit.Some? ==> s.processed < p.limit.value
    ensures ScanOk(p, names, k + 1, s.(terms := s.terms + [t], seen := s.seen + {t.name}, processed := s.processed + 1))
  {
    var ts := s.terms + [t];
    KeysOfSnoc(s.terms, t, TermName);
    assert forall i :: 0 <= i < |s.terms| ==> ts[i] == s.terms[i];
    forall i, j | 0 <= i < j < |ts| ensures TermName(ts[i]) != TermName(ts[j]) {
      if j == |s.terms| {
        assert TermName(s.terms[i]) in KeysOf(s.terms, TermName);
      }
    }
  }

  lemma StepOk(p: Policy, names: seq<string>, probe: nat -> Probe, k: nat, s: TermScan)
    requires k < |names| && ScanOk(p, names, k, s)
    ensures ScanOk(p, names, k + 1, Step(p, s, names[k], Outcomes(names, probe)[k]))
  {
    var name, o := names[k], Outcomes(names, probe)[k];
    var s' := Step(p, s, name, o);
    if !s.stopped && !(p.limit.Some? && s.processed >= p.limit.value) && name != "" && name !in s.seen && o.Found? {
      OutcomeFacts(names, probe, k);
      CollectOk(p, names, k, s, o.term);
    } else {
      assert s'.terms == s.terms && s'.seen == s.seen;
      assert s.processed <= s'.processed <= s.processed + 1;
      assert s'.processed > s.processed ==> !(p.limit.Some? && s.processed >= p.limit.value);
      KeepOk(p, names, k, s, s');
    }
  }

  /** A step that collects nothing keeps the invariant. */
  lemma KeepOk(p: Policy, names: seq<string>, k: nat, s: TermScan, s': TermScan)
    requires ScanOk(p, names, k, s)
    requires s'.terms == s.terms && s'.seen == s.seen && s.processed <= s'.processed <= s.processed + 1
    requires s'.processed > s.processed ==> !(p.limit.Some? && s.processed >= p.limit.value)
    ensures ScanOk(p, names, k + 1, s')
  {
  }

  lemma {:induction false} ScanTermsOk(p: Policy, names: seq<string>, probe: nat -> Probe, k: nat)
    requires k <= |names|
    ensures ScanOk(p, names, k, ScanTerms(p, names, probe, k))
  {
    if k > 0 {
      ScanTermsOk(p, names, probe, k - 1);
      StepOk(p, names, probe, k - 1, ScanTerms(p, names, probe, k - 1));
    }
  }

  // ---------------------------------------------------------------------------
  // The loop as the source runs it
  // ---------------------------------------------------------------------------

  /** The type read from the tooltip's `<strong>` parts. */
  method ReadType(strongs: seq<string>, name: string) returns (ty: string)
    ensures ty == TermType(strongs, name)
  {
    var ts := CollectStrongTexts(strongs);
    ty := if ts == [] then NO_TYPE else Join(ts, "，");
    if ty == name {
      ty := NO_TYPE;
    }
  }

  /** The description read from the tooltip's other parts, or from its whole text. */
  method ReadDescription(parts: seq<string>, fullText: string, ty: string) returns (desc: string)
    ensures desc == TipDescription(parts, fullText, ty)
  {
    var ps := CollectContentParts(parts);
    desc := if ps != [] then Join(ps, "\n") else "";
    if desc == "" {
      var full := fullText;
      if ty != NO_TYPE {
        full := RemoveAll(RemoveAll(RemoveAll(full, ty + "："), ty + ":"), ty);
      }
      desc := Strip(full);
    }
  }

  /** Hovering a candidate and reading what its tooltip shows. */
  method Hover(name: string, pr: Probe) returns (o: Outcome)
    ensures o == Evaluate(name, pr)
  {
    match pr
    case NoTip => o := Missed;
    case Failure => o := Failed;
    case Crash => o := Crashed;
    case Tip(strongs, parts, fullText) =>
      var ty := ReadType(strongs, name);
      var desc := ReadDescription(parts, fullText, ty);
      var formatted := FormatDesc(desc);
      if |formatted| < Config.DESC_MIN_LENGTH {
        o := Missed;
      } else {
        o := Found(Term(name, ty, formatted));
      }
  }

  /** Hovering candidate `idx`, whose name is `name`. */
  method HoverAt(ghost names: seq<string>, probe: nat -> Probe, idx: nat, name: string) returns (o: Outcome)
    requires idx < |names| && names[idx] == name
    ensures o == Outcomes(names, probe)[idx]
  {
    OutcomesAt(names, probe, idx);
    o := Hover(name, probe(idx));
  }

  /** The body of the loop on a candidate below the cap. */
  method TermStep(ghost names: seq<string>, probe: nat -> Probe, idx: nat, p: Policy,
                  terms: seq<Term>, seen: set<string>, processed: nat, name: string)
    returns (terms': seq<Term>, seen': set<string>, processed': nat, stop: bool)
    requires idx < |names| && names[idx] == name
    requires !(p.limit.Some? && processed >= p.limit.value)
    ensures TermScan(terms', seen', processed', stop)
      == Step(p, TermScan(terms, seen, processed, false), name, Outcomes(names, probe)[idx])
  {
    terms', seen', processed', stop := terms, seen, processed, false;
    if name == "" || name in seen {
      return;
    }
    var o := HoverAt(names, probe, idx, name);
    match o
    case Missed =>
    case Failed =>
      processed' := processed + 1;
    case Crashed =>
      if p.crashStops {
        stop := true;
      } else {
        processed' := processed + 1;
      }
    case Found(t) =>
      terms', seen', processed' := terms + [t], seen + {name}, processed + 1;
  }

  /** The loop over the candidate tags, with the cap and the crash break of `p`. */
  method TermLoop(p: Policy, tags: seq<Node>, probe: nat -> Probe) returns (terms: seq<Term>)
    ensures terms == ScanTerms(p, CleanTexts(tags), probe, |tags|).terms
  {
    ghost var names := CleanTexts(tags);
    var seen: set<string> := {};
    var processed: nat := 0;
    terms := [];
    for idx := 0 to |tags|
      invariant ScanTerms(p, names, probe, idx) == TermScan(terms, seen, processed, false)
    {
      if p.limit.Some? && processed >= p.limit.value {
        StoppedStays(p, names, probe, idx + 1, |tags|);
        return;
      }
      var name := ReadText(tags, idx);
      var stop;
      terms, seen, processed, stop := TermStep(names, probe, idx, p, terms, seen, processed, name);
      if stop {
        StoppedStays(p, names, probe, idx + 1, |tags|);
        return;
      }
    }
  }

  /** The closing pass that keeps the first term per name. */
  method FinalDedup(terms: seq<Term>) returns (unique: seq<Term>)
    ensures unique == FirstOccurrences(terms, TermName)
  {
    var finalSeen: set<string> := {};
    unique := [];
    for i := 0 to |terms|
      invariant unique == FirstOccurrences(terms[..i], TermName)
      invariant finalSeen == KeysOf(unique, TermName)
    {
      assert terms[..i + 1][..i] == terms[..i] && terms[..i + 1][i] == terms[i];
      if terms[i].name !in finalSeen {
        KeysOfSnoc(unique, terms[i], TermName);
        finalSeen := finalSeen + {terms[i].name};
        unique := unique + [terms[i]];
      }
    }
    assert terms[..|terms|] == terms;
  }

  // ---------------------------------------------------------------------------
  // The two variants
  // ---------------------------------------------------------------------------

  /** The candidate tags under `div#mw-content-text`. */
  function Candidates(content: Node): seq<Node> {
    FindAllWhere(content, IsTermTag)
  }

  /** What the loop collects over the candidates, with policy `p`, once deduplicated. */
  function Collected(p: Policy, tags: seq<Node>, probe: nat -> Probe): seq<Term> {
    FirstOccurrences(ScanTerms(p, CleanTexts(tags), probe, |tags|).terms, TermName)
  }

  /** The detail parser's `parse_terms`: nothing without the content area, without
      candidates, or when the page does not answer; otherwise the capped loop. */
  function DetailTerms(content: Option<Node>, pageAlive: bool, probe: nat -> Probe): seq<Term> {
    if content.None? then []
    else
      var tags := Candidates(content.value);
      if tags == [] || !pageAlive then [] else Collected(DetailPolicy(|tags|), tags, probe)
  }

  /** The single-operator parser's `parse_terms`: the uncapped loop. */
  function LegacyTerms(content: Option<Node>, probe: nat -> Probe): seq<Term> {
    if content.None? then []
    else
      var tags := Candidates(content.value);
      if tags == [] then [] else Collected(LEGACY_POLICY, tags, probe)
  }

  method ParseDetailTerms(content: Option<Node>, pageAlive: bool, probe: nat -> Probe) returns (terms: seq<Term>)
    ensures terms == DetailTerms(content, pageAlive, probe)
  {
    terms := [];
    if content.None? {
      return;
    }
    var tags := Candidates(content.value);
    if |tags| == 0 || !pageAlive {
      return;
    }
    var collected := TermLoop(DetailPolicy(|tags|), tags, probe);
    terms := FinalDedup(collected);
  }

  method ParseLegacyTerms(content: Option<Node>, probe: nat -> Probe) returns (terms: seq<Term>)
    ensures terms == LegacyTerms(content, probe)
  {
    terms := [];
    if content.None? {
      return;
    }
    var tags := Candidates(content.value);
    if |tags| == 0 {
      return;
    }
    var collected := TermLoop(LEGACY_POLICY, tags, probe);
    terms := FinalDedup(collected);
  }

  // ---------------------------------------------------------------------------
  // What the output promises
  // ---------------------------------------------------------------------------

  /** The closing deduplication changes nothing: the loop already keeps names distinct. Every
      term has a distinct valid name of a candidate, a long enough normalized description and
      the "无" type rule, and no more terms than candidates processed. */
  lemma CollectedShape(p: Policy, tags: seq<Node>, probe: nat -> Probe)
    requires forall i :: 0 <= i < |tags| ==> IsTermTag(tags[i])
    ensures var s := ScanTerms(p, CleanTexts(tags), probe, |tags|);
      Collected(p, tags, probe) == s.terms && |s.terms| <= s.processed <= |tags|
    ensures var r := Collected(p, tags, probe);
      && DistinctKeys(r, TermName)
      && (forall i :: 0 <= i < |r| ==> ValidName(r[i].name) && r[i].name in CleanTexts(tags))
      && (forall i :: 0 <= i < |r| ==>
            |r[i].description| >= Config.DESC_MIN_LENGTH && Normalized(r[i].description, '\n'))
      && (forall i :: 0 <= i < |r| ==> r[i].termType == r[i].name ==> r[i].termType == NO_TYPE)
      && (p.limit.Some? ==> |r| <= p.limit.value)
  {
    var names := CleanTexts(tags);
    var s := ScanTerms(p, names, probe, |tags|);
    ScanTermsOk(p, names, probe, |tags|);
    FirstOccurrencesOfDistinct(s.terms, TermName);
    CandidateNamesValid(tags);
    forall i | 0 <= i < |s.terms| ensures ValidName(s.terms[i].name) {
      var j :| 0 <= j < |names| && names[j] == s.terms[i].name;
    }
  }

  /** The detail parser's terms: distinct valid names, descriptions of at least five characters
      on "\n"-separated lines, and at most 20 of them. */
  lemma DetailTermsShape(content: Option<Node>, pageAlive: bool, probe: nat -> Probe)
    ensures var r := DetailTerms(content, pageAlive, probe);
      && DistinctKeys(r, TermName)
      && |r| <= MAX_TERMS
      && (forall i :: 0 <= i < |r| ==> ValidName(r[i].name))
      && (forall i :: 0 <= i < |r| ==>
            |r[i].description| >= Config.DESC_MIN_LENGTH && Normalized(r[i].description, '\n'))
      && (forall i :: 0 <= i < |r| ==> r[i].termType == r[i].name ==> r[i].termType == NO_TYPE)
    ensures content.None? || !pageAlive ==> DetailTerms(content, pageAlive, probe) == []
  {
    if content.Some? {
      var tags := Candidates(content.value);
      KeepIfSpec(Descendants(content.value), IsTermTag);
      if tags != [] && pageAlive {
        CollectedShape(DetailPolicy(|tags|), tags, probe);
      }
    }
  }

  /** The single-operator parser's terms: the same guarantees, with no cap. */
  lemma LegacyTermsShape(content: Option<Node>, probe: nat -> Probe)
    ensures var r := LegacyTerms(content, probe);
      && DistinctKeys(r, TermName)
      && (forall i :: 0 <= i < |r| ==> ValidName(r[i].name))
      && (forall i :: 0 <= i < |r| ==> |r[i].description| >= Config.DESC_MIN_LENGTH)
    ensures content.None? ==> LegacyTerms(content, probe) == []
  {
    if content.Some? {
      var tags := Candidates(content.value);
      KeepIfSpec(Descendants(content.value), IsTermTag);
      if tags != [] {
        CollectedShape(LEGACY_POLICY, tags, probe);
      }
    }
  }

  /** A crash ends the detail loop: nothing after the crashing candidate is looked at. */
  lemma CrashStopsDetail(names: seq<string>, probe: nat -> Probe, k: nat, n: nat)
    requires k < n <= |names|
    requires var s := ScanTerms(DetailPolicy(n), names, probe, k);
      !s.stopped && s.processed < Min(n, MAX_TERMS) && names[k] != "" && names[k] !in s.seen
    requires probe(k) == Crash
    ensures ScanTerms(DetailPolicy(n), names, probe, n) == ScanTerms(DetailPolicy(n), names, probe, k).(stopped := true)
  {
    var p := DetailPolicy(n);
    var s := ScanTerms(p, names, probe, k);
    CrashOutcome(names, probe, k);
    assert ScanTerms(p, names, probe, k + 1) == Step(p, s, names[k], Crashed) == s.(stopped := true);
    StoppedStays(p, names, probe, k + 1, n);
  }

  /** The legacy loop treats a crash as one more failure and goes on. */
  lemma CrashContinuesLegacy(names: seq<string>, probe: nat -> Probe, k: nat)
    requires k < |names|
    requires probe(k) == Crash
    ensures !ScanTerms(LEGACY_POLICY, names, probe, k + 1).stopped
    ensures ScanTerms(LEGACY_POLICY, names, probe, k + 1).terms == ScanTerms(LEGACY_POLICY, names, probe, k).terms
  {
    CrashOutcome(names, probe, k);
    LegacyNeverStops(names, probe, k);
  }

  lemma {:induction false} LegacyNeverStops(names: seq<string>, probe: nat -> Probe, k: nat)
    requires k <= |names|
    ensures !ScanTerms(LEGACY_POLICY, names, probe, k).stopped
  {
    if k > 0 {
      LegacyNeverStops(names, probe, k - 1);
    }
  }
}
