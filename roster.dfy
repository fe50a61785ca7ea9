/**
  The operator roster (`OperatorListCrawler.parse` and `.save` in operators_list_get.py, and the
  same code as `parse_ops` and `save_json` in get_operator.py): every direct `<div>` child of
  `div#filter-data` carries one operator in its attributes; the attributes are stripped, the
  rarity is shifted from 0-5 to 1-6, the attribute names are mapped to record fields, and the
  records are saved sorted by rarity descending and then by Chinese name.
 */
module Roster {
  import opened Wrappers
  import opened Strings
  import opened Utils
  import opened Config

  /** The attributes of one direct `<div>` child of the data container. */
  type DivAttrs = map<string, string>

  /** The parsed page: no `div#filter-data`, or the attributes of its direct `<div>` children. */
  datatype RosterPage = NoContainer | Container(divs: seq<DivAttrs>)

  /** The exceptions `parse` raises: the missing container, and `int()` of a malformed rarity. */
  datatype RosterError = RuntimeError | ValueError

  const RARITY_ATTR: string := "data-rarity"
  const RARITY: string := "rarity"
  const NAME: string := "name_cn"

  /** The record fields, the values of the attribute mapping. */
  const FIELDS: set<string> :=
    {"name_cn", "rarity", "profession", "sub_profession", "faction", "gender", "position", "tags"}

  /** `op_div.get(attr, '').strip()` */
  function AttrValue(div: DivAttrs, attr: string): string {
    Strip(if attr in div then div[attr] else "")
  }

  /** `str(int(raw or '0') + 1)`, or `None` where `int` raises. */
  function ShiftRarity(raw: string): Option<string> {
    match ParseInt(if raw == "" then "0" else raw)
    case None => None
    case Some(v) => Some(IntToString(v + 1))
  }

  /** The value stored under the field of mapping entry `attr`. */
  function FieldValue(div: DivAttrs, attr: string, rarity: string): string {
    if attr == RARITY_ATTR then rarity else AttrValue(div, attr)
  }

  /** The record built from the first `k` entries of the attribute mapping `m`. */
  function Fields(div: DivAttrs, rarity: string, m: seq<(string, string)>, k: nat): Record
    requires k <= |m|
  {
    if k == 0 then map[]
    else Fields(div, rarity, m, k - 1)[m[k - 1].1 := FieldValue(div, m[k - 1].0, rarity)]
  }

  /** The record of one roster `<div>`. */
  function OperatorOf(div: DivAttrs): Result<Record, RosterError> {
    match ShiftRarity(AttrValue(div, RARITY_ATTR))
    case None => Err(ValueError)
    case Some(rarity) => Ok(Fields(div, rarity, ATTR_MAPPING, |ATTR_MAPPING|))
  }

  /** `[f(x) for x in xs[:k]]`, where the first `x` whose `f` raises ends the loop with that error. */
  function MapOk<A, B, E>(xs: seq<A>, f: A -> Result<B, E>, k: nat): Result<seq<B>, E>
    requires k <= |xs|
  {
    if k == 0 then Ok([])
    else
      var prev := MapOk(xs, f, k - 1);
      if prev.Err? then prev
      else if f(xs[k - 1]).Err? then Err(f(xs[k - 1]).error)
      else Ok(prev.value + [f(xs[k - 1]).value])
  }

  /** What `parse` returns or raises. */
  function Roster(page: RosterPage): Result<seq<Record>, RosterError> {
    match page
    case NoContainer => Err(RuntimeError)
    case Container(divs) => MapOk(divs, OperatorOf, |divs|)
  }

  // ---------------------------------------------------------------------------
  // Properties of the parse
  // ---------------------------------------------------------------------------

  /** The 0-5 rarity of the page becomes 1-6; a missing rarity counts as 0. */
  lemma ShiftRarityExamples()
    ensures ShiftRarity("") == Some("1")
    ensures ShiftRarity("0") == Some("1")
    ensures ShiftRarity("5") == Some("6")
    ensures ShiftRarity("五") == None
  {
    assert AsciiDigits("0") && DigitsValue("0") == 0;
    assert AsciiDigits("5") && DigitsValue("5") == 5;
    assert IntToString(1) == "1" && IntToString(6) == "6";
  }

  /** The shifted rarity reads back as one more than the page's rarity. */
  lemma ShiftRaritySpec(raw: string)
    ensures ShiftRarity(raw).Some? <==> ParseInt(if raw == "" then "0" else raw).Some?
    ensures ShiftRarity(raw).Some? ==>
      ParseInt(ShiftRarity(raw).value) == Some(ParseInt(if raw == "" then "0" else raw).value + 1)
  {
    var p := ParseInt(if raw == "" then "0" else raw);
    if p.Some? {
      ParseIntOfIntToString(p.value + 1);
    }
  }

  /** The field names of the mapping are pairwise distinct. */
  lemma MappingDistinct()
    ensures DistinctFields(ATTR_MAPPING)
  {
  }

  /** The field names of the mapping are `FIELDS`. */
  lemma MappingFields()
    ensures (set i | 0 <= i < |ATTR_MAPPING| :: ATTR_MAPPING[i].1) == FIELDS
  {
    var names := set i | 0 <= i < |ATTR_MAPPING| :: ATTR_MAPPING[i].1;
    assert ATTR_MAPPING[0].1 in names && ATTR_MAPPING[1].1 in names && ATTR_MAPPING[2].1 in names;
    assert ATTR_MAPPING[3].1 in names && ATTR_MAPPING[4].1 in names && ATTR_MAPPING[5].1 in names;
    assert ATTR_MAPPING[6].1 in names && ATTR_MAPPING[7].1 in names;
  }

  /** No two entries of `m` map to the same field. */
  predicate DistinctFields(m: seq<(string, string)>) {
    forall i, j :: 0 <= i < j < |m| ==> m[i].1 != m[j].1
  }

  /** The first `k` fields are present, each with the value of its own attribute. */
  lemma {:induction false} FieldsSpec(div: DivAttrs, rarity: string, m: seq<(string, string)>, k: nat)
    requires k <= |m| && DistinctFields(m)
    ensures Fields(div, rarity, m, k).Keys == set i | 0 <= i < k :: m[i].1
    ensures forall i :: 0 <= i < k ==> Fields(div, rarity, m, k)[m[i].1] == FieldValue(div, m[i].0, rarity)
  {
    if k > 0 {
      FieldsSpec(div, rarity, m, k - 1);
    }
  }

  /** A div fails exactly when its rarity is not an integer; its record otherwise holds each
      stripped attribute under its field, the rarity shifted by one. */
  lemma OperatorSpec(div: DivAttrs)
    ensures OperatorOf(div).Err? <==> ShiftRarity(AttrValue(div, RARITY_ATTR)).None?
    ensures OperatorOf(div).Err? ==> OperatorOf(div).error == ValueError
    ensures OperatorOf(div).Ok? ==>
      var op := OperatorOf(div).value;
      && RARITY in op && op[RARITY] == ShiftRarity(AttrValue(div, RARITY_ATTR)).value
      && forall i :: 0 <= i < |ATTR_MAPPING| && ATTR_MAPPING[i].0 != RARITY_ATTR ==>
           ATTR_MAPPING[i].1 in op && op[ATTR_MAPPING[i].1] == AttrValue(div, ATTR_MAPPING[i].0)
  {
    var s := ShiftRarity(AttrValue(div, RARITY_ATTR));
    if s.Some? {
      var op := Fields(div, s.value, ATTR_MAPPING, |ATTR_MAPPING|);
      MappingDistinct();
      FieldsSpec(div, s.value, ATTR_MAPPING, |ATTR_MAPPING|);
      assert op[RARITY] == s.value by {
        assert ATTR_MAPPING[1] == (RARITY_ATTR, RARITY);
      }
    }
  }

  /** A record has exactly the eight fields. */
  lemma OperatorKeys(div: DivAttrs)
    ensures OperatorOf(div).Ok? ==> OperatorOf(div).value.Keys == FIELDS
  {
    var s := ShiftRarity(AttrValue(div, RARITY_ATTR));
    if s.Some? {
      MappingDistinct();
      FieldsSpec(div, s.value, ATTR_MAPPING, |ATTR_MAPPING|);
      MappingFields();
    }
  }

  /** Either every element succeeds and the results are theirs, in order, or the error is
      that of the first element that fails. */
  lemma {:induction false} MapOkSpec<A, B, E>(xs: seq<A>, f: A -> Result<B, E>, k: nat)
    requires k <= |xs|
    ensures MapOk(xs, f, k).Ok? <==> forall i :: 0 <= i < k ==> f(xs[i]).Ok?
    ensures MapOk(xs, f, k).Ok? ==>
      |MapOk(xs, f, k).value| == k
      && forall i :: 0 <= i < k ==> MapOk(xs, f, k).value[i] == f(xs[i]).value
    ensures MapOk(xs, f, k).Err? ==>
      exists i :: 0 <= i < k && f(xs[i]) == Err(MapOk(xs, f, k).error)
                  && forall j :: 0 <= j < i ==> f(xs[j]).Ok?
  {
    if k > 0 {
      MapOkSpec(xs, f, k - 1);
      var prev := MapOk(xs, f, k - 1);
      if prev.Ok? && f(xs[k - 1]).Ok? {
        assert MapOk(xs, f, k).value == prev.value + [f(xs[k - 1]).value];
      }
    }
  }

  /** Once a prefix fails, every longer prefix fails with the same error. */
  lemma {:induction false} MapOkErrStays<A, B, E>(xs: seq<A>, f: A -> Result<B, E>, k: nat, n: nat)
    requires k <= n <= |xs| && MapOk(xs, f, k).Err?
    ensures MapOk(xs, f, n) == MapOk(xs, f, k)
    decreases n - k
  {
    if k < n {
      MapOkErrStays(xs, f, k + 1, n);
    }
  }

  /** A missing container raises RuntimeError; otherwise the roster has one record per div,
      in order, with exactly the eight fields, unless a div's rarity raises ValueError. */
  lemma RosterSpec(page: RosterPage)
    ensures page.NoContainer? ==> Roster(page) == Err(RuntimeError)
    ensures page.Container? ==>
      && (Roster(page).Ok? <==> forall i :: 0 <= i < |page.divs| ==> OperatorOf(page.divs[i]).Ok?)
      && (Roster(page).Err? ==> Roster(page).error == ValueError)
      && (Roster(page).Ok? ==>
            |Roster(page).value| == |page.divs|
            && forall i :: 0 <= i < |page.divs| ==>
                 Roster(page).value[i] == OperatorOf(page.divs[i]).value
                 && Roster(page).value[i].Keys == FIELDS)
  {
    if page.Container? {
      MapOkSpec(page.divs, OperatorOf, |page.divs|);
      forall i | 0 <= i < |page.divs| && OperatorOf(page.divs[i]).Ok?
        ensures OperatorOf(page.divs[i]).value.Keys == FIELDS
      {
        OperatorKeys(page.divs[i]);
      }
    }
  }

  // ---------------------------------------------------------------------------
  // The parse loop
  // ---------------------------------------------------------------------------

  /** One div: strip the attributes, shift the rarity, map the names to fields. */
  method ReadOperator(div: DivAttrs) returns (r: Result<Record, RosterError>)
    ensures r == OperatorOf(div)
  {
    var rawRarity := AttrValue(div, RARITY_ATTR);
    if rawRarity == "" {
      rawRarity := "0";
    }
    var value := ParseInt(rawRarity);
    if value.None? {
      return Err(ValueError);
    }
    var rarity := IntToString(value.value + 1);
    var op := FillFields(div, rarity, ATTR_MAPPING);
    return Ok(op);
  }

  /** The loop over the attribute mapping: each attribute's value under its field name. */
  method FillFields(div: DivAttrs, rarity: string, m: seq<(string, string)>) returns (op: Record)
    ensures op == Fields(div, rarity, m, |m|)
  {
    op := map[];
    for k := 0 to |m|
      invariant op == Fields(div, rarity, m, k)
    {
      var (attr, field) := m[k];
      op := op[field := FieldValue(div, attr, rarity)];
    }
  }

  /** One more div: its error is the roster's, or its record follows those before it. */
  lemma RosterStep(divs: seq<DivAttrs>, i: nat, acc: seq<Record>, op: Result<Record, RosterError>)
    requires i < |divs| && MapOk(divs, OperatorOf, i) == Ok(acc) && op == OperatorOf(divs[i])
    ensures op.Err? ==> MapOk(divs, OperatorOf, |divs|) == Err(op.error)
    ensures op.Ok? ==> MapOk(divs, OperatorOf, i + 1) == Ok(acc + [op.value])
  {
    if op.Err? {
      MapOkErrStays(divs, OperatorOf, i + 1, |divs|);
    }
  }

  /** `parse`: one record per direct `<div>` child of the container. */
  method ParseRoster(page: RosterPage) returns (r: Result<seq<Record>, RosterError>)
    ensures r == Roster(page)
  {
    if page.NoContainer? {
      return Err(RuntimeError);
    }
    r := ParseDivs(page.divs);
  }

  /** The loop of `parse` over the divs: the first error raised ends it. */
  method ParseDivs(divs: seq<DivAttrs>) returns (r: Result<seq<Record>, RosterError>)
    ensures r == MapOk(divs, OperatorOf, |divs|)
  {
    var opsList: seq<Record> := [];
    for i := 0 to |divs|
      invariant MapOk(divs, OperatorOf, i) == Ok(opsList)
    {
      var op := ReadOperator(divs[i]);
      RosterStep(divs, i, opsList, op);
      if op.Err? {
        return Err(op.error);
      }
      opsList := opsList + [op.value];
    }
    r := Ok(opsList);
  }

  // ---------------------------------------------------------------------------
  // The save order
  // ---------------------------------------------------------------------------

  /** The records `save` can sort: `x['rarity']` and `x['name_cn']` exist and the rarity is
      an integer (otherwise the sort key raises). */
  predicate Sortable(x: Record) {
    RARITY in x && NAME in x && ParseInt(x[RARITY]).Some?
  }

  function RarityKey(x: Record): int {
    if RARITY in x && ParseInt(x[RARITY]).Some? then ParseInt(x[RARITY]).value else 0
  }

  function NameKey(x: Record): string {
    if NAME in x then x[NAME] else ""
  }

  /** `x` sorts strictly before `y` under the key `(-int(rarity), name_cn)`. */
  predicate Precedes(x: Record, y: Record) {
    RarityKey(x) > RarityKey(y) || (RarityKey(x) == RarityKey(y) && LexLess(NameKey(x), NameKey(y)))
  }

  /** No record sorts strictly before an earlier one. */
  predicate Ordered(s: seq<Record>) {
    forall i, j :: 0 <= i < j < |s| ==> !Precedes(s[j], s[i])
  }

  /** Every record `parse` returns can be sorted. */
  lemma RosterSortable(page: RosterPage)
    ensures Roster(page).Ok? ==> forall i :: 0 <= i < |Roster(page).value| ==> Sortable(Roster(page).value[i])
  {
    if Roster(page).Ok? {
      RosterSpec(page);
      forall i | 0 <= i < |page.divs| ensures Sortable(OperatorOf(page.divs[i]).value) {
        var div := page.divs[i];
        OperatorSpec(div);
        ShiftRaritySpec(AttrValue(div, RARITY_ATTR));
      }
    }
  }

  lemma PrecedesAsymmetric(x: Record, y: Record)
    ensures Precedes(x, y) ==> !Precedes(y, x)
  {
    if LexLess(NameKey(x), NameKey(y)) && LexLess(NameKey(y), NameKey(x)) {
      LexLessTransitive(NameKey(x), NameKey(y), NameKey(x));
      LexLessIrreflexive(NameKey(x));
    }
  }

  /** "Not after" is transitive. */
  lemma NotPrecedesTransitive(x: Record, y: Record, z: Record)
    requires !Precedes(y, x) && !Precedes(z, y)
    ensures !Precedes(z, x)
  {
    var a, b, c := NameKey(x), NameKey(y), NameKey(z);
    if RarityKey(x) == RarityKey(y) == RarityKey(z) && LexLess(c, a) && b != c {
      LexLessTotal(b, c);
      LexLessTransitive(b, c, a);
    }
  }

  /** Insert `a[i]` into the ordered prefix `a[..i]`, moving it past strictly later records. */
  method Insert(a: array<Record>, i: nat)
    requires i < a.Length && Ordered(a[..i])
    modifies a
    ensures Ordered(a[..i + 1])
    ensures multiset(a[..]) == multiset(old(a[..]))
    ensures a[i + 1..] == old(a[i + 1..])
  {
    var j := i;
    while j > 0 && Precedes(a[j], a[j - 1])
      invariant 0 <= j <= i
      invariant multiset(a[..]) == multiset(old(a[..]))
      invariant a[i + 1..] == old(a[i + 1..])
      invariant Inserting(a[..], i, j)
    {
      ghost var s := a[..];
      ghost var t := s[j - 1 := s[j]][j := s[j - 1]];
      InsertingStep(s, i, j);
      SwapPermutes(s, j);
      SwapKeepsTail(s, i, j);
      a[j - 1], a[j] := a[j], a[j - 1];
      assert a[..] == t;
      j := j - 1;
    }
    InsertionClosed(a[..], i, j);
  }

  /** Halfway through inserting the record now at `j`: the prefix up to `i` without it is
      ordered, and it sorts strictly before every record after it. */
  predicate Inserting(s: seq<Record>, i: nat, j: nat)
    requires j <= i < |s|
  {
    && (forall k, m :: 0 <= k < m <= i && k != j && m != j ==> !Precedes(s[m], s[k]))
    && (forall m :: j < m <= i ==> Precedes(s[j], s[m]))
  }

  /** Swapping the record at `j` with a predecessor it sorts before keeps it halfway inserted. */
  lemma InsertingStep(s: seq<Record>, i: nat, j: nat)
    requires 0 < j <= i < |s| && Inserting(s, i, j) && Precedes(s[j], s[j - 1])
    ensures Inserting(s[j - 1 := s[j]][j := s[j - 1]], i, j - 1)
  {
  }

  /** Swapping two neighbours at or before `i` leaves everything after `i` alone. */
  lemma SwapKeepsTail(s: seq<Record>, i: nat, j: nat)
    requires 0 < j <= i < |s|
    ensures s[j - 1 := s[j]][j := s[j - 1]][i + 1..] == s[i + 1..]
  {
  }

  /** Swapping two neighbours permutes the sequence. */
  lemma SwapPermutes(s: seq<Record>, j: nat)
    requires 0 < j < |s|
    ensures multiset(s[j - 1 := s[j]][j := s[j - 1]]) == multiset(s)
  {
  }

  /** When the record at `j` sorts after its predecessor, the prefix up to `i` is ordered. */
  lemma InsertionClosed(s: seq<Record>, i: nat, j: nat)
    requires j <= i < |s| && Inserting(s, i, j)
    requires j > 0 ==> !Precedes(s[j], s[j - 1])
    ensures Ordered(s[..i + 1])
  {
    forall k, m | 0 <= k < m <= i ensures !Precedes(s[m], s[k]) {
      if m == j && k < j - 1 {
        NotPrecedesTransitive(s[k], s[j - 1], s[j]);
      } else if k == j {
        PrecedesAsymmetric(s[j], s[m]);
      }
    }
  }

  /** `ops_list.sort(key=lambda x: (-int(x['rarity']), x['name_cn']))`: in place, higher rarity
      first and, within a rarity, names in ascending code-point order. */
  method SortRoster(a: array<Record>)
    requires forall i :: 0 <= i < a.Length ==> Sortable(a[i])
    modifies a
    ensures Ordered(a[..])
    ensures multiset(a[..]) == multiset(old(a[..]))
  {
    for i := 0 to a.Length
      invariant Ordered(a[..i])
      invariant multiset(a[..]) == multiset(old(a[..]))
    {
      Insert(a, i);
    }
    assert a[..a.Length] == a[..];
  }
}
