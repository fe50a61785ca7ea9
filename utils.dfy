/**
  The text normalizer and the small helpers of utils.py: `clean_text`, `clean_desc`,
  `clean_filename` and `deduplicate_terms`.
 */
module Utils {
  import opened Wrappers
  import opened Strings
  import opened Markup

  /** The "(+)" annotation marker `clean_text` deletes. */
  const PLUS_MARK: string := "（+）"

  /** What `clean_text` may be handed: None, a str, or a parsed tag. */
  datatype Source = Missing | Str(s: string) | Tag(node: Node)

  // ---------------------------------------------------------------------------
  // clean_text
  // ---------------------------------------------------------------------------

  /** The str branch of `clean_text` on a non-empty string. */
  function CleanString(s: string, replacePlus: bool): (r: string)
    ensures NoEdgeSpace(r)
    ensures !replacePlus ==> Normalized(r, ' ')
  {
    var t := Strip(Collapse(Strip(s), " "));
    CollapseStripNormalized(Strip(s), ' ');
    if replacePlus then Strip(RemoveAll(t, PLUS_MARK)) else t
  }

  /** `clean_text(tag)` with its default arguments: the stripped strings of the tag are
      concatenated, the marker is deleted and the result stripped. */
  function CleanTag(n: Node): (r: string)
    ensures NoEdgeSpace(r)
  {
    Strip(RemoveAll(GetText(n, ""), PLUS_MARK))
  }

  /** The tag branch of `clean_text` with `handle_br`: every `<br>` becomes a "\n" string, the
      stripped strings are joined with "\n" and whitespace runs become one space. */
  function CleanBrText(n: Node): (r: string)
    ensures Normalized(r, ' ')
  {
    CollapseStripNormalized(GetText(ReplaceBr(n), "\n"), ' ');
    Strip(Collapse(GetText(ReplaceBr(n), "\n"), " "))
  }

  /** The tag branch of `clean_text`; without `handle_br` or `replace_plus` the stripped strings
      are only concatenated. */
  function CleanNode(n: Node, replacePlus: bool, handleBr: bool): (r: string)
    ensures NoEdgeSpace(r)
    ensures handleBr ==> Normalized(r, ' ')
  {
    if handleBr then CleanBrText(n)
    else if replacePlus then CleanTag(n)
    else
      JoinNoEdgeSpace(StrippedStrings(n), "");
      GetText(n, "")
  }

  /** `clean_text(tag, replace_plus, handle_br)` */
  function CleanText(src: Source, replacePlus: bool, handleBr: bool): (r: string)
    ensures src.Missing? || src == Str("") ==> r == ""
    ensures NoEdgeSpace(r)
    ensures src.Str? && !replacePlus ==> Normalized(r, ' ')
    ensures src.Tag? && replacePlus && !handleBr ==> r == CleanTag(src.node)
  {
    match src
    case Missing => ""
    case Str(s) => if s == "" then "" else CleanString(s, replacePlus)
    case Tag(n) => CleanNode(n, replacePlus, handleBr)
  }

  /** On strings, without marker removal, `clean_text` is idempotent. */
  lemma CleanStringIdempotent(s: string, handleBr: bool)
    ensures var once := CleanText(Str(s), false, handleBr);
            CleanText(Str(once), false, handleBr) == once
  {
    var once := CleanText(Str(s), false, handleBr);
    if once != "" {
      StripIdentity(once);
      CollapseIdentity(once, ' ');
      StripIdentity(once);
    }
  }

  // ---------------------------------------------------------------------------
  // handle_br: <br> elements replaced by "\n" strings
  // ---------------------------------------------------------------------------

  predicate IsBr(n: Node) {
    n.Element? && n.name == "br"
  }

  function ReplaceBr(n: Node): Node
    decreases n
  {
    match n
    case Text(_) => n
    case Element(name, style, classes, children) => Element(name, style, classes, ReplaceBrAll(children))
  }

  function ReplaceBrAll(ns: seq<Node>): (r: seq<Node>)
    ensures |r| == |ns|
    decreases ns
  {
    if ns == [] then []
    else [if IsBr(ns[0]) then Text("\n") else ReplaceBr(ns[0])] + ReplaceBrAll(ns[1..])
  }

  /** Every `<br>` below `n` is empty, as the HTML parser builds it. */
  predicate VoidBrs(n: Node)
    decreases n
  {
    match n
    case Text(_) => true
    case Element(_, _, _, children) => VoidBrsAll(children)
  }

  predicate VoidBrsAll(ns: seq<Node>)
    decreases ns
  {
    ns == [] || ((IsBr(ns[0]) ==> ns[0].children == []) && VoidBrs(ns[0]) && VoidBrsAll(ns[1..]))
  }

  /** The "\n" strings that replace the `<br>`s are stripped away by `get_text(strip=True)`, so
      the replacement never shows in what `clean_text(…, handle_br=True)` returns. */
  lemma {:induction false} BrReplacementInvisible(n: Node)
    requires VoidBrs(n)
    ensures StrippedStrings(ReplaceBr(n)) == StrippedStrings(n)
    decreases n
  {
    if n.Element? { BrReplacementInvisibleAll(n.children); }
  }

  lemma {:induction false} BrReplacementInvisibleAll(ns: seq<Node>)
    requires VoidBrsAll(ns)
    ensures StrippedStringsAll(ReplaceBrAll(ns)) == StrippedStringsAll(ns)
    decreases ns
  {
    if ns != [] {
      var r := ReplaceBrAll(ns);
      assert r[0] == (if IsBr(ns[0]) then Text("\n") else ReplaceBr(ns[0])) && r[1..] == ReplaceBrAll(ns[1..]);
      assert VoidBrs(ns[0]) && VoidBrsAll(ns[1..]);
      if IsBr(ns[0]) {
        assert Strip("\n") == [];
        assert StrippedStrings(r[0]) == [];
        assert StrippedStrings(ns[0]) == StrippedStringsAll([]) == [];
      } else {
        BrReplacementInvisible(ns[0]);
      }
      BrReplacementInvisibleAll(ns[1..]);
      assert StrippedStringsAll(r) == StrippedStrings(r[0]) + StrippedStringsAll(r[1..]);
    }
  }

  // ---------------------------------------------------------------------------
  // clean_desc: noise spans removed before clean_text
  // ---------------------------------------------------------------------------

  /** A span whose style carries an algorithm hint colour or hides it. */
  predicate IsNoise(n: Node) {
    && n.Element? && n.name == "span"
    && (|| Contains(n.style, "color:#0098DC")
        || Contains(n.style, "color:green")
        || Contains(n.style, "color:#007DFA")
        || Contains(n.style, "display:none"))
  }

  /** `n` with each noise span among its descendants replaced by an empty string. */
  function Prune(n: Node): Node
    decreases n
  {
    match n
    case Text(_) => n
    case Element(name, style, classes, children) => Element(name, style, classes, PruneAll(children))
  }

  function PruneAll(ns: seq<Node>): (r: seq<Node>)
    ensures |r| == |ns|
    decreases ns
  {
    if ns == [] then []
    else [if IsNoise(ns[0]) then Text("") else Prune(ns[0])] + PruneAll(ns[1..])
  }

  /** `clean_desc(tag)` */
  function CleanDesc(tag: Option<Node>): (r: string)
    ensures tag.None? ==> r == ""
    ensures NoEdgeSpace(r)
  {
    match tag
    case None => ""
    case Some(n) => CleanTag(Prune(n))
  }

  lemma {:induction false} PruneAllAppend(a: seq<Node>, b: seq<Node>)
    ensures PruneAll(a + b) == PruneAll(a) + PruneAll(b)
    decreases a
  {
    if a == [] {
      assert a + b == b;
    } else {
      assert (a + b)[0] == a[0] && (a + b)[1..] == a[1..] + b;
      PruneAllAppend(a[1..], b);
    }
  }

  lemma SplitAt<T>(s: seq<T>, i: nat)
    requires i < |s|
    ensures s == (s[..i] + [s[i]]) + s[i + 1..]
  {
  }

  /** Pruning a child list with one noise span at `i` gives the same strings as pruning the list
      without it. */
  lemma NoiseChildDropped(children: seq<Node>, i: nat)
    requires i < |children| && IsNoise(children[i])
    ensures StrippedStringsAll(PruneAll(children)) == StrippedStringsAll(PruneAll(children[..i] + children[i + 1..]))
  {
    var a, b := children[..i], children[i + 1..];
    PruneAllSplit(children, i);
    PruneAllAppend(a, b);
    DropEmptyText(PruneAll(a), PruneAll(b));
  }

  /** Pruning turns the noise span at `i` into an empty string and prunes the rest around it. */
  lemma PruneAllSplit(children: seq<Node>, i: nat)
    requires i < |children| && IsNoise(children[i])
    ensures PruneAll(children) == (PruneAll(children[..i]) + [Text("")]) + PruneAll(children[i + 1..])
  {
    var a, b, x := children[..i], children[i + 1..], children[i];
    SplitAt(children, i);
    PruneAllAppend(a + [x], b);
    PruneAllAppend(a, [x]);
    assert PruneAll([x]) == [Text("")];
  }

  /** An empty text node gives no stripped strings. */
  lemma DropEmptyText(pa: seq<Node>, pb: seq<Node>)
    ensures StrippedStringsAll((pa + [Text("")]) + pb) == StrippedStringsAll(pa + pb)
  {
    assert StrippedStringsAll([Text("")]) == [] by { assert Strip("") == []; }
    StrippedStringsAllAppend(pa + [Text("")], pb);
    StrippedStringsAllAppend(pa, [Text("")]);
    StrippedStringsAllAppend(pa, pb);
  }

  /** A noise child contributes nothing: `clean_desc` gives the same text with that child removed. */
  lemma NoiseChildRemoved(name: string, style: string, classes: seq<string>, children: seq<Node>, i: nat)
    requires i < |children| && IsNoise(children[i])
    ensures CleanDesc(Some(Element(name, style, classes, children)))
         == CleanDesc(Some(Element(name, style, classes, children[..i] + children[i + 1..])))
  {
    NoiseChildDropped(children, i);
  }

  /** A noise span at any depth below the tag contributes nothing: `clean_desc` gives the same
      text when that span has been replaced by an empty string beforehand. */
  lemma NoiseSpanContributesNothing(n: Node, path: seq<nat>)
    requires IsPath(n, path) && path != [] && IsNoise(NodeAt(n, path))
    ensures CleanDesc(Some(ReplaceAt(n, path, Text("")))) == CleanDesc(Some(n))
  {
    PruneReplaceNoise(n, path);
  }

  /** Blanking a noise span before pruning changes nothing. */
  lemma {:induction false} PruneReplaceNoise(n: Node, path: seq<nat>)
    requires IsPath(n, path) && path != [] && IsNoise(NodeAt(n, path))
    ensures Prune(ReplaceAt(n, path, Text(""))) == Prune(n)
    decreases path
  {
    var i, rest := path[0], path[1..];
    var c := n.children[i];
    var y := ReplaceAt(c, rest, Text(""));
    var ch := n.children[i := y];
    assert ReplaceAt(n, path, Text("")) == n.(children := ch);
    assert NodeAt(n, path) == NodeAt(c, rest);
    if rest != [] {
      assert IsNoise(y) == IsNoise(c);
      if !IsNoise(c) {
        PruneReplaceNoise(c, rest);
      }
    }
    assert (if IsNoise(y) then Text("") else Prune(y)) == (if IsNoise(c) then Text("") else Prune(c));
    forall k | 0 <= k < |ch| ensures PruneAll(ch)[k] == PruneAll(n.children)[k] {
      PruneAllAt(ch, k);
      PruneAllAt(n.children, k);
    }
  }

  /** Each position of a pruned list is its own node pruned, or blanked when it is noise. */
  lemma {:induction false} PruneAllAt(ns: seq<Node>, k: nat)
    requires k < |ns|
    ensures PruneAll(ns)[k] == if IsNoise(ns[k]) then Text("") else Prune(ns[k])
    decreases ns
  {
    if k > 0 {
      PruneAllAt(ns[1..], k - 1);
    }
  }

  /** No noise span is left anywhere below a pruned node. */
  lemma {:induction false} PrunedHasNoNoise(n: Node)
    ensures forall d :: d in Descendants(Prune(n)) ==> !IsNoise(d)
    decreases n
  {
    if n.Element? { PrunedHasNoNoiseAll(n.children); }
  }

  lemma {:induction false} PrunedHasNoNoiseAll(ns: seq<Node>)
    ensures forall d :: d in DescendantsAll(PruneAll(ns)) ==> !IsNoise(d)
    decreases ns
  {
    if ns != [] {
      var r := PruneAll(ns);
      var head := if IsNoise(ns[0]) then Text("") else Prune(ns[0]);
      assert r[0] == head && r[1..] == PruneAll(ns[1..]);
      assert DescendantsAll(r) == [head] + Descendants(head) + DescendantsAll(r[1..]);
      if !IsNoise(ns[0]) { PrunedHasNoNoise(ns[0]); }
      PrunedHasNoNoiseAll(ns[1..]);
    }
  }

  // ---------------------------------------------------------------------------
  // clean_filename
  // ---------------------------------------------------------------------------

  /** Python's `string.punctuation`. */
  const PUNCTUATION: string := "!\"#$%&'()*+,-./:;<=>?@[\\]^_`{|}~"

  /** `invalid_chars`: punctuation other than "_" (the extra `:\/?*<>|` are punctuation already). */
  predicate InvalidFilenameChar(c: char) {
    c in PUNCTUATION && c != '_'
  }

  /** `clean_filename(name)` */
  function CleanFilename(name: string): (r: string)
    ensures |r| == |name|
    ensures forall i :: 0 <= i < |r| ==> r[i] == name[i] || r[i] == '_'
    ensures forall i :: 0 <= i < |r| ==> (r[i] != name[i] <==> InvalidFilenameChar(name[i]))
    ensures forall i :: 0 <= i < |r| ==> !InvalidFilenameChar(r[i])
  {
    if name == [] then []
    else
      var tail := CleanFilename(name[1..]);
      var r := [if InvalidFilenameChar(name[0]) then '_' else name[0]] + tail;
      assert forall i :: 0 < i < |r| ==> r[i] == tail[i - 1] && name[i] == name[1..][i - 1];
      r
  }

  lemma CleanFilenameIdempotent(name: string)
    ensures CleanFilename(CleanFilename(name)) == CleanFilename(name)
  {
    var once := CleanFilename(name);
    var twice := CleanFilename(once);
    assert |twice| == |once|;
    forall i | 0 <= i < |once| ensures twice[i] == once[i] {
      assert !InvalidFilenameChar(once[i]);
    }
  }

  // ---------------------------------------------------------------------------
  // deduplicate_terms
  // ---------------------------------------------------------------------------

  /** A record as the source builds it: a dict from field name to value. */
  type Record = map<string, string>

  /** The lists `f` gives for the items of `xs`, concatenated in order. */
  function Concat<A, B>(xs: seq<A>, f: A -> seq<B>): seq<B>
    decreases |xs|
  {
    if xs == [] then [] else Concat(xs[..|xs| - 1], f) + f(xs[|xs| - 1])
  }

  /** Concatenating over two lists in turn is concatenating over their concatenation. */
  lemma {:induction false} ConcatAppend<A, B>(a: seq<A>, b: seq<A>, f: A -> seq<B>)
    ensures Concat(a + b, f) == Concat(a, f) + Concat(b, f)
    decreases |b|
  {
    if b == [] {
      assert a + b == a;
    } else {
      var b', x := b[..|b| - 1], b[|b| - 1];
      assert (a + b)[..|a + b| - 1] == a + b' && (a + b)[|a + b| - 1] == x;
      ConcatAppend(a, b', f);
    }
  }

  lemma {:induction false} ConcatContains<A, B>(xs: seq<A>, f: A -> seq<B>, j: nat, y: B)
    requires j < |xs| && y in f(xs[j])
    ensures y in Concat(xs, f)
    decreases |xs|
  {
    var p := xs[..|xs| - 1];
    if j < |p| {
      assert xs[j] == p[j];
      ConcatContains(p, f, j, y);
    }
  }

  /** `item.get(key)` */
  function Get(item: Record, key: string): Option<string> {
    if key in item then Some(item[key]) else None
  }

  /** `lambda item: item.get(key)` */
  function KeyGetter(key: string): Record -> Option<string> {
    item => Get(item, key)
  }

  function KeysOf<T, K(==)>(xs: seq<T>, key: T -> K): set<K> {
    set i | 0 <= i < |xs| :: key(xs[i])
  }

  /** The items of `xs` whose key no earlier item has, in order: the first item per key. */
  function FirstOccurrences<T, K(==)>(xs: seq<T>, key: T -> K): seq<T>
    decreases |xs|
  {
    if xs == [] then []
    else
      var d := FirstOccurrences(xs[..|xs| - 1], key);
      if key(xs[|xs| - 1]) in KeysOf(d, key) then d else d + [xs[|xs| - 1]]
  }

  predicate DistinctKeys<T, K(==)>(xs: seq<T>, key: T -> K) {
    forall i, j :: 0 <= i < j < |xs| ==> key(xs[i]) != key(xs[j])
  }

  /** No earlier item of `xs` has the key of `xs[i]`. */
  predicate IsFirst<T, K(==)>(xs: seq<T>, key: T -> K, i: nat)
    requires i < |xs|
  {
    forall k :: 0 <= k < i ==> key(xs[k]) != key(xs[i])
  }

  /** `a` is `b` with some items left out, the rest in their order. */
  predicate Subsequence<T(==)>(a: seq<T>, b: seq<T>)
    decreases |b|
  {
    if a == [] then true
    else if b == [] then false
    else (a[|a| - 1] == b[|b| - 1] && Subsequence(a[..|a| - 1], b[..|b| - 1])) || Subsequence(a, b[..|b| - 1])
  }

  lemma KeysOfSnoc<T, K>(xs: seq<T>, x: T, key: T -> K)
    ensures KeysOf(xs + [x], key) == KeysOf(xs, key) + {key(x)}
  {
    var l, r := KeysOf(xs + [x], key), KeysOf(xs, key) + {key(x)};
    forall k | k in l ensures k in r {
      var i :| 0 <= i < |xs| + 1 && key((xs + [x])[i]) == k;
      if i < |xs| { assert (xs + [x])[i] == xs[i]; }
    }
    forall k | k in r ensures k in l {
      if k == key(x) {
        assert (xs + [x])[|xs|] == x;
      } else {
        var i :| 0 <= i < |xs| && key(xs[i]) == k;
        assert (xs + [x])[i] == xs[i];
      }
    }
  }

  /** Deduplication keeps exactly the keys of its input. */
  lemma {:induction false} FirstOccurrencesKeys<T, K>(xs: seq<T>, key: T -> K)
    ensures KeysOf(FirstOccurrences(xs, key), key) == KeysOf(xs, key)
    decreases |xs|
  {
    if xs != [] {
      var p, last := xs[..|xs| - 1], xs[|xs| - 1];
      assert xs == p + [last];
      FirstOccurrencesKeys(p, key);
      KeysOfSnoc(p, last, key);
      KeysOfSnoc(FirstOccurrences(p, key), last, key);
    }
  }

  /** Deduplication leaves each key once. */
  lemma {:induction false} FirstOccurrencesDistinct<T, K>(xs: seq<T>, key: T -> K)
    ensures DistinctKeys(FirstOccurrences(xs, key), key)
    decreases |xs|
  {
    if xs != [] {
      var p, last := xs[..|xs| - 1], xs[|xs| - 1];
      FirstOccurrencesDistinct(p, key);
      var d := FirstOccurrences(p, key);
      if key(last) !in KeysOf(d, key) {
        var r := d + [last];
        forall i, j | 0 <= i < j < |r| ensures key(r[i]) != key(r[j]) {
          if j == |d| { assert r[i] == d[i]; } else { assert r[i] == d[i] && r[j] == d[j]; }
        }
      }
    }
  }

  /** Deduplication only leaves items out; the survivors keep their order. */
  lemma {:induction false} FirstOccurrencesSubsequence<T, K>(xs: seq<T>, key: T -> K)
    ensures Subsequence(FirstOccurrences(xs, key), xs)
    decreases |xs|
  {
    if xs != [] {
      var p, last := xs[..|xs| - 1], xs[|xs| - 1];
      assert xs == p + [last];
      FirstOccurrencesSubsequence(p, key);
      SubsequenceExtend(FirstOccurrences(p, key), p, last);
    }
  }

  lemma IsFirstOfPrefix<T, K>(xs: seq<T>, key: T -> K, i: nat)
    requires i < |xs|
    ensures i < |xs| - 1 ==> (IsFirst(xs, key, i) <==> IsFirst(xs[..|xs| - 1], key, i))
    ensures i == |xs| - 1 ==> (IsFirst(xs, key, i) <==> key(xs[i]) !in KeysOf(xs[..|xs| - 1], key))
  {
    var p := xs[..|xs| - 1];
    assert forall k :: 0 <= k < |p| ==> xs[k] == p[k];
    if i == |xs| - 1 && !IsFirst(xs, key, i) {
      var k :| 0 <= k < i && key(xs[k]) == key(xs[i]);
      assert key(p[k]) in KeysOf(p, key);
    }
  }

  /** Every item that is the first of its key survives deduplication. */
  lemma {:induction false} FirstOccurrencesKeepsFirsts<T, K>(xs: seq<T>, key: T -> K)
    ensures forall i :: 0 <= i < |xs| && IsFirst(xs, key, i) ==> xs[i] in FirstOccurrences(xs, key)
    decreases |xs|
  {
    if xs != [] {
      var p, last := xs[..|xs| - 1], xs[|xs| - 1];
      FirstOccurrencesKeepsFirsts(p, key);
      FirstOccurrencesKeys(p, key);
      var d := FirstOccurrences(p, key);
      forall i | 0 <= i < |xs| && IsFirst(xs, key, i) ensures xs[i] in FirstOccurrences(xs, key) {
        IsFirstOfPrefix(xs, key, i);
        if i < |p| { assert xs[i] == p[i]; }
      }
    }
  }

  /** Every survivor of deduplication is the first item of its key. */
  lemma {:induction false} FirstOccurrencesOnlyFirsts<T, K>(xs: seq<T>, key: T -> K)
    ensures forall y :: y in FirstOccurrences(xs, key) ==>
              exists i :: 0 <= i < |xs| && IsFirst(xs, key, i) && xs[i] == y
    decreases |xs|
  {
    if xs != [] {
      var p, last := xs[..|xs| - 1], xs[|xs| - 1];
      FirstOccurrencesOnlyFirsts(p, key);
      FirstOccurrencesKeys(p, key);
      var d := FirstOccurrences(p, key);
      forall y | y in FirstOccurrences(xs, key)
        ensures exists i :: 0 <= i < |xs| && IsFirst(xs, key, i) && xs[i] == y
      {
        if y in d {
          var i :| 0 <= i < |p| && IsFirst(p, key, i) && p[i] == y;
          IsFirstOfPrefix(xs, key, i);
          assert xs[i] == p[i];
        } else {
          IsFirstOfPrefix(xs, key, |p|);
          assert IsFirst(xs, key, |p|);
        }
      }
    }
  }

  lemma {:induction false} SubsequenceExtend<T>(a: seq<T>, b: seq<T>, x: T)
    requires Subsequence(a, b)
    ensures Subsequence(a, b + [x]) && Subsequence(a + [x], b + [x])
  {
    assert (b + [x])[..|b|] == b;
    assert (a + [x])[..|a|] == a;
  }

  /** A list whose keys are already distinct is its own deduplication. */
  lemma {:induction false} FirstOccurrencesOfDistinct<T, K>(xs: seq<T>, key: T -> K)
    requires DistinctKeys(xs, key)
    ensures FirstOccurrences(xs, key) == xs
    decreases |xs|
  {
    if xs != [] {
      var p, last := xs[..|xs| - 1], xs[|xs| - 1];
      assert DistinctKeys(p, key) by {
        forall i, j | 0 <= i < j < |p| ensures key(p[i]) != key(p[j]) {
          assert p[i] == xs[i] && p[j] == xs[j];
        }
      }
      assert key(last) !in KeysOf(p, key) by {
        forall i | 0 <= i < |p| ensures key(p[i]) != key(last) {
          assert p[i] == xs[i] && key(xs[i]) != key(xs[|xs| - 1]);
        }
      }
      FirstOccurrencesOfDistinct(p, key);
      assert xs == p + [last];
    }
  }

  lemma FirstOccurrencesIdempotent<T, K>(xs: seq<T>, key: T -> K)
    ensures FirstOccurrences(FirstOccurrences(xs, key), key) == FirstOccurrences(xs, key)
  {
    FirstOccurrencesDistinct(xs, key);
    FirstOccurrencesOfDistinct(FirstOccurrences(xs, key), key);
  }

  /** The `KeyError` that `item[key]` raises. */
  datatype KeyError = KeyError(key: string)

  /** `deduplicate_terms(terms, key)`: the first record per key value, in order; indexing a record
      that lacks the key raises. */
  method DeduplicateTerms(terms: seq<Record>, key: string) returns (r: Result<seq<Record>, KeyError>)
    ensures r.Err? <==> exists i :: 0 <= i < |terms| && key !in terms[i]
    ensures r.Err? ==> r.error == KeyError(key)
    ensures r.Ok? ==> r.value == FirstOccurrences(terms, KeyGetter(key))
  {
    var seen: set<string> := {};
    var unique: seq<Record> := [];
    var i := 0;
    while i < |terms|
      invariant 0 <= i <= |terms|
      invariant forall k :: 0 <= k < i ==> key in terms[k]
      invariant unique == FirstOccurrences(terms[..i], KeyGetter(key))
      invariant forall v :: v in seen <==> Some(v) in KeysOf(unique, KeyGetter(key))
      invariant forall k :: 0 <= k < |unique| ==> key in unique[k]
    {
      var item := terms[i];
      assert terms[..i + 1][..i] == terms[..i] && terms[..i + 1][i] == item;
      if key !in item {
        return Err(KeyError(key));
      }
      if item[key] !in seen {
        seen := seen + {item[key]};
        KeysOfSnoc(unique, item, KeyGetter(key));
        unique := unique + [item];
      }
      i := i + 1;
    }
    assert terms[..i] == terms;
    r := Ok(unique);
  }
}
