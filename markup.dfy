/**
  The parsed HTML the extractors read, as a tree of values, and the BeautifulSoup queries
  they use on it: `get_text(strip=True, separator=…)`, `find_all`/`select` among the
  descendants, `find`/`select_one` (the first such descendant) and the `.string` property.
 */
module Markup {
  import opened Wrappers
  import opened Strings

  /** A text string, or an element with its tag name, its `style` attribute ("" when absent),
      its class list and its children in document order. */
  datatype Node =
    | Text(text: string)
    | Element(name: string, style: string, classes: seq<string>, children: seq<Node>)

  /** The strings `get_text(strip=True)` joins: every text descendant, stripped, empty ones dropped. */
  function StrippedStrings(n: Node): (r: seq<string>)
    ensures forall i :: 0 <= i < |r| ==> r[i] != [] && NoEdgeSpace(r[i])
    decreases n
  {
    match n
    case Text(s) => if Strip(s) == [] then [] else [Strip(s)]
    case Element(_, _, _, children) => StrippedStringsAll(children)
  }

  function StrippedStringsAll(ns: seq<Node>): (r: seq<string>)
    ensures forall i :: 0 <= i < |r| ==> r[i] != [] && NoEdgeSpace(r[i])
    decreases ns
  {
    if ns == [] then [] else StrippedStrings(ns[0]) + StrippedStringsAll(ns[1..])
  }

  /** `n.get_text(strip=True, separator=sep)` */
  function GetText(n: Node, sep: string): string {
    Join(StrippedStrings(n), sep)
  }

  lemma {:induction false} StrippedStringsAllAppend(a: seq<Node>, b: seq<Node>)
    ensures StrippedStringsAll(a + b) == StrippedStringsAll(a) + StrippedStringsAll(b)
    decreases a
  {
    if a == [] {
      assert a + b == b;
    } else {
      assert (a + b)[0] == a[0] && (a + b)[1..] == a[1..] + b;
      StrippedStringsAllAppend(a[1..], b);
    }
  }

  /** Joining stripped, non-empty strings with a separator that is not whitespace at its ends
      gives a string with no whitespace at either end. */
  lemma {:induction false} JoinNoEdgeSpace(parts: seq<string>, sep: string)
    requires forall i :: 0 <= i < |parts| ==> parts[i] != [] && NoEdgeSpace(parts[i])
    ensures NoEdgeSpace(Join(parts, sep))
    ensures parts != [] ==> Join(parts, sep) != [] && Join(parts, sep)[0] == parts[0][0]
  {
    if |parts| > 1 {
      JoinNoEdgeSpace(parts[1..], sep);
      var rest := Join(parts[1..], sep);
      assert Join(parts, sep) == parts[0] + sep + rest;
      assert Join(parts, sep)[|Join(parts, sep)| - 1] == rest[|rest| - 1];
    }
  }

  // ---------------------------------------------------------------------------
  // Descendants and selection
  // ---------------------------------------------------------------------------

  /** The descendants of `n` (not `n` itself), in document order. */
  function Descendants(n: Node): seq<Node>
    decreases n
  {
    match n
    case Text(_) => []
    case Element(_, _, _, children) => DescendantsAll(children)
  }

  function DescendantsAll(ns: seq<Node>): seq<Node>
    decreases ns
  {
    if ns == [] then [] else [ns[0]] + Descendants(ns[0]) + DescendantsAll(ns[1..])
  }

  /** The selectors the extractors use: elements named one of `names` (`find_all("td")`,
      `select("th, td")`), or spans carrying one class token (`span.c`, `find_all("span", class_=c)`). */
  datatype Selector = Named(names: seq<string>) | SpanOfClass(cls: string)

  predicate Matches(sel: Selector, n: Node) {
    n.Element? &&
    match sel
    case Named(names) => n.name in names
    case SpanOfClass(c) => n.name == "span" && c in n.classes
  }

  function Filter(ns: seq<Node>, sel: Selector): (r: seq<Node>)
    ensures |r| <= |ns|
  {
    if ns == [] then []
    else (if Matches(sel, ns[0]) then [ns[0]] else []) + Filter(ns[1..], sel)
  }

  /** The filter keeps exactly the nodes that match. */
  lemma {:induction false} FilterSpec(ns: seq<Node>, sel: Selector)
    ensures forall i :: 0 <= i < |Filter(ns, sel)| ==> Matches(sel, Filter(ns, sel)[i]) && Filter(ns, sel)[i] in ns
    ensures forall x :: x in ns && Matches(sel, x) ==> x in Filter(ns, sel)
  {
    if ns != [] {
      FilterSpec(ns[1..], sel);
      var head := if Matches(sel, ns[0]) then [ns[0]] else [];
      assert Filter(ns, sel) == head + Filter(ns[1..], sel);
      forall x | x in ns && Matches(sel, x) ensures x in Filter(ns, sel) {
        if x != ns[0] {
          assert x in ns[1..];
        }
      }
    }
  }

  lemma {:induction false} FilterAppend(a: seq<Node>, b: seq<Node>, sel: Selector)
    ensures Filter(a + b, sel) == Filter(a, sel) + Filter(b, sel)
    decreases a
  {
    if a == [] {
      assert a + b == b;
    } else {
      assert (a + b)[0] == a[0] && (a + b)[1..] == a[1..] + b;
      FilterAppend(a[1..], b, sel);
    }
  }

  /** The items of `xs` that `keep` accepts, in order. */
  function KeepIf<T>(xs: seq<T>, keep: T -> bool): (r: seq<T>)
    ensures |r| <= |xs|
  {
    if xs == [] then [] else (if keep(xs[0]) then [xs[0]] else []) + KeepIf(xs[1..], keep)
  }

  /** The filter keeps exactly the items it accepts. */
  lemma {:induction false} KeepIfSpec<T>(xs: seq<T>, keep: T -> bool)
    ensures forall i :: 0 <= i < |KeepIf(xs, keep)| ==> keep(KeepIf(xs, keep)[i]) && KeepIf(xs, keep)[i] in xs
    ensures forall x :: x in xs && keep(x) ==> x in KeepIf(xs, keep)
  {
    if xs != [] {
      KeepIfSpec(xs[1..], keep);
      var head := if keep(xs[0]) then [xs[0]] else [];
      assert KeepIf(xs, keep) == head + KeepIf(xs[1..], keep);
      forall x | x in xs && keep(x) ensures x in KeepIf(xs, keep) {
        if x != xs[0] {
          assert x in xs[1..];
        }
      }
    }
  }

  /** `n.find_all(f)` for a test function `f`: the descendants it accepts. */
  function FindAllWhere(n: Node, f: Node -> bool): seq<Node> {
    KeepIf(Descendants(n), f)
  }

  /** `n.select(sel)` / `n.find_all(sel)` */
  function Select(n: Node, sel: Selector): seq<Node> {
    Filter(Descendants(n), sel)
  }

  /** `n.select_one(sel)` / `n.find(sel)`: the first match, or None. */
  function SelectOne(n: Node, sel: Selector): (r: Option<Node>)
    ensures r.Some? <==> Select(n, sel) != []
  {
    var all := Select(n, sel);
    if all == [] then None else Some(all[0])
  }

  /** `select_one` finds a matching descendant whenever `select` finds any. */
  lemma SelectOneSpec(n: Node, sel: Selector)
    ensures SelectOne(n, sel).Some? ==> Matches(sel, SelectOne(n, sel).value) && SelectOne(n, sel).value in Descendants(n)
    ensures (exists d :: d in Descendants(n) && Matches(sel, d)) ==> SelectOne(n, sel).Some?
  {
    FilterSpec(Descendants(n), sel);
  }

  /** BeautifulSoup's `.string`: the text of a node whose only child (recursively) is one string. */
  function StringOf(n: Node): Option<string>
    decreases n
  {
    match n
    case Text(s) => Some(s)
    case Element(_, _, _, children) => if |children| == 1 then StringOf(children[0]) else None
  }

  /** The index of the first node of `siblings` at or after `from` that is an element named `name`
      (`find_next_sibling(name)` walks the siblings that follow a node). */
  function NextNamed(siblings: seq<Node>, from: nat, name: string): (r: Option<nat>)
    ensures r.Some? ==> from <= r.value < |siblings|
    decreases |siblings| - from
  {
    if from >= |siblings| then None
    else if Matches(Named([name]), siblings[from]) then Some(from)
    else NextNamed(siblings, from + 1, name)
  }

  /** `find_next_sibling(name)` finds the first sibling from `from` on with that tag name, and
      none exactly when there is no such sibling. */
  lemma {:induction false} NextNamedSpec(siblings: seq<Node>, from: nat, name: string)
    ensures var r := NextNamed(siblings, from, name);
      && (r.Some? ==> Matches(Named([name]), siblings[r.value]))
      && (r.Some? ==> forall k :: from <= k < r.value ==> !Matches(Named([name]), siblings[k]))
      && (r.None? ==> forall k :: from <= k < |siblings| ==> !Matches(Named([name]), siblings[k]))
    decreases |siblings| - from
  {
    if from < |siblings| && !Matches(Named([name]), siblings[from]) {
      NextNamedSpec(siblings, from + 1, name);
    }
  }

  // ---------------------------------------------------------------------------
  // Positions in a tree
  // ---------------------------------------------------------------------------

  /** A list of child indices that leads from `n` down to one of its nodes. */
  predicate IsPath(n: Node, path: seq<nat>)
    decreases path
  {
    path == [] || (n.Element? && path[0] < |n.children| && IsPath(n.children[path[0]], path[1..]))
  }

  /** The node a path leads to. */
  function NodeAt(n: Node, path: seq<nat>): Node
    requires IsPath(n, path)
    decreases path
  {
    if path == [] then n else NodeAt(n.children[path[0]], path[1..])
  }

  /** `n` with the node at `path` replaced by `x`, as `replace_with` does in place. */
  function ReplaceAt(n: Node, path: seq<nat>, x: Node): (r: Node)
    requires IsPath(n, path)
    ensures path != [] ==> r.Element? && r.name == n.name && r.style == n.style && r.children == n.children[path[0] := ReplaceAt(n.children[path[0]], path[1..], x)]
    decreases path
  {
    if path == [] then x
    else n.(children := n.children[path[0] := ReplaceAt(n.children[path[0]], path[1..], x)])
  }

  /** The nodes reached by non-empty paths are exactly the descendants. */
  lemma {:induction false} PathsAreDescendants(n: Node, path: seq<nat>)
    requires IsPath(n, path) && path != []
    ensures NodeAt(n, path) in Descendants(n)
    decreases path
  {
    var c := n.children[path[0]];
    ChildInDescendantsAll(n.children, path[0]);
    if path[1..] != [] {
      PathsAreDescendants(c, path[1..]);
    }
  }

  lemma {:induction false} DescendantsHavePaths(n: Node, d: Node)
    requires d in Descendants(n)
    ensures exists path :: IsPath(n, path) && path != [] && NodeAt(n, path) == d
    decreases n
  {
    var i := DescendantsAllChild(n.children, d);
    var c := n.children[i];
    if d == c {
      var q: seq<nat> := [i];
      assert q[0] == i && q[1..] == [];
      assert IsPath(c, q[1..]) && NodeAt(c, q[1..]) == c;
      assert IsPath(n, q) && NodeAt(n, q) == d;
    } else {
      DescendantsHavePaths(c, d);
      var p :| IsPath(c, p) && p != [] && NodeAt(c, p) == d;
      var q: seq<nat> := [i] + p;
      assert q[0] == i && q[1..] == p;
      assert IsPath(n, q) && NodeAt(n, q) == d;
    }
  }

  /** Child `i` and its descendants are among the descendants of the list. */
  lemma {:induction false} ChildInDescendantsAll(ns: seq<Node>, i: nat)
    requires i < |ns|
    ensures ns[i] in DescendantsAll(ns)
    ensures forall d :: d in Descendants(ns[i]) ==> d in DescendantsAll(ns)
    decreases ns
  {
    if i > 0 {
      ChildInDescendantsAll(ns[1..], i - 1);
    }
  }

  /** Every descendant of a list is one of its nodes or lies below one. */
  lemma {:induction false} DescendantsAllChild(ns: seq<Node>, d: Node) returns (i: nat)
    requires d in DescendantsAll(ns)
    ensures i < |ns| && (d == ns[i] || d in Descendants(ns[i]))
    decreases ns
  {
    if d == ns[0] || d in Descendants(ns[0]) {
      i := 0;
    } else {
      var j := DescendantsAllChild(ns[1..], d);
      i := j + 1;
    }
  }
}
