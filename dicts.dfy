/** A Python dict filled by successive `d[k] = v` assignments: a later key overwrites an earlier one. */
module Dicts {

  /** The dict left by assigning each (key, value) of `entries` in order, starting from `m`. */
  function Assign<K, V>(m: map<K, V>, entries: seq<(K, V)>): map<K, V>
    decreases |entries|
  {
    if entries == [] then m
    else Assign(m, entries[..|entries| - 1])[entries[|entries| - 1].0 := entries[|entries| - 1].1]
  }

  /** Entry `i` is the last one of `entries` with key `k`. */
  ghost predicate LastFor<K, V>(entries: seq<(K, V)>, k: K, i: nat) {
    i < |entries| && entries[i].0 == k && forall j :: i < j < |entries| ==> entries[j].0 != k
  }

  lemma AssignSnoc<K, V>(m: map<K, V>, entries: seq<(K, V)>, e: (K, V))
    ensures Assign(m, entries + [e]) == Assign(m, entries)[e.0 := e.1]
  {
    assert (entries + [e])[..|entries|] == entries;
  }

  /** Assigning two lists of entries in turn is assigning their concatenation. */
  lemma {:induction false} AssignAppend<K, V>(m: map<K, V>, a: seq<(K, V)>, b: seq<(K, V)>)
    ensures Assign(m, a + b) == Assign(Assign(m, a), b)
    decreases |b|
  {
    if b != [] {
      var p := b[..|b| - 1];
      AssignAppend(m, a, p);
      assert (a + b)[..|a + b| - 1] == a + p;
      assert (a + b)[|a + b| - 1] == b[|b| - 1];
    } else {
      assert a + b == a;
    }
  }

  /** A key is present exactly when it was present or assigned; its value is that of its last
      assignment, or the original one when it was never assigned. */
  lemma AssignSpec<K, V>(m: map<K, V>, entries: seq<(K, V)>, k: K)
    ensures k in Assign(m, entries) <==> k in m || exists i :: 0 <= i < |entries| && entries[i].0 == k
    ensures forall i: nat :: LastFor(entries, k, i) ==> k in Assign(m, entries) && Assign(m, entries)[k] == entries[i].1
    ensures (forall i :: 0 <= i < |entries| ==> entries[i].0 != k) && k in m ==>
              k in Assign(m, entries) && Assign(m, entries)[k] == m[k]
  {
    AssignHas(m, entries, k);
    forall i: nat | LastFor(entries, k, i) ensures k in Assign(m, entries) && Assign(m, entries)[k] == entries[i].1 {
      AssignLast(m, entries, k, i);
    }
    if (forall i :: 0 <= i < |entries| ==> entries[i].0 != k) && k in m {
      AssignUntouched(m, entries, k);
    }
  }

  lemma {:induction false} AssignHas<K, V>(m: map<K, V>, entries: seq<(K, V)>, k: K)
    ensures k in Assign(m, entries) <==> k in m || exists i :: 0 <= i < |entries| && entries[i].0 == k
    decreases |entries|
  {
    if entries != [] {
      var p, last := entries[..|entries| - 1], entries[|entries| - 1];
      AssignHas(m, p, k);
      assert Assign(m, entries) == Assign(m, p)[last.0 := last.1];
      if exists i :: 0 <= i < |p| && p[i].0 == k {
        var i :| 0 <= i < |p| && p[i].0 == k;
        assert entries[i] == p[i];
      }
      if last.0 != k && exists i :: 0 <= i < |entries| && entries[i].0 == k {
        var i :| 0 <= i < |entries| && entries[i].0 == k;
        assert i < |p| && p[i] == entries[i];
      }
    }
  }

  lemma {:induction false} AssignLast<K, V>(m: map<K, V>, entries: seq<(K, V)>, k: K, i: nat)
    requires LastFor(entries, k, i)
    ensures k in Assign(m, entries) && Assign(m, entries)[k] == entries[i].1
    decreases |entries|
  {
    var p, last := entries[..|entries| - 1], entries[|entries| - 1];
    assert Assign(m, entries) == Assign(m, p)[last.0 := last.1];
    if i < |p| {
      assert LastFor(p, k, i) by {
        forall j | i < j < |p| ensures p[j].0 != k { assert p[j] == entries[j]; }
        assert p[i] == entries[i];
      }
      AssignLast(m, p, k, i);
    }
  }

  lemma {:induction false} AssignUntouched<K, V>(m: map<K, V>, entries: seq<(K, V)>, k: K)
    requires k in m && forall i :: 0 <= i < |entries| ==> entries[i].0 != k
    ensures k in Assign(m, entries) && Assign(m, entries)[k] == m[k]
    decreases |entries|
  {
    if entries != [] {
      var p, last := entries[..|entries| - 1], entries[|entries| - 1];
      forall i | 0 <= i < |p| ensures p[i].0 != k { assert p[i] == entries[i]; }
      AssignUntouched(m, p, k);
      assert Assign(m, entries) == Assign(m, p)[last.0 := last.1];
    }
  }

  /** Every entry is a (key, value) pair of the result, unless a later entry has the same key. */
  lemma AssignKeys<K, V>(m: map<K, V>, entries: seq<(K, V)>)
    ensures Assign(m, entries).Keys == m.Keys + (set i | 0 <= i < |entries| :: entries[i].0)
  {
    var l, r := Assign(m, entries).Keys, m.Keys + (set i | 0 <= i < |entries| :: entries[i].0);
    forall k | k in l ensures k in r { AssignSpec(m, entries, k); }
    forall k | k in r ensures k in l { AssignSpec(m, entries, k); }
  }
}
