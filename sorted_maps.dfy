/**
 * A `BTreeMap<String, V>` as the generator uses it: a list of entries kept in
 * strictly ascending key order. Iterating the map is walking the list, and
 * `insert` either replaces the entry with the same key or adds one in place.
 */
module SortedMaps {
  import opened Text

  /** The map's invariant: keys strictly ascending, hence pairwise distinct. */
  predicate StrictlySorted<V>(t: seq<(string, V)>) {
    forall i, j :: 0 <= i < j < |t| ==> LexLess(t[i].0, t[j].0)
  }

  function Keys<V>(t: seq<(string, V)>): set<string> {
    set i | 0 <= i < |t| :: t[i].0
  }

  /** Every key of `t` lies strictly above `k`. */
  predicate Above<V>(k: string, t: seq<(string, V)>) {
    forall i :: 0 <= i < |t| ==> LexLess(k, t[i].0)
  }

  /**
   * `BTreeMap::insert`: replace the entry with key `k`, or add one at its place
   * in key order.
   */
  function Insert<V>(t: seq<(string, V)>, k: string, v: V): (r: seq<(string, V)>)
    ensures |r| > 0
  {
    if |t| == 0 then [(k, v)]
    else if t[0].0 == k then [(k, v)] + t[1..]
    else if LexLess(k, t[0].0) then [(k, v)] + t
    else [t[0]] + Insert(t[1..], k, v)
  }

  /** Insertion keeps the keys strictly ascending, and everything below them stays below. */
  lemma {:induction false} InsertSorted<V>(t: seq<(string, V)>, k: string, v: V)
    requires StrictlySorted(t)
    ensures StrictlySorted(Insert(t, k, v))
    ensures forall x :: Above(x, t) && LexLess(x, k) ==> Above(x, Insert(t, k, v))
    decreases |t|
  {
    var r := Insert(t, k, v);
    if |t| == 0 {
    } else if t[0].0 == k {
      assert forall j :: 0 < j < |r| ==> r[j] == t[j];
    } else if LexLess(k, t[0].0) {
      BelowHead(t, k);
      assert forall j :: 0 < j < |r| ==> r[j] == t[j - 1];
    } else {
      var tail := Insert(t[1..], k, v);
      InsertSorted(t[1..], k, v);
      InsertKeys(t[1..], k, v);
      LexLessTotal(k, t[0].0);
      forall i | 0 <= i < |tail| ensures LexLess(t[0].0, tail[i].0) {
        assert tail[i].0 in Keys(tail);
        if tail[i].0 != k {
          var j :| 0 <= j < |t[1..]| && t[1..][j].0 == tail[i].0;
          assert t[j + 1].0 == tail[i].0;
        }
      }
      assert r == [t[0]] + tail;
      assert forall j :: 0 < j < |r| ==> r[j] == tail[j - 1];
    }
  }

  /** After insertion the keys are the old keys plus `k`. */
  lemma {:induction false} InsertKeys<V>(t: seq<(string, V)>, k: string, v: V)
    ensures Keys(Insert(t, k, v)) == Keys(t) + {k}
    decreases |t|
  {
    if |t| == 0 {
      KeysCons((k, v), t);
      assert Insert(t, k, v) == [(k, v)] + t;
    } else if t[0].0 == k {
      KeysCons(t[0], t[1..]);
      KeysCons((k, v), t[1..]);
      assert t == [t[0]] + t[1..];
    } else if LexLess(k, t[0].0) {
      KeysCons((k, v), t);
    } else {
      InsertKeys(t[1..], k, v);
      KeysCons(t[0], t[1..]);
      KeysCons(t[0], Insert(t[1..], k, v));
      assert t == [t[0]] + t[1..];
    }
  }

  /**
   * Afterwards `k` is bound to `v`, every other binding is kept, and nothing
   * else appears.
   */
  lemma {:induction false} InsertBindings<V>(t: seq<(string, V)>, k: string, v: V)
    ensures (k, v) in Insert(t, k, v)
    ensures forall e :: e in t && e.0 != k ==> e in Insert(t, k, v)
    ensures forall e :: e in Insert(t, k, v) ==> e.0 == k || e in t
    decreases |t|
  {
    if |t| > 0 && t[0].0 != k && !LexLess(k, t[0].0) {
      InsertBindings(t[1..], k, v);
      assert t == [t[0]] + t[1..];
    } else if |t| > 0 {
      assert t == [t[0]] + t[1..];
    }
  }

  /** A key already present keeps the length; a new key adds one entry. */
  lemma {:induction false} InsertLength<V>(t: seq<(string, V)>, k: string, v: V)
    requires StrictlySorted(t)
    ensures |Insert(t, k, v)| == if k in Keys(t) then |t| else |t| + 1
    decreases |t|
  {
    if |t| == 0 {
    } else if t[0].0 == k {
    } else if LexLess(k, t[0].0) {
      BelowHead(t, k);
    } else {
      InsertLength(t[1..], k, v);
      KeysCons(t[0], t[1..]);
      assert t == [t[0]] + t[1..];
    }
  }

  lemma KeysCons<V>(e: (string, V), t: seq<(string, V)>)
    ensures Keys([e] + t) == {e.0} + Keys(t)
  {
    var r := [e] + t;
    assert r[0].0 == e.0;
    forall x | x in Keys(r) ensures x in {e.0} + Keys(t) {
      var i :| 0 <= i < |r| && r[i].0 == x;
      if i > 0 {
        assert t[i - 1].0 == x;
      }
    }
    forall x | x in Keys(t) ensures x in Keys(r) {
      var i :| 0 <= i < |t| && t[i].0 == x;
      assert r[i + 1].0 == x;
    }
  }

  /** A key below the head of a sorted map is below every key, so not in it. */
  lemma BelowHead<V>(t: seq<(string, V)>, k: string)
    requires |t| > 0 && StrictlySorted(t) && LexLess(k, t[0].0)
    ensures Above(k, t) && k !in Keys(t)
  {
    forall i | 0 <= i < |t| ensures LexLess(k, t[i].0) {
      if i > 0 {
        LexLessTransitive(k, t[0].0, t[i].0);
      }
    }
    if k in Keys(t) {
      var i :| 0 <= i < |t| && t[i].0 == k;
      LexLessIrreflexive(k);
    }
  }

  /** In a sorted map a key is bound at most once. */
  lemma KeyBoundOnce<V>(t: seq<(string, V)>, e: (string, V), d: (string, V))
    requires StrictlySorted(t) && e in t && d in t && e.0 == d.0
    ensures e == d
  {
    var i :| 0 <= i < |t| && t[i] == e;
    var j :| 0 <= j < |t| && t[j] == d;
    forall a, b | 0 <= a < b < |t| ensures t[a].0 != t[b].0 {
      LexLessIrreflexive(t[a].0);
    }
  }
}
