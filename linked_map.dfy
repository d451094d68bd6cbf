/**
 * java.util.LinkedHashMap keyed by symbol name: the keys in insertion order and
 * the entries.
 */
module LinkedMaps {
  import opened SeqUtil

  datatype LinkedMap<V> = LinkedMap(order: seq<string>, entries: map<string, V>)
  {
    /** Each key once in the order, and the order lists exactly the keys. */
    ghost predicate Valid()
    {
      NoDups(order) && Elems(order) == entries.Keys
    }
  }

  function Empty<V>(): (m: LinkedMap<V>)
    ensures m.Valid() && m.entries == map[]
  {
    LinkedMap([], map[])
  }

  /**
   * put(k, v): a new key goes to the end of the order; a key already present keeps
   * its place and takes the new value.
   */
  function Put<V>(m: LinkedMap<V>, k: string, v: V): (r: LinkedMap<V>)
    requires m.Valid()
    ensures r.Valid()
    ensures r.entries == m.entries[k := v]
    ensures k in m.entries ==> r.order == m.order
    ensures k !in m.entries ==> r.order == m.order + [k]
  {
    if k in m.entries then LinkedMap(m.order, m.entries[k := v])
    else
      assert Elems(m.order + [k]) == Elems(m.order) + {k};
      LinkedMap(m.order + [k], m.entries[k := v])
  }

  /** remove(k): the key leaves the order and the entries; the rest keep their order. */
  function Remove<V>(m: LinkedMap<V>, k: string): (r: LinkedMap<V>)
    requires m.Valid()
    ensures r.Valid()
    ensures r.entries == m.entries - {k}
  {
    KeepNoDups(m.order, m.entries.Keys - {k});
    LinkedMap(Keep(m.order, m.entries.Keys - {k}), m.entries - {k})
  }

  /** The values in key order, as the rebuilt ArrayList of the source. */
  function Values<V>(m: LinkedMap<V>): (vs: seq<V>)
    requires m.Valid()
    ensures |vs| == |m.order|
  {
    seq(|m.order|, i requires 0 <= i < |m.order| => m.entries[m.order[i]])
  }

  /**
   * `m1` shrank to `m2`: only keys were removed, the survivors keep their values,
   * and their order is the order they had in `m1`.
   */
  ghost predicate Shrinks<V>(m1: LinkedMap<V>, m2: LinkedMap<V>)
  {
    && m2.entries.Keys <= m1.entries.Keys
    && (forall k :: k in m2.entries ==> m2.entries[k] == m1.entries[k])
    && m2.order == Keep(m1.order, m2.entries.Keys)
  }

  lemma ShrinksRefl<V>(m: LinkedMap<V>)
    requires m.Valid()
    ensures Shrinks(m, m)
  {
    KeepAll(m.order, m.entries.Keys);
  }

  lemma RemoveShrinks<V>(m: LinkedMap<V>, k: string)
    requires m.Valid()
    ensures Shrinks(m, Remove(m, k))
  {
  }

  lemma {:induction false} ShrinksTrans<V>(m1: LinkedMap<V>, m2: LinkedMap<V>, m3: LinkedMap<V>)
    requires m1.Valid() && Shrinks(m1, m2) && Shrinks(m2, m3)
    ensures Shrinks(m1, m3)
  {
    KeepKeep(m1.order, m2.entries.Keys, m3.entries.Keys);
    assert m2.entries.Keys * m3.entries.Keys == m3.entries.Keys;
  }

  /** The names of a sequence of records, under a key function. */
  function Names<V>(defs: seq<V>, key: V -> string): (ns: seq<string>)
    ensures |ns| == |defs|
  {
    seq(|defs|, i requires 0 <= i < |defs| => key(defs[i]))
  }

  /** The map the source builds by putting every record under its name, in order. */
  function BuildMap<V>(defs: seq<V>, key: V -> string): (m: LinkedMap<V>)
    ensures m.Valid()
  {
    if defs == [] then Empty()
    else Put(BuildMap(defs[..|defs| - 1], key), key(defs[|defs| - 1]), defs[|defs| - 1])
  }

  /** The map built from a list of records holds each of their names once. */
  lemma {:induction false} BuildMapKeys<V>(defs: seq<V>, key: V -> string)
    ensures forall x :: x in BuildMap(defs, key).order <==> x in Names(defs, key)
  {
    if defs != [] {
      var n := |defs| - 1;
      BuildMapKeys(defs[..n], key);
      assert Names(defs, key) == Names(defs[..n], key) + [key(defs[n])];
      assert Elems(BuildMap(defs, key).order) == BuildMap(defs, key).entries.Keys;
      assert Elems(BuildMap(defs[..n], key).order) == BuildMap(defs[..n], key).entries.Keys;
    }
  }

  /** `order` lists names of `ns` sorted by the position where each first occurs in `ns`. */
  ghost predicate ByFirstOccurrence(order: seq<string>, ns: seq<string>)
  {
    forall i, j :: 0 <= i < j < |order| ==> OccursBefore(ns, order[i], order[j])
  }

  /** Both names occur in `ns`, and `a` first occurs before `b` does. */
  ghost predicate OccursBefore(ns: seq<string>, a: string, b: string)
  {
    a in ns && b in ns && FirstIndex(ns, a) < FirstIndex(ns, b)
  }

  /** `v` is the last record of `defs` whose name is `k`. */
  ghost predicate IsLastNamed<V>(defs: seq<V>, key: V -> string, k: string, v: V)
  {
    exists i :: 0 <= i < |defs| && key(defs[i]) == k && v == defs[i] &&
      forall j :: i < j < |defs| ==> key(defs[j]) != k
  }

  /** A record of another name appended at the end leaves the last record of `k` as it was. */
  lemma IsLastNamedSnoc<V>(defs: seq<V>, key: V -> string, k: string, v: V, d: V)
    requires IsLastNamed(defs, key, k, v) && key(d) != k
    ensures IsLastNamed(defs + [d], key, k, v)
  {
    var ds := defs + [d];
    var i :| 0 <= i < |defs| && key(defs[i]) == k && v == defs[i] &&
      forall j :: i < j < |defs| ==> key(defs[j]) != k;
    assert ds[i] == defs[i];
    forall j | i < j < |ds| ensures key(ds[j]) != k {
      if j < |defs| { assert ds[j] == defs[j]; }
    }
  }

  /** Appending a name keeps the first-occurrence order; a new name goes last. */
  lemma ByFirstOccurrenceSnoc(order: seq<string>, ns: seq<string>, k: string)
    requires ByFirstOccurrence(order, ns)
    requires forall x :: x in order <==> x in ns
    ensures k in ns ==> ByFirstOccurrence(order, ns + [k])
    ensures k !in ns ==> ByFirstOccurrence(order + [k], ns + [k])
  {
    var ns' := ns + [k];
    forall x | x in ns ensures x in ns' && FirstIndex(ns', x) == FirstIndex(ns, x) {
      FirstIndexAppend(ns, k, x);
    }
    if k !in ns {
      var o := order + [k];
      assert FirstIndex(ns', k) == |ns| by {
        assert ns'[|ns|] == k;
        assert k !in ns'[..|ns|] by { assert ns'[..|ns|] == ns; }
      }
      forall i, j | 0 <= i < j < |o|
        ensures OccursBefore(ns', o[i], o[j])
      {
        assert o[i] == order[i] && order[i] in ns;
        if j < |order| {
          assert o[j] == order[j];
        }
      }
    }
  }

  /**
   * The order of the map built from a list of records: names sorted by the
   * position where each FIRST occurs in the list.
   */
  lemma {:induction false} BuildMapFirstPositions<V>(defs: seq<V>, key: V -> string)
    ensures ByFirstOccurrence(BuildMap(defs, key).order, Names(defs, key))
  {
    if defs != [] {
      var n := |defs| - 1;
      var pre := defs[..n];
      BuildMapFirstPositions(pre, key);
      BuildMapKeys(pre, key);
      var m0 := BuildMap(pre, key);
      var k := key(defs[n]);
      assert Names(defs, key) == Names(pre, key) + [k];
      assert k in m0.entries <==> k in Names(pre, key) by {
        assert k in m0.entries <==> k in Elems(m0.order);
      }
      ByFirstOccurrenceSnoc(m0.order, Names(pre, key), k);
    }
  }

  /** Each name of the map built from a list of records holds the LAST record of that name. */
  lemma {:induction false} BuildMapLastValue<V>(defs: seq<V>, key: V -> string)
    ensures forall k :: k in BuildMap(defs, key).entries ==>
      IsLastNamed(defs, key, k, BuildMap(defs, key).entries[k])
  {
    if defs != [] {
      var n := |defs| - 1;
      var pre := defs[..n];
      BuildMapLastValue(pre, key);
      var m0 := BuildMap(pre, key);
      var m := BuildMap(defs, key);
      var k := key(defs[n]);
      forall x | x in m.entries
        ensures IsLastNamed(defs, key, x, m.entries[x])
      {
        if x == k {
          assert key(defs[n]) == x && m.entries[x] == defs[n];
        } else {
          assert x in m0.entries && m.entries[x] == m0.entries[x];
          assert defs == pre + [defs[n]];
          IsLastNamedSnoc(pre, key, x, m0.entries[x], defs[n]);
        }
      }
    }
  }

  /**
   * `vs` is what survives of the records `defs` in a map keyed by name: each name
   * once, ordered by where the name first occurs in `defs`, holding the last record
   * of that name.
   */
  ghost predicate SurvivorsOf<V>(vs: seq<V>, defs: seq<V>, key: V -> string)
  {
    && NoDups(Names(vs, key))
    && ByFirstOccurrence(Names(vs, key), Names(defs, key))
    && forall i :: 0 <= i < |vs| ==> IsLastNamed(defs, key, key(vs[i]), vs[i])
  }

  /** The rest of a first-occurrence order is one too, and comes after its head. */
  lemma ByFirstOccurrenceTail(order: seq<string>, ns: seq<string>)
    requires order != [] && ByFirstOccurrence(order, ns)
    ensures ByFirstOccurrence(order[1..], ns)
    ensures forall k :: 0 <= k < |order| - 1 ==> OccursBefore(ns, order[0], order[1..][k])
  {
    var t := order[1..];
    forall i, j | 0 <= i < j < |t|
      ensures OccursBefore(ns, t[i], t[j])
    {
      assert t[i] == order[i + 1] && t[j] == order[j + 1];
    }
    forall k | 0 <= k < |t|
      ensures OccursBefore(ns, order[0], t[k])
    {
      assert order[k + 1] == t[k];
    }
  }

  /** A name that occurs before every name of a first-occurrence order may lead it. */
  lemma ByFirstOccurrenceCons(x: string, t: seq<string>, ns: seq<string>)
    requires ByFirstOccurrence(t, ns)
    requires forall k :: 0 <= k < |t| ==> OccursBefore(ns, x, t[k])
    ensures ByFirstOccurrence([x] + t, ns)
  {
    var o := [x] + t;
    forall i, j | 0 <= i < j < |o|
      ensures OccursBefore(ns, o[i], o[j])
    {
      var tj := t[j - 1];
      assert o[j] == tj;
      if i > 0 {
        var ti := t[i - 1];
        assert o[i] == ti;
      } else {
        assert o[i] == x;
      }
    }
  }

  /** Dropping keys keeps the first-occurrence order of the rest. */
  lemma {:induction false} ByFirstOccurrenceKeep(order: seq<string>, ns: seq<string>, alive: set<string>)
    requires ByFirstOccurrence(order, ns)
    ensures ByFirstOccurrence(Keep(order, alive), ns)
  {
    if order != [] {
      var t := order[1..];
      ByFirstOccurrenceTail(order, ns);
      ByFirstOccurrenceKeep(t, ns, alive);
      var kt := Keep(t, alive);
      if order[0] in alive {
        forall k | 0 <= k < |kt|
          ensures OccursBefore(ns, order[0], kt[k])
        {
          assert kt[k] in Elems(kt);
          var m :| 0 <= m < |t| && t[m] == kt[k];
        }
        ByFirstOccurrenceCons(order[0], kt, ns);
      }
    }
  }

  /**
   * The values of any map that shrank from the map built from `defs` are what
   * survives of `defs`: each name once, at the place of its first occurrence,
   * holding its last record.
   */
  lemma {:induction false} ShrunkBuildMapValues<V>(defs: seq<V>, key: V -> string, r: LinkedMap<V>)
    requires Shrinks(BuildMap(defs, key), r)
    ensures r.Valid()
    ensures SurvivorsOf(Values(r), defs, key)
  {
    var m0 := BuildMap(defs, key);
    KeepNoDups(m0.order, r.entries.Keys);
    assert Elems(r.order) == r.entries.Keys;
    BuildMapLastValue(defs, key);
    BuildMapFirstPositions(defs, key);
    ByFirstOccurrenceKeep(m0.order, Names(defs, key), r.entries.Keys);
    var vs := Values(r);
    forall i | 0 <= i < |vs|
      ensures key(vs[i]) == r.order[i] && IsLastNamed(defs, key, key(vs[i]), vs[i])
    {
      var k := r.order[i];
      assert k in Elems(r.order);
      assert vs[i] == r.entries[k] == m0.entries[k];
      assert IsLastNamed(defs, key, k, m0.entries[k]);
      var j :| 0 <= j < |defs| && key(defs[j]) == k && m0.entries[k] == defs[j] &&
        forall l :: j < l < |defs| ==> key(defs[l]) != k;
    }
    assert Names(vs, key) == r.order;
  }

  /** The loop that puts every record under its name, in order. */
  method PutAll<V>(defs: seq<V>, key: V -> string) returns (m: LinkedMap<V>)
    ensures m == BuildMap(defs, key)
  {
    m := Empty();
    var i := 0;
    while i < |defs|
      invariant 0 <= i <= |defs|
      invariant m == BuildMap(defs[..i], key)
    {
      assert defs[..i + 1][..i] == defs[..i];
      m := Put(m, key(defs[i]), defs[i]);
      i := i + 1;
    }
    assert defs[..i] == defs;
  }

  /** The loop that rebuilds a list from the key order. */
  method ValuesInOrder<V>(m: LinkedMap<V>) returns (vs: seq<V>)
    requires m.Valid()
    ensures vs == Values(m)
  {
    vs := [];
    var i := 0;
    while i < |m.order|
      invariant 0 <= i <= |m.order|
      invariant vs == Values(m)[..i]
    {
      vs := vs + [m.entries[m.order[i]]];
      i := i + 1;
    }
  }
}
