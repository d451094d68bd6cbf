/** Small facts about sequences used by several modules. */
module SeqUtil {

  /** The set of elements of a sequence. */
  function Elems<T(==)>(s: seq<T>): set<T>
  {
    set x | x in s
  }

  /** Appending an element adds it to the element set. */
  lemma ElemsSnoc<T>(s: seq<T>, x: T)
    ensures Elems(s + [x]) == Elems(s) + {x}
  {
  }

  /** The position of the first occurrence of `x` in `s`. */
  function FirstIndex<T(==)>(s: seq<T>, x: T): (i: nat)
    requires x in s
    ensures i < |s| && s[i] == x && x !in s[..i]
  {
    if s[0] == x then 0
    else
      var i := 1 + FirstIndex(s[1..], x);
      assert s[..i] == [s[0]] + s[1..][..i - 1];
      i
  }

  /** Appending an element leaves the first occurrence of a present element where it was. */
  lemma {:induction false} FirstIndexAppend<T>(s: seq<T>, y: T, x: T)
    requires x in s
    ensures FirstIndex(s + [y], x) == FirstIndex(s, x)
  {
    if s[0] != x {
      assert (s + [y])[1..] == s[1..] + [y];
      FirstIndexAppend(s[1..], y, x);
    }
  }

  /** No element occurs twice. */
  predicate NoDups<T(==)>(s: seq<T>)
  {
    forall i, j :: 0 <= i < j < |s| ==> s[i] != s[j]
  }

  /** The elements of `s` that lie in `alive`, in their order in `s`. */
  function Keep<T(==)>(s: seq<T>, alive: set<T>): (r: seq<T>)
    ensures Elems(r) == Elems(s) * alive
    ensures |r| <= |s|
  {
    if s == [] then []
    else
      var rest := Keep(s[1..], alive);
      assert Elems(s) == {s[0]} + Elems(s[1..]);
      if s[0] in alive then
        assert Elems([s[0]] + rest) == {s[0]} + Elems(rest);
        [s[0]] + rest
      else rest
  }

  lemma {:induction false} KeepNoDups<T>(s: seq<T>, alive: set<T>)
    requires NoDups(s)
    ensures NoDups(Keep(s, alive))
  {
    if s != [] {
      assert NoDups(s[1..]) by {
        forall i, j | 0 <= i < j < |s[1..]| ensures s[1..][i] != s[1..][j] {
          assert s[1..][i] == s[i + 1] && s[1..][j] == s[j + 1];
        }
      }
      KeepNoDups(s[1..], alive);
      assert s[0] !in Elems(s[1..]) by {
        forall j | 0 <= j < |s[1..]| ensures s[1..][j] != s[0] {
          assert s[1..][j] == s[j + 1];
        }
      }
      assert s[0] !in Elems(Keep(s[1..], alive));
    }
  }

  /** Keeping everything that occurs changes nothing. */
  lemma {:induction false} KeepAll<T>(s: seq<T>, alive: set<T>)
    requires Elems(s) <= alive
    ensures Keep(s, alive) == s
  {
    if s != [] {
      assert Elems(s[1..]) <= Elems(s);
      KeepAll(s[1..], alive);
    }
  }

  /** Filtering twice is filtering once by the intersection. */
  lemma {:induction false} KeepKeep<T>(s: seq<T>, a: set<T>, b: set<T>)
    ensures Keep(Keep(s, a), b) == Keep(s, a * b)
  {
    if s != [] {
      KeepKeep(s[1..], a, b);
    }
  }
}
