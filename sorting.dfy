/**
  Python's `sorted(lines, key=f)` on string keys: a stable sort. The model sorts by
  insertion; `StableSortIsUnique` shows that any order that is sorted by key and keeps
  the relative order of lines with equal keys is this one, so the choice of algorithm
  does not matter.
 */
module Sorting {
  import opened Text

  /** Each line's key is at most the next line's key. */
  predicate SortedBy(s: seq<string>, key: string -> string) {
    forall i :: 0 <= i < |s| - 1 ==> LexLe(key(s[i]), key(s[i + 1]))
  }

  /** The lines of `s` whose key is `k`, in their order in `s`. */
  function WithKey(s: seq<string>, key: string -> string, k: string): seq<string>
    decreases |s|
  {
    if s == [] then [] else (if key(s[0]) == k then [s[0]] else []) + WithKey(s[1..], key, k)
  }

  /** Puts `x` in front of the first line whose key is not below its own. */
  function Insert(x: string, t: seq<string>, key: string -> string): (r: seq<string>)
    requires SortedBy(t, key)
    ensures |r| == |t| + 1 && (r[0] == x || (t != [] && r[0] == t[0]))
    ensures SortedBy(r, key)
    ensures multiset(r) == multiset(t) + multiset{x}
    decreases |t|
  {
    if t == [] || LexLe(key(x), key(t[0])) then [x] + t
    else
      LexLeTotal(key(x), key(t[0]));
      assert SortedBy(t[1..], key) by {
        forall i | 0 <= i < |t[1..]| - 1 ensures LexLe(key(t[1..][i]), key(t[1..][i + 1])) {
          assert t[1..][i] == t[i + 1] && t[1..][i + 1] == t[i + 2];
        }
      }
      assert t == [t[0]] + t[1..];
      [t[0]] + Insert(x, t[1..], key)
  }

  /** The lines of `s`, stably sorted by `key`. */
  function SortBy(s: seq<string>, key: string -> string): (r: seq<string>)
    ensures |r| == |s| && SortedBy(r, key)
    ensures multiset(r) == multiset(s)
    decreases |s|
  {
    if s == [] then []
    else
      assert s == [s[0]] + s[1..];
      Insert(s[0], SortBy(s[1..], key), key)
  }

  /** Sorted by neighbours means sorted between any two positions. */
  lemma {:induction false} SortedPairwise(s: seq<string>, key: string -> string, i: int, j: int)
    requires SortedBy(s, key) && 0 <= i < j < |s|
    ensures LexLe(key(s[i]), key(s[j]))
    decreases j - i
  {
    if j > i + 1 {
      SortedPairwise(s, key, i + 1, j);
      LexLeTransitive(key(s[i]), key(s[i + 1]), key(s[j]));
    }
  }

  /** Inserting `x` puts it before every line of the same key. */
  lemma {:induction false} InsertWithKey(x: string, t: seq<string>, key: string -> string, k: string)
    requires SortedBy(t, key)
    ensures WithKey(Insert(x, t, key), key, k) == (if key(x) == k then [x] else []) + WithKey(t, key, k)
    decreases |t|
  {
    var own: seq<string> := if key(x) == k then [x] else [];
    if t == [] || LexLe(key(x), key(t[0])) {
      assert ([x] + t)[1..] == t;
    } else {
      SortedTail(t, key);
      InsertWithKey(x, t[1..], key, k);
      var r1 := Insert(x, t[1..], key);
      var r := Insert(x, t, key);
      assert r == [t[0]] + r1;
      assert r[0] == t[0] && r[1..] == r1;
      var head: seq<string> := if key(t[0]) == k then [t[0]] else [];
      assert WithKey(r, key, k) == head + (own + WithKey(t[1..], key, k));
      assert WithKey(t, key, k) == head + WithKey(t[1..], key, k);
      if key(x) == k {
        LexLeReflexive(k);
        assert head == [];
      } else {
        assert own == [];
      }
    }
  }

  /** Sorting keeps, for every key, the lines of that key in their original order. */
  lemma {:induction false} SortByIsStable(s: seq<string>, key: string -> string, k: string)
    ensures WithKey(SortBy(s, key), key, k) == WithKey(s, key, k)
    decreases |s|
  {
    if s != [] {
      SortByIsStable(s[1..], key, k);
      InsertWithKey(s[0], SortBy(s[1..], key), key, k);
    }
  }

  /** A line of key `k` is present wherever `WithKey` finds one. */
  lemma {:induction false} WithKeyMember(s: seq<string>, key: string -> string, k: string)
    requires WithKey(s, key, k) != []
    ensures exists j :: 0 <= j < |s| && key(s[j]) == k
    decreases |s|
  {
    if key(s[0]) != k {
      WithKeyMember(s[1..], key, k);
      var j :| 0 <= j < |s[1..]| && key(s[1..][j]) == k;
      assert key(s[j + 1]) == k;
    }
  }

  /** Dropping the first line keeps a sorted order sorted. */
  lemma SortedTail(r: seq<string>, key: string -> string)
    requires SortedBy(r, key) && r != []
    ensures SortedBy(r[1..], key)
  {
    forall i | 0 <= i < |r[1..]| - 1 ensures LexLe(key(r[1..][i]), key(r[1..][i + 1])) {
      assert r[1..][i] == r[i + 1] && r[1..][i + 1] == r[i + 2];
    }
  }

  /** In a sorted order the first key is at most every key present. */
  lemma HeadKeyIsLeast(r: seq<string>, key: string -> string, k: string)
    requires SortedBy(r, key) && WithKey(r, key, k) != []
    ensures r != [] && LexLe(key(r[0]), k)
  {
    WithKeyMember(r, key, k);
    var j :| 0 <= j < |r| && key(r[j]) == k;
    if j == 0 { LexLeReflexive(k); } else { SortedPairwise(r, key, 0, j); }
  }

  /** Orders that agree on every key's lines are empty together. */
  lemma SameKeysSameEmptiness(r1: seq<string>, r2: seq<string>, key: string -> string)
    requires forall k :: WithKey(r1, key, k) == WithKey(r2, key, k)
    ensures r1 == [] <==> r2 == []
  {
    if r1 != [] {
      assert WithKey(r1, key, key(r1[0])) != [];
      assert WithKey(r2, key, key(r1[0])) != [];
    }
    if r2 != [] {
      assert WithKey(r2, key, key(r2[0])) != [];
      assert WithKey(r1, key, key(r2[0])) != [];
    }
  }

  /** Two orders of the same lines that are both sorted by key and agree on the order of
      every key's lines are the same order. */
  lemma {:induction false} StableSortIsUnique(r1: seq<string>, r2: seq<string>, key: string -> string)
    requires SortedBy(r1, key) && SortedBy(r2, key)
    requires forall k :: WithKey(r1, key, k) == WithKey(r2, key, k)
    ensures r1 == r2
    decreases |r1| + |r2|
  {
    SameKeysSameEmptiness(r1, r2, key);
    if r1 != [] {
      var k1, k2 := key(r1[0]), key(r2[0]);
      assert WithKey(r1, key, k1) == WithKey(r2, key, k1);
      assert WithKey(r1, key, k2) == WithKey(r2, key, k2);
      assert WithKey(r1, key, k1) != [];
      assert WithKey(r2, key, k2) != [];
      HeadKeyIsLeast(r1, key, k2);
      HeadKeyIsLeast(r2, key, k1);
      LexLeAntisymmetric(k1, k2);
      assert WithKey(r1, key, k1) == [r1[0]] + WithKey(r1[1..], key, k1);
      assert WithKey(r2, key, k1) == [r2[0]] + WithKey(r2[1..], key, k1);
      assert r1[0] == WithKey(r1, key, k1)[0] == r2[0];
      forall k ensures WithKey(r1[1..], key, k) == WithKey(r2[1..], key, k) {
        var p := if key(r1[0]) == k then [r1[0]] else [];
        assert WithKey(r1, key, k) == p + WithKey(r1[1..], key, k);
        assert WithKey(r2, key, k) == p + WithKey(r2[1..], key, k);
        assert (p + WithKey(r1[1..], key, k))[|p|..] == WithKey(r1[1..], key, k);
        assert (p + WithKey(r2[1..], key, k))[|p|..] == WithKey(r2[1..], key, k);
      }
      SortedTail(r1, key);
      SortedTail(r2, key);
      StableSortIsUnique(r1[1..], r2[1..], key);
      assert r1 == [r1[0]] + r1[1..] && r2 == [r2[0]] + r2[1..];
    }
  }

  /** Hence any stable sort by `key` (such as Python's `sorted`) returns `SortBy`. */
  lemma AnyStableSortIsSortBy(s: seq<string>, r: seq<string>, key: string -> string)
    requires SortedBy(r, key)
    requires forall k :: WithKey(r, key, k) == WithKey(s, key, k)
    ensures r == SortBy(s, key)
  {
    forall k ensures WithKey(r, key, k) == WithKey(SortBy(s, key), key, k) {
      SortByIsStable(s, key, k);
    }
    StableSortIsUnique(r, SortBy(s, key), key);
  }
}
