/** Python's ordering of strings (`<=` compares code points lexicographically) and the
    `sorted(...)` / `sorted(set(...))` results built on it. */
module Ordering {

  /** `a <= b` on Python strings. */
  predicate Le(a: string, b: string)
    decreases |a|
  {
    if a == [] then true
    else if b == [] then false
    else if a[0] != b[0] then a[0] < b[0]
    else Le(a[1..], b[1..])
  }

  predicate Lt(a: string, b: string) {
    Le(a, b) && a != b
  }

  lemma {:induction false} LeRefl(a: string)
    decreases |a|
    ensures Le(a, a)
  {
    if a != [] { LeRefl(a[1..]); }
  }

  lemma {:induction false} LeAntisym(a: string, b: string)
    decreases |a|
    requires Le(a, b) && Le(b, a)
    ensures a == b
  {
    if a != [] && b != [] {
      LeAntisym(a[1..], b[1..]);
      assert a == [a[0]] + a[1..];
      assert b == [b[0]] + b[1..];
    }
  }

  lemma {:induction false} LeTrans(a: string, b: string, c: string)
    decreases |a|
    requires Le(a, b) && Le(b, c)
    ensures Le(a, c)
  {
    if a != [] && b != [] && c != [] && a[0] == b[0] == c[0] {
      LeTrans(a[1..], b[1..], c[1..]);
    }
  }

  lemma {:induction false} LeTotal(a: string, b: string)
    decreases |a|
    ensures Le(a, b) || Le(b, a)
  {
    if a != [] && b != [] && a[0] == b[0] {
      LeTotal(a[1..], b[1..]);
    }
  }

  /** A common prefix does not change the order of two strings. */
  lemma {:induction false} LeCommonPrefix(p: string, a: string, b: string)
    decreases |p|
    ensures Le(p + a, p + b) <==> Le(a, b)
  {
    if p != [] {
      assert (p + a)[1..] == p[1..] + a;
      assert (p + b)[1..] == p[1..] + b;
      assert (p + a)[0] == (p + b)[0];
      assert Le(p + a, p + b) == Le(p[1..] + a, p[1..] + b);
      LeCommonPrefix(p[1..], a, b);
    } else {
      assert p + a == a && p + b == b;
    }
  }

  /** Two strings that first differ where the left one has the smaller character are ordered. */
  lemma LtAtFirstDifference(p: string, x: char, y: char, a: string, b: string)
    requires x < y
    ensures Lt(p + [x] + a, p + [y] + b)
  {
    LeCommonPrefix(p, [x] + a, [y] + b);
    assert p + [x] + a == p + ([x] + a);
    assert p + [y] + b == p + ([y] + b);
    assert (p + [x] + a)[|p|] == x;
  }

  ghost predicate Sorted(s: seq<string>) {
    forall i, j :: 0 <= i < j < |s| ==> Le(s[i], s[j])
  }

  ghost predicate StrictlySorted(s: seq<string>) {
    forall i, j :: 0 <= i < j < |s| ==> Lt(s[i], s[j])
  }

  predicate Distinct<T(==)>(s: seq<T>) {
    forall i, j :: 0 <= i < j < |s| ==> s[i] != s[j]
  }

  function Insert(x: string, s: seq<string>): (r: seq<string>)
    ensures multiset(r) == multiset(s) + multiset{x}
  {
    if s == [] then [x]
    else if Le(x, s[0]) then [x] + s
    else
      assert s == [s[0]] + s[1..];
      [s[0]] + Insert(x, s[1..])
  }

  /** Inserting into a sorted sequence keeps it sorted. */
  lemma {:induction false} InsertSorted(x: string, s: seq<string>)
    requires Sorted(s)
    ensures Sorted(Insert(x, s))
  {
    if s == [] {
    } else if Le(x, s[0]) {
      forall j | 0 <= j < |s| ensures Le(x, s[j]) {
        if j > 0 { LeTrans(x, s[0], s[j]); }
      }
    } else {
      var t := Insert(x, s[1..]);
      assert s == [s[0]] + s[1..];
      InsertSorted(x, s[1..]);
      forall j | 0 <= j < |t| ensures Le(s[0], t[j]) {
        assert t[j] in multiset(t);
        if t[j] == x {
          LeTotal(x, s[0]);
        } else {
          assert t[j] in multiset(s[1..]);
          var k :| 0 <= k < |s[1..]| && s[1..][k] == t[j];
          assert s[k + 1] == t[j];
        }
      }
      assert Insert(x, s) == [s[0]] + t;
    }
  }

  /** `sorted(s)`: an insertion sort; Python's sort is stable, which makes no
      difference for strings, since equal strings are identical. */
  function Sort(s: seq<string>): (r: seq<string>)
    ensures Sorted(r)
    ensures multiset(r) == multiset(s)
  {
    if s == [] then []
    else
      assert s == [s[0]] + s[1..];
      InsertSorted(s[0], Sort(s[1..]));
      Insert(s[0], Sort(s[1..]))
  }

  lemma InMultiset(s: seq<string>, t: seq<string>, x: string)
    requires multiset(s) == multiset(t)
    ensures x in s <==> x in t
  {
    assert x in s <==> x in multiset(s);
    assert x in t <==> x in multiset(t);
  }

  lemma {:induction false} InsertFresh(x: string, s: seq<string>)
    requires StrictlySorted(s) && x !in s
    ensures StrictlySorted(Insert(x, s))
  {
    if s == [] {
    } else if Le(x, s[0]) {
      forall j | 0 <= j < |s| ensures Lt(x, s[j]) {
        if j > 0 { LeTrans(x, s[0], s[j]); }
      }
    } else {
      var t := Insert(x, s[1..]);
      assert s == [s[0]] + s[1..];
      InsertFresh(x, s[1..]);
      LeTotal(x, s[0]);
      forall j | 0 <= j < |t| ensures Lt(s[0], t[j]) {
        assert t[j] in multiset(t);
        if t[j] != x {
          assert t[j] in multiset(s[1..]);
          var k :| 0 <= k < |s[1..]| && s[1..][k] == t[j];
          assert s[k + 1] == t[j];
        }
      }
    }
  }

  /** Sorting a sequence whose elements are pairwise different gives a strictly sorted one. */
  lemma {:induction false} SortDistinct(s: seq<string>)
    requires Distinct(s)
    ensures StrictlySorted(Sort(s))
  {
    if s != [] {
      assert Distinct(s[1..]);
      SortDistinct(s[1..]);
      InMultiset(Sort(s[1..]), s[1..], s[0]);
      InsertFresh(s[0], Sort(s[1..]));
    }
  }

  /** First occurrences of each element, in order. */
  function Dedup(s: seq<string>): (r: seq<string>)
    ensures Distinct(r)
    ensures forall x :: x in r <==> x in s
  {
    if s == [] then []
    else
      var d := Dedup(s[..|s| - 1]);
      assert s == s[..|s| - 1] + [s[|s| - 1]];
      if s[|s| - 1] in d then d else d + [s[|s| - 1]]
  }

  /** `sorted(set(s))`. */
  function SortedSet(s: seq<string>): (r: seq<string>)
    ensures StrictlySorted(r)
    ensures forall x :: x in r <==> x in s
  {
    var d := Dedup(s);
    SortDistinct(d);
    forall x ensures x in Sort(d) <==> x in d {
      InMultiset(Sort(d), d, x);
    }
    Sort(d)
  }

  /** A strictly sorted sequence is determined by its elements: whatever order the
      input came in (a dictionary's, a directory listing's), the sorted output is the same. */
  lemma {:induction false} StrictlySortedUnique(a: seq<string>, b: seq<string>)
    requires StrictlySorted(a) && StrictlySorted(b)
    requires forall x :: x in a <==> x in b
    ensures a == b
  {
    if a != [] { assert a[0] in b; }
    if b != [] { assert b[0] in a; }
    if a != [] && b != [] {
      var i :| 0 <= i < |b| && b[i] == a[0];
      var j :| 0 <= j < |a| && a[j] == b[0];
      LeRefl(a[0]);
      assert Le(b[0], a[0]) by { if i > 0 { assert Lt(b[0], b[i]); } }
      assert Le(a[0], b[0]) by { if j > 0 { assert Lt(a[0], a[j]); } }
      LeAntisym(a[0], b[0]);
      assert a == [a[0]] + a[1..];
      assert b == [b[0]] + b[1..];
      forall x ensures x in a[1..] <==> x in b[1..] {
        if x in a[1..] {
          var k :| 0 <= k < |a[1..]| && a[1..][k] == x;
          assert a[k + 1] == x && Lt(a[0], x);
          assert x in b && x != b[0];
        }
        if x in b[1..] {
          var k :| 0 <= k < |b[1..]| && b[1..][k] == x;
          assert b[k + 1] == x && Lt(b[0], x);
          assert x in a && x != a[0];
        }
      }
      StrictlySortedUnique(a[1..], b[1..]);
    }
  }
}
