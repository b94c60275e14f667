/** Finite sequences, sets and the lexicographic order on equally long sequences. */
module Sequences {

  datatype Option<+T> = None | Some(value: T)

  datatype Result<+T> = Ok(value: T) | Err

  function Elems<T>(s: seq<T>): (r: set<T>)
  {
    set x | x in s
  }

  /** Where x first stands in s. */
  function Position<T(==)>(s: seq<T>, x: T): (i: nat)
    requires x in s
    ensures i < |s| && s[i] == x
  {
    if s[0] == x then 0 else
      assert s == [s[0]] + s[1..];
      1 + Position(s[1..], x)
  }

  predicate Distinct<T(==)>(s: seq<T>)
  {
    forall i, j :: 0 <= i < j < |s| ==> s[i] != s[j]
  }

  predicate Ascending(s: seq<int>)
  {
    forall i, j :: 0 <= i < j < |s| ==> s[i] < s[j]
  }

  lemma ElemsAppend<T>(s: seq<T>, x: T)
    ensures Elems(s + [x]) == Elems(s) + {x}
  {
    assert (s + [x])[|s|] == x;
    forall y | y in Elems(s) + {x} ensures y in s + [x] {
      if y in s {
        var i :| 0 <= i < |s| && s[i] == y;
        assert (s + [x])[i] == y;
      }
    }
  }

  lemma ElemsConcat<T>(s: seq<T>, t: seq<T>)
    ensures Elems(s + t) == Elems(s) + Elems(t)
  {
    forall y | y in Elems(s) + Elems(t) ensures y in s + t {
      if y in s {
        var i :| 0 <= i < |s| && s[i] == y;
        assert (s + t)[i] == y;
      } else {
        var i :| 0 <= i < |t| && t[i] == y;
        assert (s + t)[|s| + i] == y;
      }
    }
  }

  lemma {:induction false} DistinctCardinality<T>(s: seq<T>)
    requires Distinct(s)
    ensures |Elems(s)| == |s|
  {
    if s != [] {
      var n := |s| - 1;
      assert s == s[..n] + [s[n]];
      ElemsAppend(s[..n], s[n]);
      DistinctCardinality(s[..n]);
      assert s[n] !in s[..n];
    }
  }

  /** A sequence with as many distinct elements as entries repeats none. */
  lemma {:induction false} FullCardinalityDistinct<T>(s: seq<T>)
    ensures |Elems(s)| <= |s|
    ensures |Elems(s)| == |s| ==> Distinct(s)
  {
    if s != [] {
      var n := |s| - 1;
      assert s == s[..n] + [s[n]];
      ElemsAppend(s[..n], s[n]);
      FullCardinalityDistinct(s[..n]);
      if s[n] in s[..n] {
        assert Elems(s) == Elems(s[..n]);
      }
    }
  }

  lemma SubsetCardinality<T>(a: set<T>, b: set<T>)
    requires a <= b
    ensures |a| <= |b|
    ensures |a| == |b| ==> a == b
  {
    assert b == a + (b - a);
  }

  lemma Member<T>(s: set<T>) returns (x: T)
    requires s != {}
    ensures x in s
  {
    x :| x in s;
  }

  // -------------------------------------------------- ascending listing of a set

  ghost predicate IsMin(s: set<int>, m: int)
  {
    m in s && forall x :: x in s ==> m <= x
  }

  lemma {:induction false} MinExists(s: set<int>)
    requires s != {}
    ensures exists m :: IsMin(s, m)
    decreases |s|
  {
    var x := Member(s);
    if s == {x} {
      assert IsMin(s, x);
    } else {
      MinExists(s - {x});
      var m :| IsMin(s - {x}, m);
      var least := if x < m then x else m;
      forall y | y in s ensures least <= y {
        if y != x { assert y in s - {x}; }
      }
      assert IsMin(s, least);
    }
  }

  function Min(s: set<int>): (m: int)
    requires s != {}
    ensures m in s
    ensures forall x :: x in s ==> m <= x
  {
    MinExists(s);
    assert exists m :: m in s && forall x :: x in s ==> m <= x by {
      var m :| IsMin(s, m);
    }
    var m :| m in s && forall x :: x in s ==> m <= x;
    m
  }

  /** `sorted(s)` on step ids. */
  function SortedIds(s: set<int>): (r: seq<int>)
    ensures Elems(r) == s
    ensures Ascending(r)
    decreases |s|
  {
    if s == {} then []
    else
      var m := Min(s);
      var rest := SortedIds(s - {m});
      PrependLess(m, rest);
      [m] + rest
  }

  lemma PrependLess(m: int, rest: seq<int>)
    requires Ascending(rest)
    requires forall x :: x in Elems(rest) ==> m < x
    ensures Ascending([m] + rest)
    ensures Elems([m] + rest) == {m} + Elems(rest)
  {
    ElemsConcat([m], rest);
    assert Elems([m]) == {m};
    var s := [m] + rest;
    forall i, j | 0 <= i < j < |s| ensures s[i] < s[j] {
      assert s[j] == rest[j - 1] && rest[j - 1] in Elems(rest);
      if i > 0 { assert s[i] == rest[i - 1]; }
    }
  }

  // -------------------------------------------------- lexicographic order

  ghost predicate LessAt(a: seq<int>, b: seq<int>, i: int)
  {
    0 <= i < |a| && i < |b| && a[..i] == b[..i] && a[i] < b[i]
  }

  ghost predicate LexLess(a: seq<int>, b: seq<int>)
  {
    exists i :: LessAt(a, b, i)
  }

  ghost predicate LexLe(a: seq<int>, b: seq<int>)
  {
    a == b || LexLess(a, b)
  }

  lemma LexLessTransitive(a: seq<int>, b: seq<int>, c: seq<int>)
    requires LexLess(a, b) && LexLess(b, c)
    ensures LexLess(a, c)
  {
    var i :| LessAt(a, b, i);
    var j :| LessAt(b, c, j);
    if i <= j {
      assert b[..j][..i] == b[..i] && c[..j][..i] == c[..i];
      assert c[i] >= b[i] by { if i < j { assert b[..j][i] == c[..j][i]; } }
      assert LessAt(a, c, i);
    } else {
      assert a[..i][..j] == a[..j] && b[..i][..j] == b[..j];
      assert a[..i][j] == b[..i][j];
      assert LessAt(a, c, j);
    }
  }

  lemma LexLeTransitive(a: seq<int>, b: seq<int>, c: seq<int>)
    requires LexLe(a, b) && LexLe(b, c)
    ensures LexLe(a, c)
  {
    if a != b && b != c {
      LexLessTransitive(a, b, c);
    }
  }

  lemma LexIrreflexive(a: seq<int>)
    ensures !LexLess(a, a)
  {
  }

  lemma LexAntisymmetric(a: seq<int>, b: seq<int>)
    requires LexLe(a, b) && LexLe(b, a)
    ensures a == b
  {
    if a != b {
      LexIrreflexive(a);
      LexLessTransitive(a, b, a);
    }
  }

  lemma LexLessExtend(a: seq<int>, b: seq<int>, x: seq<int>, y: seq<int>)
    requires LexLess(a, b)
    ensures LexLess(a + x, b + y)
  {
    var i :| LessAt(a, b, i);
    assert (a + x)[..i] == a[..i] && (b + y)[..i] == b[..i];
    assert LessAt(a + x, b + y, i);
  }

  lemma LexLessLast(a: seq<int>, x: int, y: int)
    requires x < y
    ensures LexLess(a + [x], a + [y])
  {
    assert (a + [x])[..|a|] == a && (a + [y])[..|a|] == a;
    assert LessAt(a + [x], a + [y], |a|);
  }

  lemma LexLeExtend(a: seq<int>, b: seq<int>, x: int, y: int)
    requires LexLe(a, b) && x <= y
    ensures LexLe(a + [x], b + [y])
  {
    if a != b {
      LexLessExtend(a, b, [x], [y]);
    } else if x < y {
      LexLessLast(a, x, y);
    }
  }
}
