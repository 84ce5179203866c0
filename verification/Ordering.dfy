/** Python's string order, and sorting a set of strings by it. */
module Ordering {

  /** `a <= b` on strings: code point by code point, a proper prefix first. */
  predicate StringLe(a: string, b: string) {
    a == "" || (b != "" && (a[0] < b[0] || (a[0] == b[0] && StringLe(a[1..], b[1..]))))
  }

  lemma {:induction false} StringLeTotal(a: string, b: string)
    ensures StringLe(a, b) || StringLe(b, a)
    ensures StringLe(a, b) && StringLe(b, a) ==> a == b
  {
    if a != "" && b != "" && a[0] == b[0] {
      StringLeTotal(a[1..], b[1..]);
      assert a == [a[0]] + a[1..] && b == [b[0]] + b[1..];
    }
  }

  lemma {:induction false} StringLeTransitive(a: string, b: string, c: string)
    requires StringLe(a, b) && StringLe(b, c)
    ensures StringLe(a, c)
  {
    if a != "" && a[0] == b[0] == c[0] {
      StringLeTransitive(a[1..], b[1..], c[1..]);
    }
  }

  lemma {:induction false} StringLeCommonPrefix(p: string, a: string, b: string)
    ensures StringLe(p + a, p + b) <==> StringLe(a, b)
  {
    if p == "" {
      assert p + a == a && p + b == b;
    } else {
      StringLeCommonPrefix(p[1..], a, b);
      assert (p + a)[1..] == p[1..] + a && (p + b)[1..] == p[1..] + b;
    }
  }

  predicate IsLeast(x: string, s: set<string>) {
    x in s && forall y | y in s :: StringLe(x, y)
  }

  lemma {:induction false} LeastExists(s: set<string>) returns (least: string)
    requires s != {}
    ensures IsLeast(least, s)
  {
    var x :| x in s;
    var rest := s - {x};
    StringLeTotal(x, x);
    if rest == {} {
      least := x;
      assert s == {x};
    } else {
      var y := LeastExists(rest);
      StringLeTotal(x, y);
      least := if StringLe(x, y) then x else y;
      forall z | z in s ensures StringLe(least, z) {
        if z != x && least == x {
          StringLeTransitive(x, y, z);
        }
      }
    }
  }

  lemma LeastUnique(x: string, y: string, s: set<string>)
    requires IsLeast(x, s) && IsLeast(y, s)
    ensures x == y
  {
    StringLeTotal(x, y);
  }

  lemma LeastIsDefined(s: set<string>)
    requires s != {}
    ensures exists x | x in s :: IsLeast(x, s)
    ensures forall x, y :: IsLeast(x, s) && IsLeast(y, s) ==> x == y
  {
    var x := LeastExists(s);
    forall a, b | IsLeast(a, s) && IsLeast(b, s) ensures a == b {
      LeastUnique(a, b, s);
    }
  }

  predicate Sorted(s: seq<string>) {
    forall i, j :: 0 <= i < j < |s| ==> StringLe(s[i], s[j])
  }

  predicate Distinct<T(==)>(s: seq<T>) {
    forall i, j :: 0 <= i < j < |s| ==> s[i] != s[j]
  }

  lemma SortedCons(x: string, rest: seq<string>)
    requires Sorted(rest) && Distinct(rest) && x !in rest
    requires forall y :: y in rest ==> StringLe(x, y)
    ensures Sorted([x] + rest) && Distinct([x] + rest)
  {
  }

  /** Python's `sorted(s)` for a set of strings. */
  function SortSet(s: set<string>): (r: seq<string>)
    ensures Sorted(r)
    ensures Distinct(r)
    ensures forall x :: x in r <==> x in s
    ensures |r| == |s|
    decreases |s|
  {
    if s == {} then []
    else
      LeastIsDefined(s);
      var x :| x in s && IsLeast(x, s);
      var rest := SortSet(s - {x});
      SortedCons(x, rest);
      [x] + rest
  }

  /** A sequence that is sorted, without repeats and lists exactly the set is `sorted` of that set. */
  lemma {:induction false} SortedIsUnique(r: seq<string>, s: set<string>)
    requires Sorted(r) && Distinct(r) && forall x :: x in r <==> x in s
    ensures r == SortSet(s)
  {
    if r == [] {
      assert s == {};
    } else {
      FirstIsLeast(r, s);
      TailLists(r, s);
      SortedIsUnique(r[1..], s - {r[0]});
      SortStep(s, r[0]);
      assert r == [r[0]] + r[1..];
    }
  }

  lemma FirstIsLeast(r: seq<string>, s: set<string>)
    requires r != [] && Sorted(r) && forall x :: x in r <==> x in s
    ensures IsLeast(r[0], s)
  {
    StringLeTotal(r[0], r[0]);
    forall y | y in s ensures StringLe(r[0], y) {
      var i :| 0 <= i < |r| && r[i] == y;
    }
  }

  lemma TailLists(r: seq<string>, s: set<string>)
    requires r != [] && Distinct(r) && forall x :: x in r <==> x in s
    ensures forall x :: x in r[1..] <==> x in s - {r[0]}
  {
    forall x ensures x in r[1..] <==> x in s - {r[0]} {
      if x in s - {r[0]} {
        var i :| 0 <= i < |r| && r[i] == x;
        assert r[1..][i - 1] == x;
      }
    }
  }

  lemma SortStep(s: set<string>, x: string)
    requires IsLeast(x, s)
    ensures SortSet(s) == [x] + SortSet(s - {x})
  {
    forall y | IsLeast(y, s) ensures y == x {
      LeastUnique(x, y, s);
    }
  }
}
