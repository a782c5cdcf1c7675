/** Sequence and set helpers that stand for the small Python list idioms the
    solver uses: `range`, list comprehensions with a filter, `list.count(0)`,
    `list.index(0)`, `sorted`, and taking an element out of a set. */
module Seqs {

  /** `list(range(lo, hi))`. */
  function Range(lo: int, hi: int): (r: seq<int>)
    ensures |r| == if lo <= hi then hi - lo else 0
    ensures forall i :: 0 <= i < |r| ==> r[i] == lo + i
  {
    if lo >= hi then [] else seq(hi - lo, i requires 0 <= i < hi - lo => lo + i)
  }

  lemma InRange(lo: int, hi: int, x: int)
    ensures x in Range(lo, hi) <==> lo <= x < hi
  {
    if lo <= x < hi {
      assert Range(lo, hi)[x - lo] == x;
    }
  }

  lemma RangeMembers(lo: int, hi: int)
    ensures forall x :: x in Range(lo, hi) <==> lo <= x < hi
  {
    forall x ensures x in Range(lo, hi) <==> lo <= x < hi { InRange(lo, hi, x); }
  }

  predicate Increasing(s: seq<int>)
  {
    forall i, j :: 0 <= i < j < |s| ==> s[i] < s[j]
  }

  /** `[x for x in s if p(x)]`: keeps the elements satisfying p, in order. */
  function Keep(s: seq<int>, p: int -> bool): (r: seq<int>)
    ensures |r| <= |s|
  {
    if |s| == 0 then []
    else if p(s[0]) then [s[0]] + Keep(s[1..], p) else Keep(s[1..], p)
  }

  /** The kept elements are exactly the elements satisfying p. */
  lemma {:induction false} KeepMembers(s: seq<int>, p: int -> bool)
    ensures forall x :: x in Keep(s, p) <==> x in s && p(x)
  {
    if |s| > 0 {
      KeepMembers(s[1..], p);
      assert s == [s[0]] + s[1..];
    }
  }

  /** `[x for x in range(lo, hi) if p(x)]`. */
  function Select(lo: int, hi: int, p: int -> bool): (r: seq<int>)
    ensures |r| <= if lo <= hi then hi - lo else 0
    decreases hi - lo
  {
    if lo >= hi then []
    else if p(lo) then [lo] + Select(lo + 1, hi, p)
    else Select(lo + 1, hi, p)
  }

  /** The selected numbers are exactly those of [lo, hi) satisfying p. */
  lemma {:induction false} SelectMembers(lo: int, hi: int, p: int -> bool)
    ensures forall x :: x in Select(lo, hi, p) <==> lo <= x < hi && p(x)
    decreases hi - lo
  {
    if lo < hi {
      SelectMembers(lo + 1, hi, p);
    }
  }

  /** The selected numbers come in ascending order. */
  lemma {:induction false} SelectIncreasing(lo: int, hi: int, p: int -> bool)
    ensures Increasing(Select(lo, hi, p))
    decreases hi - lo
  {
    if lo < hi {
      SelectIncreasing(lo + 1, hi, p);
      SelectMembers(lo + 1, hi, p);
      var rest := Select(lo + 1, hi, p);
      if p(lo) {
        var r := Select(lo, hi, p);
        forall i, j | 0 <= i < j < |r| ensures r[i] < r[j] {
          assert r[j] == rest[j - 1] && rest[j - 1] in rest;
          if i > 0 {
            assert r[i] == rest[i - 1];
          }
        }
      }
    }
  }

  /** `s.count(0)`. */
  function CountZeros(s: seq<int>): nat
  {
    if |s| == 0 then 0
    else CountZeros(s[..|s| - 1]) + (if s[|s| - 1] == 0 then 1 else 0)
  }

  lemma {:induction false} CountZerosBound(s: seq<int>)
    ensures CountZeros(s) <= |s|
    ensures CountZeros(s) == 0 <==> 0 !in s
  {
    if |s| > 0 {
      var p := s[..|s| - 1];
      CountZerosBound(p);
      assert s == p + [s[|s| - 1]];
    }
  }

  /** A list with exactly one zero has no zero at any other index. */
  lemma {:induction false} SingleZero(s: seq<int>, z: int)
    requires CountZeros(s) == 1 && 0 <= z < |s| && s[z] == 0
    ensures forall t :: 0 <= t < |s| && t != z ==> s[t] != 0
  {
    var p := s[..|s| - 1];
    assert s == p + [s[|s| - 1]];
    if z == |s| - 1 {
      CountZerosBound(p);
      assert 0 !in p;
      forall t | 0 <= t < |s| - 1 ensures s[t] != 0 { assert s[t] == p[t]; }
    } else {
      assert p[z] == 0;
      CountZerosBound(p);
      assert s[|s| - 1] != 0;
      SingleZero(p, z);
      forall t | 0 <= t < |s| && t != z ensures s[t] != 0 {
        if t < |s| - 1 { assert s[t] == p[t]; }
      }
    }
  }

  /** Overwriting zeros with non-zero values never adds zeros, and removes one per
      changed position. */
  lemma {:induction false} CountZerosFill(s: seq<int>, s': seq<int>)
    requires |s| == |s'|
    requires forall i :: 0 <= i < |s| && s'[i] != s[i] ==> s[i] == 0 && s'[i] != 0
    ensures CountZeros(s') <= CountZeros(s)
    ensures s' != s ==> CountZeros(s') < CountZeros(s)
  {
    if |s| > 0 {
      var p, p' := s[..|s| - 1], s'[..|s| - 1];
      CountZerosFill(p, p');
      assert s == p + [s[|s| - 1]];
      assert s' == p' + [s'[|s| - 1]];
    }
  }

  /** The first index holding x, or |s| when x does not occur. */
  function Find(s: seq<int>, x: int): (i: nat)
    ensures i <= |s| && (i < |s| ==> s[i] == x)
    ensures forall j :: 0 <= j < i ==> s[j] != x
  {
    if |s| == 0 then 0
    else if s[0] == x then 0
    else 1 + Find(s[1..], x)
  }

  /** `s.index(x)`: the first index holding x. */
  function IndexOf(s: seq<int>, x: int): (i: nat)
    requires x in s
    ensures i < |s| && s[i] == x
    ensures forall j :: 0 <= j < i ==> s[j] != x
  {
    Find(s, x)
  }

  /** A value held at a single index is found there. */
  lemma FindOnce(s: seq<int>, p: int)
    requires 0 <= p < |s|
    requires forall q :: 0 <= q < |s| && s[q] == s[p] ==> q == p
    ensures Find(s, s[p]) == p
  {
  }

  /** An element of a non-empty set, as `list(some_set)[0]` yields one: which one
      is left unspecified, only its membership is known. */
  ghost function Pick(m: set<int>): (v: int)
    requires m != {}
    ensures v in m
  {
    NonEmpty(m);
    var v :| v in m; v
  }

  lemma NonEmpty(m: set<int>)
    requires m != {}
    ensures exists v :: v in m
  {
    if forall v :: v !in m {
      assert false;
    }
  }

  /** A set of size one is the singleton of any of its members. */
  lemma Singleton(m: set<int>, v: int)
    requires |m| == 1 && v in m
    ensures m == {v}
  {
    assert |m - {v}| == 0;
    assert m - {v} == {};
  }

  predicate Sorted(s: seq<int>)
  {
    forall i, j :: 0 <= i < j < |s| ==> s[i] <= s[j]
  }

  /** Insertion of x into a sorted list. */
  function Insert(x: int, s: seq<int>): seq<int>
  {
    if |s| == 0 then [x]
    else if x <= s[0] then [x] + s
    else [s[0]] + Insert(x, s[1..])
  }

  lemma {:induction false} InsertElements(x: int, s: seq<int>)
    ensures forall y :: y in Insert(x, s) ==> y == x || y in s
    ensures multiset(Insert(x, s)) == multiset(s) + multiset{x}
  {
    if |s| > 0 && x > s[0] {
      InsertElements(x, s[1..]);
      assert s == [s[0]] + s[1..];
    }
  }

  lemma {:induction false} InsertSorted(x: int, s: seq<int>)
    requires Sorted(s)
    ensures Sorted(Insert(x, s))
  {
    if |s| > 0 && x > s[0] {
      var t := Insert(x, s[1..]);
      InsertSorted(x, s[1..]);
      InsertElements(x, s[1..]);
      var r := Insert(x, s);
      assert r == [s[0]] + t;
      forall i, j | 0 <= i < j < |r| ensures r[i] <= r[j] {
        if i == 0 {
          assert r[j] == t[j - 1];
          assert t[j - 1] in t;
          if t[j - 1] != x {
            var m :| 0 <= m < |s[1..]| && s[1..][m] == t[j - 1];
            assert s[m + 1] == r[j];
          }
        } else {
          assert r[i] == t[i - 1] && r[j] == t[j - 1];
        }
      }
    }
  }

  /** `sorted(s)`: the ascending arrangement of s. */
  function Sort(s: seq<int>): (r: seq<int>)
    ensures Sorted(r)
    ensures multiset(r) == multiset(s)
  {
    if |s| == 0 then []
    else
      assert s == [s[0]] + s[1..];
      InsertSorted(s[0], Sort(s[1..]));
      InsertElements(s[0], Sort(s[1..]));
      Insert(s[0], Sort(s[1..]))
  }

  /** Two sorted lists with the same elements are the same list. */
  lemma {:induction false} SortedUnique(a: seq<int>, b: seq<int>)
    requires Sorted(a) && Sorted(b) && multiset(a) == multiset(b)
    ensures a == b
  {
    assert |a| == |multiset(a)| == |multiset(b)| == |b|;
    if |a| > 0 {
      assert a[0] in multiset(b);
      var i :| 0 <= i < |b| && b[i] == a[0];
      assert b[0] in multiset(a);
      var j :| 0 <= j < |a| && a[j] == b[0];
      assert b[0] <= a[0] <= b[0];
      assert a == [a[0]] + a[1..];
      assert b == [b[0]] + b[1..];
      assert multiset(a[1..]) == multiset(a) - multiset{a[0]};
      assert multiset(b[1..]) == multiset(b) - multiset{b[0]};
      SortedUnique(a[1..], b[1..]);
    }
  }

  /** `sorted(s) == target` holds exactly when s and target hold the same
      elements with the same multiplicities, for any sorted target. */
  lemma SortEqualsIff(s: seq<int>, target: seq<int>)
    requires Sorted(target)
    ensures Sort(s) == target <==> multiset(s) == multiset(target)
  {
    if multiset(s) == multiset(target) {
      SortedUnique(Sort(s), target);
    }
  }

  /** `set(s)`. */
  function Elems(s: seq<int>): set<int>
  {
    set x | x in s
  }

  lemma {:induction false} ElemsSize(s: seq<int>)
    ensures |Elems(s)| <= |s|
  {
    if |s| > 0 {
      ElemsSize(s[1..]);
      assert Elems(s) == {s[0]} + Elems(s[1..]);
    }
  }

  /** A strictly increasing list has as many distinct elements as entries. */
  lemma {:induction false} ElemsIncreasing(s: seq<int>)
    requires Increasing(s)
    ensures |Elems(s)| == |s|
  {
    if |s| > 0 {
      assert Increasing(s[1..]);
      ElemsIncreasing(s[1..]);
      assert s[0] !in Elems(s[1..]);
      assert Elems(s) == {s[0]} + Elems(s[1..]);
    }
  }

  lemma SubsetSize(a: set<int>, b: set<int>)
    requires a <= b
    ensures |a| <= |b|
  {
    assert b == a + (b - a);
  }

  /** A list shorter than the interval [lo, hi) misses one of its values. */
  lemma Pigeonhole(s: seq<int>, lo: int, hi: int)
    requires |s| < hi - lo
    ensures exists v :: lo <= v < hi && v !in s
  {
    var all := Elems(Range(lo, hi));
    ElemsIncreasing(Range(lo, hi));
    ElemsSize(s);
    if all <= Elems(s) {
      SubsetSize(all, Elems(s));
      assert false;
    }
    var v :| v in all && v !in Elems(s);
    RangeMembers(lo, hi);
  }
}
