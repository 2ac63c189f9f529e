/** Sequence combinators shared by the models: the `filter` and `some` of
    JavaScript arrays, and the subsequence relation used to state that a
    filter keeps the input order. */
module Seqs {

  /** `s.filter(p)`: the elements of `s` that satisfy `p`, in their order. */
  function Filter<T>(p: T -> bool, s: seq<T>): (r: seq<T>)
    ensures |r| <= |s|
    ensures forall i :: 0 <= i < |r| ==> p(r[i])
    decreases |s|
  {
    if s == [] then [] else (if p(s[0]) then [s[0]] else []) + Filter(p, s[1..])
  }

  /** `s.some(p)`: some element of `s` satisfies `p`. */
  predicate Any<T>(p: T -> bool, s: seq<T>)
  {
    exists i :: 0 <= i < |s| && p(s[i])
  }

  /** `a` is obtained from `b` by deleting elements, without reordering. */
  predicate IsSubsequence<T(==)>(a: seq<T>, b: seq<T>)
    decreases |b|
  {
    if a == [] then true
    else if b == [] then false
    else if a[0] == b[0] then IsSubsequence(a[1..], b[1..])
    else IsSubsequence(a, b[1..])
  }

  lemma {:induction false} FilterAppend<T>(p: T -> bool, s: seq<T>, t: seq<T>)
    ensures Filter(p, s + t) == Filter(p, s) + Filter(p, t)
    decreases |s|
  {
    if s == [] {
      assert s + t == t;
    } else {
      assert (s + t)[0] == s[0];
      assert (s + t)[1..] == s[1..] + t;
      FilterAppend(p, s[1..], t);
    }
  }

  /** Filtering the one-element sequence keeps it exactly when `p` holds. */
  lemma FilterSingleton<T>(p: T -> bool, x: T)
    ensures Filter(p, [x]) == if p(x) then [x] else []
  {
    assert [x][1..] == [];
  }

  /** Filtering keeps every satisfying element as often as it occurs, and
      nothing else. */
  lemma {:induction false} FilterMultiset<T>(p: T -> bool, s: seq<T>)
    ensures forall x :: multiset(Filter(p, s))[x] == if p(x) then multiset(s)[x] else 0
    decreases |s|
  {
    if s != [] {
      FilterMultiset(p, s[1..]);
      assert s == [s[0]] + s[1..];
      assert multiset(s) == multiset([s[0]]) + multiset(s[1..]);
    }
  }

  lemma FilterMembership<T>(p: T -> bool, s: seq<T>)
    ensures forall x :: x in Filter(p, s) <==> x in s && p(x)
  {
    FilterMultiset(p, s);
    forall x ensures x in Filter(p, s) <==> x in s && p(x) {
      assert x in Filter(p, s) <==> multiset(Filter(p, s))[x] > 0;
      assert x in s <==> multiset(s)[x] > 0;
    }
  }

  lemma {:induction false} FilterIsSubsequence<T>(p: T -> bool, s: seq<T>)
    ensures IsSubsequence(Filter(p, s), s)
    decreases |s|
  {
    if s != [] {
      FilterIsSubsequence(p, s[1..]);
      var rest := Filter(p, s[1..]);
      if p(s[0]) {
        assert Filter(p, s) == [s[0]] + rest;
        assert ([s[0]] + rest)[1..] == rest;
      } else {
        assert Filter(p, s) == rest;
        SubsequenceOfTail(rest, s);
      }
    }
  }

  /** Putting one more element in front of `b` keeps `a` a subsequence. */
  lemma {:induction false} SubsequenceOfTail<T>(a: seq<T>, b: seq<T>)
    requires b != [] && IsSubsequence(a, b[1..])
    ensures IsSubsequence(a, b)
    decreases |b|, 0
  {
    if a != [] && a[0] == b[0] {
      SubsequenceDropHead(a, b[1..]);
    }
  }

  /** Dropping the first element of a subsequence keeps it a subsequence. */
  lemma {:induction false} SubsequenceDropHead<T>(a: seq<T>, b: seq<T>)
    requires a != [] && IsSubsequence(a, b)
    ensures IsSubsequence(a[1..], b)
    decreases |b|, 1
  {
    if a[0] == b[0] {
      SubsequenceOfTail(a[1..], b);
    } else {
      SubsequenceDropHead(a, b[1..]);
      SubsequenceOfTail(a[1..], b);
    }
  }

  /** A filter keeps everything exactly when every element satisfies `p`. */
  lemma {:induction false} FilterKeepsAll<T>(p: T -> bool, s: seq<T>)
    requires forall i :: 0 <= i < |s| ==> p(s[i])
    ensures Filter(p, s) == s
    decreases |s|
  {
    if s != [] {
      FilterKeepsAll(p, s[1..]);
    }
  }

  lemma ElementOfFilter<T>(p: T -> bool, s: seq<T>, x: T)
    requires x in Filter(p, s)
    ensures x in s && p(x)
  {
    FilterMultiset(p, s);
    assert multiset(Filter(p, s))[x] > 0;
  }

  /** A filter is empty exactly when no element satisfies `p`. */
  lemma {:induction false} FilterEmpty<T>(p: T -> bool, s: seq<T>)
    ensures Filter(p, s) == [] <==> !Any(p, s)
  {
    FilterMembership(p, s);
    if Filter(p, s) != [] {
      var x := Filter(p, s)[0];
      ElementOfFilter(p, s, x);
      var i :| 0 <= i < |s| && s[i] == x;
      assert p(s[i]);
    }
  }

  /** Filtering by `q` after `p` is filtering by both at once. */
  lemma {:induction false} FilterFilter<T>(p: T -> bool, q: T -> bool, pq: T -> bool, s: seq<T>)
    requires forall x :: pq(x) == (p(x) && q(x))
    ensures Filter(q, Filter(p, s)) == Filter(pq, s)
    decreases |s|
  {
    if s != [] {
      FilterFilter(p, q, pq, s[1..]);
      var head := if p(s[0]) then [s[0]] else [];
      FilterAppend(q, head, Filter(p, s[1..]));
      if p(s[0]) {
        FilterSingleton(q, s[0]);
      }
    }
  }

  /** No element of `s` occurs twice. */
  predicate Distinct<T(==)>(s: seq<T>)
  {
    forall i, j :: 0 <= i < j < |s| ==> s[i] != s[j]
  }

  /** A sequence repeats no element exactly when each element occurs at
      most once in its multiset. */
  lemma {:induction false} DistinctMultiset<T>(s: seq<T>)
    ensures Distinct(s) <==> forall x :: multiset(s)[x] <= 1
    decreases |s|
  {
    if s != [] {
      var t := s[1..];
      DistinctMultiset(t);
      assert s == [s[0]] + t;
      assert multiset(s) == multiset{s[0]} + multiset(t);
      if Distinct(s) {
        assert Distinct(t) by {
          forall i, j | 0 <= i < j < |t| ensures t[i] != t[j] {
            assert t[i] == s[i + 1] && t[j] == s[j + 1];
          }
        }
      }
      if forall x :: multiset(s)[x] <= 1 {
        assert forall x :: multiset(t)[x] <= multiset(s)[x];
        assert s[0] !in multiset(t);
        forall i, j | 0 <= i < j < |s| ensures s[i] != s[j] {
          if i == 0 {
            assert s[j] == t[j - 1];
          } else {
            assert s[i] == t[i - 1] && s[j] == t[j - 1];
          }
        }
      }
    }
  }

  /** A sequence without repetition has as many elements as its set. */
  lemma {:induction false} DistinctCardinality<T>(s: seq<T>)
    requires Distinct(s)
    ensures |set x | x in s| == |s|
    decreases |s|
  {
    if s != [] {
      var t := s[1..];
      assert Distinct(t) by {
        forall i, j | 0 <= i < j < |t| ensures t[i] != t[j] {
          assert t[i] == s[i + 1] && t[j] == s[j + 1];
        }
      }
      DistinctCardinality(t);
      assert (set x | x in s) == (set x | x in t) + {s[0]} by {
        assert s == [s[0]] + t;
      }
    }
  }

  /** A filter of a sequence without repetition repeats nothing. */
  lemma FilterDistinct<T>(p: T -> bool, s: seq<T>)
    requires Distinct(s)
    ensures Distinct(Filter(p, s))
  {
    DistinctMultiset(s);
    FilterMultiset(p, s);
    DistinctMultiset(Filter(p, s));
  }

  /** The positions of `s` whose element satisfies `p`. */
  function Positions<T>(p: T -> bool, s: seq<T>): set<int>
  {
    set i | 0 <= i < |s| && p(s[i])
  }

  /** One more element adds its position when it satisfies `p`. */
  lemma PositionsSnoc<T>(p: T -> bool, s: seq<T>, x: T)
    ensures Positions(p, s + [x]) == Positions(p, s) + (if p(x) then {|s|} else {})
  {
    var t := s + [x];
    forall i | 0 <= i < |s| ensures t[i] == s[i] { }
  }

  /** The length of a filter is the number of positions whose element
      satisfies `p`. */
  lemma {:induction false} FilterCountsPositions<T>(p: T -> bool, s: seq<T>)
    ensures |Filter(p, s)| == |Positions(p, s)|
    decreases |s|
  {
    if s != [] {
      var front := s[..|s| - 1];
      var last := s[|s| - 1];
      assert s == front + [last];
      FilterCountsPositions(p, front);
      FilterAppend(p, front, [last]);
      FilterSingleton(p, last);
      PositionsSnoc(p, front, last);
      var added: set<int> := if p(last) then {|front|} else {};
      assert Positions(p, front) !! added;
    }
  }

  /** `some` over a filter: an element satisfying both predicates exists. */
  lemma AnyOfFilter<T>(p: T -> bool, q: T -> bool, s: seq<T>)
    ensures Any(q, Filter(p, s)) <==> exists i :: 0 <= i < |s| && p(s[i]) && q(s[i])
  {
    FilterMembership(p, s);
    if Any(q, Filter(p, s)) {
      var j :| 0 <= j < |Filter(p, s)| && q(Filter(p, s)[j]);
      var x := Filter(p, s)[j];
      assert x in s;
      var i :| 0 <= i < |s| && s[i] == x;
      assert p(s[i]) && q(s[i]);
    }
    if exists i :: 0 <= i < |s| && p(s[i]) && q(s[i]) {
      var i :| 0 <= i < |s| && p(s[i]) && q(s[i]);
      assert s[i] in Filter(p, s);
      var j :| 0 <= j < |Filter(p, s)| && Filter(p, s)[j] == s[i];
      assert q(Filter(p, s)[j]);
    }
  }
}
