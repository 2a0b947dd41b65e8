/** Facts about sequences used throughout the model: order-preserving filtering,
    sub-lists, duplicate removal, positional replacement and cardinalities. */
module Seqs {

  /** No element occurs twice. */
  predicate Distinct<T(==,!new)>(s: seq<T>)
  {
    forall i, j :: 0 <= i < j < |s| ==> s[i] != s[j]
  }

  /** The set of elements of a sequence. */
  function Elems<T>(s: seq<T>): set<T>
  {
    set x | x in s
  }

  /** `Array.prototype.filter`: the elements satisfying `p`, in their order. */
  function Filter<T(==,!new)>(s: seq<T>, p: T -> bool): (r: seq<T>)
    ensures |r| <= |s|
    ensures forall x :: x in r <==> x in s && p(x)
  {
    if s == [] then [] else (if p(s[0]) then [s[0]] else []) + Filter(s[1..], p)
  }

  /** `s` without any copy of `x` (`filter(y => y !== x)`). */
  function Remove<T(==,!new)>(s: seq<T>, x: T): (r: seq<T>)
    ensures |r| <= |s|
    ensures forall y :: y in r <==> y in s && y != x
  {
    Filter(s, y => y != x)
  }

  /** `a` is an order-preserving sub-list of `b`. */
  predicate SubSeq<T(==,!new)>(a: seq<T>, b: seq<T>)
    decreases |b|
  {
    if b == [] then a == []
    else (a != [] && a[0] == b[0] && SubSeq(a[1..], b[1..])) || SubSeq(a, b[1..])
  }

  /** Every element of `s` replaced by `b` where it equals `a` (`map(c => c === a ? b : c)`). */
  function Replace<T(==,!new)>(s: seq<T>, a: T, b: T): (r: seq<T>)
    ensures |r| == |s|
    ensures forall i :: 0 <= i < |s| ==> r[i] == if s[i] == a then b else s[i]
  {
    seq(|s|, i requires 0 <= i < |s| => if s[i] == a then b else s[i])
  }

  /** Keeps the first occurrence of every element, as repeated insertion into an ordered
      dictionary does. */
  function Dedup<T(==,!new)>(s: seq<T>): (r: seq<T>)
    ensures Distinct(r)
    ensures forall x :: x in r <==> x in s
  {
    if s == [] then []
    else
      var d := Dedup(s[..|s| - 1]);
      if s[|s| - 1] in d then d else d + [s[|s| - 1]]
  }

  /** Number of occurrences of `x`. */
  function Count<T(==,!new)>(s: seq<T>, x: T): nat
  {
    multiset(s)[x]
  }

  lemma {:induction false} FilterAppend<T(!new)>(a: seq<T>, b: seq<T>, p: T -> bool)
    ensures Filter(a + b, p) == Filter(a, p) + Filter(b, p)
  {
    if a == [] {
      assert a + b == b;
    } else {
      assert (a + b)[1..] == a[1..] + b;
      FilterAppend(a[1..], b, p);
    }
  }

  /** Filtering a prefix one element longer. */
  lemma FilterSnoc<T(!new)>(s: seq<T>, i: nat, p: T -> bool)
    requires i < |s|
    ensures Filter(s[..i + 1], p) == Filter(s[..i], p) + (if p(s[i]) then [s[i]] else [])
  {
    assert s[..i + 1] == s[..i] + [s[i]];
    FilterAppend(s[..i], [s[i]], p);
    assert [s[i]][1..] == [];
  }

  /** The filter keeps every element exactly when all satisfy `p`, and none exactly when
      none does. */
  lemma {:induction false} FilterLength<T(!new)>(s: seq<T>, p: T -> bool)
    ensures |Filter(s, p)| == |s| <==> forall x :: x in s ==> p(x)
    ensures |Filter(s, p)| == 0 <==> forall x :: x in s ==> !p(x)
  {
    if s != [] {
      FilterLength(s[1..], p);
      assert forall x :: x in s <==> x == s[0] || x in s[1..];
    }
  }

  /** Filtering with a predicate that holds everywhere keeps the sequence. */
  lemma {:induction false} FilterAll<T(!new)>(s: seq<T>, p: T -> bool)
    requires forall x :: x in s ==> p(x)
    ensures Filter(s, p) == s
  {
    if s != [] {
      FilterAll(s[1..], p);
    }
  }

  /** Filtering with a predicate that holds nowhere gives the empty sequence. */
  lemma FilterNone<T(!new)>(s: seq<T>, p: T -> bool)
    requires forall x :: x in s ==> !p(x)
    ensures Filter(s, p) == []
  {
    if Filter(s, p) != [] {
      assert Filter(s, p)[0] in Filter(s, p);
    }
  }

  /** Two predicates that agree on the elements give the same filter. */
  lemma {:induction false} FilterAgree<T(!new)>(s: seq<T>, p: T -> bool, q: T -> bool)
    requires forall x :: x in s ==> p(x) == q(x)
    ensures Filter(s, p) == Filter(s, q)
  {
    if s != [] {
      FilterAgree(s[1..], p, q);
    }
  }

  /** The filter is an order-preserving sub-list. */
  lemma {:induction false} FilterSubSeq<T(!new)>(s: seq<T>, p: T -> bool)
    ensures SubSeq(Filter(s, p), s)
  {
    if s != [] {
      FilterSubSeq(s[1..], p);
      if p(s[0]) {
        assert Filter(s, p) == [s[0]] + Filter(s[1..], p);
        assert ([s[0]] + Filter(s[1..], p))[1..] == Filter(s[1..], p);
      } else {
        assert Filter(s, p) == Filter(s[1..], p);
      }
    }
  }

  /** Filtering keeps distinctness. */
  lemma {:induction false} FilterDistinct<T(!new)>(s: seq<T>, p: T -> bool)
    requires Distinct(s)
    ensures Distinct(Filter(s, p))
  {
    if s != [] {
      assert Distinct(s[1..]);
      FilterDistinct(s[1..], p);
      assert s[0] !in s[1..];
    }
  }

  /** Distinct sequences have as many elements as their set. */
  lemma {:induction false} DistinctCard<T(!new)>(s: seq<T>)
    requires Distinct(s)
    ensures |Elems(s)| == |s|
  {
    if s != [] {
      assert Distinct(s[1..]);
      DistinctCard(s[1..]);
      assert Elems(s) == Elems(s[1..]) + {s[0]};
      assert s[0] !in Elems(s[1..]);
    }
  }

  /** A sequence has at least as many positions as distinct elements. */
  lemma {:induction false} CardAtMost<T(!new)>(s: seq<T>)
    ensures |Elems(s)| <= |s|
  {
    if s != [] {
      CardAtMost(s[1..]);
      assert Elems(s) == Elems(s[1..]) + {s[0]};
    }
  }

  /** On a distinct sequence duplicate removal changes nothing. */
  lemma {:induction false} DedupDistinct<T(!new)>(s: seq<T>)
    requires Distinct(s)
    ensures Dedup(s) == s
  {
    if s != [] {
      var init := s[..|s| - 1];
      assert Distinct(init);
      DedupDistinct(init);
      assert s[|s| - 1] !in init;
      assert init + [s[|s| - 1]] == s;
    }
  }

  /** Replacing an element by one that does not occur keeps distinctness. */
  lemma ReplaceDistinct<T(!new)>(s: seq<T>, a: T, b: T)
    requires Distinct(s) && b !in s
    ensures Distinct(Replace(s, a, b))
  {
    var r := Replace(s, a, b);
    forall i, j | 0 <= i < j < |s| ensures r[i] != r[j] {
      assert s[i] != s[j];
      if s[i] == a { assert s[j] != a; assert r[j] == s[j]; }
      if s[j] == a { assert r[i] == s[i]; }
    }
  }

  /** Removing every copy of `x` from a sequence and appending one `x`. */
  lemma CountAppendFresh<T(!new)>(s: seq<T>, x: T)
    requires x !in s
    ensures Count(s + [x], x) == 1
  {
    assert multiset(s + [x]) == multiset(s) + multiset{x};
  }

  /** Removing an element keeps distinctness. */
  lemma RemoveDistinct<T(!new)>(s: seq<T>, x: T)
    requires Distinct(s)
    ensures Distinct(Remove(s, x))
  {
    FilterDistinct(s, y => y != x);
  }

  /** What `Replace` leaves in the sequence. */
  lemma ReplaceMembers<T(!new)>(s: seq<T>, a: T, b: T)
    ensures forall k :: k in Replace(s, a, b) <==> (k in s && k != a) || (k == b && a in s)
  {
    var r := Replace(s, a, b);
    forall k ensures k in r <==> (k in s && k != a) || (k == b && a in s) {
      if k in s && k != a {
        var i :| 0 <= i < |s| && s[i] == k;
        assert r[i] == k;
      }
      if k == b && a in s {
        var i :| 0 <= i < |s| && s[i] == a;
        assert r[i] == b;
      }
    }
  }

  /** `Replace` one element at a time. */
  lemma ReplaceSnoc<T(!new)>(s: seq<T>, x: T, a: T, b: T)
    ensures Replace(s + [x], a, b) == Replace(s, a, b) + [if x == a then b else x]
  {
  }

  /** `Dedup` one element at a time. */
  lemma DedupSnoc<T(!new)>(s: seq<T>, x: T)
    ensures Dedup(s + [x]) == if x in Dedup(s) then Dedup(s) else Dedup(s) + [x]
  {
    assert (s + [x])[..|s|] == s;
  }
}
