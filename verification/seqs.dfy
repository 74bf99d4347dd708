/** Sequence vocabulary used to state the search and filtering contracts:
    `Take` is what a LIMIT/k-bounded query returns, `Filter` is the
    order-preserving selection that every Go `for … { if p { append } }`
    loop in the repository computes. */
module Seqs {

  /** The first `k` elements of `s`, or all of `s` when it is shorter; a
      non-positive `k` takes nothing. */
  function Take<T>(s: seq<T>, k: int): (r: seq<T>)
    ensures r <= s
    ensures |r| == if k <= 0 then 0 else if k < |s| then k else |s|
  {
    if k <= 0 then [] else if k < |s| then s[..k] else s
  }

  /** The elements of `s` satisfying `p`, in their original order. */
  function Filter<T>(s: seq<T>, p: T -> bool): (r: seq<T>)
    ensures |r| <= |s|
    ensures forall i :: 0 <= i < |r| ==> p(r[i])
    decreases |s|
  {
    if |s| == 0 then []
    else (if p(s[0]) then [s[0]] else []) + Filter(s[1..], p)
  }

  /** `a` is obtained from `b` by deleting elements, keeping the rest in order. */
  ghost predicate Subsequence<T>(a: seq<T>, b: seq<T>)
    decreases |b|
  {
    if |a| == 0 then true
    else if |b| == 0 then false
    else if a[0] == b[0] then Subsequence(a[1..], b[1..])
    else Subsequence(a, b[1..])
  }

  /** Filtering distributes over concatenation: the selection of a
      concatenation is the concatenation of the selections, which is what
      "order-preserving" means. */
  lemma {:induction false} FilterConcat<T>(a: seq<T>, b: seq<T>, p: T -> bool)
    ensures Filter(a + b, p) == Filter(a, p) + Filter(b, p)
    decreases |a|
  {
    if |a| == 0 {
      assert a + b == b;
    } else {
      assert (a + b)[1..] == a[1..] + b;
      FilterConcat(a[1..], b, p);
    }
  }

  /** An element is selected exactly when it occurs in the input and passes. */
  lemma {:induction false} FilterMembership<T>(s: seq<T>, p: T -> bool, x: T)
    ensures x in Filter(s, p) <==> x in s && p(x)
    decreases |s|
  {
    if |s| > 0 {
      FilterMembership(s[1..], p, x);
      assert s == [s[0]] + s[1..];
    }
  }

  /** The selection is a subsequence of the input. */
  lemma {:induction false} FilterIsSubsequence<T>(s: seq<T>, p: T -> bool)
    ensures Subsequence(Filter(s, p), s)
    decreases |s|
  {
    if |s| > 0 {
      FilterIsSubsequence(s[1..], p);
      var rest := Filter(s[1..], p);
      if p(s[0]) {
        assert Filter(s, p) == [s[0]] + rest;
        assert Filter(s, p)[1..] == rest;
      } else {
        assert Filter(s, p) == rest;
        SubsequenceDropHead(rest, s);
      }
    }
  }

  /** A subsequence of a tail is a subsequence of the whole. */
  lemma {:induction false} SubsequenceDropHead<T>(a: seq<T>, b: seq<T>)
    requires |b| > 0
    requires Subsequence(a, b[1..])
    ensures Subsequence(a, b)
    decreases |a| + |b|
  {
    if |a| > 0 && a[0] == b[0] {
      SubsequenceTail(a, b[1..]);
    }
  }

  /** Dropping the first element of a subsequence keeps it a subsequence. */
  lemma {:induction false} SubsequenceTail<T>(a: seq<T>, b: seq<T>)
    requires |a| > 0
    requires Subsequence(a, b)
    ensures Subsequence(a[1..], b)
    decreases |a| + |b|
  {
    assert |b| > 0;
    if a[0] == b[0] {
      SubsequenceDropHead(a[1..], b);
    } else {
      SubsequenceTail(a, b[1..]);
      SubsequenceDropHead(a[1..], b);
    }
  }

  /** Selecting from a prefix yields a prefix of the full selection. */
  lemma FilterOfPrefix<T>(s: seq<T>, k: int, p: T -> bool)
    ensures Filter(Take(s, k), p) <= Filter(s, p)
  {
    var t := Take(s, k);
    assert s == t + s[|t|..];
    FilterConcat(t, s[|t|..], p);
  }

  /** Two sequences, one a prefix of the other, agree on their first `n`
      elements whenever the shorter one has at least `n`. */
  lemma TakeOfPrefix<T>(a: seq<T>, b: seq<T>, n: int)
    requires a <= b
    requires n <= |a|
    ensures Take(a, n) == Take(b, n)
  {
  }

  /** A prefix of a prefix is a prefix. */
  lemma PrefixTransitive<T>(a: seq<T>, b: seq<T>, c: seq<T>)
    requires a <= b && b <= c
    ensures a <= c
  {
  }

  /** The `for … { if p(x) { out = append(out, x) } }` loop: it computes the
      selection. */
  method SelectInOrder<T>(s: seq<T>, p: T -> bool) returns (r: seq<T>)
    ensures r == Filter(s, p)
  {
    r := [];
    for i := 0 to |s|
      invariant r == Filter(s[..i], p)
    {
      FilterConcat(s[..i], [s[i]], p);
      assert s[..i + 1] == s[..i] + [s[i]];
      if p(s[i]) {
        r := r + [s[i]];
      }
    }
    assert s[..|s|] == s;
  }

  /** Every finite non-empty set has an element on which `f` is largest. */
  lemma {:induction false} ArgMaxExists<K>(s: set<K>, f: K -> int)
    requires s != {}
    ensures exists m :: m in s && forall k :: k in s ==> f(k) <= f(m)
    decreases |s|
  {
    var x :| x in s;
    if s != {x} {
      var s' := s - {x};
      ArgMaxExists(s', f);
      var m :| m in s' && forall k :: k in s' ==> f(k) <= f(m);
      var best := if f(x) > f(m) then x else m;
      forall k | k in s
        ensures f(k) <= f(best)
      {
        if k != x {
          assert k in s';
        }
      }
      assert best in s;
    } else {
      forall k | k in s
        ensures f(k) <= f(x)
      {
        assert k in {x};
      }
    }
  }
}
