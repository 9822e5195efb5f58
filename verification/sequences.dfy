/** Generic facts about sequences used for the table operations: counting,
    order-preserving subsequences and boolean-mask selection (pandas'
    `df[mask]`). */
module Sequences {

  /** Number of elements of `s` that satisfy `p`. */
  function Count<T>(s: seq<T>, p: T -> bool): (n: nat)
    ensures n <= |s|
  {
    if s == [] then 0 else (if p(s[0]) then 1 else 0) + Count(s[1..], p)
  }

  lemma {:induction false} CountAppend<T>(a: seq<T>, b: seq<T>, p: T -> bool)
    ensures Count(a + b, p) == Count(a, p) + Count(b, p)
    decreases |a|
  {
    if a == [] {
      assert a + b == b;
    } else {
      assert (a + b)[1..] == a[1..] + b;
      CountAppend(a[1..], b, p);
    }
  }

  /** Counting does not depend on the order of the elements. */
  lemma {:induction false} CountPermutation<T>(a: seq<T>, b: seq<T>, p: T -> bool)
    requires multiset(a) == multiset(b)
    ensures Count(a, p) == Count(b, p)
    decreases |a|
  {
    if a == [] {
      assert |b| == |multiset(b)| == 0;
    } else {
      var h := a[0];
      assert h in multiset(b);
      var k :| 0 <= k < |b| && b[k] == h;
      var rest := b[..k] + b[k + 1..];
      assert b == b[..k] + ([h] + b[k + 1..]);
      assert multiset(b) == multiset(b[..k]) + multiset{h} + multiset(b[k + 1..]);
      assert multiset(rest) == multiset(b[..k]) + multiset(b[k + 1..]);
      assert a == [h] + a[1..];
      assert multiset(a) == multiset{h} + multiset(a[1..]);
      assert multiset(a[1..]) == multiset(a) - multiset{h};
      assert multiset(rest) == multiset(b) - multiset{h};
      CountPermutation(a[1..], rest, p);
      CountAppend(b[..k], [h] + b[k + 1..], p);
      CountAppend(b[..k], b[k + 1..], p);
      assert ([h] + b[k + 1..])[1..] == b[k + 1..];
    }
  }

  /** At least `j` elements satisfy `p` when the first `j` all do. */
  lemma {:induction false} CountPrefix<T>(s: seq<T>, p: T -> bool, j: nat)
    requires j <= |s|
    requires forall i :: 0 <= i < j ==> p(s[i])
    ensures Count(s, p) >= j
    decreases j
  {
    if j > 0 {
      CountPrefix(s[1..], p, j - 1);
    }
  }

  /** At least `|s| - k` elements satisfy `p` when every element from index `k` on does. */
  lemma CountSuffix<T>(s: seq<T>, p: T -> bool, k: nat)
    requires k <= |s|
    requires forall i :: k <= i < |s| ==> p(s[i])
    ensures Count(s, p) >= |s| - k
  {
    assert s == s[..k] + s[k..];
    CountAppend(s[..k], s[k..], p);
    CountPrefix(s[k..], p, |s| - k);
  }

  /** `a` is obtained from `b` by deleting elements, keeping the order of the rest. */
  predicate Subsequence<T(==)>(a: seq<T>, b: seq<T>)
    decreases |b|
  {
    if a == [] then true
    else if b == [] then false
    else (a[0] == b[0] && Subsequence(a[1..], b[1..])) || Subsequence(a, b[1..])
  }

  lemma {:induction false} SubsequenceMultiset<T>(a: seq<T>, b: seq<T>)
    requires Subsequence(a, b)
    ensures multiset(a) <= multiset(b)
    decreases |b|
  {
    if a != [] {
      assert b == [b[0]] + b[1..];
      if a[0] == b[0] && Subsequence(a[1..], b[1..]) {
        SubsequenceMultiset(a[1..], b[1..]);
        assert a == [a[0]] + a[1..];
      } else {
        SubsequenceMultiset(a, b[1..]);
      }
    }
  }

  /** The rows of `s` for which `p` holds, in their original order: the
      boolean-mask indexing `df[mask]`. */
  function Select<T(==,!new)>(s: seq<T>, p: T -> bool): (r: seq<T>)
    ensures Subsequence(r, s)
    ensures forall i :: 0 <= i < |r| ==> p(r[i])
    ensures forall x :: x in r <==> x in s && p(x)
    ensures forall x :: multiset(r)[x] == if p(x) then multiset(s)[x] else 0
    ensures |r| == Count(s, p)
    decreases |s|
  {
    if s == [] then []
    else
      assert s == [s[0]] + s[1..];
      if p(s[0]) then
        var r := [s[0]] + Select(s[1..], p);
        assert r[1..] == Select(s[1..], p);
        r
      else Select(s[1..], p)
  }

  /** `Select` is the only order-preserving subsequence of `s` that keeps every
      copy of every row satisfying `p` and no other row. */
  lemma {:induction false} SelectUnique<T(!new)>(r: seq<T>, s: seq<T>, p: T -> bool)
    requires Subsequence(r, s)
    requires forall x :: multiset(r)[x] == if p(x) then multiset(s)[x] else 0
    ensures r == Select(s, p)
    decreases |s|
  {
    if s == [] {
    } else {
      var h, t := s[0], s[1..];
      assert s == [h] + t;
      if p(h) {
        assert multiset(r)[h] > 0;
        assert r != [];
        if !(r[0] == h && Subsequence(r[1..], t)) {
          SubsequenceMultiset(r, t);
          assert false;
        }
        assert r == [h] + r[1..];
        forall x
          ensures multiset(r[1..])[x] == if p(x) then multiset(t)[x] else 0
        {
          if x == h {
            assert multiset(r[1..])[x] == multiset(r)[x] - 1;
          } else {
            assert multiset(r[1..])[x] == multiset(r)[x];
          }
        }
        SelectUnique(r[1..], t, p);
      } else {
        assert multiset(r)[h] == 0;
        if r != [] {
          assert r[0] in multiset(r);
          assert r[0] != h;
        }
        assert Subsequence(r, t);
        forall x
          ensures multiset(r)[x] == if p(x) then multiset(t)[x] else 0
        {
          if x != h {
            assert multiset(s)[x] == multiset(t)[x];
          }
        }
        SelectUnique(r, t, p);
      }
    }
  }

  lemma SubsequenceSkip<T>(a: seq<T>, h: T, b: seq<T>)
    requires Subsequence(a, b)
    ensures Subsequence(a, [h] + b)
  {
    if a != [] {
      assert ([h] + b)[1..] == b;
    }
  }

  /** A weaker mask selects a subsequence of what a stronger one selects. */
  lemma {:induction false} SelectMonotone<T(!new)>(s: seq<T>, p: T -> bool, q: T -> bool)
    requires forall x :: p(x) ==> q(x)
    ensures Subsequence(Select(s, p), Select(s, q))
    decreases |s|
  {
    if s != [] {
      SelectMonotone(s[1..], p, q);
      if !p(s[0]) && q(s[0]) {
        SubsequenceSkip(Select(s[1..], p), s[0], Select(s[1..], q));
      }
    }
  }

  /** Masks that agree on every row of `s` select the same rows. */
  lemma {:induction false} SelectCongruent<T(!new)>(s: seq<T>, p: T -> bool, q: T -> bool)
    requires forall i :: 0 <= i < |s| ==> p(s[i]) == q(s[i])
    ensures Select(s, p) == Select(s, q)
    decreases |s|
  {
    if s != [] {
      SelectCongruent(s[1..], p, q);
    }
  }

  /** A mask that holds on every row keeps the whole table. */
  lemma {:induction false} SelectAll<T(!new)>(s: seq<T>, p: T -> bool)
    requires forall i :: 0 <= i < |s| ==> p(s[i])
    ensures Select(s, p) == s
    decreases |s|
  {
    if s != [] {
      SelectAll(s[1..], p);
      assert s == [s[0]] + s[1..];
    }
  }
}
