/** Order-preserving selection over sequences, the one filtering concept the
    streaming operators, the window assigner, the ranker and the remote listing
    share. */
module Seqs {

  /** The elements of `s` that satisfy `p`, in their original order. */
  function Keep<X>(s: seq<X>, p: X -> bool): (r: seq<X>)
    ensures |r| <= |s|
    ensures forall x :: x in r ==> x in s && p(x)
  {
    if |s| == 0 then []
    else if p(s[0]) then [s[0]] + Keep(s[1..], p)
    else Keep(s[1..], p)
  }

  /** Keep loses no occurrence of a selected element and adds none: the
      multiplicity of every value is its multiplicity in `s` when it is
      selected, and zero otherwise. */
  lemma {:induction false} KeepCounts<X>(s: seq<X>, p: X -> bool)
    ensures forall x :: multiset(Keep(s, p))[x] == if p(x) then multiset(s)[x] else 0
  {
    if |s| > 0 {
      KeepCounts(s[1..], p);
      assert s == [s[0]] + s[1..];
    }
  }

  /** Every selected element of `s` is in the result. */
  lemma KeepComplete<X>(s: seq<X>, p: X -> bool, x: X)
    requires x in s && p(x)
    ensures x in Keep(s, p)
  {
    KeepCounts(s, p);
    assert multiset(Keep(s, p))[x] == multiset(s)[x];
  }

  /** Selection distributes over concatenation: filtering a stream chunk by
      chunk gives the same output as filtering it at once. */
  lemma {:induction false} KeepConcat<X>(a: seq<X>, b: seq<X>, p: X -> bool)
    ensures Keep(a + b, p) == Keep(a, p) + Keep(b, p)
  {
    if |a| > 0 {
      assert (a + b)[1..] == a[1..] + b;
      KeepConcat(a[1..], b, p);
    } else {
      assert a + b == b;
    }
  }

  /** A selection and its complement split `s` without loss. */
  lemma KeepPartition<X>(s: seq<X>, p: X -> bool, q: X -> bool)
    requires forall x :: q(x) == !p(x)
    ensures multiset(Keep(s, p)) + multiset(Keep(s, q)) == multiset(s)
    ensures |Keep(s, p)| + |Keep(s, q)| == |s|
  {
    KeepCounts(s, p);
    KeepCounts(s, q);
    var a, b := multiset(Keep(s, p)), multiset(Keep(s, q));
    forall x
      ensures a[x] + b[x] == multiset(s)[x]
    {
      assert q(x) == !p(x);
    }
    MultisetExt(a, b, multiset(s));
    assert |a + b| == |multiset(s)|;
  }

  lemma MultisetExt<X>(a: multiset<X>, b: multiset<X>, c: multiset<X>)
    requires forall x :: a[x] + b[x] == c[x]
    ensures a + b == c
  {
  }

  /** Selecting with `q` after selecting with a weaker `p` is selecting with `q`. */
  lemma {:induction false} KeepKeep<X>(s: seq<X>, p: X -> bool, q: X -> bool)
    requires forall x :: q(x) ==> p(x)
    ensures Keep(Keep(s, p), q) == Keep(s, q)
  {
    if |s| > 0 {
      KeepKeep(s[1..], p, q);
      if p(s[0]) {
        assert Keep(s, p)[1..] == Keep(s[1..], p);
      }
    }
  }

  /** Pairwise distinct images under `f`. */
  predicate InjectiveOn<X, Y(==)>(s: seq<X>, f: X -> Y) {
    forall i, j :: 0 <= i < j < |s| ==> f(s[i]) != f(s[j])
  }

  /** A selection of a sequence whose elements have distinct images keeps them distinct. */
  lemma {:induction false} KeepInjective<X, Y>(s: seq<X>, p: X -> bool, f: X -> Y)
    requires InjectiveOn(s, f)
    ensures InjectiveOn(Keep(s, p), f)
  {
    if |s| > 0 {
      assert InjectiveOn(s[1..], f);
      KeepInjective(s[1..], p, f);
      var k := Keep(s[1..], p);
      forall y | y in k
        ensures f(y) != f(s[0])
      {
        var j :| 0 <= j < |s[1..]| && s[1..][j] == y;
        assert s[j + 1] == y;
      }
      if p(s[0]) {
        var r := [s[0]] + k;
        forall i, j | 0 <= i < j < |r|
          ensures f(r[i]) != f(r[j])
        {
          if i == 0 {
            assert r[j] == k[j - 1];
            assert r[j] in k;
          } else {
            assert r[i] == k[i - 1] && r[j] == k[j - 1];
          }
        }
      }
    }
  }

  /** Selecting with a predicate every element satisfies keeps everything. */
  lemma {:induction false} KeepAll<X>(s: seq<X>, p: X -> bool)
    requires forall i :: 0 <= i < |s| ==> p(s[i])
    ensures Keep(s, p) == s
  {
    if |s| > 0 {
      KeepAll(s[1..], p);
      assert s == [s[0]] + s[1..];
    }
  }

  /** Selecting with a predicate no element satisfies keeps nothing. */
  lemma {:induction false} KeepNone<X>(s: seq<X>, p: X -> bool)
    requires forall i :: 0 <= i < |s| ==> !p(s[i])
    ensures Keep(s, p) == []
  {
    if |s| > 0 {
      KeepNone(s[1..], p);
    }
  }

  /** One step of Keep, for unfolding it on concrete sequences. */
  lemma KeepCons<X>(s: seq<X>, p: X -> bool)
    requires |s| > 0
    ensures Keep(s, p) == (if p(s[0]) then [s[0]] else []) + Keep(s[1..], p)
  {
  }
}
