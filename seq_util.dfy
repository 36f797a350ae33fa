/** Generic sequence helpers: index gathering, flattening, counting, ranges. */
module SeqUtil {

  /** [0, 1, ..., n-1] */
  function Range(n: nat): (r: seq<nat>)
    ensures |r| == n
    ensures forall k :: 0 <= k < n ==> r[k] == k
  {
    seq(n, k => k)
  }

  /** Every index of `ix` is a valid position of a sequence of length `n`. */
  predicate IndicesIn(ix: seq<nat>, n: nat)
  {
    forall k :: 0 <= k < |ix| ==> ix[k] < n
  }

  /** `s[ix[0]], s[ix[1]], ...`: numpy fancy indexing `v[idx]`. */
  function Gather<T>(s: seq<T>, ix: seq<nat>): (r: seq<T>)
    requires IndicesIn(ix, |s|)
    ensures |r| == |ix|
    ensures forall k :: 0 <= k < |ix| ==> r[k] == s[ix[k]]
  {
    seq(|ix|, k requires 0 <= k < |ix| => s[ix[k]])
  }

  lemma GatherSlice<T>(s: seq<T>, ix: seq<nat>, a: nat, b: nat)
    requires IndicesIn(ix, |s|) && a <= b <= |ix|
    ensures IndicesIn(ix[a..b], |s|)
    ensures Gather(s, ix)[a..b] == Gather(s, ix[a..b])
  {
  }

  lemma GatherConcat<T>(s: seq<T>, ix: seq<nat>, jx: seq<nat>)
    requires IndicesIn(ix, |s|) && IndicesIn(jx, |s|)
    ensures IndicesIn(ix + jx, |s|)
    ensures Gather(s, ix) + Gather(s, jx) == Gather(s, ix + jx)
  {
  }

  lemma GatherGather<T>(s: seq<T>, ix: seq<nat>, jx: seq<nat>)
    requires IndicesIn(ix, |s|) && IndicesIn(jx, |ix|)
    ensures IndicesIn(Gather(ix, jx), |s|)
    ensures Gather(Gather(s, ix), jx) == Gather(s, Gather(ix, jx))
  {
  }

  /** Concatenation of a sequence of sequences, in order. */
  function Flatten<T>(ss: seq<seq<T>>): (r: seq<T>)
    decreases |ss|
  {
    if ss == [] then [] else Flatten(ss[..|ss| - 1]) + ss[|ss| - 1]
  }

  /** Sum of the lengths of `ss`. */
  function TotalLength<T>(ss: seq<seq<T>>): nat
    decreases |ss|
  {
    if ss == [] then 0 else TotalLength(ss[..|ss| - 1]) + |ss[|ss| - 1]|
  }

  lemma {:induction false} FlattenLength<T>(ss: seq<seq<T>>)
    ensures |Flatten(ss)| == TotalLength(ss)
    decreases |ss|
  {
    if ss != [] { FlattenLength(ss[..|ss| - 1]); }
  }

  lemma {:induction false} FlattenAppend<T>(ss: seq<seq<T>>, t: seq<seq<T>>)
    ensures Flatten(ss + t) == Flatten(ss) + Flatten(t)
    decreases |t|
  {
    if t == [] {
      assert ss + t == ss;
    } else {
      var u := ss + t;
      var n := |t| - 1;
      assert u[..|u| - 1] == ss + t[..n];
      assert u[|u| - 1] == t[n];
      assert Flatten(u) == Flatten(ss + t[..n]) + t[n];
      FlattenAppend(ss, t[..n]);
      assert Flatten(t) == Flatten(t[..n]) + t[n];
    }
  }

  lemma {:induction false} FlattenMember<T>(ss: seq<seq<T>>, x: T)
    ensures x in Flatten(ss) <==> exists k :: 0 <= k < |ss| && x in ss[k]
    decreases |ss|
  {
    if ss != [] {
      var init := ss[..|ss| - 1];
      FlattenMember(init, x);
      assert forall k :: 0 <= k < |init| ==> init[k] == ss[k];
    }
  }

  /** Block `k` of `ss` sits in `Flatten(ss)` at offset `TotalLength(ss[..k])`. */
  lemma {:induction false} FlattenBlock<T>(ss: seq<seq<T>>, k: nat)
    requires k < |ss|
    ensures TotalLength(ss[..k]) + |ss[k]| <= |Flatten(ss)|
    ensures Flatten(ss)[TotalLength(ss[..k])..TotalLength(ss[..k]) + |ss[k]|] == ss[k]
  {
    var pre, post := ss[..k], ss[k + 1..];
    assert ss == pre + [ss[k]] + post;
    FlattenAppend(pre + [ss[k]], post);
    FlattenAppend(pre, [ss[k]]);
    assert [ss[k]][..0] == [];
    assert Flatten([ss[k]]) == ss[k];
    FlattenLength(pre);
  }

  /** Number of occurrences of `x` in `s`. */
  function Occ<T(==)>(s: seq<T>, x: T): nat
    decreases |s|
  {
    if s == [] then 0 else Occ(s[..|s| - 1], x) + (if s[|s| - 1] == x then 1 else 0)
  }

  lemma {:induction false} OccAppend<T>(s: seq<T>, t: seq<T>, x: T)
    ensures Occ(s + t, x) == Occ(s, x) + Occ(t, x)
    decreases |t|
  {
    if t == [] {
      assert s + t == s;
    } else {
      assert (s + t)[..|s + t| - 1] == s + t[..|t| - 1];
      OccAppend(s, t[..|t| - 1], x);
    }
  }

  lemma {:induction false} OccZero<T>(s: seq<T>, x: T)
    ensures Occ(s, x) == 0 <==> x !in s
    decreases |s|
  {
    if s != [] {
      OccZero(s[..|s| - 1], x);
      assert s == s[..|s| - 1] + [s[|s| - 1]];
    }
  }

  /** `s` has no repeated element. */
  predicate NoDup<T(==)>(s: seq<T>)
  {
    forall a, b :: 0 <= a < b < |s| ==> s[a] != s[b]
  }

  lemma {:induction false} NoDupMultiset<T>(s: seq<T>, x: T)
    requires NoDup(s)
    ensures multiset(s)[x] == if x in s then 1 else 0
    decreases |s|
  {
    if s != [] {
      var init := s[..|s| - 1];
      assert s == init + [s[|s| - 1]];
      NoDupMultiset(init, x);
    }
  }

  /** Two duplicate-free sequences with the same elements are permutations of each other. */
  lemma NoDupSameElements<T>(s: seq<T>, t: seq<T>)
    requires NoDup(s) && NoDup(t)
    requires forall x :: x in s <==> x in t
    ensures multiset(s) == multiset(t)
  {
    forall x ensures multiset(s)[x] == multiset(t)[x] {
      NoDupMultiset(s, x);
      NoDupMultiset(t, x);
    }
  }

  /** Strictly increasing, hence free of repeats. */
  predicate Increasing(s: seq<int>)
  {
    forall a, b :: 0 <= a < b < |s| ==> s[a] < s[b]
  }

  /** Two increasing sequences with the same elements are equal. */
  lemma {:induction false} IncreasingUnique(a: seq<int>, b: seq<int>)
    requires Increasing(a) && Increasing(b)
    ensures (forall y :: y in a <==> y in b) ==> a == b
    decreases |a|
  {
    if a != [] && b != [] {
      if forall y :: y in a <==> y in b {
        assert a[0] == b[0] by {
          assert b[0] in a && a[0] in b;
        }
        forall y ensures y in a[1..] <==> y in b[1..] {
          if y in a[1..] {
            assert y in b && y != b[0];
          }
          if y in b[1..] {
            assert y in a && y != a[0];
          }
        }
        IncreasingUnique(a[1..], b[1..]);
        assert a == [a[0]] + a[1..] && b == [b[0]] + b[1..];
      }
    } else if a != [] {
      assert a[0] in a && a[0] !in b;
    } else if b != [] {
      assert b[0] in b && b[0] !in a;
    }
  }

  lemma {:induction false} OccMultiset<T>(s: seq<T>, x: T)
    ensures Occ(s, x) == multiset(s)[x]
    decreases |s|
  {
    if s != [] {
      OccMultiset(s[..|s| - 1], x);
      assert s == s[..|s| - 1] + [s[|s| - 1]];
    }
  }

  /** Cancelling one element from both sides of a multiset equation. */
  lemma MultisetCancel<T>(a: multiset<T>, b: multiset<T>, x: T)
    requires a + multiset{x} == b + multiset{x}
    ensures a == b
  {
    forall y ensures a[y] == b[y] {
      assert (a + multiset{x})[y] == (b + multiset{x})[y];
    }
  }

  /** Taking out position `p` of `jx`, before and after gathering. */
  lemma GatherRemove<T>(s: seq<T>, jx: seq<nat>, p: nat)
    requires IndicesIn(jx, |s|) && p < |jx|
    ensures IndicesIn(jx[..p] + jx[p + 1..], |s|)
    ensures multiset(jx) == multiset(jx[..p] + jx[p + 1..]) + multiset{jx[p]}
    ensures multiset(Gather(s, jx)) == multiset(Gather(s, jx[..p] + jx[p + 1..])) + multiset{s[jx[p]]}
  {
    var rest := jx[..p] + jx[p + 1..];
    assert jx == jx[..p] + [jx[p]] + jx[p + 1..];
    var g := Gather(s, jx);
    assert g == g[..p] + [g[p]] + g[p + 1..];
    assert Gather(s, rest) == g[..p] + g[p + 1..];
  }

  /** Gathering by two index lists that are permutations of each other gives permutations of each other. */
  lemma {:induction false} GatherPerm<T>(s: seq<T>, ix: seq<nat>, jx: seq<nat>)
    requires IndicesIn(ix, |s|) && IndicesIn(jx, |s|)
    requires multiset(ix) == multiset(jx)
    ensures multiset(Gather(s, ix)) == multiset(Gather(s, jx))
    decreases |ix|
  {
    if ix == [] {
      assert |jx| == |multiset(jx)| == 0;
    } else {
      var m := |ix| - 1;
      var x := ix[m];
      assert x in multiset(jx) by {
        assert x in multiset(ix);
      }
      var p :| 0 <= p < |jx| && jx[p] == x;
      var rest := jx[..p] + jx[p + 1..];
      GatherRemove(s, jx, p);
      GatherRemove(s, ix, m);
      assert ix[..m] + ix[m + 1..] == ix[..m];
      MultisetCancel(multiset(ix[..m]), multiset(rest), x);
      GatherPerm(s, ix[..m], rest);
    }
  }
}
