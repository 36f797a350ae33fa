/**
 * `_split_dataset` of data/loader.py: a stable argsort by label, written back
 * into the pool, then a per-class cut of each label's block into a train part
 * and a val part.
 */
module Stratify {
  import opened Wrappers
  import opened SeqUtil
  import opened Pools

  // ---------------------------------------------------------------------
  // The distinct labels in ascending order (`np.unique`).
  // ---------------------------------------------------------------------

  function Insert(s: seq<int>, x: int): (r: seq<int>)
    requires Increasing(s)
    ensures Increasing(r)
    ensures forall y :: y in r <==> y in s || y == x
    decreases |s|
  {
    if s == [] then [x]
    else if x < s[0] then [x] + s
    else if x == s[0] then s
    else
      assert Increasing(s[1..]);
      var rest := Insert(s[1..], x);
      assert forall y :: y in s[1..] ==> s[0] < y;
      assert forall j :: 0 <= j < |rest| ==> s[0] < rest[j] by {
        assert forall j :: 0 <= j < |rest| ==> rest[j] in rest;
      }
      [s[0]] + rest
  }

  /** The sorted list of distinct labels. */
  function Classes(labels: seq<int>): (cs: seq<int>)
    ensures Increasing(cs)
    ensures forall y :: y in cs <==> y in labels
    decreases |labels|
  {
    if labels == [] then []
    else
      var n := |labels| - 1;
      assert labels == labels[..n] + [labels[n]];
      Insert(Classes(labels[..n]), labels[n])
  }

  /** `np.unique(labels, return_counts=True)`: each distinct label with its number of rows. */
  function UniqueCounts(labels: seq<int>): (u: seq<(int, nat)>)
  {
    var cs := Classes(labels);
    seq(|cs|, k requires 0 <= k < |cs| => (cs[k], Occ(labels, cs[k])))
  }

  // ---------------------------------------------------------------------
  // Specification of the stable argsort.
  // ---------------------------------------------------------------------

  /** The rows holding label `c`, in increasing order. */
  function IndicesWith(labels: seq<int>, c: int): (r: seq<nat>)
    ensures IndicesIn(r, |labels|) && Increasing(r)
    ensures forall j :: 0 <= j < |r| ==> labels[r[j]] == c
    ensures forall i: nat :: i in r <==> i < |labels| && labels[i] == c
    ensures |r| == Occ(labels, c)
    decreases |labels|
  {
    if labels == [] then []
    else
      var n := |labels| - 1;
      var init := IndicesWith(labels[..n], c);
      if labels[n] == c then init + [n] else init
  }

  /** One block of row indices per class, the classes in ascending order. */
  function Groups(labels: seq<int>): seq<seq<nat>>
  {
    var cs := Classes(labels);
    seq(|cs|, k requires 0 <= k < |cs| => IndicesWith(labels, cs[k]))
  }

  /** `np.argsort(labels, kind="stable")`: the blocks of every class, one after the other. */
  function ArgSort(labels: seq<int>): (ix: seq<nat>)
    ensures IndicesIn(ix, |labels|)
  {
    FlattenIndicesIn(Groups(labels), |labels|);
    Flatten(Groups(labels))
  }

  /** Row `i` comes before row `j` in a stable sort by label. */
  predicate Before(labels: seq<int>, i: nat, j: nat)
    requires i < |labels| && j < |labels|
  {
    labels[i] < labels[j] || (labels[i] == labels[j] && i < j)
  }

  /** `ix` lists rows by ascending label, and rows of one label in their original order. */
  predicate StablySorted(labels: seq<int>, ix: seq<nat>)
    requires IndicesIn(ix, |labels|)
  {
    forall a, b :: 0 <= a < b < |ix| ==> Before(labels, ix[a], ix[b])
  }

  /** Blocks of rows, block k holding only label `cs[k]` in increasing row order. */
  predicate LabelledBlocks(labels: seq<int>, cs: seq<int>, bs: seq<seq<nat>>)
  {
    |bs| == |cs|
    && forall k :: 0 <= k < |bs| ==>
         IndicesIn(bs[k], |labels|) && Increasing(bs[k])
         && forall j :: 0 <= j < |bs[k]| ==> labels[bs[k][j]] == cs[k]
  }

  /** A stably sorted list followed by a block of one larger label, in row order, stays stably sorted. */
  lemma AppendBlockSorted(labels: seq<int>, f0: seq<nat>, b: seq<nat>, x: int)
    requires IndicesIn(f0, |labels|) && IndicesIn(b, |labels|)
    requires StablySorted(labels, f0)
    requires forall j :: 0 <= j < |f0| ==> labels[f0[j]] < x
    requires Increasing(b) && forall j :: 0 <= j < |b| ==> labels[b[j]] == x
    ensures IndicesIn(f0 + b, |labels|)
    ensures StablySorted(labels, f0 + b)
  {
    var f := f0 + b;
    forall i, j | 0 <= i < j < |f| ensures Before(labels, f[i], f[j]) {
      if j < |f0| {
        assert f[i] == f0[i] && f[j] == f0[j];
      } else if i >= |f0| {
        assert f[i] == b[i - |f0|] && f[j] == b[j - |f0|];
      } else {
        assert f[i] == f0[i] && f[j] == b[j - |f0|];
      }
    }
  }

  /** Concatenating such blocks for ascending classes gives a stably sorted list. */
  lemma {:induction false} BlocksSorted(labels: seq<int>, cs: seq<int>, bs: seq<seq<nat>>)
    requires Increasing(cs) && LabelledBlocks(labels, cs, bs)
    ensures IndicesIn(Flatten(bs), |labels|)
    ensures StablySorted(labels, Flatten(bs))
    ensures forall j :: 0 <= j < |Flatten(bs)| ==> labels[Flatten(bs)[j]] in cs
    decreases |bs|
  {
    FlattenIndicesIn(bs, |labels|);
    if bs != [] {
      var m := |bs| - 1;
      assert LabelledBlocks(labels, cs[..m], bs[..m]);
      assert Increasing(cs[..m]);
      BlocksSorted(labels, cs[..m], bs[..m]);
      var f0 := Flatten(bs[..m]);
      FlattenIndicesIn(bs[..m], |labels|);
      forall j | 0 <= j < |f0| ensures labels[f0[j]] < cs[m] && labels[f0[j]] in cs {
        var t :| 0 <= t < m && cs[..m][t] == labels[f0[j]];
        assert cs[t] < cs[m];
      }
      AppendBlockSorted(labels, f0, bs[m], cs[m]);
      var f := Flatten(bs);
      assert f == f0 + bs[m];
      forall j | 0 <= j < |f| ensures labels[f[j]] in cs {
        if j < |f0| {
          assert f[j] == f0[j];
        } else {
          assert f[j] == bs[m][j - |f0|];
        }
      }
    }
  }

  lemma GroupsLabelled(labels: seq<int>)
    ensures LabelledBlocks(labels, Classes(labels), Groups(labels))
  {
  }

  /** The argsort lists rows by ascending label, rows of equal label in their original order. */
  lemma ArgSortStable(labels: seq<int>)
    ensures StablySorted(labels, ArgSort(labels))
  {
    GroupsLabelled(labels);
    BlocksSorted(labels, Classes(labels), Groups(labels));
  }

  /** The argsort lists every row. */
  lemma ArgSortMembers(labels: seq<int>)
    ensures forall i: nat :: i in ArgSort(labels) <==> i < |labels|
  {
    var gs := Groups(labels);
    var cs := Classes(labels);
    assert ArgSort(labels) == Flatten(gs);
    forall i: nat ensures i in Flatten(gs) <==> i < |labels| {
      FlattenMember(gs, i);
      if i < |labels| {
        assert labels[i] in cs by {
          assert labels[i] in labels;
        }
        var k :| 0 <= k < |cs| && cs[k] == labels[i];
        assert i in gs[k] by {
          assert gs[k] == IndicesWith(labels, cs[k]);
        }
      }
    }
  }

  /** A stably sorted list names no row twice. */
  lemma SortedNoDup(labels: seq<int>, ix: seq<nat>)
    requires IndicesIn(ix, |labels|) && StablySorted(labels, ix)
    ensures NoDup(ix)
  {
    forall a, b | 0 <= a < b < |ix| ensures ix[a] != ix[b] {
      assert Before(labels, ix[a], ix[b]);
    }
  }

  /** The argsort is a permutation of the rows. */
  lemma ArgSortPermutation(labels: seq<int>)
    ensures multiset(ArgSort(labels)) == multiset(Range(|labels|))
    ensures |ArgSort(labels)| == |labels|
  {
    ArgSortStable(labels);
    SortedNoDup(labels, ArgSort(labels));
    ArgSortMembers(labels);
    var r := Range(|labels|);
    assert NoDup(r);
    forall x: nat ensures x in ArgSort(labels) <==> x in r {
      if x < |labels| {
        assert r[x] == x;
      }
    }
    NoDupSameElements(ArgSort(labels), r);
    assert |multiset(ArgSort(labels))| == |multiset(r)|;
  }

  /** A pool has classes exactly when it has rows. */
  lemma NoClassesNoRows(labels: seq<int>)
    ensures |Classes(labels)| == 0 <==> labels == []
  {
    if labels != [] {
      assert labels[0] in Classes(labels);
    }
  }

  /** The labels read in argsort order are the same labels, counted alike. */
  lemma SortedMultiset(labels: seq<int>)
    ensures multiset(Gather(labels, ArgSort(labels))) == multiset(labels)
  {
    var r := Range(|labels|);
    ArgSortPermutation(labels);
    GatherPerm(labels, ArgSort(labels), r);
    assert Gather(labels, r) == labels;
  }

  /** The labels in argsort order have the same classes, each with the size of its block. */
  lemma SortedLabelCounts(labels: seq<int>)
    ensures multiset(Gather(labels, ArgSort(labels))) == multiset(labels)
    ensures |UniqueCounts(Gather(labels, ArgSort(labels)))| == |Groups(labels)|
    ensures forall k :: 0 <= k < |Groups(labels)| ==>
      UniqueCounts(Gather(labels, ArgSort(labels)))[k].1 == |Groups(labels)[k]|
  {
    var s := Gather(labels, ArgSort(labels));
    SortedMultiset(labels);
    forall y ensures y in s <==> y in labels {
      assert y in s <==> multiset(s)[y] > 0;
      assert y in labels <==> multiset(labels)[y] > 0;
    }
    IncreasingUnique(Classes(s), Classes(labels));
    assert Classes(s) == Classes(labels);
    forall k | 0 <= k < |Groups(labels)|
      ensures UniqueCounts(s)[k].1 == |Groups(labels)[k]|
    {
      var c := Classes(labels)[k];
      OccMultiset(s, c);
      OccMultiset(labels, c);
    }
  }

  // ---------------------------------------------------------------------
  // Specification of the per-class cut.
  // ---------------------------------------------------------------------

  /**
   * `int(finetune_split * n)` for a ratio `p/q` in [0, 1]: the number of
   * rows of a class of `n` rows that go to train.
   */
  function Cut(n: nat, p: nat, q: nat): (c: nat)
    requires 0 < q && p <= q
    ensures c <= n
  {
    CutBelow(n, p, q);
    p * n / q
  }

  lemma CutBelow(n: nat, p: nat, q: nat)
    requires 0 < q && p <= q
    ensures p * n / q <= n
  {
    assert p * n <= q * n;
    assert (q * n) / q == n;
  }

  /** The cut is the exact floor of `n * p / q`, that is `int(r * n)` for `r = p / q` computed exactly. */
  lemma CutIsFloor(n: nat, p: nat, q: nat)
    requires 0 < q && p <= q
    ensures Cut(n, p, q) * q <= p * n < (Cut(n, p, q) + 1) * q
  {
  }

  /** The first `Cut` rows of each block. */
  function Heads(gs: seq<seq<nat>>, p: nat, q: nat): (hs: seq<seq<nat>>)
    requires 0 < q && p <= q
    ensures |hs| == |gs| && forall k :: 0 <= k < |gs| ==> hs[k] == gs[k][..Cut(|gs[k]|, p, q)]
  {
    seq(|gs|, k requires 0 <= k < |gs| => gs[k][..Cut(|gs[k]|, p, q)])
  }

  /** The remaining rows of each block. */
  function Tails(gs: seq<seq<nat>>, p: nat, q: nat): (ts: seq<seq<nat>>)
    requires 0 < q && p <= q
    ensures |ts| == |gs| && forall k :: 0 <= k < |gs| ==> ts[k] == gs[k][Cut(|gs[k]|, p, q)..]
  {
    seq(|gs|, k requires 0 <= k < |gs| => gs[k][Cut(|gs[k]|, p, q)..])
  }

  /** The rows sent to train, in output order. */
  function TrainIdx(labels: seq<int>, p: nat, q: nat): (ix: seq<nat>)
    requires 0 < q && p <= q
    ensures IndicesIn(ix, |labels|)
  {
    var hs := Heads(Groups(labels), p, q);
    FlattenIndicesIn(hs, |labels|);
    Flatten(hs)
  }

  /** The rows sent to val, in output order. */
  function ValIdx(labels: seq<int>, p: nat, q: nat): (ix: seq<nat>)
    requires 0 < q && p <= q
    ensures IndicesIn(ix, |labels|)
  {
    var ts := Tails(Groups(labels), p, q);
    FlattenIndicesIn(ts, |labels|);
    Flatten(ts)
  }

  /** A slice of a labelled block is a labelled block of the same class. */
  lemma SliceLabelled(labels: seq<int>, b: seq<nat>, c: int, lo: nat, hi: nat)
    requires lo <= hi <= |b|
    requires IndicesIn(b, |labels|) && Increasing(b)
    requires forall j :: 0 <= j < |b| ==> labels[b[j]] == c
    ensures IndicesIn(b[lo..hi], |labels|) && Increasing(b[lo..hi])
    ensures forall j :: 0 <= j < |b[lo..hi]| ==> labels[b[lo..hi][j]] == c
  {
    assert forall j :: 0 <= j < hi - lo ==> b[lo..hi][j] == b[lo + j];
  }

  /** Cutting every labelled block keeps both halves labelled. */
  lemma CutLabelled(labels: seq<int>, cs: seq<int>, gs: seq<seq<nat>>, p: nat, q: nat)
    requires 0 < q && p <= q
    requires LabelledBlocks(labels, cs, gs)
    ensures LabelledBlocks(labels, cs, Heads(gs, p, q))
    ensures LabelledBlocks(labels, cs, Tails(gs, p, q))
  {
    var hs := Heads(gs, p, q);
    var ts := Tails(gs, p, q);
    forall k | 0 <= k < |gs|
      ensures IndicesIn(hs[k], |labels|) && Increasing(hs[k])
      ensures forall j :: 0 <= j < |hs[k]| ==> labels[hs[k][j]] == cs[k]
      ensures IndicesIn(ts[k], |labels|) && Increasing(ts[k])
      ensures forall j :: 0 <= j < |ts[k]| ==> labels[ts[k][j]] == cs[k]
    {
      var c := Cut(|gs[k]|, p, q);
      SliceLabelled(labels, gs[k], cs[k], 0, c);
      SliceLabelled(labels, gs[k], cs[k], c, |gs[k]|);
      assert gs[k][0..c] == hs[k] && gs[k][c..|gs[k]|] == ts[k];
    }
  }

  /** The train and val blocks of each class hold only that class, in row order. */
  lemma CutBlocksLabelled(labels: seq<int>, p: nat, q: nat)
    requires 0 < q && p <= q
    ensures LabelledBlocks(labels, Classes(labels), Heads(Groups(labels), p, q))
    ensures LabelledBlocks(labels, Classes(labels), Tails(Groups(labels), p, q))
  {
    GroupsLabelled(labels);
    CutLabelled(labels, Classes(labels), Groups(labels), p, q);
  }

  /** Both outputs are ordered by ascending label, rows of one label in their original order. */
  lemma OutputsStable(labels: seq<int>, p: nat, q: nat)
    requires 0 < q && p <= q
    ensures StablySorted(labels, TrainIdx(labels, p, q))
    ensures StablySorted(labels, ValIdx(labels, p, q))
  {
    CutBlocksLabelled(labels, p, q);
    BlocksSorted(labels, Classes(labels), Heads(Groups(labels), p, q));
    BlocksSorted(labels, Classes(labels), Tails(Groups(labels), p, q));
  }

  lemma {:induction false} HeadsTailsMultiset(gs: seq<seq<nat>>, p: nat, q: nat)
    requires 0 < q && p <= q
    ensures multiset(Flatten(Heads(gs, p, q))) + multiset(Flatten(Tails(gs, p, q))) == multiset(Flatten(gs))
    decreases |gs|
  {
    if gs != [] {
      var m := |gs| - 1;
      var hs := Heads(gs, p, q);
      var ts := Tails(gs, p, q);
      HeadsTailsMultiset(gs[..m], p, q);
      assert hs[..m] == Heads(gs[..m], p, q);
      assert ts[..m] == Tails(gs[..m], p, q);
      var c := Cut(|gs[m]|, p, q);
      assert gs[m] == hs[m] + ts[m];
      assert Flatten(hs) == Flatten(hs[..m]) + hs[m];
      assert Flatten(ts) == Flatten(ts[..m]) + ts[m];
      assert Flatten(gs) == Flatten(gs[..m]) + gs[m];
      assert multiset(gs[m]) == multiset(hs[m]) + multiset(ts[m]);
    }
  }

  /** Every row lands in exactly one of the two outputs, none repeated, none dropped. */
  lemma SplitPartition(labels: seq<int>, p: nat, q: nat)
    requires 0 < q && p <= q
    ensures multiset(TrainIdx(labels, p, q)) + multiset(ValIdx(labels, p, q)) == multiset(Range(|labels|))
  {
    HeadsTailsMultiset(Groups(labels), p, q);
    ArgSortPermutation(labels);
  }

  /** Counting a label over the rows of labelled blocks. */
  lemma {:induction false} OccBlocks(labels: seq<int>, cs: seq<int>, bs: seq<seq<nat>>, c: int)
    requires Increasing(cs) && LabelledBlocks(labels, cs, bs)
    ensures IndicesIn(Flatten(bs), |labels|)
    ensures c !in cs ==> Occ(Gather(labels, Flatten(bs)), c) == 0
    ensures forall k :: 0 <= k < |cs| && cs[k] == c ==> Occ(Gather(labels, Flatten(bs)), c) == |bs[k]|
    decreases |bs|
  {
    FlattenIndicesIn(bs, |labels|);
    if bs != [] {
      var m := |bs| - 1;
      assert LabelledBlocks(labels, cs[..m], bs[..m]);
      OccBlocks(labels, cs[..m], bs[..m], c);
      FlattenIndicesIn(bs[..m], |labels|);
      GatherConcat(labels, Flatten(bs[..m]), bs[m]);
      var g := Gather(labels, bs[m]);
      OccAppend(Gather(labels, Flatten(bs[..m])), g, c);
      OccConst(g, cs[m], c);
      if c == cs[m] {
        assert c !in cs[..m];
      }
    }
  }

  lemma {:induction false} OccConst(s: seq<int>, x: int, c: int)
    requires forall j :: 0 <= j < |s| ==> s[j] == x
    ensures Occ(s, c) == if c == x then |s| else 0
    decreases |s|
  {
    if s != [] {
      OccConst(s[..|s| - 1], x, c);
    }
  }

  /**
   * A label held by `n` rows gets `Cut(n)` rows in train and the other
   * `n - Cut(n)` in val.
   */
  lemma ClassCounts(labels: seq<int>, p: nat, q: nat, c: int)
    requires 0 < q && p <= q
    ensures Occ(Gather(labels, TrainIdx(labels, p, q)), c) == Cut(Occ(labels, c), p, q)
    ensures Occ(Gather(labels, ValIdx(labels, p, q)), c) == Occ(labels, c) - Cut(Occ(labels, c), p, q)
  {
    var cs := Classes(labels);
    var gs := Groups(labels);
    var hs := Heads(gs, p, q);
    var ts := Tails(gs, p, q);
    GroupsLabelled(labels);
    CutLabelled(labels, cs, gs, p, q);
    assert TrainIdx(labels, p, q) == Flatten(hs);
    assert ValIdx(labels, p, q) == Flatten(ts);
    OccBlocks(labels, cs, hs, c);
    OccBlocks(labels, cs, ts, c);
    if c in cs {
      var k :| 0 <= k < |cs| && cs[k] == c;
      assert |gs[k]| == Occ(labels, c);
      assert |hs[k]| == Cut(|gs[k]|, p, q);
      assert |ts[k]| == |gs[k]| - Cut(|gs[k]|, p, q);
    } else {
      OccZero(labels, c);
    }
  }

  // ---------------------------------------------------------------------
  // The imperative split.
  // ---------------------------------------------------------------------

  /** A block found at `start` of an index list: the two pieces of its cut, gathered, are slices of the gathered rows. */
  lemma SliceBlock(rows: Rows, idx: seq<nat>, b: seq<nat>, start: nat, c: nat)
    requires rows.Valid() && IndicesIn(idx, rows.Count())
    requires c <= |b| && start + |b| <= |idx| && idx[start..start + |b|] == b
    ensures IndicesIn(b[..c], rows.Count()) && IndicesIn(b[c..], rows.Count())
    ensures SliceRows(GatherRows(rows, idx), start, start + c) == GatherRows(rows, b[..c])
    ensures SliceRows(GatherRows(rows, idx), start + c, start + |b|) == GatherRows(rows, b[c..])
  {
    assert idx[start..start + c] == b[..c];
    assert idx[start + c..start + |b|] == b[c..];
    SliceOfGather(rows, idx, start, start + c);
    SliceOfGather(rows, idx, start + c, start + |b|);
  }

  /** Sum of a list of counts. */
  function Sum(ns: seq<nat>): nat
    decreases |ns|
  {
    if ns == [] then 0 else Sum(ns[..|ns| - 1]) + ns[|ns| - 1]
  }

  lemma {:induction false} SumPrefix(ns: seq<nat>, k: nat)
    requires k < |ns|
    ensures Sum(ns[..k + 1]) == Sum(ns[..k]) + ns[k]
    ensures Sum(ns[..k]) + ns[k] <= Sum(ns)
    decreases |ns|
  {
    assert ns[..k + 1][..k] == ns[..k];
    if k + 1 < |ns| {
      var m := |ns| - 1;
      SumPrefix(ns[..m], k);
      assert ns[..m][..k + 1] == ns[..k + 1] && ns[..m][..k] == ns[..k];
    } else {
      assert ns[..k + 1] == ns;
    }
  }

  /** Block lengths that agree with counts have prefix sums that agree. */
  lemma {:induction false} SumTotalLength(gs: seq<seq<nat>>, ns: seq<nat>, k: nat)
    requires |gs| == |ns| && k <= |gs|
    requires forall j :: 0 <= j < |gs| ==> |gs[j]| == ns[j]
    ensures TotalLength(gs[..k]) == Sum(ns[..k])
    decreases k
  {
    if k > 0 {
      SumTotalLength(gs, ns, k - 1);
      assert gs[..k][..k - 1] == gs[..k - 1];
      assert ns[..k][..k - 1] == ns[..k - 1];
    }
  }

  /** Where class k's rows begin in the sorted order: the sum of the counts before it. */
  function Start(counts: seq<nat>, k: nat): (s: nat)
    requires k < |counts|
    ensures s + counts[k] <= Sum(counts)
  {
    SumPrefix(counts, k);
    Sum(counts[..k])
  }

  /** The train slice of class k: rows `[start, start + Cut(n))` of a class of `n` rows starting at `start`. */
  function TrainPart(sorted: Rows, counts: seq<nat>, p: nat, q: nat, k: nat): (r: Rows)
    requires sorted.Valid() && 0 < q && p <= q && Sum(counts) <= sorted.Count() && k < |counts|
    ensures r.Valid()
  {
    SliceRows(sorted, Start(counts, k), Start(counts, k) + Cut(counts[k], p, q))
  }

  /** The val slice of class k: the rest of the class's rows. */
  function ValPart(sorted: Rows, counts: seq<nat>, p: nat, q: nat, k: nat): (r: Rows)
    requires sorted.Valid() && 0 < q && p <= q && Sum(counts) <= sorted.Count() && k < |counts|
    ensures r.Valid()
  {
    SliceRows(sorted, Start(counts, k) + Cut(counts[k], p, q), Start(counts, k) + counts[k])
  }

  /** The train slices of all classes, in ascending class order. */
  function TrainParts(sorted: Rows, counts: seq<nat>, p: nat, q: nat): (ps: seq<Rows>)
    requires sorted.Valid() && 0 < q && p <= q && Sum(counts) <= sorted.Count()
    ensures |ps| == |counts| && forall k :: 0 <= k < |ps| ==> ps[k].Valid()
  {
    seq(|counts|, k requires 0 <= k < |counts| => TrainPart(sorted, counts, p, q, k))
  }

  /** The val slices of all classes, in ascending class order. */
  function ValParts(sorted: Rows, counts: seq<nat>, p: nat, q: nat): (ps: seq<Rows>)
    requires sorted.Valid() && 0 < q && p <= q && Sum(counts) <= sorted.Count()
    ensures |ps| == |counts| && forall k :: 0 <= k < |ps| ==> ps[k].Valid()
  {
    seq(|counts|, k requires 0 <= k < |counts| => ValPart(sorted, counts, p, q, k))
  }

  /** The loop over the classes with its running `start`. */
  method CutClasses(sorted: Rows, counts: seq<nat>, p: nat, q: nat) returns (trainParts: seq<Rows>, valParts: seq<Rows>)
    requires sorted.Valid() && 0 < q && p <= q && Sum(counts) <= sorted.Count()
    ensures trainParts == TrainParts(sorted, counts, p, q)
    ensures valParts == ValParts(sorted, counts, p, q)
  {
    ghost var tp := TrainParts(sorted, counts, p, q);
    ghost var vp := ValParts(sorted, counts, p, q);
    trainParts, valParts := [], [];
    var start := 0;
    for k := 0 to |counts|
      invariant start == Sum(counts[..k]) <= sorted.Count()
      invariant trainParts == tp[..k]
      invariant valParts == vp[..k]
    {
      SumPrefix(counts, k);
      assert start == Start(counts, k);
      var n := counts[k];
      var mid := start + Cut(n, p, q);
      var end := start + n;
      assert tp[k] == TrainPart(sorted, counts, p, q, k) == SliceRows(sorted, start, mid);
      assert vp[k] == ValPart(sorted, counts, p, q, k) == SliceRows(sorted, mid, end);
      trainParts := trainParts + [SliceRows(sorted, start, mid)];
      valParts := valParts + [SliceRows(sorted, mid, end)];
      assert tp[..k + 1] == tp[..k] + [tp[k]];
      assert vp[..k + 1] == vp[..k] + [vp[k]];
      start := end;
    }
    assert tp[..|counts|] == tp && vp[..|counts|] == vp;
  }

  /** The second components of `np.unique`'s result. */
  function Counts(u: seq<(int, nat)>): (ns: seq<nat>)
    ensures |ns| == |u| && forall k :: 0 <= k < |u| ==> ns[k] == u[k].1
  {
    seq(|u|, k requires 0 <= k < |u| => u[k].1)
  }

  /** `counts` are the sizes of the class blocks, in ascending class order. */
  predicate CountsMatch(rows: Rows, counts: seq<nat>)
    requires rows.Valid()
  {
    && |counts| == |Groups(rows.labels)|
    && (forall k :: 0 <= k < |counts| ==> counts[k] == |Groups(rows.labels)[k]|)
    && Sum(counts) == rows.Count() == |ArgSort(rows.labels)|
  }

  /** The counts read off the sorted labels are the block sizes, and they add up to the pool size. */
  lemma SplitCounts(rows: Rows)
    requires rows.Valid()
    ensures CountsMatch(rows, Counts(UniqueCounts(Gather(rows.labels, ArgSort(rows.labels)))))
  {
    var gs := Groups(rows.labels);
    var counts := Counts(UniqueCounts(Gather(rows.labels, ArgSort(rows.labels))));
    SortedLabelCounts(rows.labels);
    assert forall j :: 0 <= j < |gs| ==> |gs[j]| == counts[j];
    SumTotalLength(gs, counts, |gs|);
    assert gs[..|gs|] == gs && counts[..|counts|] == counts;
    FlattenLength(gs);
    assert ArgSort(rows.labels) == Flatten(gs);
    ArgSortPermutation(rows.labels);
  }

  /** Part k of the train list cut out of the gathered rows is the gather of block k's train rows. */
  lemma TrainPartIsBlock(rows: Rows, gs: seq<seq<nat>>, counts: seq<nat>, k: nat, p: nat, q: nat)
    requires rows.Valid() && 0 < q && p <= q && |counts| == |gs| && k < |gs|
    requires forall j :: 0 <= j < |gs| ==> |gs[j]| == counts[j]
    requires IndicesIn(Flatten(gs), rows.Count())
    requires Sum(counts) <= |Flatten(gs)|
    ensures IndicesIn(gs[k][..Cut(counts[k], p, q)], rows.Count())
    ensures TrainPart(GatherRows(rows, Flatten(gs)), counts, p, q, k) == GatherRows(rows, gs[k][..Cut(counts[k], p, q)])
  {
    var c := Cut(counts[k], p, q);
    var start := Start(counts, k);
    SumTotalLength(gs, counts, k);
    FlattenBlock(gs, k);
    SliceBlock(rows, Flatten(gs), gs[k], start, c);
  }

  /** Part k of the val list cut out of the gathered rows is the gather of block k's val rows. */
  lemma ValPartIsBlock(rows: Rows, gs: seq<seq<nat>>, counts: seq<nat>, k: nat, p: nat, q: nat)
    requires rows.Valid() && 0 < q && p <= q && |counts| == |gs| && k < |gs|
    requires forall j :: 0 <= j < |gs| ==> |gs[j]| == counts[j]
    requires IndicesIn(Flatten(gs), rows.Count())
    requires Sum(counts) <= |Flatten(gs)|
    ensures IndicesIn(gs[k][Cut(counts[k], p, q)..], rows.Count())
    ensures ValPart(GatherRows(rows, Flatten(gs)), counts, p, q, k) == GatherRows(rows, gs[k][Cut(counts[k], p, q)..])
  {
    var c := Cut(counts[k], p, q);
    var start := Start(counts, k);
    SumTotalLength(gs, counts, k);
    FlattenBlock(gs, k);
    SliceBlock(rows, Flatten(gs), gs[k], start, c);
  }

  /** The train parts cut out of the sorted rows gather the train block of each class. */
  lemma SplitTrainParts(rows: Rows, counts: seq<nat>, p: nat, q: nat)
    requires rows.Valid() && 0 < q && p <= q && CountsMatch(rows, counts)
    ensures ConcatRows(TrainParts(GatherRows(rows, ArgSort(rows.labels)), counts, p, q))
      == GatherRows(rows, TrainIdx(rows.labels, p, q))
  {
    var gs := Groups(rows.labels);
    var hs := Heads(gs, p, q);
    var parts := TrainParts(GatherRows(rows, ArgSort(rows.labels)), counts, p, q);
    assert forall j :: 0 <= j < |gs| ==> IndicesIn(gs[j], rows.Count());
    assert ArgSort(rows.labels) == Flatten(gs);
    forall k | 0 <= k < |counts|
      ensures IndicesIn(hs[k], rows.Count()) && parts[k].Valid() && parts[k] == GatherRows(rows, hs[k])
    {
      TrainPartIsBlock(rows, gs, counts, k, p, q);
    }
    ConcatOfGathers(rows, parts, hs);
  }

  /** The val parts cut out of the sorted rows gather the val block of each class. */
  lemma SplitValParts(rows: Rows, counts: seq<nat>, p: nat, q: nat)
    requires rows.Valid() && 0 < q && p <= q && CountsMatch(rows, counts)
    ensures ConcatRows(ValParts(GatherRows(rows, ArgSort(rows.labels)), counts, p, q))
      == GatherRows(rows, ValIdx(rows.labels, p, q))
  {
    var gs := Groups(rows.labels);
    var ts := Tails(gs, p, q);
    var parts := ValParts(GatherRows(rows, ArgSort(rows.labels)), counts, p, q);
    assert forall j :: 0 <= j < |gs| ==> IndicesIn(gs[j], rows.Count());
    assert ArgSort(rows.labels) == Flatten(gs);
    forall k | 0 <= k < |counts|
      ensures IndicesIn(ts[k], rows.Count()) && parts[k].Valid() && parts[k] == GatherRows(rows, ts[k])
    {
      ValPartIsBlock(rows, gs, counts, k, p, q);
    }
    ConcatOfGathers(rows, parts, ts);
  }

  /** What the method's steps compute, put together: the parts cut from the sorted rows gather the train and val rows. */
  lemma SplitCorrect(rows: Rows, sorted: Rows, counts: seq<nat>, p: nat, q: nat)
    requires rows.Valid() && 0 < q && p <= q
    requires sorted == GatherRows(rows, ArgSort(rows.labels))
    requires counts == Counts(UniqueCounts(sorted.labels))
    ensures sorted.Valid() && Sum(counts) == sorted.Count()
      && (|counts| == 0 <==> rows.Count() == 0)
      && ConcatRows(TrainParts(sorted, counts, p, q)) == GatherRows(rows, TrainIdx(rows.labels, p, q))
      && ConcatRows(ValParts(sorted, counts, p, q)) == GatherRows(rows, ValIdx(rows.labels, p, q))
  {
    assert sorted.labels == Gather(rows.labels, ArgSort(rows.labels));
    SplitCounts(rows);
    NoClassesNoRows(rows.labels);
    SplitTrainParts(rows, counts, p, q);
    SplitValParts(rows, counts, p, q);
  }

  /** `np.concatenate` of the empty list of parts, when the pool has no rows. */
  datatype SplitError = NothingToConcatenate

  /**
   * The split on values: the rows put in argsort order, each class cut at
   * `Cut` of its count, the train slices and the val slices concatenated.
   */
  method SplitRows(rows: Rows, p: nat, q: nat) returns (sorted: Rows, res: Result<(Rows, Rows), SplitError>)
    requires rows.Valid() && 0 < q && p <= q
    ensures sorted == GatherRows(rows, ArgSort(rows.labels))
    ensures res.Err? <==> rows.Count() == 0
    ensures res.Ok? ==> res.value.0 == GatherRows(rows, TrainIdx(rows.labels, p, q))
    ensures res.Ok? ==> res.value.1 == GatherRows(rows, ValIdx(rows.labels, p, q))
  {
    sorted := GatherRows(rows, ArgSort(rows.labels));
    var counts := Counts(UniqueCounts(sorted.labels));
    SplitCorrect(rows, sorted, counts, p, q);
    var trainParts, valParts := CutClasses(sorted, counts, p, q);
    if |counts| == 0 {
      return sorted, Err(NothingToConcatenate);
    }
    res := Ok((ConcatRows(trainParts), ConcatRows(valParts)));
  }

  /**
   * `_split_dataset`: the pool's row arrays are replaced by their argsort
   * order, then split per class. The two outputs hold only the row arrays:
   * the vocabulary size and the train tag are not copied.
   */
  method SplitDataset(pool: Pool, p: nat, q: nat) returns (res: Result<(Rows, Rows), SplitError>)
    requires pool.rows.Valid() && 0 < q && p <= q
    modifies pool
    ensures pool.rows == GatherRows(old(pool.rows), ArgSort(old(pool.rows.labels)))
    ensures pool.vocabSize == old(pool.vocabSize) && pool.isTrain == old(pool.isTrain)
    ensures res.Err? <==> old(pool.rows.Count()) == 0
    ensures res.Ok? ==> res.value.0 == GatherRows(old(pool.rows), TrainIdx(old(pool.rows.labels), p, q))
    ensures res.Ok? ==> res.value.1 == GatherRows(old(pool.rows), ValIdx(old(pool.rows.labels), p, q))
  {
    var sorted;
    sorted, res := SplitRows(pool.rows, p, q);
    pool.rows := sorted;
  }
}
