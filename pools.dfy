/**
 * The dataset dictionary built by data/loader.py: four row-indexed arrays
 * ('text', 'text_len', 'label', 'raw') plus 'vocab_size' and, on the train
 * pool only, 'is_train'.
 */
module Pools {
  import opened SeqUtil

  /** The row-indexed arrays, one entry per example. */
  datatype Rows = Rows(text: seq<seq<int>>, textLen: seq<int>, labels: seq<int>, raw: seq<seq<string>>)
  {
    /** The four arrays are parallel. */
    predicate Valid()
    {
      |textLen| == |text| && |labels| == |text| && |raw| == |text|
    }

    function Count(): nat
    {
      |text|
    }
  }

  /** `v[idx]` applied to every row-indexed array. */
  function GatherRows(r: Rows, ix: seq<nat>): (g: Rows)
    requires r.Valid() && IndicesIn(ix, r.Count())
    ensures g.Valid() && g.Count() == |ix|
  {
    Rows(Gather(r.text, ix), Gather(r.textLen, ix), Gather(r.labels, ix), Gather(r.raw, ix))
  }

  /** `v[a:b]` applied to every row-indexed array. */
  function SliceRows(r: Rows, a: nat, b: nat): (s: Rows)
    requires r.Valid() && a <= b <= r.Count()
    ensures s.Valid() && s.Count() == b - a
  {
    Rows(r.text[a..b], r.textLen[a..b], r.labels[a..b], r.raw[a..b])
  }

  /** `np.concatenate` of a list of row blocks, for every array. */
  function ConcatRows(parts: seq<Rows>): (c: Rows)
    requires forall k :: 0 <= k < |parts| ==> parts[k].Valid()
    ensures c.Valid()
    decreases |parts|
  {
    if parts == [] then Rows([], [], [], [])
    else
      var init := ConcatRows(parts[..|parts| - 1]);
      var last := parts[|parts| - 1];
      assert last.Valid() && init.Valid();
      Rows(init.text + last.text, init.textLen + last.textLen, init.labels + last.labels, init.raw + last.raw)
  }

  lemma SliceOfGather(r: Rows, ix: seq<nat>, a: nat, b: nat)
    requires r.Valid() && IndicesIn(ix, r.Count()) && a <= b <= |ix|
    ensures IndicesIn(ix[a..b], r.Count())
    ensures SliceRows(GatherRows(r, ix), a, b) == GatherRows(r, ix[a..b])
  {
    GatherSlice(r.text, ix, a, b);
    GatherSlice(r.textLen, ix, a, b);
    GatherSlice(r.labels, ix, a, b);
    GatherSlice(r.raw, ix, a, b);
  }

  lemma GatherOfGather(r: Rows, ix: seq<nat>, jx: seq<nat>)
    requires r.Valid() && IndicesIn(ix, r.Count()) && IndicesIn(jx, |ix|)
    ensures IndicesIn(Gather(ix, jx), r.Count())
    ensures GatherRows(GatherRows(r, ix), jx) == GatherRows(r, Gather(ix, jx))
  {
    GatherGather(r.text, ix, jx);
    GatherGather(r.textLen, ix, jx);
    GatherGather(r.labels, ix, jx);
    GatherGather(r.raw, ix, jx);
  }

  /** Concatenating gathered blocks gathers the concatenated index lists. */
  lemma {:induction false} ConcatOfGathers(r: Rows, parts: seq<Rows>, ixs: seq<seq<nat>>)
    requires r.Valid() && |parts| == |ixs|
    requires forall k :: 0 <= k < |ixs| ==> IndicesIn(ixs[k], r.Count())
    requires forall k :: 0 <= k < |parts| ==> parts[k].Valid() && parts[k] == GatherRows(r, ixs[k])
    ensures IndicesIn(Flatten(ixs), r.Count())
    ensures ConcatRows(parts) == GatherRows(r, Flatten(ixs))
    decreases |parts|
  {
    FlattenIndicesIn(ixs, r.Count());
    if parts != [] {
      var n := |parts| - 1;
      ConcatOfGathers(r, parts[..n], ixs[..n]);
      GatherConcat(r.text, Flatten(ixs[..n]), ixs[n]);
      GatherConcat(r.textLen, Flatten(ixs[..n]), ixs[n]);
      GatherConcat(r.labels, Flatten(ixs[..n]), ixs[n]);
      GatherConcat(r.raw, Flatten(ixs[..n]), ixs[n]);
    }
  }

  lemma FlattenIndicesIn(ixs: seq<seq<nat>>, n: nat)
    requires forall k :: 0 <= k < |ixs| ==> IndicesIn(ixs[k], n)
    ensures IndicesIn(Flatten(ixs), n)
  {
    var f := Flatten(ixs);
    forall j | 0 <= j < |f| ensures f[j] < n {
      FlattenMember(ixs, f[j]);
    }
  }

  /** The dataset dictionary. Its row arrays are replaced in place by `_split_dataset`. */
  class Pool {
    var rows: Rows
    var vocabSize: int
    /** Whether the key 'is_train' is present (it is only ever set to True). */
    var isTrain: bool

    constructor (rows: Rows, vocabSize: int)
      ensures this.rows == rows && this.vocabSize == vocabSize && !isTrain
    {
      this.rows := rows;
      this.vocabSize := vocabSize;
      isTrain := false;
    }
  }
}
