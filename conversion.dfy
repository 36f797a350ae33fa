/**
 * `data_to_nparray` and the older `_data_to_nparray` of data/loader.py: the
 * examples of one pool become the dataset dictionary. The active encoder
 * reads a plain `stoi` dictionary and keeps every row (its call to
 * `_del_by_idx` is commented out); the older one calls a torchtext
 * vocabulary with a default index and deletes the degenerate rows.
 */
module Conversion {
  import opened Wrappers
  import opened SeqUtil
  import opened Vocabulary
  import opened Pools
  import opened Encoder
  import opened Deletion

  // ---------------------------------------------------------------------
  // Which rows the older encoder keeps.
  // ---------------------------------------------------------------------

  /** The rows left once `np.delete(v, del_idx, 0)` has been applied to every row array. */
  function KeptRows(e: Encoding): (r: Rows)
    requires e.rows.Valid()
    ensures r.Valid() && r.Count() == |Survivors(e.rows.Count(), e.delIdx)|
  {
    SurvivorsSpec(e.rows.Count(), e.delIdx);
    GatherRows(e.rows, Survivors(e.rows.Count(), e.delIdx))
  }

  /** Reference definition: the positions of the rows whose maximum id is at least 2, in order. */
  function NonDegenerateRows(text: seq<seq<int>>): seq<nat>
    requires forall i :: 0 <= i < |text| ==> |text[i]| > 0
    decreases |text|
  {
    if text == [] then []
    else
      var n := |text| - 1;
      NonDegenerateRows(text[..n]) + (if Degenerate(text[n]) then [] else [n])
  }

  /** Every row is either degenerate or not: the two index lists add up to the row count. */
  lemma {:induction false} DegenerateCount(text: seq<seq<int>>)
    requires forall i :: 0 <= i < |text| ==> |text[i]| > 0
    ensures |NonDegenerateRows(text)| + |DegenerateRows(text)| == |text|
    decreases |text|
  {
    if text != [] {
      DegenerateCount(text[..|text| - 1]);
    }
  }

  /** The positions that survive the deletion of `DegenerateRows(text)` below `n` are the non-degenerate rows among the first `n`. */
  lemma {:induction false} SurvivorsAreNonDegenerate(text: seq<seq<int>>, n: nat)
    requires forall i :: 0 <= i < |text| ==> |text[i]| > 0
    requires n <= |text|
    ensures Survivors(n, DegenerateRows(text)) == NonDegenerateRows(text[..n])
    decreases n
  {
    DegenerateRowsSpec(text);
    if n > 0 {
      SurvivorsAreNonDegenerate(text, n - 1);
      assert text[..n][..n - 1] == text[..n - 1];
      assert text[..n][n - 1] == text[n - 1];
    }
  }

  /** The shape of a successful encoding: parallel arrays, one non-empty row per example, `del_idx` its degenerate rows. */
  lemma EncodeShape(data: seq<Example>, v: Vocab, maxLen: Option<nat>)
    requires Encode(data, v, maxLen).Ok?
    ensures var e := Encode(data, v, maxLen).value;
      && e.rows.Valid() && e.rows.Count() == |data|
      && (forall i :: 0 <= i < |e.rows.text| ==> |e.rows.text[i]| > 0)
      && e.delIdx == DegenerateRows(e.rows.text)
      && (forall k :: 0 <= k < |e.delIdx| ==> e.delIdx[k] < |data|)
  {
    EncodeContents(data, v, maxLen);
    EncodeDegenerate(data, v, maxLen);
    DegenerateRowsSpec(Encode(data, v, maxLen).value.rows.text);
  }

  /** Gathering the non-degenerate positions gives rows that are all non-degenerate. */
  lemma GatherNonDegenerate(rows: Rows)
    requires rows.Valid() && forall i :: 0 <= i < |rows.text| ==> |rows.text[i]| > 0
    ensures IndicesIn(NonDegenerateRows(rows.text), rows.Count())
    ensures var g := GatherRows(rows, NonDegenerateRows(rows.text));
      forall j :: 0 <= j < g.Count() ==> |g.text[j]| > 0 && RowMax(g.text[j]) >= 2
  {
    NonDegenerateSpec(rows.text);
  }

  /**
   * After the deletion, the older encoder's pool holds exactly the rows
   * whose maximum id is at least 2, in their original order: one fewer for
   * every entry of `del_idx`, and none of them degenerate.
   */
  lemma KeptRowsSpec(data: seq<Example>, v: Vocab, maxLen: Option<nat>)
    requires Encode(data, v, maxLen).Ok?
    ensures var e := Encode(data, v, maxLen).value;
      && e.rows.Valid()
      && (forall i :: 0 <= i < |e.rows.text| ==> |e.rows.text[i]| > 0)
      && IndicesIn(NonDegenerateRows(e.rows.text), |data|)
      && KeptRows(e) == GatherRows(e.rows, NonDegenerateRows(e.rows.text))
      && KeptRows(e).Count() + |e.delIdx| == |data|
      && (forall j :: 0 <= j < KeptRows(e).Count() ==> |KeptRows(e).text[j]| > 0 && RowMax(KeptRows(e).text[j]) >= 2)
  {
    EncodeShape(data, v, maxLen);
    var e := Encode(data, v, maxLen).value;
    var text := e.rows.text;
    SurvivorsAreNonDegenerate(text, |text|);
    assert text[..|text|] == text;
    DegenerateCount(text);
    GatherNonDegenerate(e.rows);
  }

  /** The non-degenerate list names rows of `text`, each with maximum id at least 2. */
  lemma {:induction false} NonDegenerateSpec(text: seq<seq<int>>)
    requires forall i :: 0 <= i < |text| ==> |text[i]| > 0
    ensures IndicesIn(NonDegenerateRows(text), |text|)
    ensures forall j :: 0 <= j < |NonDegenerateRows(text)| ==> !Degenerate(text[NonDegenerateRows(text)[j]])
    decreases |text|
  {
    if text != [] {
      var n := |text| - 1;
      NonDegenerateSpec(text[..n]);
      assert forall i :: 0 <= i < n ==> text[..n][i] == text[i];
    }
  }

  /** The list `[text_len, text, doc_label, raw]` handed to `_del_by_idx`. */
  function RowArrays(r: Rows): (cols: seq<Column>)
    ensures |cols| == 4
  {
    [IntColumn(r.textLen), MatrixColumn(r.text), IntColumn(r.labels), TokenColumn(r.raw)]
  }

  /** Deleting in-bounds rows from each of the four arrays leaves that array of the surviving rows. */
  lemma DeleteEachArray(rows: Rows, delIdx: seq<nat>)
    requires rows.Valid() && forall k :: 0 <= k < |delIdx| ==> delIdx[k] < rows.Count()
    ensures IndicesIn(Survivors(rows.Count(), delIdx), rows.Count())
    ensures var g := GatherRows(rows, Survivors(rows.Count(), delIdx));
      && DeleteColumn(IntColumn(rows.textLen), delIdx) == Ok(IntColumn(g.textLen))
      && DeleteColumn(MatrixColumn(rows.text), delIdx) == Ok(MatrixColumn(g.text))
      && DeleteColumn(IntColumn(rows.labels), delIdx) == Ok(IntColumn(g.labels))
      && DeleteColumn(TokenColumn(rows.raw), delIdx) == Ok(TokenColumn(g.raw))
  {
    SurvivorsSpec(rows.Count(), delIdx);
    DeleteInBounds(IntColumn(rows.textLen), delIdx);
    DeleteInBounds(MatrixColumn(rows.text), delIdx);
    DeleteInBounds(IntColumn(rows.labels), delIdx);
    DeleteInBounds(TokenColumn(rows.raw), delIdx);
  }

  /** No slot of the list raises: every deleted index is in bounds for each of the four arrays. */
  lemma DeleteRowArraysOk(rows: Rows, delIdx: seq<nat>)
    requires rows.Valid() && forall k :: 0 <= k < |delIdx| ==> delIdx[k] < rows.Count()
    ensures forall k :: 0 <= k < 4 ==> DeleteColumn(RowArrays(rows)[k], delIdx).Ok?
  {
    DeleteEachArray(rows, delIdx);
    var cols := RowArrays(rows);
    forall k | 0 <= k < 4 ensures DeleteColumn(cols[k], delIdx).Ok? {
      if k == 0 { } else if k == 1 { } else if k == 2 { } else { assert k == 3; }
    }
  }

  // ---------------------------------------------------------------------
  // The two encoders.
  // ---------------------------------------------------------------------

  /**
   * `data_to_nparray`: unknown tokens take the id of "unk"; every row is
   * kept, degenerate or not.
   */
  method DataToNparray(data: seq<Example>, stoi: map<string, int>, vocabSize: int, maxLen: Option<nat>)
    returns (res: Result<Pool, EncodeError>)
    ensures var e := Encode(data, Vocab(stoi, UnkKey), maxLen);
      && (res.Err? <==> e.Err?)
      && (res.Err? ==> res.error == e.error)
      && (res.Ok? ==>
            && fresh(res.value) && res.value.rows == e.value.rows
            && res.value.vocabSize == vocabSize && !res.value.isTrain)
  {
    var enc := EncodeRows(data, Vocab(stoi, UnkKey), maxLen);
    if enc.Err? {
      return Err(enc.error);
    }
    var pool := new Pool(enc.value.rows, vocabSize);
    res := Ok(pool);
  }

  /**
   * `_data_to_nparray`: unknown tokens take the vocabulary's default id; the
   * four row arrays are passed as a list to `_del_by_idx` with `del_idx`,
   * and the list it hands back is unpacked into the new dictionary.
   */
  method LegacyDataToNparray(data: seq<Example>, stoi: map<string, int>, defaultId: int, vocabSize: int, maxLen: Option<nat>)
    returns (res: Result<Pool, EncodeError>)
    ensures var e := Encode(data, Vocab(stoi, DefaultId(defaultId)), maxLen);
      && (res.Err? <==> e.Err?)
      && (res.Err? ==> res.error == e.error)
      && (res.Ok? ==>
            && e.value.rows.Valid() && fresh(res.value) && res.value.rows == KeptRows(e.value)
            && res.value.vocabSize == vocabSize && !res.value.isTrain)
  {
    var v := Vocab(stoi, DefaultId(defaultId));
    var enc := EncodeRows(data, v, maxLen);
    if enc.Err? {
      return Err(enc.error);
    }
    EncodeShape(data, v, maxLen);
    var kept := DeleteRows(enc.value.rows, enc.value.delIdx);
    var pool := new Pool(kept, vocabSize);
    res := Ok(pool);
  }

  /**
   * The deletion step of `_data_to_nparray`: the list `[text_len, text,
   * doc_label, raw]` is handed to `_del_by_idx`, and the list it returns is
   * unpacked into the four row arrays.
   */
  method DeleteRows(rows: Rows, delIdx: seq<nat>) returns (kept: Rows)
    requires rows.Valid() && forall k :: 0 <= k < |delIdx| ==> delIdx[k] < rows.Count()
    ensures IndicesIn(Survivors(rows.Count(), delIdx), rows.Count())
    ensures kept == GatherRows(rows, Survivors(rows.Count(), delIdx))
  {
    var cols := new Column[4][IntColumn(rows.textLen), MatrixColumn(rows.text), IntColumn(rows.labels), TokenColumn(rows.raw)];
    ghost var before := RowArrays(rows);
    assert cols[..] == before;
    DeleteEachArray(rows, delIdx);
    DeleteRowArraysOk(rows, delIdx);
    ghost var g := GatherRows(rows, Survivors(rows.Count(), delIdx));
    var deleted := DelByIdx(ArrayList(cols), delIdx);
    assert deleted == Ok(SameList(cols));
    var list := deleted.value.list;
    ghost var after := SlotsAfter(before, delIdx, 4);
    assert list[..] == after;
    assert list[0] == after[0] == IntColumn(g.textLen);
    assert list[1] == after[1] == MatrixColumn(g.text);
    assert list[2] == after[2] == IntColumn(g.labels);
    assert list[3] == after[3] == TokenColumn(g.raw);
    kept := Rows(list[1].matrix, list[0].ints, list[2].ints, list[3].docs);
  }
}
