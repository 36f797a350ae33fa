/**
 * The sequence encoder of data/loader.py (`data_to_nparray` and the older
 * `_data_to_nparray`): a pad-filled N x max_len id matrix, the token ids of
 * row i written from column 0, the degenerate rows collected, labels, raw
 * tokens and lengths copied.
 */
module Encoder {
  import opened Wrappers
  import opened SeqUtil
  import opened Vocabulary
  import opened Pools

  /** One example as `_load_json` yields it (relation metadata is not used here). */
  datatype Example = Example(labelId: int, text: seq<string>)

  /** Why the work on one row raises. */
  datatype RowError =
    | MissingUnk   // KeyError: a token is unknown and "unk" is not a key
    | TooLong      // the slice assignment cannot broadcast two or more ids into fewer columns
    | EmptyRow     // np.max of a zero-width row

  datatype EncodeError =
    | EmptyPool                               // max(text_len) of an empty pool
    | MissingPad                              // KeyError: "<pad>" is not a key
    | RowFailure(row: nat, reason: RowError)

  /** The loop's result: the row-indexed arrays and the degenerate row indices `del_idx`. */
  datatype Encoding = Encoding(rows: Rows, delIdx: seq<nat>)

  /** `max(text_len)`: the longest token sequence. */
  function MaxLength(data: seq<Example>): (m: nat)
    requires |data| > 0
    ensures forall i :: 0 <= i < |data| ==> |data[i].text| <= m
    ensures exists i :: 0 <= i < |data| && |data[i].text| == m
    decreases |data|
  {
    if |data| == 1 then |data[0].text|
    else
      var m := MaxLength(data[..|data| - 1]);
      var l := |data[|data| - 1].text|;
      assert forall i :: 0 <= i < |data| - 1 ==> data[..|data| - 1][i] == data[i];
      if l > m then l else m
  }

  /** `np.max(row)`. */
  function RowMax(row: seq<int>): (m: int)
    requires |row| > 0
    ensures forall j :: 0 <= j < |row| ==> row[j] <= m
    ensures exists j :: 0 <= j < |row| && row[j] == m
    decreases |row|
  {
    if |row| == 1 then row[0]
    else
      var m := RowMax(row[..|row| - 1]);
      assert forall j :: 0 <= j < |row| - 1 ==> row[..|row| - 1][j] == row[j];
      if row[|row| - 1] > m then row[|row| - 1] else m
  }

  /** A row that holds nothing but ids below 2 (pad and unk by convention), padding included. */
  predicate Degenerate(row: seq<int>)
    requires |row| > 0
  {
    RowMax(row) < 2
  }

  /**
   * Row i of the matrix: a row of `width` pad ids whose first `|tokens|`
   * entries are overwritten by the token ids, then checked with np.max. A
   * single id is broadcast into a slice of any length, so one token in a
   * zero-width row writes nothing and np.max then raises on the empty row.
   */
  function EncodeRow(v: Vocab, tokens: seq<string>, width: nat, pad: int): (r: Result<seq<int>, RowError>)
    ensures r == Err(MissingUnk) <==> LookupAll(v, tokens).None?
    ensures r == Err(TooLong) <==> LookupAll(v, tokens).Some? && |tokens| > width && |tokens| != 1
    ensures r == Err(EmptyRow) <==> LookupAll(v, tokens).Some? && |tokens| <= 1 && width == 0
    ensures r.Ok? ==> |r.value| == width > 0
    ensures r.Ok? ==> forall j :: 0 <= j < |tokens| ==> r.value[j] == Lookup(v, tokens[j]).value
    ensures r.Ok? ==> forall j :: |tokens| <= j < width ==> r.value[j] == pad
  {
    var ids := LookupAll(v, tokens);
    if ids.None? then Err(MissingUnk)
    else if |ids.value| > width && |ids.value| != 1 then Err(TooLong)
    else if width == 0 then Err(EmptyRow)
    else Ok(ids.value + PadRow(width, pad)[|ids.value|..])
  }

  /** A row of the freshly allocated matrix: `stoi['<pad>'] * np.ones(max_len)`. */
  function PadRow(width: nat, pad: int): seq<int>
  {
    seq(width, _ => pad)
  }

  /** All rows in order; the first row that raises stops the encoding. */
  function EncodeAll(data: seq<Example>, v: Vocab, width: nat, pad: int): Result<seq<seq<int>>, EncodeError>
    decreases |data|
  {
    if data == [] then Ok([])
    else
      var n := |data| - 1;
      match EncodeAll(data[..n], v, width, pad)
      case Err(e) => Err(e)
      case Ok(rows) =>
        match EncodeRow(v, data[n].text, width, pad)
        case Err(k) => Err(RowFailure(n, k))
        case Ok(row) => Ok(rows + [row])
  }

  /**
   * The encoding succeeds exactly when every row does, and then holds one
   * encoded row per example; otherwise it reports the first row that raises.
   */
  lemma {:induction false} EncodeAllSpec(data: seq<Example>, v: Vocab, width: nat, pad: int)
    ensures var r := EncodeAll(data, v, width, pad);
      && (r.Ok? <==> forall i :: 0 <= i < |data| ==> EncodeRow(v, data[i].text, width, pad).Ok?)
      && (r.Ok? ==> |r.value| == |data|)
      && (r.Ok? ==> forall i :: 0 <= i < |data| ==> Ok(r.value[i]) == EncodeRow(v, data[i].text, width, pad))
      && (r.Err? ==> r.error.RowFailure? && r.error.row < |data|)
      && (r.Err? ==> EncodeRow(v, data[r.error.row].text, width, pad) == Err(r.error.reason))
      && (r.Err? ==> forall i :: 0 <= i < r.error.row ==> EncodeRow(v, data[i].text, width, pad).Ok?)
    decreases |data|
  {
    if data != [] {
      var n := |data| - 1;
      EncodeAllSpec(data[..n], v, width, pad);
      assert forall i :: 0 <= i < n ==> data[..n][i] == data[i];
    }
  }

  /** `del_idx`: the indices of the degenerate rows, in order. */
  function DegenerateRows(text: seq<seq<int>>): seq<nat>
    requires forall i :: 0 <= i < |text| ==> |text[i]| > 0
    decreases |text|
  {
    if text == [] then []
    else
      var n := |text| - 1;
      var d := DegenerateRows(text[..n]);
      if Degenerate(text[n]) then d + [n] else d
  }

  /** `del_idx` lists exactly the degenerate rows, in increasing order. */
  lemma {:induction false} DegenerateRowsSpec(text: seq<seq<int>>)
    requires forall i :: 0 <= i < |text| ==> |text[i]| > 0
    ensures forall k :: k in DegenerateRows(text) <==> 0 <= k < |text| && Degenerate(text[k])
    ensures forall k :: 0 <= k < |DegenerateRows(text)| ==> DegenerateRows(text)[k] < |text|
    ensures forall a, b :: 0 <= a < b < |DegenerateRows(text)| ==> DegenerateRows(text)[a] < DegenerateRows(text)[b]
    decreases |text|
  {
    if text != [] {
      var n := |text| - 1;
      DegenerateRowsSpec(text[..n]);
      assert forall k :: 0 <= k < n ==> text[..n][k] == text[k];
    }
  }

  /** `text_len`: the full token count of every example. */
  function Lengths(data: seq<Example>): seq<int>
  {
    seq(|data|, i requires 0 <= i < |data| => |data[i].text|)
  }

  /** `label`: the label of every example. */
  function Labels(data: seq<Example>): seq<int>
  {
    seq(|data|, i requires 0 <= i < |data| => data[i].labelId)
  }

  /** `raw`: the tokens of every example. */
  function Raws(data: seq<Example>): seq<seq<string>>
  {
    seq(|data|, i requires 0 <= i < |data| => data[i].text)
  }

  /** The whole encoding, or the error that the first failing step raises. */
  function Encode(data: seq<Example>, v: Vocab, maxLen: Option<nat>): Result<Encoding, EncodeError>
  {
    if maxLen.None? && |data| == 0 then Err(EmptyPool)
    else
      var width := if maxLen.Some? then maxLen.value else MaxLength(data);
      if PadToken !in v.stoi then Err(MissingPad)
      else
        EncodeAllSpec(data, v, width, v.stoi[PadToken]);
        match EncodeAll(data, v, width, v.stoi[PadToken])
        case Err(e) => Err(e)
        case Ok(text) =>
          Ok(Encoding(
            Rows(text, Lengths(data), Labels(data), Raws(data)),
            DegenerateRows(text)))
  }

  /** The matrix width: `max_len` when given, else the longest example. */
  function EffectiveWidth(data: seq<Example>, maxLen: Option<nat>): nat
    requires maxLen.Some? || |data| > 0
  {
    if maxLen.Some? then maxLen.value else MaxLength(data)
  }

  /** The first row that raises decides the error. */
  lemma {:induction false} FirstRowFailure(data: seq<Example>, v: Vocab, width: nat, pad: int, i: nat)
    requires i < |data|
    requires forall k :: 0 <= k < i ==> EncodeRow(v, data[k].text, width, pad).Ok?
    requires EncodeRow(v, data[i].text, width, pad).Err?
    ensures EncodeAll(data, v, width, pad) == Err(RowFailure(i, EncodeRow(v, data[i].text, width, pad).error))
    decreases |data|
  {
    var n := |data| - 1;
    assert forall k :: 0 <= k < n ==> data[..n][k] == data[k];
    if i == n {
      EncodeAllSpec(data[..n], v, width, pad);
    } else {
      FirstRowFailure(data[..n], v, width, pad, i);
    }
  }

  lemma DegenerateRowsStep(text: seq<seq<int>>, row: seq<int>)
    requires forall i :: 0 <= i < |text| ==> |text[i]| > 0
    requires |row| > 0
    ensures DegenerateRows(text + [row]) == DegenerateRows(text) + (if Degenerate(row) then [|text|] else [])
  {
    assert (text + [row])[..|text|] == text;
  }

  /** One more row encoded: the prefix result grows by that row, and `del_idx` by its index if it is degenerate. */
  lemma FillStep(data: seq<Example>, v: Vocab, width: nat, pad: int, text: seq<seq<int>>, i: nat, row: seq<int>)
    requires i < |data| == |text|
    requires forall k :: 0 <= k < i ==> |text[k]| > 0
    requires EncodeAll(data[..i], v, width, pad) == Ok(text[..i])
    requires EncodeRow(v, data[i].text, width, pad) == Ok(row)
    ensures |row| > 0 && text[i := row][..i + 1] == text[..i] + [row]
    ensures EncodeAll(data[..i + 1], v, width, pad) == Ok(text[..i] + [row])
    ensures DegenerateRows(text[..i] + [row]) == DegenerateRows(text[..i]) + (if Degenerate(row) then [i] else [])
  {
    var d := data[..i + 1];
    assert d[..i] == data[..i] && d[i] == data[i];
    assert EncodeAll(d, v, width, pad) == Ok(text[..i] + [row]);
    assert text[i := row][..i + 1] == text[..i] + [row];
    DegenerateRowsStep(text[..i], row);
  }

  /** A row that raises after a clean prefix decides the error of the whole encoding. */
  lemma FillFailure(data: seq<Example>, v: Vocab, width: nat, pad: int, i: nat)
    requires i < |data|
    requires EncodeAll(data[..i], v, width, pad).Ok?
    requires EncodeRow(v, data[i].text, width, pad).Err?
    ensures EncodeAll(data, v, width, pad) == Err(RowFailure(i, EncodeRow(v, data[i].text, width, pad).error))
  {
    assert forall k :: 0 <= k < i ==> data[..i][k] == data[k];
    EncodeAllSpec(data[..i], v, width, pad);
    FirstRowFailure(data, v, width, pad, i);
  }

  /**
   * The work on row i: the token ids overwrite the first `len(tokens)`
   * entries of a pad row; two or more ids cannot be assigned to fewer
   * columns, a single id is broadcast into the slice, and a zero-width row
   * has no maximum.
   */
  method EncodeOneRow(v: Vocab, tokens: seq<string>, padRow: seq<int>, ghost width: nat, ghost pad: int) returns (r: Result<seq<int>, RowError>)
    requires padRow == PadRow(width, pad)
    ensures r == EncodeRow(v, tokens, width, pad)
  {
    var ids := LookupAll(v, tokens);
    if ids.None? {
      return Err(MissingUnk);
    }
    if |ids.value| > |padRow| && |ids.value| != 1 {
      return Err(TooLong);
    }
    var row: seq<int>;
    if |ids.value| <= |padRow| {
      row := ids.value + padRow[|ids.value|..];
    } else {
      row := padRow;  // one id broadcast into the empty slice of a zero-width row
    }
    if |row| == 0 {
      return Err(EmptyRow);
    }
    r := Ok(row);
  }

  /**
   * The loop of both encoders over a matrix of pad rows: row i is overwritten
   * and checked, and `del_idx` collected; the first row that raises stops it.
   */
  method FillRows(data: seq<Example>, v: Vocab, width: nat, pad: int) returns (res: Result<seq<seq<int>>, EncodeError>, delIdx: seq<nat>)
    ensures res == EncodeAll(data, v, width, pad)
    ensures res.Ok? ==> (forall i :: 0 <= i < |res.value| ==> |res.value[i]| > 0) && delIdx == DegenerateRows(res.value)
  {
    var padRow := PadRow(width, pad);
    var text := seq(|data|, _ => padRow);
    delIdx := [];
    for i := 0 to |data|
      invariant |text| == |data|
      invariant EncodeAll(data[..i], v, width, pad) == Ok(text[..i])
      invariant forall k :: i <= k < |data| ==> text[k] == padRow
      invariant forall k :: 0 <= k < i ==> |text[k]| > 0
      invariant delIdx == DegenerateRows(text[..i])
    {
      var r := EncodeOneRow(v, data[i].text, text[i], width, pad);
      if r.Err? {
        FillFailure(data, v, width, pad, i);
        return Err(RowFailure(i, r.error)), delIdx;
      }
      FillStep(data, v, width, pad, text, i, r.value);
      text := text[i := r.value];
      if RowMax(r.value) < 2 {
        delIdx := delIdx + [i];
      }
    }
    assert text[..|data|] == text;
    assert data[..|data|] == data;
    res := Ok(text);
  }

  /** Both encoders: the width, the pad id, then the loop. */
  method EncodeRows(data: seq<Example>, v: Vocab, maxLen: Option<nat>) returns (res: Result<Encoding, EncodeError>)
    ensures res == Encode(data, v, maxLen)
  {
    var width: nat;
    if maxLen.None? {
      if |data| == 0 { return Err(EmptyPool); }
      width := MaxLength(data);
    } else {
      width := maxLen.value;
    }
    if PadToken !in v.stoi { return Err(MissingPad); }
    var text, delIdx := FillRows(data, v, width, v.stoi[PadToken]);
    if text.Err? {
      return Err(text.error);
    }
    res := Ok(Encoding(Rows(text.value, Lengths(data), Labels(data), Raws(data)), delIdx));
  }

  /** Row i can be encoded at width `width`. */
  predicate RowEncodable(v: Vocab, tokens: seq<string>, width: nat)
  {
    LookupAll(v, tokens).Some? && |tokens| <= width && width > 0
  }

  /**
   * Shape and contents of a successful encoding: one row per example, none
   * removed; every row `width` wide; the token ids from column 0, the unk
   * fallback for unknown tokens, the pad id from `len(tokens)` on; lengths,
   * labels and raw tokens copied row for row.
   */
  lemma EncodeContents(data: seq<Example>, v: Vocab, maxLen: Option<nat>)
    requires Encode(data, v, maxLen).Ok?
    ensures maxLen.Some? || |data| > 0
    ensures PadToken in v.stoi
    ensures var rows := Encode(data, v, maxLen).value.rows;
      && rows.Valid() && rows.Count() == |data|
      && (forall i :: 0 <= i < |data| ==> rows.textLen[i] == |data[i].text|)
      && (forall i :: 0 <= i < |data| ==> rows.labels[i] == data[i].labelId && rows.raw[i] == data[i].text)
      && (forall i :: 0 <= i < |data| ==> |rows.text[i]| == EffectiveWidth(data, maxLen))
      && (forall i, j :: 0 <= i < |data| && 0 <= j < |data[i].text| ==>
            j < |rows.text[i]| && Lookup(v, data[i].text[j]) == Some(rows.text[i][j]))
      && (forall i, j :: 0 <= i < |data| && |data[i].text| <= j < |rows.text[i]| ==>
            rows.text[i][j] == v.stoi[PadToken])
  {
    var w := EffectiveWidth(data, maxLen);
    var pad := v.stoi[PadToken];
    EncodeAllSpec(data, v, w, pad);
    var text := EncodeAll(data, v, w, pad).value;
    var rows := Encode(data, v, maxLen).value.rows;
    assert rows == Rows(text, Lengths(data), Labels(data), Raws(data));
    ColumnsCopied(data);
    forall i | 0 <= i < |data|
      ensures |rows.text[i]| == w
      ensures forall j :: 0 <= j < |data[i].text| ==> j < |rows.text[i]| && Lookup(v, data[i].text[j]) == Some(rows.text[i][j])
      ensures forall j :: |data[i].text| <= j < |rows.text[i]| ==> rows.text[i][j] == pad
    {
      RowContents(v, data[i].text, w, pad, rows.text[i]);
    }
  }

  /** The length, label and raw-token columns hold one entry per example, copied from it. */
  lemma ColumnsCopied(data: seq<Example>)
    ensures |Lengths(data)| == |Labels(data)| == |Raws(data)| == |data|
    ensures forall i :: 0 <= i < |data| ==> Lengths(data)[i] == |data[i].text|
    ensures forall i :: 0 <= i < |data| ==> Labels(data)[i] == data[i].labelId && Raws(data)[i] == data[i].text
  {
  }

  /** An encoded row: `width` wide, token ids from column 0, the pad id after them. */
  lemma RowContents(v: Vocab, tokens: seq<string>, width: nat, pad: int, row: seq<int>)
    requires EncodeRow(v, tokens, width, pad) == Ok(row)
    ensures |row| == width
    ensures forall j :: 0 <= j < |tokens| ==> j < |row| && Lookup(v, tokens[j]) == Some(row[j])
    ensures forall j :: |tokens| <= j < |row| ==> row[j] == pad
  {
  }

  /** `del_idx` lists exactly the rows whose maximum id, padding included, is below 2, in increasing order. */
  lemma EncodeDegenerate(data: seq<Example>, v: Vocab, maxLen: Option<nat>)
    requires Encode(data, v, maxLen).Ok?
    ensures var e := Encode(data, v, maxLen).value;
      && |e.rows.text| == |data|
      && (forall i :: 0 <= i < |e.rows.text| ==> |e.rows.text[i]| > 0)
      && (forall k :: k in e.delIdx <==> 0 <= k < |data| && RowMax(e.rows.text[k]) < 2)
      && (forall a, b :: 0 <= a < b < |e.delIdx| ==> e.delIdx[a] < e.delIdx[b])
  {
    EncodeContents(data, v, maxLen);
    DegenerateRowsSpec(Encode(data, v, maxLen).value.rows.text);
  }

  /**
   * Encoding succeeds exactly when a width is defined, "<pad>" is a key and
   * every row has resolvable tokens, fits the width and the width is not zero.
   */
  lemma EncodeSucceeds(data: seq<Example>, v: Vocab, maxLen: Option<nat>)
    ensures Encode(data, v, maxLen).Ok? <==>
      && (maxLen.Some? || |data| > 0)
      && PadToken in v.stoi
      && forall i :: 0 <= i < |data| ==> RowEncodable(v, data[i].text, EffectiveWidth(data, maxLen))
  {
    if (maxLen.Some? || |data| > 0) && PadToken in v.stoi {
      var w := EffectiveWidth(data, maxLen);
      EncodeAllSpec(data, v, w, v.stoi[PadToken]);
      forall i | 0 <= i < |data|
        ensures RowEncodable(v, data[i].text, w) <==> EncodeRow(v, data[i].text, w, v.stoi[PadToken]).Ok?
      {
      }
    }
  }

  /** Which error is raised: the empty pool first, then the missing pad key, then the first failing row. */
  lemma EncodeFailures(data: seq<Example>, v: Vocab, maxLen: Option<nat>)
    ensures Encode(data, v, maxLen) == Err(EmptyPool) <==> maxLen.None? && |data| == 0
    ensures Encode(data, v, maxLen) == Err(MissingPad) <==> (maxLen.Some? || |data| > 0) && PadToken !in v.stoi
    ensures Encode(data, v, maxLen).Err? && Encode(data, v, maxLen).error.RowFailure? ==>
      var i := Encode(data, v, maxLen).error.row;
      var w := EffectiveWidth(data, maxLen);
      && i < |data|
      && PadToken in v.stoi
      && !RowEncodable(v, data[i].text, w)
      && (forall k :: 0 <= k < i ==> RowEncodable(v, data[k].text, w))
      && Encode(data, v, maxLen) == Err(RowFailure(i, EncodeRow(v, data[i].text, w, v.stoi[PadToken]).error))
  {
    if (maxLen.Some? || |data| > 0) && PadToken in v.stoi {
      EncodeAllSpec(data, v, EffectiveWidth(data, maxLen), v.stoi[PadToken]);
    }
  }
}
