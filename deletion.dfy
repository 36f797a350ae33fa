/**
 * `_del_by_idx` of data/loader.py: `np.delete(array, idx, 0)` applied to
 * every array of a list, each slot of the list being overwritten in place.
 */
module Deletion {
  import opened Wrappers
  import opened SeqUtil

  /** The arrays this helper is given: 1-d int arrays, the 2-d text matrix, the object array of token lists. */
  datatype Column =
    | IntColumn(ints: seq<int>)
    | MatrixColumn(matrix: seq<seq<int>>)
    | TokenColumn(docs: seq<seq<string>>)
  {
    /** The size along axis 0. */
    function Length(): nat
    {
      match this
      case IntColumn(s) => |s|
      case MatrixColumn(s) => |s|
      case TokenColumn(s) => |s|
    }

    /** Both columns are arrays of the same kind. */
    predicate SameKind(other: Column)
    {
      (IntColumn? && other.IntColumn?) || (MatrixColumn? && other.MatrixColumn?) || (TokenColumn? && other.TokenColumn?)
    }
  }

  /** numpy's IndexError: `index` is out of bounds for axis 0 with size `size`. */
  datatype DelError = OutOfBounds(index: int, size: nat)

  /** numpy's reading of an index along an axis of size `n`: negative indices count from the end. */
  function NormIndex(i: int, n: nat): (r: Option<nat>)
    ensures r.Some? <==> -(n as int) <= i < n
    ensures r.Some? ==> r.value < n && (r.value == i || r.value == i + n)
  {
    if 0 <= i < n then Some(i)
    else if -(n as int) <= i < 0 then Some(i + n)
    else None
  }

  /** All indices read against size `n`; the first one out of bounds is reported. */
  function NormIndices(idx: seq<int>, n: nat): (r: Result<seq<nat>, DelError>)
    ensures r.Ok? <==> forall k :: 0 <= k < |idx| ==> NormIndex(idx[k], n).Some?
    ensures r.Ok? ==> |r.value| == |idx| && forall k :: 0 <= k < |idx| ==> r.value[k] == NormIndex(idx[k], n).value
    ensures r.Err? ==> r.error.size == n && r.error.index in idx && NormIndex(r.error.index, n).None?
    decreases |idx|
  {
    if idx == [] then Ok([])
    else
      var init := NormIndices(idx[..|idx| - 1], n);
      var i := idx[|idx| - 1];
      if init.Err? then
        assert idx[..|idx| - 1][0] in idx;
        assert forall x :: x in idx[..|idx| - 1] ==> x in idx;
        init
      else if NormIndex(i, n).None? then Err(OutOfBounds(i, n))
      else Ok(init.value + [NormIndex(i, n).value])
  }

  /** The positions below `n` that are not listed in `drop`, in increasing order. */
  function Survivors(n: nat, drop: seq<nat>): seq<nat>
  {
    if n == 0 then []
    else if n - 1 in drop then Survivors(n - 1, drop)
    else Survivors(n - 1, drop) + [n - 1]
  }

  /** The distinct positions below `n` that `drop` lists. */
  function Dropped(n: nat, drop: seq<nat>): set<nat>
  {
    set i: nat | i < n && i in drop
  }

  /** The survivors are increasing, lie below `n`, and are exactly the positions not dropped. */
  lemma {:induction false} SurvivorsSpec(n: nat, drop: seq<nat>)
    ensures IndicesIn(Survivors(n, drop), n)
    ensures Increasing(Survivors(n, drop))
    ensures forall i: nat :: i in Survivors(n, drop) <==> i < n && i !in drop
  {
    if n > 0 {
      SurvivorsSpec(n - 1, drop);
      forall i: nat ensures i in Survivors(n, drop) <==> i < n && i !in drop {
        assert i in Survivors(n - 1, drop) <==> i < n - 1 && i !in drop;
      }
    }
  }

  /** Each array shrinks by the number of distinct dropped positions. */
  lemma {:induction false} SurvivorsCount(n: nat, drop: seq<nat>)
    ensures |Survivors(n, drop)| + |Dropped(n, drop)| == n
  {
    if n > 0 {
      SurvivorsCount(n - 1, drop);
      if n - 1 in drop {
        assert Dropped(n, drop) == Dropped(n - 1, drop) + {n - 1};
      } else {
        assert Dropped(n, drop) == Dropped(n - 1, drop);
      }
    }
  }

  /** `np.delete(array, idx, 0)`. */
  function DeleteColumn(c: Column, idx: seq<int>): (r: Result<Column, DelError>)
    ensures r.Ok? <==> NormIndices(idx, c.Length()).Ok?
    ensures r.Ok? ==> r.value.SameKind(c)
    ensures r.Ok? ==> r.value.Length() == |Survivors(c.Length(), NormIndices(idx, c.Length()).value)|
  {
    var n := c.Length();
    var norm := NormIndices(idx, n);
    if norm.Err? then Err(norm.error)
    else
      var keep := Survivors(n, norm.value);
      SurvivorsSpec(n, norm.value);
      match c
      case IntColumn(s) => Ok(IntColumn(Gather(s, keep)))
      case MatrixColumn(s) => Ok(MatrixColumn(Gather(s, keep)))
      case TokenColumn(s) => Ok(TokenColumn(Gather(s, keep)))
  }

  /** What `_del_by_idx` is called on: a lone array, or a list of arrays. */
  datatype ArrayArg = LoneArray(column: Column) | ArrayList(columns: array<Column>)

  /** What it returns: one array, or the very list it was given. */
  datatype Deleted = OneArray(column: Column) | SameList(list: array<Column>)

  /** What the list holds after each of its slots that succeeded has been overwritten. */
  function SlotsAfter(cols: seq<Column>, idx: seq<int>, upto: nat): (r: seq<Column>)
    requires upto <= |cols|
    requires forall k :: 0 <= k < upto ==> DeleteColumn(cols[k], idx).Ok?
    ensures |r| == |cols|
  {
    seq(|cols|, k requires 0 <= k < |cols| => if k < upto then DeleteColumn(cols[k], idx).value else cols[k])
  }

  /**
   * A lone array is wrapped in a fresh list. Slot i of the list is replaced
   * by the deleted array as the loop reaches it, so an IndexError in slot i
   * leaves slots before i replaced and the rest untouched. A list of length
   * one comes back unwrapped; a longer one is returned itself.
   */
  method DelByIdx(arg: ArrayArg, idx: seq<int>) returns (res: Result<Deleted, DelError>)
    modifies if arg.ArrayList? then {arg.columns} else {}
    ensures arg.LoneArray? ==> res == (var d := DeleteColumn(arg.column, idx); if d.Ok? then Ok(OneArray(d.value)) else Err(d.error))
    ensures arg.ArrayList? ==> var cols := old(arg.columns[..]);
      && (res.Ok? <==> forall k :: 0 <= k < |cols| ==> DeleteColumn(cols[k], idx).Ok?)
      && (res.Ok? ==> arg.columns[..] == SlotsAfter(cols, idx, |cols|))
      && (res.Ok? && |cols| == 1 ==> res.value == OneArray(arg.columns[0]))
      && (res.Ok? && |cols| != 1 ==> res.value == SameList(arg.columns))
      && (res.Err? ==>
            exists i :: (0 <= i < |cols|
              && (forall k :: 0 <= k < i ==> DeleteColumn(cols[k], idx).Ok?)
              && DeleteColumn(cols[i], idx) == Err(res.error)
              && arg.columns[..] == SlotsAfter(cols, idx, i)))
  {
    var list: array<Column>;
    if arg.LoneArray? {
      list := new Column[1][arg.column];
    } else {
      list := arg.columns;
    }
    ghost var cols := list[..];
    for i := 0 to list.Length
      invariant forall k :: 0 <= k < i ==> DeleteColumn(cols[k], idx).Ok?
      invariant list[..] == SlotsAfter(cols, idx, i)
    {
      var d := DeleteColumn(list[i], idx);
      if d.Err? {
        assert list[i] == cols[i];
        return Err(d.error);
      }
      list[i] := d.value;
    }
    if list.Length == 1 {
      res := Ok(OneArray(list[0]));
    } else {
      res := Ok(SameList(list));
    }
  }

  /**
   * Deleting in-bounds indices keeps, in order, the positions not listed,
   * and the size drops by the number of distinct listed positions.
   */
  lemma DeleteInBounds(c: Column, idx: seq<nat>)
    requires forall k :: 0 <= k < |idx| ==> idx[k] < c.Length()
    ensures NormIndices(idx, c.Length()) == Ok(idx)
    ensures IndicesIn(Survivors(c.Length(), idx), c.Length())
    ensures c.IntColumn? ==> DeleteColumn(c, idx) == Ok(IntColumn(Gather(c.ints, Survivors(c.Length(), idx))))
    ensures c.MatrixColumn? ==> DeleteColumn(c, idx) == Ok(MatrixColumn(Gather(c.matrix, Survivors(c.Length(), idx))))
    ensures c.TokenColumn? ==> DeleteColumn(c, idx) == Ok(TokenColumn(Gather(c.docs, Survivors(c.Length(), idx))))
    ensures DeleteColumn(c, idx).Ok?
    ensures DeleteColumn(c, idx).value.Length() + |Dropped(c.Length(), idx)| == c.Length()
  {
    var r := NormIndices(idx, c.Length());
    assert r.Ok?;
    assert r.value == idx;
    SurvivorsSpec(c.Length(), idx);
    SurvivorsCount(c.Length(), idx);
  }
}
