/**
 * `_meta_split` and `_read_words` of data/loader.py: the example list is
 * filtered into the meta-train, meta-val and meta-test pools by class, and
 * the tokens of a list of examples are collected with duplicates.
 */
module MetaSplit {
  import opened SeqUtil
  import opened Encoder
  import opened ClassTables

  // ---------------------------------------------------------------------
  // Specification: a stable filter by label.
  // ---------------------------------------------------------------------

  /** The examples of `data` whose label is in `classes`, in input order. */
  function Select(data: seq<Example>, classes: seq<int>): seq<Example>
    decreases |data|
  {
    if data == [] then []
    else
      var init := Select(data[..|data| - 1], classes);
      var e := data[|data| - 1];
      if e.labelId in classes then init + [e] else init
  }

  /** The positions of `data` that the filter keeps. */
  function SelectedIndices(data: seq<Example>, classes: seq<int>): seq<nat>
    decreases |data|
  {
    if data == [] then []
    else
      var init := SelectedIndices(data[..|data| - 1], classes);
      if data[|data| - 1].labelId in classes then init + [|data| - 1] else init
  }

  /** The kept positions are increasing and are exactly those whose label is in the class list. */
  lemma {:induction false} SelectedIndicesSpec(data: seq<Example>, classes: seq<int>)
    ensures IndicesIn(SelectedIndices(data, classes), |data|)
    ensures Increasing(SelectedIndices(data, classes))
    ensures forall i :: i in SelectedIndices(data, classes) <==> 0 <= i < |data| && data[i].labelId in classes
    decreases |data|
  {
    if data != [] {
      var n := |data| - 1;
      SelectedIndicesSpec(data[..n], classes);
      forall i | 0 <= i < n ensures data[..n][i] == data[i] { }
    }
  }

  /** The filter is the gather of the kept positions: the pool keeps the input order. */
  lemma {:induction false} SelectIsGather(data: seq<Example>, classes: seq<int>)
    ensures IndicesIn(SelectedIndices(data, classes), |data|)
    ensures Select(data, classes) == Gather(data, SelectedIndices(data, classes))
    decreases |data|
  {
    SelectedIndicesSpec(data, classes);
    if data != [] {
      var n := |data| - 1;
      var ix := SelectedIndices(data[..n], classes);
      SelectIsGather(data[..n], classes);
      SelectedIndicesSpec(data[..n], classes);
      assert Gather(data[..n], ix) == Gather(data, ix);
      if data[n].labelId in classes {
        GatherConcat(data, ix, [n]);
      }
    }
  }

  /** An example is in a pool exactly when it is in the input and its label is in the pool's classes. */
  lemma {:induction false} SelectMember(data: seq<Example>, classes: seq<int>, e: Example)
    ensures e in Select(data, classes) <==> e in data && e.labelId in classes
    decreases |data|
  {
    if data != [] {
      var n := |data| - 1;
      SelectMember(data[..n], classes, e);
      assert data == data[..n] + [data[n]];
    }
  }

  /**
   * When the class lists of two pools share no class, no input position is
   * sent to both.
   */
  lemma DisjointPools(data: seq<Example>, c1: seq<int>, c2: seq<int>)
    requires forall x :: x in c1 ==> x !in c2
    ensures forall i :: i in SelectedIndices(data, c1) ==> i !in SelectedIndices(data, c2)
  {
    SelectedIndicesSpec(data, c1);
    SelectedIndicesSpec(data, c2);
  }

  /**
   * With the 20newsgroup class table, every example whose label is one of the
   * 20 class ids is sent to exactly one of the three pools.
   */
  lemma NewsgroupExactlyOnePool(data: seq<Example>, i: nat)
    requires i < |data| && 0 <= data[i].labelId < 20
    ensures var cs := NewsgroupClassTable();
      var inTrain := i in SelectedIndices(data, cs.train);
      var inVal := i in SelectedIndices(data, cs.val);
      var inTest := i in SelectedIndices(data, cs.test);
      (inTrain || inVal || inTest) && !(inTrain && inVal) && !(inTrain && inTest) && !(inVal && inTest)
  {
    var cs := NewsgroupClassTable();
    NewsgroupTablePartition();
    SelectedIndicesSpec(data, cs.train);
    SelectedIndicesSpec(data, cs.val);
    SelectedIndicesSpec(data, cs.test);
    assert data[i].labelId in cs.train || data[i].labelId in cs.val || data[i].labelId in cs.test;
  }

  /**
   * When the three class lists partition [0, n) and every label is a class
   * id below n, the three pools together hold exactly as many examples as
   * the input.
   */
  lemma {:induction false} PartitionedPoolSizes(data: seq<Example>, cs: ClassSplit, n: int)
    requires PairwiseDisjoint(cs) && CoversRange(cs, n)
    requires forall i :: 0 <= i < |data| ==> 0 <= data[i].labelId < n
    ensures |Select(data, cs.train)| + |Select(data, cs.val)| + |Select(data, cs.test)| == |data|
    decreases |data|
  {
    if data != [] {
      var m := |data| - 1;
      PartitionedPoolSizes(data[..m], cs, n);
      var x := data[m].labelId;
      assert x in cs.train || x in cs.val || x in cs.test;
    }
  }

  // ---------------------------------------------------------------------
  // The loop of `_meta_split`.
  // ---------------------------------------------------------------------

  /**
   * Each example is tested against each pool's class list on its own, so
   * an example can be appended to several pools or to none.
   */
  method MetaSplit(allData: seq<Example>, trainClasses: seq<int>, valClasses: seq<int>, testClasses: seq<int>)
    returns (trainData: seq<Example>, valData: seq<Example>, testData: seq<Example>)
    ensures trainData == Select(allData, trainClasses)
    ensures valData == Select(allData, valClasses)
    ensures testData == Select(allData, testClasses)
  {
    trainData, valData, testData := [], [], [];
    for i := 0 to |allData|
      invariant trainData == Select(allData[..i], trainClasses)
      invariant valData == Select(allData[..i], valClasses)
      invariant testData == Select(allData[..i], testClasses)
    {
      var example := allData[i];
      assert allData[..i + 1][..i] == allData[..i];
      if example.labelId in trainClasses {
        trainData := trainData + [example];
      }
      if example.labelId in valClasses {
        valData := valData + [example];
      }
      if example.labelId in testClasses {
        testData := testData + [example];
      }
    }
    assert allData[..|allData|] == allData;
  }

  // ---------------------------------------------------------------------
  // `_read_words`.
  // ---------------------------------------------------------------------

  /** The loop `words += example['text']`: every token of every example, duplicates kept. */
  method ReadWords(data: seq<Example>) returns (words: seq<string>)
    ensures words == Flatten(Raws(data))
  {
    words := [];
    for i := 0 to |data|
      invariant words == Flatten(Raws(data[..i]))
    {
      assert Raws(data[..i + 1]) == Raws(data[..i]) + [data[i].text];
      FlattenAppend(Raws(data[..i]), [data[i].text]);
      assert Flatten([data[i].text]) == data[i].text by {
        assert [data[i].text][..0] == [];
      }
      words := words + data[i].text;
    }
    assert data[..|data|] == data;
  }

  /** The word list has one entry per token, and holds exactly the tokens occurring in some example. */
  lemma WordsSpec(data: seq<Example>, w: string)
    ensures |Flatten(Raws(data))| == TotalLength(Raws(data))
    ensures w in Flatten(Raws(data)) <==> exists i :: 0 <= i < |data| && w in data[i].text
  {
    FlattenLength(Raws(data));
    FlattenMember(Raws(data), w);
    var ts := Raws(data);
    assert forall i :: 0 <= i < |data| ==> ts[i] == data[i].text;
    if w in Flatten(ts) {
      var k :| 0 <= k < |ts| && w in ts[k];
      assert w in data[k].text;
    }
  }
}
