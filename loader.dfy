/**
 * `load_dataset` of data/loader.py: the dataset name picks the class table
 * and the matrix width, the examples are split into the three class pools,
 * each pool is encoded with the word-vector `stoi`, and the meta-train pool
 * is tagged.
 */
module Loader {
  import opened Wrappers
  import opened SeqUtil
  import opened Vocabulary
  import opened Pools
  import opened Encoder
  import opened ClassTables
  import opened MetaSplit
  import opened Conversion

  /** The six supported datasets. */
  datatype Dataset = Newsgroup20 | Amazon | FewRel | HuffPost | Reuters | Rcv1

  /** The name each dataset is selected by. */
  function DatasetName(d: Dataset): string
  {
    match d
    case Newsgroup20 => "20newsgroup"
    case Amazon => "amazon"
    case FewRel => "fewrel"
    case HuffPost => "huffpost"
    case Reuters => "reuters"
    case Rcv1 => "rcv1"
  }

  /** Which of the three pools an error was raised for. */
  datatype PoolKind = MetaTrain | MetaVal | MetaTest

  datatype LoadError =
    | UnsupportedDataset(name: string)                 // the ValueError of the dispatch
    | ConversionFailed(pool: PoolKind, error: EncodeError)

  /** The dispatch on the dataset name. */
  function ParseDataset(name: string): (r: Result<Dataset, LoadError>)
    ensures r.Ok? ==> DatasetName(r.value) == name
    ensures r.Err? ==> r.error == UnsupportedDataset(name) && forall d: Dataset :: DatasetName(d) != name
  {
    if name == "20newsgroup" then Ok(Newsgroup20)
    else if name == "amazon" then Ok(Amazon)
    else if name == "fewrel" then Ok(FewRel)
    else if name == "huffpost" then Ok(HuffPost)
    else if name == "reuters" then Ok(Reuters)
    else if name == "rcv1" then Ok(Rcv1)
    else Err(UnsupportedDataset(name))
  }

  /** Every dataset is selected by its own name and by no other. */
  lemma {:induction false} ParseDatasetName(d: Dataset)
    ensures ParseDataset(DatasetName(d)) == Ok(d)
  {
    match d
    case Newsgroup20 =>
    case Amazon => assert DatasetName(d) != "20newsgroup";
    case FewRel => assert DatasetName(d) != "20newsgroup";
    case HuffPost => assert DatasetName(d) != "20newsgroup";
    case Reuters => assert DatasetName(d) != "20newsgroup";
    case Rcv1 => assert DatasetName(d) != "20newsgroup";
  }

  /** The class table of each dataset. */
  function ClassTable(d: Dataset): ClassSplit
  {
    match d
    case Newsgroup20 => NewsgroupClassTable()
    case Amazon => AmazonClasses
    case FewRel => FewRelClasses
    case HuffPost => HuffPostClasses()
    case Reuters => ReutersClasses()
    case Rcv1 => Rcv1Classes
  }

  /** The six `_get_*_classes` calls of the dispatch. */
  method GetClasses(d: Dataset) returns (cs: ClassSplit)
    ensures cs == ClassTable(d)
  {
    if d == Newsgroup20 {
      cs := NewsgroupClasses();
      NewsgroupTableComputed();
    } else {
      cs := ClassTable(d);
    }
  }

  /** The fixed matrix width: 500 for 20newsgroup, 38 for fewrel, 44 for the rest. */
  function MaxTextLen(d: Dataset): nat
  {
    if d == Newsgroup20 then 500 else if d == FewRel then 38 else 44
  }

  /** The encoding of one class pool, as `data_to_nparray` computes it for the active encoder. */
  function PoolEncoding(allData: seq<Example>, classes: seq<int>, d: Dataset, stoi: map<string, int>): Result<Encoding, EncodeError>
  {
    Encode(Select(allData, classes), Vocab(stoi, UnkKey), Some(MaxTextLen(d)))
  }

  /**
   * The outcome of converting the three pools whose encodings are `tr`, `va`
   * and `te`: the first failing one names the error; otherwise three new,
   * distinct dictionaries holding the encoded rows, the vocabulary size,
   * and the train tag on the first one only.
   */
  twostate predicate Loaded(new res: Result<(Pool, Pool, Pool), LoadError>,
                            tr: Result<Encoding, EncodeError>, va: Result<Encoding, EncodeError>,
                            te: Result<Encoding, EncodeError>, vocabSize: int)
    reads if res.Ok? then {res.value.0, res.value.1, res.value.2} else {}
  {
    && (res.Ok? <==> tr.Ok? && va.Ok? && te.Ok?)
    && (tr.Err? ==> res == Err(ConversionFailed(MetaTrain, tr.error)))
    && (tr.Ok? && va.Err? ==> res == Err(ConversionFailed(MetaVal, va.error)))
    && (tr.Ok? && va.Ok? && te.Err? ==> res == Err(ConversionFailed(MetaTest, te.error)))
    && (res.Ok? ==>
          && fresh(res.value.0) && fresh(res.value.1) && fresh(res.value.2)
          && res.value.0 != res.value.1 && res.value.0 != res.value.2 && res.value.1 != res.value.2
          && res.value.0.rows == tr.value.rows && res.value.1.rows == va.value.rows && res.value.2.rows == te.value.rows
          && res.value.0.vocabSize == vocabSize && res.value.1.vocabSize == vocabSize && res.value.2.vocabSize == vocabSize
          && res.value.0.isTrain && !res.value.1.isTrain && !res.value.2.isTrain)
  }

  /**
   * `data_to_nparray` on the train, val and test pools in that order (the
   * first one that raises ends the load), then `is_train` on the train pool.
   */
  method ConvertPools(trainData: seq<Example>, valData: seq<Example>, testData: seq<Example>,
                      stoi: map<string, int>, vocabSize: int, maxLen: nat)
    returns (res: Result<(Pool, Pool, Pool), LoadError>)
    ensures var v := Vocab(stoi, UnkKey);
      Loaded(res, Encode(trainData, v, Some(maxLen)), Encode(valData, v, Some(maxLen)), Encode(testData, v, Some(maxLen)), vocabSize)
  {
    var train := DataToNparray(trainData, stoi, vocabSize, Some(maxLen));
    if train.Err? {
      return Err(ConversionFailed(MetaTrain, train.error));
    }
    var val := DataToNparray(valData, stoi, vocabSize, Some(maxLen));
    if val.Err? {
      return Err(ConversionFailed(MetaVal, val.error));
    }
    var test := DataToNparray(testData, stoi, vocabSize, Some(maxLen));
    if test.Err? {
      return Err(ConversionFailed(MetaTest, test.error));
    }
    train.value.isTrain := true;
    res := Ok((train.value, val.value, test.value));
  }

  /**
   * The whole loader after the dispatch: `_meta_split` by the dataset's
   * class table, then the three conversions at the dataset's width.
   */
  method SplitAndConvert(allData: seq<Example>, d: Dataset, stoi: map<string, int>, vocabSize: int)
    returns (res: Result<(Pool, Pool, Pool), LoadError>)
    ensures var cs := ClassTable(d);
      Loaded(res, PoolEncoding(allData, cs.train, d, stoi), PoolEncoding(allData, cs.val, d, stoi),
             PoolEncoding(allData, cs.test, d, stoi), vocabSize)
  {
    var cs := GetClasses(d);
    var trainData, valData, testData := MetaSplit.MetaSplit(allData, cs.train, cs.val, cs.test);
    res := ConvertPools(trainData, valData, testData, stoi, vocabSize, MaxTextLen(d));
  }

  /**
   * `load_dataset`: the dispatch on the name, then the split and the
   * conversions. The example list and the word-vector table are parameters.
   */
  method LoadDataset(name: string, allData: seq<Example>, stoi: map<string, int>, vocabSize: int)
    returns (res: Result<(Pool, Pool, Pool), LoadError>)
    ensures ParseDataset(name).Err? ==> res == Err(UnsupportedDataset(name))
    ensures ParseDataset(name).Ok? ==>
      var d := ParseDataset(name).value;
      var cs := ClassTable(d);
      Loaded(res, PoolEncoding(allData, cs.train, d, stoi), PoolEncoding(allData, cs.val, d, stoi),
             PoolEncoding(allData, cs.test, d, stoi), vocabSize)
  {
    var parsed := ParseDataset(name);
    if parsed.Err? {
      return Err(parsed.error);
    }
    res := SplitAndConvert(allData, parsed.value, stoi, vocabSize);
  }

  // ---------------------------------------------------------------------
  // What the loaded pools hold.
  // ---------------------------------------------------------------------

  /**
   * A pool's rows are its examples in input order: row i holds the label,
   * the raw tokens and the length of the i-th example whose label is in the
   * pool's class list, so every label of the pool is one of its classes.
   */
  lemma PoolRows(allData: seq<Example>, classes: seq<int>, d: Dataset, stoi: map<string, int>)
    requires PoolEncoding(allData, classes, d, stoi).Ok?
    ensures var rows := PoolEncoding(allData, classes, d, stoi).value.rows;
      var sel := Select(allData, classes);
      && rows.Valid() && rows.Count() == |sel|
      && (forall i :: 0 <= i < |sel| ==> rows.labels[i] == sel[i].labelId && rows.raw[i] == sel[i].text && rows.textLen[i] == |sel[i].text|)
      && (forall i :: 0 <= i < |sel| ==> rows.labels[i] in classes && sel[i] in allData)
      && (forall i :: 0 <= i < |sel| ==> |rows.text[i]| == MaxTextLen(d))
  {
    var sel := Select(allData, classes);
    EncodeContents(sel, Vocab(stoi, UnkKey), Some(MaxTextLen(d)));
    forall i | 0 <= i < |sel| ensures sel[i].labelId in classes && sel[i] in allData {
      SelectMember(allData, classes, sel[i]);
    }
  }

  /**
   * Loading cannot fail on a row when "<pad>" and "unk" are keys of the
   * word-vector table and no example is longer than the dataset's width:
   * with a positive width and the unk fallback, every row encodes.
   */
  lemma LoadSucceeds(allData: seq<Example>, classes: seq<int>, d: Dataset, stoi: map<string, int>)
    requires PadToken in stoi && UnkToken in stoi
    requires forall i :: 0 <= i < |allData| ==> |allData[i].text| <= MaxTextLen(d)
    ensures PoolEncoding(allData, classes, d, stoi).Ok?
  {
    var sel := Select(allData, classes);
    var v := Vocab(stoi, UnkKey);
    EncodeSucceeds(sel, v, Some(MaxTextLen(d)));
    forall i | 0 <= i < |sel| ensures RowEncodable(v, sel[i].text, EffectiveWidth(sel, Some(MaxTextLen(d)))) {
      SelectMember(allData, classes, sel[i]);
      UnkFailure(v, sel[i].text);
    }
  }

  /** The number of class ids of each dataset's table. */
  function ClassCount(d: Dataset): nat
  {
    match d
    case Newsgroup20 => 20
    case Amazon => 24
    case FewRel => 80
    case HuffPost => 41
    case Reuters => 31
    case Rcv1 => 71
  }

  /** Every dataset's table splits its class ids 0..ClassCount(d)-1 into three disjoint lists. */
  lemma TablePartition(d: Dataset)
    ensures PairwiseDisjoint(ClassTable(d)) && CoversRange(ClassTable(d), ClassCount(d))
  {
    match d
    case Newsgroup20 => NewsgroupTablePartition();
    case Amazon => AmazonPartition();
    case FewRel => FewRelPartition();
    case HuffPost =>
    case Reuters =>
    case Rcv1 => Rcv1Partition();
  }

  /**
   * For every dataset, the three pools share no class, and when every label
   * is one of the dataset's class ids they hold every example exactly once
   * between them.
   */
  lemma DatasetPools(allData: seq<Example>, d: Dataset)
    requires forall i :: 0 <= i < |allData| ==> 0 <= allData[i].labelId < ClassCount(d)
    ensures var cs := ClassTable(d);
      && |Select(allData, cs.train)| + |Select(allData, cs.val)| + |Select(allData, cs.test)| == |allData|
      && PairwiseDisjoint(cs)
  {
    TablePartition(d);
    PartitionedPoolSizes(allData, ClassTable(d), ClassCount(d));
  }
}
