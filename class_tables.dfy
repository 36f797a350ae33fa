/**
 * The per-dataset class tables of data/loader.py: which label ids are
 * meta-train, meta-val and meta-test classes.
 */
module ClassTables {
  import opened SeqUtil

  /** The three class-id lists returned by every `_get_*_classes`. */
  datatype ClassSplit = ClassSplit(train: seq<int>, val: seq<int>, test: seq<int>)

  /** The three lists share no id. */
  predicate PairwiseDisjoint(cs: ClassSplit)
  {
    && (forall x :: x in cs.train ==> x !in cs.val && x !in cs.test)
    && (forall x :: x in cs.val ==> x !in cs.test)
  }

  /** Every id of the three lists is a class id below `n`. */
  predicate InRange(cs: ClassSplit, n: int)
  {
    (forall k :: 0 <= k < |cs.train| ==> 0 <= cs.train[k] < n)
    && (forall k :: 0 <= k < |cs.val| ==> 0 <= cs.val[k] < n)
    && (forall k :: 0 <= k < |cs.test| ==> 0 <= cs.test[k] < n)
  }

  /** Every id in [0, n) is in one of the lists, and no other id is. */
  ghost predicate CoversRange(cs: ClassSplit, n: int)
  {
    forall x :: (x in cs.train || x in cs.val || x in cs.test) <==> 0 <= x < n
  }

  /** `[lo, lo+1, ..., hi-1]`: Python's `list(range(lo, hi))`. */
  function IntRange(lo: int, hi: int): (r: seq<int>)
    requires lo <= hi
    ensures |r| == hi - lo
    ensures forall x :: x in r <==> lo <= x < hi
    decreases hi - lo
  {
    if lo == hi then [] else [lo] + IntRange(lo + 1, hi)
  }

  // ---------------------------------------------------------------------
  // 20newsgroup: the lists are derived from the newsgroup names.
  // ---------------------------------------------------------------------

  /** The label dictionary, in its insertion (iteration) order. */
  const NewsgroupLabels: seq<(string, int)> := [
    ("talk.politics.mideast", 0),
    ("sci.space", 1),
    ("misc.forsale", 2),
    ("talk.politics.misc", 3),
    ("comp.graphics", 4),
    ("sci.crypt", 5),
    ("comp.windows.x", 6),
    ("comp.os.ms-windows.misc", 7),
    ("talk.politics.guns", 8),
    ("talk.religion.misc", 9),
    ("rec.autos", 10),
    ("sci.med", 11),
    ("comp.sys.mac.hardware", 12),
    ("sci.electronics", 13),
    ("rec.sport.hockey", 14),
    ("alt.atheism", 15),
    ("rec.motorcycles", 16),
    ("comp.sys.ibm.pc.hardware", 17),
    ("rec.sport.baseball", 18),
    ("soc.religion.christian", 19)
  ]

  /** Python's `s.find(c, i)`: the first index at or after `i` holding `c`, or -1. */
  function FindFrom(s: string, c: char, i: nat): (r: int)
    requires i <= |s|
    ensures r == -1 || i <= r < |s|
    ensures r >= 0 ==> s[r] == c
    decreases |s| - i
  {
    if i == |s| then -1
    else if s[i] == c then i
    else FindFrom(s, c, i + 1)
  }

  /** `key[:key.find('.')]`; when there is no dot, find gives -1 and the slice drops the last character. */
  function Prefix(key: string): string
  {
    var k := FindFrom(key, '.', 0);
    if k >= 0 then key[..k] else if key == [] then [] else key[..|key| - 1]
  }

  /** The ids, in dictionary order, of the keys whose prefix is (or is not, when `keep` is false) in `prefixes`. */
  function IdsByPrefix(labels: seq<(string, int)>, prefixes: seq<string>, keep: bool): seq<int>
    decreases |labels|
  {
    if labels == [] then []
    else
      var last := labels[|labels| - 1];
      IdsByPrefix(labels[..|labels| - 1], prefixes, keep)
        + (if (Prefix(last.0) in prefixes) == keep then [last.1] else [])
  }

  /** What `_get_20newsgroup_classes` computes: sci/rec to train, comp to val, every other prefix to test. */
  function NewsgroupSpec(): ClassSplit
  {
    ClassSplit(
      IdsByPrefix(NewsgroupLabels, ["sci", "rec"], true),
      IdsByPrefix(NewsgroupLabels, ["comp"], true),
      IdsByPrefix(NewsgroupLabels, ["comp", "sci", "rec"], false))
  }

  /** The part before the first dot of each name above. */
  const NewsgroupGroups: seq<string> := ["talk", "sci", "misc", "talk", "comp", "sci", "comp", "comp", "talk", "talk", "rec", "sci", "comp", "sci", "rec", "alt", "rec", "comp", "rec", "soc"]

  /** When the first dot of `key` is at `n`, the prefix is the part before it. */
  lemma {:induction false} PrefixBeforeDot(key: string, n: nat)
    requires n < |key| && key[n] == '.'
    requires forall j :: 0 <= j < n ==> key[j] != '.'
    ensures Prefix(key) == key[..n]
  {
    FindFirst(key, '.', 0, n);
  }

  /** `find` from `i` stops at the first match `n`. */
  lemma {:induction false} FindFirst(s: string, c: char, i: nat, n: nat)
    requires i <= n < |s| && s[n] == c
    requires forall j :: i <= j < n ==> s[j] != c
    ensures FindFrom(s, c, i) == n
    decreases n - i
  {
    if i < n {
      FindFirst(s, c, i + 1, n);
    }
  }

  lemma NewsgroupPrefixes0()
    ensures Prefix(NewsgroupLabels[0].0) == NewsgroupGroups[0]
    ensures Prefix(NewsgroupLabels[1].0) == NewsgroupGroups[1]
  {
    PrefixBeforeDot(NewsgroupLabels[0].0, 4);
    PrefixBeforeDot(NewsgroupLabels[1].0, 3);
  }

  lemma NewsgroupPrefixes1()
    ensures Prefix(NewsgroupLabels[2].0) == NewsgroupGroups[2]
    ensures Prefix(NewsgroupLabels[3].0) == NewsgroupGroups[3]
  {
    PrefixBeforeDot(NewsgroupLabels[2].0, 4);
    PrefixBeforeDot(NewsgroupLabels[3].0, 4);
  }

  lemma NewsgroupPrefixes2()
    ensures Prefix(NewsgroupLabels[4].0) == NewsgroupGroups[4]
    ensures Prefix(NewsgroupLabels[5].0) == NewsgroupGroups[5]
  {
    PrefixBeforeDot(NewsgroupLabels[4].0, 4);
    PrefixBeforeDot(NewsgroupLabels[5].0, 3);
  }

  lemma NewsgroupPrefixes3()
    ensures Prefix(NewsgroupLabels[6].0) == NewsgroupGroups[6]
    ensures Prefix(NewsgroupLabels[7].0) == NewsgroupGroups[7]
  {
    PrefixBeforeDot(NewsgroupLabels[6].0, 4);
    PrefixBeforeDot(NewsgroupLabels[7].0, 4);
  }

  lemma NewsgroupPrefixes4()
    ensures Prefix(NewsgroupLabels[8].0) == NewsgroupGroups[8]
    ensures Prefix(NewsgroupLabels[9].0) == NewsgroupGroups[9]
  {
    PrefixBeforeDot(NewsgroupLabels[8].0, 4);
    PrefixBeforeDot(NewsgroupLabels[9].0, 4);
  }

  lemma NewsgroupPrefixes5()
    ensures Prefix(NewsgroupLabels[10].0) == NewsgroupGroups[10]
    ensures Prefix(NewsgroupLabels[11].0) == NewsgroupGroups[11]
  {
    PrefixBeforeDot(NewsgroupLabels[10].0, 3);
    PrefixBeforeDot(NewsgroupLabels[11].0, 3);
  }

  lemma NewsgroupPrefixes6()
    ensures Prefix(NewsgroupLabels[12].0) == NewsgroupGroups[12]
    ensures Prefix(NewsgroupLabels[13].0) == NewsgroupGroups[13]
  {
    PrefixBeforeDot(NewsgroupLabels[12].0, 4);
    PrefixBeforeDot(NewsgroupLabels[13].0, 3);
  }

  lemma NewsgroupPrefixes7()
    ensures Prefix(NewsgroupLabels[14].0) == NewsgroupGroups[14]
    ensures Prefix(NewsgroupLabels[15].0) == NewsgroupGroups[15]
  {
    PrefixBeforeDot(NewsgroupLabels[14].0, 3);
    PrefixBeforeDot(NewsgroupLabels[15].0, 3);
  }

  lemma NewsgroupPrefixes8()
    ensures Prefix(NewsgroupLabels[16].0) == NewsgroupGroups[16]
    ensures Prefix(NewsgroupLabels[17].0) == NewsgroupGroups[17]
  {
    PrefixBeforeDot(NewsgroupLabels[16].0, 3);
    PrefixBeforeDot(NewsgroupLabels[17].0, 4);
  }

  lemma NewsgroupPrefixes9()
    ensures Prefix(NewsgroupLabels[18].0) == NewsgroupGroups[18]
    ensures Prefix(NewsgroupLabels[19].0) == NewsgroupGroups[19]
  {
    PrefixBeforeDot(NewsgroupLabels[18].0, 3);
    PrefixBeforeDot(NewsgroupLabels[19].0, 3);
  }

  /** The group prefix of every newsgroup name. */
  lemma NewsgroupPrefixes()
    ensures |NewsgroupGroups| == |NewsgroupLabels|
    ensures forall k :: 0 <= k < |NewsgroupLabels| ==> Prefix(NewsgroupLabels[k].0) == NewsgroupGroups[k]
  {
    NewsgroupPrefixes0();
    NewsgroupPrefixes1();
    NewsgroupPrefixes2();
    NewsgroupPrefixes3();
    NewsgroupPrefixes4();
    NewsgroupPrefixes5();
    NewsgroupPrefixes6();
    NewsgroupPrefixes7();
    NewsgroupPrefixes8();
    NewsgroupPrefixes9();
    forall k | 0 <= k < |NewsgroupLabels| ensures Prefix(NewsgroupLabels[k].0) == NewsgroupGroups[k] {
      if k < 10 {
        if k < 5 { assert k == 0 || k == 1 || k == 2 || k == 3 || k == 4; }
        else { assert k == 5 || k == 6 || k == 7 || k == 8 || k == 9; }
      } else {
        if k < 15 { assert k == 10 || k == 11 || k == 12 || k == 13 || k == 14; }
        else { assert k == 15 || k == 16 || k == 17 || k == 18 || k == 19; }
      }
    }
  }

  /** The 20newsgroup lists as id literals. */
  function NewsgroupClassTable(): ClassSplit
  {
    ClassSplit([1, 5, 10, 11, 13, 14, 16, 18], [4, 6, 7, 12, 17], [0, 2, 3, 8, 9, 15, 19])
  }

  /** Which ids each group sends where. */
  lemma NewsgroupGroupIds()
    ensures forall x :: x in NewsgroupClassTable().train <==> 0 <= x < 20 && NewsgroupGroups[x] in ["sci", "rec"]
    ensures forall x :: x in NewsgroupClassTable().val <==> 0 <= x < 20 && NewsgroupGroups[x] in ["comp"]
    ensures forall x :: x in NewsgroupClassTable().test <==> 0 <= x < 20 && NewsgroupGroups[x] !in ["comp", "sci", "rec"]
  {
    NewsgroupTrainGroups();
    NewsgroupValGroups();
    NewsgroupTestGroups();
  }

  /** The literal train list holds exactly the sci and rec ids. */
  lemma NewsgroupTrainGroups()
    ensures forall x :: x in NewsgroupClassTable().train <==> 0 <= x < 20 && NewsgroupGroups[x] in ["sci", "rec"]
  {
  }

  /** The literal val list holds exactly the comp ids. */
  lemma NewsgroupValGroups()
    ensures forall x :: x in NewsgroupClassTable().val <==> 0 <= x < 20 && NewsgroupGroups[x] in ["comp"]
  {
  }

  /** The literal test list holds exactly the ids of the other groups. */
  lemma NewsgroupTestGroups()
    ensures forall x :: x in NewsgroupClassTable().test <==> 0 <= x < 20 && NewsgroupGroups[x] !in ["comp", "sci", "rec"]
  {
  }

  /** The literal lists are increasing. */
  lemma NewsgroupTableIncreasing()
    ensures Increasing(NewsgroupClassTable().train) && Increasing(NewsgroupClassTable().val) && Increasing(NewsgroupClassTable().test)
  {
  }

  /** The selected ids of a dictionary whose ids are its positions are increasing. */
  lemma {:induction false} IdsByPrefixIncreasing(labels: seq<(string, int)>, prefixes: seq<string>, keep: bool)
    requires forall k :: 0 <= k < |labels| ==> labels[k].1 == k
    ensures Increasing(IdsByPrefix(labels, prefixes, keep))
    ensures forall k :: 0 <= k < |IdsByPrefix(labels, prefixes, keep)| ==> 0 <= IdsByPrefix(labels, prefixes, keep)[k] < |labels|
    decreases |labels|
  {
    if labels != [] {
      var n := |labels| - 1;
      IdsByPrefixIncreasing(labels[..n], prefixes, keep);
      assert forall k :: 0 <= k < n ==> labels[..n][k] == labels[k];
    }
  }

  /** An id is selected exactly when some entry with that id has a matching prefix. */
  lemma {:induction false} IdsByPrefixMember(labels: seq<(string, int)>, prefixes: seq<string>, keep: bool, x: int)
    ensures x in IdsByPrefix(labels, prefixes, keep)
        <==> exists k :: 0 <= k < |labels| && labels[k].1 == x && (Prefix(labels[k].0) in prefixes) == keep
    decreases |labels|
  {
    if labels != [] {
      var init := labels[..|labels| - 1];
      IdsByPrefixMember(init, prefixes, keep, x);
      assert forall k :: 0 <= k < |init| ==> init[k] == labels[k];
    }
  }

  /**
   * For any label dictionary with distinct ids, selecting by prefix set A, by a
   * disjoint prefix set B and by "neither A nor B" gives three pairwise disjoint
   * lists whose union is every id of the dictionary.
   */
  lemma PrefixSplitPartitions(labels: seq<(string, int)>, a: seq<string>, b: seq<string>)
    requires forall i, j :: 0 <= i < j < |labels| ==> labels[i].1 != labels[j].1
    requires forall p :: p in a ==> p !in b
    ensures var cs := ClassSplit(IdsByPrefix(labels, a, true), IdsByPrefix(labels, b, true), IdsByPrefix(labels, b + a, false));
      && PairwiseDisjoint(cs)
      && forall x :: (x in cs.train || x in cs.val || x in cs.test) <==> exists k :: 0 <= k < |labels| && labels[k].1 == x
  {
    forall x
      ensures x in IdsByPrefix(labels, a, true) <==> exists k :: 0 <= k < |labels| && labels[k].1 == x && Prefix(labels[k].0) in a
      ensures x in IdsByPrefix(labels, b, true) <==> exists k :: 0 <= k < |labels| && labels[k].1 == x && Prefix(labels[k].0) in b
      ensures x in IdsByPrefix(labels, b + a, false) <==> exists k :: 0 <= k < |labels| && labels[k].1 == x && Prefix(labels[k].0) !in b + a
    {
      IdsByPrefixMember(labels, a, true, x);
      IdsByPrefixMember(labels, b, true, x);
      IdsByPrefixMember(labels, b + a, false, x);
    }
  }

  /** One append loop of `_get_20newsgroup_classes`: walks the dictionary and keeps the ids whose prefix test is `keep`. */
  method IdsWithPrefix(labels: seq<(string, int)>, prefixes: seq<string>, keep: bool) returns (ids: seq<int>)
    ensures ids == IdsByPrefix(labels, prefixes, keep)
  {
    ids := [];
    for i := 0 to |labels|
      invariant ids == IdsByPrefix(labels[..i], prefixes, keep)
    {
      assert labels[..i + 1][..i] == labels[..i];
      var (key, id) := labels[i];
      if (Prefix(key) in prefixes) == keep { ids := ids + [id]; }
    }
    assert labels[..|labels|] == labels;
  }

  /** `_get_20newsgroup_classes`: three append loops over the label dictionary. */
  method NewsgroupClasses() returns (cs: ClassSplit)
    ensures cs == NewsgroupSpec()
  {
    var train := IdsWithPrefix(NewsgroupLabels, ["sci", "rec"], true);
    var val := IdsWithPrefix(NewsgroupLabels, ["comp"], true);
    var test := IdsWithPrefix(NewsgroupLabels, ["comp", "sci", "rec"], false);
    cs := ClassSplit(train, val, test);
  }

  /** The ids of the label dictionary are 0..19, in order. */
  lemma NewsgroupIds()
    ensures forall k :: 0 <= k < |NewsgroupLabels| ==> NewsgroupLabels[k].1 == k
  {
  }

  /**
   * For a dictionary whose ids are its positions, the three prefix selections
   * partition the ids, and id x lands in a list exactly when the prefix of
   * the x-th key passes that list's test.
   */
  lemma IndexedPrefixSplit(labels: seq<(string, int)>, a: seq<string>, b: seq<string>)
    requires forall k :: 0 <= k < |labels| ==> labels[k].1 == k
    requires forall p :: p in a ==> p !in b
    ensures var cs := ClassSplit(IdsByPrefix(labels, a, true), IdsByPrefix(labels, b, true), IdsByPrefix(labels, b + a, false));
      && PairwiseDisjoint(cs) && CoversRange(cs, |labels|)
      && (forall x :: x in cs.train <==> 0 <= x < |labels| && Prefix(labels[x].0) in a)
      && (forall x :: x in cs.val <==> 0 <= x < |labels| && Prefix(labels[x].0) in b)
      && (forall x :: x in cs.test <==> 0 <= x < |labels| && Prefix(labels[x].0) !in b + a)
  {
    PrefixSplitPartitions(labels, a, b);
    forall x
      ensures x in IdsByPrefix(labels, a, true) <==> 0 <= x < |labels| && Prefix(labels[x].0) in a
      ensures x in IdsByPrefix(labels, b, true) <==> 0 <= x < |labels| && Prefix(labels[x].0) in b
      ensures x in IdsByPrefix(labels, b + a, false) <==> 0 <= x < |labels| && Prefix(labels[x].0) !in b + a
      ensures (exists k :: 0 <= k < |labels| && labels[k].1 == x) <==> 0 <= x < |labels|
    {
      IdsByPrefixMember(labels, a, true, x);
      IdsByPrefixMember(labels, b, true, x);
      IdsByPrefixMember(labels, b + a, false, x);
      if 0 <= x < |labels| { assert labels[x].1 == x; }
    }
  }

  /**
   * The 20newsgroup split is a partition of the ids 0..19: id x goes to
   * train when the prefix of the x-th newsgroup name is sci or rec, to val
   * when it is comp, and to test otherwise.
   */
  lemma NewsgroupPartition()
    ensures PairwiseDisjoint(NewsgroupSpec()) && CoversRange(NewsgroupSpec(), 20)
    ensures forall x :: x in NewsgroupSpec().train <==> 0 <= x < 20 && Prefix(NewsgroupLabels[x].0) in ["sci", "rec"]
    ensures forall x :: x in NewsgroupSpec().val <==> 0 <= x < 20 && Prefix(NewsgroupLabels[x].0) in ["comp"]
    ensures forall x :: x in NewsgroupSpec().test <==> 0 <= x < 20 && Prefix(NewsgroupLabels[x].0) !in ["comp", "sci", "rec"]
  {
    NewsgroupIds();
    IndexedPrefixSplit(NewsgroupLabels, ["sci", "rec"], ["comp"]);
    assert ["comp"] + ["sci", "rec"] == ["comp", "sci", "rec"];
  }

  /** The prefix rule selects these ids: sci.* and rec.* for train, comp.* for val, the rest for test. */
  lemma NewsgroupTableComputed()
    ensures NewsgroupSpec() == NewsgroupClassTable()
  {
    NewsgroupPartition();
    NewsgroupPrefixes();
    NewsgroupGroupIds();
    NewsgroupTableIncreasing();
    NewsgroupIds();
    var cs, lit := NewsgroupSpec(), NewsgroupClassTable();
    IdsByPrefixIncreasing(NewsgroupLabels, ["sci", "rec"], true);
    IdsByPrefixIncreasing(NewsgroupLabels, ["comp"], true);
    IdsByPrefixIncreasing(NewsgroupLabels, ["comp", "sci", "rec"], false);
    IncreasingUnique(cs.train, lit.train);
    IncreasingUnique(cs.val, lit.val);
    IncreasingUnique(cs.test, lit.test);
  }

  /** The 20newsgroup table is a partition of the ids 0..19. */
  lemma NewsgroupTablePartition()
    ensures PairwiseDisjoint(NewsgroupClassTable()) && CoversRange(NewsgroupClassTable(), 20)
  {
    NewsgroupGroupIds();
  }

  // ---------------------------------------------------------------------
  // The other datasets: constant tables.
  // ---------------------------------------------------------------------

  /**
   * Three class lists partition [0, n) when their entries satisfy three
   * mutually exclusive tests on ids below n and every id below n occurs in
   * one of the lists.
   */
  lemma PartitionByTests(cs: ClassSplit, n: int, inTrain: int -> bool, inVal: int -> bool, inTest: int -> bool)
    requires forall k :: 0 <= k < |cs.train| ==> inTrain(cs.train[k])
    requires forall k :: 0 <= k < |cs.val| ==> inVal(cs.val[k])
    requires forall k :: 0 <= k < |cs.test| ==> inTest(cs.test[k])
    requires forall x :: inTrain(x) ==> 0 <= x < n && !inVal(x) && !inTest(x)
    requires forall x :: inVal(x) ==> 0 <= x < n && !inTest(x)
    requires forall x :: inTest(x) ==> 0 <= x < n
    requires forall x :: 0 <= x < n ==> x in cs.train || x in cs.val || x in cs.test
    ensures PairwiseDisjoint(cs) && CoversRange(cs, n) && InRange(cs, n)
  {
  }

  /** `_get_amazon_classes`: 24 product categories. */
  const AmazonClasses: ClassSplit := ClassSplit(
    [2, 3, 4, 7, 11, 12, 13, 18, 19, 20],
    [1, 22, 23, 6, 9],
    [0, 5, 14, 15, 8, 10, 16, 17, 21])

  /** The ids of the amazon train list, runs of consecutive ids as ranges. */
  predicate AmazonTrainId(x: int)
  {
    2 <= x <= 4 || x == 7 || 11 <= x <= 13 || 18 <= x <= 20
  }

  /** The ids of the amazon val list. */
  predicate AmazonValId(x: int)
  {
    x == 1 || x == 6 || x == 9 || x == 22 || x == 23
  }

  /** The ids of the amazon test list, runs of consecutive ids as ranges. */
  predicate AmazonTestId(x: int)
  {
    x == 0 || x == 5 || x == 8 || x == 10 || 14 <= x <= 17 || x == 21
  }

  /** Each entry of a amazon list passes that list's test. */
  lemma AmazonListsPassTests()
    ensures forall k :: 0 <= k < |AmazonClasses.train| ==> AmazonTrainId(AmazonClasses.train[k])
    ensures forall k :: 0 <= k < |AmazonClasses.val| ==> AmazonValId(AmazonClasses.val[k])
    ensures forall k :: 0 <= k < |AmazonClasses.test| ==> AmazonTestId(AmazonClasses.test[k])
  {
  }

  /** Every id below 24 occurs in one of the amazon lists. */
  lemma AmazonCovers()
    ensures forall x :: 0 <= x < 24 ==> x in AmazonClasses.train || x in AmazonClasses.val || x in AmazonClasses.test
  {
  }

  /** The three amazon tests are mutually exclusive and pass only ids below 24. */
  lemma AmazonTestsApart()
    ensures forall x :: AmazonTrainId(x) ==> 0 <= x < 24 && !AmazonValId(x) && !AmazonTestId(x)
    ensures forall x :: AmazonValId(x) ==> 0 <= x < 24 && !AmazonTestId(x)
    ensures forall x :: AmazonTestId(x) ==> 0 <= x < 24
  {
  }

  /** The amazon table is pairwise disjoint and covers exactly 0..23. */
  lemma AmazonPartition()
    ensures PairwiseDisjoint(AmazonClasses) && CoversRange(AmazonClasses, 24) && InRange(AmazonClasses, 24)
  {
    AmazonListsPassTests();
    AmazonCovers();
    AmazonTestsApart();
    PartitionByTests(AmazonClasses, 24, AmazonTrainId, AmazonValId, AmazonTestId);
  }

  /** `_get_rcv1_classes`: 71 topic ids. */
  const Rcv1Classes: ClassSplit := ClassSplit(
    [1, 2, 12, 15, 18, 20, 22, 25, 27, 32, 33, 34, 38, 39] +
    [40, 41, 42, 43, 44, 45, 46, 47, 48, 49, 50, 51, 52, 53] +
    [54, 55, 56, 57, 58, 59, 60, 61, 66],
    [5, 24, 26, 28, 29, 31, 35, 23, 67, 36],
    [0, 3, 4, 6, 7, 8, 9, 10, 11, 13, 14, 16, 17, 19, 21, 30, 37] +
    [62, 63, 64, 65, 68, 69, 70])

  /** The ids of the rcv1 train list, runs of consecutive ids as ranges. */
  predicate Rcv1TrainId(x: int)
  {
    x == 1 || x == 2 || x == 12 || x == 15 || x == 18 || x == 20 || x == 22 || x == 25
    || x == 27 || 32 <= x <= 34 || 38 <= x <= 61 || x == 66
  }

  /** The ids of the rcv1 val list. */
  predicate Rcv1ValId(x: int)
  {
    x == 5 || x == 23 || x == 24 || x == 26 || x == 28 || x == 29 || x == 31 || x == 35
    || x == 36 || x == 67
  }

  /** The ids of the rcv1 test list, runs of consecutive ids as ranges. */
  predicate Rcv1TestId(x: int)
  {
    x == 0 || x == 3 || x == 4 || 6 <= x <= 11 || x == 13 || x == 14 || x == 16 || x == 17
    || x == 19 || x == 21 || x == 30 || x == 37 || 62 <= x <= 65 || 68 <= x <= 70
  }

  /** Each entry of a rcv1 list passes that list's test. */
  lemma Rcv1ListsPassTests()
    ensures forall k :: 0 <= k < |Rcv1Classes.train| ==> Rcv1TrainId(Rcv1Classes.train[k])
    ensures forall k :: 0 <= k < |Rcv1Classes.val| ==> Rcv1ValId(Rcv1Classes.val[k])
    ensures forall k :: 0 <= k < |Rcv1Classes.test| ==> Rcv1TestId(Rcv1Classes.test[k])
  {
  }

  /** Every id below 71 occurs in one of the rcv1 lists. */
  lemma Rcv1Covers()
    ensures forall x :: 0 <= x < 71 ==> x in Rcv1Classes.train || x in Rcv1Classes.val || x in Rcv1Classes.test
  {
  }

  /** The three rcv1 tests are mutually exclusive and pass only ids below 71. */
  lemma Rcv1TestsApart()
    ensures forall x :: Rcv1TrainId(x) ==> 0 <= x < 71 && !Rcv1ValId(x) && !Rcv1TestId(x)
    ensures forall x :: Rcv1ValId(x) ==> 0 <= x < 71 && !Rcv1TestId(x)
    ensures forall x :: Rcv1TestId(x) ==> 0 <= x < 71
  {
  }

  /** The rcv1 table is pairwise disjoint and covers exactly 0..70. */
  lemma Rcv1Partition()
    ensures PairwiseDisjoint(Rcv1Classes) && CoversRange(Rcv1Classes, 71) && InRange(Rcv1Classes, 71)
  {
    Rcv1ListsPassTests();
    Rcv1Covers();
    Rcv1TestsApart();
    PartitionByTests(Rcv1Classes, 71, Rcv1TrainId, Rcv1ValId, Rcv1TestId);
  }

  /** `_get_fewrel_classes`: 80 relation ids. */
  const FewRelClasses: ClassSplit := ClassSplit(
    [0, 1, 2, 3, 4, 5, 6, 8, 10, 11, 12, 13, 14, 15, 16, 19, 21] +
    [22, 24, 25, 26, 27, 28, 30, 31, 32, 33, 34, 35, 36, 37, 38] +
    [39, 40, 41, 43, 44, 45, 46, 48, 49, 50, 52, 53, 56, 57, 58] +
    [59, 61, 62, 63, 64, 66, 67, 68, 69, 70, 71, 72, 73, 74, 75] +
    [76, 77, 78],
    [7, 9, 17, 18, 20],
    [23, 29, 42, 47, 51, 54, 55, 60, 65, 79])

  /** The ids of the fewrel train list, runs of consecutive ids as ranges. */
  predicate FewRelTrainId(x: int)
  {
    0 <= x <= 6 || x == 8 || 10 <= x <= 16 || x == 19 || x == 21 || x == 22 || 24 <= x <= 28
    || 30 <= x <= 41 || 43 <= x <= 46 || 48 <= x <= 50 || x == 52 || x == 53 || 56 <= x <= 59
    || 61 <= x <= 64 || 66 <= x <= 78
  }

  /** The ids of the fewrel val list. */
  predicate FewRelValId(x: int)
  {
    x == 7 || x == 9 || x == 17 || x == 18 || x == 20
  }

  /** The ids of the fewrel test list, runs of consecutive ids as ranges. */
  predicate FewRelTestId(x: int)
  {
    x == 23 || x == 29 || x == 42 || x == 47 || x == 51 || x == 54 || x == 55 || x == 60
    || x == 65 || x == 79
  }

  /** Each entry of a fewrel list passes that list's test. */
  lemma FewRelListsPassTests()
    ensures forall k :: 0 <= k < |FewRelClasses.train| ==> FewRelTrainId(FewRelClasses.train[k])
    ensures forall k :: 0 <= k < |FewRelClasses.val| ==> FewRelValId(FewRelClasses.val[k])
    ensures forall k :: 0 <= k < |FewRelClasses.test| ==> FewRelTestId(FewRelClasses.test[k])
  {
    FewRelTrainHead();
    FewRelTrainTail();
  }

  /** The first two lines of the fewrel train list pass its test. */
  lemma FewRelTrainHead()
    ensures forall k :: 0 <= k < 32 ==> FewRelTrainId(FewRelClasses.train[k])
  {
  }

  /** The last three lines of the fewrel train list pass its test. */
  lemma FewRelTrainTail()
    ensures forall k :: 32 <= k < |FewRelClasses.train| ==> FewRelTrainId(FewRelClasses.train[k])
  {
  }

  /** Every id below 80 occurs in one of the fewrel lists. */
  lemma FewRelCovers()
    ensures forall x :: 0 <= x < 80 ==> x in FewRelClasses.train || x in FewRelClasses.val || x in FewRelClasses.test
  {
  }

  /** The three fewrel tests are mutually exclusive and pass only ids below 80. */
  lemma FewRelTestsApart()
    ensures forall x :: FewRelTrainId(x) ==> 0 <= x < 80 && !FewRelValId(x) && !FewRelTestId(x)
    ensures forall x :: FewRelValId(x) ==> 0 <= x < 80 && !FewRelTestId(x)
    ensures forall x :: FewRelTestId(x) ==> 0 <= x < 80
  {
  }

  /** The fewrel table is pairwise disjoint and covers exactly 0..79. */
  lemma FewRelPartition()
    ensures PairwiseDisjoint(FewRelClasses) && CoversRange(FewRelClasses, 80) && InRange(FewRelClasses, 80)
  {
    FewRelListsPassTests();
    FewRelCovers();
    FewRelTestsApart();
    PartitionByTests(FewRelClasses, 80, FewRelTrainId, FewRelValId, FewRelTestId);
  }

  /** `_get_huffpost_classes`: consecutive ranges over 41 ids. */
  function HuffPostClasses(): (cs: ClassSplit)
    ensures PairwiseDisjoint(cs) && CoversRange(cs, 41)
  {
    ClassSplit(IntRange(0, 20), IntRange(20, 25), IntRange(25, 41))
  }

  /** `_get_reuters_classes`: consecutive ranges over 31 ids. */
  function ReutersClasses(): (cs: ClassSplit)
    ensures PairwiseDisjoint(cs) && CoversRange(cs, 31)
  {
    ClassSplit(IntRange(0, 15), IntRange(15, 20), IntRange(20, 31))
  }
}
