/** The crate's own encoding test: a six by six table of numbers, two columns
    nominal, two ordinal and two parsed as numbers, encoded into twelve
    columns. The CSV text is given already split into headers and records, as
    the reader would return them. */
module Csv2DatasetEncodingCrateTest {
  import opened Flow
  import opened Matrices
  import opened CategoricalEncoding
  import opened Csv2DatasetEncoding

  const TestHeaders := ["Feate1", "Feature2", "Feature3", "F4", "F5", "F6"]
  const TestConfig := Config(44, true, ["Feate1", "Feature2"], ["F5", "F6"], ["Feature3", "F4"])
  const TestTable: Array2<string> := Matrix(6, 6, [
    ["1", "2", "3", "1", "2", "11"],
    ["4", "5", "6", "1", "5", "3"],
    ["7", "8", "9", "1", "2", "3"],
    ["10", "8", "9", "1", "6", "4"],
    ["12", "8", "9", "1", "2", "3"],
    ["7", "8", "9", "1", "2", "3"]])

  const Feate1Column := ["1", "4", "7", "10", "12", "7"]
  const Feature2Column := ["2", "5", "8", "8", "8", "8"]
  const Feature3Column := ["3", "6", "9", "9", "9", "9"]
  const F4Column := ["1", "1", "1", "1", "1", "1"]
  const F5Column := ["2", "5", "2", "6", "2", "2"]
  const F6Column := ["11", "3", "3", "4", "3", "3"]
  const Feature3Parsed := [3.0, 6.0, 9.0, 9.0, 9.0, 9.0]
  const F4Parsed := [1.0, 1.0, 1.0, 1.0, 1.0, 1.0]

  const TestPartition := Partition([Feate1Column, Feature2Column], [F5Column, F6Column], [Feature3Parsed, F4Parsed])

  /** The records the test expects. */
  const TestRecords: seq<seq<real>> := [
    [1.0, 0.0, 0.0, 0.0, 0.0, 1.0, 0.0, 0.0, 0.0, 0.0, 3.0, 1.0],
    [0.0, 1.0, 0.0, 0.0, 0.0, 0.0, 1.0, 0.0, 1.0, 1.0, 6.0, 1.0],
    [0.0, 0.0, 1.0, 0.0, 0.0, 0.0, 0.0, 1.0, 0.0, 1.0, 9.0, 1.0],
    [0.0, 0.0, 0.0, 1.0, 0.0, 0.0, 0.0, 1.0, 2.0, 2.0, 9.0, 1.0],
    [0.0, 0.0, 0.0, 0.0, 1.0, 0.0, 0.0, 1.0, 0.0, 1.0, 9.0, 1.0],
    [0.0, 0.0, 1.0, 0.0, 0.0, 0.0, 0.0, 1.0, 0.0, 1.0, 9.0, 1.0]]

  /** The parser the test relies on, on the cells of its other columns. */
  predicate ParsesTestCells(parse: string -> Result<real, string>) {
    && parse("1") == Ok(1.0) && parse("3") == Ok(3.0)
    && parse("6") == Ok(6.0) && parse("9") == Ok(9.0)
  }

  lemma TestColumns()
    ensures Columns(TestTable) == [Feate1Column, Feature2Column, Feature3Column, F4Column, F5Column, F6Column]
  {
    assert Column(TestTable, 0) == Feate1Column;
    assert Column(TestTable, 1) == Feature2Column;
    assert Column(TestTable, 2) == Feature3Column;
    assert Column(TestTable, 3) == F4Column;
    assert Column(TestTable, 4) == F5Column;
    assert Column(TestTable, 5) == F6Column;
  }

  /** The test's headers are pairwise different. */
  lemma TestHeadersDistinct()
    ensures NoDuplicates(TestHeaders)
  {
    assert TestHeaders[0][1] == 'e' && TestHeaders[1][1] == 'e' && TestHeaders[2][1] == 'e';
    assert TestHeaders[3][1] == '4' && TestHeaders[4][1] == '5' && TestHeaders[5][1] == '6';
    assert |TestHeaders[0]| == 6 && |TestHeaders[1]| == 8 && |TestHeaders[2]| == 8;
    assert TestHeaders[1][7] == '2' && TestHeaders[2][7] == '3';
  }

  /** Two names that each occur once among the headers select their positions. */
  lemma PairIndices(headers: seq<string>, i: nat, j: nat)
    requires i < |headers| && j < |headers|
    requires NoDuplicates(headers)
    ensures HeaderIndices([headers[i], headers[j]], headers) == {i, j}
  {
    IndexOfUnique(headers, i);
    IndexOfUnique(headers, j);
    var names := [headers[i], headers[j]];
    assert names[1..] == [headers[j]];
    assert HeaderIndices([headers[j]], headers) == {j} by {
      assert [headers[j]][1..] == [];
    }
  }

  lemma TestIndices()
    ensures IndicesOf(TestConfig, TestHeaders) == Indices({0, 1}, {4, 5}, {2, 3})
  {
    TestHeadersDistinct();
    PairIndices(TestHeaders, 0, 1);
    PairIndices(TestHeaders, 4, 5);
    PairIndices(TestHeaders, 2, 3);
    assert TestConfig.nominals == [TestHeaders[0], TestHeaders[1]];
    assert TestConfig.ordinals == [TestHeaders[4], TestHeaders[5]];
    assert TestConfig.others == [TestHeaders[2], TestHeaders[3]];
  }

  /** Of six columns, positions 0 and 1 are nominal, 4 and 5 ordinal, 2 and 3 other. */
  lemma TestSelect(cols: seq<seq<string>>)
    requires |cols| == 6
    ensures Select(cols, 6, Indices({0, 1}, {4, 5}, {2, 3}), Nominal) == [cols[0], cols[1]]
    ensures Select(cols, 6, Indices({0, 1}, {4, 5}, {2, 3}), Ordinal) == [cols[4], cols[5]]
    ensures Select(cols, 6, Indices({0, 1}, {4, 5}, {2, 3}), Other) == [cols[2], cols[3]]
  {
    var ix := Indices({0, 1}, {4, 5}, {2, 3});
    assert GroupOf(ix, 0) == Nominal && GroupOf(ix, 1) == Nominal;
    assert GroupOf(ix, 2) == Other && GroupOf(ix, 3) == Other;
    assert GroupOf(ix, 4) == Ordinal && GroupOf(ix, 5) == Ordinal;
  }

  /** A column whose every cell parses to the given value parses to those values. */
  lemma ParsedColumn(parse: string -> Result<real, string>, col: seq<string>, values: seq<real>)
    requires |col| == |values|
    requires forall i :: 0 <= i < |col| ==> parse(col[i]) == Ok(values[i])
    ensures ParseColumn(parse, col) == Ok(values)
  {
    assert ParseColumn(parse, col).Ok?;
    assert ParseColumn(parse, col).value == values;
  }

  /** Both other columns of the test parse, to the numbers they hold. */
  lemma TestParsed(parse: string -> Result<real, string>)
    requires ParsesTestCells(parse)
    ensures FirstParseError(parse, [Feature3Column, F4Column]).None?
    ensures ParseAll(parse, [Feature3Column, F4Column]) == [Feature3Parsed, F4Parsed]
  {
    ParsedColumn(parse, Feature3Column, Feature3Parsed);
    ParsedColumn(parse, F4Column, F4Parsed);
  }

  lemma TestPartitioned(parse: string -> Result<real, string>)
    requires ParsesTestCells(parse)
    ensures Partitioned(Columns(TestTable), IndicesOf(TestConfig, TestHeaders), parse) == Returned(TestPartition)
  {
    TestColumns();
    TestIndices();
    TestSelect(Columns(TestTable));
    TestParsed(parse);
  }

  /** A prefix without repeated values is its own list of distinct values. */
  lemma {:induction false} DistinctOfUnrepeated(s: seq<string>, n: nat)
    requires n <= |s| && forall i, j :: 0 <= i < j < n ==> s[i] != s[j]
    ensures Distinct(s[..n]) == s[..n]
    decreases n
  {
    if n > 0 {
      DistinctOfUnrepeated(s, n - 1);
      DistinctStep(s, n - 1, s[..n - 1]);
      assert s[..n - 1] + [s[n - 1]] == s[..n];
    }
  }

  /** A column of five different values, the third repeated at the end
      (the pattern of "Feate1"). */
  lemma FiveValuesThirdRepeated(s: seq<string>)
    requires |s| == 6 && s[5] == s[2] && forall i, j :: 0 <= i < j < 5 ==> s[i] != s[j]
    ensures Distinct(s) == s[..5]
    ensures Labels(s)[0] == 0 && Labels(s)[1] == 1 && Labels(s)[2] == 2
         && Labels(s)[3] == 3 && Labels(s)[4] == 4 && Labels(s)[5] == 2
  {
    DistinctOfUnrepeated(s, 5);
    DistinctStep(s, 5, s[..5]);
    assert s[..6] == s;
    LabelIs(s, 0, 0);
    LabelIs(s, 1, 1);
    LabelIs(s, 2, 2);
    LabelIs(s, 3, 3);
    LabelIs(s, 4, 4);
    LabelIs(s, 5, 2);
  }

  /** A column of three different values, the third repeated to the end
      (the pattern of "Feature2"). */
  lemma ThreeValuesThirdRepeated(s: seq<string>)
    requires |s| == 6 && s[3] == s[2] && s[4] == s[2] && s[5] == s[2]
    requires s[0] != s[1] && s[0] != s[2] && s[1] != s[2]
    ensures Distinct(s) == s[..3]
    ensures Labels(s)[0] == 0 && Labels(s)[1] == 1 && Labels(s)[2] == 2
         && Labels(s)[3] == 2 && Labels(s)[4] == 2 && Labels(s)[5] == 2
  {
    DistinctOfUnrepeated(s, 3);
    DistinctStep(s, 3, s[..3]);
    DistinctStep(s, 4, s[..3]);
    DistinctStep(s, 5, s[..3]);
    assert s[..6] == s;
    LabelIs(s, 0, 0);
    LabelIs(s, 1, 1);
    LabelIs(s, 2, 2);
    LabelIs(s, 3, 2);
    LabelIs(s, 4, 2);
    LabelIs(s, 5, 2);
  }

  /** A column of three different values in which the value at position r
      (0 or 1) recurs at positions 2, 4 and 5, and the third value first occurs
      at position 3 (the patterns of "F5" and "F6"). */
  lemma ThreeValuesOneRecurring(s: seq<string>, r: nat)
    requires |s| == 6 && r < 2 && s[2] == s[r] && s[4] == s[r] && s[5] == s[r]
    requires s[0] != s[1] && s[0] != s[3] && s[1] != s[3]
    ensures Distinct(s) == [s[0], s[1], s[3]]
    ensures Labels(s)[0] == 0 && Labels(s)[1] == 1 && Labels(s)[2] == r
         && Labels(s)[3] == 2 && Labels(s)[4] == r && Labels(s)[5] == r
  {
    ThreeValuesOneRecurringDistinct(s, r);
    var d := Distinct(s);
    assert d[r] == s[r];
    LabelIs(s, 0, 0);
    LabelIs(s, 1, 1);
    LabelIs(s, 2, r);
    LabelIs(s, 3, 2);
    LabelIs(s, 4, r);
    LabelIs(s, 5, r);
  }

  lemma ThreeValuesOneRecurringDistinct(s: seq<string>, r: nat)
    requires |s| == 6 && r < 2 && s[2] == s[r] && s[4] == s[r] && s[5] == s[r]
    requires s[0] != s[1] && s[0] != s[3] && s[1] != s[3]
    ensures Distinct(s) == [s[0], s[1], s[3]]
  {
    var d := [s[0], s[1], s[3]];
    ThreeValuesFirstFour(s, r);
    assert s[r] in d;
    DistinctStep(s, 4, d);
    DistinctStep(s, |s| - 1, d);
    assert s[..|s|] == s;
  }

  /** The distinct values of the first four positions of such a column. */
  lemma ThreeValuesFirstFour(s: seq<string>, r: nat)
    requires |s| == 6 && r < 2 && s[2] == s[r]
    requires s[0] != s[1] && s[0] != s[3] && s[1] != s[3]
    ensures Distinct(s[..4]) == [s[0], s[1], s[3]]
  {
    DistinctOfUnrepeated(s, 2);
    assert s[r] in s[..2];
    DistinctStep(s, 2, s[..2]);
    assert s[3] !in s[..2];
    DistinctStep(s, 3, s[..2]);
    assert s[..2] + [s[3]] == [s[0], s[1], s[3]];
  }

  /** The labels of the test's string columns. */
  const Feate1Labels: seq<nat> := [0, 1, 2, 3, 4, 2]
  const Feature2Labels: seq<nat> := [0, 1, 2, 2, 2, 2]
  const F5Labels: seq<nat> := [0, 1, 0, 2, 0, 0]
  const F6Labels: seq<nat> := [0, 1, 1, 2, 1, 1]

  lemma Feate1Values()
    ensures |Distinct(Feate1Column)| == 5
    ensures forall i :: 0 <= i < 6 ==> Labels(Feate1Column)[i] == Feate1Labels[i]
  {
    assert "10"[1] != "12"[1];
    FiveValuesThirdRepeated(Feate1Column);
  }

  lemma Feature2Values()
    ensures |Distinct(Feature2Column)| == 3
    ensures forall i :: 0 <= i < 6 ==> Labels(Feature2Column)[i] == Feature2Labels[i]
  {
    ThreeValuesThirdRepeated(Feature2Column);
  }

  lemma F5Values()
    ensures forall i :: 0 <= i < 6 ==> Labels(F5Column)[i] == F5Labels[i]
  {
    ThreeValuesOneRecurring(F5Column, 0);
  }

  lemma F6Values()
    ensures forall i :: 0 <= i < 6 ==> Labels(F6Column)[i] == F6Labels[i]
  {
    assert |F6Column[0]| == 2;
    ThreeValuesOneRecurring(F6Column, 1);
  }

  /** With two paired nominal columns, two ordinal columns and two other
      columns, record i is the two one-hot rows, the two ordinal labels and
      the two parsed numbers at position i. */
  lemma TwoOfEachRow(config: Config, p: Partition, rows: nat, i: nat)
    requires |config.nominals| == 2 && |p.nominal| == 2 && |p.ordinal| == 2 && |p.other| == 2
    requires ColumnsOfLength(p, rows) && i < rows
    ensures EncodedRow(config, p, rows, i)
         == OneHotRow(|Distinct(p.nominal[0])|, Labels(p.nominal[0])[i])
          + OneHotRow(|Distinct(p.nominal[1])|, Labels(p.nominal[1])[i])
          + [Labels(p.ordinal[0])[i] as real, Labels(p.ordinal[1])[i] as real]
          + [p.other[0][i], p.other[1][i]]
  {
    var oneHot := OneHotRowsAt(config, p, rows, i);
    assert oneHot == [oneHot[0], oneHot[1]];
    FlattenTwo(oneHot[0], oneHot[1]);
    var ordinal := OrdinalRowAt(p, rows, i);
    assert ordinal == [ordinal[0], ordinal[1]];
    var other := OtherRowAt(p, rows, i);
    assert other == [other[0], other[1]];
  }

  /** Record i of the table is record i the test expects. */
  lemma TestRow(i: nat)
    requires i < 6
    ensures ColumnsOfLength(TestPartition, 6)
    ensures EncodedRow(TestConfig, TestPartition, 6, i) == TestRecords[i]
  {
    TestRowParts(i);
    TestRecordCells(i);
    TwelveCells(Feate1Labels[i], Feature2Labels[i], F5Labels[i] as real, F6Labels[i] as real,
      Feature3Parsed[i], F4Parsed[i], TestRecords[i]);
  }

  /** Record i of the table is made of the labels at position i. */
  lemma TestRowParts(i: nat)
    requires i < 6
    ensures ColumnsOfLength(TestPartition, 6)
    ensures EncodedRow(TestConfig, TestPartition, 6, i)
         == OneHotRow(5, Feate1Labels[i]) + OneHotRow(3, Feature2Labels[i])
          + [F5Labels[i] as real, F6Labels[i] as real] + [Feature3Parsed[i], F4Parsed[i]]
  {
    Feate1Values();
    Feature2Values();
    F5Values();
    F6Values();
    var p := TestPartition;
    assert p.nominal[0] == Feate1Column && p.nominal[1] == Feature2Column;
    assert p.ordinal[0] == F5Column && p.ordinal[1] == F6Column;
    assert p.other[0] == Feature3Parsed && p.other[1] == F4Parsed;
    TwoOfEachRow(TestConfig, p, 6, i);
  }

  /** The cells of an expected record: a one-hot row of width 5, one of width
      3, two labels and two numbers. */
  lemma TestRecordCells(i: nat)
    requires i < 6
    ensures |TestRecords[i]| == 12 && Feate1Labels[i] < 5 && Feature2Labels[i] < 3
    ensures forall c :: 0 <= c < 5 ==> TestRecords[i][c] == if c == Feate1Labels[i] then 1.0 else 0.0
    ensures forall c :: 5 <= c < 8 ==> TestRecords[i][c] == if c - 5 == Feature2Labels[i] then 1.0 else 0.0
    ensures TestRecords[i][8] == F5Labels[i] as real && TestRecords[i][9] == F6Labels[i] as real
    ensures TestRecords[i][10] == Feature3Parsed[i] && TestRecords[i][11] == F4Parsed[i]
  {
  }

  /** A row of twelve cells laid out as two one-hot rows, two labels and two
      numbers is their concatenation. */
  lemma TwelveCells(a: nat, b: nat, x: real, y: real, u: real, v: real, r: seq<real>)
    requires a < 5 && b < 3 && |r| == 12
    requires forall c :: 0 <= c < 5 ==> r[c] == if c == a then 1.0 else 0.0
    requires forall c :: 5 <= c < 8 ==> r[c] == if c - 5 == b then 1.0 else 0.0
    requires r[8] == x && r[9] == y && r[10] == u && r[11] == v
    ensures OneHotRow(5, a) + OneHotRow(3, b) + [x, y] + [u, v] == r
  {
    var front := OneHotRow(5, a) + OneHotRow(3, b);
    var w := front + [x, y] + [u, v];
    forall c | 0 <= c < 12
      ensures w[c] == r[c]
    {
      if c < 5 {
        assert w[c] == front[c] == OneHotRow(5, a)[c];
      } else if c < 8 {
        assert w[c] == front[c] == OneHotRow(3, b)[c - 5];
      }
    }
  }

  /** The feature names of the encoded test table: one per distinct value of
      each nominal column, in order of appearance, then the configured ordinal
      and other names. */
  const TestFeatureNames := FeatureNames("Feate1", ["1", "4", "7", "10", "12"])
    + FeatureNames("Feature2", ["2", "5", "8"]) + ["F5", "F6", "Feature3", "F4"]

  lemma TestOneHotNames()
    ensures OneHotNames(TestConfig, TestPartition)
         == FeatureNames("Feate1", ["1", "4", "7", "10", "12"]) + FeatureNames("Feature2", ["2", "5", "8"])
  {
    Feate1Distinct();
    Feature2Distinct();
    var blocks := NameBlocks(TestConfig, TestPartition);
    assert blocks == [blocks[0], blocks[1]];
    FlattenTwo(blocks[0], blocks[1]);
  }

  lemma Feate1Distinct()
    ensures Distinct(Feate1Column) == ["1", "4", "7", "10", "12"]
  {
    assert "10"[1] != "12"[1];
    FiveValuesThirdRepeated(Feate1Column);
  }

  lemma Feature2Distinct()
    ensures Distinct(Feature2Column) == ["2", "5", "8"]
  {
    ThreeValuesThirdRepeated(Feature2Column);
  }

  /** Assembling the sorted test columns succeeds with the expected records. */
  lemma TestAssembleRecords()
    ensures Assemble(TestConfig, TestHeaders, TestPartition).Returned?
    ensures var records := Assemble(TestConfig, TestHeaders, TestPartition).value.records;
      records.nrows == 6 && forall i :: 0 <= i < 6 ==> records.cells[i] == TestRecords[i]
  {
    var p := TestPartition;
    TestRow(0);
    AssembleSucceeds(TestConfig, TestHeaders, p, 6);
    AssembleRecords(TestConfig, TestHeaders, p, 6);
    forall i | 0 <= i < 6
      ensures EncodedRow(TestConfig, p, 6, i) == TestRecords[i]
    {
      TestRow(i);
    }
  }

  /** Assembling the sorted test columns gives the expected records and names. */
  lemma TestAssemble()
    ensures Assemble(TestConfig, TestHeaders, TestPartition) == Returned(Dataset(Matrix(6, 12, TestRecords), TestFeatureNames))
  {
    var p := TestPartition;
    TestAssembleRecords();
    var d := Assemble(TestConfig, TestHeaders, p).value;
    assert d.featureNames == TestFeatureNames by {
      TestOneHotNames();
    }
    assert d.records.ncols == 12 by {
      TestRow(0);
      AssembleFeatureCount(TestConfig, TestHeaders, p, 6);
    }
    assert d.records.cells == TestRecords;
  }

  /** The crate's encoding test: with a parser that reads the numbers of the
      other columns, encoding the test table gives the expected records. */
  lemma InputOutputTest(parse: string -> Result<real, string>)
    requires ParsesTestCells(parse)
    ensures EncodeTable(TestConfig, TestHeaders, TestTable, parse)
         == Returned(Dataset(Matrix(6, 12, TestRecords), TestFeatureNames))
  {
    assert EncodeTable(TestConfig, TestHeaders, TestTable, parse)
        == Assemble(TestConfig, TestHeaders, TestPartition) by {
      TestPartitioned(parse);
    }
    TestAssemble();
  }
}
