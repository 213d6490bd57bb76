/** A concrete run of the CSV-to-encoded-dataset node's encoding on a small
    table that shows the nominal names pairing with the wrong columns: the
    configured nominal names are paired with the nominal columns by position,
    not by header. The CSV text is given already split into headers and
    records, as the reader would return them. */
module Csv2DatasetEncodingScenarios {
  import opened Flow
  import opened Matrices
  import opened CategoricalEncoding
  import opened Csv2DatasetEncoding

  /** A column holding one value twice has that value as its only distinct
      value, with label 0 at both positions. */
  lemma RepeatedValue(x: string)
    ensures |Distinct([x, x])| == 1 && Distinct([x, x])[0] == x
    ensures Labels([x, x])[0] == 0 && Labels([x, x])[1] == 0
  {
    var s := [x, x];
    DistinctStep(s, 0, []);
    DistinctStep(s, 1, [x]);
    assert s[..2] == s;
    LabelIs(s, 0, 0);
    LabelIs(s, 1, 0);
  }

  /** Either position of such a column has label 0 among one distinct value. */
  lemma RepeatedValueLabel(x: string, i: nat)
    requires i < 2
    ensures |Distinct([x, x])| == 1 && Labels([x, x])[i] == 0
  {
    RepeatedValue(x);
  }

  /** The one-hot column name of a one-letter name and a one-letter value. */
  lemma OneCharName(name: char, value: char)
    ensures [name] + "_" + [value] == [name, '_', value]
  {
  }

  /** Two nominal headers "a" and "b", configured in the order ["b", "a"]. */
  const SwappedConfig := Config(44, true, ["b", "a"], [], [])
  const SwappedHeaders := ["a", "b"]
  const SwappedTable: Array2<string> := Matrix(2, 2, [["x", "y"], ["x", "y"]])
  const SwappedPartition := Partition([["x", "x"], ["y", "y"]], [], [])

  /** Both columns are nominal and keep their CSV order. */
  lemma SwappedPartitioned(parse: string -> Result<real, string>)
    ensures Partitioned(Columns(SwappedTable), IndicesOf(SwappedConfig, SwappedHeaders), parse) == Returned(SwappedPartition)
  {
    var cols := Columns(SwappedTable);
    assert Column(SwappedTable, 0) == ["x", "x"] && Column(SwappedTable, 1) == ["y", "y"];
    assert cols == SwappedPartition.nominal;
    assert "a" != "b";
    var ix := IndicesOf(SwappedConfig, SwappedHeaders);
    assert ix == Indices({0, 1}, {}, {});
    assert Select(cols, 2, ix, Nominal) == cols;
    assert Select(cols, 2, ix, Ordinal) == [];
    assert Select(cols, 2, ix, Other) == [];
  }

  /** At each position, two columns that each repeat one value have one-hot
      rows with a single cell, set to 1. */
  lemma RepeatedColumnsOneHot(config: Config, x: string, y: string, i: nat)
    requires |config.nominals| == 2 && i < 2
    ensures ColumnsOfLength(Partition([[x, x], [y, y]], [], []), 2)
    ensures OneHotRowsAt(config, Partition([[x, x], [y, y]], [], []), 2, i) == [[1.0], [1.0]]
  {
    var p := Partition([[x, x], [y, y]], [], []);
    RepeatedValueLabel(x, i);
    RepeatedValueLabel(y, i);
    var rows := OneHotRowsAt(config, p, 2, i);
    assert rows[0] == OneHotRow(1, 0) && rows[1] == OneHotRow(1, 0);
    assert OneHotRow(1, 0) == [1.0];
  }

  /** Each record of two such columns is a 1 in the single column of each
      one-hot block. */
  lemma RepeatedColumnsRow(config: Config, x: string, y: string, i: nat)
    requires |config.nominals| == 2 && i < 2
    ensures ColumnsOfLength(Partition([[x, x], [y, y]], [], []), 2)
    ensures EncodedRow(config, Partition([[x, x], [y, y]], [], []), 2, i) == [1.0, 1.0]
  {
    var p := Partition([[x, x], [y, y]], [], []);
    RepeatedColumnsOneHot(config, x, y, i);
    assert OrdinalRowAt(p, 2, i) == [] && OtherRowAt(p, 2, i) == [];
    FlattenTwo([1.0], [1.0]);
  }

  /** The one-hot names of two such columns pair the first configured name with
      the first column's value and the second with the second's. */
  lemma RepeatedColumnsNames(config: Config, x: string, y: string)
    requires |config.nominals| == 2
    ensures OneHotNames(config, Partition([[x, x], [y, y]], [], []))
         == [config.nominals[0] + "_" + x, config.nominals[1] + "_" + y]
  {
    var p := Partition([[x, x], [y, y]], [], []);
    var names := [config.nominals[0] + "_" + x, config.nominals[1] + "_" + y];
    RepeatedValue(x);
    RepeatedValue(y);
    var blocks := NameBlocks(config, p);
    assert |blocks| == 2;
    assert blocks[0] == FeatureNames(config.nominals[0], [x]);
    assert blocks[1] == FeatureNames(config.nominals[1], [y]);
    assert FeatureNames(config.nominals[0], [x]) == [names[0]];
    assert FeatureNames(config.nominals[1], [y]) == [names[1]];
    assert blocks == [[names[0]], [names[1]]];
    FlattenTwo([names[0]], [names[1]]);
  }

  /** Two columns that each repeat one value, both nominal, encode to two
      records of two ones; each one-hot column takes its name from the
      configured nominal name at its position. */
  lemma RepeatedColumnsAssemble(config: Config, headers: seq<string>, x: string, y: string)
    requires |config.nominals| == 2 && config.ordinals == [] && config.others == [] && |headers| == 2
    ensures Assemble(config, headers, Partition([[x, x], [y, y]], [], []))
         == Returned(Dataset(Matrix(2, 2, [[1.0, 1.0], [1.0, 1.0]]),
                             [config.nominals[0] + "_" + x, config.nominals[1] + "_" + y]))
  {
    var p := Partition([[x, x], [y, y]], [], []);
    RepeatedColumnsRow(config, x, y, 0);
    RepeatedColumnsRow(config, x, y, 1);
    AssembleSucceeds(config, headers, p, 2);
    var d := Assemble(config, headers, p).value;
    assert d.featureNames == [config.nominals[0] + "_" + x, config.nominals[1] + "_" + y] by {
      RepeatedColumnsNames(config, x, y);
    }
    assert d.records.ncols == 2 by {
      AssembleFeatureCount(config, headers, p, 2);
    }
    assert d.records.nrows == 2 && d.records.cells[0] == [1.0, 1.0] && d.records.cells[1] == [1.0, 1.0] by {
      AssembleRecords(config, headers, p, 2);
    }
    assert d.records.cells == [[1.0, 1.0], [1.0, 1.0]];
  }

  /** The column built from the values of "a" is named "b_x", and the one from
      "b" is named "a_y". */
  lemma MisalignedNominalNames(parse: string -> Result<real, string>)
    ensures EncodeTable(SwappedConfig, SwappedHeaders, SwappedTable, parse)
         == Returned(Dataset(Matrix(2, 2, [[1.0, 1.0], [1.0, 1.0]]), ["b_x", "a_y"]))
  {
    assert EncodeTable(SwappedConfig, SwappedHeaders, SwappedTable, parse)
        == Assemble(SwappedConfig, SwappedHeaders, SwappedPartition) by {
      SwappedPartitioned(parse);
    }
    RepeatedColumnsAssemble(SwappedConfig, SwappedHeaders, "x", "y");
    OneCharName('b', 'x');
    OneCharName('a', 'y');
  }
}
