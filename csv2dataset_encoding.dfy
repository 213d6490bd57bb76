/** The CSV-to-encoded-dataset node: it reads a CSV text, sorts its columns into
    nominal, ordinal and other features by header name, one-hot encodes the
    nominal columns, label encodes the ordinal ones, parses the others as
    numbers, and sends the assembled records with their feature names. */
module Csv2DatasetEncoding {
  import opened Flow
  import opened Matrices
  import opened CategoricalEncoding
  import opened NdArrays

  type Byte = x: int | 0 <= x < 256

  /** The node's configuration: how to read the CSV text and which header names
      belong to which kind of feature. */
  datatype Config = Config(
    separator: Byte,
    hasFeatureNames: bool,
    nominals: seq<string>,
    ordinals: seq<string>,
    others: seq<string>)

  /** The value sent: records, one row per CSV record, and the feature names. */
  datatype Dataset = Dataset(records: Array2<real>, featureNames: seq<string>)

  /** The CSV reader: the header record and the records as a table of strings
      for a separator, a has-headers flag and a text; Err carries the reader's
      error. */
  datatype CsvReader = CsvReader(
    headers: (Byte, bool, string) -> Result<seq<string>, string>,
    records: (Byte, bool, string) -> Result<Array2<string>, string>)

  /** The message of a panic raised by `Result::unwrap` on an error. */
  function UnwrapErr(e: string): string {
    "called `Result::unwrap()` on an `Err` value: " + e
  }

  const NoData := "No data received!"
  const NoConfig := "No config received!"

  /** For each name, its first position among the headers (names absent from
      the headers contribute nothing), collected into a set. */
  function HeaderIndices(names: seq<string>, headers: seq<string>): (indices: set<nat>)
    ensures forall j :: j in indices ==> j < |headers|
    decreases |names|
  {
    if names == [] then {}
    else
      var rest := HeaderIndices(names[1..], headers);
      if names[0] in headers then {IndexOf(headers, names[0])} + rest else rest
  }

  /** Position j is selected exactly when its header is one of the names and
      does not occur at an earlier position. */
  lemma {:induction false} HeaderIndicesIff(names: seq<string>, headers: seq<string>, j: nat)
    ensures j in HeaderIndices(names, headers)
        <==> j < |headers| && headers[j] in names && forall k :: 0 <= k < j ==> headers[k] != headers[j]
    decreases |names|
  {
    if names != [] {
      HeaderIndicesIff(names[1..], headers, j);
      var x := names[0];
      if j < |headers| && headers[j] == x && (forall k :: 0 <= k < j ==> headers[k] != headers[j]) {
        var p := IndexOf(headers, x);
        if p < j {
          assert headers[p] == headers[j];
        }
      }
      if j < |headers| && headers[j] in names && headers[j] != x {
        assert headers[j] in names[1..];
      }
    }
  }

  /** The header positions of the three kinds of feature. */
  datatype Indices = Indices(nominal: set<nat>, ordinal: set<nat>, other: set<nat>)

  function IndicesOf(config: Config, headers: seq<string>): Indices {
    Indices(
      HeaderIndices(config.nominals, headers),
      HeaderIndices(config.ordinals, headers),
      HeaderIndices(config.others, headers))
  }

  datatype Group = Nominal | Ordinal | Other | Skipped

  /** The kind of the column at position j: a position listed as nominal is
      nominal, else one listed as ordinal is ordinal, else one listed as other
      is other; any other column is skipped. */
  function GroupOf(ix: Indices, j: nat): (g: Group)
    ensures g == Nominal <==> j in ix.nominal
    ensures g == Ordinal <==> j in ix.ordinal - ix.nominal
    ensures g == Other <==> j in ix.other - ix.nominal - ix.ordinal
    ensures g == Skipped <==> j !in ix.nominal + ix.ordinal + ix.other
  {
    if j in ix.nominal then Nominal
    else if j in ix.ordinal then Ordinal
    else if j in ix.other then Other
    else Skipped
  }

  /** The columns among the first n whose kind is g, in CSV order. */
  function Select(cols: seq<seq<string>>, n: nat, ix: Indices, g: Group): (sel: seq<seq<string>>)
    requires n <= |cols|
    ensures |sel| <= n
    decreases n
  {
    if n == 0 then []
    else Select(cols, n - 1, ix, g) + (if GroupOf(ix, n - 1) == g then [cols[n - 1]] else [])
  }

  /** A selected column is a column of kind g, and every column of kind g is selected. */
  lemma {:induction false} SelectMembers(cols: seq<seq<string>>, n: nat, ix: Indices, g: Group, c: seq<string>)
    requires n <= |cols|
    ensures c in Select(cols, n, ix, g) <==> exists j :: 0 <= j < n && GroupOf(ix, j) == g && cols[j] == c
    decreases n
  {
    if n > 0 {
      SelectMembers(cols, n - 1, ix, g, c);
      if GroupOf(ix, n - 1) == g && cols[n - 1] == c {
        assert c in Select(cols, n, ix, g);
      }
    }
  }

  /** Every column goes to exactly one of the four kinds. */
  lemma {:induction false} SelectCounts(cols: seq<seq<string>>, n: nat, ix: Indices)
    requires n <= |cols|
    ensures |Select(cols, n, ix, Nominal)| + |Select(cols, n, ix, Ordinal)|
          + |Select(cols, n, ix, Other)| + |Select(cols, n, ix, Skipped)| == n
    decreases n
  {
    if n > 0 {
      SelectCounts(cols, n - 1, ix);
    }
  }

  /** Selecting among fewer columns gives a prefix. */
  lemma {:induction false} SelectPrefix(cols: seq<seq<string>>, m: nat, n: nat, ix: Indices, g: Group)
    requires m <= n <= |cols|
    ensures Select(cols, m, ix, g) <= Select(cols, n, ix, g)
    decreases n - m
  {
    if m < n {
      SelectPrefix(cols, m, n - 1, ix, g);
    }
  }

  /** `col.iter().map(|x| x.parse().unwrap()).collect()` without the panic: the
      parsed cells, or the error of the first cell that does not parse. */
  function ParseColumn(parse: string -> Result<real, string>, col: seq<string>): (r: Result<seq<real>, string>)
    ensures r.Ok? <==> forall i :: 0 <= i < |col| ==> parse(col[i]).Ok?
    ensures r.Ok? ==> |r.value| == |col| && forall i :: 0 <= i < |col| ==> r.value[i] == parse(col[i]).value
    decreases |col|
  {
    if col == [] then Ok([])
    else
      var front := col[..|col| - 1];
      assert forall i :: 0 <= i < |front| ==> front[i] == col[i];
      match ParseColumn(parse, front)
      case Err(e) => Err(e)
      case Ok(init) =>
        match parse(col[|col| - 1])
        case Err(e) => Err(e)
        case Ok(v) => Ok(init + [v])
  }

  /** A column that fails to parse fails with the error of its first cell that
      does not parse. */
  lemma {:induction false} ParseColumnFirstError(parse: string -> Result<real, string>, col: seq<string>)
    requires ParseColumn(parse, col).Err?
    ensures exists i :: 0 <= i < |col| && parse(col[i]) == Err(ParseColumn(parse, col).error)
                     && forall k :: 0 <= k < i ==> parse(col[k]).Ok?
    decreases |col|
  {
    var front := col[..|col| - 1];
    assert forall i :: 0 <= i < |front| ==> front[i] == col[i];
    if ParseColumn(parse, front).Err? {
      ParseColumnFirstError(parse, front);
      var i :| 0 <= i < |front| && parse(front[i]) == Err(ParseColumn(parse, front).error)
             && forall k :: 0 <= k < i ==> parse(front[k]).Ok?;
      assert parse(col[i]) == Err(ParseColumn(parse, col).error);
    } else {
      assert parse(col[|col| - 1]) == Err(ParseColumn(parse, col).error);
    }
  }

  /** The error of the first column, in order, that does not parse. */
  function FirstParseError(parse: string -> Result<real, string>, cols: seq<seq<string>>): (e: Option<string>)
    ensures e.None? <==> forall k :: 0 <= k < |cols| ==> ParseColumn(parse, cols[k]).Ok?
    decreases |cols|
  {
    if cols == [] then None
    else
      match FirstParseError(parse, cols[..|cols| - 1])
      case Some(e) => Some(e)
      case None =>
        var last := ParseColumn(parse, cols[|cols| - 1]);
        if last.Err? then Some(last.error) else None
  }

  /** An error found in a prefix is the first error of the whole. */
  lemma {:induction false} FirstParseErrorOfPrefix(parse: string -> Result<real, string>, p: seq<seq<string>>, cols: seq<seq<string>>)
    requires p <= cols && FirstParseError(parse, p).Some?
    ensures FirstParseError(parse, cols) == FirstParseError(parse, p)
    decreases |cols|
  {
    if |cols| > |p| {
      var init := cols[..|cols| - 1];
      assert p <= init;
      FirstParseErrorOfPrefix(parse, p, init);
    } else {
      assert cols == p;
    }
  }

  /** The parsed columns, when every cell parses. */
  function ParseAll(parse: string -> Result<real, string>, cols: seq<seq<string>>): (parsed: seq<seq<real>>)
    requires FirstParseError(parse, cols).None?
    ensures |parsed| == |cols|
    ensures forall k :: 0 <= k < |cols| ==> parsed[k] == ParseColumn(parse, cols[k]).value
  {
    seq(|cols|, k requires 0 <= k < |cols| => ParseColumn(parse, cols[k]).value)
  }

  /** Appending a column that parses keeps the columns error free and appends
      its parsed cells. */
  lemma ParseAllSnoc(parse: string -> Result<real, string>, cols: seq<seq<string>>, col: seq<string>)
    requires FirstParseError(parse, cols).None? && ParseColumn(parse, col).Ok?
    ensures FirstParseError(parse, cols + [col]).None?
    ensures ParseAll(parse, cols + [col]) == ParseAll(parse, cols) + [ParseColumn(parse, col).value]
  {
    assert (cols + [col])[..|cols|] == cols;
  }

  /** Appending a column that does not parse, after error-free columns, makes
      its error the first one. */
  lemma FirstParseErrorSnoc(parse: string -> Result<real, string>, cols: seq<seq<string>>, col: seq<string>)
    requires FirstParseError(parse, cols).None? && ParseColumn(parse, col).Err?
    ensures FirstParseError(parse, cols + [col]) == Some(ParseColumn(parse, col).error)
  {
    assert (cols + [col])[..|cols|] == cols;
  }

  /** The columns of each kind, the other columns parsed as numbers. */
  datatype Partition = Partition(nominal: seq<seq<string>>, ordinal: seq<seq<string>>, other: seq<seq<real>>)

  /** The outcome of sorting the columns: the nominal, ordinal and other columns
      in CSV order, or a panic at the first other column that does not parse. */
  function Partitioned(cols: seq<seq<string>>, ix: Indices, parse: string -> Result<real, string>): (r: Exit<Partition>)
    ensures var others := Select(cols, |cols|, ix, Other);
      r.Returned? <==> forall k :: 0 <= k < |others| ==> ParseColumn(parse, others[k]).Ok?
    ensures var others := Select(cols, |cols|, ix, Other);
      r.Panicked? ==> r.message == UnwrapErr(FirstParseError(parse, others).value)
    ensures r.Returned? ==> |r.value.nominal| + |r.value.ordinal| + |r.value.other| <= |cols|
    ensures var others := Select(cols, |cols|, ix, Other);
      r.Returned? ==> |r.value.other| == |others| && forall k, i :: 0 <= k < |others| && 0 <= i < |others[k]| ==>
        i < |r.value.other[k]| && r.value.other[k][i] == parse(others[k][i]).value
  {
    var others := Select(cols, |cols|, ix, Other);
    SelectCounts(cols, |cols|, ix);
    match FirstParseError(parse, others)
    case Some(e) => Panicked(UnwrapErr(e))
    case None =>
      Returned(Partition(Select(cols, |cols|, ix, Nominal), Select(cols, |cols|, ix, Ordinal), ParseAll(parse, others)))
  }

  /** An other column that does not parse, after other columns that all parse,
      holds the first parse error of all the other columns. */
  lemma SelectedFirstError(cols: seq<seq<string>>, j: nat, ix: Indices, parse: string -> Result<real, string>)
    requires j < |cols| && GroupOf(ix, j) == Other
    requires FirstParseError(parse, Select(cols, j, ix, Other)).None?
    requires ParseColumn(parse, cols[j]).Err?
    ensures FirstParseError(parse, Select(cols, |cols|, ix, Other)) == Some(ParseColumn(parse, cols[j]).error)
  {
    var seen := Select(cols, j, ix, Other) + [cols[j]];
    FirstParseErrorSnoc(parse, Select(cols, j, ix, Other), cols[j]);
    SelectedPrefix(cols, j, ix);
    FirstParseErrorOfPrefix(parse, seen, Select(cols, |cols|, ix, Other));
  }

  /** The columns of kind Other up to and including an Other column at j are a
      prefix of all the columns of kind Other. */
  lemma SelectedPrefix(cols: seq<seq<string>>, j: nat, ix: Indices)
    requires j < |cols| && GroupOf(ix, j) == Other
    ensures Select(cols, j, ix, Other) + [cols[j]] <= Select(cols, |cols|, ix, Other)
  {
    assert Select(cols, j + 1, ix, Other) == Select(cols, j, ix, Other) + [cols[j]];
    SelectPrefix(cols, j + 1, |cols|, ix, Other);
  }

  /** Such a column decides the outcome: the unwrap of its error panics. */
  lemma PartitionedPanics(cols: seq<seq<string>>, j: nat, ix: Indices, parse: string -> Result<real, string>)
    requires j < |cols| && GroupOf(ix, j) == Other
    requires FirstParseError(parse, Select(cols, j, ix, Other)).None?
    requires ParseColumn(parse, cols[j]).Err?
    ensures Partitioned(cols, ix, parse) == Panicked(UnwrapErr(ParseColumn(parse, cols[j]).error))
  {
    SelectedFirstError(cols, j, ix, parse);
  }

  /** The loop over the columns of the CSV table that pushes each column onto
      the list of its kind, parsing the other columns. */
  method PartitionColumns(data: Array2<string>, ix: Indices, parse: string -> Result<real, string>) returns (r: Exit<Partition>)
    ensures r == Partitioned(Columns(data), ix, parse)
  {
    var cols := Columns(data);
    var nominal, ordinal, other := [], [], [];
    for j := 0 to data.ncols
      invariant nominal == Select(cols, j, ix, Nominal)
      invariant ordinal == Select(cols, j, ix, Ordinal)
      invariant FirstParseError(parse, Select(cols, j, ix, Other)).None?
      invariant other == ParseAll(parse, Select(cols, j, ix, Other))
    {
      var col := Column(data, j);
      assert col == cols[j];
      if j in ix.nominal {
        assert GroupOf(ix, j) == Nominal;
        nominal := nominal + [col];
      } else if j in ix.ordinal {
        assert GroupOf(ix, j) == Ordinal;
        ordinal := ordinal + [col];
      } else if j in ix.other {
        assert GroupOf(ix, j) == Other;
        var seen := Select(cols, j, ix, Other);
        assert Select(cols, j + 1, ix, Other) == seen + [col];
        match ParseColumn(parse, col)
        case Err(e) =>
          PartitionedPanics(cols, j, ix, parse);
          return Panicked(UnwrapErr(e));
        case Ok(parsed) =>
          ParseAllSnoc(parse, seen, col);
          other := other + [parsed];
      }
    }
    r := Returned(Partition(nominal, ordinal, other));
  }

  /** The labels of a column as the numbers 0, 1, 2, ... */
  function LabelColumn(col: seq<string>): (labels: seq<real>)
    ensures |labels| == |col|
  {
    seq(|col|, i requires 0 <= i < |col| => Labels(col)[i] as real)
  }

  function Min(a: nat, b: nat): nat {
    if a < b then a else b
  }

  /** The one-hot matrices of the nominal columns paired, position by position,
      with the configured nominal names (`zip` stops at the shorter list). */
  function OneHots(config: Config, p: Partition): (oneHots: seq<Array2<real>>)
    ensures |oneHots| == Min(|p.nominal|, |config.nominals|)
  {
    var pairs := Min(|p.nominal|, |config.nominals|);
    seq(pairs, k requires 0 <= k < pairs => OneHotMatrix(p.nominal[k]))
  }

  /** The one-hot column names of each pair. */
  function NameBlocks(config: Config, p: Partition): (blocks: seq<seq<string>>)
    ensures |blocks| == Min(|p.nominal|, |config.nominals|)
  {
    var pairs := Min(|p.nominal|, |config.nominals|);
    seq(pairs, k requires 0 <= k < pairs => FeatureNames(config.nominals[k], Distinct(p.nominal[k])))
  }

  /** The one-hot column names of those pairs, pair after pair. */
  function OneHotNames(config: Config, p: Partition): seq<string>
  {
    Flatten(NameBlocks(config, p))
  }

  /** There are as many one-hot names as one-hot columns. */
  lemma {:induction false} OneHotNamesCount(config: Config, p: Partition, k: nat)
    requires k <= Min(|p.nominal|, |config.nominals|)
    ensures |Flatten(NameBlocks(config, p)[..k])| == TotalColumns(OneHots(config, p)[..k])
    decreases k
  {
    if k > 0 {
      OneHotNamesCount(config, p, k - 1);
      var blocks, oneHots := NameBlocks(config, p), OneHots(config, p);
      assert blocks[..k] == blocks[..k - 1] + [blocks[k - 1]];
      FlattenSnoc(blocks[..k - 1], blocks[k - 1]);
      assert oneHots[..k][..k - 1] == oneHots[..k - 1];
    }
  }

  /** The label encoded ordinal columns. */
  function LabelledOrdinals(p: Partition): (labelled: seq<seq<real>>)
    ensures |labelled| == |p.ordinal|
  {
    seq(|p.ordinal|, k requires 0 <= k < |p.ordinal| => LabelColumn(p.ordinal[k]))
  }

  /** The dataset assembled from the sorted columns: the concatenated one-hot
      blocks, the label encoded ordinal columns and the parsed other columns,
      each block with one row per feature, stacked and transposed. Both
      `from_shape_vec` calls take the number of headers as the row length and
      panic when it does not fit; the stacking panics when the blocks' row
      lengths differ. */
  function Assemble(config: Config, headers: seq<string>, p: Partition): (r: Exit<Dataset>)
    ensures r.Returned? ==> r.value.featureNames == OneHotNames(config, p) + config.ordinals + config.others
    ensures r.Panicked? ==>
      r.message in {EmptyInput, InconsistentRows, UnwrapErr(OutOfBounds), UnwrapErr(IncompatibleShape)}
  {
    var labelled := LabelledOrdinals(p);
    match Concatenation(OneHots(config, p))
    case Panicked(m) => Panicked(m)
    case Returned(nominalRecords) =>
      match FromShapeVec(|labelled|, |headers|, Flatten(labelled))
      case Err(e) => Panicked(UnwrapErr(e))
      case Ok(ordinalRecords) =>
        match FromShapeVec(|p.other|, |headers|, Flatten(p.other))
        case Err(e) => Panicked(UnwrapErr(e))
        case Ok(otherRecords) =>
          match StackRows(nominalRecords, ordinalRecords, otherRecords)
          case Err(e) => Panicked(UnwrapErr(e))
          case Ok(combined) =>
            Returned(Dataset(Transpose(combined), OneHotNames(config, p) + config.ordinals + config.others))
  }

  /** The outcome of encoding a CSV table with the given headers. */
  function EncodeTable(config: Config, headers: seq<string>, data: Array2<string>, parse: string -> Result<real, string>): (r: Exit<Dataset>)
    ensures var cols := Columns(data);
      var e := FirstParseError(parse, Select(cols, |cols|, IndicesOf(config, headers), Other));
      && (e.Some? ==> r == Panicked(UnwrapErr(e.value)))
      && (e.None? && r.Panicked? ==>
            r.message in {EmptyInput, InconsistentRows, UnwrapErr(OutOfBounds), UnwrapErr(IncompatibleShape)})
    ensures r.Returned? ==>
      r.value.featureNames == OneHotNames(config, Partitioned(Columns(data), IndicesOf(config, headers), parse).value)
                              + config.ordinals + config.others
  {
    match Partitioned(Columns(data), IndicesOf(config, headers), parse)
    case Panicked(m) => Panicked(m)
    case Returned(p) => Assemble(config, headers, p)
  }

  /** The outcome of encoding a CSV text: reading the headers or the records
      fails with a panic, as both are unwrapped. */
  function Encode(config: Config, text: string, csv: CsvReader, parse: string -> Result<real, string>): (r: Exit<Dataset>)
    ensures var headers := csv.headers(config.separator, config.hasFeatureNames, text);
      headers.Err? ==> r == Panicked(UnwrapErr(headers.error))
    ensures var headers := csv.headers(config.separator, config.hasFeatureNames, text);
      var data := csv.records(config.separator, config.hasFeatureNames, text);
      r.Returned? ==>
        && headers.Ok? && data.Ok?
        && data.value.nrows == |headers.value|
        && r.value.records.nrows == |headers.value|
  {
    match csv.headers(config.separator, config.hasFeatureNames, text)
    case Err(e) => Panicked(UnwrapErr(e))
    case Ok(headers) =>
      match csv.records(config.separator, config.hasFeatureNames, text)
      case Err(e) => Panicked(UnwrapErr(e))
      case Ok(data) =>
        EncodeTableOutcome(config, headers, data, parse);
        EncodeTable(config, headers, data, parse)
  }

  /** Every sorted column has one cell per record. */
  ghost predicate ColumnsOfLength(p: Partition, rows: nat) {
    && (forall k :: 0 <= k < |p.nominal| ==> |p.nominal[k]| == rows)
    && (forall k :: 0 <= k < |p.ordinal| ==> |p.ordinal[k]| == rows)
    && (forall k :: 0 <= k < |p.other| ==> |p.other[k]| == rows)
  }

  /** Selected columns keep the common column length. */
  lemma {:induction false} SelectLengths(cols: seq<seq<string>>, n: nat, ix: Indices, g: Group, rows: nat)
    requires n <= |cols| && forall j :: 0 <= j < |cols| ==> |cols[j]| == rows
    ensures forall k :: 0 <= k < |Select(cols, n, ix, g)| ==> |Select(cols, n, ix, g)[k]| == rows
    decreases n
  {
    if n > 0 {
      SelectLengths(cols, n - 1, ix, g, rows);
    }
  }

  /** The columns sorted out of a table have one cell per record. */
  lemma PartitionedLengths(data: Array2<string>, ix: Indices, parse: string -> Result<real, string>)
    requires Partitioned(Columns(data), ix, parse).Returned?
    ensures ColumnsOfLength(Partitioned(Columns(data), ix, parse).value, data.nrows)
  {
    var cols := Columns(data);
    SelectLengths(cols, |cols|, ix, Nominal, data.nrows);
    SelectLengths(cols, |cols|, ix, Ordinal, data.nrows);
    SelectLengths(cols, |cols|, ix, Other, data.nrows);
  }

  /** Row i of each of the given matrices. */
  function RowsAt(arrays: seq<Array2<real>>, i: nat): (rows: seq<seq<real>>)
    requires forall k :: 0 <= k < |arrays| ==> i < arrays[k].nrows
    ensures |rows| == |arrays|
  {
    seq(|arrays|, k requires 0 <= k < |arrays| => arrays[k].cells[i])
  }

  /** Cell i of the c-th column overall is cell c of the i-th rows laid end to end. */
  lemma {:induction false} AllColumnsRow(arrays: seq<Array2<real>>, rows: nat, i: nat)
    requires forall k :: 0 <= k < |arrays| ==> arrays[k].nrows == rows
    requires i < rows
    ensures |Flatten(RowsAt(arrays, i))| == TotalColumns(arrays)
    ensures forall c :: 0 <= c < TotalColumns(arrays) ==>
      |AllColumns(arrays)[c]| == rows && AllColumns(arrays)[c][i] == Flatten(RowsAt(arrays, i))[c]
    decreases |arrays|
  {
    ColumnsHaveRowsIff(arrays, rows);
    if arrays != [] {
      var init, last := arrays[..|arrays| - 1], arrays[|arrays| - 1];
      AllColumnsRow(init, rows, i);
      assert RowsAt(arrays, i) == RowsAt(init, i) + [last.cells[i]];
      FlattenSnoc(RowsAt(init, i), last.cells[i]);
      var t := TotalColumns(init);
      forall c | t <= c < TotalColumns(arrays)
        ensures |AllColumns(arrays)[c]| == rows && AllColumns(arrays)[c][i] == Flatten(RowsAt(arrays, i))[c]
      {
        assert AllColumns(arrays)[c] == Columns(last)[c - t];
      }
    }
  }

  /** The one-hot rows of the paired nominal columns at position i. */
  ghost function OneHotRowsAt(config: Config, p: Partition, rows: nat, i: nat): seq<seq<real>>
    requires ColumnsOfLength(p, rows) && i < rows
  {
    var pairs := Min(|p.nominal|, |config.nominals|);
    seq(pairs, k requires 0 <= k < pairs => OneHotRow(|Distinct(p.nominal[k])|, Labels(p.nominal[k])[i]))
  }

  /** The labels of the ordinal columns at position i. */
  ghost function OrdinalRowAt(p: Partition, rows: nat, i: nat): seq<real>
    requires ColumnsOfLength(p, rows) && i < rows
  {
    seq(|p.ordinal|, k requires 0 <= k < |p.ordinal| => Labels(p.ordinal[k])[i] as real)
  }

  /** The parsed other columns at position i. */
  ghost function OtherRowAt(p: Partition, rows: nat, i: nat): seq<real>
    requires ColumnsOfLength(p, rows) && i < rows
  {
    seq(|p.other|, k requires 0 <= k < |p.other| => p.other[k][i])
  }

  /** Record i of the encoded dataset, stated directly: the one-hot rows of the
      paired nominal columns, then the labels of the ordinal columns, then the
      parsed other columns, all at position i. */
  ghost function EncodedRow(config: Config, p: Partition, rows: nat, i: nat): seq<real>
    requires ColumnsOfLength(p, rows) && i < rows
  {
    Flatten(OneHotRowsAt(config, p, rows, i)) + OrdinalRowAt(p, rows, i) + OtherRowAt(p, rows, i)
  }

  lemma MulCancel(a: nat, b: nat, c: nat)
    requires a > 0 && a * b == a * c
    ensures b == c
  {
    if b < c {
      MulLeftMonoStrict(a, b, c);
    } else if c < b {
      MulLeftMonoStrict(a, c, b);
    }
  }

  lemma MulLeftMonoStrict(a: nat, b: nat, c: nat)
    requires a > 0 && b < c
    ensures a * b < a * c
  {
  }

  /** Assembly succeeds exactly when at least one nominal column is paired with
      a configured name and the number of records equals the number of headers:
      the label encoded and parsed blocks are reshaped to rows of header length,
      and the one-hot block has rows of record length. */
  lemma AssembleSucceeds(config: Config, headers: seq<string>, p: Partition, rows: nat)
    requires ColumnsOfLength(p, rows)
    ensures Assemble(config, headers, p).Returned? <==> Min(|p.nominal|, |config.nominals|) > 0 && rows == |headers|
  {
    var oneHots := OneHots(config, p);
    var labelled := LabelledOrdinals(p);
    assert forall k :: 0 <= k < |oneHots| ==> oneHots[k].nrows == rows;
    if oneHots != [] {
      var c := Concatenation(oneHots);
      assert c.Returned? && c.value.ncols == rows;
      FlattenRows(labelled, rows);
      FlattenRows(p.other, rows);
      if |labelled| > 0 && |labelled| * |headers| == |labelled| * rows {
        MulCancel(|labelled|, |headers|, rows);
      }
      if |p.other| > 0 && |p.other| * |headers| == |p.other| * rows {
        MulCancel(|p.other|, |headers|, rows);
      }
    }
  }

  /** Row i of the transposed stack of the one-hot columns, the label columns and
      the parsed columns is the encoded row i. */
  lemma StackedRow(config: Config, p: Partition, rows: nat, combined: Array2<real>, i: nat)
    requires ColumnsOfLength(p, rows) && i < rows
    requires combined.ncols == rows
    requires combined.cells == AllColumns(OneHots(config, p)) + LabelledOrdinals(p) + p.other
    ensures Transpose(combined).cells[i] == EncodedRow(config, p, rows, i)
  {
    OneHotBlockAt(config, p, rows, i);
    OrdinalBlockAt(p, rows, i);
    StackedColumnsAt(AllColumns(OneHots(config, p)), LabelledOrdinals(p), p.other,
      Flatten(OneHotRowsAt(config, p, rows, i)), OrdinalRowAt(p, rows, i), OtherRowAt(p, rows, i), i);
    TransposeRow(combined, i, EncodedRow(config, p, rows, i));
  }

  /** Position i of the one-hot columns, left to right, is the flattened one-hot rows at i. */
  lemma OneHotBlockAt(config: Config, p: Partition, rows: nat, i: nat)
    requires ColumnsOfLength(p, rows) && i < rows
    ensures |AllColumns(OneHots(config, p))| == |Flatten(OneHotRowsAt(config, p, rows, i))|
    ensures forall c :: 0 <= c < |AllColumns(OneHots(config, p))| ==>
      i < |AllColumns(OneHots(config, p))[c]| && AllColumns(OneHots(config, p))[c][i] == Flatten(OneHotRowsAt(config, p, rows, i))[c]
  {
    var oneHots := OneHots(config, p);
    assert forall k :: 0 <= k < |oneHots| ==> oneHots[k].nrows == rows;
    AllColumnsRow(oneHots, rows, i);
    assert RowsAt(oneHots, i) == OneHotRowsAt(config, p, rows, i);
  }

  /** Position i of the label encoded columns is the ordinal labels at i. */
  lemma OrdinalBlockAt(p: Partition, rows: nat, i: nat)
    requires ColumnsOfLength(p, rows) && i < rows
    ensures |LabelledOrdinals(p)| == |OrdinalRowAt(p, rows, i)|
    ensures forall k :: 0 <= k < |LabelledOrdinals(p)| ==>
      i < |LabelledOrdinals(p)[k]| && LabelledOrdinals(p)[k][i] == OrdinalRowAt(p, rows, i)[k]
  {
  }

  /** The records of an assembled dataset are the encoded rows, one per record. */
  lemma AssembleRecords(config: Config, headers: seq<string>, p: Partition, rows: nat)
    requires ColumnsOfLength(p, rows) && Assemble(config, headers, p).Returned?
    ensures Assemble(config, headers, p).value.records.nrows == rows
    ensures forall i :: 0 <= i < rows ==> Assemble(config, headers, p).value.records.cells[i] == EncodedRow(config, p, rows, i)
  {
    AssembleSucceeds(config, headers, p, rows);
    var oneHots := OneHots(config, p);
    var labelled := LabelledOrdinals(p);
    FromShapeVecOfFlatten(labelled, rows);
    FromShapeVecOfFlatten(p.other, rows);
    var nominalRecords := Concatenation(oneHots).value;
    var combined := StackRows(nominalRecords, Matrix(|labelled|, rows, labelled), Matrix(|p.other|, rows, p.other)).value;
    assert Assemble(config, headers, p).value.records == Transpose(combined);
    forall i | 0 <= i < rows
      ensures Transpose(combined).cells[i] == EncodedRow(config, p, rows, i)
    {
      StackedRow(config, p, rows, combined, i);
    }
  }

  /** An assembled dataset has one column per one-hot column, ordinal column and
      other column found in the table, but one feature name per one-hot column
      and per name configured as ordinal or other: the two counts agree exactly
      when the configured ordinal and other names match as many columns. */
  lemma AssembleFeatureCount(config: Config, headers: seq<string>, p: Partition, rows: nat)
    requires ColumnsOfLength(p, rows) && Assemble(config, headers, p).Returned?
    ensures var d := Assemble(config, headers, p).value;
      && d.records.ncols == TotalColumns(OneHots(config, p)) + |p.ordinal| + |p.other|
      && |d.featureNames| == TotalColumns(OneHots(config, p)) + |config.ordinals| + |config.others|
      && (|d.featureNames| == d.records.ncols <==> |config.ordinals| + |config.others| == |p.ordinal| + |p.other|)
  {
    AssembleSucceeds(config, headers, p, rows);
    var pairs := Min(|p.nominal|, |config.nominals|);
    OneHotNamesCount(config, p, pairs);
    assert NameBlocks(config, p)[..pairs] == NameBlocks(config, p);
    assert OneHots(config, p)[..pairs] == OneHots(config, p);
    FromShapeVecOfFlatten(LabelledOrdinals(p), rows);
    FromShapeVecOfFlatten(p.other, rows);
  }

  /** With a nominal column paired and an ordinal column present, a table with
      fewer records than headers panics with the out-of-bounds error of the
      first `from_shape_vec`, and one with more records than headers with its
      incompatible-shape error. */
  lemma AssembleShapePanics(config: Config, headers: seq<string>, p: Partition, rows: nat)
    requires ColumnsOfLength(p, rows)
    requires Min(|p.nominal|, |config.nominals|) > 0 && |p.ordinal| > 0
    ensures rows < |headers| ==> Assemble(config, headers, p) == Panicked(UnwrapErr(OutOfBounds))
    ensures rows > |headers| ==> Assemble(config, headers, p) == Panicked(UnwrapErr(IncompatibleShape))
  {
    var oneHots := OneHots(config, p);
    assert forall k :: 0 <= k < |oneHots| ==> oneHots[k].nrows == rows;
    assert Concatenation(oneHots).Returned?;
    var labelled := LabelledOrdinals(p);
    assert forall k :: 0 <= k < |labelled| ==> |labelled[k]| == rows;
    FlattenLength(labelled, rows);
    if rows < |headers| {
      MulLeftMonoStrict(|labelled|, rows, |headers|);
    } else if rows > |headers| {
      MulLeftMonoStrict(|labelled|, |headers|, rows);
    }
  }

  /** Encoding a table succeeds exactly when every cell of the other columns
      parses, at least one nominal column is paired with a configured name, and
      the table has as many records as headers; each record is then encoded
      column kind by column kind. */
  lemma EncodeTableOutcome(config: Config, headers: seq<string>, data: Array2<string>, parse: string -> Result<real, string>)
    ensures var cols, ix := Columns(data), IndicesOf(config, headers);
      (EncodeTable(config, headers, data, parse).Returned? <==>
        (&& FirstParseError(parse, Select(cols, |cols|, ix, Other)).None?
         && Min(|Select(cols, |cols|, ix, Nominal)|, |config.nominals|) > 0
         && data.nrows == |headers|))
    ensures EncodeTable(config, headers, data, parse).Returned? ==>
      var p := Partitioned(Columns(data), IndicesOf(config, headers), parse).value;
      var records := EncodeTable(config, headers, data, parse).value.records;
      && ColumnsOfLength(p, data.nrows)
      && records.nrows == data.nrows
      && forall i :: 0 <= i < data.nrows ==> records.cells[i] == EncodedRow(config, p, data.nrows, i)
  {
    var cols, ix := Columns(data), IndicesOf(config, headers);
    var parts := Partitioned(cols, ix, parse);
    if parts.Returned? {
      PartitionedLengths(data, ix, parse);
      AssembleSucceeds(config, headers, parts.value, data.nrows);
      if EncodeTable(config, headers, data, parse).Returned? {
        AssembleRecords(config, headers, parts.value, data.nrows);
      }
    }
  }

  /** The loop that label encodes every ordinal column. */
  method LabelEncodeOrdinals(p: Partition) returns (labelEncodedOrdinals: seq<seq<real>>)
    ensures labelEncodedOrdinals == LabelledOrdinals(p)
  {
    labelEncodedOrdinals := [];
    for k := 0 to |p.ordinal|
      invariant labelEncodedOrdinals == LabelledOrdinals(p)[..k]
    {
      var labels := LabelEncode(p.ordinal[k]);
      var values := seq(|labels|, i requires 0 <= i < |labels| => labels[i] as real);
      assert values == LabelColumn(p.ordinal[k]);
      assert LabelledOrdinals(p)[..k + 1] == LabelledOrdinals(p)[..k] + [values];
      labelEncodedOrdinals := labelEncodedOrdinals + [values];
    }
    assert LabelledOrdinals(p)[..|p.ordinal|] == LabelledOrdinals(p);
  }

  /** The loop over the nominal columns zipped with the configured nominal
      names that one-hot encodes each column and gathers the column names. */
  method OneHotEncodeNominals(config: Config, p: Partition) returns (oneHotEncodedNominals: seq<Array2<real>>, oneHotFeatureNames: seq<string>)
    ensures oneHotEncodedNominals == OneHots(config, p)
    ensures oneHotFeatureNames == OneHotNames(config, p)
  {
    var pairs := Min(|p.nominal|, |config.nominals|);
    oneHotEncodedNominals := [];
    oneHotFeatureNames := [];
    ghost var nameBlocks := NameBlocks(config, p);
    for k := 0 to pairs
      invariant oneHotEncodedNominals == OneHots(config, p)[..k]
      invariant oneHotFeatureNames == Flatten(nameBlocks[..k])
    {
      var encoding, names := OneHotEncode(p.nominal[k], config.nominals[k]);
      OneHotMatrixOf(encoding, p.nominal[k]);
      assert OneHots(config, p)[..k + 1] == OneHots(config, p)[..k] + [encoding];
      assert nameBlocks[..k + 1] == nameBlocks[..k] + [names];
      FlattenSnoc(nameBlocks[..k], names);
      oneHotEncodedNominals := oneHotEncodedNominals + [encoding];
      oneHotFeatureNames := oneHotFeatureNames + names;
    }
    assert OneHots(config, p)[..pairs] == OneHots(config, p);
    assert nameBlocks[..pairs] == nameBlocks;
  }

  /** The body of the node's update once both a text and a configuration are
      at hand, step by step. */
  method EncodeDataset(config: Config, text: string, csv: CsvReader, parse: string -> Result<real, string>) returns (r: Exit<Dataset>)
    ensures r == Encode(config, text, csv, parse)
  {
    var headersRead := csv.headers(config.separator, config.hasFeatureNames, text);
    if headersRead.Err? {
      return Panicked(UnwrapErr(headersRead.error));
    }
    var headers := headersRead.value;
    var ix := IndicesOf(config, headers);
    var recordsRead := csv.records(config.separator, config.hasFeatureNames, text);
    if recordsRead.Err? {
      return Panicked(UnwrapErr(recordsRead.error));
    }
    var parts := PartitionColumns(recordsRead.value, ix, parse);
    if parts.Panicked? {
      return Panicked(parts.message);
    }
    var p := parts.value;

    var labelEncodedOrdinals := LabelEncodeOrdinals(p);
    var oneHotEncodedNominals, oneHotFeatureNames := OneHotEncodeNominals(config, p);
    var nominalRecords := ConcatenateArrays(oneHotEncodedNominals);
    if nominalRecords.Panicked? {
      return Panicked(nominalRecords.message);
    }
    var ordinalRecords := FromShapeVec(|labelEncodedOrdinals|, |headers|, Flatten(labelEncodedOrdinals));
    if ordinalRecords.Err? {
      return Panicked(UnwrapErr(ordinalRecords.error));
    }
    var otherRecords := FromShapeVec(|p.other|, |headers|, Flatten(p.other));
    if otherRecords.Err? {
      return Panicked(UnwrapErr(otherRecords.error));
    }
    var combinedRecords := StackRows(nominalRecords.value, ordinalRecords.value, otherRecords.value);
    if combinedRecords.Err? {
      return Panicked(UnwrapErr(combinedRecords.error));
    }
    var combinedFeatureNames := oneHotFeatureNames + config.ordinals + config.others;
    r := Returned(Dataset(Transpose(combinedRecords.value), combinedFeatureNames));
  }

  /** The node: its inputs are queues of pending messages (front first), its
      output the sequence of datasets sent so far, and dataObject the latched
      CSV text. */
  class CsvToEncodedDatasetNode {
    var configInput: seq<Config>
    var dataInput: seq<string>
    var output: seq<Dataset>
    var dataObject: Option<string>

    constructor ()
      ensures configInput == [] && dataInput == [] && output == [] && dataObject == None
    {
      configInput := [];
      dataInput := [];
      output := [];
      dataObject := None;
    }

    /** One update: a pending text replaces the stored one. Without any text the
        update fails before the configuration input is read. With one, a
        pending configuration is consumed and the encoded dataset sent, or the
        encoding panics; no pending configuration fails the update. */
    method OnUpdate(csv: CsvReader, parse: string -> Result<real, string>) returns (r: Exit<Result<(), string>>)
      modifies this
      ensures dataInput == Drop1(old(dataInput))
      ensures dataObject == if old(dataInput) == [] then old(dataObject) else Some(old(dataInput)[0])
      ensures dataObject.None? ==>
        r == Returned(Err(NoData)) && configInput == old(configInput) && output == old(output)
      ensures dataObject.Some? ==> configInput == Drop1(old(configInput))
      ensures dataObject.Some? && old(configInput) == [] ==> r == Returned(Err(NoConfig)) && output == old(output)
      ensures dataObject.Some? && old(configInput) != [] ==>
        var e := Encode(old(configInput)[0], dataObject.value, csv, parse);
        && (e.Panicked? ==> r == Panicked(e.message) && output == old(output))
        && (e.Returned? ==> r == Returned(Ok(())) && output == old(output) + [e.value])
    {
      if dataInput != [] {
        dataObject := Some(dataInput[0]);
        dataInput := dataInput[1..];
      }
      if dataObject.None? {
        return Returned(Err(NoData));
      }
      if configInput == [] {
        return Returned(Err(NoConfig));
      }
      var config := configInput[0];
      configInput := configInput[1..];
      var encoded := EncodeDataset(config, dataObject.value, csv, parse);
      match encoded
      case Panicked(m) =>
        r := Panicked(m);
      case Returned(dataset) =>
        output := output + [dataset];
        r := Returned(Ok(()));
    }
  }
}
