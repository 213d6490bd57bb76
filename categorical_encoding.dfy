/** The categorical encoders of the CSV-to-encoded-dataset node: label encoding
    of ordinal columns, one-hot encoding of nominal columns, and the column
    concatenation of the one-hot blocks. Encoded values are the f64 numbers 0,
    1, 2, ...; they are modelled as reals. */
module CategoricalEncoding {
  import opened Flow
  import opened Matrices

  /** No value occurs twice in d. */
  ghost predicate NoDuplicates(d: seq<string>) {
    forall i, j :: 0 <= i < j < |d| ==> d[i] != d[j]
  }

  /** The distinct values of s, in order of first appearance. */
  function Distinct(s: seq<string>): (d: seq<string>)
    ensures forall x :: x in d <==> x in s
    ensures NoDuplicates(d)
    ensures |d| <= |s|
    decreases |s|
  {
    if s == [] then []
    else
      var d := Distinct(s[..|s| - 1]);
      var x := s[|s| - 1];
      if x in d then d else d + [x]
  }

  /** The first position of x in d (`Iterator::position`). */
  function IndexOf(d: seq<string>, x: string): (k: nat)
    requires x in d
    ensures k < |d| && d[k] == x
    ensures forall j :: 0 <= j < k ==> d[j] != x
    decreases |d|
  {
    if d[0] == x then 0 else 1 + IndexOf(d[1..], x)
  }

  /** In a sequence without duplicates, the position of an element is its index. */
  lemma IndexOfUnique(d: seq<string>, k: nat)
    requires NoDuplicates(d) && k < |d|
    ensures IndexOf(d, d[k]) == k
  {
  }

  /** The distinct values of a prefix are a prefix of the distinct values. */
  lemma {:induction false} DistinctOfPrefix(s: seq<string>, n: nat)
    requires n <= |s|
    ensures Distinct(s[..n]) <= Distinct(s)
    decreases |s| - n
  {
    if n < |s| {
      var init := s[..|s| - 1];
      assert init[..n] == s[..n];
      DistinctOfPrefix(init, n);
    } else {
      assert s[..n] == s;
    }
  }

  /** Extending the input by one value appends it to the distinct values iff it is new. */
  lemma DistinctOfSnoc(s: seq<string>, n: nat)
    requires n < |s|
    ensures Distinct(s[..n + 1]) == if s[n] in s[..n] then Distinct(s[..n]) else Distinct(s[..n]) + [s[n]]
  {
    assert s[..n + 1][..n] == s[..n];
  }

  /** Positions in a prefix are positions in the whole. */
  lemma {:induction false} IndexOfInPrefix(p: seq<string>, d: seq<string>, x: string)
    requires p <= d && x in p
    ensures IndexOf(d, x) == IndexOf(p, x)
    decreases |p|
  {
    if d[0] != x {
      IndexOfInPrefix(p[1..], d[1..], x);
    }
  }

  /** The label of every string: its position among the distinct strings. */
  function Labels(s: seq<string>): (labels: seq<nat>)
    ensures |labels| == |s|
    ensures forall i :: 0 <= i < |s| ==> labels[i] < |Distinct(s)| && Distinct(s)[labels[i]] == s[i]
  {
    seq(|s|, i requires 0 <= i < |s| => IndexOf(Distinct(s), s[i]))
  }

  /** Two positions get the same label exactly when they hold the same string. */
  lemma SameLabelIffSameString(s: seq<string>, i: nat, j: nat)
    requires i < |s| && j < |s|
    ensures Labels(s)[i] == Labels(s)[j] <==> s[i] == s[j]
  {
    LabelAt(s, i);
    LabelAt(s, j);
  }

  /** The position among the distinct strings of a string that first appears at i. */
  lemma NewIndex(s: seq<string>, i: nat)
    requires i < |s| && s[i] !in s[..i]
    ensures IndexOf(Distinct(s), s[i]) == |Distinct(s[..i])|
  {
    var d, p := Distinct(s), Distinct(s[..i]);
    DistinctOfSnoc(s, i);
    DistinctOfPrefix(s, i + 1);
    var q := p + [s[i]];
    IndexOfUnique(q, |p|);
    IndexOfInPrefix(q, d, s[i]);
  }

  /** A string seen before reuses its label; a new string gets the next unused
      label, the number of distinct strings before it. In particular the first
      string gets label 0. */
  lemma FirstAppearanceLabel(s: seq<string>, i: nat)
    requires i < |s|
    ensures s[i] in s[..i] ==> Labels(s)[i] < |Distinct(s[..i])|
    ensures s[i] !in s[..i] ==> Labels(s)[i] == |Distinct(s[..i])|
  {
    var d, p := Distinct(s), Distinct(s[..i]);
    DistinctOfPrefix(s, i);
    if s[i] in s[..i] {
      IndexOfInPrefix(p, d, s[i]);
    } else {
      NewIndex(s, i);
    }
  }

  /** One step of computing the distinct values of a prefix: the next string
      is appended when it has not been seen. */
  lemma DistinctStep(s: seq<string>, n: nat, d: seq<string>)
    requires n < |s| && Distinct(s[..n]) == d
    ensures Distinct(s[..n + 1]) == if s[n] in d then d else d + [s[n]]
  {
    DistinctOfSnoc(s, n);
  }

  /** The label at i is the position of s[i] among the distinct strings. */
  lemma LabelIs(s: seq<string>, i: nat, k: nat)
    requires i < |s| && k < |Distinct(s)| && Distinct(s)[k] == s[i]
    ensures Labels(s)[i] == k
  {
    IndexOfUnique(Distinct(s), k);
  }

  /** Every label below the number of distinct strings is used. */
  lemma LabelsCoverDistinct(s: seq<string>, k: nat)
    requires k < |Distinct(s)|
    ensures exists i :: 0 <= i < |s| && Labels(s)[i] == k
  {
    var d := Distinct(s);
    var i :| 0 <= i < |s| && s[i] == d[k];
    IndexOfUnique(d, k);
    assert Labels(s)[i] == k;
  }

  /** The label at position i is the position of the string among the distinct strings. */
  lemma LabelAt(s: seq<string>, i: nat)
    requires i < |s|
    ensures Labels(s)[i] == IndexOf(Distinct(s), s[i])
  {
  }

  /** The prefix of length i + 1 extends the prefix of length i by s[i]. */
  lemma PrefixSnoc<T>(s: seq<T>, i: nat)
    requires i < |s|
    ensures s[..i + 1] == s[..i] + [s[i]]
  {
  }

  /** The state of the first-appearance walk after input[..i]: the map holds
      exactly the strings seen, each with its final label, and the counter is
      the number of distinct strings seen. */
  ghost predicate SeenMapping(input: seq<string>, i: nat, mapping: map<string, nat>, counter: nat)
    requires i <= |input|
  {
    SeenKeys(input, i, mapping) && SeenValues(input, mapping) && counter == |Distinct(input[..i])|
  }

  /** The map's keys are exactly the strings of input[..i]. */
  ghost predicate SeenKeys(input: seq<string>, i: nat, mapping: map<string, nat>)
    requires i <= |input|
  {
    forall x :: x in mapping <==> x in input[..i]
  }

  /** Every key is mapped to its final label. */
  ghost predicate SeenValues(input: seq<string>, mapping: map<string, nat>) {
    forall x :: x in mapping ==> x in Distinct(input) && mapping[x] == IndexOf(Distinct(input), x)
  }

  /** Before the walk nothing is seen. */
  lemma SeenMappingInit(input: seq<string>)
    ensures SeenMapping(input, 0, map[], 0)
  {
    assert input[..0] == [];
  }

  /** The keys of the map when the next string has been seen already. */
  lemma SeenKeysStepOld(input: seq<string>, i: nat, mapping: map<string, nat>)
    requires i < |input| && input[i] in mapping && SeenKeys(input, i, mapping)
    ensures SeenKeys(input, i + 1, mapping)
  {
    assert input[..i + 1] == input[..i] + [input[i]];
  }

  /** One step of the walk on a string already seen: nothing changes and the
      map already holds its label. */
  lemma SeenMappingStepOld(input: seq<string>, i: nat, mapping: map<string, nat>, counter: nat)
    requires i < |input| && SeenMapping(input, i, mapping, counter) && input[i] in mapping
    ensures SeenMapping(input, i + 1, mapping, counter)
    ensures Distinct(input[..i + 1]) == Distinct(input[..i])
    ensures mapping[input[i]] == Labels(input)[i]
  {
    SeenKeysStepOld(input, i, mapping);
    DistinctOfSnoc(input, i);
    LabelAt(input, i);
  }

  /** The keys of the map after a new string is added. */
  lemma SeenKeysStep(input: seq<string>, i: nat, mapping: map<string, nat>, counter: nat)
    requires i < |input| && SeenKeys(input, i, mapping)
    ensures SeenKeys(input, i + 1, mapping[input[i] := counter])
  {
    assert input[..i + 1] == input[..i] + [input[i]];
  }

  /** The values of the map after a new string is added. */
  lemma SeenValuesStep(input: seq<string>, i: nat, mapping: map<string, nat>, counter: nat)
    requires i < |input| && SeenValues(input, mapping)
    requires counter == IndexOf(Distinct(input), input[i])
    ensures SeenValues(input, mapping[input[i] := counter])
  {
    assert input[i] in input;
  }

  /** One step of the walk on a new string: it receives the counter, which is
      its label. */
  lemma SeenMappingStepNew(input: seq<string>, i: nat, mapping: map<string, nat>, counter: nat)
    requires i < |input| && SeenMapping(input, i, mapping, counter) && input[i] !in mapping
    ensures SeenMapping(input, i + 1, mapping[input[i] := counter], counter + 1)
    ensures Distinct(input[..i + 1]) == Distinct(input[..i]) + [input[i]]
    ensures counter == Labels(input)[i]
  {
    assert input[i] !in input[..i];
    DistinctOfSnoc(input, i);
    NewIndex(input, i);
    SeenKeysStep(input, i, mapping, counter);
    SeenValuesStep(input, i, mapping, counter);
    LabelAt(input, i);
  }

  /** After the whole input, every string is in the map with its label and the
      counter is the number of distinct strings. */
  lemma SeenMappingDone(input: seq<string>, mapping: map<string, nat>, counter: nat)
    requires SeenMapping(input, |input|, mapping, counter)
    ensures counter == |Distinct(input)|
    ensures forall r :: 0 <= r < |input| ==> input[r] in mapping && mapping[input[r]] == Labels(input)[r]
  {
    assert input[..|input|] == input;
  }

  /** `label_encode`: walks the input with a map from the strings seen so far
      to their labels and a counter of the labels handed out. */
  method LabelEncode(input: seq<string>) returns (labels: seq<nat>)
    ensures labels == Labels(input)
  {
    var labelMapping: map<string, nat> := map[];
    var labelCounter: nat := 0;
    labels := [];
    SeenMappingInit(input);
    for i := 0 to |input|
      invariant SeenMapping(input, i, labelMapping, labelCounter)
      invariant labels == Labels(input)[..i]
    {
      var s := input[i];
      PrefixSnoc(Labels(input), i);
      if s in labelMapping {
        SeenMappingStepOld(input, i, labelMapping, labelCounter);
      } else {
        SeenMappingStepNew(input, i, labelMapping, labelCounter);
        labelMapping := labelMapping[s := labelCounter];
        labelCounter := labelCounter + 1;
      }
      labels := labels + [labelMapping[s]];
    }
    assert Labels(input)[..|input|] == Labels(input);
  }

  /** A one-hot row of width n with its 1 at column k. */
  function OneHotRow(n: nat, k: nat): (row: seq<real>)
    ensures |row| == n
  {
    seq(n, j => if j == k then 1.0 else 0.0)
  }

  /** How many cells of row equal v. */
  function Count(row: seq<real>, v: real): nat
    decreases |row|
  {
    if row == [] then 0 else Count(row[..|row| - 1], v) + (if row[|row| - 1] == v then 1 else 0)
  }

  /** A one-hot row holds exactly one 1 and zeros elsewhere. */
  lemma {:induction false} OneHotRowHasSingleOne(n: nat, k: nat)
    requires k < n
    ensures Count(OneHotRow(n, k), 1.0) == 1
    ensures Count(OneHotRow(n, k), 0.0) == n - 1
  {
    OneHotRowCounts(n, k, n);
    assert OneHotRow(n, k)[..n] == OneHotRow(n, k);
  }

  lemma {:induction false} OneHotRowCounts(n: nat, k: nat, m: nat)
    requires k < n && m <= n
    ensures Count(OneHotRow(n, k)[..m], 1.0) == (if k < m then 1 else 0)
    ensures Count(OneHotRow(n, k)[..m], 0.0) == (if k < m then m - 1 else m)
    decreases m
  {
    var row := OneHotRow(n, k);
    if m > 0 {
      OneHotRowCounts(n, k, m - 1);
      assert row[..m][..m - 1] == row[..m - 1];
    }
    if m == n {
      assert row[..m] == row;
    }
  }

  /** The names of the one-hot columns: "<feature name>_<value>" per distinct value. */
  function FeatureNames(featureName: string, distinct: seq<string>): (names: seq<string>)
    ensures |names| == |distinct|
  {
    seq(|distinct|, k requires 0 <= k < |distinct| => featureName + "_" + distinct[k])
  }

  /** A new distinct value adds its column name at the end. */
  lemma FeatureNamesSnoc(featureName: string, distinct: seq<string>, x: string)
    ensures FeatureNames(featureName, distinct + [x]) == FeatureNames(featureName, distinct) + [featureName + "_" + x]
  {
  }

  /** Setting cell k of a zero row to 1 gives the one-hot row for k. */
  lemma SetOne(n: nat, k: nat)
    requires k < n
    ensures ZeroRow(n)[k := 1.0] == OneHotRow(n, k)
  {
  }

  /** The column holding the 1 of row i is the one named after input[i]. */
  lemma OneHotColumnNamesItsValue(input: seq<string>, featureName: string, i: nat, c: nat)
    requires i < |input| && c < |Distinct(input)|
    ensures OneHotRow(|Distinct(input)|, Labels(input)[i])[c] == 1.0
        <==> FeatureNames(featureName, Distinct(input))[c] == featureName + "_" + input[i]
  {
    var d := Distinct(input);
    var prefix := featureName + "_";
    if FeatureNames(featureName, d)[c] == prefix + input[i] {
      assert (prefix + d[c])[|prefix|..] == d[c];
      assert (prefix + input[i])[|prefix|..] == input[i];
      IndexOfUnique(d, c);
    }
  }

  /** The one-hot matrix of a column of strings: one row per string, one column
      per distinct string. */
  function OneHotMatrix(input: seq<string>): (m: Array2<real>)
    ensures m.nrows == |input| && m.ncols == |Distinct(input)|
  {
    Matrix(|input|, |Distinct(input)|, seq(|input|, i requires 0 <= i < |input| => OneHotRow(|Distinct(input)|, Labels(input)[i])))
  }

  /** A matrix with the shape and the rows of the one-hot matrix is that matrix. */
  lemma OneHotMatrixOf(m: Array2<real>, input: seq<string>)
    requires m.nrows == |input| && m.ncols == |Distinct(input)|
    requires forall i :: 0 <= i < |input| ==> m.cells[i] == OneHotRow(|Distinct(input)|, Labels(input)[i])
    ensures m == OneHotMatrix(input)
  {
    assert m.cells == OneHotMatrix(input).cells;
  }

  /** `one_hot_encode`: a first pass gives each new string the next column and
      its feature name; a second pass sets the 1 of every row. */
  method OneHotEncode(input: seq<string>, featureName: string) returns (encoding: Array2<real>, featureNames: seq<string>)
    ensures encoding.nrows == |input| && encoding.ncols == |Distinct(input)|
    ensures forall i :: 0 <= i < |input| ==> encoding.cells[i] == OneHotRow(|Distinct(input)|, Labels(input)[i])
    ensures featureNames == FeatureNames(featureName, Distinct(input))
  {
    var columnMapping: map<string, nat> := map[];
    var columnCounter: nat := 0;
    featureNames := [];
    SeenMappingInit(input);
    for i := 0 to |input|
      invariant SeenMapping(input, i, columnMapping, columnCounter)
      invariant featureNames == FeatureNames(featureName, Distinct(input[..i]))
    {
      var s := input[i];
      if s in columnMapping {
        SeenMappingStepOld(input, i, columnMapping, columnCounter);
      } else {
        SeenMappingStepNew(input, i, columnMapping, columnCounter);
        FeatureNamesSnoc(featureName, Distinct(input[..i]), s);
        columnMapping := columnMapping[s := columnCounter];
        featureNames := featureNames + [featureName + "_" + s];
        columnCounter := columnCounter + 1;
      }
    }
    SeenMappingDone(input, columnMapping, columnCounter);
    assert input[..|input|] == input;
    encoding := FillOneHot(input, columnMapping, columnCounter, Labels(input));
  }

  /** The second loop of `one_hot_encode`: starting from zeros, each row gets
      a 1 in the column the map assigns to its string. */
  method FillOneHot(input: seq<string>, columnMapping: map<string, nat>, cols: nat, ghost labels: seq<nat>)
    returns (encoding: Array2<real>)
    requires |labels| == |input|
    requires forall r :: 0 <= r < |input| ==> input[r] in columnMapping && columnMapping[input[r]] == labels[r] < cols
    ensures encoding.nrows == |input| && encoding.ncols == cols
    ensures forall i :: 0 <= i < |input| ==> encoding.cells[i] == OneHotRow(cols, labels[i])
  {
    var rows := |input|;
    encoding := Zeros(rows, cols);
    for r := 0 to rows
      invariant encoding.nrows == rows && encoding.ncols == cols
      invariant forall i :: 0 <= i < r ==> encoding.cells[i] == OneHotRow(cols, labels[i])
      invariant forall i :: r <= i < rows ==> encoding.cells[i] == ZeroRow(cols)
    {
      var s := input[r];
      if s in columnMapping {
        var c := columnMapping[s];
        SetOne(cols, c);
        encoding := SetCell(encoding, r, c, 1.0);
      }
    }
  }

  /** All columns of all arrays, array after array (`flat_map` of `axis_iter(Axis(1))`). */
  function AllColumns(arrays: seq<Array2<real>>): (cols: seq<seq<real>>)
    ensures |cols| == TotalColumns(arrays)
    decreases |arrays|
  {
    if arrays == [] then [] else AllColumns(arrays[..|arrays| - 1]) + Columns(arrays[|arrays| - 1])
  }

  /** The sum of the column counts. */
  function TotalColumns(arrays: seq<Array2<real>>): nat
    decreases |arrays|
  {
    if arrays == [] then 0 else TotalColumns(arrays[..|arrays| - 1]) + arrays[|arrays| - 1].ncols
  }

  /** Every column has `rows` cells exactly when every array that has a column
      has `rows` rows: an array without columns is never checked. */
  lemma {:induction false} ColumnsHaveRowsIff(arrays: seq<Array2<real>>, rows: nat)
    ensures (forall k :: 0 <= k < |AllColumns(arrays)| ==> |AllColumns(arrays)[k]| == rows)
        <==> (forall a :: 0 <= a < |arrays| && arrays[a].ncols > 0 ==> arrays[a].nrows == rows)
    decreases |arrays|
  {
    if arrays != [] {
      var init, last := arrays[..|arrays| - 1], arrays[|arrays| - 1];
      ColumnsHaveRowsIff(init, rows);
      var ci, cl := AllColumns(init), Columns(last);
      var all := AllColumns(arrays);
      assert all == ci + cl;
      if forall k :: 0 <= k < |all| ==> |all[k]| == rows {
        assert forall k :: 0 <= k < |ci| ==> |ci[k]| == rows by {
          forall k | 0 <= k < |ci| ensures |ci[k]| == rows {
            assert ci[k] == all[k];
          }
        }
        if last.ncols > 0 {
          assert cl[0] == all[|ci|];
        }
      } else {
        var k :| 0 <= k < |all| && |all[k]| != rows;
        if k < |ci| {
          assert ci[k] == all[k];
        } else {
          assert all[k] == cl[k - |ci|];
          assert arrays[|arrays| - 1] == last;
        }
      }
    }
  }

  const EmptyInput := "Input vector is empty"
  const InconsistentRows := "Inconsistent number of rows in arrays"

  /** The outcome of `concatenate_arrays` on a list of arrays. */
  function Concatenation(arrays: seq<Array2<real>>): (r: Exit<Array2<real>>)
    ensures arrays == [] ==> r == Panicked(EmptyInput)
    ensures arrays != [] ==>
      (r.Returned? <==> forall a :: 0 <= a < |arrays| && arrays[a].ncols > 0 ==> arrays[a].nrows == arrays[0].nrows)
    ensures r.Panicked? && arrays != [] ==> r.message == InconsistentRows
    ensures r.Returned? ==>
      && r.value.nrows == TotalColumns(arrays)
      && r.value.ncols == arrays[0].nrows
      && r.value.cells == AllColumns(arrays)
  {
    if arrays == [] then Panicked(EmptyInput)
    else if exists a :: 0 <= a < |arrays| && arrays[a].ncols > 0 && arrays[a].nrows != arrays[0].nrows then
      Panicked(InconsistentRows)
    else
      var rows := arrays[0].nrows;
      assert forall a :: 0 <= a < |arrays| && arrays[a].ncols > 0 ==> arrays[a].nrows == rows;
      ColumnsHaveRowsIff(arrays, rows);
      var m := Matrix(TotalColumns(arrays), rows, AllColumns(arrays));
      assert forall k :: 0 <= k < |AllColumns(arrays)| ==> |AllColumns(arrays)[k]| == rows;
      Returned(m)
  }

  /** `concatenate_arrays`: copies every column of every array, in order, into a
      (rows x total columns) matrix and returns its transpose, so that row k of
      the result is the k-th column overall. It panics on an empty list and on a
      column whose length differs from the first array's row count. */
  method ConcatenateArrays(arrays: seq<Array2<real>>) returns (r: Exit<Array2<real>>)
    ensures arrays == [] ==> r == Panicked(EmptyInput)
    ensures arrays != [] ==>
      (r.Returned? <==> forall a :: 0 <= a < |arrays| && arrays[a].ncols > 0 ==> arrays[a].nrows == arrays[0].nrows)
    ensures r.Panicked? && arrays != [] ==> r.message == InconsistentRows
    ensures r.Returned? ==>
      && r.value.nrows == TotalColumns(arrays)
      && r.value.ncols == arrays[0].nrows
      && r.value.cells == AllColumns(arrays)
    ensures r == Concatenation(arrays)
  {
    if arrays == [] {
      return Panicked(EmptyInput);
    }
    var rows, cols := arrays[0].nrows, TotalColumns(arrays);
    var result := Zeros(rows, cols);
    var columns := AllColumns(arrays);
    ColumnsHaveRowsIff(arrays, rows);
    for k := 0 to |columns|
      invariant result.nrows == rows && result.ncols == cols
      invariant forall c :: 0 <= c < k ==> |columns[c]| == rows && Column(result, c) == columns[c]
    {
      var column := columns[k];
      if |column| != rows {
        return Panicked(InconsistentRows);
      }
      result := SetColumn(result, k, column);
    }
    var t := Transpose(result);
    assert t.cells == columns by {
      forall c | 0 <= c < cols
        ensures t.cells[c] == columns[c]
      {
        assert t.cells[c] == Column(result, c);
      }
    }
    r := Returned(t);
  }
}
