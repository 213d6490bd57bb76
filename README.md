# flowrs-ai nodes: a verified Dafny model

This project models, in Dafny, the discrete logic of five flowrs-ai nodes:

- **CSVToEncodedDatasetNode** (`src/nodes/converter/csv2dataset_encoding.rs`). It latches a CSV text. It sorts the CSV columns by header name into nominal, ordinal and other features. It one-hot encodes the nominal columns, label encodes the ordinal ones and parses the others as numbers. It then sends the assembled records with their feature names.
- **MaxOutputNode**, in two variants (`src/nodes/post_processing/max_output_value.rs` and `src/nodes/max_output_value.rs`). It latches a class list. For each output tensor it sends the class of the largest element, with ties going to the last largest.
- **ArrayReshapeNode**, in two variants (`src/nodes/array_reshape.rs` and `src/nodes/ArrayReshapeNode.rs`). It latches a target dimension and reshapes each incoming array to it.

Structure:

- Every node is a class. Its inputs are sequences of pending messages, front first; `next()` consumes the front one. Its output is the sequence of values sent so far. Its latched state is an `Option` field.
- A Rust call that may panic returns an `Exit` value: `Returned(v)` or `Panicked(message)`.
- Tensor elements and encoded values are reals.
- An n-dimensional array is a shape plus its elements in row-major order.
- A two-dimensional ndarray is a `Matrix` value whose cells are stored row by row.

Modules, one file each:

- `Flow`: Option, Result, Exit, and input queues.
- `ArgMax`: the `max_by(total_cmp)` fold.
- `PostProcessingMaxOutputValue` and `MaxOutputValue`: the two classifier nodes.
- `NdArrays`: shape, `into_shape`, `from_iter`.
- `ArrayReshape` and `ArrayReshapeNode`: the two reshape nodes.
- `Matrices`: the 2-D ndarray operations the encoder uses.
- `CategoricalEncoding`: `label_encode`, `one_hot_encode`, `concatenate_arrays`.
- `Csv2DatasetEncoding`: the column partition, the assembly and the node.

The encoding methods are proved against specification functions:

- `Distinct` is the distinct strings in order of first appearance.
- `Labels` is each string's position among them.
- `OneHotRow` and `OneHotMatrix` are the one-hot rows and matrix.
- `AllColumns` is every column of every array, in order.
- `Select` is the columns of one kind, in CSV order.
- `Assemble` and `Encode` are the node's final assembly.

Lemmas then state what those functions mean.

### Behaviour of the encoding assembly

The final assembly of `on_update` (`src/nodes/converter/csv2dataset_encoding.rs:129-146`) is modelled as written, including which ndarray error each `from_shape_vec` call panics with. `EncodeTableOutcome`, `AssembleSucceeds`, `AssembleShapePanics`, `AssembleFeatureCount` and `MisalignedNominalNames` show where it deviates from what the node evidently means to do. `InputOutputTest` shows that it gives the records the crate's own test expects.

- **Record count must equal header count.** Both `from_shape_vec` calls (lines 131-132) take `headers.len()` as the row length of a block whose rows are columns of the CSV, so the rows are record-length. Encoding therefore succeeds only when the number of records equals the number of headers. With an ordinal column present, fewer records than headers panic with ndarray's out-of-bounds error and more records with its incompatible-shape error. The crate's test uses 6 records and 6 headers.
- **At least one nominal column is needed.** When no nominal column is paired with a configured nominal name, `concatenate_arrays` panics with "Input vector is empty".
- **Nominal names can be misaligned.** Nominal columns arrive in CSV order, but are zipped with `config.nominals` in configuration order (line 123). A column can therefore be named after another column's feature name. For headers "a" and "b", both nominal, configured as ["b", "a"], the one-hot column of "a" is named "b_x" and that of "b" is named "a_y". The zip also stops at the shorter list.
- **Feature names can miscount columns.** The feature names list every configured ordinal and other name, whether or not it matched a column. The number of names equals the number of record columns exactly when the configured ordinal and other names match as many columns.

## Model

| member | source | states |
|---|---|---|
| ArgMax.MaxBy | src/nodes/post_processing/max_output_value.rs:35-38 | `max_by` over the enumerated tensor with `total_cmp`: None exactly for an empty tensor, otherwise the last position of a largest element |
| ArgMax.LastMaxIsUnique | src/nodes/max_output_value.rs:36-39 | the last position of a maximum is unique, so the chosen index is determined |
| PostProcessingMaxOutputValue.GetMaxOutput | src/nodes/post_processing/max_output_value.rs:30-52 | no classes gives Err "No classes provided"; a length mismatch gives Err with the size message; an empty tensor and empty class list give Err "max index not foutn"; otherwise Ok with the class at the last maximal element, and Ok exactly when classes are held and both lengths agree and are positive |
| PostProcessingMaxOutputValue.MaxOutputNode.constructor | src/nodes/post_processing/max_output_value.rs:21-28 | a new node holds no classes, has nothing pending and has sent nothing |
| PostProcessingMaxOutputValue.MaxOutputNode.OnUpdate | src/nodes/post_processing/max_output_value.rs:57-74 | a pending class list replaces the stored one; a pending tensor is consumed and its class sent exactly when classification is Ok; nothing else is sent; the update always returns Ok |
| MaxOutputValue.GetMaxOutput | src/nodes/max_output_value.rs:30-53 | no classes or a length mismatch gives None; it panics with "No max index found" exactly when classes are held and both tensor and classes are empty; otherwise Some of the class at the last maximal element |
| MaxOutputValue.MaxOutputNode.constructor | src/nodes/max_output_value.rs:21-28 | a new node holds no classes, has nothing pending and has sent nothing |
| MaxOutputValue.MaxOutputNode.OnUpdate | src/nodes/max_output_value.rs:58-75 | a pending class list replaces the stored one; a pending tensor is consumed; its class is sent only for Some; the update returns Ok unless classification panics |
| MaxOutputValue.ShouldGetMaxOutput | tests/test_max_output_value.rs:7-27 | classes ["one", "two", "three"] on one update and tensor [0.1, 0.5, 0.2] on the next send exactly "two" |
| NdArrays.IntoShape | src/nodes/ArrayReshapeNode.rs:58 | `into_shape` succeeds exactly when the new shape holds as many elements; the result has the requested shape and the same row-major elements; otherwise the IncompatibleShape error |
| NdArrays.FromIter | src/nodes/array_reshape.rs:56-57 | `Array::from_iter` of the logical-order elements is the one-dimensional array of exactly those elements |
| NdArrays.OffsetInRange | src/nodes/array_reshape.rs:59 | every multi-index inside a shape has a row-major position below the element count |
| NdArrays.UnravelIsInverse | src/nodes/array_reshape.rs:59 | every row-major position is the position of an in-bounds multi-index |
| NdArrays.ReshapeKeepsPositions | src/nodes/array_reshape.rs:56-59 | after a reshape, the element at any index of the new shape is the input element at the same row-major position |
| NdArrays.IntoShapeRoundTrip | src/nodes/ArrayReshapeNode.rs:58 | reshaping back to the original shape restores the array |
| ArrayReshape.FlattenAndReshape | src/nodes/array_reshape.rs:56-59 | flatten-then-reshape succeeds exactly when the element counts agree; the result has the configured shape and the input's elements in logical order |
| ArrayReshape.FlattenFirstAgreesWithIntoShape | src/nodes/array_reshape.rs:56-59 | flattening first gives the same result as reshaping the array directly |
| ArrayReshape.ArrayReshapeNode.constructor | src/nodes/array_reshape.rs:30-37 | a new node holds no configuration and has nothing pending or sent |
| ArrayReshape.ArrayReshapeNode.OnUpdate | src/nodes/array_reshape.rs:44-68 | a pending config replaces the stored one; without a config it fails with "No config to reshape array." and leaves the array input unread; otherwise it consumes a pending array and sends the reshaped array, or fails with the shape error and sends nothing; no pending array returns Ok |
| ArrayReshapeNode.Reshape | src/nodes/ArrayReshapeNode.rs:39-42 | the helper panics exactly when no configuration is stored; otherwise it is `into_shape` to the stored dimension |
| ArrayReshapeNode.ArrayReshapeNode.constructor | src/nodes/ArrayReshapeNode.rs:31-38 | a new node holds no configuration and has nothing pending or sent |
| ArrayReshapeNode.ArrayReshapeNode.OnUpdate | src/nodes/ArrayReshapeNode.rs:46-70 | as the generic node, except that a config with no pending array fails with "No array given to input." |
| ArrayReshapeNode.Zeros | tests/test_reshape.rs:24-26 | `ArrayD::zeros(shape)` is a valid array of that shape whose elements are all 0 |
| ArrayReshapeNode.ShouldReturnReshapedArray | tests/test_reshape.rs:9-46 | a 3x2x1 array and dimension [1, 2, 3] on one update send an array of shape [1, 2, 3] |
| Matrices.Column | src/nodes/converter/csv2dataset_encoding.rs:270 | one item of `axis_iter(Axis(1))`: the cells of column j, top to bottom |
| Matrices.Columns | src/nodes/converter/csv2dataset_encoding.rs:103 | the columns of a matrix, left to right |
| Matrices.Transpose | src/nodes/converter/csv2dataset_encoding.rs:280 | `t().to_owned()`: swapped dimensions, cell (j, i) is cell (i, j) |
| Matrices.Zeros | src/nodes/converter/csv2dataset_encoding.rs:243 | `Array2::zeros((rows, cols))`: the given shape, every row zero |
| Matrices.SetCell | src/nodes/converter/csv2dataset_encoding.rs:247 | `encoding[[i, j]] = v` changes that cell and nothing else |
| Matrices.SetColumn | src/nodes/converter/csv2dataset_encoding.rs:277 | assigning a column changes that column and no other |
| Matrices.FlattenRows | src/nodes/converter/csv2dataset_encoding.rs:131-132 | flattening equal-width rows puts row k at positions k*w to k*w+w |
| Matrices.FromShapeVec | src/nodes/converter/csv2dataset_encoding.rs:131-132 | `from_shape_vec((rows, cols), v)` succeeds exactly when v has rows*cols elements, and row i is the i-th slice of length cols; too few elements give the out-of-bounds error, too many the incompatible-shape error |
| Matrices.FromShapeVecOfFlatten | src/nodes/converter/csv2dataset_encoding.rs:131-132 | rebuilding from flattened rows of the stated width gives back the rows |
| Matrices.StackRows | src/nodes/converter/csv2dataset_encoding.rs:134-139 | `concatenate![Axis(0), ..]` succeeds exactly when the column counts agree, and stacks the rows in order |
| CategoricalEncoding.Distinct | src/nodes/converter/csv2dataset_encoding.rs:231-238 | the distinct strings in first-appearance order: the same members, no duplicates |
| CategoricalEncoding.IndexOf | src/nodes/converter/csv2dataset_encoding.rs:209 | the first position of a string among the distinct strings |
| CategoricalEncoding.Labels | src/nodes/converter/csv2dataset_encoding.rs:202-215 | one label per input in input order, each below the distinct count and naming its string |
| CategoricalEncoding.SameLabelIffSameString | src/nodes/converter/csv2dataset_encoding.rs:205-213 | two positions get the same label exactly when they hold the same string |
| CategoricalEncoding.FirstAppearanceLabel | src/nodes/converter/csv2dataset_encoding.rs:205-213 | a new string gets the number of distinct strings before it (so the first gets 0); a repeated one gets an earlier label |
| CategoricalEncoding.LabelsCoverDistinct | src/nodes/converter/csv2dataset_encoding.rs:205-213 | every label below the distinct count is used |
| CategoricalEncoding.SeenMappingStepNew | src/nodes/converter/csv2dataset_encoding.rs:209-213 | an unseen string is mapped to the counter, which is its label; it joins the distinct strings and the counter grows by one |
| CategoricalEncoding.SeenMappingStepOld | src/nodes/converter/csv2dataset_encoding.rs:209 | a seen string already maps to its label; the map, the counter and the distinct strings stay as they are |
| CategoricalEncoding.LabelEncode | src/nodes/converter/csv2dataset_encoding.rs:195-218 | the map-and-counter walk returns exactly the first-appearance labels |
| CategoricalEncoding.OneHotRowHasSingleOne | src/nodes/converter/csv2dataset_encoding.rs:241-249 | a one-hot row has exactly one 1 and zeros elsewhere |
| CategoricalEncoding.FeatureNames | src/nodes/converter/csv2dataset_encoding.rs:234-235 | one "<feature name>_<value>" per distinct value |
| CategoricalEncoding.OneHotColumnNamesItsValue | src/nodes/converter/csv2dataset_encoding.rs:229-249 | the 1 of row i sits in the column whose name is "<feature name>_" followed by the row's string |
| CategoricalEncoding.OneHotEncode | src/nodes/converter/csv2dataset_encoding.rs:220-252 | the matrix is input length by distinct count; row i is the one-hot row at the label of input[i]; the names are one per distinct value in first-appearance order |
| CategoricalEncoding.FillOneHot | src/nodes/converter/csv2dataset_encoding.rs:238-249 | starting from zeros, row i gets its single 1 in the column the map gives its string, so row i is the one-hot row of its label |
| CategoricalEncoding.OneHotMatrixOf | src/nodes/converter/csv2dataset_encoding.rs:241-249 | a matrix with that shape and those rows is the one-hot matrix |
| CategoricalEncoding.AllColumns | src/nodes/converter/csv2dataset_encoding.rs:270 | the columns of all arrays, array after array, as many as the sum of column counts |
| CategoricalEncoding.ColumnsHaveRowsIff | src/nodes/converter/csv2dataset_encoding.rs:270-274 | every column has the first array's row count exactly when every array with a column has that row count; arrays without columns are never checked |
| CategoricalEncoding.Concatenation | src/nodes/converter/csv2dataset_encoding.rs:254-281 | the outcome of `concatenate_arrays`: "Input vector is empty" on an empty list; otherwise success exactly when every array with a column has the first array's row count, else "Inconsistent number of rows in arrays"; on success a (total columns x rows) matrix whose rows are all the columns in order |
| CategoricalEncoding.DistinctStep | src/nodes/converter/csv2dataset_encoding.rs:231-238 | one more string adds itself to the distinct strings exactly when it is new |
| CategoricalEncoding.LabelIs | src/nodes/converter/csv2dataset_encoding.rs:205-213 | a string at distinct position k gets label k |
| CategoricalEncoding.ConcatenateArrays | src/nodes/converter/csv2dataset_encoding.rs:254-281 | panics "Input vector is empty" on an empty list and "Inconsistent number of rows in arrays" exactly when an array with columns has a different row count; otherwise row k of the (total columns x rows) result is the k-th column overall |
| Csv2DatasetEncoding.HeaderIndices | src/nodes/converter/csv2dataset_encoding.rs:83-93 | the first header position of each configured name, as a set of valid positions |
| Csv2DatasetEncoding.HeaderIndicesIff | src/nodes/converter/csv2dataset_encoding.rs:83-93 | a position is selected exactly when its header is configured and occurs nowhere earlier; absent names select nothing |
| Csv2DatasetEncoding.GroupOf | src/nodes/converter/csv2dataset_encoding.rs:104-110 | a column is nominal when its position is a nominal index, else ordinal when an ordinal index, else other when an other index, else dropped |
| Csv2DatasetEncoding.Select | src/nodes/converter/csv2dataset_encoding.rs:103-111 | the columns of one kind among the first n, in CSV order, at most n of them |
| Csv2DatasetEncoding.SelectMembers | src/nodes/converter/csv2dataset_encoding.rs:103-111 | a column is selected for a kind exactly when some column of that kind is it |
| Csv2DatasetEncoding.SelectCounts | src/nodes/converter/csv2dataset_encoding.rs:103-111 | every column goes to exactly one of nominal, ordinal, other or dropped |
| Csv2DatasetEncoding.ParseColumn | src/nodes/converter/csv2dataset_encoding.rs:109 | Ok, with every cell parsed in order, exactly when every cell parses |
| Csv2DatasetEncoding.ParseColumnFirstError | src/nodes/converter/csv2dataset_encoding.rs:109 | a column that fails carries the error of its first cell that does not parse |
| Csv2DatasetEncoding.FirstParseError | src/nodes/converter/csv2dataset_encoding.rs:108-109 | no error exactly when every column parses |
| Csv2DatasetEncoding.FirstParseErrorOfPrefix | src/nodes/converter/csv2dataset_encoding.rs:103-110 | an error in earlier columns is the error reported for all columns |
| Csv2DatasetEncoding.ParseAll | src/nodes/converter/csv2dataset_encoding.rs:109 | the other columns with every cell parsed |
| Csv2DatasetEncoding.Partitioned | src/nodes/converter/csv2dataset_encoding.rs:98-111 | the sort succeeds exactly when every other column parses, and otherwise panics with the unwrap of the first parse error; it keeps at most as many columns as there are, and each parsed cell is the parse of its cell |
| Csv2DatasetEncoding.PartitionColumns | src/nodes/converter/csv2dataset_encoding.rs:98-111 | the loop yields the nominal, ordinal and parsed other columns in CSV order, or panics with the first parse error |
| Csv2DatasetEncoding.PartitionedPanics | src/nodes/converter/csv2dataset_encoding.rs:108-109 | an other column that does not parse, after other columns that all parse, makes the sort panic with the unwrap of its error |
| Csv2DatasetEncoding.SelectLengths | src/nodes/converter/csv2dataset_encoding.rs:103-105 | selected columns keep the common column length |
| Csv2DatasetEncoding.PartitionedLengths | src/nodes/converter/csv2dataset_encoding.rs:98-111 | every sorted column has one cell per record |
| Csv2DatasetEncoding.LabelColumn | src/nodes/converter/csv2dataset_encoding.rs:113-116 | one numeric label per cell |
| Csv2DatasetEncoding.OneHots | src/nodes/converter/csv2dataset_encoding.rs:123-125 | one one-hot matrix per pair of the zip of nominal columns with nominal names |
| Csv2DatasetEncoding.NameBlocks | src/nodes/converter/csv2dataset_encoding.rs:123-126 | one block of names per pair of the zip |
| Csv2DatasetEncoding.OneHotNamesCount | src/nodes/converter/csv2dataset_encoding.rs:123-130 | there are as many one-hot names as one-hot columns |
| Csv2DatasetEncoding.LabelledOrdinals | src/nodes/converter/csv2dataset_encoding.rs:113-116 | one label column per ordinal column |
| Csv2DatasetEncoding.RowsAt | src/nodes/converter/csv2dataset_encoding.rs:270 | row i of each matrix, one per matrix |
| Csv2DatasetEncoding.AllColumnsRow | src/nodes/converter/csv2dataset_encoding.rs:270-280 | cell i of the c-th column overall is cell c of the i-th rows laid end to end |
| Csv2DatasetEncoding.Assemble | src/nodes/converter/csv2dataset_encoding.rs:129-146 | the feature names are the one-hot names, then every configured ordinal name, then every configured other name; a panic is the empty-list or row-count panic of `concatenate_arrays`, or the unwrap of an out-of-bounds or incompatible-shape error |
| Csv2DatasetEncoding.AssembleSucceeds | src/nodes/converter/csv2dataset_encoding.rs:129-139 | assembly succeeds exactly when at least one nominal column is paired and the record count equals the header count |
| Csv2DatasetEncoding.AssembleRecords | src/nodes/converter/csv2dataset_encoding.rs:129-146 | on success each record is the one-hot rows of the paired nominal columns, then the ordinal labels, then the parsed other values |
| Csv2DatasetEncoding.AssembleShapePanics | src/nodes/converter/csv2dataset_encoding.rs:131-132 | with a paired nominal column and an ordinal column, fewer records than headers panic with the out-of-bounds error and more records with the incompatible-shape error |
| Csv2DatasetEncoding.AssembleFeatureCount | src/nodes/converter/csv2dataset_encoding.rs:141-146 | the records have one column per one-hot, ordinal and other column; the names count one-hot columns plus configured ordinal and other names; they agree exactly when those counts match |
| Csv2DatasetEncoding.EncodeTable | src/nodes/converter/csv2dataset_encoding.rs:98-146 | a parse error in an other column panics before anything is assembled; any other panic is one of the assembly's; on success the names are the assembly's |
| Csv2DatasetEncoding.Encode | src/nodes/converter/csv2dataset_encoding.rs:71-146 | a header read error panics with its unwrap; encoding succeeds only when both reads succeed and the records are as many as the headers, and then there is one encoded record per CSV record |
| Csv2DatasetEncoding.EncodeTableOutcome | src/nodes/converter/csv2dataset_encoding.rs:83-146 | encoding a table succeeds exactly when all other cells parse, some nominal column is paired and records equal headers; records are then the encoded rows |
| Csv2DatasetEncoding.LabelEncodeOrdinals | src/nodes/converter/csv2dataset_encoding.rs:113-116 | the loop label encodes every ordinal column in order |
| Csv2DatasetEncoding.OneHotEncodeNominals | src/nodes/converter/csv2dataset_encoding.rs:118-127 | the loop one-hot encodes each zipped pair and concatenates their names in order |
| Csv2DatasetEncoding.EncodeDataset | src/nodes/converter/csv2dataset_encoding.rs:71-146 | the step-by-step encoding returns the specified dataset, or panics as specified |
| Csv2DatasetEncoding.CsvToEncodedDatasetNode.constructor | src/nodes/converter/csv2dataset_encoding.rs:43-50 | a new node has no text and nothing pending or sent |
| Csv2DatasetEncoding.CsvToEncodedDatasetNode.OnUpdate | src/nodes/converter/csv2dataset_encoding.rs:59-161 | a pending text replaces the stored one and is reused later; without any text it returns "No data received!" and leaves the config input unread; with a text but no config it returns "No config received!" and sends nothing; otherwise it sends the encoded dataset or panics |

| Csv2DatasetEncodingScenarios.SwappedPartitioned | src/nodes/converter/csv2dataset_encoding.rs:98-111 | with headers "a" and "b" both configured nominal, both columns are nominal, in CSV order |
| Csv2DatasetEncodingScenarios.RepeatedColumnsAssemble | src/nodes/converter/csv2dataset_encoding.rs:118-146 | two nominal columns that each repeat one value encode to two records of two ones, the first column named after the first configured nominal name and the second after the second |
| Csv2DatasetEncodingScenarios.MisalignedNominalNames | src/nodes/converter/csv2dataset_encoding.rs:123 | for headers ["a", "b"] configured as nominals ["b", "a"], the column of "a" is named "b_x" and the column of "b" is named "a_y" |
| Csv2DatasetEncodingCrateTest.TestPartitioned | src/nodes/converter/csv2dataset_encoding.rs:98-111 | the test table sorts into Feate1 and Feature2 as nominal, F5 and F6 as ordinal, and Feature3 and F4 parsed as other |
| Csv2DatasetEncodingCrateTest.DistinctOfUnrepeated | src/nodes/converter/csv2dataset_encoding.rs:231-238 | a sequence without repeated strings is its own list of distinct strings |
| Csv2DatasetEncodingCrateTest.Feate1Values | src/nodes/converter/csv2dataset_encoding.rs:195-218 | the Feate1 column has five distinct values and labels 0, 1, 2, 3, 4, 2 |
| Csv2DatasetEncodingCrateTest.F6Values | src/nodes/converter/csv2dataset_encoding.rs:195-218 | the F6 column has labels 0, 1, 1, 2, 1, 1 |
| Csv2DatasetEncodingCrateTest.TestRow | src/nodes/converter/csv2dataset_encoding.rs:184-189 | each encoded record of the test table is the matching row of the expected matrix |
| Csv2DatasetEncodingCrateTest.TestAssemble | src/nodes/converter/csv2dataset_encoding.rs:129-146 | assembling the sorted test columns gives the 6 x 12 expected matrix and the names of the distinct values, then F5, F6, Feature3 and F4 |
| Csv2DatasetEncodingCrateTest.InputOutputTest | src/nodes/converter/csv2dataset_encoding.rs:165-193 | the crate's test: with a parser that reads the numbers in the other columns, encoding its table gives exactly the expected records |

## Left out

- Tensor elements are reals. The NaN and signed-zero ordering of `f32::total_cmp` is not modelled, and neither is f32/f64 rounding.
- ArgMax.MaxBy: orders elements by their real value, which agrees with `total_cmp` only when no NaN and no negative zero is present.
- Sending on an output never fails here. The error paths of `send` (`src/nodes/array_reshape.rs:62`, `src/nodes/ArrayReshapeNode.rs:61`, `src/nodes/converter/csv2dataset_encoding.rs:152`) are not modelled.
- The `UpdateError` values that the classifier nodes construct and then discard have no effect and are not modelled.
- `println!` and `eprintln!` output is not modelled.
- CSV reading is a parameter. The `csv` and `ndarray_csv` crates are not part of this model, including the header handling when `has_feature_names` is false.
- Number parsing (`str::parse` for the node's element type) is a parameter, as is the text of its error.
- NdArrays.IntoShape: models arrays in standard (row-major) layout only. ndarray's `into_shape` also succeeds on an array in column-major (Fortran) layout, but then takes its elements in column-major order; it fails only for an array that is contiguous in neither layout. So `src/nodes/ArrayReshapeNode.rs:58` and `src/nodes/array_reshape.rs:56-59` can give different arrays, or one can fail where the other succeeds, on such input. The encoding node's output (`t().to_owned()`, `src/nodes/converter/csv2dataset_encoding.rs:146`) is such a column-major array. The overflow error for element counts beyond `isize::MAX` is not modelled either, since the product of dimensions is an unbounded natural.
- ArrayReshape.FlattenFirstAgreesWithIntoShape: holds for every array only because the model has no memory layout; for a column-major or non-contiguous array the two reshape nodes differ as described above.
- CategoricalEncoding.LabelEncode: labels are naturals. The f64 counter of the source is exact only up to 2^53 distinct strings, and that limit is not modelled.
- The generic element type `T` of the encoding node and the dimension type `D` of the generic reshape node are fixed to reals and to a shape sequence.
- Lifecycle hooks (`on_init`, `on_shutdown`) and the runtime that schedules updates are not part of this model.
- Csv2DatasetEncodingCrateTest.InputOutputTest: starts from the headers and records the CSV reader returns for the test's text, since reading is a parameter, and assumes a parser that reads "1", "3", "6" and "9" as those numbers. The test checks only the records; the lemma also states the feature names.
