# House price predictor: data shaping, in Dafny

This project models the data-shaping core of the house price predictor's training
library (`house-price-predictor/src/lib.rs`). That core has three parts:

- **`train_test_split`.** It builds the row ordinals `0..height` and shuffles them in
  place. It cuts the shuffled vector at `split_idx = ceil(height * (1 - test_size_perc))`
  and row-selects each part from the input frame.
- **`split_features_and_targets`.** It projects a frame onto the thirteen declared feature
  columns, in declared order, and onto the single target column `medv`.
- **The matrix adapter in `train_xgboost_model`.** Each frame becomes a row-major (C-order)
  contiguous buffer. That buffer goes to `DMatrix::from_dense` together with the frame's
  height. The labels come from the target frame of the same split.

Modules, one per component:

- `Wrappers` (wrappers.dfy): `Option`, `Result` and the error values.
- `Sequences` (sequences.dfy): the "no element repeats" predicate.
- `Frame` (frame.dfy): a data frame as a sequence of named, equal-length columns, with `take`
  and `select`. Its height is the length of the first column, and 0 when there are no columns.
- `Shuffle` (shuffle.dfy): the in-place shuffle.
- `Split` (split.dfy): the cut and the split method.
- `Features` (features.dfy): the column projection.
- `Dense` (dense.dfy): row-major flattening and the labelled matrix.
- `Pipeline` (pipeline.dfy): the composition performed by `main.rs`.

Modelling choices:

- **The shuffle.** The random generator is a parameter: `draws` is the sequence of numbers it
  would produce. `SliceRandom::shuffle` runs the Fisher–Yates loop: for `i` from `len-1` down
  to 1 it swaps position `i` with a draw from `0..=i`. This model is an array method with
  exactly that loop. The shuffled vector is proved to be a permutation of `0..height`. Every
  permutation is also proved to be reachable, so the draws stand for an arbitrary permutation.
  The rand crate's own source is not part of this model.
- **The fraction.** `test_size_perc` is the rational `num/den`. `split_idx` is the exact
  ceiling of `height*(den-num)/den`. The `as usize` cast saturates: a negative ceiling
  becomes 0.
- **The slice panic.** If `split_idx > height`, `indices[0..split_idx]` panics. This happens
  for a negative fraction, and the model returns `Err(SliceOutOfRange)`.
- **Test and train, kept as written.** The first `split_idx` shuffled ordinals become the
  frame named *test* and the rest become *train*. With `test_size_perc = 0.2` the "test"
  frame therefore gets the larger share: on 506 rows, test has 405 and train has 101.
- **The `u32` cast.** `x as u32` is modelled as `x mod 2^32`. The conversion never makes
  either `take` fail, because a converted index never exceeds the original.
  Each output row is the intended input row only when `height <= 2^32`, and `SplitRows`
  states this as its precondition.
- **The input frame is unchanged.** Datatype values are immutable, so the frame passed by
  shared reference cannot change.
- **Error paths.** Polars' `select` fails with a column-not-found error on the first absent
  name, and with a duplicate error for a repeated name. `take` fails on an out-of-range
  index. Both are modelled as `Result` errors.
- **Checks the code does not make.** The code
  has no `EmptyDataset` or `InvalidFraction` check. An empty frame yields two empty frames.
  A fraction above 1 yields an empty "test" frame. It has no `MissingValue` or
  `NonContiguousLayout` error either: a C-order array is always contiguous, so `as_slice`
  cannot fail. Null handling is not part of the code.

## Model

| member | source | states |
|---|---|---|
| Frame.TakeRows | house-price-predictor/src/lib.rs:55-56 | the selected frame keeps the column names, is valid, has one row per index, and its row k is input row idx[k] |
| Frame.Take | house-price-predictor/src/lib.rs:55-56 | `take` succeeds exactly when every index is below the height (else OutOfBounds), and then has one row per index with row k equal to input row idx[k] and the same columns |
| Frame.Lookup | house-price-predictor/src/lib.rs:70-71 | a name resolves iff it is a column name; the column returned is a column of the frame with that name; otherwise ColumnNotFound(name) |
| Frame.SelectColumns | house-price-predictor/src/lib.rs:70-71 | looking up a list of names succeeds iff every name is present, returning for each name, in order, the frame's column of that name; an error names an absent listed column |
| Frame.Select | house-price-predictor/src/lib.rs:70-71 | `select` succeeds iff the names are distinct and all present; the result is valid, has exactly the listed names in listed order, the input's height and the input's columns; errors are Duplicate (only if a name repeats) or ColumnNotFound naming an absent listed name |
| Shuffle.ShuffleInPlace | house-price-predictor/src/lib.rs:43 | the in-place Fisher–Yates loop leaves the array equal to the specification `Shuffled` of its old contents, and a permutation (same multiset) of them |
| Shuffle.Range | house-price-predictor/src/lib.rs:42 | `(0..height).collect()`: a vector of length height whose entry i is i |
| Shuffle.Shuffled | house-price-predictor/src/lib.rs:43 | the order the shuffle leaves a vector in: for any valid draws it keeps the length and the multiset of elements |
| Shuffle.ShuffleReachesEveryOrder | house-price-predictor/src/lib.rs:41-43 | every rearrangement of the input is the outcome of the shuffle for some valid draws |
| Shuffle.PermutationOfRange | house-price-predictor/src/lib.rs:42-43 | a sequence with the multiset of 0..n-1 has length n, holds only ordinals below n, holds each of them exactly once and repeats none |
| Split.ShuffledIndices | house-price-predictor/src/lib.rs:42-43 | the shuffled index vector has length height and every entry below height |
| Split.ShuffledIndicesPermutation | house-price-predictor/src/lib.rs:42-43 | the shuffled vector built from `0..height` has length height, values below height, each ordinal exactly once, no repeats |
| Split.SplitIndex | house-price-predictor/src/lib.rs:45 | split_idx is the exact ceiling of height*(1-num/den) when num <= den; is 0 when the fraction is at least 1; is at most height for a non-negative fraction; exceeds height for a negative fraction on a non-empty frame |
| Split.BostonSplitSizes | house-price-predictor/src/lib.rs:45-47 | 506 rows at 0.2 cut at 405, leaving 101 |
| Split.TestGetsLargerShare | house-price-predictor/src/lib.rs:45-47 | for a test fraction of at most one half, the frame named test is at least as large as the one named train |
| Split.AsU32 | house-price-predictor/src/lib.rs:49-53 | `x as u32` is below 2^32, never larger than x, and equal to x when x < 2^32 |
| Split.AsU32All | house-price-predictor/src/lib.rs:49-53 | mapping `as u32` over an index list: same length, and entry k is entry k converted by `as u32` |
| Split.AsU32AllExact | house-price-predictor/src/lib.rs:49-53 | converting an index list whose entries lie below a height of at most 2^32 changes nothing |
| Split.SplitPartition | house-price-predictor/src/lib.rs:45-47 | the first split_idx shuffled ordinals and the rest have sizes split_idx and height - split_idx, are disjoint, and together are exactly {0..height-1}, a set of height elements |
| Split.SplitFrames | house-price-predictor/src/lib.rs:39-62 | the split succeeds iff split_idx <= height (else SliceOutOfRange); both frames are valid with the input's columns, the test frame has split_idx rows and the heights sum to the input height |
| Split.SplitRows | house-price-predictor/src/lib.rs:46-56 | for a height of at most 2^32, test row t is input row p[t] and train row t is input row p[split_idx + t], p the shuffled permutation |
| Split.TrainTestSplit | house-price-predictor/src/lib.rs:39-62 | the method (build 0..height in an array, shuffle in place, cut, convert to u32, take test then train) returns exactly the split specified by SplitFrames |
| Features.SchemaWellFormed | house-price-predictor/src/lib.rs:66-68 | the schema has 13 distinct feature names and the target medv is not one of them |
| Features.SplitFeaturesAndTargets | house-price-predictor/src/lib.rs:64-74 | succeeds iff all 13 features and medv are columns; features has exactly the declared columns in declared order, target exactly [medv], both the input's height and the input's columns of those names; otherwise ColumnNotFound names an absent declared column (a feature if any feature is absent), and no pair is returned |
| Dense.RowMajor | house-price-predictor/src/lib.rs:83-91 | the C-order buffer has length rows*cols |
| Dense.RowMajorLayout | house-price-predictor/src/lib.rs:83-91 | element i*cols + j of the buffer is the value at row i, column j |
| Dense.Chunks | house-price-predictor/src/lib.rs:93-96 | reading a buffer of n*w elements as n rows gives n rows of w elements |
| Dense.RowMajorRoundTrip | house-price-predictor/src/lib.rs:83-96 | reading the buffer back as height rows of width elements gives exactly the frame's rows |
| Dense.SingleColumnRowMajor | house-price-predictor/src/lib.rs:84-94 | the buffer of a one-column frame is that column's values |
| Dense.LabelledDense | house-price-predictor/src/lib.rs:83-97 | the matrix has the frame's height as row count, a buffer of rows*width that reads back as the frame's rows, and rows*width labels, which are the target column when it is a single column |
| Pipeline.LabelsAligned | house-price-predictor/src/lib.rs:83-97 | features and target projected from one frame give a matrix with 13 values and exactly one label per row, the labels being that frame's medv column |
| Pipeline.PrepareTraining | house-price-predictor/src/main.rs:17-23 | the run's data path succeeds iff split_idx <= height and all declared columns exist; then the test matrix has split_idx rows, the row counts sum to the height, and each matrix has one label per row and 13 values per row; otherwise SliceOutOfRange or ColumnNotFound naming an absent declared column |

## Left out

- `download_csv_file` (lib.rs:11-25): an HTTP GET plus a file write. This is I/O.
- `load_csv_file` (lib.rs:28-36): CSV parsing belongs to the dataframe library, and the rest is console output.
- The random generator (`thread_rng`, lib.rs:41): it is nondeterministic, so it is replaced by the `draws` parameter.
- Training, `predict` and `save` (lib.rs:104-120): foreign library calls over floating point.
- `push_model_to_s3` (lib.rs:124-156): an asynchronous cloud-storage client plus a file read.
- The `f32` cast of values: elements are an abstract type `T`, so the cast from column types to `f32` and its failure for non-numeric columns are not modelled.
- `SplitIndex`: computed over the rationals. It does not model the rounding of the `f64` product `height * (1.0 - test_size_perc)`, and it does not model saturation at `usize::MAX`.
- `set_labels` mutates a library-owned `DMatrix`. It is modelled as building a value, and the library's own label-count check is not modelled.
- Dense.LabelledDense: `DMatrix::from_dense(...)?` (lib.rs:93, lib.rs:96) is a foreign call that can return an error, for instance for a 0-row buffer; the model treats it as always succeeding, because its error conditions are the training library's and are not visible here.
- Pipeline.PrepareTraining: for the same reason its "succeeds iff" covers only the split and the column projections; the error returns of `from_dense` and `set_labels` on the data path are not modelled.
- `println!` calls (lib.rs:58-59 and elsewhere): console output only.
- `main.rs` beyond the data path (lib.rs is driven from main.rs:13-27): the tokio runtime, the download and the upload.
