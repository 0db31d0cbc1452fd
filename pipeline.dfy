/**
 * The data path of one training run: split the loaded frame, project each side
 * onto features and target, and shape each pair into a labelled dense matrix.
 */
module Pipeline {
  import opened Wrappers
  import opened Frame
  import opened Shuffle
  import opened Split
  import opened Features
  import opened Dense

  /**
   * Features and target projected from the same frame give a matrix with one
   * label per row, the label being that row's `medv` value, and thirteen
   * values per row.
   */
  lemma LabelsAligned<T>(df: DataFrame<T>)
    requires df.Valid() && SplitFeaturesAndTargets(df).Ok?
    ensures var (x, y) := SplitFeaturesAndTargets(df).value;
      var m := LabelledDense(x, y);
      && m.rows == df.Height()
      && |m.data| == m.rows * |FeatureNames|
      && |m.labels| == m.rows
      && m.labels == df.columns[IndexOf(df.Names(), "medv")].values
  {
    var (x, y) := SplitFeaturesAndTargets(df).value;
    SchemaWellFormed();
    assert y.Width() == 1;
  }

  /** `train_test_split`, then `split_features_and_targets` on each side, then the matrices. */
  function PrepareTraining<T>(df: DataFrame<T>, num: int, den: nat, draws: seq<nat>)
    : (r: Result<(LabelledMatrix<T>, LabelledMatrix<T>)>)
    requires df.Valid() && den > 0 && ValidDraws(draws, df.Height())
    ensures r.Ok? <==> SplitIndex(df.Height(), num, den) <= df.Height() && HasFeatures(df) && "medv" in df.Names()
    ensures SplitIndex(df.Height(), num, den) > df.Height() ==> r == Err(SliceOutOfRange)
    ensures SplitIndex(df.Height(), num, den) <= df.Height() && r.Err? ==>
      r.error.ColumnNotFound? && r.error.name !in df.Names() && (r.error.name in FeatureNames || r.error.name == "medv")
    ensures r.Ok? ==> var (train, test) := r.value;
      && test.rows == SplitIndex(df.Height(), num, den)
      && train.rows + test.rows == df.Height()
      && |train.labels| == train.rows && |test.labels| == test.rows
      && |train.data| == train.rows * |FeatureNames| && |test.data| == test.rows * |FeatureNames|
  {
    var split :- SplitFrames(df, num, den, draws);
    var (trainDf, testDf) := split;
    var train :- SplitFeaturesAndTargets(trainDf);
    // Both sides carry the input's column names, so the second projection
    // succeeds whenever the first does.
    var test := SplitFeaturesAndTargets(testDf).value;
    LabelsAligned(trainDf);
    LabelsAligned(testDf);
    Ok((LabelledDense(train.0, train.1), LabelledDense(test.0, test.1)))
  }
}
