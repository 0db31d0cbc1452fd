/**
 * `split_features_and_targets`: project a frame onto the thirteen declared
 * feature columns, in their declared order, and onto the single target `medv`.
 */
module Features {
  import opened Wrappers
  import opened Sequences
  import opened Frame

  const FeatureNames: seq<Name> :=
    ["crim", "zn", "indus", "chas", "nox", "rm", "age", "dis", "rad", "tax", "ptratio", "b", "lstat"]

  const TargetNames: seq<Name> := ["medv"]

  /** The schema names no column twice, and the target is not a feature. */
  lemma SchemaWellFormed()
    ensures |FeatureNames| == 13 && Distinct(FeatureNames) && Distinct(TargetNames)
    ensures "medv" !in FeatureNames
  {
  }

  /** Every declared feature name is a column of `df`. */
  predicate HasFeatures<T>(df: DataFrame<T>) {
    forall k :: 0 <= k < |FeatureNames| ==> FeatureNames[k] in df.Names()
  }

  function SplitFeaturesAndTargets<T>(df: DataFrame<T>): (r: Result<(DataFrame<T>, DataFrame<T>)>)
    requires df.Valid()
    ensures r.Ok? <==> HasFeatures(df) && "medv" in df.Names()
    ensures r.Ok? ==> var (x, y) := r.value;
      && x.Valid() && y.Valid()
      && x.Names() == FeatureNames && y.Names() == TargetNames
      && x.Height() == df.Height() && y.Height() == df.Height()
    ensures r.Ok? ==> var (x, y) := r.value;
      && (forall k :: 0 <= k < |FeatureNames| ==>
            FeatureNames[k] in df.Names() && x.columns[k] == df.columns[IndexOf(df.Names(), FeatureNames[k])])
      && y.columns[0] == df.columns[IndexOf(df.Names(), "medv")]
    ensures r.Err? ==> r.error.ColumnNotFound? && r.error.name !in df.Names()
    ensures r.Err? ==> if HasFeatures(df) then r.error.name == "medv" else r.error.name in FeatureNames
  {
    SchemaWellFormed();
    var features :- Select(df, FeatureNames);
    var target :- Select(df, TargetNames);
    Ok((features, target))
  }
}
