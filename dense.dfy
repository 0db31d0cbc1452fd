/**
 * The matrix adapter of `train_xgboost_model`: `to_ndarray(IndexOrder::C)`
 * followed by `as_slice` turns a frame into one contiguous row-major buffer,
 * and `DMatrix::from_dense(slice, height)` reads it back as `height` rows.
 * Elements are kept abstract; the cast to `f32` is not modelled.
 */
module Dense {
  import opened Frame

  /** Position of row `i`, column `j` in a row-major buffer of rows `w` wide. */
  function Offset(i: nat, j: nat, w: nat): nat {
    i * w + j
  }

  /** The first `n` rows, one after the other. */
  function RowMajorPrefix<T>(df: DataFrame<T>, n: nat): (buf: seq<T>)
    requires df.Valid() && n <= df.Height()
    ensures |buf| == n * df.Width()
  {
    if n == 0 then [] else RowMajorPrefix(df, n - 1) + df.Row(n - 1)
  }

  /** The C-order buffer of the whole frame. */
  function RowMajor<T>(df: DataFrame<T>): (buf: seq<T>)
    requires df.Valid()
    ensures |buf| == df.Height() * df.Width()
  {
    RowMajorPrefix(df, df.Height())
  }

  lemma RowEnd(i: nat, n: nat, w: nat)
    requires i < n
    ensures 0 <= i * w <= (i + 1) * w <= n * w
    ensures (i + 1) * w == i * w + w
  {
    assert n * w == (n - (i + 1)) * w + (i + 1) * w;
  }

  lemma RowOffsetBound(i: nat, n: nat, w: nat, j: nat)
    requires i < n && j < w
    ensures i * w + j < n * w
  {
    assert (i + 1) * w == i * w + w;
    RowEnd(i, n, w);
  }

  lemma {:induction false} RowMajorPrefixAt<T>(df: DataFrame<T>, n: nat, i: nat, j: nat)
    requires df.Valid() && i < n <= df.Height() && j < df.Width()
    ensures i * df.Width() + j < |RowMajorPrefix(df, n)|
    ensures RowMajorPrefix(df, n)[i * df.Width() + j] == df.columns[j].values[i]
  {
    var w := df.Width();
    RowOffsetBound(i, n, w, j);
    if i < n - 1 {
      RowMajorPrefixAt(df, n - 1, i, j);
      RowOffsetBound(i, n - 1, w, j);
    } else {
      assert i * w + j == (n - 1) * w + j;
    }
  }

  /** Element `i * width + j` of the buffer is the value at row `i`, column `j`. */
  lemma RowMajorLayout<T>(df: DataFrame<T>)
    requires df.Valid()
    ensures forall i, j :: 0 <= i < df.Height() && 0 <= j < df.Width() ==>
      Offset(i, j, df.Width()) < |RowMajor(df)| && RowMajor(df)[Offset(i, j, df.Width())] == df.columns[j].values[i]
  {
    forall i, j | 0 <= i < df.Height() && 0 <= j < df.Width()
      ensures Offset(i, j, df.Width()) < |RowMajor(df)| && RowMajor(df)[Offset(i, j, df.Width())] == df.columns[j].values[i]
    {
      RowMajorPrefixAt(df, df.Height(), i, j);
    }
  }

  /** The rows of the frame, top to bottom. */
  function Rows<T>(df: DataFrame<T>): seq<seq<T>>
    requires df.Valid()
  {
    seq(df.Height(), i requires 0 <= i < df.Height() => df.Row(i))
  }

  /** How a dense consumer reads a buffer of `n * w` elements: `n` rows of `w`. */
  function Chunks<T>(buf: seq<T>, w: nat, n: nat): (rows: seq<seq<T>>)
    requires |buf| == n * w
    ensures |rows| == n
    ensures forall i :: 0 <= i < n ==> |rows[i]| == w
  {
    seq(n, i requires 0 <= i < n => Chunk(buf, w, n, i))
  }

  /** Row `i` of a buffer read as rows of `w`. */
  function Chunk<T>(buf: seq<T>, w: nat, n: nat, i: nat): (c: seq<T>)
    requires |buf| == n * w && i < n
    ensures |c| == w
  {
    RowEnd(i, n, w);
    buf[i * w..(i + 1) * w]
  }

  /**
   * Reading the row-major buffer back as `height` rows of `width` gives
   * exactly the frame's rows: nothing is padded, strided or reordered.
   */
  lemma RowMajorRoundTrip<T>(df: DataFrame<T>)
    requires df.Valid()
    ensures Chunks(RowMajor(df), df.Width(), df.Height()) == Rows(df)
  {
    forall i | 0 <= i < df.Height()
      ensures Chunks(RowMajor(df), df.Width(), df.Height())[i] == df.Row(i)
    {
      ChunkIsRow(df, i);
    }
  }

  lemma ChunkIsRow<T>(df: DataFrame<T>, i: nat)
    requires df.Valid() && i < df.Height()
    ensures Chunks(RowMajor(df), df.Width(), df.Height())[i] == df.Row(i)
  {
    var w, h := df.Width(), df.Height();
    var buf := RowMajor(df);
    RowEnd(i, h, w);
    var chunk := buf[i * w..(i + 1) * w];
    assert Chunks(buf, w, h)[i] == Chunk(buf, w, h, i) == chunk;
    forall j | 0 <= j < w ensures chunk[j] == df.Row(i)[j] {
      RowMajorPrefixAt(df, h, i, j);
    }
  }

  lemma {:induction false} SingleColumnPrefix<T>(df: DataFrame<T>, n: nat)
    requires df.Valid() && df.Width() == 1 && n <= df.Height()
    ensures RowMajorPrefix(df, n) == df.columns[0].values[..n]
  {
    if n > 0 {
      SingleColumnPrefix(df, n - 1);
      assert df.columns[0].values[..n] == df.columns[0].values[..n - 1] + [df.columns[0].values[n - 1]];
    }
  }

  /** The buffer of a one-column frame is that column's values. */
  lemma SingleColumnRowMajor<T>(df: DataFrame<T>)
    requires df.Valid() && df.Width() == 1
    ensures RowMajor(df) == df.columns[0].values
  {
    SingleColumnPrefix(df, df.Height());
  }

  /** A `DMatrix` built by `from_dense(data, rows)` and given `labels` by `set_labels`. */
  datatype LabelledMatrix<T> = LabelledMatrix(data: seq<T>, rows: nat, labels: seq<T>)

  /**
   * `from_dense(x.to_ndarray(C).as_slice(), x.height())` then
   * `set_labels(y.to_ndarray(C).as_slice())`.
   */
  function LabelledDense<T>(x: DataFrame<T>, y: DataFrame<T>): (m: LabelledMatrix<T>)
    requires x.Valid() && y.Valid()
    ensures m.rows == x.Height()
    ensures |m.data| == m.rows * x.Width() && Chunks(m.data, x.Width(), m.rows) == Rows(x)
    ensures |m.labels| == y.Height() * y.Width()
    ensures y.Width() == 1 ==> m.labels == y.columns[0].values
  {
    RowMajorRoundTrip(x);
    assert y.Width() == 1 ==> RowMajor(y) == y.columns[0].values by {
      if y.Width() == 1 { SingleColumnRowMajor(y); }
    }
    LabelledMatrix(RowMajor(x), x.Height(), RowMajor(y))
  }
}
