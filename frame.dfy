/**
 * A columnar data frame: an ordered sequence of named columns of equal length.
 * Only the operations the pipeline uses are modelled: row selection by index
 * (`take`) and column projection by name (`select`).
 */
module Frame {
  import opened Wrappers
  import opened Sequences

  type Name = string

  datatype Column<T> = Column(name: Name, values: seq<T>)

  datatype DataFrame<T> = DataFrame(columns: seq<Column<T>>) {

    function Width(): nat { |columns| }

    /** The height is the length of the first column; a frame without columns has none. */
    function Height(): nat { if columns == [] then 0 else |columns[0].values| }

    function Names(): seq<Name> {
      seq(|columns|, j requires 0 <= j < |columns| => columns[j].name)
    }

    /** Every column is as long as the frame is high, and no name is used twice. */
    predicate Valid() {
      && (forall j :: 0 <= j < |columns| ==> |columns[j].values| == Height())
      && Distinct(Names())
    }

    /** Row `i`, read across the columns in their declared order. */
    function Row(i: nat): seq<T>
      requires Valid() && i < Height()
    {
      seq(|columns|, j requires 0 <= j < |columns| => columns[j].values[i])
    }
  }

  /** Position of the first occurrence of `x` in `s`. */
  function IndexOf<X(==)>(s: seq<X>, x: X): (k: nat)
    requires x in s
    ensures k < |s| && s[k] == x && x !in s[..k]
  {
    if s[0] == x then 0
    else
      var k := 1 + IndexOf(s[1..], x);
      assert s[..k] == [s[0]] + s[1..][..k - 1];
      k
  }

  /** The column called `name`, or `ColumnNotFound`. */
  function Lookup<T>(df: DataFrame<T>, name: Name): (r: Result<Column<T>>)
    ensures r.Ok? <==> name in df.Names()
    ensures r.Ok? ==> r.value.name == name && r.value in df.columns
    ensures r.Err? ==> r.error == ColumnNotFound(name)
  {
    if name in df.Names() then Ok(df.columns[IndexOf(df.Names(), name)])
    else Err(ColumnNotFound(name))
  }

  /** The rows `idx[0]`, `idx[1]`, ... of `df`, in that order, for in-range indices. */
  function TakeRows<T>(df: DataFrame<T>, idx: seq<nat>): (r: DataFrame<T>)
    requires df.Valid()
    requires forall k :: 0 <= k < |idx| ==> idx[k] < df.Height()
    ensures r.Valid() && r.Names() == df.Names() && r.Height() == |idx|
    ensures forall k :: 0 <= k < |idx| ==> r.Row(k) == df.Row(idx[k])
  {
    var r := DataFrame(seq(|df.columns|, j requires 0 <= j < |df.columns| =>
      Column(df.columns[j].name,
             seq(|idx|, k requires 0 <= k < |idx| => df.columns[j].values[idx[k]]))));
    assert r.Names() == df.Names();
    assert df.columns == [] ==> idx == [] by {
      if idx != [] { assert idx[0] < df.Height(); }
    }
    r
  }

  /** `take`: row selection that fails when an index is not below the height. */
  function Take<T>(df: DataFrame<T>, idx: seq<nat>): (r: Result<DataFrame<T>>)
    requires df.Valid()
    ensures r.Ok? <==> forall k :: 0 <= k < |idx| ==> idx[k] < df.Height()
    ensures r.Err? ==> r.error == OutOfBounds
    ensures r.Ok? ==> r.value.Valid() && r.value.Names() == df.Names() && r.value.Height() == |idx|
    ensures r.Ok? ==> forall k :: 0 <= k < |idx| ==> r.value.Row(k) == df.Row(idx[k])
  {
    if forall k :: 0 <= k < |idx| ==> idx[k] < df.Height() then Ok(TakeRows(df, idx))
    else Err(OutOfBounds)
  }

  /**
   * The first name of `names` already seen, scanning left to right with `seen`
   * holding the names passed so far.
   */
  function FirstRepeat(names: seq<Name>, seen: set<Name>): (r: Option<Name>)
    ensures r.None? <==> Distinct(names) && forall k :: 0 <= k < |names| ==> names[k] !in seen
    ensures r.Some? ==> r.value in names && (r.value in seen || !Distinct(names))
  {
    if names == [] then None
    else if names[0] in seen then Some(names[0])
    else
      var r := FirstRepeat(names[1..], seen + {names[0]});
      if r.None? then
        assert forall k :: 1 <= k < |names| ==> names[k] != names[0] && names[k] == names[1..][k - 1];
        None
      else
        if r.value == names[0] then
          var k := IndexOf(names[1..], r.value);
          assert names[0] == names[k + 1];
          r
        else r
  }

  /** The columns called `names`, in that order; fails on the first name that is absent. */
  function SelectColumns<T>(df: DataFrame<T>, names: seq<Name>): (r: Result<seq<Column<T>>>)
    ensures r.Ok? <==> forall k :: 0 <= k < |names| ==> names[k] in df.Names()
    ensures r.Ok? ==> |r.value| == |names|
    ensures r.Ok? ==> forall k :: 0 <= k < |names| ==>
      names[k] in df.Names() && r.value[k] == df.columns[IndexOf(df.Names(), names[k])]
    ensures r.Err? ==> r.error.ColumnNotFound? && r.error.name in names && r.error.name !in df.Names()
  {
    if names == [] then Ok([])
    else
      var c :- Lookup(df, names[0]);
      var rest :- SelectColumns(df, names[1..]);
      assert forall k :: 1 <= k < |names| ==> names[k] == names[1..][k - 1];
      Ok([c] + rest)
  }

  /**
   * `select`: a new frame with exactly the columns called `names`, in the order of
   * `names`. A name listed twice gives `Duplicate`, an absent one `ColumnNotFound`.
   */
  function Select<T>(df: DataFrame<T>, names: seq<Name>): (r: Result<DataFrame<T>>)
    requires df.Valid()
    ensures r.Ok? <==> Distinct(names) && forall k :: 0 <= k < |names| ==> names[k] in df.Names()
    ensures r.Ok? ==> r.value.Valid() && r.value.Names() == names
    ensures r.Ok? && names != [] ==> r.value.Height() == df.Height()
    ensures r.Ok? ==> forall k :: 0 <= k < |names| ==>
      names[k] in df.Names() && r.value.columns[k] == df.columns[IndexOf(df.Names(), names[k])]
    ensures r.Err? ==> (r.error.Duplicate? || r.error.ColumnNotFound?) && r.error.name in names
    ensures r.Err? && r.error.Duplicate? ==> !Distinct(names)
    ensures r.Err? && r.error.ColumnNotFound? ==> r.error.name !in df.Names()
  {
    match FirstRepeat(names, {})
    case Some(n) => Err(Duplicate(n))
    case None =>
      var cols :- SelectColumns(df, names);
      var r := DataFrame(cols);
      assert r.Names() == names;
      Ok(r)
  }
}
