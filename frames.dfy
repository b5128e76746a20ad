/**
 * A pandas DataFrame as the pipeline uses it: named columns of equal
 * length, read column by column. Row positions are the default
 * `RangeIndex` that `read_csv` gives, so a row's label is its position.
 */
module Frames {
  import opened Wrappers

  datatype Frame<V> = Frame(names: seq<string>, cols: seq<seq<V>>, height: nat)

  /** Every column has a name and `height` cells. */
  predicate Rect<V>(f: Frame<V>)
  {
    |f.cols| == |f.names| && forall j :: 0 <= j < |f.cols| ==> |f.cols[j]| == f.height
  }

  /** Position of the column called `n` (the first, should a name repeat). */
  function Find(names: seq<string>, n: string): (r: Option<nat>)
    ensures r.None? <==> n !in names
    ensures r.Some? ==> r.value < |names| && names[r.value] == n && n !in names[..r.value]
  {
    if names == [] then None
    else if names[0] == n then Some(0)
    else match Find(names[1..], n)
      case None => None
      case Some(k) => Some(k + 1)
  }

  /** `df[n]`: the cells of column `n`, or `None` where pandas raises `KeyError`. */
  function Column<V>(f: Frame<V>, n: string): (r: Option<seq<V>>)
    requires Rect(f)
    ensures r.Some? <==> n in f.names
    ensures r.Some? ==> |r.value| == f.height
  {
    match Find(f.names, n)
    case None => None
    case Some(k) => Some(f.cols[k])
  }

  /** `df.iloc[i].values`: row `i` across all columns, in column order. */
  function Row<V>(f: Frame<V>, i: nat): (r: seq<V>)
    requires Rect(f) && i < f.height
    ensures |r| == |f.names|
    ensures forall j :: 0 <= j < |r| ==> r[j] == f.cols[j][i]
  {
    seq(|f.cols|, j requires 0 <= j < |f.cols| => f.cols[j][i])
  }

  /** `df.values`: the rows in order. */
  function Rows<V>(f: Frame<V>): (r: seq<seq<V>>)
    requires Rect(f)
    ensures |r| == f.height
    ensures forall i :: 0 <= i < f.height ==> r[i] == Row(f, i)
  {
    seq(f.height, i requires 0 <= i < f.height => Row(f, i))
  }

  /** The column that `Align` puts under the name `n`. */
  function AlignedColumn<V>(f: Frame<V>, n: string, fill: V): seq<V>
    requires Rect(f)
  {
    match Column(f, n)
    case Some(c) => c
    case None => seq(f.height, _ => fill)
  }

  /** Specification of `Align`: exactly the `targets` columns, in that order. */
  function Aligned<V>(f: Frame<V>, targets: seq<string>, fill: V): Frame<V>
    requires Rect(f)
  {
    Frame(targets, seq(|targets|, j requires 0 <= j < |targets| => AlignedColumn(f, targets[j], fill)), f.height)
  }

  /**
   * Column alignment: every name of `targets` that is missing is added
   * filled with `fill` (`df[col] = 0`), then the frame is cut down to
   * `targets` in that order (`df = df[targets]`); columns not in `targets`
   * are dropped.
   */
  method Align<V>(f: Frame<V>, targets: seq<string>, fill: V) returns (g: Frame<V>)
    requires Rect(f)
    ensures g == Aligned(f, targets, fill)
  {
    var cols: seq<seq<V>> := [];
    var j := 0;
    while j < |targets|
      invariant 0 <= j <= |targets|
      invariant |cols| == j
      invariant forall k :: 0 <= k < j ==> cols[k] == AlignedColumn(f, targets[k], fill)
    {
      var k := Find(f.names, targets[j]);
      if k.Some? {
        cols := cols + [f.cols[k.value]];
      } else {
        cols := cols + [seq(f.height, _ => fill)];
      }
      j := j + 1;
    }
    g := Frame(targets, cols, f.height);
  }

  /**
   * What alignment promises: the columns are exactly `targets` in order,
   * the rows keep their number, a column present in `f` keeps its cells
   * and a missing one holds `fill` in every row.
   */
  lemma AlignedShape<V>(f: Frame<V>, targets: seq<string>, fill: V)
    requires Rect(f)
    ensures var g := Aligned(f, targets, fill);
      && Rect(g) && g.names == targets && g.height == f.height
      && (forall j :: 0 <= j < |targets| && targets[j] in f.names ==>
            Column(f, targets[j]) == Some(g.cols[j]))
      && (forall j, i :: 0 <= j < |targets| && targets[j] !in f.names && 0 <= i < f.height ==>
            g.cols[j][i] == fill)
  {
  }

  /** Aligning an already aligned frame to the same names changes nothing. */
  lemma AlignIdempotent<V>(f: Frame<V>, targets: seq<string>, fill: V)
    requires Rect(f)
    ensures Rect(Aligned(f, targets, fill))
    ensures Aligned(Aligned(f, targets, fill), targets, fill) == Aligned(f, targets, fill)
  {
    var g := Aligned(f, targets, fill);
    assert Rect(g);
    var h := Aligned(g, targets, fill);
    forall j | 0 <= j < |targets| ensures h.cols[j] == g.cols[j] {
      var k := Find(targets, targets[j]).value;
      assert targets[k] == targets[j];
      assert h.cols[j] == g.cols[k];
    }
  }
}
