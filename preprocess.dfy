/**
 * Cleaning and label encoding of a raw split (`preprocess_clean.py`): the
 * bookkeeping columns are dropped, every categorical column is replaced by
 * label codes (fitted on this split, or taken from the training split's
 * encoders with -1 for a value never seen), every column must then be
 * numeric, and the result is optionally aligned to a given column list.
 */
module Preprocess {
  import opened Wrappers
  import opened Frames
  import opened Order

  /** A cell as `read_csv` produces it: a number or a piece of text. */
  datatype Cell = Num(n: real) | Text(s: string)

  /** `cols_to_remove`. */
  const Removed: seq<string> := ["timestamp", "anomaly_score", "target", "anomaly_bin"]

  /** `categorical_cols`. */
  const Categorical: seq<string> :=
    ["masked_user", "source_ip", "destination_ip", "action", "resource", "protocol",
     "access_result", "location", "device_type", "day_of_week", "month",
     "source_subnet", "dest_subnet", "resource_category"]

  datatype PrepError =
    | MissingEncoder(column: string)   // `label_encoders[col]` raises `KeyError`
    | NotNumeric(column: string)       // `pd.to_numeric(..., errors='raise')` raises

  // ------------------------------------------------------------- encoders

  /** A fitted `LabelEncoder` is its `classes_`: the distinct fitted values in ascending order. */
  type Classes = seq<string>

  /** `LabelEncoder().fit(values)`. */
  function Fit(values: seq<string>): (classes: Classes)
    ensures forall v :: v in classes <==> v in values
    ensures Ascending(StrLess, classes)
  {
    StrLessIsOrder();
    Distinct(StrLess, values)
  }

  /** The code of one value: its position among the classes, or -1 when it was never fitted. */
  function Code(classes: Classes, x: string): int
  {
    if x in classes then IndexOf(classes, x) else -1
  }

  /** `safe_label_encode(series, le)`, cell by cell. */
  function SafeLabelEncode(values: seq<string>, classes: Classes): (codes: seq<int>)
    ensures |codes| == |values|
    ensures forall i :: 0 <= i < |values| ==> codes[i] == Code(classes, values[i])
  {
    seq(|values|, i requires 0 <= i < |values| => Code(classes, values[i]))
  }

  /**
   * What a code means: -1 exactly for an unseen value, otherwise a valid
   * class position that decodes back to the value.
   */
  lemma SafeLabelEncodeMeaning(values: seq<string>, classes: Classes, i: nat)
    requires i < |values|
    ensures var c := SafeLabelEncode(values, classes)[i];
      && -1 <= c < |classes|
      && (c == -1 <==> values[i] !in classes)
      && (c >= 0 ==> classes[c] == values[i])
  {
  }

  /**
   * `fit_transform`: every value is seen, so codes lie in `[0, #distinct)`;
   * two values share a code exactly when they are equal, and the codes
   * follow the string order of the values.
   */
  lemma FitTransformCodes(values: seq<string>, i: nat, j: nat)
    requires i < |values| && j < |values|
    ensures var codes := SafeLabelEncode(values, Fit(values));
      && 0 <= codes[i] < |Fit(values)|
      && (codes[i] == codes[j] <==> values[i] == values[j])
      && (StrLess(values[i], values[j]) <==> codes[i] < codes[j])
  {
    var classes := Fit(values);
    StrLessIsOrder();
    IndexOfAscending(StrLess, classes, values[i], values[j]);
    IndexOfAscending(StrLess, classes, values[j], values[i]);
    StrLessTotal(values[i], values[j]);
  }

  // ------------------------------------------------------------- cleaning

  /** `df.astype(str)` of a column: text stays, numbers are written out by `show` (Python's `str`). */
  function Texts(cells: seq<Cell>, show: real -> string): (texts: seq<string>)
    ensures |texts| == |cells|
  {
    seq(|cells|, i requires 0 <= i < |cells| => match cells[i] case Text(s) => s case Num(r) => show(r))
  }

  /** A column of codes. */
  function CodeCells(codes: seq<int>): (cells: seq<Cell>)
    ensures |cells| == |codes| && forall i :: 0 <= i < |codes| ==> cells[i] == Num(codes[i] as real)
  {
    seq(|codes|, i requires 0 <= i < |codes| => Num(codes[i] as real))
  }

  /** The positions below `n` of the columns `drop` keeps: those not named in `Removed`, in ascending order. */
  function KeptIndices(names: seq<string>, n: nat): (idx: seq<nat>)
    requires n <= |names|
    ensures forall i :: 0 <= i < |idx| ==> idx[i] < n && names[idx[i]] !in Removed
    ensures forall i, j :: 0 <= i < j < |idx| ==> idx[i] < idx[j]
    ensures forall k :: 0 <= k < n && names[k] !in Removed ==> k in idx
  {
    if n == 0 then []
    else KeptIndices(names, n - 1) + (if names[n - 1] in Removed then [] else [n - 1])
  }

  /**
   * `df.drop(columns=[c for c in cols_to_remove if c in df.columns])`: the
   * columns not named in `Removed`, each with its cells, in their order.
   */
  function Drop(f: Frame<Cell>): (g: Frame<Cell>)
    requires Rect(f)
    ensures Rect(g) && g.height == f.height
    ensures var idx := KeptIndices(f.names, |f.names|);
      && |g.names| == |idx|
      && forall i :: 0 <= i < |idx| ==> g.names[i] == f.names[idx[i]] && g.cols[i] == f.cols[idx[i]]
    ensures forall c :: c in g.names <==> c in f.names && c !in Removed
  {
    var idx := KeptIndices(f.names, |f.names|);
    var g := Frame(seq(|idx|, i requires 0 <= i < |idx| => f.names[idx[i]]),
                   seq(|idx|, i requires 0 <= i < |idx| => f.cols[idx[i]]), f.height);
    assert forall c :: c in f.names && c !in Removed ==> c in g.names by {
      forall c | c in f.names && c !in Removed
        ensures c in g.names
      {
        var k :| 0 <= k < |f.names| && f.names[k] == c;
        assert k in idx;
        var i :| 0 <= i < |idx| && idx[i] == k;
        assert g.names[i] == c;
      }
    }
    g
  }

  /** The frame with column `k` replaced by `col`. */
  function SetColumn(f: Frame<Cell>, k: nat, col: seq<Cell>): (g: Frame<Cell>)
    requires Rect(f) && k < |f.cols| && |col| == f.height
    ensures Rect(g) && g.names == f.names && g.height == f.height
  {
    Frame(f.names, f.cols[k := col], f.height)
  }

  /** The state the categorical loop carries: the frame and the encoders so far. */
  datatype Encoding = Encoding(frame: Frame<Cell>, encoders: map<string, Classes>)

  /** One turn of the categorical loop, for column `col`. */
  function EncodeStep(e: Encoding, col: string, fit: bool, show: real -> string): (r: Result<Encoding, PrepError>)
    requires Rect(e.frame)
    ensures r.Ok? ==> Rect(r.value.frame) && r.value.frame.names == e.frame.names && r.value.frame.height == e.frame.height
  {
    match Find(e.frame.names, col)
    case None => Ok(e)
    case Some(k) =>
      var texts := Texts(e.frame.cols[k], show);
      if fit then
        var classes := Fit(texts);
        Ok(Encoding(SetColumn(e.frame, k, CodeCells(SafeLabelEncode(texts, classes))), e.encoders[col := classes]))
      else if col !in e.encoders then Err(MissingEncoder(col))
      else Ok(Encoding(SetColumn(e.frame, k, CodeCells(SafeLabelEncode(texts, e.encoders[col]))), e.encoders))
  }

  /** The categorical loop over the first `n` names of `Categorical`. */
  function EncodeAll(e: Encoding, n: nat, fit: bool, show: real -> string): (r: Result<Encoding, PrepError>)
    requires Rect(e.frame) && n <= |Categorical|
    ensures r.Ok? ==> Rect(r.value.frame) && r.value.frame.names == e.frame.names && r.value.frame.height == e.frame.height
  {
    if n == 0 then Ok(e)
    else match EncodeAll(e, n - 1, fit, show)
      case Err(err) => Err(err)
      case Ok(e1) => EncodeStep(e1, Categorical[n - 1], fit, show)
  }

  /** `pd.to_numeric(column, errors='raise')`. */
  function NumericColumn(cells: seq<Cell>, parse: string -> Option<real>): (r: Option<seq<real>>)
    ensures r.Some? ==> |r.value| == |cells|
    ensures r.Some? <==> forall i :: 0 <= i < |cells| ==> cells[i].Num? || parse(cells[i].s).Some?
    ensures r.Some? ==> forall i :: 0 <= i < |cells| && cells[i].Num? ==> r.value[i] == cells[i].n
  {
    if cells == [] then Some([])
    else
      var n := |cells| - 1;
      var v := match cells[n] case Num(x) => Some(x) case Text(s) => parse(s);
      match NumericColumn(cells[..n], parse)
      case None => None
      case Some(prefix) =>
        if v.None? then None else
          assert forall i :: 0 <= i < n ==> cells[..n][i] == cells[i];
          Some(prefix + [v.value])
  }

  /** The numeric pass over the columns `0..n`. */
  function NumericColumns(f: Frame<Cell>, n: nat, parse: string -> Option<real>): (r: Result<seq<seq<real>>, PrepError>)
    requires Rect(f) && n <= |f.cols|
    ensures r.Ok? ==> |r.value| == n && forall j :: 0 <= j < n ==> |r.value[j]| == f.height
    ensures r.Err? ==> r.error.NotNumeric?
  {
    if n == 0 then Ok([])
    else match NumericColumns(f, n - 1, parse)
      case Err(e) => Err(e)
      case Ok(prefix) =>
        match NumericColumn(f.cols[n - 1], parse)
        case None => Err(NotNumeric(f.names[n - 1]))
        case Some(c) => Ok(prefix + [c])
  }

  /** Specification of `clean_and_encode`: the cleaned frame and the encoders, or the exception. */
  function Cleaned(f: Frame<Cell>, encoders: map<string, Classes>, fit: bool, align: Option<seq<string>>,
                   show: real -> string, parse: string -> Option<real>): Result<(Frame<real>, map<string, Classes>), PrepError>
    requires Rect(f)
  {
    var dropped := Drop(f);
    match EncodeAll(Encoding(dropped, encoders), |Categorical|, fit, show)
    case Err(e) => Err(e)
    case Ok(enc) =>
      match NumericColumns(enc.frame, |enc.frame.cols|, parse)
      case Err(e) => Err(e)
      case Ok(cols) =>
        var numeric := Frame(enc.frame.names, cols, enc.frame.height);
        var out := match align case None => numeric case Some(names) => Aligned(numeric, names, 0.0);
        Ok((out, enc.encoders))
  }

  /** The categorical loop of `clean_and_encode`. */
  method EncodeCategorical(f: Frame<Cell>, encoders0: map<string, Classes>, fit: bool, show: real -> string)
    returns (r: Result<Encoding, PrepError>)
    requires Rect(f)
    ensures r == EncodeAll(Encoding(f, encoders0), |Categorical|, fit, show)
  {
    var df := f;
    var encoders := encoders0;
    for n := 0 to |Categorical|
      invariant EncodeAll(Encoding(f, encoders0), n, fit, show) == Ok(Encoding(df, encoders))
      invariant Rect(df) && df.names == f.names && df.height == f.height
    {
      var col := Categorical[n];
      var k := Find(df.names, col);
      if k.Some? {
        var texts := Texts(df.cols[k.value], show);
        if fit {
          var classes := Fit(texts);
          df := SetColumn(df, k.value, CodeCells(SafeLabelEncode(texts, classes)));
          encoders := encoders[col := classes];
        } else {
          if col !in encoders {
            EncodeErrPersists(Encoding(f, encoders0), n + 1, |Categorical|, fit, show, MissingEncoder(col));
            return Err(MissingEncoder(col));
          }
          df := SetColumn(df, k.value, CodeCells(SafeLabelEncode(texts, encoders[col])));
        }
      }
    }
    r := Ok(Encoding(df, encoders));
  }

  lemma {:induction false} EncodeErrPersists(e: Encoding, n: nat, m: nat, fit: bool, show: real -> string, err: PrepError)
    requires Rect(e.frame) && n <= m <= |Categorical|
    requires EncodeAll(e, n, fit, show) == Err(err)
    ensures EncodeAll(e, m, fit, show) == Err(err)
    decreases m
  {
    if m > n {
      EncodeErrPersists(e, n, m - 1, fit, show, err);
    }
  }

  /** The numeric pass of `clean_and_encode`: every column through `pd.to_numeric`. */
  method ToNumeric(f: Frame<Cell>, parse: string -> Option<real>) returns (r: Result<Frame<real>, PrepError>)
    requires Rect(f)
    ensures match NumericColumns(f, |f.cols|, parse)
      case Err(e) => r == Err(e)
      case Ok(cols) => r == Ok(Frame(f.names, cols, f.height))
  {
    var cols: seq<seq<real>> := [];
    for j := 0 to |f.cols|
      invariant NumericColumns(f, j, parse) == Ok(cols)
    {
      var c := NumericColumn(f.cols[j], parse);
      if c.None? {
        NumericErrPersists(f, j + 1, |f.cols|, parse, NotNumeric(f.names[j]));
        return Err(NotNumeric(f.names[j]));
      }
      cols := cols + [c.value];
    }
    r := Ok(Frame(f.names, cols, f.height));
  }

  lemma {:induction false} NumericErrPersists(f: Frame<Cell>, n: nat, m: nat, parse: string -> Option<real>, err: PrepError)
    requires Rect(f) && n <= m <= |f.cols|
    requires NumericColumns(f, n, parse) == Err(err)
    ensures NumericColumns(f, m, parse) == Err(err)
    decreases m
  {
    if m > n {
      NumericErrPersists(f, n, m - 1, parse, err);
    }
  }

  /** `clean_and_encode`: drop, encode, check numeric, align. */
  method CleanAndEncode(f: Frame<Cell>, encoders: map<string, Classes>, fit: bool, align: Option<seq<string>>,
                        show: real -> string, parse: string -> Option<real>)
    returns (r: Result<(Frame<real>, map<string, Classes>), PrepError>)
    requires Rect(f)
    ensures r == Cleaned(f, encoders, fit, align, show, parse)
  {
    var df := Drop(f);
    var enc := EncodeCategorical(df, encoders, fit, show);
    if enc.Err? {
      return Err(enc.error);
    }
    var numeric := ToNumeric(enc.value.frame, parse);
    if numeric.Err? {
      return Err(numeric.error);
    }
    var out := numeric.value;
    if align.Some? {
      out := Align(out, align.value, 0.0);
    }
    r := Ok((out, enc.value.encoders));
  }

  // ----------------------------------------------------------- properties

  /**
   * The cleaned frame keeps the rows; without alignment it has exactly the
   * non-removed columns (their order and cells: `CleanedKeepsOthers`), with
   * alignment exactly the given columns in the given order.
   */
  lemma CleanedColumns(f: Frame<Cell>, encoders: map<string, Classes>, fit: bool, align: Option<seq<string>>,
                       show: real -> string, parse: string -> Option<real>)
    requires Rect(f)
    requires Cleaned(f, encoders, fit, align, show, parse).Ok?
    ensures var out := Cleaned(f, encoders, fit, align, show, parse).value.0;
      && out.height == f.height
      && (align.None? ==> Rect(out) && forall c :: c in out.names <==> c in f.names && c !in Removed)
      && (align.Some? ==> Rect(out) && out.names == align.value)
  {
    var dropped := Drop(f);
    var enc := EncodeAll(Encoding(dropped, encoders), |Categorical|, fit, show).value;
    if align.Some? {
      var cols := NumericColumns(enc.frame, |enc.frame.cols|, parse).value;
      AlignedShape(Frame(enc.frame.names, cols, enc.frame.height), align.value, 0.0);
    }
  }

  /** Without `fit` the loop never changes the encoders. */
  lemma {:induction false} TransformKeepsEncoders(e: Encoding, n: nat, show: real -> string)
    requires Rect(e.frame) && n <= |Categorical|
    requires EncodeAll(e, n, false, show).Ok?
    ensures EncodeAll(e, n, false, show).value.encoders == e.encoders
  {
    if n > 0 {
      TransformKeepsEncoders(e, n - 1, show);
    }
  }

  /** Turns `lo..hi` whose name is not at position `k` leave column `k` alone. */
  lemma {:induction false} OtherTurnsKeep(e: Encoding, lo: nat, hi: nat, fit: bool, show: real -> string, k: nat)
    requires Rect(e.frame) && lo <= hi <= |Categorical| && k < |e.frame.cols|
    requires forall m :: lo <= m < hi ==> Find(e.frame.names, Categorical[m]) != Some(k)
    requires EncodeAll(e, hi, fit, show).Ok?
    ensures EncodeAll(e, lo, fit, show).Ok?
    ensures EncodeAll(e, hi, fit, show).value.frame.cols[k] == EncodeAll(e, lo, fit, show).value.frame.cols[k]
    decreases hi
  {
    if hi > lo {
      OtherTurnsKeep(e, lo, hi - 1, fit, show, k);
    }
  }

  /** A column whose name is not categorical leaves the encoding loop as it entered. */
  lemma EncodeKeepsOthers(e: Encoding, fit: bool, show: real -> string, k: nat)
    requires Rect(e.frame) && k < |e.frame.names|
    requires e.frame.names[k] !in Categorical
    requires EncodeAll(e, |Categorical|, fit, show).Ok?
    ensures EncodeAll(e, |Categorical|, fit, show).value.frame.cols[k] == e.frame.cols[k]
  {
    forall m | 0 <= m < |Categorical|
      ensures Find(e.frame.names, Categorical[m]) != Some(k)
    {
    }
    OtherTurnsKeep(e, 0, |Categorical|, fit, show, k);
  }

  /**
   * With `fit=False`, a categorical column that is present comes out as the
   * safe codes of its text under the supplied encoder (so its codes lie in
   * `[-1, #classes)`, -1 exactly for unseen values), and that encoder exists.
   */
  lemma EncodeTransformCodes(e: Encoding, show: real -> string, j: nat)
    requires Rect(e.frame) && j < |Categorical|
    requires EncodeAll(e, |Categorical|, false, show).Ok?
    requires Categorical[j] in e.frame.names
    ensures Categorical[j] in e.encoders
    ensures var k := Find(e.frame.names, Categorical[j]).value;
      EncodeAll(e, |Categorical|, false, show).value.frame.cols[k]
        == CodeCells(SafeLabelEncode(Texts(e.frame.cols[k], show), e.encoders[Categorical[j]]))
  {
    var k := Find(e.frame.names, Categorical[j]).value;
    forall m | j + 1 <= m < |Categorical|
      ensures Find(e.frame.names, Categorical[m]) != Some(k)
    {
      CategoricalDistinct(j, m);
    }
    OtherTurnsKeep(e, j + 1, |Categorical|, false, show, k);
    forall m | 0 <= m < j
      ensures Find(e.frame.names, Categorical[m]) != Some(k)
    {
      CategoricalDistinct(m, j);
    }
    OtherTurnsKeep(e, 0, j, false, show, k);
    TransformKeepsEncoders(e, j + 1, show);
    TransformKeepsEncoders(e, j, show);
  }

  /** With `fit=True`, every present categorical column gets a fitted encoder. */
  lemma {:induction false} FitStoresEncoders(e: Encoding, n: nat, show: real -> string)
    requires Rect(e.frame) && n <= |Categorical|
    requires EncodeAll(e, n, true, show).Ok?
    ensures forall m :: 0 <= m < n && Categorical[m] in e.frame.names ==>
      Categorical[m] in EncodeAll(e, n, true, show).value.encoders
  {
    if n > 0 {
      FitStoresEncoders(e, n - 1, show);
    }
  }

  /** Fitting turns `lo..hi` leave alone the encoder of a name none of them handles. */
  lemma {:induction false} FitOtherKeys(e: Encoding, lo: nat, hi: nat, show: real -> string, key: string)
    requires Rect(e.frame) && lo <= hi <= |Categorical|
    requires forall m :: lo <= m < hi ==> Categorical[m] != key
    requires EncodeAll(e, hi, true, show).Ok?
    ensures EncodeAll(e, lo, true, show).Ok?
    ensures key in EncodeAll(e, lo, true, show).value.encoders ==>
      && key in EncodeAll(e, hi, true, show).value.encoders
      && EncodeAll(e, hi, true, show).value.encoders[key] == EncodeAll(e, lo, true, show).value.encoders[key]
    decreases hi
  {
    if hi > lo {
      FitOtherKeys(e, lo, hi - 1, show, key);
    }
  }

  /**
   * With `fit=True`, a categorical column that is present comes out as the
   * codes of its text under classes fitted on that text (so in
   * `[0, #distinct)`, see `FitTransformCodes`), and those classes are the
   * encoder stored under its name.
   */
  lemma EncodeFitCodes(e: Encoding, show: real -> string, j: nat)
    requires Rect(e.frame) && j < |Categorical|
    requires EncodeAll(e, |Categorical|, true, show).Ok?
    requires Categorical[j] in e.frame.names
    ensures var k := Find(e.frame.names, Categorical[j]).value;
      var texts := Texts(e.frame.cols[k], show);
      var out := EncodeAll(e, |Categorical|, true, show).value;
      && Categorical[j] in out.encoders
      && out.encoders[Categorical[j]] == Fit(texts)
      && out.frame.cols[k] == CodeCells(SafeLabelEncode(texts, Fit(texts)))
  {
    var k := Find(e.frame.names, Categorical[j]).value;
    forall m | j + 1 <= m < |Categorical|
      ensures Find(e.frame.names, Categorical[m]) != Some(k) && Categorical[m] != Categorical[j]
    {
      CategoricalDistinct(j, m);
    }
    OtherTurnsKeep(e, j + 1, |Categorical|, true, show, k);
    FitOtherKeys(e, j + 1, |Categorical|, show, Categorical[j]);
    forall m | 0 <= m < j
      ensures Find(e.frame.names, Categorical[m]) != Some(k)
    {
      CategoricalDistinct(m, j);
    }
    OtherTurnsKeep(e, 0, j, true, show, k);
  }

  /** Column `j` of the numeric pass is the conversion of column `j`. */
  lemma {:induction false} NumericColumnsAt(f: Frame<Cell>, n: nat, parse: string -> Option<real>, j: nat)
    requires Rect(f) && j < n <= |f.cols|
    requires NumericColumns(f, n, parse).Ok?
    ensures NumericColumn(f.cols[j], parse).Some?
    ensures NumericColumns(f, n, parse).value[j] == NumericColumn(f.cols[j], parse).value
  {
    if j < n - 1 {
      NumericColumnsAt(f, n - 1, parse, j);
    }
  }

  /**
   * Without alignment, a column that is neither removed nor categorical
   * passes through `clean_and_encode` with its name and its cells, only
   * converted to numbers, at its place among the kept columns.
   */
  lemma CleanedKeepsOthers(f: Frame<Cell>, encoders: map<string, Classes>, fit: bool,
                           show: real -> string, parse: string -> Option<real>, k: nat)
    requires Rect(f) && k < |f.names|
    requires f.names[k] !in Removed && f.names[k] !in Categorical
    requires Cleaned(f, encoders, fit, None, show, parse).Ok?
    ensures NumericColumn(f.cols[k], parse).Some?
    ensures var out := Cleaned(f, encoders, fit, None, show, parse).value.0;
      var idx := KeptIndices(f.names, |f.names|);
      exists i :: 0 <= i < |idx| && idx[i] == k && i < |out.names| && i < |out.cols|
        && out.names[i] == f.names[k] && out.cols[i] == NumericColumn(f.cols[k], parse).value
  {
    var dropped := Drop(f);
    var idx := KeptIndices(f.names, |f.names|);
    var i :| 0 <= i < |idx| && idx[i] == k;
    var enc := EncodeAll(Encoding(dropped, encoders), |Categorical|, fit, show).value;
    EncodeKeepsOthers(Encoding(dropped, encoders), fit, show, i);
    NumericColumnsAt(enc.frame, |enc.frame.cols|, parse, i);
    var out := Cleaned(f, encoders, fit, None, show, parse).value.0;
    assert out.names[i] == f.names[k] && out.cols[i] == NumericColumn(f.cols[k], parse).value;
  }

  /** The categorical names are distinct. */
  lemma CategoricalDistinct(i: nat, j: nat)
    requires i < j < |Categorical|
    ensures Categorical[i] != Categorical[j]
  {
  }
}
