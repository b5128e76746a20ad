/**
 * The context graph: one node per event row, and a pair of directed edges
 * between two rows whenever they hold the same value in a context column
 * (`build_graph`); and the per-event extension that appends one node and
 * links it to the rows it is matched with (`add_node_to_graph`).
 */
module ContextGraph {
  import opened Wrappers
  import opened Frames
  import Order

  /** One entry `[src, dst]` of the directed edge list. */
  datatype Edge = Edge(src: nat, dst: nat)

  function Flip(e: Edge): Edge
  {
    Edge(e.dst, e.src)
  }

  /** A torch-geometric `Data`: node feature rows, and the edge list in insertion order. */
  datatype Graph = Graph(x: seq<seq<real>>, edges: seq<Edge>)

  datatype GraphError =
    | MissingColumn(name: string)   // `KeyError` on a context column
    | RowOutOfRange(row: nat)       // `IndexError` from `iloc`
    | NoEdges                       // "No edges created! Check your context columns."

  /** The context columns the streaming and calibration scripts link on. */
  const ContextCols: seq<string> := ["masked_user", "source_ip", "resource"]

  // ---------------------------------------------------------------- grouping

  predicate Increasing(s: seq<nat>)
  {
    forall i, j :: 0 <= i < j < |s| ==> s[i] < s[j]
  }

  /** `df.index[df[col] == v]`: the rows holding `v`, in row order. */
  function Matching(col: seq<real>, v: real): seq<nat>
  {
    if col == [] then []
    else
      var r0 := Matching(col[..|col| - 1], v);
      if col[|col| - 1] == v then r0 + [|col| - 1] else r0
  }

  /** The matching rows are exactly the rows holding `v`, each once, in increasing order. */
  lemma {:induction false} MatchingRows(col: seq<real>, v: real)
    ensures var r := Matching(col, v);
      && (forall i: nat :: i in r <==> i < |col| && col[i] == v)
      && Increasing(r)
      && (forall k :: 0 <= k < |r| ==> r[k] < |col|)
  {
    if col != [] {
      MatchingRows(col[..|col| - 1], v);
    }
  }

  /** The keys `groupby` visits: the distinct values of the column, ascending. */
  function Keys(col: seq<real>): (keys: seq<real>)
    ensures Order.Ascending(Order.RealLess, keys)
    ensures forall v :: v in keys <==> v in col
  {
    Order.RealLessIsOrder();
    Order.Distinct(Order.RealLess, col)
  }

  /** `df.groupby(col).groups.values()`: for each key, the rows holding it. */
  function Groups(col: seq<real>): (gs: seq<seq<nat>>)
    ensures |gs| == |Keys(col)|
    ensures forall k :: 0 <= k < |gs| ==> gs[k] == Matching(col, Keys(col)[k])
  {
    var keys := Keys(col);
    seq(|keys|, k requires 0 <= k < |keys| => Matching(col, keys[k]))
  }

  // ------------------------------------------------------ the edge sequences

  /** `[a, b]` then `[b, a]` for each `b` of `bs` in turn. */
  function Fan(a: nat, bs: seq<nat>): seq<Edge>
  {
    if bs == [] then []
    else Fan(a, bs[..|bs| - 1]) + [Edge(a, bs[|bs| - 1]), Edge(bs[|bs| - 1], a)]
  }

  /** The pair edges of group `g` produced by the outer loop's first `upto` rounds. */
  function PairsBelow(g: seq<nat>, upto: nat): seq<Edge>
    requires upto <= |g|
  {
    if upto == 0 then [] else PairsBelow(g, upto - 1) + Fan(g[upto - 1], g[upto..])
  }

  /** Both directions of every pair `i < j` of one group, in lexicographic `(i, j)` order. */
  function GroupEdges(g: seq<nat>): seq<Edge>
  {
    PairsBelow(g, |g|)
  }

  /** The edges of a sequence of groups; groups of one row are skipped. */
  function GroupsEdges(gs: seq<seq<nat>>): seq<Edge>
  {
    if gs == [] then []
    else
      var g := gs[|gs| - 1];
      GroupsEdges(gs[..|gs| - 1]) + (if |g| > 1 then GroupEdges(g) else [])
  }

  /** The edges one context column contributes. */
  function ColumnEdges(col: seq<real>): seq<Edge>
  {
    GroupsEdges(Groups(col))
  }

  /** The edges of all context columns, column after column, with no deduplication across columns. */
  function EdgesOf(cols: seq<seq<real>>): seq<Edge>
  {
    if cols == [] then [] else EdgesOf(cols[..|cols| - 1]) + ColumnEdges(cols[|cols| - 1])
  }

  /** The context columns' cells, or the first context column the frame lacks. */
  function ContextColumns(df: Frame<real>, ctx: seq<string>): (r: Result<seq<seq<real>>, GraphError>)
    requires Rect(df)
    ensures r.Ok? ==> |r.value| == |ctx| && forall c :: 0 <= c < |ctx| ==> |r.value[c]| == df.height
  {
    if ctx == [] then Ok([])
    else match ContextColumns(df, ctx[..|ctx| - 1])
      case Err(e) => Err(e)
      case Ok(cols) =>
        match Column(df, ctx[|ctx| - 1])
        case None => Err(MissingColumn(ctx[|ctx| - 1]))
        case Some(col) => Ok(cols + [col])
  }

  /** The lookup succeeds exactly when every context column is present (otherwise pandas raises `KeyError`). */
  lemma {:induction false} ContextColumnsOk(df: Frame<real>, ctx: seq<string>)
    requires Rect(df)
    ensures ContextColumns(df, ctx).Ok? <==> forall c :: 0 <= c < |ctx| ==> ctx[c] in df.names
  {
    if ctx != [] {
      var n := |ctx| - 1;
      ContextColumnsOk(df, ctx[..n]);
      assert forall c :: 0 <= c < n ==> ctx[..n][c] == ctx[c];
    }
  }

  /** Once a context column is missing, the lookup of any longer list fails with that column. */
  lemma {:induction false} ContextColumnsErrPersists(df: Frame<real>, ctx: seq<string>, c: nat, m: nat)
    requires Rect(df) && c < m <= |ctx|
    requires ContextColumns(df, ctx[..c]).Ok? && ctx[c] !in df.names
    ensures ContextColumns(df, ctx[..m]) == Err(MissingColumn(ctx[c]))
  {
    assert ctx[..m][..m - 1] == ctx[..m - 1];
    if m > c + 1 {
      ContextColumnsErrPersists(df, ctx, c, m - 1);
    } else {
      assert ctx[..m - 1] == ctx[..c];
    }
  }

  lemma ContextColumnsStep(df: Frame<real>, ctx: seq<string>, c: nat, cols: seq<seq<real>>)
    requires Rect(df) && c < |ctx| && ContextColumns(df, ctx[..c]) == Ok(cols) && ctx[c] in df.names
    ensures ContextColumns(df, ctx[..c + 1]) == Ok(cols + [Column(df, ctx[c]).value])
  {
    assert ctx[..c + 1][..c] == ctx[..c];
  }

  lemma EdgesOfStep(cols: seq<seq<real>>, col: seq<real>)
    ensures EdgesOf(cols + [col]) == EdgesOf(cols) + ColumnEdges(col)
  {
    assert (cols + [col])[..|cols|] == cols;
  }

  /** Specification of `build_graph`. */
  function BaseGraph(df: Frame<real>, ctx: seq<string>): Result<Graph, GraphError>
    requires Rect(df)
  {
    match ContextColumns(df, ctx)
    case Err(e) => Err(e)
    case Ok(cols) =>
      var es := EdgesOf(cols);
      if es == [] then Err(NoEdges) else Ok(Graph(Rows(df), es))
  }

  /**
   * `build_graph(df, context_cols)`: for each context column in order, for
   * each value group in ascending key order, for each pair `i < j` of the
   * group, append `[g[i], g[j]]` and then `[g[j], g[i]]`. Raises when no
   * edge results.
   */
  method BuildGraph(df: Frame<real>, ctx: seq<string>) returns (r: Result<Graph, GraphError>)
    requires Rect(df)
    ensures r == BaseGraph(df, ctx)
    ensures r.Ok? ==> r.value.x == Rows(df) && |r.value.x| == df.height
  {
    var edges: seq<Edge> := [];
    ghost var cols: seq<seq<real>> := [];
    var c := 0;
    while c < |ctx|
      invariant 0 <= c <= |ctx|
      invariant ContextColumns(df, ctx[..c]) == Ok(cols)
      invariant edges == EdgesOf(cols)
    {
      var col := Column(df, ctx[c]);
      if col.None? {
        ContextColumnsErrPersists(df, ctx, c, |ctx|);
        assert ctx[..|ctx|] == ctx;
        return Err(MissingColumn(ctx[c]));
      }
      edges := AppendGroupsEdges(edges, Groups(col.value));
      ContextColumnsStep(df, ctx, c, cols);
      EdgesOfStep(cols, col.value);
      cols := cols + [col.value];
      c := c + 1;
    }
    assert ctx[..c] == ctx;
    if edges == [] {
      return Err(NoEdges);
    }
    return Ok(Graph(Rows(df), edges));
  }

  /** The loop over the value groups of one context column. */
  method AppendGroupsEdges(edges0: seq<Edge>, groups: seq<seq<nat>>) returns (edges: seq<Edge>)
    ensures edges == edges0 + GroupsEdges(groups)
  {
    edges := edges0;
    var k := 0;
    while k < |groups|
      invariant 0 <= k <= |groups|
      invariant edges == edges0 + GroupsEdges(groups[..k])
    {
      var g := groups[k];
      GroupsEdgesStep(groups, k);
      if |g| > 1 {
        edges := AppendGroupPairs(edges, g);
      }
      k := k + 1;
    }
    assert groups[..k] == groups;
  }

  lemma GroupsEdgesStep(groups: seq<seq<nat>>, k: nat)
    requires k < |groups|
    ensures GroupsEdges(groups[..k + 1]) ==
      GroupsEdges(groups[..k]) + (if |groups[k]| > 1 then GroupEdges(groups[k]) else [])
  {
    assert groups[..k + 1][..k] == groups[..k];
  }

  /** The two nested loops over the pairs `i < j` of one group. */
  method AppendGroupPairs(edges0: seq<Edge>, g: seq<nat>) returns (edges: seq<Edge>)
    ensures edges == edges0 + GroupEdges(g)
  {
    edges := edges0;
    var i := 0;
    while i < |g|
      invariant 0 <= i <= |g|
      invariant edges == edges0 + PairsBelow(g, i)
    {
      var j := i + 1;
      while j < |g|
        invariant i + 1 <= j <= |g|
        invariant edges == edges0 + PairsBelow(g, i) + Fan(g[i], g[i + 1..j])
      {
        assert g[i + 1..j + 1][..j - i - 1] == g[i + 1..j];
        ConcatAssoc(edges0 + PairsBelow(g, i), Fan(g[i], g[i + 1..j]), [Edge(g[i], g[j]), Edge(g[j], g[i])]);
        edges := edges + [Edge(g[i], g[j]), Edge(g[j], g[i])];
        j := j + 1;
      }
      assert g[i + 1..j] == g[i + 1..];
      ConcatAssoc(edges0, PairsBelow(g, i), Fan(g[i], g[i + 1..]));
      i := i + 1;
    }
  }

  // ------------------------------------------------------------- symmetry

  /** Every entry at an even position is followed by its reverse. */
  predicate Paired(es: seq<Edge>)
    decreases |es|
  {
    es == [] || (|es| >= 2 && es[1] == Flip(es[0]) && Paired(es[2..]))
  }

  lemma {:induction false} PairedConcat(a: seq<Edge>, b: seq<Edge>)
    requires Paired(a) && Paired(b)
    ensures Paired(a + b)
    decreases |a|
  {
    if a != [] {
      PairedConcat(a[2..], b);
      assert (a + b)[0] == a[0] && (a + b)[1] == a[1];
      assert (a + b)[2..] == a[2..] + b;
    } else {
      assert a + b == b;
    }
  }

  lemma PairedTwo(e: Edge)
    ensures Paired([e, Flip(e)])
  {
    assert [e, Flip(e)][2..] == [];
  }

  /** A paired list is symmetric: the reverse of every entry is also an entry. */
  lemma {:induction false} PairedSymmetric(es: seq<Edge>)
    requires Paired(es)
    ensures forall e :: e in es ==> Flip(e) in es
    decreases |es|
  {
    if es != [] {
      PairedSymmetric(es[2..]);
      forall e | e in es ensures Flip(e) in es {
        if e == es[0] {
          assert Flip(e) == es[1];
        } else if e == es[1] {
          assert Flip(e) == es[0];
        } else {
          assert e in es[2..];
          assert Flip(e) in es[2..];
        }
      }
    }
  }

  lemma {:induction false} FanPaired(a: nat, bs: seq<nat>)
    ensures Paired(Fan(a, bs))
  {
    if bs != [] {
      FanPaired(a, bs[..|bs| - 1]);
      PairedTwo(Edge(a, bs[|bs| - 1]));
      PairedConcat(Fan(a, bs[..|bs| - 1]), [Edge(a, bs[|bs| - 1]), Edge(bs[|bs| - 1], a)]);
    }
  }

  lemma {:induction false} PairsBelowPaired(g: seq<nat>, upto: nat)
    requires upto <= |g|
    ensures Paired(PairsBelow(g, upto))
  {
    if upto > 0 {
      PairsBelowPaired(g, upto - 1);
      FanPaired(g[upto - 1], g[upto..]);
      PairedConcat(PairsBelow(g, upto - 1), Fan(g[upto - 1], g[upto..]));
    }
  }

  lemma {:induction false} GroupsEdgesPaired(gs: seq<seq<nat>>)
    ensures Paired(GroupsEdges(gs))
  {
    if gs != [] {
      var g := gs[|gs| - 1];
      GroupsEdgesPaired(gs[..|gs| - 1]);
      PairsBelowPaired(g, |g|);
      assert Paired([]);
      PairedConcat(GroupsEdges(gs[..|gs| - 1]), if |g| > 1 then GroupEdges(g) else []);
    }
  }

  /** The base edge list is paired: each appended `[a, b]` is immediately followed by `[b, a]`. */
  lemma {:induction false} EdgesOfPaired(cols: seq<seq<real>>)
    ensures Paired(EdgesOf(cols))
  {
    if cols != [] {
      EdgesOfPaired(cols[..|cols| - 1]);
      GroupsEdgesPaired(Groups(cols[|cols| - 1]));
      PairedConcat(EdgesOf(cols[..|cols| - 1]), ColumnEdges(cols[|cols| - 1]));
    }
  }

  // ---------------------------------------------------------- membership

  lemma {:induction false} FanMembers(a: nat, bs: seq<nat>, e: Edge)
    ensures e in Fan(a, bs) <==> (e.src == a && e.dst in bs) || (e.dst == a && e.src in bs)
  {
    if bs != [] {
      FanMembers(a, bs[..|bs| - 1], e);
      assert bs == bs[..|bs| - 1] + [bs[|bs| - 1]];
    }
  }

  /** One of the two entries for the pair `(g[i], g[j])`. */
  predicate PairAt(g: seq<nat>, i: nat, j: nat, e: Edge)
  {
    i < j < |g| && (e == Edge(g[i], g[j]) || e == Edge(g[j], g[i]))
  }

  lemma {:induction false} PairsBelowMembers(g: seq<nat>, upto: nat, e: Edge)
    requires upto <= |g|
    ensures e in PairsBelow(g, upto) <==> exists i: nat, j: nat :: i < upto && PairAt(g, i, j, e)
  {
    if upto > 0 {
      var u := upto - 1;
      PairsBelowMembers(g, u, e);
      FanMembers(g[u], g[upto..], e);
      if e in Fan(g[u], g[upto..]) {
        var b := if e.src == g[u] && e.dst in g[upto..] then e.dst else e.src;
        var k :| 0 <= k < |g[upto..]| && g[upto..][k] == b;
        assert PairAt(g, u, upto + k, e);
      }
      if exists i: nat, j: nat :: i < upto && PairAt(g, i, j, e) {
        var i: nat, j: nat :| i < upto && PairAt(g, i, j, e);
        if i == u {
          assert g[j] == g[upto..][j - upto];
        }
      }
    }
  }

  /** Within a group of distinct rows, the pair entries are exactly the ordered pairs of distinct members. */
  lemma GroupEdgesMembers(g: seq<nat>, e: Edge)
    requires Increasing(g)
    ensures e in GroupEdges(g) <==> e.src in g && e.dst in g && e.src != e.dst
  {
    PairsBelowMembers(g, |g|, e);
    if e.src in g && e.dst in g && e.src != e.dst {
      var a :| 0 <= a < |g| && g[a] == e.src;
      var b :| 0 <= b < |g| && g[b] == e.dst;
      if a < b {
        assert PairAt(g, a, b, e);
      } else {
        assert PairAt(g, b, a, e);
      }
    }
  }

  /** Both ends of `e` are distinct rows of group `k`. */
  predicate InGroup(gs: seq<seq<nat>>, k: nat, e: Edge)
  {
    k < |gs| && e.src in gs[k] && e.dst in gs[k] && e.src != e.dst
  }

  lemma {:induction false} GroupsEdgesMembers(gs: seq<seq<nat>>, e: Edge)
    requires forall k :: 0 <= k < |gs| ==> Increasing(gs[k])
    ensures e in GroupsEdges(gs) <==> exists k: nat :: InGroup(gs, k, e)
  {
    if gs != [] {
      var n := |gs| - 1;
      var g := gs[n];
      GroupsEdgesMembers(gs[..n], e);
      GroupEdgesMembers(g, e);
      var last := if |g| > 1 then GroupEdges(g) else [];
      assert GroupsEdges(gs) == GroupsEdges(gs[..n]) + last;
      assert e in last <==> InGroup(gs, n, e) by {
        if |g| <= 1 && e.src in g && e.dst in g {
          assert e.src == g[0] == e.dst;
        }
      }
      if e in GroupsEdges(gs[..n]) {
        var k: nat :| InGroup(gs[..n], k, e);
        assert InGroup(gs, k, e);
      }
      if exists k: nat :: InGroup(gs, k, e) {
        var k: nat :| InGroup(gs, k, e);
        if k < n {
          assert InGroup(gs[..n], k, e);
          assert e in GroupsEdges(gs[..n]);
        } else {
          assert e in last;
        }
      }
    }
  }

  /** The rows `a` and `b` hold the same value in `col`. */
  predicate Shares(col: seq<real>, a: nat, b: nat)
  {
    a < |col| && b < |col| && col[a] == col[b]
  }

  /** A context column links exactly the ordered pairs of distinct rows holding the same value. */
  lemma ColumnEdgesMembers(col: seq<real>, e: Edge)
    ensures e in ColumnEdges(col) <==> e.src != e.dst && Shares(col, e.src, e.dst)
  {
    var gs := Groups(col);
    forall k | 0 <= k < |gs| ensures Increasing(gs[k]) {
      MatchingRows(col, Keys(col)[k]);
    }
    GroupsEdgesMembers(gs, e);
    if e.src != e.dst && Shares(col, e.src, e.dst) {
      var v := col[e.src];
      var k := Order.IndexOf(Keys(col), v);
      MatchingRows(col, v);
      assert InGroup(gs, k, e);
    }
    if e in ColumnEdges(col) {
      var k: nat :| InGroup(gs, k, e);
      MatchingRows(col, Keys(col)[k]);
    }
  }

  /** Rows `a` and `b` are distinct and share a value in some context column. */
  predicate Linked(cols: seq<seq<real>>, a: nat, b: nat)
  {
    a != b && exists c :: 0 <= c < |cols| && Shares(cols[c], a, b)
  }

  lemma LinkedStep(cols: seq<seq<real>>, a: nat, b: nat)
    requires cols != []
    ensures Linked(cols, a, b) <==>
      Linked(cols[..|cols| - 1], a, b) || (a != b && Shares(cols[|cols| - 1], a, b))
  {
    var n := |cols| - 1;
    if Linked(cols, a, b) {
      var c :| 0 <= c < |cols| && Shares(cols[c], a, b);
      if c < n {
        assert cols[..n][c] == cols[c];
      }
    }
    if Linked(cols[..n], a, b) {
      var c :| 0 <= c < n && Shares(cols[..n][c], a, b);
      assert cols[..n][c] == cols[c];
    }
  }

  /** The base edge list holds `[a, b]` exactly when rows `a` and `b` are linked. */
  lemma {:induction false} EdgesOfMembers(cols: seq<seq<real>>, e: Edge)
    ensures e in EdgesOf(cols) <==> Linked(cols, e.src, e.dst)
  {
    if cols != [] {
      var n := |cols| - 1;
      EdgesOfMembers(cols[..n], e);
      ColumnEdgesMembers(cols[n], e);
      LinkedStep(cols, e.src, e.dst);
    }
  }

  // ------------------------------------------------------------- counting

  /** The number of ordered pairs of distinct rows inside each group, summed. */
  function PairCount(gs: seq<seq<nat>>): nat
  {
    if gs == [] then 0 else PairCount(gs[..|gs| - 1]) + |gs[|gs| - 1]| * (|gs[|gs| - 1]| - 1)
  }

  /** Summed over the context columns. */
  function ColumnsPairCount(cols: seq<seq<real>>): nat
  {
    if cols == [] then 0 else ColumnsPairCount(cols[..|cols| - 1]) + PairCount(Groups(cols[|cols| - 1]))
  }

  lemma {:induction false} FanLength(a: nat, bs: seq<nat>)
    ensures |Fan(a, bs)| == 2 * |bs|
  {
    if bs != [] {
      FanLength(a, bs[..|bs| - 1]);
    }
  }

  lemma {:induction false} PairsBelowLength(g: seq<nat>, upto: nat)
    requires upto <= |g|
    ensures |PairsBelow(g, upto)| == upto * (2 * |g| - upto - 1)
  {
    if upto > 0 {
      PairsBelowLength(g, upto - 1);
      FanLength(g[upto - 1], g[upto..]);
      StepCount(|g|, upto - 1);
    }
  }

  /** One more outer round adds `2 * (n - u - 1)` entries to `u * (2n - u - 1)`. */
  lemma StepCount(n: int, u: int)
    ensures u * (2 * n - u - 1) + 2 * (n - u - 1) == (u + 1) * (2 * n - (u + 1) - 1)
  {
    var m := 2 * n - u - 2;
    assert u * (m + 1) == u * m + u;
    assert (u + 1) * m == u * m + m;
  }

  lemma {:induction false} GroupsEdgesLength(gs: seq<seq<nat>>)
    ensures |GroupsEdges(gs)| == PairCount(gs)
  {
    if gs != [] {
      var g := gs[|gs| - 1];
      GroupsEdgesLength(gs[..|gs| - 1]);
      PairsBelowLength(g, |g|);
      if |g| <= 1 {
        assert |g| * (|g| - 1) == 0;
      }
    }
  }

  /**
   * Edge count: a group of `k` rows contributes `k * (k - 1)` entries (so a
   * group of one contributes none), summed over the groups of every context
   * column, with no deduplication across columns.
   */
  lemma {:induction false} EdgesOfLength(cols: seq<seq<real>>)
    ensures |EdgesOf(cols)| == ColumnsPairCount(cols)
  {
    if cols != [] {
      EdgesOfLength(cols[..|cols| - 1]);
      GroupsEdgesLength(Groups(cols[|cols| - 1]));
    }
  }

  // ---------------------------------------------------- build_graph as a whole

  /**
   * What `build_graph` returns: the rows in order as node features, an edge
   * list that is paired (so symmetric), has no self-loops and only valid
   * endpoints, holds `[a, b]` exactly when rows `a` and `b` share a context
   * value, and has `k * (k - 1)` entries per value group of size `k`.
   */
  lemma BaseGraphShape(df: Frame<real>, ctx: seq<string>)
    requires Rect(df)
    requires BaseGraph(df, ctx).Ok?
    ensures var g := BaseGraph(df, ctx).value;
            var cols := ContextColumns(df, ctx).value;
      && g.x == Rows(df) && |g.x| == df.height
      && Paired(g.edges)
      && (forall e :: e in g.edges ==> Flip(e) in g.edges)
      && (forall e :: e in g.edges ==> e.src != e.dst && e.src < df.height && e.dst < df.height)
      && (forall a: nat, b: nat :: Edge(a, b) in g.edges <==> Linked(cols, a, b))
      && |g.edges| == ColumnsPairCount(cols)
  {
    var g := BaseGraph(df, ctx).value;
    var cols := ContextColumns(df, ctx).value;
    EdgesOfPaired(cols);
    PairedSymmetric(g.edges);
    EdgesOfLength(cols);
    forall e | e in g.edges ensures e.src != e.dst && e.src < df.height && e.dst < df.height {
      EdgesOfMembers(cols, e);
      var c :| 0 <= c < |cols| && Shares(cols[c], e.src, e.dst);
    }
    forall a: nat, b: nat ensures Edge(a, b) in g.edges <==> Linked(cols, a, b) {
      EdgesOfMembers(cols, Edge(a, b));
    }
  }

  /** The base edge list is empty exactly when no two distinct rows are linked. */
  lemma EdgesOfEmptyIff(cols: seq<seq<real>>)
    ensures EdgesOf(cols) == [] <==> forall a: nat, b: nat :: !Linked(cols, a, b)
  {
    var es := EdgesOf(cols);
    if es != [] {
      EdgesOfMembers(cols, es[0]);
    } else {
      forall a: nat, b: nat ensures !Linked(cols, a, b) {
        EdgesOfMembers(cols, Edge(a, b));
      }
    }
  }

  /**
   * `build_graph` raises "No edges created" exactly when every context
   * column is present and no two distinct rows share a value in any of them.
   */
  lemma NoEdgesIff(df: Frame<real>, ctx: seq<string>)
    requires Rect(df)
    ensures BaseGraph(df, ctx) == Err(NoEdges) <==>
      && ContextColumns(df, ctx).Ok?
      && (forall a: nat, b: nat :: !Linked(ContextColumns(df, ctx).value, a, b))
  {
    MissingColumnOnly(df, ctx);
    if ContextColumns(df, ctx).Ok? {
      EdgesOfEmptyIff(ContextColumns(df, ctx).value);
    }
  }

  lemma {:induction false} MissingColumnOnly(df: Frame<real>, ctx: seq<string>)
    requires Rect(df)
    ensures ContextColumns(df, ctx).Err? ==> ContextColumns(df, ctx).error.MissingColumn?
  {
    if ctx != [] {
      MissingColumnOnly(df, ctx[..|ctx| - 1]);
    }
  }

  // ------------------------------------------------------ add_node_to_graph

  /** Python's `int(x)` on a float: truncation toward zero. */
  function Trunc(r: real): (t: int)
    ensures r >= 0.0 ==> t as real <= r < t as real + 1.0
    ensures r < 0.0 ==> t as real - 1.0 < r <= t as real
  {
    if r >= 0.0 then r.Floor else -((-r).Floor)
  }

  /** `[idx, hub]` then `[hub, idx]` for each matching row `idx` in turn. */
  function Spokes(ms: seq<nat>, hub: nat): seq<Edge>
  {
    if ms == [] then []
    else Spokes(ms[..|ms| - 1], hub) + [Edge(ms[|ms| - 1], hub), Edge(hub, ms[|ms| - 1])]
  }

  /** The links of every context column in turn (matches in several columns are not merged). */
  function AllSpokes(mss: seq<seq<nat>>, hub: nat): seq<Edge>
  {
    if mss == [] then [] else AllSpokes(mss[..|mss| - 1], hub) + Spokes(mss[|mss| - 1], hub)
  }

  /**
   * The value compared in each context column: it is read from row
   * `streamRow` of the existing frame, not from the new node's features,
   * and truncated by `int(...)`.
   */
  function ComparedValue(col: seq<real>, streamRow: nat): real
    requires streamRow < |col|
  {
    Trunc(col[streamRow]) as real
  }

  /** For each of the given columns, the rows equal to its compared value. */
  function MatchesOf(cols: seq<seq<real>>, streamRow: nat): (r: seq<seq<nat>>)
    requires forall k :: 0 <= k < |cols| ==> streamRow < |cols[k]|
    ensures |r| == |cols|
    ensures forall k :: 0 <= k < |cols| ==> r[k] == Matching(cols[k], ComparedValue(cols[k], streamRow))
  {
    if cols == [] then []
    else
      var last := cols[|cols| - 1];
      MatchesOf(cols[..|cols| - 1], streamRow) + [Matching(last, ComparedValue(last, streamRow))]
  }

  /** The links the outer loop appends for the given columns, column after column. */
  function LinksOf(cols: seq<seq<real>>, streamRow: nat, hub: nat): seq<Edge>
    requires forall k :: 0 <= k < |cols| ==> streamRow < |cols[k]|
  {
    if cols == [] then []
    else
      var last := cols[|cols| - 1];
      LinksOf(cols[..|cols| - 1], streamRow, hub) + Spokes(Matching(last, ComparedValue(last, streamRow)), hub)
  }

  lemma LinksOfStep(cols: seq<seq<real>>, col: seq<real>, streamRow: nat, hub: nat)
    requires forall k :: 0 <= k < |cols| ==> streamRow < |cols[k]|
    requires streamRow < |col|
    ensures LinksOf(cols + [col], streamRow, hub) ==
      LinksOf(cols, streamRow, hub) + Spokes(Matching(col, ComparedValue(col, streamRow)), hub)
  {
    assert (cols + [col])[..|cols|] == cols;
  }

  lemma ConcatAssoc<T>(a: seq<T>, b: seq<T>, c: seq<T>)
    ensures a + b + c == a + (b + c)
  {
  }

  lemma {:induction false} LinksOfSpokes(cols: seq<seq<real>>, streamRow: nat, hub: nat)
    requires forall k :: 0 <= k < |cols| ==> streamRow < |cols[k]|
    ensures LinksOf(cols, streamRow, hub) == AllSpokes(MatchesOf(cols, streamRow), hub)
  {
    if cols != [] {
      var n := |cols| - 1;
      LinksOfSpokes(cols[..n], streamRow, hub);
      AllSpokesStep(MatchesOf(cols[..n], streamRow), Matching(cols[n], ComparedValue(cols[n], streamRow)), hub);
    }
  }

  /** For each context column, the existing rows equal to the compared value. */
  function MatchLists(df: Frame<real>, ctx: seq<string>, streamRow: nat): (r: Result<seq<seq<nat>>, GraphError>)
    requires Rect(df)
    ensures r.Ok? ==> |r.value| == |ctx|
  {
    if ctx != [] && streamRow >= df.height then Err(RowOutOfRange(streamRow))
    else match ContextColumns(df, ctx)
      case Err(e) => Err(e)
      case Ok(cols) => Ok(MatchesOf(cols, streamRow))
  }

  /** The entries the outer loop appends for every context column, or the error it raises. */
  function Links(df: Frame<real>, ctx: seq<string>, streamRow: nat, hub: nat): Result<seq<Edge>, GraphError>
    requires Rect(df)
  {
    if ctx != [] && streamRow >= df.height then Err(RowOutOfRange(streamRow))
    else match ContextColumns(df, ctx)
      case Err(e) => Err(e)
      case Ok(cols) => Ok(LinksOf(cols, streamRow, hub))
  }

  /** The links are the spokes of the match lists. */
  lemma LinksSpokes(df: Frame<real>, ctx: seq<string>, streamRow: nat, hub: nat)
    requires Rect(df)
    ensures Links(df, ctx, streamRow, hub).Ok? == MatchLists(df, ctx, streamRow).Ok?
    ensures Links(df, ctx, streamRow, hub).Ok? ==>
      Links(df, ctx, streamRow, hub).value == AllSpokes(MatchLists(df, ctx, streamRow).value, hub)
  {
    if MatchLists(df, ctx, streamRow).Ok? {
      LinksOfSpokes(ContextColumns(df, ctx).value, streamRow, hub);
    }
  }

  /** Specification of `add_node_to_graph`. */
  function Inserted(g: Graph, newRow: seq<real>, df: Frame<real>, ctx: seq<string>, streamRow: nat): Result<Graph, GraphError>
    requires Rect(df)
  {
    match Links(df, ctx, streamRow, |g.x|)
    case Err(e) => Err(e)
    case Ok(added) =>
      var n := |g.x|;
      Ok(Graph(g.x + [newRow], g.edges + added + (if added == [] then [Edge(n, n)] else [])))
  }

  /**
   * `add_node_to_graph(data, node_features, df_existing, context_cols,
   * stream_row_idx)`: a new graph whose nodes are the old ones plus the new
   * row at index `|g.x|`, whose edge list starts with the old one, then for
   * each context column and each matching row `idx` holds `[idx, new]` and
   * `[new, idx]`, and ends with the self-loop `[new, new]` when nothing
   * matched. The argument graph is a value and stays as it was.
   */
  method AddNode(g: Graph, newRow: seq<real>, df: Frame<real>, ctx: seq<string>, streamRow: nat)
    returns (r: Result<Graph, GraphError>)
    requires Rect(df)
    ensures r == Inserted(g, newRow, df, ctx, streamRow)
    ensures r.Ok? ==> |r.value.x| == |g.x| + 1 && r.value.x[..|g.x|] == g.x && r.value.x[|g.x|] == newRow
    ensures r.Ok? ==> |r.value.edges| > |g.edges| && r.value.edges[..|g.edges|] == g.edges
  {
    var x := g.x + [newRow];
    var numNodes := |x|;
    var linked, found := LinkContext(g.edges, df, ctx, streamRow, numNodes - 1);
    if linked.Err? {
      return Err(linked.error);
    }
    var edges := linked.value;
    ghost var added := Links(df, ctx, streamRow, numNodes - 1).value;
    if !found {
      edges := edges + [Edge(numNodes - 1, numNodes - 1)];
    } else {
      assert g.edges + added + [] == g.edges + added;
    }
    r := Ok(Graph(x, edges));
  }

  /** The outer loop of `add_node_to_graph` over the context columns, with its `found_connection` flag. */
  method LinkContext(edges0: seq<Edge>, df: Frame<real>, ctx: seq<string>, streamRow: nat, hub: nat)
    returns (r: Result<seq<Edge>, GraphError>, found: bool)
    requires Rect(df)
    ensures match Links(df, ctx, streamRow, hub)
      case Err(e) => r == Err(e)
      case Ok(added) => r == Ok(edges0 + added) && (found <==> added != [])
  {
    var edges := edges0;
    found := false;
    ghost var cols: seq<seq<real>> := [];
    var c := 0;
    while c < |ctx|
      invariant 0 <= c <= |ctx|
      invariant c > 0 ==> streamRow < df.height
      invariant ContextColumns(df, ctx[..c]) == Ok(cols)
      invariant edges == edges0 + LinksOf(cols, streamRow, hub)
      invariant found <==> LinksOf(cols, streamRow, hub) != []
    {
      if streamRow >= df.height {
        assert Links(df, ctx, streamRow, hub) == Err(RowOutOfRange(streamRow));
        return Err(RowOutOfRange(streamRow)), found;
      }
      var col := Column(df, ctx[c]);
      if col.None? {
        ContextColumnsErrPersists(df, ctx, c, |ctx|);
        assert ctx[..|ctx|] == ctx;
        assert Links(df, ctx, streamRow, hub) == Err(MissingColumn(ctx[c]));
        return Err(MissingColumn(ctx[c])), found;
      }
      var val := Trunc(col.value[streamRow]);
      var matching := Matching(col.value, val as real);
      edges, found := AppendSpokes(edges, found, matching, hub);
      ContextColumnsStep(df, ctx, c, cols);
      LinksOfStep(cols, col.value, streamRow, hub);
      ConcatAssoc(edges0, LinksOf(cols, streamRow, hub), Spokes(matching, hub));
      cols := cols + [col.value];
      c := c + 1;
    }
    assert ctx[..c] == ctx;
    assert Links(df, ctx, streamRow, hub) == Ok(LinksOf(cols, streamRow, hub));
    r := Ok(edges);
  }

  lemma AllSpokesStep(mss: seq<seq<nat>>, m: seq<nat>, hub: nat)
    ensures AllSpokes(mss + [m], hub) == AllSpokes(mss, hub) + Spokes(m, hub)
  {
    assert (mss + [m])[..|mss|] == mss;
  }

  /** The loop over the matching rows of one context column, setting `found_connection`. */
  method AppendSpokes(edges0: seq<Edge>, found0: bool, matching: seq<nat>, hub: nat) returns (edges: seq<Edge>, found: bool)
    ensures edges == edges0 + Spokes(matching, hub)
    ensures found <==> found0 || matching != []
  {
    edges, found := edges0, found0;
    var k := 0;
    while k < |matching|
      invariant 0 <= k <= |matching|
      invariant edges == edges0 + Spokes(matching[..k], hub)
      invariant found <==> found0 || k > 0
    {
      assert matching[..k + 1][..k] == matching[..k];
      found := true;
      edges := edges + [Edge(matching[k], hub), Edge(hub, matching[k])];
      k := k + 1;
    }
    assert matching[..k] == matching;
  }

  lemma {:induction false} SpokesMembers(ms: seq<nat>, hub: nat, e: Edge)
    ensures e in Spokes(ms, hub) <==> (e.dst == hub && e.src in ms) || (e.src == hub && e.dst in ms)
  {
    if ms != [] {
      SpokesMembers(ms[..|ms| - 1], hub, e);
      assert ms == ms[..|ms| - 1] + [ms[|ms| - 1]];
    }
  }

  lemma {:induction false} SpokesLength(ms: seq<nat>, hub: nat)
    ensures |Spokes(ms, hub)| == 2 * |ms|
  {
    if ms != [] {
      SpokesLength(ms[..|ms| - 1], hub);
    }
  }

  lemma {:induction false} AllSpokesMembers(mss: seq<seq<nat>>, hub: nat, e: Edge)
    ensures e in AllSpokes(mss, hub) <==>
      exists c :: 0 <= c < |mss| && ((e.dst == hub && e.src in mss[c]) || (e.src == hub && e.dst in mss[c]))
  {
    if mss != [] {
      var n := |mss| - 1;
      AllSpokesMembers(mss[..n], hub, e);
      SpokesMembers(mss[n], hub, e);
      if exists c :: 0 <= c < |mss| && ((e.dst == hub && e.src in mss[c]) || (e.src == hub && e.dst in mss[c])) {
        var c :| 0 <= c < |mss| && ((e.dst == hub && e.src in mss[c]) || (e.src == hub && e.dst in mss[c]));
        if c < n {
          assert mss[..n][c] == mss[c];
        }
      }
    }
  }

  lemma {:induction false} AllSpokesEmpty(mss: seq<seq<nat>>, hub: nat)
    ensures AllSpokes(mss, hub) == [] <==> forall c :: 0 <= c < |mss| ==> mss[c] == []
    ensures Paired(AllSpokes(mss, hub))
  {
    if mss != [] {
      var n := |mss| - 1;
      AllSpokesEmpty(mss[..n], hub);
      SpokesLength(mss[n], hub);
      SpokesPaired(mss[n], hub);
      PairedConcat(AllSpokes(mss[..n], hub), Spokes(mss[n], hub));
      if forall c :: 0 <= c < n ==> mss[..n][c] == [] {
        assert forall c :: 0 <= c < n ==> mss[c] == mss[..n][c];
      }
    }
  }

  lemma {:induction false} SpokesPaired(ms: seq<nat>, hub: nat)
    ensures Paired(Spokes(ms, hub))
  {
    if ms != [] {
      SpokesPaired(ms[..|ms| - 1], hub);
      PairedTwo(Edge(ms[|ms| - 1], hub));
      PairedConcat(Spokes(ms[..|ms| - 1], hub), [Edge(ms[|ms| - 1], hub), Edge(hub, ms[|ms| - 1])]);
    }
  }

  /** Row `i` of context column `c` equals the value compared for that column. */
  predicate MatchesAt(cols: seq<seq<real>>, streamRow: nat, c: nat, i: nat)
  {
    c < |cols| && i < |cols[c]| && streamRow < |cols[c]| && cols[c][i] == ComparedValue(cols[c], streamRow)
  }

  /** The match lists say exactly which rows equal the compared value in which column. */
  lemma MatchListsAt(df: Frame<real>, ctx: seq<string>, streamRow: nat, c: nat, i: nat)
    requires Rect(df) && MatchLists(df, ctx, streamRow).Ok?
    ensures var cols := ContextColumns(df, ctx).value;
            var mss := MatchLists(df, ctx, streamRow).value;
      MatchesAt(cols, streamRow, c, i) <==> c < |mss| && i in mss[c]
  {
    var cols := ContextColumns(df, ctx).value;
    if c < |cols| {
      MatchingRows(cols[c], ComparedValue(cols[c], streamRow));
    }
  }

  /**
   * What the extension adds after the old edge list: `[idx, new]` and
   * `[new, idx]` exactly for the rows `idx` that match in some context
   * column.
   */
  lemma InsertedLinks(g: Graph, newRow: seq<real>, df: Frame<real>, ctx: seq<string>, streamRow: nat, i: nat)
    requires Rect(df)
    requires Inserted(g, newRow, df, ctx, streamRow).Ok?
    requires i != |g.x|
    ensures var h := Inserted(g, newRow, df, ctx, streamRow).value;
            var cols := ContextColumns(df, ctx).value;
            var added := h.edges[|g.edges|..];
      && (Edge(i, |g.x|) in added <==> exists c: nat :: MatchesAt(cols, streamRow, c, i))
      && (Edge(|g.x|, i) in added <==> exists c: nat :: MatchesAt(cols, streamRow, c, i))
  {
    var h := Inserted(g, newRow, df, ctx, streamRow).value;
    var cols := ContextColumns(df, ctx).value;
    LinksSpokes(df, ctx, streamRow, |g.x|);
    var mss := MatchLists(df, ctx, streamRow).value;
    var n := |g.x|;
    var added := h.edges[|g.edges|..];
    assert added == AllSpokes(mss, n) || added == [Edge(n, n)];
    AllSpokesMembers(mss, n, Edge(i, n));
    AllSpokesMembers(mss, n, Edge(n, i));
    AllSpokesEmpty(mss, n);
    if exists c: nat :: MatchesAt(cols, streamRow, c, i) {
      var c: nat :| MatchesAt(cols, streamRow, c, i);
      MatchListsAt(df, ctx, streamRow, c, i);
    }
    if exists c :: 0 <= c < |mss| && i in mss[c] {
      var c :| 0 <= c < |mss| && i in mss[c];
      MatchListsAt(df, ctx, streamRow, c, i);
    }
  }

  /**
   * The self-loop `[new, new]` is the whole addition exactly when no context
   * column matched any row; otherwise the addition is paired.
   */
  lemma InsertedSelfLoop(g: Graph, newRow: seq<real>, df: Frame<real>, ctx: seq<string>, streamRow: nat)
    requires Rect(df)
    requires Inserted(g, newRow, df, ctx, streamRow).Ok?
    ensures var h := Inserted(g, newRow, df, ctx, streamRow).value;
            var cols := ContextColumns(df, ctx).value;
            var added := h.edges[|g.edges|..];
      && ((forall c: nat, i: nat :: !MatchesAt(cols, streamRow, c, i)) <==> added == [Edge(|g.x|, |g.x|)])
      && ((exists c: nat, i: nat :: MatchesAt(cols, streamRow, c, i)) ==> Paired(added))
  {
    var h := Inserted(g, newRow, df, ctx, streamRow).value;
    var cols := ContextColumns(df, ctx).value;
    LinksSpokes(df, ctx, streamRow, |g.x|);
    var mss := MatchLists(df, ctx, streamRow).value;
    var n := |g.x|;
    var spokes := AllSpokes(mss, n);
    var added := h.edges[|g.edges|..];
    AllSpokesEmpty(mss, n);
    if spokes == [] {
      assert added == [Edge(n, n)];
      forall c: nat, i: nat ensures !MatchesAt(cols, streamRow, c, i) {
        MatchListsAt(df, ctx, streamRow, c, i);
      }
    } else {
      assert added == spokes;
      var c :| 0 <= c < |mss| && mss[c] != [];
      MatchListsAt(df, ctx, streamRow, c, mss[c][0]);
      assert MatchesAt(cols, streamRow, c, mss[c][0]);
      SpokesMembers(mss[c], n, Edge(mss[c][0], n));
      AllSpokesMembers(mss, n, Edge(mss[c][0], n));
      assert |added| >= 2;
    }
  }

  /**
   * The new node's links do not depend on its own features: two new rows
   * with different values get the same edge list.
   */
  lemma InsertedIgnoresNewFeatures(g: Graph, a: seq<real>, b: seq<real>, df: Frame<real>, ctx: seq<string>, streamRow: nat)
    requires Rect(df)
    ensures Inserted(g, a, df, ctx, streamRow).Ok? == Inserted(g, b, df, ctx, streamRow).Ok?
    ensures Inserted(g, a, df, ctx, streamRow).Ok? ==>
      Inserted(g, a, df, ctx, streamRow).value.edges == Inserted(g, b, df, ctx, streamRow).value.edges
  {
  }

  /**
   * Because the compared value is read from row `streamRow` of the existing
   * frame, that row always matches itself when its context values are whole
   * numbers (as label codes are): with at least one context column the
   * self-loop branch is then never taken, and the new node is linked to row
   * `streamRow` in both directions.
   */
  lemma SelfLoopUnreachable(g: Graph, newRow: seq<real>, df: Frame<real>, ctx: seq<string>, streamRow: nat)
    requires Rect(df)
    requires ctx != [] && streamRow < df.height && streamRow != |g.x|
    requires forall c :: 0 <= c < |ctx| ==> ctx[c] in df.names
    requires forall c :: 0 <= c < |ctx| ==>
      var col := Column(df, ctx[c]).value; Trunc(col[streamRow]) as real == col[streamRow]
    ensures Inserted(g, newRow, df, ctx, streamRow).Ok?
    ensures var h := Inserted(g, newRow, df, ctx, streamRow).value;
      && Edge(streamRow, |g.x|) in h.edges[|g.edges|..]
      && Edge(|g.x|, streamRow) in h.edges[|g.edges|..]
      && h.edges[|g.edges|..] != [Edge(|g.x|, |g.x|)]
  {
    ContextColumnsOk(df, ctx);
    var cols := ContextColumns(df, ctx).value;
    assert cols[0] == Column(df, ctx[0]).value by {
      ContextColumnsAt(df, ctx, 0);
    }
    assert MatchesAt(cols, streamRow, 0, streamRow);
    InsertedLinks(g, newRow, df, ctx, streamRow, streamRow);
    InsertedSelfLoop(g, newRow, df, ctx, streamRow);
  }

  lemma {:induction false} ContextColumnsAt(df: Frame<real>, ctx: seq<string>, c: nat)
    requires Rect(df) && ContextColumns(df, ctx).Ok? && c < |ctx|
    ensures Column(df, ctx[c]) == Some(ContextColumns(df, ctx).value[c])
  {
    var n := |ctx| - 1;
    if c < n {
      ContextColumnsAt(df, ctx[..n], c);
    }
  }
}
