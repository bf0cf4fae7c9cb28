/** The numpy arrays `plotter.py` keeps per label: a ring of `n` rows, each row
    one value per line of the plot. A cell is a float; None stands for NaN, the
    blank marker written while a plot is drawn. */
module Rows {
  import opened Base

  type Cell = Option<real>
  type Row = seq<Cell>
  type Grid = seq<Row>

  /** `np.zeros(w)`. */
  function Zeros(w: nat): (r: Row)
    ensures |r| == w && forall j :: 0 <= j < w ==> r[j] == Some(0.0)
  {
    seq(w, _ => Some(0.0))
  }

  /** A row of NaN: what `row[:] = None` leaves in a float array. */
  function Blank(w: nat): (r: Row)
    ensures |r| == w && forall j :: 0 <= j < w ==> r[j].None?
  {
    seq(w, _ => None)
  }

  /** `np.zeros(n)` for the x values of a ring. */
  function ZeroXs(n: nat): (r: seq<int>)
    ensures |r| == n && forall k :: 0 <= k < n ==> r[k] == 0
  {
    seq(n, _ => 0)
  }

  /** The cells holding a list of values. */
  function Cells(vs: seq<real>): (r: Row)
    ensures |r| == |vs| && forall j :: 0 <= j < |vs| ==> r[j] == Some(vs[j])
  {
    seq(|vs|, j requires 0 <= j < |vs| => Some(vs[j]))
  }

  /** numpy broadcasting of `value` into a row of width `w`: a value of width
      `w` is copied, a value of width 1 is repeated, any other width raises
      ValueError (None). */
  function Fit(value: Row, w: nat): (r: Option<Row>)
    ensures r.Some? <==> |value| == w || |value| == 1
    ensures r.Some? ==> |r.value| == w
    ensures r.Some? && |value| == w ==> r.value == value
    ensures r.Some? && |value| != w ==> forall j :: 0 <= j < w ==> r.value[j] == value[0]
  {
    if |value| == w then Some(value)
    else if |value| == 1 then Some(seq(w, _ => value[0]))
    else None
  }

  /** `g[i, :] = value`: None when `i` is not a row of `g` (IndexError) or the
      value does not broadcast to the row (ValueError). */
  function SetRow(g: Grid, i: int, value: Row): (r: Option<Grid>)
    ensures r.Some? <==> 0 <= i < |g| && Fit(value, |g[i]|).Some?
    ensures r.Some? ==> |r.value| == |g| && r.value[i] == Fit(value, |g[i]|).value
    ensures r.Some? ==> forall k :: 0 <= k < |g| && k != i ==> r.value[k] == g[k]
  {
    if 0 <= i < |g| then
      match Fit(value, |g[i]|)
      case None => None
      case Some(row) => Some(g[i := row])
    else None
  }

  /** `np.zeros((n, w)) + row`: `n` copies of the row broadcast to width `w`
      (adding to zero keeps a value, and keeps NaN). When `w` is 1 the zeros
      stretch to the row instead, and every copy is the row as it is. */
  function Broadcast(n: nat, w: nat, row: Row): (r: Option<Grid>)
    ensures r.Some? <==> Fit(row, w).Some? || w == 1
    ensures r.Some? ==> |r.value| == n
    ensures Fit(row, w).Some? ==> forall k :: 0 <= k < n ==> r.value[k] == Fit(row, w).value
    ensures w == 1 ==> forall k :: 0 <= k < n ==> r.value[k] == row
  {
    if w == 1 then Some(seq(n, _ => row))
    else
      match Fit(row, w)
      case None => None
      case Some(fitted) => Some(seq(n, _ => fitted))
  }

  /** `np.zeros((n, w))`. */
  function ZeroGrid(n: nat, w: nat): (r: Grid)
    ensures |r| == n && forall k :: 0 <= k < n ==> r[k] == Zeros(w)
  {
    seq(n, _ => Zeros(w))
  }

  /** Every row of `g` has width `w`. */
  predicate Shaped(g: Grid, n: nat, w: nat) {
    |g| == n && forall k :: 0 <= k < n ==> |g[k]| == w
  }

  // --------------------------------------------------------------- limits

  /** A running limit: `float('inf')`, `-float('inf')` or a value. */
  datatype Bound = PosInf | NegInf | Finite(v: real)

  /** Python's `c < b` with a float that may be NaN: NaN compares false. */
  predicate Below(c: Cell, b: Bound) {
    c.Some? && match b
      case PosInf => true
      case NegInf => false
      case Finite(m) => c.value < m
  }

  /** Python's `c > b`. */
  predicate Above(c: Cell, b: Bound) {
    c.Some? && match b
      case PosInf => false
      case NegInf => true
      case Finite(m) => c.value > m
  }

  /** `b <= v` for a limit and a value. */
  predicate AtMost(b: Bound, v: real) {
    b.NegInf? || (b.Finite? && b.v <= v)
  }

  /** `v <= b`. */
  predicate AtLeast(b: Bound, v: real) {
    b.PosInf? || (b.Finite? && v <= b.v)
  }

  /** The flattened cells of a grid, row after row. */
  function Flat(g: Grid): seq<Cell> {
    if g == [] then [] else g[0] + Flat(g[1..])
  }

  /** numpy's `.min()` over a non-empty list of cells: NaN as soon as one cell is NaN. */
  function Least(cs: seq<Cell>): (r: Cell)
    requires |cs| > 0
    ensures r.None? <==> exists j :: 0 <= j < |cs| && cs[j].None?
    ensures r.Some? ==> forall j :: 0 <= j < |cs| ==> cs[j].Some? && r.value <= cs[j].value
    ensures r.Some? ==> r in cs
  {
    if |cs| == 1 then cs[0]
    else
      var rest := Least(cs[1..]);
      assert forall j :: 1 <= j < |cs| ==> cs[j] == cs[1..][j - 1];
      if cs[0].None? || rest.None? then None
      else if cs[0].value <= rest.value then cs[0]
      else rest
  }

  /** numpy's `.max()`. */
  function Greatest(cs: seq<Cell>): (r: Cell)
    requires |cs| > 0
    ensures r.None? <==> exists j :: 0 <= j < |cs| && cs[j].None?
    ensures r.Some? ==> forall j :: 0 <= j < |cs| ==> cs[j].Some? && cs[j].value <= r.value
    ensures r.Some? ==> r in cs
  {
    if |cs| == 1 then cs[0]
    else
      var rest := Greatest(cs[1..]);
      assert forall j :: 1 <= j < |cs| ==> cs[j] == cs[1..][j - 1];
      if cs[0].None? || rest.None? then None
      else if cs[0].value >= rest.value then cs[0]
      else rest
  }

  /** `if ring.min() < lo: lo = ring.min()`. */
  function Lower(lo: Bound, least: Cell): Bound {
    if Below(least, lo) then Finite(least.value) else lo
  }

  /** `if ring.max() > hi: hi = ring.max()`. */
  function Raise(hi: Bound, greatest: Cell): Bound {
    if Above(greatest, hi) then Finite(greatest.value) else hi
  }

  /** A lower limit never rises and an upper one never falls. */
  lemma LimitsNeverNarrow(lo: Bound, hi: Bound, least: Cell, greatest: Cell)
    ensures NoHigher(Lower(lo, least), lo) && NoLower(Raise(hi, greatest), hi)
  {
  }

  /** The cells of the flattened grid are exactly the cells of its rows. */
  lemma {:induction false} FlatCells(g: Grid)
    ensures forall k, j :: 0 <= k < |g| && 0 <= j < |g[k]| ==> g[k][j] in Flat(g)
    ensures forall c :: c in Flat(g) ==> exists k, j :: 0 <= k < |g| && 0 <= j < |g[k]| && g[k][j] == c
  {
    if g != [] {
      FlatCells(g[1..]);
      forall c | c in Flat(g) ensures exists k, j :: 0 <= k < |g| && 0 <= j < |g[k]| && g[k][j] == c {
        if c !in g[0] {
          var k, j :| 0 <= k < |g[1..]| && 0 <= j < |g[1..][k]| && g[1..][k][j] == c;
          assert g[k + 1][j] == c;
        }
      }
      forall k, j | 0 <= k < |g| && 0 <= j < |g[k]| ensures g[k][j] in Flat(g) {
        if k > 0 {
          assert g[k] == g[1..][k - 1];
        }
      }
    }
  }

  /** A grid with at least one row, every row `w` wide with `w` at least 1,
      has cells to take the least and greatest of. */
  lemma FlatNonEmpty(g: Grid, n: nat, w: nat)
    requires Shaped(g, n, w) && n >= 1 && w >= 1
    ensures |Flat(g)| > 0
  {
    assert g[0] + Flat(g[1..]) == Flat(g);
  }

  /** Whatever limits a grid of numbers starts from, once they are lowered
      and raised to its least and greatest cells every cell lies between them. */
  lemma LimitsCover(lo: Bound, hi: Bound, g: Grid)
    requires |Flat(g)| > 0
    requires forall k, j :: 0 <= k < |g| && 0 <= j < |g[k]| ==> g[k][j].Some?
    ensures forall k, j :: 0 <= k < |g| && 0 <= j < |g[k]| ==>
      AtMost(Lower(lo, Least(Flat(g))), g[k][j].value) && AtLeast(Raise(hi, Greatest(Flat(g))), g[k][j].value)
  {
    FlatCells(g);
    var cs := Flat(g);
    forall i | 0 <= i < |cs| ensures cs[i].Some? {
      assert cs[i] in cs;
    }
    forall k, j | 0 <= k < |g| && 0 <= j < |g[k]|
      ensures AtMost(Lower(lo, Least(cs)), g[k][j].value) && AtLeast(Raise(hi, Greatest(cs)), g[k][j].value)
    {
      var i :| 0 <= i < |cs| && cs[i] == g[k][j];
    }
  }

  /** `a` is the same limit as `b`, or a value below it: a lower limit that did not rise. */
  predicate NoHigher(a: Bound, b: Bound) {
    a == b || (a.Finite? && match b
      case PosInf => true
      case NegInf => false
      case Finite(m) => a.v < m)
  }

  /** `a` is the same limit as `b`, or a value above it. */
  predicate NoLower(a: Bound, b: Bound) {
    a == b || (a.Finite? && match b
      case PosInf => false
      case NegInf => true
      case Finite(m) => a.v > m)
  }

  /** Every cell of the grid is a number between the two limits. */
  predicate Covered(lo: Bound, hi: Bound, g: Grid) {
    forall k, j :: 0 <= k < |g| && 0 <= j < |g[k]| ==>
      g[k][j].Some? && AtMost(lo, g[k][j].value) && AtLeast(hi, g[k][j].value)
  }
}
