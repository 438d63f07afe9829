/**
  Interpolation in tables of integers, along a line and over a grid. The searches are by bisection; the
  specification finds the cell by walking along the axis.
  */
module Interpolation {
  import opened Arithmetic

  /** An axis has strictly increasing support points. */
  ghost predicate Increasing(xs: seq<int>) {
    |xs| > 0 && forall i, j :: 0 <= i < j < |xs| ==> xs[i] < xs[j]
  }

  ghost predicate Nondecreasing(ys: seq<int>) {
    forall i, j :: 0 <= i <= j < |ys| ==> ys[i] <= ys[j]
  }

  // ---------------------------------------------------------------- cells

  /** The value lies in the i-th cell; a border belongs to the cell that it begins, except the last one. */
  ghost predicate InCell(xs: seq<int>, i: nat, v: int) {
    i + 1 < |xs| && xs[i] <= v <= xs[i + 1] && (v < xs[i + 1] || i + 2 == |xs|)
  }

  /** The axis covers the value. */
  ghost predicate Covers(xs: seq<int>, v: int) {
    |xs| >= 2 && xs[0] <= v <= xs[|xs| - 1]
  }

  ghost function CellFrom(xs: seq<int>, v: int, k: nat): (i: nat)
    requires k + 1 < |xs| && xs[k] <= v <= xs[|xs| - 1]
    ensures InCell(xs, i, v)
    decreases |xs| - k
  {
    if v < xs[k + 1] || k + 2 == |xs| then k else CellFrom(xs, v, k + 1)
  }

  ghost function Cell(xs: seq<int>, v: int): (i: nat)
    requires Covers(xs, v)
    ensures InCell(xs, i, v)
  {
    CellFrom(xs, v, 0)
  }

  lemma OneCell(xs: seq<int>, i: nat, j: nat, v: int)
    requires Increasing(xs) && InCell(xs, i, v) && InCell(xs, j, v)
    ensures i == j
  {
  }

  lemma CellsInOrder(xs: seq<int>, i: nat, j: nat, v: int, v': int)
    requires Increasing(xs) && InCell(xs, i, v) && InCell(xs, j, v') && v <= v'
    ensures i <= j
  {
  }

  /** Bisection finds the cell that the walk finds. */
  method FindCell(xs: seq<int>, v: int) returns (low: nat)
    requires Increasing(xs) && Covers(xs, v)
    ensures low == Cell(xs, v)
  {
    low := 0;
    var high := |xs| - 1;
    while high - low > 1
      invariant low < high < |xs|
      invariant xs[low] <= v <= xs[high]
      invariant v < xs[high] || high == |xs| - 1
    {
      var mid := (low + high) / 2;
      if v < xs[mid] {
        high := mid;
      } else {
        low := mid;
      }
    }
    OneCell(xs, low, Cell(xs, v), v);
  }

  // ---------------------------------------------------------------- along a line

  /** The line through two points, with truncating division. */
  function Segment(x0: int, x1: int, y0: int, y1: int, v: int): int
    requires x0 < x1
  {
    y0 + Div((y1 - y0) * (v - x0), x1 - x0)
  }

  /** The specification of linear interpolation; outside the axis the end values hold. */
  ghost function LinearAt(xs: seq<int>, ys: seq<int>, v: int): int
    requires Increasing(xs) && |ys| == |xs|
  {
    if v <= xs[0] then ys[0]
    else if v >= xs[|xs| - 1] then ys[|xs| - 1]
    else
      var i := Cell(xs, v);
      Segment(xs[i], xs[i + 1], ys[i], ys[i + 1], v)
  }

  method LinearCompute(xs: seq<int>, ys: seq<int>, v: int) returns (r: int)
    requires Increasing(xs) && |ys| == |xs|
    ensures r == LinearAt(xs, ys, v)
  {
    var n := |xs|;
    if v <= xs[0] {
      return ys[0];
    }
    if v >= xs[n - 1] {
      return ys[n - 1];
    }
    var low := FindCell(xs, v);
    return ys[low] + Div((ys[low + 1] - ys[low]) * (v - xs[low]), xs[low + 1] - xs[low]);
  }

  lemma SegmentEnds(x0: int, x1: int, y0: int, y1: int)
    requires x0 < x1
    ensures Segment(x0, x1, y0, y1, x0) == y0 && Segment(x0, x1, y0, y1, x1) == y1
  {
    DivMultiple(0, x1 - x0);
    DivMultiple(y1 - y0, x1 - x0);
  }

  lemma SegmentMonotone(x0: int, x1: int, y0: int, y1: int, v: int, v': int)
    requires x0 < x1 && y0 <= y1 && x0 <= v <= v' <= x1
    ensures y0 <= Segment(x0, x1, y0, y1, v) <= Segment(x0, x1, y0, y1, v') <= y1
  {
    hide Segment;
    SegmentEnds(x0, x1, y0, y1);
    SegmentStep(x0, x1, y0, y1, x0, v);
    SegmentStep(x0, x1, y0, y1, v, v');
    SegmentStep(x0, x1, y0, y1, v', x1);
  }

  lemma SegmentStep(x0: int, x1: int, y0: int, y1: int, v: int, v': int)
    requires x0 < x1 && y0 <= y1 && v <= v'
    ensures Segment(x0, x1, y0, y1, v) <= Segment(x0, x1, y0, y1, v')
  {
    hide Div;
    ProductMonotone(v - x0, v' - x0, y1 - y0);
    DivMonotone((y1 - y0) * (v - x0), (y1 - y0) * (v' - x0), x1 - x0);
  }

  lemma SegmentNegated(x0: int, x1: int, y0: int, y1: int, v: int)
    requires x0 < x1
    ensures Segment(x0, x1, -y0, -y1, v) == -Segment(x0, x1, y0, y1, v)
  {
    assert Div(-((y1 - y0) * (v - x0)), x1 - x0) == -Div((y1 - y0) * (v - x0), x1 - x0);
    assert (-y1 - -y0) * (v - x0) == -((y1 - y0) * (v - x0));
  }

  /** At a support point the result is the tabled value. */
  lemma LinearExact(xs: seq<int>, ys: seq<int>, k: nat)
    requires Increasing(xs) && |ys| == |xs| && k < |xs|
    ensures LinearAt(xs, ys, xs[k]) == ys[k]
  {
    hide Segment;
    if 0 < k < |xs| - 1 {
      OneCell(xs, Cell(xs, xs[k]), k, xs[k]);
      SegmentEnds(xs[k], xs[k + 1], ys[k], ys[k + 1]);
    }
  }

  /** Inside a cell the result lies between the values at its two ends. */
  lemma LinearWithinCell(xs: seq<int>, ys: seq<int>, i: nat, v: int)
    requires Increasing(xs) && |ys| == |xs| && InCell(xs, i, v)
    ensures ys[i] <= ys[i + 1] ==> ys[i] <= LinearAt(xs, ys, v) <= ys[i + 1]
    ensures ys[i] >= ys[i + 1] ==> ys[i] >= LinearAt(xs, ys, v) >= ys[i + 1]
  {
    hide Segment;
    LinearIsSegment(xs, ys, i, v);
    if ys[i] <= ys[i + 1] {
      SegmentMonotone(xs[i], xs[i + 1], ys[i], ys[i + 1], v, v);
    }
    if ys[i] >= ys[i + 1] {
      SegmentMonotone(xs[i], xs[i + 1], -ys[i], -ys[i + 1], v, v);
      SegmentNegated(xs[i], xs[i + 1], ys[i], ys[i + 1], v);
    }
  }

  lemma LinearIsSegment(xs: seq<int>, ys: seq<int>, i: nat, v: int)
    requires Increasing(xs) && |ys| == |xs| && InCell(xs, i, v)
    ensures LinearAt(xs, ys, v) == Segment(xs[i], xs[i + 1], ys[i], ys[i + 1], v)
  {
    hide Segment;
    SegmentEnds(xs[i], xs[i + 1], ys[i], ys[i + 1]);
    if xs[0] < v < xs[|xs| - 1] {
      OneCell(xs, Cell(xs, v), i, v);
    } else if v <= xs[0] {
      assert i == 0;
    } else {
      assert i + 2 == |xs|;
    }
  }

  /** Rising data give a rising result, in one cell and across cells. */
  lemma LinearMonotone(xs: seq<int>, ys: seq<int>, v: int, v': int)
    requires Increasing(xs) && |ys| == |xs| && Nondecreasing(ys) && v <= v'
    ensures ys[0] <= LinearAt(xs, ys, v) <= LinearAt(xs, ys, v') <= ys[|ys| - 1]
  {
    hide Segment;
    LinearInRange(xs, ys, v);
    LinearInRange(xs, ys, v');
    if xs[0] < v && v' < xs[|xs| - 1] {
      var i, j := Cell(xs, v), Cell(xs, v');
      CellsInOrder(xs, i, j, v, v');
      if i == j {
        SegmentMonotone(xs[i], xs[i + 1], ys[i], ys[i + 1], v, v');
      } else {
        LinearWithinCell(xs, ys, i, v);
        LinearWithinCell(xs, ys, j, v');
        assert ys[i + 1] <= ys[j];
      }
    }
  }

  lemma LinearInRange(xs: seq<int>, ys: seq<int>, v: int)
    requires Increasing(xs) && |ys| == |xs| && Nondecreasing(ys)
    ensures ys[0] <= LinearAt(xs, ys, v) <= ys[|ys| - 1]
  {
    hide Segment;
    if xs[0] < v < xs[|xs| - 1] {
      LinearWithinCell(xs, ys, Cell(xs, v), v);
    }
  }

  /** A table turned upside down gives the negated results, so falling data behave as rising data do. */
  lemma LinearNegated(xs: seq<int>, ys: seq<int>, v: int)
    requires Increasing(xs) && |ys| == |xs|
    ensures LinearAt(xs, seq(|ys|, i requires 0 <= i < |ys| => -ys[i]), v) == -LinearAt(xs, ys, v)
  {
    hide Segment;
    if xs[0] < v < xs[|xs| - 1] {
      var i := Cell(xs, v);
      SegmentNegated(xs[i], xs[i + 1], ys[i], ys[i + 1], v);
    }
  }

  /** q is n / d, cut off toward zero. */
  predicate IsQuotient(n: int, d: int, q: int) {
    && (n >= 0 ==> q * d <= n < q * d + d)
    && (n <= 0 ==> q * d - d < n <= q * d)
  }

  /**
    In a cell the rise from its beginning is the cell's rise times the covered share of the cell, cut off
    toward zero.
    */
  lemma LinearIsOnLine(xs: seq<int>, ys: seq<int>, i: nat, v: int)
    requires Increasing(xs) && |ys| == |xs| && InCell(xs, i, v)
    ensures IsQuotient((ys[i + 1] - ys[i]) * (v - xs[i]), xs[i + 1] - xs[i], LinearAt(xs, ys, v) - ys[i])
  {
    hide LinearAt, Div;
    LinearIsSegment(xs, ys, i, v);
    var n, d := (ys[i + 1] - ys[i]) * (v - xs[i]), xs[i + 1] - xs[i];
    DivIs(n, d, Div(n, d));
  }

  /** Outside the axis the end values hold. */
  lemma LinearOutside(xs: seq<int>, ys: seq<int>, v: int)
    requires Increasing(xs) && |ys| == |xs|
    ensures v <= xs[0] ==> LinearAt(xs, ys, v) == ys[0]
    ensures v >= xs[|xs| - 1] ==> LinearAt(xs, ys, v) == ys[|ys| - 1]
  {
  }

  // ---------------------------------------------------------------- over a grid

  /** A grid's data, by the numbers of its two support points. */
  type Table = (nat, nat) -> int

  /** The data as stored, row after row. */
  function Rows(data: seq<int>, ny: nat): Table {
    (i: nat, j: nat) => if i * ny + j < |data| then data[i * ny + j] else 0
  }

  function Mix(p: int, q: int, w0: int, w1: int): int {
    p * w0 + q * w1
  }

  /** Between two values, by weights. */
  function Edge(p: int, q: int, w0: int, w1: int): int
    requires w0 + w1 > 0
  {
    Div(Mix(p, q, w0, w1), w0 + w1)
  }

  /** The area of a cell. */
  function Area(dx: int, dy: int): (d: int)
    requires dx > 0 && dy > 0
    ensures d > 0
  {
    Positive(dx, dy);
    dx * dy
  }

  /** Between the four corners of a cell, by the weights of both axes. */
  function Blend(f00: int, f01: int, f10: int, f11: int, wx0: int, wx1: int, wy0: int, wy1: int): int
    requires wx0 + wx1 > 0 && wy0 + wy1 > 0
  {
    Div(Mix(Mix(f00, f01, wy0, wy1), Mix(f10, f11, wy0, wy1), wx0, wx1), Area(wx0 + wx1, wy0 + wy1))
  }

  function Clamp(xs: seq<int>, v: int): (c: int)
    requires |xs| > 0
    ensures xs[0] <= v <= xs[|xs| - 1] ==> c == v
  {
    var raised := if v <= xs[0] then xs[0] else v;
    if raised >= xs[|xs| - 1] then xs[|xs| - 1] else raised
  }

  ghost predicate IsGrid(xs: seq<int>, ys: seq<int>) {
    Increasing(xs) && |xs| >= 2 && Increasing(ys) && |ys| >= 2
  }

  /** The specification of bilinear interpolation. */
  ghost function BilinearAt(xs: seq<int>, ys: seq<int>, f: Table, v1: int, v2: int): int
    requires IsGrid(xs, ys)
  {
    BilinearIn(xs, ys, f, Cell(xs, Clamp(xs, v1)), Cell(ys, Clamp(ys, v2)), Clamp(xs, v1), Clamp(ys, v2))
  }

  ghost function BilinearIn(xs: seq<int>, ys: seq<int>, f: Table, i: nat, j: nat, u: int, v: int): int
    requires IsGrid(xs, ys) && InCell(xs, i, u) && InCell(ys, j, v)
  {
    Blend(f(i, j), f(i, j + 1), f(i + 1, j), f(i + 1, j + 1), xs[i + 1] - u, u - xs[i], ys[j + 1] - v, v - ys[j])
  }

  method BilinearCompute(xs: seq<int>, ys: seq<int>, data: seq<int>, v1: int, v2: int) returns (r: int)
    requires IsGrid(xs, ys) && |data| == |xs| * |ys|
    ensures r == BilinearAt(xs, ys, Rows(data, |ys|), v1, v2)
  {
    var nx, ny := |xs|, |ys|;
    var u, v := v1, v2;
    if u <= xs[0] {
      u := xs[0];
    }
    if u >= xs[nx - 1] {
      u := xs[nx - 1];
    }
    if v <= ys[0] {
      v := ys[0];
    }
    if v >= ys[ny - 1] {
      v := ys[ny - 1];
    }
    var lx := FindCell(xs, u);
    var ly := FindCell(ys, v);
    r := CellValue(xs, ys, data, lx, ly, u, v);
  }

  /** The last part of the bilinear computation: the corners are looked up and weighed. */
  method CellValue(xs: seq<int>, ys: seq<int>, data: seq<int>, lx: nat, ly: nat, u: int, v: int) returns (r: int)
    requires IsGrid(xs, ys) && |data| == |xs| * |ys| && InCell(xs, lx, u) && InCell(ys, ly, v)
    ensures r == BilinearIn(xs, ys, Rows(data, |ys|), lx, ly, u, v)
  {
    hide Mix, Div;
    var nx, ny := |xs|, |ys|;
    var ux, uy := lx + 1, ly + 1;
    IndexInRange(nx, ny, lx, ly);
    IndexInRange(nx, ny, lx, uy);
    IndexInRange(nx, ny, ux, ly);
    IndexInRange(nx, ny, ux, uy);
    var f00, f01 := data[lx * ny + ly], data[lx * ny + uy];
    var f10, f11 := data[ux * ny + ly], data[ux * ny + uy];
    var wx1, wx0 := u - xs[lx], xs[ux] - u;
    var wy1, wy0 := v - ys[ly], ys[uy] - v;
    var denom := (xs[ux] - xs[lx]) * (ys[uy] - ys[ly]);
    var result := f00 * wx0 * wy0 + f10 * wx1 * wy0 + f01 * wx0 * wy1 + f11 * wx1 * wy1;
    WeighedAlike(f00, f01, f10, f11, wx0, wx1, wy0, wy1);
    assert denom == Area(wx0 + wx1, wy0 + wy1);
    r := Div(result, denom);
  }

  lemma IndexInRange(nx: nat, ny: nat, i: nat, j: nat)
    requires i < nx && j < ny
    ensures i * ny + j < nx * ny
  {
    ProductMonotone(i + 1, nx, ny);
  }

  lemma WeighedAlike(f00: int, f01: int, f10: int, f11: int, wx0: int, wx1: int, wy0: int, wy1: int)
    ensures f00 * wx0 * wy0 + f10 * wx1 * wy0 + f01 * wx0 * wy1 + f11 * wx1 * wy1
      == Mix(Mix(f00, f01, wy0, wy1), Mix(f10, f11, wy0, wy1), wx0, wx1)
  {
    assert (f00 * wy0 + f01 * wy1) * wx0 == f00 * wx0 * wy0 + f01 * wx0 * wy1;
    assert (f10 * wy0 + f11 * wy1) * wx1 == f10 * wx1 * wy0 + f11 * wx1 * wy1;
  }

  /** The two axes play the same part. */
  lemma MixSwapped(f00: int, f01: int, f10: int, f11: int, wx0: int, wx1: int, wy0: int, wy1: int)
    ensures Mix(Mix(f00, f01, wy0, wy1), Mix(f10, f11, wy0, wy1), wx0, wx1)
      == Mix(Mix(f00, f10, wx0, wx1), Mix(f01, f11, wx0, wx1), wy0, wy1)
  {
    WeighedAlike(f00, f01, f10, f11, wx0, wx1, wy0, wy1);
    WeighedAlike(f00, f10, f01, f11, wy0, wy1, wx0, wx1);
    SwappedTerm(f00, wx0, wy0);
    SwappedTerm(f10, wx1, wy0);
    SwappedTerm(f01, wx0, wy1);
    SwappedTerm(f11, wx1, wy1);
  }

  lemma SwappedTerm(f: int, a: int, b: int)
    ensures f * a * b == f * b * a
  {
  }

  /** The result is the corners' mean, each weighed by the area opposite to it, cut off toward zero. */
  lemma BilinearIsWeighted(xs: seq<int>, ys: seq<int>, f: Table, i: nat, j: nat, u: int, v: int)
    requires IsGrid(xs, ys) && InCell(xs, i, u) && InCell(ys, j, v)
    ensures var wx0, wx1, wy0, wy1 := xs[i + 1] - u, u - xs[i], ys[j + 1] - v, v - ys[j];
      IsQuotient(f(i, j) * wx0 * wy0 + f(i + 1, j) * wx1 * wy0 + f(i, j + 1) * wx0 * wy1 + f(i + 1, j + 1) * wx1 * wy1,
                 Area(xs[i + 1] - xs[i], ys[j + 1] - ys[j]), BilinearAt(xs, ys, f, u, v))
  {
    hide Mix, Div, Area, IsQuotient, Clamp;
    var wx0, wx1, wy0, wy1 := xs[i + 1] - u, u - xs[i], ys[j + 1] - v, v - ys[j];
    WeighedAlike(f(i, j), f(i, j + 1), f(i + 1, j), f(i + 1, j + 1), wx0, wx1, wy0, wy1);
    assert Clamp(xs, u) == u && Clamp(ys, v) == v by {
      InAxis(xs, i, u);
      InAxis(ys, j, v);
    }
    OneCell(xs, i, Cell(xs, u), u);
    OneCell(ys, j, Cell(ys, v), v);
    TruncatedQuotient(Mix(Mix(f(i, j), f(i, j + 1), wy0, wy1), Mix(f(i + 1, j), f(i + 1, j + 1), wy0, wy1), wx0, wx1),
                      Area(wx0 + wx1, wy0 + wy1));
  }

  lemma InAxis(xs: seq<int>, i: nat, u: int)
    requires Increasing(xs) && InCell(xs, i, u)
    ensures xs[0] <= u <= xs[|xs| - 1]
  {
  }

  lemma TruncatedQuotient(n: int, d: int)
    requires d > 0
    ensures IsQuotient(n, d, Div(n, d))
  {
    hide Div;
    DivIs(n, d, Div(n, d));
  }

  /** Beyond an axis the result is that at its end. */
  lemma BilinearClamped(xs: seq<int>, ys: seq<int>, f: Table, v1: int, v2: int)
    requires IsGrid(xs, ys)
    ensures v1 <= xs[0] ==> BilinearAt(xs, ys, f, v1, v2) == BilinearAt(xs, ys, f, xs[0], v2)
    ensures v1 >= xs[|xs| - 1] ==> BilinearAt(xs, ys, f, v1, v2) == BilinearAt(xs, ys, f, xs[|xs| - 1], v2)
    ensures v2 <= ys[0] ==> BilinearAt(xs, ys, f, v1, v2) == BilinearAt(xs, ys, f, v1, ys[0])
    ensures v2 >= ys[|ys| - 1] ==> BilinearAt(xs, ys, f, v1, v2) == BilinearAt(xs, ys, f, v1, ys[|ys| - 1])
  {
    hide BilinearIn, Cell;
  }

  function Transposed(f: Table): Table {
    (i: nat, j: nat) => f(j, i)
  }

  lemma BlendSwapped(f00: int, f01: int, f10: int, f11: int, wx0: int, wx1: int, wy0: int, wy1: int)
    requires wx0 + wx1 > 0 && wy0 + wy1 > 0
    ensures Blend(f00, f01, f10, f11, wx0, wx1, wy0, wy1) == Blend(f00, f10, f01, f11, wy0, wy1, wx0, wx1)
  {
    hide Mix, Div;
    MixSwapped(f00, f01, f10, f11, wx0, wx1, wy0, wy1);
  }

  lemma BilinearTransposed(xs: seq<int>, ys: seq<int>, f: Table, v1: int, v2: int)
    requires IsGrid(xs, ys)
    ensures BilinearAt(xs, ys, f, v1, v2) == BilinearAt(ys, xs, Transposed(f), v2, v1)
  {
    hide Blend;
    var u, v := Clamp(xs, v1), Clamp(ys, v2);
    var i, j := Cell(xs, u), Cell(ys, v);
    BlendSwapped(f(i, j), f(i, j + 1), f(i + 1, j), f(i + 1, j + 1), xs[i + 1] - u, u - xs[i], ys[j + 1] - v,
        v - ys[j]);
  }

  // ---------------------------------------------------------------- fixed widths

  predicate Within(x: int, bound: int) {
    -bound <= x <= bound
  }

  lemma ProductWithin(f: int, a: nat, bound: nat)
    requires Within(f, bound)
    ensures Within(f * a, bound * a)
  {
    ProductMonotone(f, bound, a);
    ProductMonotone(0 - bound, f, a);
  }

  /**
    In a cell whose differences are 32-bit numbers the linear computation needs 64 bits for its product
    only: quotient and result are between the values at the ends.
    */
  lemma LinearFits(xs: seq<int>, ys: seq<int>, i: nat, v: int)
    requires Increasing(xs) && |ys| == |xs| && InCell(xs, i, v)
    requires xs[i + 1] - xs[i] < 0x8000_0000 && Within(ys[i + 1] - ys[i], 0x7FFF_FFFF)
    ensures Within((ys[i + 1] - ys[i]) * (v - xs[i]), 0x7FFF_FFFF * 0x7FFF_FFFF)
    ensures Within(Div((ys[i + 1] - ys[i]) * (v - xs[i]), xs[i + 1] - xs[i]), 0x7FFF_FFFF)
    ensures ys[i] <= LinearAt(xs, ys, v) <= ys[i + 1] || ys[i + 1] <= LinearAt(xs, ys, v) <= ys[i]
  {
    hide LinearAt, Div;
    ProductWithin(ys[i + 1] - ys[i], v - xs[i], 0x7FFF_FFFF);
    ProductMonotone(v - xs[i], 0x7FFF_FFFF, 0x7FFF_FFFF);
    LinearWithinCell(xs, ys, i, v);
    LinearIsSegment(xs, ys, i, v);
    assert Segment(xs[i], xs[i + 1], ys[i], ys[i + 1], v) ==
      ys[i] + Div((ys[i + 1] - ys[i]) * (v - xs[i]), xs[i + 1] - xs[i]);
  }

  /** No term and no partial sum of the bilinear computation is larger than the largest corner times the area. */
  lemma BilinearFits(f00: int, f01: int, f10: int, f11: int, wx0: nat, wx1: nat, wy0: nat, wy1: nat, bound: nat)
    requires Within(f00, bound) && Within(f01, bound) && Within(f10, bound) && Within(f11, bound)
    requires wx0 + wx1 > 0 && wy0 + wy1 > 0
    ensures var most := bound * Area(wx0 + wx1, wy0 + wy1);
      && Within(f00 * wx0 * wy0, most) && Within(f10 * wx1 * wy0, most)
      && Within(f01 * wx0 * wy1, most) && Within(f11 * wx1 * wy1, most)
      && Within(f00 * wx0 * wy0 + f10 * wx1 * wy0, most)
      && Within(f00 * wx0 * wy0 + f10 * wx1 * wy0 + f01 * wx0 * wy1, most)
      && Within(f00 * wx0 * wy0 + f10 * wx1 * wy0 + f01 * wx0 * wy1 + f11 * wx1 * wy1, most)
  {
    TermFits(f00, wx0, wy0, bound);
    TermFits(f10, wx1, wy0, bound);
    TermFits(f01, wx0, wy1, bound);
    TermFits(f11, wx1, wy1, bound);
    AreaInParts(bound, wx0, wx1, wy0, wy1);
  }

  lemma TermFits(f: int, a: nat, b: nat, bound: nat)
    requires Within(f, bound)
    ensures Within(f * a * b, bound * a * b) && bound * a * b >= 0
  {
    ProductWithin(f, a, bound);
    ProductWithin(f * a, b, bound * a);
  }

  lemma AreaInParts(bound: nat, wx0: nat, wx1: nat, wy0: nat, wy1: nat)
    requires wx0 + wx1 > 0 && wy0 + wy1 > 0
    ensures bound * Area(wx0 + wx1, wy0 + wy1)
      == bound * wx0 * wy0 + bound * wx1 * wy0 + bound * wx0 * wy1 + bound * wx1 * wy1
  {
    assert bound * ((wx0 + wx1) * (wy0 + wy1)) == bound * (wx0 + wx1) * (wy0 + wy1);
    assert bound * (wx0 + wx1) * (wy0 + wy1) == (bound * wx0 + bound * wx1) * (wy0 + wy1);
  }

  // ---------------------------------------------------------------- within the corners, exact at the points

  lemma MixWithin(p: int, q: int, w0: nat, w1: nat, lo: int, hi: int)
    requires lo <= p <= hi && lo <= q <= hi
    ensures lo * (w0 + w1) <= Mix(p, q, w0, w1) <= hi * (w0 + w1)
  {
    ProductMonotone(lo, p, w0);
    ProductMonotone(lo, q, w1);
    ProductMonotone(p, hi, w0);
    ProductMonotone(q, hi, w1);
  }

  lemma BlendWithin(f00: int, f01: int, f10: int, f11: int, wx0: nat, wx1: nat, wy0: nat, wy1: nat, lo: int, hi: int)
    requires wx0 + wx1 > 0 && wy0 + wy1 > 0
    requires lo <= f00 <= hi && lo <= f01 <= hi && lo <= f10 <= hi && lo <= f11 <= hi
    ensures lo <= Blend(f00, f01, f10, f11, wx0, wx1, wy0, wy1) <= hi
  {
    hide Mix, Div;
    var dx, dy := wx0 + wx1, wy0 + wy1;
    MixWithin(f00, f01, wy0, wy1, lo, hi);
    MixWithin(f10, f11, wy0, wy1, lo, hi);
    MixWithin(Mix(f00, f01, wy0, wy1), Mix(f10, f11, wy0, wy1), wx0, wx1, lo * dy, hi * dy);
    assert lo * dy * dx == lo * Area(dx, dy) && hi * dy * dx == hi * Area(dx, dy);
    DivBounds(Mix(Mix(f00, f01, wy0, wy1), Mix(f10, f11, wy0, wy1), wx0, wx1), Area(dx, dy), lo, hi);
  }

  /** The result lies between the smallest and the largest corner of the cell it falls in. */
  lemma BilinearWithinCell(xs: seq<int>, ys: seq<int>, f: Table, v1: int, v2: int, lo: int, hi: int)
    requires IsGrid(xs, ys)
    requires var i, j := Cell(xs, Clamp(xs, v1)), Cell(ys, Clamp(ys, v2));
      lo <= f(i, j) <= hi && lo <= f(i, j + 1) <= hi && lo <= f(i + 1, j) <= hi && lo <= f(i + 1, j + 1) <= hi
    ensures lo <= BilinearAt(xs, ys, f, v1, v2) <= hi
  {
    hide Blend;
    var u, v := Clamp(xs, v1), Clamp(ys, v2);
    var i, j := Cell(xs, u), Cell(ys, v);
    BlendWithin(f(i, j), f(i, j + 1), f(i + 1, j), f(i + 1, j + 1), xs[i + 1] - u, u - xs[i], ys[j + 1] - v,
        v - ys[j], lo, hi);
  }

  /** On the two sides of a cell only the two corners of that side matter. */
  lemma BlendAtSides(f00: int, f01: int, f10: int, f11: int, w: int, wy0: int, wy1: int)
    requires w > 0 && wy0 + wy1 > 0
    ensures Blend(f00, f01, f10, f11, w, 0, wy0, wy1) == Edge(f00, f01, wy0, wy1)
    ensures Blend(f00, f01, f10, f11, 0, w, wy0, wy1) == Edge(f10, f11, wy0, wy1)
  {
    hide Div;
    var a, b := Mix(f00, f01, wy0, wy1), Mix(f10, f11, wy0, wy1);
    MixOfOne(a, b, w);
    DivCancelled(w, a, wy0 + wy1);
    DivCancelled(w, b, wy0 + wy1);
  }

  lemma MixOfOne(a: int, b: int, w: int)
    ensures Mix(a, b, w, 0) == w * a && Mix(a, b, 0, w) == w * b
  {
  }

  lemma EdgeAtEnds(p: int, q: int, w: int)
    requires w > 0
    ensures Edge(p, q, w, 0) == p && Edge(p, q, 0, w) == q
  {
    hide Div;
    MixOfOne(p, q, w);
    DivMultiple(p, w);
    DivMultiple(q, w);
  }

  /** The specification along one grid line: between two neighbouring points of a column of data. */
  ghost function ColumnAt(ys: seq<int>, f: Table, k: nat, v2: int): int
    requires Increasing(ys) && |ys| >= 2
  {
    var v := Clamp(ys, v2);
    var j := Cell(ys, v);
    Edge(f(k, j), f(k, j + 1), ys[j + 1] - v, v - ys[j])
  }

  /** On a grid line the result does not depend on the neighbouring lines. */
  lemma BilinearOnColumn(xs: seq<int>, ys: seq<int>, f: Table, k: nat, v2: int)
    requires IsGrid(xs, ys) && k < |xs|
    ensures BilinearAt(xs, ys, f, xs[k], v2) == ColumnAt(ys, f, k, v2)
  {
    hide Blend, Edge;
    var i := if k + 1 < |xs| then k else k - 1;
    OneCell(xs, Cell(xs, xs[k]), i, xs[k]);
    SideOfCell(xs, ys, f, i, v2);
  }

  lemma SideOfCell(xs: seq<int>, ys: seq<int>, f: Table, i: nat, v2: int)
    requires IsGrid(xs, ys) && i + 1 < |xs|
    ensures var v := Clamp(ys, v2);
      var j := Cell(ys, v);
      var f00, f01, f10, f11 := f(i, j), f(i, j + 1), f(i + 1, j), f(i + 1, j + 1);
      && Blend(f00, f01, f10, f11, xs[i + 1] - xs[i], 0, ys[j + 1] - v, v - ys[j]) == ColumnAt(ys, f, i, v2)
      && Blend(f00, f01, f10, f11, 0, xs[i + 1] - xs[i], ys[j + 1] - v, v - ys[j]) == ColumnAt(ys, f, i + 1, v2)
  {
    hide Blend, Edge;
    var v := Clamp(ys, v2);
    var j := Cell(ys, v);
    BlendAtSides(f(i, j), f(i, j + 1), f(i + 1, j), f(i + 1, j + 1), xs[i + 1] - xs[i], ys[j + 1] - v, v - ys[j]);
  }

  /** At a grid point the result is the tabled value. */
  lemma BilinearExact(xs: seq<int>, ys: seq<int>, f: Table, k: nat, m: nat)
    requires IsGrid(xs, ys) && k < |xs| && m < |ys|
    ensures BilinearAt(xs, ys, f, xs[k], ys[m]) == f(k, m)
  {
    hide Blend, Edge, BilinearAt;
    BilinearOnColumn(xs, ys, f, k, ys[m]);
    var j := if m + 1 < |ys| then m else m - 1;
    OneCell(ys, Cell(ys, ys[m]), j, ys[m]);
    EdgeAtEnds(f(k, j), f(k, j + 1), ys[j + 1] - ys[j]);
  }

  // ---------------------------------------------------------------- monotone

  /** The data rise along the first axis. */
  ghost predicate Rising(f: Table, nx: nat, ny: nat) {
    forall i, j :: 0 <= i && i + 1 < nx && 0 <= j < ny ==> f(i, j) <= f(i + 1, j)
  }

  lemma MixMonotone(p: int, q: int, p': int, q': int, w0: nat, w1: nat)
    requires p <= p' && q <= q'
    ensures Mix(p, q, w0, w1) <= Mix(p', q', w0, w1)
  {
    ProductMonotone(p, p', w0);
    ProductMonotone(q, q', w1);
  }

  lemma MixSlides(a: int, b: int, w0: nat, w1: nat, d: nat)
    requires a <= b && d <= w0
    ensures Mix(a, b, w0, w1) <= Mix(a, b, w0 - d, w1 + d)
  {
    ProductMonotone(a, b, d);
    assert Mix(a, b, w0 - d, w1 + d) == Mix(a, b, w0, w1) + b * d - a * d;
  }

  lemma BlendSlides(f00: int, f01: int, f10: int, f11: int, wx0: nat, wx1: nat, d: nat, wy0: nat, wy1: nat)
    requires wx0 + wx1 > 0 && wy0 + wy1 > 0 && d <= wx0 && f00 <= f10 && f01 <= f11
    ensures Blend(f00, f01, f10, f11, wx0, wx1, wy0, wy1) <= Blend(f00, f01, f10, f11, wx0 - d, wx1 + d, wy0, wy1)
  {
    hide Mix, Div;
    var a, b := Mix(f00, f01, wy0, wy1), Mix(f10, f11, wy0, wy1);
    MixMonotone(f00, f01, f10, f11, wy0, wy1);
    MixSlides(a, b, wx0, wx1, d);
    DivMonotone(Mix(a, b, wx0, wx1), Mix(a, b, wx0 - d, wx1 + d), Area(wx0 + wx1, wy0 + wy1));
  }

  lemma ColumnsRise(ys: seq<int>, f: Table, nx: nat, i: nat, k: nat, v2: int)
    requires Increasing(ys) && |ys| >= 2 && Rising(f, nx, |ys|) && i <= k < nx
    ensures ColumnAt(ys, f, i, v2) <= ColumnAt(ys, f, k, v2)
    decreases k - i
  {
    hide Mix, Div;
    if i < k {
      ColumnsRise(ys, f, nx, i, k - 1, v2);
      var v := Clamp(ys, v2);
      var j := Cell(ys, v);
      MixMonotone(f(k - 1, j), f(k - 1, j + 1), f(k - 1 + 1, j), f(k - 1 + 1, j + 1), ys[j + 1] - v, v - ys[j]);
      DivMonotone(Mix(f(k - 1, j), f(k - 1, j + 1), ys[j + 1] - v, v - ys[j]),
          Mix(f(k, j), f(k, j + 1), ys[j + 1] - v, v - ys[j]), ys[j + 1] - ys[j]);
    }
  }

  /** Between the columns at the sides of its cell. */
  lemma BetweenColumns(xs: seq<int>, ys: seq<int>, f: Table, v1: int, v2: int)
    requires IsGrid(xs, ys) && Rising(f, |xs|, |ys|)
    ensures var i := Cell(xs, Clamp(xs, v1));
      ColumnAt(ys, f, i, v2) <= BilinearAt(xs, ys, f, v1, v2) <= ColumnAt(ys, f, i + 1, v2)
  {
    hide Blend, Edge, ColumnAt;
    var u, v := Clamp(xs, v1), Clamp(ys, v2);
    var i, j := Cell(xs, u), Cell(ys, v);
    SideOfCell(xs, ys, f, i, v2);
    var f00, f01, f10, f11 := f(i, j), f(i, j + 1), f(i + 1, j), f(i + 1, j + 1);
    BlendSlides(f00, f01, f10, f11, xs[i + 1] - xs[i], 0, u - xs[i], ys[j + 1] - v, v - ys[j]);
    BlendSlides(f00, f01, f10, f11, xs[i + 1] - u, u - xs[i], xs[i + 1] - u, ys[j + 1] - v, v - ys[j]);
  }

  /** Data that rise along the first axis give a result that does, in one cell and across cells. */
  lemma BilinearMonotone(xs: seq<int>, ys: seq<int>, f: Table, v1: int, v1': int, v2: int)
    requires IsGrid(xs, ys) && Rising(f, |xs|, |ys|) && v1 <= v1'
    ensures BilinearAt(xs, ys, f, v1, v2) <= BilinearAt(xs, ys, f, v1', v2)
  {
    hide Blend, Edge, ColumnAt;
    var u, u', v := Clamp(xs, v1), Clamp(xs, v1'), Clamp(ys, v2);
    var i, i', j := Cell(xs, u), Cell(xs, u'), Cell(ys, v);
    assert Clamp(xs, v1) <= Clamp(xs, v1');
    CellsInOrder(xs, i, i', u, u');
    if i == i' {
      BlendSlides(f(i, j), f(i, j + 1), f(i + 1, j), f(i + 1, j + 1), xs[i + 1] - u, u - xs[i], u' - u,
          ys[j + 1] - v, v - ys[j]);
    } else {
      BetweenColumns(xs, ys, f, v1, v2);
      BetweenColumns(xs, ys, f, v1', v2);
      ColumnsRise(ys, f, |xs|, i + 1, i', v2);
    }
  }

  /** The same along the second axis. */
  lemma BilinearMonotoneSecond(xs: seq<int>, ys: seq<int>, f: Table, v1: int, v2: int, v2': int)
    requires IsGrid(xs, ys) && v2 <= v2'
    requires forall i, j :: 0 <= i < |xs| && 0 <= j && j + 1 < |ys| ==> f(i, j) <= f(i, j + 1)
    ensures BilinearAt(xs, ys, f, v1, v2) <= BilinearAt(xs, ys, f, v1, v2')
  {
    hide BilinearAt;
    BilinearTransposed(xs, ys, f, v1, v2);
    BilinearTransposed(xs, ys, f, v1, v2');
    BilinearMonotone(ys, xs, Transposed(f), v2, v2', v1);
  }

  // ---------------------------------------------------------------- a grid line against a table of its own

  /** The values of one column as a table. */
  ghost function Column(f: Table, k: nat, ny: nat): (c: seq<int>)
    ensures |c| == ny && forall j :: 0 <= j < ny ==> c[j] == f(k, j)
  {
    seq(ny, j requires 0 <= j => f(k, j))
  }

  /**
    The bilinear computation divides the whole weighed sum, the linear one only the part above the first
    point. Truncation treats the two alike exactly when nothing is cut off or both have the same sign.
    */
  lemma EdgeIsSegmentIff(x0: int, x1: int, p: int, q: int, v: int)
    requires x0 < x1 && x0 <= v <= x1
    ensures Edge(p, q, x1 - v, v - x0) == Segment(x0, x1, p, q, v) <==> CutsAlike(x0, x1, p, q, v)
  {
    var d := x1 - x0;
    var rise := (q - p) * (v - x0);
    var total := Mix(p, q, x1 - v, v - x0);
    TotalIsRise(x0, x1, p, q, v);
    TruncationsAgreeIff(p, rise, d);
  }

  lemma TotalIsRise(x0: int, x1: int, p: int, q: int, v: int)
    ensures Mix(p, q, x1 - v, v - x0) == p * (x1 - x0) + (q - p) * (v - x0)
  {
    assert p * (x1 - v) == p * (x1 - x0) - p * (v - x0);
    assert (q - p) * (v - x0) == q * (v - x0) - p * (v - x0);
  }

  lemma TruncationsAgreeIff(p: int, n: int, d: int)
    requires d > 0
    ensures var s := p * d + n;
      Div(s, d) == p + Div(n, d) <==> n % d == 0 || (n > 0 && s > 0) || (n < 0 && s < 0)
  {
    hide Div;
    var s := p * d + n;
    var q := n / d;
    assert n == q * d + n % d;
    assert s == (p + q) * d + n % d;
    DivByRemainder(n, q, n % d, d);
    DivByRemainder(s, p + q, n % d, d);
  }

  /** Truncating division is the floor, plus one for a negative dividend that is not a multiple. */
  lemma DivByRemainder(a: int, q: int, r: int, d: int)
    requires d > 0 && 0 <= r < d && a == q * d + r
    ensures Div(a, d) == if a < 0 && r > 0 then q + 1 else q
    ensures r > 0 ==> a != 0
  {
    hide Div;
    DivIs(a, d, q);
    DivIs(a, d, q + 1);
    assert (q + 1) * d == q * d + d;
    if a == 0 {
      assert r > 0 ==> q * d != -r;
    }
  }

  /** At a value in a cell: nothing is cut off, or what is cut off has the same sign in both. */
  predicate CutsAlike(x0: int, x1: int, p: int, q: int, v: int)
    requires x0 < x1
  {
    var rise := (q - p) * (v - x0);
    var total := p * (x1 - v) + q * (v - x0);
    rise % (x1 - x0) == 0 || (rise > 0 && total > 0) || (rise < 0 && total < 0)
  }

  /**
    On a grid line the bilinear computation and the linear one on the line's own data agree exactly when
    they cut off alike in the cell the value falls in.
    */
  lemma ColumnIsLinearIff(xs: seq<int>, ys: seq<int>, f: Table, k: nat, v2: int)
    requires IsGrid(xs, ys) && k < |xs|
    ensures var v := Clamp(ys, v2);
      var j := Cell(ys, v);
      BilinearAt(xs, ys, f, xs[k], v2) == LinearAt(ys, Column(f, k, |ys|), v2) <==>
      CutsAlike(ys[j], ys[j + 1], f(k, j), f(k, j + 1), v)
  {
    hide BilinearAt, Edge, Segment, LinearAt;
    BilinearOnColumn(xs, ys, f, k, v2);
    var c := Column(f, k, |ys|);
    var v := Clamp(ys, v2);
    var j := Cell(ys, v);
    LinearClamped(ys, c, v2);
    LinearIsSegment(ys, c, j, v);
    EdgeIsSegmentIff(ys[j], ys[j + 1], c[j], c[j + 1], v);
  }

  /** A column of data that are not negative and do not fall is interpolated as linear interpolation would. */
  lemma ColumnIsLinear(xs: seq<int>, ys: seq<int>, f: Table, k: nat, v2: int)
    requires IsGrid(xs, ys) && k < |xs| && f(k, 0) >= 0 && Nondecreasing(Column(f, k, |ys|))
    ensures BilinearAt(xs, ys, f, xs[k], v2) == LinearAt(ys, Column(f, k, |ys|), v2)
  {
    hide BilinearAt, LinearAt, CutsAlike;
    ColumnIsLinearIff(xs, ys, f, k, v2);
    var c := Column(f, k, |ys|);
    var v := Clamp(ys, v2);
    var j := Cell(ys, v);
    RiseIsNotNegative(ys[j], ys[j + 1], c[j], c[j + 1], v);
  }

  lemma LinearClamped(xs: seq<int>, ys: seq<int>, v: int)
    requires Increasing(xs) && |ys| == |xs|
    ensures LinearAt(xs, ys, v) == LinearAt(xs, ys, Clamp(xs, v))
  {
    hide Segment;
  }

  lemma RiseIsNotNegative(x0: int, x1: int, p: int, q: int, v: int)
    requires x0 <= v <= x1 && x0 < x1 && 0 <= p <= q
    ensures CutsAlike(x0, x1, p, q, v)
  {
    var rise := (q - p) * (v - x0);
    TotalIsRise(x0, x1, p, q, v);
    ProductMonotone(0, q - p, v - x0);
    ProductMonotone(0, p, x1 - x0);
    if rise == 0 {
      RemainderOfSmall(0, x1 - x0);
    }
  }

  /**
    Two tables on which they differ, asked at 1 between 0 and 2: rising data, below zero, and falling data,
    above zero.
    */
  lemma TablesThatDiffer()
    ensures var axis := [0, 2];
      IsGrid(axis, axis)
      && var rising, falling := Rows([-1, 0, -1, 0], 2), Rows([1, 0, 1, 0], 2);
      && BilinearAt(axis, axis, rising, 0, 1) != LinearAt(axis, Column(rising, 0, 2), 1)
      && BilinearAt(axis, axis, falling, 0, 1) != LinearAt(axis, Column(falling, 0, 2), 1)
  {
    hide BilinearAt, LinearAt;
    var axis := [0, 2];
    ColumnIsLinearIff(axis, axis, Rows([-1, 0, -1, 0], 2), 0, 1);
    ColumnIsLinearIff(axis, axis, Rows([1, 0, 1, 0], 2), 0, 1);
    OneCell(axis, Cell(axis, 1), 0, 1);
  }
}
