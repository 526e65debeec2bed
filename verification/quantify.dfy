/** Grid construction and colony-mask thresholds (pyphe/quantify.py): the
    paired x/y positions of a plate grid from its corner coordinates (and,
    corrected, all of its vertices), the mean grid
    spacing with an evenness warning, and the intensity and size thresholds a
    colony mask is cut with. */
module Quantify {
  import opened Results
  import opened Floats

  /** numpy `linspace(a, b, num)`: `num` evenly spaced values from `a` to `b`
      inclusive; a negative count is a ValueError, one sample is `[a]`. */
  function Linspace(a: real, b: real, num: int): (r: Result<seq<real>>)
    ensures r.Err? <==> num < 0
    ensures r.Err? ==> r.error.ValueError?
    ensures r.Ok? ==> |r.value| == num
    ensures r.Ok? && num >= 1 ==> r.value[0] == a
    ensures r.Ok? && num >= 2 ==> r.value[num - 1] == b
    ensures r.Ok? && num >= 2 ==>
      forall i :: 0 <= i < num - 1 ==> r.value[i + 1] - r.value[i] == (b - a) / ((num - 1) as real)
  {
    if num < 0 then Err(ValueError("number of samples must be non-negative"))
    else if num < 2 then Ok(seq(num, _ => a))
    else
      var step := (b - a) / ((num - 1) as real);
      var xs := seq(num, i => if i == num - 1 then b else a + (i as real) * step);
      LastStep(a, b, num);
      Ok(xs)
  }

  /** The last gap of a linspace is the same as all the others. */
  lemma LastStep(a: real, b: real, num: int)
    requires num >= 2
    ensures b - (a + ((num - 2) as real) * ((b - a) / ((num - 1) as real))) == (b - a) / ((num - 1) as real)
  {
    var d := (num - 1) as real;
    var step := (b - a) / d;
    assert step * d == b - a;
    assert ((num - 2) as real) * step == step * d - step;
  }

  /** A grid definition as the gitter step stores it: the number of rows and
      columns and the coordinates of the first and the last vertex. */
  datatype GridDef = GridDef(rows: int, cols: int, x1: real, y1: real, x2: real, y2: real)

  /** The grid points (as written, the paired x/y positions `zip(xpos, ypos)`),
      the mean spacing, and whether the uneven-spacing warning was emitted. */
  datatype Grid = Grid(points: seq<(real, real)>, spacing: real, warned: bool)

  /** `abs(dx - dy) / (0.5 * (dx + dy)) > 0.1` evaluated on numpy floats: a
      zero denominator gives an infinity or NaN instead of an exception. */
  predicate UnevenSpacing(dx: real, dy: real) {
    var diff := if dx - dy < 0.0 then dy - dx else dx - dy;
    Greater(Div(Num(diff), Num(0.5 * (dx + dy))), 0.1)
  }

  function Zip(xs: seq<real>, ys: seq<real>): (r: seq<(real, real)>)
    ensures |r| == if |xs| < |ys| then |xs| else |ys|
    ensures forall i :: 0 <= i < |r| ==> r[i] == (xs[i], ys[i])
  {
    var n := if |xs| < |ys| then |xs| else |ys|;
    seq(n, i requires 0 <= i < n => (xs[i], ys[i]))
  }

  /** `make_grid`: `cols` x-values from x1 to x2 and `rows` y-values from y1
      to y2, paired up; the spacing is read off the first two values of each. */
  function MakeGrid(gd: GridDef): (r: Result<Grid>)
    ensures r.Ok? <==> gd.rows >= 2 && gd.cols >= 2
    ensures r.Err? ==> (r.error.ValueError? <==> gd.rows < 0 || gd.cols < 0)
    ensures r.Err? ==> r.error.ValueError? || r.error.IndexError?
  {
    var xr := Linspace(gd.x1, gd.x2, gd.cols);
    if xr.Err? then Err(xr.error)
    else
      var yr := Linspace(gd.y1, gd.y2, gd.rows);
      if yr.Err? then Err(yr.error)
      else if |xr.value| < 2 then Err(IndexError("index 1 is out of bounds for the x positions"))
      else if |yr.value| < 2 then Err(IndexError("index 1 is out of bounds for the y positions"))
      else
        var xpos := xr.value;
        var ypos := yr.value;
        var dx := xpos[1] - xpos[0];
        var dy := ypos[1] - ypos[0];
        Ok(Grid(Zip(xpos, ypos), 0.5 * (dx + dy), UnevenSpacing(dx, dy)))
  }

  /** The grid `make_grid` builds: min(rows, cols) points from (x1, y1), the
      spacing is the mean of dx = (x2 - x1) / (cols - 1) and
      dy = (y2 - y1) / (rows - 1), and the warning is the evenness test. */
  lemma MakeGridPoints(gd: GridDef)
    requires gd.rows >= 2 && gd.cols >= 2
    ensures MakeGrid(gd).Ok?
    ensures var g := MakeGrid(gd).value;
      var dx := (gd.x2 - gd.x1) / ((gd.cols - 1) as real);
      var dy := (gd.y2 - gd.y1) / ((gd.rows - 1) as real);
      && g.spacing == 0.5 * (dx + dy)
      && (g.warned <==> UnevenSpacing(dx, dy))
      && |g.points| == (if gd.rows < gd.cols then gd.rows else gd.cols)
      && g.points[0] == (gd.x1, gd.y1)
  {
    var xpos := Linspace(gd.x1, gd.x2, gd.cols).value;
    var ypos := Linspace(gd.y1, gd.y2, gd.rows).value;
    assert xpos[1] - xpos[0] == (gd.x2 - gd.x1) / ((gd.cols - 1) as real);
    assert ypos[1] - ypos[0] == (gd.y2 - gd.y1) / ((gd.rows - 1) as real);
  }

  /** Consecutive grid points are dx apart horizontally and dy apart
      vertically. */
  lemma MakeGridSteps(gd: GridDef)
    requires gd.rows >= 2 && gd.cols >= 2
    ensures MakeGrid(gd).Ok?
    ensures var g := MakeGrid(gd).value;
      var dx := (gd.x2 - gd.x1) / ((gd.cols - 1) as real);
      var dy := (gd.y2 - gd.y1) / ((gd.rows - 1) as real);
      forall i :: 0 <= i < |g.points| - 1 ==>
        g.points[i + 1].0 - g.points[i].0 == dx && g.points[i + 1].1 - g.points[i].1 == dy
  {
    var xpos := Linspace(gd.x1, gd.x2, gd.cols).value;
    var ypos := Linspace(gd.y1, gd.y2, gd.rows).value;
    var dx := (gd.x2 - gd.x1) / ((gd.cols - 1) as real);
    var dy := (gd.y2 - gd.y1) / ((gd.rows - 1) as real);
    MakeGridZips(gd);
    var points := MakeGrid(gd).value.points;
    forall i | 0 <= i < |points| - 1
      ensures points[i + 1].0 - points[i].0 == dx && points[i + 1].1 - points[i].1 == dy
    {
      assert points[i] == (xpos[i], ypos[i]) && points[i + 1] == (xpos[i + 1], ypos[i + 1]);
    }
  }

  lemma MakeGridZips(gd: GridDef)
    requires gd.rows >= 2 && gd.cols >= 2
    ensures MakeGrid(gd).Ok?
    ensures MakeGrid(gd).value.points == Zip(Linspace(gd.x1, gd.x2, gd.cols).value, Linspace(gd.y1, gd.y2, gd.rows).value)
  {
  }

  /** As written, `make_grid` pairs the i-th x position with the i-th y
      position: a 2 × 2 grid from (0, 0) to (10, 10) yields only its two
      diagonal corners, and the vertex (10, 0) is not among them. */
  lemma MakeGridMissesVertices()
    ensures var g := MakeGrid(GridDef(2, 2, 0.0, 0.0, 10.0, 10.0));
      && g.Ok? && g.value.points == [(0.0, 0.0), (10.0, 10.0)]
      && (10.0, 0.0) !in g.value.points
  {
    var gd := GridDef(2, 2, 0.0, 0.0, 10.0, 10.0);
    MakeGridZips(gd);
    var xs := Linspace(0.0, 10.0, 2).value;
    assert xs == [0.0, 10.0];
  }

  /** The grid `make_grid`'s docstring describes: every vertex, as one list
      of (x, y) positions per row, with the spacing and the warning. */
  datatype VertexGrid = VertexGrid(vertices: seq<seq<(real, real)>>, spacing: real, warned: bool)

  /** Corrected `make_grid`: "all vertices in the grid", every x position
      with every y position, with the same spacing, warning and failures as
      the code. */
  function GridVertices(gd: GridDef): (r: Result<VertexGrid>)
    ensures r.Ok? <==> gd.rows >= 2 && gd.cols >= 2
    ensures r.Err? ==> Err(r.error) == MakeGrid(gd)
    ensures r.Ok? ==> r.value.spacing == MakeGrid(gd).value.spacing && r.value.warned == MakeGrid(gd).value.warned
    ensures r.Ok? ==> |r.value.vertices| == gd.rows
    ensures r.Ok? ==> forall row :: 0 <= row < gd.rows ==> |r.value.vertices[row]| == gd.cols
    ensures r.Ok? ==> forall row, col :: 0 <= row < gd.rows && 0 <= col < gd.cols ==>
      r.value.vertices[row][col] == (Linspace(gd.x1, gd.x2, gd.cols).value[col], Linspace(gd.y1, gd.y2, gd.rows).value[row])
  {
    var g := MakeGrid(gd);
    if g.Err? then Err(g.error)
    else
      var xpos := Linspace(gd.x1, gd.x2, gd.cols).value;
      var ypos := Linspace(gd.y1, gd.y2, gd.rows).value;
      var vertices := seq(gd.rows, row requires 0 <= row < gd.rows =>
        seq(gd.cols, col requires 0 <= col < gd.cols => (xpos[col], ypos[row])));
      Ok(VertexGrid(vertices, g.value.spacing, g.value.warned))
  }

  /** The points the code yields are the diagonal of the corrected grid: the
      i-th paired position is the vertex in row i and column i. */
  lemma ZipIsDiagonal(gd: GridDef)
    requires gd.rows >= 2 && gd.cols >= 2
    ensures MakeGrid(gd).Ok? && GridVertices(gd).Ok?
    ensures forall i :: 0 <= i < |MakeGrid(gd).value.points| ==>
      i < gd.rows && i < gd.cols && MakeGrid(gd).value.points[i] == GridVertices(gd).value.vertices[i][i]
  {
    MakeGridZips(gd);
  }

  /** The warning in the terms of the spacings themselves: for a grid laid out
      in increasing coordinates it fires exactly when the spacings differ by
      more than a tenth of their mean; equal spacings never warn; with a zero
      mean spacing any difference warns, and a negative mean never does. */
  lemma UnevenSpacingMeaning(dx: real, dy: real)
    ensures dx + dy > 0.0 ==>
      (UnevenSpacing(dx, dy) <==> dx - dy > 0.05 * (dx + dy) || dy - dx > 0.05 * (dx + dy))
    ensures dx + dy == 0.0 ==> (UnevenSpacing(dx, dy) <==> dx != dy)
    ensures dx + dy < 0.0 ==> !UnevenSpacing(dx, dy)
    ensures dx == dy ==> !UnevenSpacing(dx, dy)
  {
    var diff := if dx - dy < 0.0 then dy - dx else dx - dy;
    var m := 0.5 * (dx + dy);
    if m > 0.0 {
      RatioAbove(diff, m);
      assert 0.1 * m == 0.05 * (dx + dy);
    } else if m < 0.0 {
      assert diff / m <= 0.0;
    }
  }

  /** Dividing by a positive denominator keeps the comparison with 0.1. */
  lemma RatioAbove(diff: real, m: real)
    requires m > 0.0
    ensures Div(Num(diff), Num(m)) == Num(diff / m)
    ensures diff / m > 0.1 <==> diff > 0.1 * m
  {
    var q := diff / m;
    assert q * m == diff;
    if q > 0.1 {
      assert q * m > 0.1 * m;
    } else {
      assert q * m <= 0.1 * m;
    }
  }

  /** A square grid (both axes with the same spacing) has that spacing as its
      mean and raises no warning. */
  lemma SquareGrid(gd: GridDef)
    requires gd.rows >= 2 && gd.cols >= 2
    requires (gd.x2 - gd.x1) / ((gd.cols - 1) as real) == (gd.y2 - gd.y1) / ((gd.rows - 1) as real)
    ensures MakeGrid(gd).Ok?
    ensures MakeGrid(gd).value.spacing == (gd.x2 - gd.x1) / ((gd.cols - 1) as real)
    ensures !MakeGrid(gd).value.warned
  {
    var dx := (gd.x2 - gd.x1) / ((gd.cols - 1) as real);
    MakeGridPoints(gd);
    UnevenSpacingMeaning(dx, dx);
  }

  /** With as many rows as columns the last vertex is the far corner. */
  lemma GridEndsAtCorner(gd: GridDef)
    requires gd.rows == gd.cols >= 2
    ensures MakeGrid(gd).Ok?
    ensures MakeGrid(gd).value.points[gd.rows - 1] == (gd.x2, gd.y2)
  {
    var xr := Linspace(gd.x1, gd.x2, gd.cols);
    var yr := Linspace(gd.y1, gd.y2, gd.rows);
    assert Zip(xr.value, yr.value)[gd.rows - 1] == (xr.value[gd.cols - 1], yr.value[gd.rows - 1]);
  }

  /** Python truthiness of an optional threshold argument: `None` and zero
      are false. */
  predicate Given(hard: Option<Value>) {
    hard.Some? && Truthy(hard.value)
  }

  /** The minimum component size in `make_mask`: a truthy hard threshold wins,
      otherwise `s` times a hundred-thousandth of the image area. */
  function SizeThreshold(s: real, height: nat, width: nat, hard: Option<Value>): (r: Value)
    ensures Given(hard) ==> r == hard.value
    ensures !Given(hard) ==> r.Num? && r.v * 100000.0 == s * (height as real) * (width as real)
  {
    if Given(hard) then hard.value
    else Num(s * (height as real) * (width as real) * 0.00001)
  }

  /** A hard size threshold of zero is no override: the computed default is
      used, as if none had been given. */
  lemma ZeroSizeOverrideFallsBack(s: real, height: nat, width: nat)
    ensures SizeThreshold(s, height, width, Some(Num(0.0))) == SizeThreshold(s, height, width, None)
    ensures !Given(Some(Num(0.0)))
  {
  }

  /** The intensity threshold of `make_mask` as written: without a truthy hard
      threshold it multiplies `t` with the function `threshold_otsu` itself,
      which raises a TypeError. */
  function ImageThresholdAsWritten(t: real, hard: Option<Value>): (r: Result<Value>)
    ensures r.Ok? <==> Given(hard)
    ensures r.Ok? ==> r.value == hard.value
    ensures r.Err? ==> r.error.TypeError?
  {
    if Given(hard) then Ok(hard.value)
    else Err(TypeError("unsupported operand type(s) for *: 'int' and 'function'"))
  }

  /** The default threshold cannot be computed by the code as written: every
      call without a hard threshold fails. */
  lemma DefaultImageThresholdFails(t: real, otsu: Value)
    ensures ImageThresholdAsWritten(t, None).Err?
    ensures ImageThresholdAsWritten(t, Some(Num(0.0))).Err?
    ensures ImageThreshold(t, None, otsu) == Scale(t, otsu)
  {
  }

  /** The intensity threshold as intended: a truthy hard threshold, otherwise
      `t` times Otsu's threshold of the image, which is passed in as `otsu`. */
  function ImageThreshold(t: real, hard: Option<Value>, otsu: Value): (r: Value)
    ensures Given(hard) ==> r == hard.value
    ensures !Given(hard) && otsu.Num? ==> r == Num(t * otsu.v)
    ensures !Given(hard) && t == 1.0 ==> r == otsu
  {
    if Given(hard) then hard.value else Scale(t, otsu)
  }

  /** The intended threshold agrees with the code as written wherever the
      latter succeeds, and the default factor `t = 1` gives Otsu's threshold. */
  lemma ImageThresholdExtendsAsWritten(t: real, hard: Option<Value>, otsu: Value)
    ensures ImageThresholdAsWritten(t, hard).Ok? ==> ImageThresholdAsWritten(t, hard).value == ImageThreshold(t, hard, otsu)
    ensures !Given(hard) ==> ImageThreshold(1.0, hard, otsu) == otsu
  {
  }

  /** `pixel > thresh` against a threshold that may be NaN or infinite. */
  predicate Above(pixel: real, thresh: Value) {
    match thresh
    case Num(v) => pixel > v
    case NaN => false
    case PosInf => false
    case NegInf => true
  }

  /** A numpy image of `width` columns: every row has that many pixels. */
  predicate Rectangular(image: seq<seq<real>>, width: nat) {
    forall i :: 0 <= i < |image| ==> |image[i]| == width
  }

  /** `image > thresh`: the pixelwise comparison, of the image's shape. */
  function Threshold(image: seq<seq<real>>, width: nat, thresh: Value): (mask: seq<seq<bool>>)
    requires Rectangular(image, width)
    ensures |mask| == |image|
    ensures forall i :: 0 <= i < |mask| ==> |mask[i]| == width
    ensures forall i, j :: 0 <= i < |mask| && 0 <= j < width ==> (mask[i][j] <==> Above(image[i][j], thresh))
  {
    seq(|image|, i requires 0 <= i < |image| => seq(width, j requires 0 <= j < width => Above(image[i][j], thresh)))
  }

  /** A higher threshold selects fewer pixels. */
  lemma ThresholdMonotone(image: seq<seq<real>>, width: nat, lo: real, hi: real, i: nat, j: nat)
    requires Rectangular(image, width)
    requires lo <= hi && i < |image| && j < width
    ensures Threshold(image, width, Num(hi))[i][j] ==> Threshold(image, width, Num(lo))[i][j]
  {
  }

  /** The thresholding half of `make_mask`: the foreground mask before small
      objects and border-touching components are removed, and the minimum
      component size those steps would use. */
  datatype MaskPlan = MaskPlan(foreground: seq<seq<bool>>, minSize: Value)

  function MakeMask(image: seq<seq<real>>, width: nat, t: real, s: real,
                    hardImage: Option<Value>, hardSize: Option<Value>, otsu: Value): (r: MaskPlan)
    requires Rectangular(image, width)
    ensures |r.foreground| == |image|
    ensures forall i, j :: 0 <= i < |image| && 0 <= j < width ==>
      |r.foreground[i]| == width && (r.foreground[i][j] <==> Above(image[i][j], ImageThreshold(t, hardImage, otsu)))
    ensures r.minSize == SizeThreshold(s, |image|, width, hardSize)
  {
    MaskPlan(Threshold(image, width, ImageThreshold(t, hardImage, otsu)), SizeThreshold(s, |image|, width, hardSize))
  }
}
