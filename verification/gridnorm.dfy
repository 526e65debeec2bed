/** Reference-grid normalisation of one plate (`Plate.grid_normalisation` in
    pyphe/analysis.py): place the control colonies in a grid table, flag the
    neighbourhood of missing controls, optionally drop interior outliers, build
    the reference surface and divide the data by it.

    The numerical parts the method delegates to numpy and scipy are inputs: the
    mean and standard deviation of the grid values used for z-scores, and the
    cubic interpolation (`griddata`) of the reference surface at the positions
    without a grid value. The interpolation is given the final grid and may
    fail, as scipy does when the retained controls cannot be triangulated. */
module GridNorm {
  import opened Results
  import opened Floats
  import opened Frames

  /** A control colony counts as missing when its value is NaN or zero. */
  predicate IsMissing(x: Value) {
    x.IsNull() || x == Num(0.0)
  }

  /** A pandas plate table: exactly one value per plate position. */
  predicate IsPlateFrame(sh: Shape, f: Frame) {
    f.Keys == Cells(sh)
  }

  /** Every listed position lies on the plate. */
  predicate AllOnPlate(sh: Shape, gridpos: seq<Pos>) {
    forall i :: 0 <= i < |gridpos| ==> InPlate(sh, gridpos[i])
  }

  // ---------------------------------------------------------------------------
  // Placing the control colonies
  // ---------------------------------------------------------------------------

  /** The grid table: NaN everywhere, then the data value copied in at each
      listed position in list order. Reading a position the data does not
      have raises KeyError at the first such position. */
  function PlaceGrid(sh: Shape, data: Frame, gridpos: seq<Pos>): (r: Result<Frame>)
    requires IsPlateFrame(sh, data)
    ensures r.Ok? <==> AllOnPlate(sh, gridpos)
    ensures r.Err? ==> r.error.KeyError?
    ensures r.Ok? ==> IsPlateFrame(sh, r.value)
    ensures r.Ok? ==> forall p :: p in r.value ==> r.value[p] == if p in gridpos then data[p] else NaN
    decreases |gridpos|
  {
    if |gridpos| == 0 then
      Ok(map p | p in Cells(sh) :: NaN)
    else
      var init := gridpos[..|gridpos| - 1];
      var g :- PlaceGrid(sh, data, init);
      var p := gridpos[|gridpos| - 1];
      assert gridpos == init + [p];
      if p !in data then Err(KeyError("grid position not on the plate"))
      else Ok(g[p := data[p]])
  }

  // ---------------------------------------------------------------------------
  // Missing controls and the near-missing mask
  // ---------------------------------------------------------------------------

  /** The state of the scan over the listed positions: the grid with missing
      controls set to NaN, the positions marked so far (possibly off the
      plate), and the number of missing entries seen. */
  datatype MissingScan = MissingScan(grid: Frame, marked: set<Pos>, count: nat)

  /** The indices of the list whose control is missing. A position listed
      twice is counted twice. */
  function MissingIndices(grid: Frame, gridpos: seq<Pos>): set<nat>
  {
    set i: nat | i < |gridpos| && gridpos[i] in grid && IsMissing(grid[gridpos[i]])
  }

  /** Some listed missing control lies within Chebyshev distance one of `q`. */
  predicate NearSomeMissing(grid: Frame, gridpos: seq<Pos>, q: Pos) {
    exists i :: 0 <= i < |gridpos| && gridpos[i] in grid && IsMissing(grid[gridpos[i]]) && Near(q, gridpos[i])
  }

  lemma MissingIndicesSnoc(grid: Frame, gridpos: seq<Pos>, p: Pos)
    requires p in grid
    ensures MissingIndices(grid, gridpos + [p]) ==
      MissingIndices(grid, gridpos) + (if IsMissing(grid[p]) then {|gridpos|} else {})
  {
    var gp := gridpos + [p];
    forall i: nat | i < |gridpos| ensures gp[i] == gridpos[i] { }
  }

  lemma NearSomeMissingSnoc(grid: Frame, gridpos: seq<Pos>, p: Pos)
    requires p in grid
    ensures forall q :: NearSomeMissing(grid, gridpos + [p], q) <==>
      NearSomeMissing(grid, gridpos, q) || (IsMissing(grid[p]) && Near(q, p))
  {
    var gp := gridpos + [p];
    forall q ensures NearSomeMissing(grid, gp, q) ==>
      NearSomeMissing(grid, gridpos, q) || (IsMissing(grid[p]) && Near(q, p)) {
      if NearSomeMissing(grid, gp, q) {
        var i :| 0 <= i < |gp| && gp[i] in grid && IsMissing(grid[gp[i]]) && Near(q, gp[i]);
        if i < |gridpos| {
          assert gridpos[i] == gp[i];
        }
      }
    }
    forall q | NearSomeMissing(grid, gridpos, q) ensures NearSomeMissing(grid, gp, q) {
      var i :| 0 <= i < |gridpos| && gridpos[i] in grid && IsMissing(grid[gridpos[i]]) && Near(q, gridpos[i]);
      assert gp[i] == gridpos[i];
    }
    forall q | IsMissing(grid[p]) && Near(q, p) ensures NearSomeMissing(grid, gp, q) {
      assert gp[|gridpos|] == p;
    }
  }

  /** The loop over the listed positions: a missing control is counted, set to
      NaN in the grid, and its whole 3x3 neighbourhood is marked. */
  function ScanMissing(grid: Frame, gridpos: seq<Pos>): (s: MissingScan)
    requires forall i :: 0 <= i < |gridpos| ==> gridpos[i] in grid
    ensures s.grid.Keys == grid.Keys
    ensures forall q :: q in grid ==>
      s.grid[q] == if q in gridpos && IsMissing(grid[q]) then NaN else grid[q]
    ensures forall q :: q in s.marked <==> NearSomeMissing(grid, gridpos, q)
    ensures s.count == |MissingIndices(grid, gridpos)|
    decreases |gridpos|
  {
    if |gridpos| == 0 then
      MissingScan(grid, {}, 0)
    else
      var init := gridpos[..|gridpos| - 1];
      var p := gridpos[|gridpos| - 1];
      assert gridpos == init + [p];
      assert forall q :: q in gridpos <==> q in init || q == p;
      var s := ScanMissing(grid, init);
      MissingIndicesSnoc(grid, init, p);
      assert |gridpos| - 1 !in MissingIndices(grid, init);
      NearSomeMissingSnoc(grid, init, p);
      if IsMissing(s.grid[p]) then
        MissingScan(s.grid[p := NaN], s.marked + Neighbourhood(p), s.count + 1)
      else
        s
  }

  /** The near-missing flags: the marks restricted to the plate, since marks
      falling outside the plate are dropped. */
  function NearMissing(sh: Shape, marked: set<Pos>): (flags: set<Pos>)
    ensures forall q :: q in flags <==> q in marked && InPlate(sh, q)
  {
    marked * Cells(sh)
  }

  // ---------------------------------------------------------------------------
  // Outlier removal
  // ---------------------------------------------------------------------------

  /** `abs((g - mu) / sigma) > k`; a NaN z-score is never an outlier. */
  predicate IsOutlier(g: Value, mu: Value, sigma: Value, k: real) {
    Greater(Abs(Div(Sub(g, mu), sigma)), k)
  }

  /** The positions of the first column, first row, last column and last row,
      in the order the source clears them from the z-score mask. */
  function EdgeMask(sh: Shape): set<Pos>
    requires |sh.rows| > 0 && |sh.cols| > 0
  {
    var firstRow, lastRow := sh.rows[0], sh.rows[|sh.rows| - 1];
    var firstCol, lastCol := sh.cols[0], sh.cols[|sh.cols| - 1];
    (set r | r in sh.rows :: Pos(r, firstCol))
      + (set c | c in sh.cols :: Pos(firstRow, c))
      + (set r | r in sh.rows :: Pos(r, lastCol))
      + (set c | c in sh.cols :: Pos(lastRow, c))
  }

  /** Set the interior grid outliers to NaN. Positional indexing of the first
      and last row and column raises IndexError on a plate without rows or
      columns. */
  function RemoveGridOutliers(sh: Shape, grid: Frame, mu: Value, sigma: Value, k: real): (r: Result<Frame>)
    requires IsPlateFrame(sh, grid)
    ensures r.Err? <==> |sh.rows| == 0 || |sh.cols| == 0
    ensures r.Err? ==> r.error.IndexError?
    ensures r.Ok? ==> IsPlateFrame(sh, r.value)
    ensures r.Ok? ==> forall p :: p in grid ==>
      r.value[p] == if !OnEdge(sh, p) && IsOutlier(grid[p], mu, sigma, k) then NaN else grid[p]
  {
    if |sh.rows| == 0 || |sh.cols| == 0 then
      Err(IndexError("empty plate"))
    else
      var zMask := set p | p in grid && IsOutlier(grid[p], mu, sigma, k);
      var mask := zMask - EdgeMask(sh);
      assert forall p :: p in grid ==> (p in EdgeMask(sh) <==> OnEdge(sh, p)) by {
        forall p | p in grid && OnEdge(sh, p) ensures p in EdgeMask(sh) {
          assert p.row in sh.rows && p.col in sh.cols;
          if p.col == sh.cols[0] {
            assert p == Pos(p.row, sh.cols[0]);
          } else if p.row == sh.rows[0] {
            assert p == Pos(sh.rows[0], p.col);
          } else if p.col == sh.cols[|sh.cols| - 1] {
            assert p == Pos(p.row, sh.cols[|sh.cols| - 1]);
          } else {
            assert p == Pos(sh.rows[|sh.rows| - 1], p.col);
          }
        }
      }
      Ok(map p | p in grid :: if p in mask then NaN else grid[p])
  }

  /** Outlier removal only ever clears values, and never on the plate's edge. */
  lemma OutliersKeepEdges(sh: Shape, grid: Frame, mu: Value, sigma: Value, k: real, p: Pos)
    requires IsPlateFrame(sh, grid) && p in grid
    requires RemoveGridOutliers(sh, grid, mu, sigma, k).Ok?
    ensures var g := RemoveGridOutliers(sh, grid, mu, sigma, k).value;
      && (OnEdge(sh, p) ==> g[p] == grid[p])
      && (g[p] == grid[p] || g[p].IsNull())
  {
  }

  // ---------------------------------------------------------------------------
  // Reference surface and corrected values
  // ---------------------------------------------------------------------------

  /** The reference surface: the grid value wherever the grid has one (infinite
      values included, since only NaN is dropped), and the interpolated value
      at every other position. */
  function ReferenceSurface(grid: Frame, interpolated: Pos -> Value): (ref: Frame)
    ensures ref.Keys == grid.Keys
    ensures forall p :: p in grid && !grid[p].IsNull() ==> ref[p] == grid[p]
    ensures forall p :: p in grid && grid[p].IsNull() ==> ref[p] == interpolated(p)
  {
    var retained := set p | p in grid && !grid[p].IsNull();
    var toInterpolate := set p | p in grid && grid[p].IsNull();
    map p | p in retained + toInterpolate :: if p in retained then grid[p] else interpolated(p)
  }

  /** Data divided by the reference surface, with the flagged positions set to
      NaN when `setMissingNan` is on. */
  function Correct(data: Frame, ref: Frame, flags: set<Pos>, setMissingNan: bool): (c: Frame)
    requires ref.Keys == data.Keys
    ensures c.Keys == data.Keys
    ensures forall p :: p in c && setMissingNan && p in flags ==> c[p].IsNull()
    ensures forall p :: p in c && !(setMissingNan && p in flags) ==> c[p] == Div(data[p], ref[p])
  {
    map p | p in data :: if setMissingNan && p in flags then NaN else Div(data[p], ref[p])
  }

  // ---------------------------------------------------------------------------
  // The whole method
  // ---------------------------------------------------------------------------

  /** The tables the method stores in the plate's pos_data. */
  datatype GridResult = GridResult(
    nearMissing: set<Pos>,   // 'Near_missing_grid'
    missingCount: nat,       // nan_zero_count, reported on the console
    grid: Frame,             // 'Grid'
    reference: Frame,        // 'Reference_surface'
    corrected: Frame)        // outkey, 'Colony_size_corr' by default

  /** A control that survives into the grid: listed, not missing, and not an
      interior outlier when outliers are removed. */
  predicate Retained(sh: Shape, data: Frame, gridpos: seq<Pos>, removeOutliers: bool,
                     mu: Value, sigma: Value, k: real, p: Pos)
    requires p in data
  {
    && p in gridpos
    && !IsMissing(data[p])
    && !(removeOutliers && !OnEdge(sh, p) && IsOutlier(data[p], mu, sigma, k))
  }

  /** The grid the method ends up with, stated directly: the data value at
      every retained control and NaN everywhere else. */
  function RetainedGrid(sh: Shape, data: Frame, gridpos: seq<Pos>, removeOutliers: bool,
                        mu: Value, sigma: Value, k: real): Frame
  {
    map p | p in data :: if Retained(sh, data, gridpos, removeOutliers, mu, sigma, k, p) then data[p] else NaN
  }

  /** The tables the method has built before it interpolates. */
  datatype Prepared = Prepared(nearMissing: set<Pos>, missingCount: nat, grid: Frame)

  /** The steps up to `self.pos_data['Grid'] = grid`: place the controls,
      flag the neighbourhood of missing ones and, if asked, clear interior
      outliers. */
  function PrepareGrid(sh: Shape, data: Frame, gridpos: seq<Pos>, removeOutliers: bool,
                       mu: Value, sigma: Value, k: real): (r: Result<Prepared>)
    requires IsPlateFrame(sh, data)
    ensures r.Ok? <==> AllOnPlate(sh, gridpos) && !(removeOutliers && (|sh.rows| == 0 || |sh.cols| == 0))
    ensures !AllOnPlate(sh, gridpos) ==> r.Err? && r.error.KeyError?
    ensures AllOnPlate(sh, gridpos) && removeOutliers && (|sh.rows| == 0 || |sh.cols| == 0) ==>
      r.Err? && r.error.IndexError?
    ensures r.Ok? ==>
      var pr := r.value;
      && (forall q :: q in pr.nearMissing <==> InPlate(sh, q) && NearSomeMissing(data, gridpos, q))
      && pr.missingCount == |MissingIndices(data, gridpos)|
      && IsPlateFrame(sh, pr.grid)
      && (forall p :: p in data ==>
            pr.grid[p] == if Retained(sh, data, gridpos, removeOutliers, mu, sigma, k, p) then data[p] else NaN)
      && pr.grid == RetainedGrid(sh, data, gridpos, removeOutliers, mu, sigma, k)
  {
    var placedR := PlaceGrid(sh, data, gridpos);
    if placedR.Err? then Err(placedR.error)
    else
      var placed := placedR.value;
      var scan := ScanMissing(placed, gridpos);
      var flags := NearMissing(sh, scan.marked);
      var gridR := if removeOutliers then RemoveGridOutliers(sh, scan.grid, mu, sigma, k) else Ok(scan.grid);
      if gridR.Err? then Err(gridR.error)
      else
        var grid := gridR.value;
        PlacedAgrees(sh, data, gridpos, placed);
        GridIsRetained(sh, data, gridpos, removeOutliers, mu, sigma, k, grid);
        Ok(Prepared(flags, scan.count, grid))
  }

  /** `grid_normalisation` without corner extrapolation. `interpolate` stands
      for `griddata` on a grid: the interpolated value at each position, or
      the exception scipy raises. The first failing step decides the error:
      KeyError for a listed position that is not in the table, IndexError
      for outlier removal on a table without rows or columns, then the
      interpolation's own. */
  function GridNormalisation(sh: Shape, data: Frame, gridpos: seq<Pos>, setMissingNan: bool,
                             removeOutliers: bool, mu: Value, sigma: Value, k: real,
                             interpolate: Frame -> Result<Pos -> Value>): (r: Result<GridResult>)
    requires IsPlateFrame(sh, data)
    ensures r.Ok? <==>
      && AllOnPlate(sh, gridpos)
      && !(removeOutliers && (|sh.rows| == 0 || |sh.cols| == 0))
      && interpolate(RetainedGrid(sh, data, gridpos, removeOutliers, mu, sigma, k)).Ok?
    ensures !AllOnPlate(sh, gridpos) ==> r.Err? && r.error.KeyError?
    ensures AllOnPlate(sh, gridpos) && removeOutliers && (|sh.rows| == 0 || |sh.cols| == 0) ==>
      r.Err? && r.error.IndexError?
    ensures AllOnPlate(sh, gridpos) && !(removeOutliers && (|sh.rows| == 0 || |sh.cols| == 0)) && r.Err? ==>
      Err(r.error) == interpolate(RetainedGrid(sh, data, gridpos, removeOutliers, mu, sigma, k))
    ensures r.Ok? ==>
      var res := r.value;
      && IsPlateFrame(sh, res.grid) && IsPlateFrame(sh, res.reference) && IsPlateFrame(sh, res.corrected)
      // a position is flagged iff it is on the plate next to a missing control
      && (forall q :: q in res.nearMissing <==> InPlate(sh, q) && NearSomeMissing(data, gridpos, q))
      && res.missingCount == |MissingIndices(data, gridpos)|
      // the grid keeps exactly the retained controls
      && res.grid == RetainedGrid(sh, data, gridpos, removeOutliers, mu, sigma, k)
  {
    var pr := PrepareGrid(sh, data, gridpos, removeOutliers, mu, sigma, k);
    if pr.Err? then Err(pr.error)
    else
      var interpolated := interpolate(pr.value.grid);
      if interpolated.Err? then Err(interpolated.error)
      else
        var ref := ReferenceSurface(pr.value.grid, interpolated.value);
        var corrected := Correct(data, ref, pr.value.nearMissing, setMissingNan);
        Ok(GridResult(pr.value.nearMissing, pr.value.missingCount, pr.value.grid, ref, corrected))
  }

  /** At each position of the plate: the grid holds the control if it is
      retained and NaN otherwise; the reference surface is the grid value
      where there is one and the interpolation elsewhere; the corrected value
      is NaN where flagged under `setMissingNan` and data over reference
      otherwise. */
  lemma NormalisedAt(sh: Shape, data: Frame, gridpos: seq<Pos>, setMissingNan: bool,
                     removeOutliers: bool, mu: Value, sigma: Value, k: real,
                     interpolate: Frame -> Result<Pos -> Value>, p: Pos)
    requires IsPlateFrame(sh, data) && p in data
    requires GridNormalisation(sh, data, gridpos, setMissingNan, removeOutliers, mu, sigma, k, interpolate).Ok?
    ensures var res := GridNormalisation(sh, data, gridpos, setMissingNan, removeOutliers, mu, sigma, k, interpolate).value;
      && interpolate(res.grid).Ok?
      && res.grid[p] == (if Retained(sh, data, gridpos, removeOutliers, mu, sigma, k, p) then data[p] else NaN)
      && (!res.grid[p].IsNull() ==> res.reference[p] == res.grid[p])
      && (res.grid[p].IsNull() ==> res.reference[p] == interpolate(res.grid).value(p))
      && (setMissingNan && p in res.nearMissing ==> res.corrected[p].IsNull())
      && (!(setMissingNan && p in res.nearMissing) ==> res.corrected[p] == Div(data[p], res.reference[p]))
  {
  }

  /** A table with the data's positions that holds the retained controls and
      NaN elsewhere is the retained grid. */
  lemma GridIsRetained(sh: Shape, data: Frame, gridpos: seq<Pos>, removeOutliers: bool,
                       mu: Value, sigma: Value, k: real, grid: Frame)
    requires grid.Keys == data.Keys
    requires forall p :: p in data ==>
      grid[p] == if Retained(sh, data, gridpos, removeOutliers, mu, sigma, k, p) then data[p] else NaN
    ensures grid == RetainedGrid(sh, data, gridpos, removeOutliers, mu, sigma, k)
  {
  }

  /** The placed grid has the same missing controls as the data. */
  lemma PlacedAgrees(sh: Shape, data: Frame, gridpos: seq<Pos>, placed: Frame)
    requires IsPlateFrame(sh, data) && PlaceGrid(sh, data, gridpos) == Ok(placed)
    ensures MissingIndices(placed, gridpos) == MissingIndices(data, gridpos)
    ensures forall q :: NearSomeMissing(placed, gridpos, q) <==> NearSomeMissing(data, gridpos, q)
  {
    assert forall i :: 0 <= i < |gridpos| ==> gridpos[i] in data && placed[gridpos[i]] == data[gridpos[i]];
  }

  /** A retained control that is finite, non-zero and not flagged is divided by
      its own value: its corrected value is exactly one. */
  lemma RetainedControlCorrectsToOne(sh: Shape, data: Frame, gridpos: seq<Pos>, setMissingNan: bool,
                                     removeOutliers: bool, mu: Value, sigma: Value, k: real,
                                     interpolate: Frame -> Result<Pos -> Value>, p: Pos)
    requires IsPlateFrame(sh, data) && p in data
    requires GridNormalisation(sh, data, gridpos, setMissingNan, removeOutliers, mu, sigma, k, interpolate).Ok?
    requires Retained(sh, data, gridpos, removeOutliers, mu, sigma, k, p) && data[p].Num?
    requires !(setMissingNan && p in GridNormalisation(sh, data, gridpos, setMissingNan, removeOutliers, mu, sigma, k, interpolate).value.nearMissing)
    ensures GridNormalisation(sh, data, gridpos, setMissingNan, removeOutliers, mu, sigma, k, interpolate).value.corrected[p] == Num(1.0)
  {
    NormalisedAt(sh, data, gridpos, setMissingNan, removeOutliers, mu, sigma, k, interpolate, p);
    DivSelf(data[p]);
  }

  /** A listed control that is missing flags itself: with `setMissingNan` its
      corrected value is NaN. */
  lemma MissingControlIsFlagged(sh: Shape, data: Frame, gridpos: seq<Pos>, setMissingNan: bool,
                                removeOutliers: bool, mu: Value, sigma: Value, k: real,
                                interpolate: Frame -> Result<Pos -> Value>, i: nat)
    requires IsPlateFrame(sh, data)
    requires GridNormalisation(sh, data, gridpos, setMissingNan, removeOutliers, mu, sigma, k, interpolate).Ok?
    requires i < |gridpos| && IsMissing(data[gridpos[i]])
    ensures gridpos[i] in GridNormalisation(sh, data, gridpos, setMissingNan, removeOutliers, mu, sigma, k, interpolate).value.nearMissing
    ensures setMissingNan ==>
      GridNormalisation(sh, data, gridpos, setMissingNan, removeOutliers, mu, sigma, k, interpolate).value.corrected[gridpos[i]].IsNull()
  {
    assert Near(gridpos[i], gridpos[i]);
    assert gridpos[i] in data;
    NormalisedAt(sh, data, gridpos, setMissingNan, removeOutliers, mu, sigma, k, interpolate, gridpos[i]);
  }
}
