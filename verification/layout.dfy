/** The reference-grid position lists and the input-type and normalisation
    dispatch of the analysis command (`pyphe_cmd` in pyphe/analysis.py). */
module Layout {
  import opened Results
  import opened Frames

  // ---------------------------------------------------------------------------
  // Python's range(start, stop, step) and the nested list comprehension
  // [(row, col) for row in rows for col in cols]
  // ---------------------------------------------------------------------------

  /** The number of values `range(start, stop, step)` yields. */
  function RangeCount(start: int, stop: int, step: nat): nat
    requires step > 0
  {
    if start >= stop then 0 else (stop - start - 1) / step + 1
  }

  function Range(start: int, stop: int, step: nat): (r: seq<int>)
    requires step > 0
  {
    seq(RangeCount(start, stop, step), i requires 0 <= i => start + i * step)
  }

  lemma {:induction false} MulAtLeast(m: nat, d: int)
    requires d >= 1
    ensures m * d >= m
    decreases d
  {
    if d > 1 {
      MulAtLeast(m, d - 1);
      assert m * d == m * (d - 1) + m;
    }
  }

  lemma {:induction false} MulAtMost(m: nat, d: int)
    requires d <= -1
    ensures m * d <= -(m as int)
    decreases -d
  {
    if d < -1 {
      MulAtMost(m, d + 1);
      assert m * d == m * (d + 1) - m;
    }
  }

  /** Euclidean division has a unique quotient and remainder. */
  lemma DivModUnique(a: int, m: nat, q: int, r: int)
    requires m > 0 && 0 <= r < m && a == m * q + r
    ensures a % m == r && a / m == q
  {
    var q' := a / m;
    var r' := a % m;
    var d := q - q';
    assert m * d == r' - r by {
      assert m * q - m * q' == m * d;
    }
    if d >= 1 {
      MulAtLeast(m, d);
    } else if d <= -1 {
      MulAtMost(m, d);
    }
  }

  lemma MulMonotone(m: nat, i: int, j: int)
    requires i <= j
    ensures m * i <= m * j
  {
    if i < j {
      MulAtLeast(m, j - i);
      assert m * j - m * i == m * (j - i);
    }
  }

  lemma DivMonotone(a: int, b: int, m: nat)
    requires m > 0 && a <= b
    ensures a / m <= b / m
  {
    if a / m > b / m {
      assert m * (b / m + 1) == m * (b / m) + m;
      MulMonotone(m, b / m + 1, a / m);
    }
  }

  /** Membership in a range: at least `start`, below `stop`, and on the step. */
  lemma RangeMembers(start: int, stop: int, step: nat, x: int)
    requires step > 0
    ensures x in Range(start, stop, step) <==> start <= x < stop && (x - start) % step == 0
  {
    var r := Range(start, stop, step);
    if x in r {
      var i :| 0 <= i < |r| && r[i] == x;
      RangeElement(start, stop, step, i);
    }
    if start <= x < stop && (x - start) % step == 0 {
      var i := (x - start) / step;
      RangeHit(start, stop, step, x);
      assert r[i] == x;
    }
  }

  /** The i-th value of a range lies in it and on the step. */
  lemma RangeElement(start: int, stop: int, step: nat, i: int)
    requires step > 0 && 0 <= i < RangeCount(start, stop, step)
    ensures start <= start + i * step < stop && (i * step) % step == 0
  {
    DivModUnique(i * step, step, i, 0);
    MulMonotone(step, i, (stop - start - 1) / step);
  }

  /** A value in the range and on the step is the range's value at index
      (x - start) / step. */
  lemma RangeHit(start: int, stop: int, step: nat, x: int)
    requires step > 0 && start <= x < stop && (x - start) % step == 0
    ensures 0 <= (x - start) / step < RangeCount(start, stop, step)
    ensures start + (x - start) / step * step == x
  {
    DivMonotone(x - start, stop - start - 1, step);
  }


  /** A range never repeats a value. */
  lemma RangeDistinct(start: int, stop: int, step: nat)
    requires step > 0
    ensures Distinct(Range(start, stop, step))
  {
    var r := Range(start, stop, step);
    forall i, j | 0 <= i < j < |r| ensures r[i] != r[j] {
      MulAtLeast(step, j - i);
      assert r[j] - r[i] == step * (j - i);
    }
  }

  predicate Distinct<T(==)>(s: seq<T>) {
    forall i, j :: 0 <= i < j < |s| ==> s[i] != s[j]
  }

  /** A flat index below `n * m` has its quotient by `m` below `n`. */
  lemma QuotientBelow(k: int, n: nat, m: nat)
    requires 0 <= k < n * m
    ensures m > 0 && 0 <= k / m < n
  {
    if m > 0 && k / m >= n {
      MulMonotone(m, n, k / m);
    }
  }

  /** All pairs, rows in the outer loop and columns in the inner one: entry
      `i * |cols| + j` pairs `rows[i]` with `cols[j]`. */
  function Product(rows: seq<int>, cols: seq<int>): (r: seq<Pos>)
    ensures |r| == |rows| * |cols|
  {
    seq(|rows| * |cols|, k requires 0 <= k < |rows| * |cols| =>
      QuotientBelow(k, |rows|, |cols|);
      Pos(rows[k / |cols|], cols[k % |cols|]))
  }

  /** A pair is in the product exactly when its row and its column are listed. */
  lemma ProductMembers(rows: seq<int>, cols: seq<int>, p: Pos)
    ensures p in Product(rows, cols) <==> p.row in rows && p.col in cols
  {
    var r := Product(rows, cols);
    var m := |cols|;
    if p in r {
      var k :| 0 <= k < |r| && r[k] == p;
      QuotientBelow(k, |rows|, m);
    }
    if p.row in rows && p.col in cols {
      var i :| 0 <= i < |rows| && rows[i] == p.row;
      var j :| 0 <= j < m && cols[j] == p.col;
      var k := m * i + j;
      MulMonotone(m, i + 1, |rows|);
      assert m * (i + 1) == m * i + m;
      DivModUnique(k, m, i, j);
      assert r[k] == p;
    }
  }

  /** Distinct rows and distinct columns give distinct pairs. */
  lemma ProductDistinct(rows: seq<int>, cols: seq<int>)
    requires Distinct(rows) && Distinct(cols)
    ensures Distinct(Product(rows, cols))
  {
    var r := Product(rows, cols);
    var m := |cols|;
    forall k1, k2 | 0 <= k1 < k2 < |r| ensures r[k1] != r[k2] {
      QuotientBelow(k1, |rows|, m);
      QuotientBelow(k2, |rows|, m);
      if k1 / m == k2 / m {
        assert k1 % m != k2 % m;
      }
    }
  }

  /** The positions of `[(row, col) for row in range(r0, r1, step) for col in
      range(c0, c1, step)]`. */
  function Lattice(r0: int, r1: int, c0: int, c1: int, step: nat): seq<Pos>
    requires step > 0
  {
    Product(Range(r0, r1, step), Range(c0, c1, step))
  }

  /** The lattice lists each position on the step-spaced grid exactly once. */
  lemma LatticeLayout(r0: int, r1: int, c0: int, c1: int, step: nat)
    requires step > 0
    ensures |Lattice(r0, r1, c0, c1, step)| == RangeCount(r0, r1, step) * RangeCount(c0, c1, step)
    ensures Distinct(Lattice(r0, r1, c0, c1, step))
    ensures forall p :: p in Lattice(r0, r1, c0, c1, step) <==>
      && r0 <= p.row < r1 && (p.row - r0) % step == 0
      && c0 <= p.col < c1 && (p.col - c0) % step == 0
  {
    var rows := Range(r0, r1, step);
    var cols := Range(c0, c1, step);
    RangeDistinct(r0, r1, step);
    RangeDistinct(c0, c1, step);
    ProductDistinct(rows, cols);
    forall p
      ensures p in Lattice(r0, r1, c0, c1, step) <==>
        && r0 <= p.row < r1 && (p.row - r0) % step == 0
        && c0 <= p.col < c1 && (p.col - c0) % step == 0
    {
      ProductMembers(rows, cols, p);
      RangeMembers(r0, r1, step, p.row);
      RangeMembers(c0, c1, step, p.col);
    }
  }

  // ---------------------------------------------------------------------------
  // The reference-grid position lists
  // ---------------------------------------------------------------------------

  const Standard384Names: set<string> := {"Standard 384 (top left)", "standard384"}
  const Standard1536Names: set<string> := {"Standard 1536 (top left and bottom right)", "standard1536"}
  const With384GridName: string := "1536with384grid"

  /** The control positions for a named reference-grid layout; any other name
      raises ValueError. */
  function ReferenceGridPositions(name: string): (r: Result<seq<Pos>>)
    ensures r.Err? <==> name !in Standard384Names && name !in Standard1536Names && name != With384GridName
    ensures r.Err? ==> r.error.ValueError?
  {
    if name in Standard384Names then
      Ok(Lattice(1, 16, 1, 24, 2))
    else if name in Standard1536Names then
      Ok(Lattice(1, 32, 1, 48, 4) + Lattice(4, 33, 4, 49, 4))
    else if name == With384GridName then
      Ok(Lattice(1, 32, 1, 48, 2))
    else
      Err(ValueError("unknown reference grid layout"))
  }

  /** 'standard384': the 96 positions at odd rows 1..15 and odd columns 1..23. */
  lemma Standard384Layout(name: string)
    requires name in Standard384Names
    ensures ReferenceGridPositions(name).Ok?
    ensures var ps := ReferenceGridPositions(name).value;
      && |ps| == 96
      && Distinct(ps)
      && forall p :: p in ps <==> 1 <= p.row <= 15 && p.row % 2 == 1 && 1 <= p.col <= 23 && p.col % 2 == 1
  {
    LatticeLayout(1, 16, 1, 24, 2);
  }

  /** '1536with384grid': the 384 positions at odd rows 1..31 and odd columns 1..47. */
  lemma With384GridLayout()
    ensures ReferenceGridPositions(With384GridName).Ok?
    ensures var ps := ReferenceGridPositions(With384GridName).value;
      && |ps| == 384
      && Distinct(ps)
      && forall p :: p in ps <==> 1 <= p.row <= 31 && p.row % 2 == 1 && 1 <= p.col <= 47 && p.col % 2 == 1
  {
    LatticeLayout(1, 32, 1, 48, 2);
  }

  /** Positions of the top-left 96-grid of a 1536 plate: rows and columns
      congruent to 1 modulo 4. */
  predicate TopLeft96(p: Pos) {
    1 <= p.row <= 29 && p.row % 4 == 1 && 1 <= p.col <= 45 && p.col % 4 == 1
  }

  /** Positions of the bottom-right 96-grid of a 1536 plate: rows and columns
      divisible by 4. */
  predicate BottomRight96(p: Pos) {
    4 <= p.row <= 32 && p.row % 4 == 0 && 4 <= p.col <= 48 && p.col % 4 == 0
  }

  lemma TopLeft96Lattice()
    ensures |Lattice(1, 32, 1, 48, 4)| == 96
    ensures Distinct(Lattice(1, 32, 1, 48, 4))
    ensures forall p :: p in Lattice(1, 32, 1, 48, 4) <==> TopLeft96(p)
  {
    LatticeLayout(1, 32, 1, 48, 4);
  }

  lemma BottomRight96Lattice()
    ensures |Lattice(4, 33, 4, 49, 4)| == 96
    ensures Distinct(Lattice(4, 33, 4, 49, 4))
    ensures forall p :: p in Lattice(4, 33, 4, 49, 4) <==> BottomRight96(p)
  {
    LatticeLayout(4, 33, 4, 49, 4);
    assert RangeCount(4, 33, 4) == 8 && RangeCount(4, 49, 4) == 12;
    forall p ensures p in Lattice(4, 33, 4, 49, 4) <==> BottomRight96(p) {
      StepFromFour(p.row);
      StepFromFour(p.col);
    }
  }

  lemma StepFromFour(x: int)
    ensures (x - 4) % 4 == 0 <==> x % 4 == 0
  {
    DivModUnique(x - 4, 4, x / 4 - 1, x % 4);
  }

  /** 'standard1536': the 96 top-left positions followed by the 96 bottom-right
      ones, 192 distinct positions in all. */
  lemma Standard1536Layout(name: string)
    requires name in Standard1536Names
    ensures ReferenceGridPositions(name).Ok?
    ensures var ps := ReferenceGridPositions(name).value;
      && |ps| == 192
      && Distinct(ps)
      && (forall i :: 0 <= i < 96 ==> TopLeft96(ps[i]))
      && (forall i :: 96 <= i < 192 ==> BottomRight96(ps[i]))
      && forall p :: p in ps <==> TopLeft96(p) || BottomRight96(p)
  {
    var a := Lattice(1, 32, 1, 48, 4);
    var b := Lattice(4, 33, 4, 49, 4);
    TopLeft96Lattice();
    BottomRight96Lattice();
    ConcatDistinct(a, b);
    forall i | 0 <= i < 96 ensures TopLeft96((a + b)[i]) {
      assert (a + b)[i] == a[i] && a[i] in a;
    }
    forall i | 96 <= i < 192 ensures BottomRight96((a + b)[i]) {
      assert (a + b)[i] == b[i - 96] && b[i - 96] in b;
    }
  }

  /** Two duplicate-free lists with no common element concatenate to a
      duplicate-free list. */
  lemma ConcatDistinct<T>(a: seq<T>, b: seq<T>)
    requires Distinct(a) && Distinct(b)
    requires forall x :: x in a ==> x !in b
    ensures Distinct(a + b)
  {
    var ab := a + b;
    forall i, j | 0 <= i < j < |ab| ensures ab[i] != ab[j] {
      if i < |a| && j >= |a| {
        assert ab[i] in a && ab[j] == b[j - |a|];
      } else if j < |a| {
        assert ab[i] == a[i] && ab[j] == a[j];
      } else {
        assert ab[i] == b[i - |a|] && ab[j] == b[j - |a|];
      }
    }
  }

  // ---------------------------------------------------------------------------
  // Input-type and normalisation dispatch
  // ---------------------------------------------------------------------------

  /** The per-plate reader chosen by the input type. */
  datatype Reader = GitterReader | RednessReader | GrowthCurvesReader | QuantifyBatchReader

  function InputReader(inputType: string): (r: Result<Reader>)
    ensures r.Err? <==> inputType !in {"gitter", "pyphe-quantify-redness", "pyphe-growthcurves", "pyphe-quantify-batch"}
    ensures r == Ok(RednessReader) <==> inputType == "pyphe-quantify-redness"
  {
    if inputType == "gitter" then Ok(GitterReader)
    else if inputType == "pyphe-quantify-redness" then Ok(RednessReader)
    else if inputType == "pyphe-growthcurves" then Ok(GrowthCurvesReader)
    else if inputType == "pyphe-quantify-batch" then Ok(QuantifyBatchReader)
    else Err(ValueError("unrecognised input type"))
  }

  /** The pos_data key a step reads and the key it writes. */
  datatype Keys = Keys(inkey: string, outkey: string)

  /** The steps the analysis command runs for every plate, in order. */
  datatype Plan = Plan(
    reader: Reader,
    gridPositions: Option<seq<Pos>>,  // reference-grid normalisation, if requested
    medianKeys: Option<Keys>,          // row/column median normalisation, if requested
    checkKeys: Option<Keys>)           // inf/negative repair with NaN actions, if requested

  const RawKey: string := "Colony_size"
  const CorrectedKey: string := "Colony_size_corr"

  /** The key holding the most recent normalised data once the requested
      normalisations have run. */
  function LatestKey(gridNorm: bool, rcmedian: bool): string {
    if gridNorm || rcmedian then CorrectedKey else RawKey
  }

  /** The dispatch of the analysis command: choose the reader, reject grid
      normalisation of redness data, choose the reference-grid list, and chain
      the keys of the median normalisation and of the value check. */
  function PipelinePlan(inputType: string, gridNorm: bool, gridPos: string, rcmedian: bool, checkSetNA: bool): (r: Result<Plan>)
    ensures r.Ok? <==>
      && InputReader(inputType).Ok?
      && (gridNorm ==> inputType != "pyphe-quantify-redness" && ReferenceGridPositions(gridPos).Ok?)
    ensures r.Err? ==> r.error.ValueError?
    ensures r.Ok? ==> r.value.reader == InputReader(inputType).value
    ensures r.Ok? ==> (r.value.gridPositions.Some? <==> gridNorm)
    ensures r.Ok? && gridNorm ==> r.value.gridPositions.value == ReferenceGridPositions(gridPos).value
    // row/column medians read the grid-normalised data when there is some
    ensures r.Ok? ==> (r.value.medianKeys.Some? <==> rcmedian)
    ensures r.Ok? && rcmedian ==>
      r.value.medianKeys.value == Keys(LatestKey(gridNorm, false), CorrectedKey)
    // the value check reads whatever the last normalisation wrote
    ensures r.Ok? ==> (r.value.checkKeys.Some? <==> checkSetNA)
    ensures r.Ok? && checkSetNA ==>
      r.value.checkKeys.value == Keys(LatestKey(gridNorm, rcmedian), LatestKey(gridNorm, rcmedian) + "_checked")
  {
    var reader :- InputReader(inputType);
    var positions :-
      if !gridNorm then Ok(None)
      else if inputType == "pyphe-quantify-redness" then Err(ValueError("grid normalisation of redness input"))
      else
        var ps :- ReferenceGridPositions(gridPos);
        Ok(Some(ps));
    var median :=
      if !rcmedian then None
      else if gridNorm then Some(Keys("Colony_size_corr", "Colony_size_corr"))
      else Some(Keys("Colony_size", "Colony_size_corr"));
    var check :=
      if !checkSetNA then None
      else if !gridNorm && !rcmedian then Some(Keys("Colony_size", "Colony_size_checked"))
      else Some(Keys("Colony_size_corr", "Colony_size_corr_checked"));
    Ok(Plan(reader, positions, median, check))
  }
}
