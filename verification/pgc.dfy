/** Reading a growth-curve results table into per-position tables
    (`Plate.read_pgc_single_image` in pyphe/analysis.py). The transposed table
    has one row per curve, labelled "row-column", and one column per result
    variable. */
module PgcInput {
  import opened Results
  import opened Floats
  import opened Frames
  import opened Text
  import opened Layout

  // ---------------------------------------------------------------------------
  // "row-column" labels
  // ---------------------------------------------------------------------------

  /** `int(label.split('-')[0])`: the integer before the first '-' (the whole
      label when there is none). The split never comes back empty, so the only
      failure is `int`'s ValueError, never an IndexError. */
  function LabelRow(tag: string): (r: Result<int>)
    ensures r.Err? ==> r.error.ValueError?
    ensures forall k :: 0 <= k <= |tag| && '-' !in tag[..k] && (k == |tag| || tag[k] == '-') ==>
      r == ParseInt(tag[..k])
  {
    assert forall k :: 0 <= k <= |tag| && '-' !in tag[..k] && (k == |tag| || tag[k] == '-') ==>
      Split(tag, '-')[0] == tag[..k] by {
      forall k | 0 <= k <= |tag| && '-' !in tag[..k] && (k == |tag| || tag[k] == '-')
        ensures Split(tag, '-')[0] == tag[..k]
      {
        SplitNoSeparator(tag[..k], '-');
        if k < |tag| {
          assert tag == tag[..k] + ['-'] + tag[k + 1..];
          SplitAround(tag[..k], tag[k + 1..], '-');
        } else {
          assert tag[..k] == tag;
        }
      }
    }
    ParseInt(Split(tag, '-')[0])
  }

  /** `int(label.split('-')[1])`: IndexError when there is no '-'. */
  function LabelColumn(tag: string): (r: Result<int>)
    ensures '-' !in tag ==> r.Err? && r.error.IndexError?
    ensures '-' in tag ==> |Split(tag, '-')| >= 2 && r == ParseInt(Split(tag, '-')[1])
  {
    var parts := Split(tag, '-');
    SplitCount(tag, '-');
    if |parts| < 2 then Err(IndexError("list index out of range"))
    else ParseInt(parts[1])
  }

  lemma NoDashInNatString(n: int)
    requires n >= 0
    ensures '-' !in IntToString(n)
  {
  }

  /** Splitting `a-b`, possibly followed by further '-'-separated text, at
      '-' gives `a` and `b` first. */
  lemma LabelSplit(a: string, b: string, rest: Option<string>)
    requires '-' !in a && '-' !in b
    ensures var tag := a + "-" + b + (if rest.Some? then "-" + rest.value else "");
      |Split(tag, '-')| >= 2 && Split(tag, '-')[0] == a && Split(tag, '-')[1] == b
  {
    var tail := if rest.Some? then "-" + rest.value else "";
    var after := b + tail;
    assert a + "-" + b + tail == a + ['-'] + after;
    SplitNoSeparator(a, '-');
    SplitAround(a, after, '-');
    if rest.Some? {
      assert after == b + ['-'] + rest.value;
      SplitNoSeparator(b, '-');
      SplitAround(b, rest.value, '-');
    } else {
      assert after == b;
      SplitNoSeparator(b, '-');
    }
  }

  /** A label written as `str(r) + '-' + str(c)`, possibly followed by further
      '-'-separated text, reads back as row r and column c. */
  lemma LabelRoundTrip(r: int, c: int, rest: Option<string>)
    requires r >= 0 && c >= 0
    ensures var tail := if rest.Some? then "-" + rest.value else "";
      var tag := IntToString(r) + "-" + IntToString(c) + tail;
      LabelRow(tag) == Ok(r) && LabelColumn(tag) == Ok(c)
  {
    var a := IntToString(r);
    var b := IntToString(c);
    var tail := if rest.Some? then "-" + rest.value else "";
    var tag := a + "-" + b + tail;
    NoDashInNatString(r);
    NoDashInNatString(c);
    LabelSplit(a, b, rest);
    assert tag[|a|] == '-';
    ParseIntOfIntToString(r);
    ParseIntOfIntToString(c);
  }

  /** The rows of all labels, then the columns of all labels: the first
      failing label raises, rows before columns. */
  function ParseAll(labels: seq<string>, column: bool): (r: Result<seq<int>>)
    ensures r.Ok? <==> forall i :: 0 <= i < |labels| ==>
      (if column then LabelColumn(labels[i]) else LabelRow(labels[i])).Ok?
    ensures r.Ok? ==> |r.value| == |labels| && forall i :: 0 <= i < |labels| ==>
      r.value[i] == (if column then LabelColumn(labels[i]) else LabelRow(labels[i])).value
  {
    MapAll(labels, tag => if column then LabelColumn(tag) else LabelRow(tag))
  }

  function LabelPositions(labels: seq<string>): (r: Result<seq<Pos>>)
    ensures r.Ok? <==> forall i :: 0 <= i < |labels| ==> LabelRow(labels[i]).Ok? && LabelColumn(labels[i]).Ok?
    ensures r.Ok? ==> |r.value| == |labels| && forall i :: 0 <= i < |labels| ==>
      r.value[i] == Pos(LabelRow(labels[i]).value, LabelColumn(labels[i]).value)
  {
    var rows :- ParseAll(labels, false);
    var cols :- ParseAll(labels, true);
    Ok(seq(|labels|, i requires 0 <= i < |labels| => Pos(rows[i], cols[i])))
  }

  // ---------------------------------------------------------------------------
  // Result variables
  // ---------------------------------------------------------------------------

  const ResultVars: seq<string> := ["initial biomass", "lag", "r2", "t_max", "y-intercept",
                                    "x-intercept", "max_slope", "sum of values (AUC)", "maximum"]

  /** 'Colony_size' is not itself a result variable, so storing max_slope
      under it cannot clash with another variable. */
  lemma RawKeyNotResultVar()
    ensures RawKey !in ResultVars
  {
    forall i | 0 <= i < |ResultVars| ensures ResultVars[i] != RawKey {
      assert RawKey[0] == 'C';
      assert ResultVars[i][0] != 'C';
    }
  }

  /** `a` lists some of the elements of `b`, in the same order. */
  predicate IsSubsequence(a: seq<string>, b: seq<string>)
    decreases |b|
  {
    if |a| == 0 then true
    else if |b| == 0 then false
    else if a[0] == b[0] then IsSubsequence(a[1..], b[1..])
    else IsSubsequence(a, b[1..])
  }

  /** `[s for s in vars if s in columns]`. */
  function Present(vars: seq<string>, columns: set<string>): (r: seq<string>)
    ensures forall x :: x in r <==> x in vars && x in columns
    ensures IsSubsequence(r, vars)
    decreases |vars|
  {
    if |vars| == 0 then []
    else
      var rest := Present(vars[1..], columns);
      assert forall x :: x in vars <==> x == vars[0] || x in vars[1..];
      if vars[0] in columns then
        assert ([vars[0]] + rest)[1..] == rest;
        [vars[0]] + rest
      else
        assert IsSubsequence(rest, vars) by {
          if |rest| > 0 {
            assert rest[0] != vars[0];
          }
        }
        rest
  }

  /** The pos_data key a result variable is stored under. */
  function PosDataKey(c: string): (k: string)
    ensures k == c <==> c != "max_slope"
  {
    if c == "max_slope" then RawKey else c
  }

  /** No two result variables share a pos_data key. */
  lemma PosDataKeysDistinct(a: string, b: string)
    requires a in ResultVars && b in ResultVars && a != b
    ensures PosDataKey(a) != PosDataKey(b)
  {
    RawKeyNotResultVar();
  }

  // ---------------------------------------------------------------------------
  // Pivoting to a plate table
  // ---------------------------------------------------------------------------

  /** The value pivoted into position `q`: the first curve at `q`, else NaN. */
  function Lookup(ps: seq<Pos>, vals: seq<Value>, q: Pos): (v: Value)
    requires |ps| == |vals|
    ensures q !in ps ==> v == NaN
  {
    if |ps| == 0 then NaN
    else if ps[0] == q then vals[0]
    else
      assert q !in ps ==> q !in ps[1..];
      Lookup(ps[1..], vals[1..], q)
  }

  /** Without duplicates, each curve's value lands at its own position. */
  lemma {:induction false} LookupDistinct(ps: seq<Pos>, vals: seq<Value>, i: int)
    requires |ps| == |vals| && Distinct(ps) && 0 <= i < |ps|
    ensures Lookup(ps, vals, ps[i]) == vals[i]
  {
    if i > 0 {
      assert ps[0] != ps[i];
      assert Distinct(ps[1..]) by {
        forall a, b | 0 <= a < b < |ps| - 1 ensures ps[1..][a] != ps[1..][b] {
          assert ps[1..][a] == ps[a + 1] && ps[1..][b] == ps[b + 1];
        }
      }
      LookupDistinct(ps[1..], vals[1..], i - 1);
    }
  }

  function RowsOf(ps: seq<Pos>): set<int> {
    set i | 0 <= i < |ps| :: ps[i].row
  }

  function ColumnsOf(ps: seq<Pos>): set<int> {
    set i | 0 <= i < |ps| :: ps[i].col
  }

  /** The cells of a pivot: every occurring row paired with every occurring
      column. */
  function PivotCells(ps: seq<Pos>): (cells: set<Pos>)
    ensures forall q :: q in cells <==> q.row in RowsOf(ps) && q.col in ColumnsOf(ps)
  {
    var cells := set r, c | r in RowsOf(ps) && c in ColumnsOf(ps) :: Pos(r, c);
    assert forall q: Pos :: q.row in RowsOf(ps) && q.col in ColumnsOf(ps) ==> Pos(q.row, q.col) in cells;
    cells
  }

  lemma ListedInPivotCells(ps: seq<Pos>, i: int)
    requires 0 <= i < |ps|
    ensures ps[i] in PivotCells(ps)
  {
    assert ps[i].row in RowsOf(ps) && ps[i].col in ColumnsOf(ps);
  }

  /** The table `DataFrame.pivot(index='Row', columns='Column')` builds from
      duplicate-free positions: every combination of a row and a column that
      occurs gets a cell, NaN where no curve sits. */
  function PivotFrame(ps: seq<Pos>, vals: seq<Value>): (f: Frame)
    requires |ps| == |vals| && Distinct(ps)
    ensures f.Keys == PivotCells(ps)
    ensures forall i :: 0 <= i < |ps| ==> ps[i] in f && f[ps[i]] == vals[i]
    ensures forall q :: q in f && q !in ps ==> f[q].IsNull()
  {
    var f := map q | q in PivotCells(ps) :: Lookup(ps, vals, q);
    PivotValues(ps, vals, f);
    f
  }

  lemma PivotValues(ps: seq<Pos>, vals: seq<Value>, f: Frame)
    requires |ps| == |vals| && Distinct(ps)
    requires forall q :: q in f <==> q in PivotCells(ps)
    requires forall q :: q in f ==> f[q] == Lookup(ps, vals, q)
    ensures f.Keys == PivotCells(ps)
    ensures forall i :: 0 <= i < |ps| ==> ps[i] in f && f[ps[i]] == vals[i]
    ensures forall q :: q in f && q !in ps ==> f[q].IsNull()
  {
    forall i | 0 <= i < |ps| ensures ps[i] in f && f[ps[i]] == vals[i] {
      ListedInPivotCells(ps, i);
      LookupDistinct(ps, vals, i);
    }
  }

  /** A position occurring twice makes the pivot raise ValueError. */
  function Pivot(ps: seq<Pos>, vals: seq<Value>): (r: Result<Frame>)
    requires |ps| == |vals|
    ensures r.Ok? <==> Distinct(ps)
    ensures r.Err? ==> r.error.ValueError?
  {
    if !Distinct(ps) then Err(ValueError("Index contains duplicate entries, cannot reshape"))
    else Ok(PivotFrame(ps, vals))
  }

  /** The pos_data keys the result variables in `vars` are stored under. */
  function StoredKeys(vars: seq<string>): set<string> {
    set c | c in vars :: PosDataKey(c)
  }

  /** The variable whose table a pos_data key holds. */
  function KeyVar(k: string): string {
    if k == RawKey then "max_slope" else k
  }

  lemma KeyVarOfPosDataKey(c: string)
    requires c != RawKey
    ensures KeyVar(PosDataKey(c)) == c
  {
  }

  /** The per-position tables, one per result variable present, keyed as
      stored in pos_data. The loop pivots the variables one after the other;
      all pivots share the Row and Column columns, so either the first one
      raises ValueError on a duplicated position or none does. */
  function PivotAll(vars: seq<string>, ps: seq<Pos>, table: map<string, seq<Value>>): (r: Result<map<string, Frame>>)
    requires forall c :: c in vars ==> c in table && |table[c]| == |ps|
    requires RawKey !in vars
    ensures r.Ok? <==> |vars| == 0 || Distinct(ps)
    ensures r.Err? ==> Pivot(ps, table[vars[0]]) == Err(r.error)
  {
    if |vars| > 0 && !Distinct(ps) then Err(Pivot(ps, table[vars[0]]).error)
    else
      assert forall k :: k in StoredKeys(vars) ==> KeyVar(k) in vars by {
        forall k | k in StoredKeys(vars) ensures KeyVar(k) in vars {
          var c :| c in vars && PosDataKey(c) == k;
          KeyVarOfPosDataKey(c);
        }
      }
      Ok(map k | k in StoredKeys(vars) :: PivotFrame(ps, table[KeyVar(k)]))
  }

  /** Exactly the listed variables are stored, and each one's table is the
      pivot of its values. */
  lemma PivotAllStores(vars: seq<string>, ps: seq<Pos>, table: map<string, seq<Value>>, c: string)
    requires forall c :: c in vars ==> c in table && |table[c]| == |ps|
    requires RawKey !in vars
    requires PivotAll(vars, ps, table).Ok?
    ensures PivotAll(vars, ps, table).value.Keys == StoredKeys(vars)
    ensures c in vars ==> Distinct(ps) && PosDataKey(c) in PivotAll(vars, ps, table).value
    ensures c in vars ==> PivotAll(vars, ps, table).value[PosDataKey(c)] == PivotFrame(ps, table[c])
  {
    if c in vars {
      var k := PosDataKey(c);
      KeyVarOfPosDataKey(c);
      assert k in StoredKeys(vars);
      var m := PivotAll(vars, ps, table).value;
      assert m[k] == PivotFrame(ps, table[KeyVar(k)]);
    }
  }

  lemma PosDataKeyInjective(a: string, b: string)
    requires a != RawKey && b != RawKey && a != b
    ensures PosDataKey(a) != PosDataKey(b)
  {
  }

  /** The keys stored for the listed variables a table has. */
  lemma StoredKeysOfVars(vars: seq<string>, columns: set<string>, k: string)
    requires RawKey !in vars
    ensures k in StoredKeys(Present(vars, columns)) <==>
      (k == RawKey && "max_slope" in vars && "max_slope" in columns) || (k in vars && k != "max_slope" && k in columns)
  {
    var kept := Present(vars, columns);
    if k in StoredKeys(kept) {
      var c :| c in kept && PosDataKey(c) == k;
      assert c in vars && c in columns;
    }
    if k == RawKey && "max_slope" in vars && "max_slope" in columns {
      assert "max_slope" in kept;
    }
    if k in vars && k != "max_slope" && k in columns {
      assert k in kept;
    }
  }

  /** The keys stored for the result variables a table has. */
  lemma StoredKeysOfPresent(table: map<string, seq<Value>>, k: string)
    ensures k in StoredKeys(Present(ResultVars, table.Keys)) <==>
      (k == RawKey && "max_slope" in table) || (k in ResultVars && k != "max_slope" && k in table)
  {
    RawKeyNotResultVar();
    assert ResultVars[6] == "max_slope";
    StoredKeysOfVars(ResultVars, table.Keys, k);
  }

  /** The reader for a given list of result variables: labels to positions,
      then one table per listed variable that the input has. */
  function ReadVariables(resvars: seq<string>, labels: seq<string>, table: map<string, seq<Value>>): (r: Result<map<string, Frame>>)
    requires forall c :: c in table ==> |table[c]| == |labels|
    requires RawKey !in resvars
    ensures r.Ok? <==>
      && LabelPositions(labels).Ok?
      && (Distinct(LabelPositions(labels).value) || forall c :: c in resvars ==> c !in table)
  {
    var pr := LabelPositions(labels);
    if pr.Err? then Err(pr.error)
    else
      var vars := Present(resvars, table.Keys);
      assert |vars| == 0 <==> forall c :: c in resvars ==> c !in table by {
        if |vars| > 0 {
          assert vars[0] in vars;
        }
      }
      PivotAll(vars, pr.value, table)
  }

  lemma ReadVariablesPivots(resvars: seq<string>, labels: seq<string>, table: map<string, seq<Value>>)
    requires forall c :: c in table ==> |table[c]| == |labels|
    requires RawKey !in resvars
    requires LabelPositions(labels).Ok?
    ensures ReadVariables(resvars, labels, table) == PivotAll(Present(resvars, table.Keys), LabelPositions(labels).value, table)
  {
  }

  /** The reader with the fixed list of result variables. */
  function ReadPgc(labels: seq<string>, table: map<string, seq<Value>>): (r: Result<map<string, Frame>>)
    requires forall c :: c in table ==> |table[c]| == |labels|
    ensures r.Ok? <==>
      && LabelPositions(labels).Ok?
      && (Distinct(LabelPositions(labels).value) || forall c :: c in ResultVars ==> c !in table)
  {
    RawKeyNotResultVar();
    ReadVariables(ResultVars, labels, table)
  }

  /** The reader stores one table per result variable present, `max_slope`
      under 'Colony_size', and nothing else. */
  lemma ReadPgcKeys(labels: seq<string>, table: map<string, seq<Value>>, k: string)
    requires forall c :: c in table ==> |table[c]| == |labels|
    requires ReadPgc(labels, table).Ok?
    ensures k in ReadPgc(labels, table).value <==>
      (k == RawKey && "max_slope" in table) || (k in ResultVars && k != "max_slope" && k in table)
  {
    RawKeyNotResultVar();
    ReadVariablesPivots(ResultVars, labels, table);
    PivotAllStores(Present(ResultVars, table.Keys), LabelPositions(labels).value, table, k);
    StoredKeysOfPresent(table, k);
  }

  /** Each stored table is the pivot of that variable's values over the
      positions the labels name. */
  lemma ReadPgcValues(labels: seq<string>, table: map<string, seq<Value>>, c: string)
    requires forall c :: c in table ==> |table[c]| == |labels|
    requires ReadPgc(labels, table).Ok?
    requires c in ResultVars && c in table
    ensures LabelPositions(labels).Ok? && Distinct(LabelPositions(labels).value)
    ensures ReadPgc(labels, table).value[PosDataKey(c)] == PivotFrame(LabelPositions(labels).value, table[c])
  {
    RawKeyNotResultVar();
    var vars := Present(ResultVars, table.Keys);
    assert c in vars;
    ReadVariablesPivots(ResultVars, labels, table);
    PivotAllStores(vars, LabelPositions(labels).value, table, c);
  }
}
