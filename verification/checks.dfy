/** The repair of invalid values after normalisation (`Plate.check_values` in
    pyphe/analysis.py). Infinite values are first overwritten in the INPUT
    table; a copy of the input then has its finite negative values replaced. */
module Checks {
  import opened Results
  import opened Floats
  import opened Frames

  /** What the method leaves in pos_data: the (possibly repaired) input table,
      and the output table if one was written. */
  datatype Checked = Checked(input: Frame, output: Option<Frame>)

  /** The two in-place writes of a non-NaN `inf_action` a, in source order:
      -inf cells become -a, then +inf cells become a. */
  function ReplaceInfinities(x: Value, a: Value): Value {
    var afterNeg := if x == NegInf then Neg(a) else x;
    if afterNeg == PosInf then a else afterNeg
  }

  /** The input table after the `inf_action` step. */
  function ApplyInfAction(data: Frame, infAction: Option<Value>): (r: Frame)
    ensures r.Keys == data.Keys
    ensures infAction.None? ==> r == data
    ensures infAction == Some(NaN) ==> forall p :: p in data ==>
      r[p] == if data[p].IsInf() then NaN else data[p]
    ensures infAction.Some? && infAction.value.Num? ==> forall p :: p in data ==>
      r[p] == (match data[p]
               case PosInf => infAction.value
               case NegInf => Num(-infAction.value.v)
               case _ => data[p])
    ensures forall p :: p in data && !data[p].IsInf() ==> r[p] == data[p]
  {
    match infAction
    case None => data
    case Some(a) =>
      if a.IsNull() then map p | p in data :: if data[p].IsInf() then NaN else data[p]
      else map p | p in data :: ReplaceInfinities(data[p], a)
  }

  /** The cells the negative mask selects: after mapping both infinities and
      NaN to 1, the value is below zero. Only finite negatives qualify. */
  predicate MaskedNegative(x: Value) {
    var y := if x.IsInf() || x.IsNull() then Num(1.0) else x;
    Less(y, 0.0)
  }

  function CheckValues(data: Frame, infAction: Option<Value>, negativeAction: Option<Value>): (r: Checked)
    // an empty table is answered with an empty output and nothing else
    ensures |data| == 0 ==> r == Checked(data, Some(map[]))
    ensures r.input.Keys == data.Keys
    ensures |data| > 0 ==> r.input == ApplyInfAction(data, infAction)
    ensures r.output.Some? <==> |data| == 0 || negativeAction.Some?
    ensures |data| > 0 && r.output.Some? ==> r.output.value.Keys == data.Keys
    // only finite negative values are replaced; NaN, infinities and
    // non-negative values are copied unchanged
    ensures |data| > 0 && r.output.Some? ==> forall p :: p in data ==>
      r.output.value[p] ==
        if r.input[p].Num? && r.input[p].v < 0.0 then negativeAction.value else r.input[p]
  {
    if |data| == 0 then
      Checked(data, Some(map[]))
    else
      var input := ApplyInfAction(data, infAction);
      var output :=
        if negativeAction.None? then None
        else Some(map p | p in input :: if MaskedNegative(input[p]) then negativeAction.value else input[p]);
      Checked(input, output)
  }

  /** Without an `inf_action` a -inf survives the negative step. */
  lemma NegInfSurvivesWithoutInfAction(data: Frame, negativeAction: Value, p: Pos)
    requires p in data && data[p] == NegInf
    ensures CheckValues(data, None, Some(negativeAction)).output.value[p] == NegInf
  {
  }

  /** A table of NaN and non-negative finite values is already valid. */
  predicate AllValid(f: Frame) {
    forall p :: p in f ==> f[p].IsNull() || (f[p].Num? && f[p].v >= 0.0)
  }

  /** With a finite, non-negative `inf_action` and `negative_action` (the
      defaults are 10 and 0) the output is valid. */
  lemma RepairedIsValid(data: Frame, a: real, b: real)
    requires |data| > 0 && a >= 0.0 && b >= 0.0
    ensures AllValid(CheckValues(data, Some(Num(a)), Some(Num(b))).output.value)
  {
    var r := CheckValues(data, Some(Num(a)), Some(Num(b)));
    forall p | p in r.output.value
      ensures r.output.value[p].IsNull() || (r.output.value[p].Num? && r.output.value[p].v >= 0.0)
    {
      RepairedCell(data[p], a, b);
    }
  }

  /** One cell of the repair with finite non-negative actions. */
  lemma RepairedCell(x: Value, a: real, b: real)
    requires a >= 0.0 && b >= 0.0
    ensures var y := ReplaceInfinities(x, Num(a));
      var z := if MaskedNegative(y) then Num(b) else y;
      z.IsNull() || (z.Num? && z.v >= 0.0)
  {
  }

  /** A valid non-empty table passes through unchanged. */
  lemma ValidUnchanged(f: Frame, infAction: Option<Value>, negativeAction: Value)
    requires |f| > 0 && AllValid(f)
    ensures CheckValues(f, infAction, Some(negativeAction)).output.value == f
  {
    NoInfinitiesUnchanged(f, infAction);
    var out := CheckValues(f, infAction, Some(negativeAction)).output.value;
    forall p | p in f ensures out[p] == f[p] {
    }
    assert out == f;
  }

  /** A table without infinities is left alone by the `inf_action` step. */
  lemma NoInfinitiesUnchanged(f: Frame, infAction: Option<Value>)
    requires forall p :: p in f ==> !f[p].IsInf()
    ensures ApplyInfAction(f, infAction) == f
  {
    var r := ApplyInfAction(f, infAction);
    assert forall p :: p in f ==> r[p] == f[p];
  }

  /** Repairing the repaired output again changes nothing. */
  lemma CheckValuesIdempotent(data: Frame, a: real, b: real)
    requires |data| > 0 && a >= 0.0 && b >= 0.0
    ensures var out := CheckValues(data, Some(Num(a)), Some(Num(b))).output.value;
      CheckValues(out, Some(Num(a)), Some(Num(b))).output.value == out
  {
    var out := CheckValues(data, Some(Num(a)), Some(Num(b))).output.value;
    RepairedIsValid(data, a, b);
    var p :| p in data;
    assert p in out;
    ValidUnchanged(out, Some(Num(a)), Num(b));
  }
}
