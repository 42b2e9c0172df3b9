/**
 * Choosing which cone-search row is the target star, and the parallax
 * check the chosen row must pass.
 *
 * The first row flagged exactly "VARIABLE" wins, whatever its parallax.
 * Failing that, the row whose parallax is closest to the reference parallax
 * wins; the ordering used for this is not stable, so among equally close
 * rows any may be chosen: CanChoose admits every one of them, and
 * SelectTarget computes one of those. Without a reference parallax that second rule subtracts a missing
 * value and the program stops with an error, modelled as MissingReference.
 */
module Selection {
  import opened Catalog

  /** The variability flag value that selects a row outright. */
  const VariableFlag := "VARIABLE"

  /** Largest accepted |parallax - reference parallax|, in milli-arcseconds. */
  const ParallaxTolerance: real := 0.01

  predicate IsVariable(row: GaiaRow)
  {
    row.variableFlag == VariableFlag
  }

  predicate NoVariable(rows: seq<GaiaRow>)
  {
    forall i | 0 <= i < |rows| :: !IsVariable(rows[i])
  }

  function Abs(x: real): real
  {
    if x < 0.0 then -x else x
  }

  /** How far a row's parallax is from the reference parallax. */
  function ParallaxGap(row: GaiaRow, reference: real): real
  {
    Abs(row.parallax - reference)
  }

  /** The position of the first row flagged "VARIABLE", in catalogue order. */
  function FirstVariable(rows: seq<GaiaRow>): (k: Option<nat>)
    ensures k.None? <==> NoVariable(rows)
    ensures k.Some? ==> k.value < |rows| && IsVariable(rows[k.value])
    ensures k.Some? ==> forall j | 0 <= j < k.value :: !IsVariable(rows[j])
  {
    if |rows| == 0 then None
    else if IsVariable(rows[0]) then Some(0)
    else
      match FirstVariable(rows[1..])
      case None => None
      case Some(k) => Some(k + 1)
  }

  /** The position of a row whose parallax is closest to the reference. */
  function ClosestParallax(rows: seq<GaiaRow>, reference: real): (k: nat)
    requires |rows| > 0
    ensures k < |rows|
    ensures forall j | 0 <= j < |rows| :: ParallaxGap(rows[k], reference) <= ParallaxGap(rows[j], reference)
  {
    if |rows| == 1 then 0
    else
      var k := 1 + ClosestParallax(rows[1..], reference);
      if ParallaxGap(rows[0], reference) <= ParallaxGap(rows[k], reference) then 0 else k
  }

  /** Which rule chose the target. */
  datatype Rule = FirstVariableRow | ClosestParallaxRow

  /** What the selection step ends in. */
  datatype Choice =
    | NoCandidates             // the cone search returned nothing
    | MissingReference         // no variable row and no reference parallax: the subtraction fails
    | Chosen(index: nat, rule: Rule)

  /** The selection step over the cone-search rows in catalogue order. */
  function SelectTarget(rows: seq<GaiaRow>, reference: Option<real>): (c: Choice)
    ensures c == NoCandidates <==> |rows| == 0
    ensures c == MissingReference <==> |rows| > 0 && NoVariable(rows) && reference.None?
    ensures c.Chosen? ==> c.index < |rows|
    ensures !NoVariable(rows) ==>
      && c.Chosen? && c.rule == FirstVariableRow
      && IsVariable(rows[c.index])
      && forall j | 0 <= j < c.index :: !IsVariable(rows[j])
    ensures |rows| > 0 && NoVariable(rows) && reference.Some? ==>
      && c.Chosen? && c.rule == ClosestParallaxRow
      && forall j | 0 <= j < |rows| ::
           ParallaxGap(rows[c.index], reference.value) <= ParallaxGap(rows[j], reference.value)
  {
    if |rows| == 0 then NoCandidates
    else
      match FirstVariable(rows)
      case Some(k) => Chosen(k, FirstVariableRow)
      case None =>
        match reference
        case None => MissingReference
        case Some(p) => Chosen(ClosestParallax(rows, p), ClosestParallaxRow)
  }

  /**
   * Whether the row at position `k` may be the target: the first variable
   * row if there is one, and otherwise, given a reference parallax, any row
   * with minimal parallax gap.
   */
  predicate CanChoose(rows: seq<GaiaRow>, reference: Option<real>, k: nat)
  {
    && k < |rows|
    && if !NoVariable(rows) then FirstVariable(rows) == Some(k)
       else reference.Some? && forall j | 0 <= j < |rows| ::
              ParallaxGap(rows[k], reference.value) <= ParallaxGap(rows[j], reference.value)
  }

  /** The row SelectTarget computes is one the selection may choose. */
  lemma SelectTargetCanChoose(rows: seq<GaiaRow>, reference: Option<real>)
    requires SelectTarget(rows, reference).Chosen?
    ensures CanChoose(rows, reference, SelectTarget(rows, reference).index)
  {
  }

  /** With two non-variable rows at the same parallax either may be the target. */
  lemma ParallaxTieAdmitsEither(a: GaiaRow, b: GaiaRow, reference: real)
    requires !IsVariable(a) && !IsVariable(b) && a.parallax == b.parallax
    ensures CanChoose([a, b], Some(reference), 0) && CanChoose([a, b], Some(reference), 1)
  {
  }

  /** The parallax check: only made when a reference parallax is known. */
  function Mismatch(row: GaiaRow, reference: Option<real>): (m: bool)
    ensures reference.None? ==> !m
    ensures reference.Some? ==>
      (m <==> row.parallax < reference.value - ParallaxTolerance || row.parallax > reference.value + ParallaxTolerance)
  {
    reference.Some? && ParallaxGap(row, reference.value) > ParallaxTolerance
  }

  /** Every row the selection may choose passes or fails the parallax check alike. */
  lemma ChoicesAgreeOnMismatch(rows: seq<GaiaRow>, reference: Option<real>, k1: nat, k2: nat)
    requires CanChoose(rows, reference, k1) && CanChoose(rows, reference, k2)
    ensures Mismatch(rows[k1], reference) == Mismatch(rows[k2], reference)
  {
    if !NoVariable(rows) {
      assert k1 == k2;
    } else {
      var p := reference.value;
      assert ParallaxGap(rows[k1], p) <= ParallaxGap(rows[k2], p);
      assert ParallaxGap(rows[k2], p) <= ParallaxGap(rows[k1], p);
    }
  }

  /**
   * On the parallax rule, the chosen row fails the check exactly when no
   * row of the cone search lies within the tolerance of the reference.
   */
  lemma ClosestMismatchMeansNoneWithin(rows: seq<GaiaRow>, reference: real)
    requires |rows| > 0 && NoVariable(rows)
    ensures SelectTarget(rows, Some(reference)).Chosen?
    ensures Mismatch(rows[SelectTarget(rows, Some(reference)).index], Some(reference))
        <==> forall j | 0 <= j < |rows| :: ParallaxGap(rows[j], reference) > ParallaxTolerance
  {
  }

  /**
   * A variable row is chosen even when another row matches the reference
   * parallax exactly, and then the check fails if the variable row is off.
   */
  lemma VariableRowShadowsExactMatch(exact: GaiaRow, variable: GaiaRow, reference: real)
    requires !IsVariable(exact) && exact.parallax == reference
    requires IsVariable(variable) && ParallaxGap(variable, reference) > ParallaxTolerance
    ensures SelectTarget([exact, variable], Some(reference)) == Chosen(1, FirstVariableRow)
    ensures Mismatch([exact, variable][1], Some(reference))
  {
  }
}
