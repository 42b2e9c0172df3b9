/**
 * The search itself, from the cone-search rows to what the page shows:
 * "No nearby stars found", a parallax mismatch, or the "Nearby Stars"
 * table. The name lookup and the cone search are services outside this
 * model; their answers are the parameters `rows` and `reference`, and the
 * haversine computation is the parameter `sep` (target first, row second).
 */
module Search {
  import opened Catalog
  import opened Selection
  import opened Table
  import opened Sequences

  /** What one search shows. */
  datatype Report =
    | NoNearbyStars             // "No nearby stars found in Gaia DR3."
    | MissingReferenceParallax  // the script stops with an error
    | ParallaxMismatch          // "No matching star found due to parallax mismatch."
    | NearbyStars(table: seq<TableRow>)

  /**
   * The reports a search over `rows` may end in. On a parallax tie any of
   * the equally close rows may be the target, so the table is that of some
   * row the selection may choose.
   */
  predicate Reports(rows: seq<GaiaRow>, reference: Option<real>, sep: (GaiaRow, GaiaRow) -> Separation, report: Report)
  {
    if |rows| == 0 then report == NoNearbyStars
    else if NoVariable(rows) && reference.None? then report == MissingReferenceParallax
    else exists k: nat | k < |rows| && CanChoose(rows, reference, k) ::
      if Mismatch(rows[k], reference) then report == ParallaxMismatch
      else report.NearbyStars? && IsResultTable(report.table, rows, k, sep)
  }

  /** Runs the selection, the parallax check and the table assembly. */
  method FindNearby(rows: seq<GaiaRow>, reference: Option<real>, sep: (GaiaRow, GaiaRow) -> Separation)
    returns (report: Report)
    ensures Reports(rows, reference, sep, report)
  {
    if |rows| == 0 {
      return NoNearbyStars;
    }
    var choice := SelectTarget(rows, reference);
    if choice.MissingReference? {
      return MissingReferenceParallax;
    }
    var k := choice.index;
    SelectTargetCanChoose(rows, reference);
    if Mismatch(rows[k], reference) {
      return ParallaxMismatch;
    }
    var table := AssembleTable(rows, k, sep);
    report := NearbyStars(table);
  }

  /** An empty cone search, and only that, ends in "No nearby stars found"; no table is shown. */
  lemma EmptyConeShowsNoTable(rows: seq<GaiaRow>, reference: Option<real>, sep: (GaiaRow, GaiaRow) -> Separation, report: Report)
    requires Reports(rows, reference, sep, report)
    ensures report == NoNearbyStars <==> |rows| == 0
  {
  }

  /**
   * A mismatch is reported exactly when a reference parallax is known and
   * the chosen row is further than the tolerance from it, on either rule;
   * which of several equally close rows is taken does not matter.
   */
  lemma MismatchExactly(rows: seq<GaiaRow>, reference: Option<real>, sep: (GaiaRow, GaiaRow) -> Separation, report: Report)
    requires Reports(rows, reference, sep, report)
    ensures report == ParallaxMismatch <==>
      && SelectTarget(rows, reference).Chosen?
      && reference.Some?
      && ParallaxGap(rows[SelectTarget(rows, reference).index], reference.value) > ParallaxTolerance
  {
    var c := SelectTarget(rows, reference);
    if c.Chosen? {
      SelectTargetCanChoose(rows, reference);
      var k: nat :| k < |rows| && CanChoose(rows, reference, k) &&
        if Mismatch(rows[k], reference) then report == ParallaxMismatch
        else report.NearbyStars? && IsResultTable(report.table, rows, k, sep);
      ChoicesAgreeOnMismatch(rows, reference, k, c.index);
    }
  }

  function TableDesignation(r: TableRow): string
  {
    r.designation
  }

  function RowDesignation(r: GaiaRow): string
  {
    r.designation
  }

  /** The designation column of a table, in table order. */
  function Names(t: seq<TableRow>): seq<string>
  {
    MapSeq(t, TableDesignation)
  }

  /** The designations of cone-search rows, in catalogue order. */
  function RowNames(rows: seq<GaiaRow>): seq<string>
  {
    MapSeq(rows, RowDesignation)
  }

  /** Reordering table rows reorders their designations the same way. */
  lemma NamesOfPermutation(a: seq<TableRow>, b: seq<TableRow>)
    requires multiset(a) == multiset(b)
    ensures multiset(Names(a)) == multiset(Names(b))
  {
    MapPermutation(a, b, TableDesignation);
  }

  /** Target plus neighbours carry the designations of the cone search, each once. */
  lemma CandidateNames(rows: seq<GaiaRow>, sel: nat, sep: (GaiaRow, GaiaRow) -> Separation)
    requires sel < |rows|
    ensures multiset(Names([TargetRow(rows[sel])] + Neighbours(rows, sel, sep))) == multiset(RowNames(rows))
  {
    var ordered := [TargetRow(rows[sel])] + Neighbours(rows, sel, sep);
    var rest := RowNames(Drop(rows, sel));
    assert Names(ordered) == [rows[sel].designation] + rest;
    MapDrop(rows, sel, RowDesignation);
  }

  /**
   * Every cone-search row appears in a result table exactly once (by
   * designation), so the table has as many rows as the cone search.
   */
  lemma ResultTableCoversCone(t: seq<TableRow>, rows: seq<GaiaRow>, sel: nat, sep: (GaiaRow, GaiaRow) -> Separation)
    requires sel < |rows| && IsResultTable(t, rows, sel, sep)
    ensures multiset(Names(t)) == multiset(RowNames(rows))
    ensures |t| == |rows|
  {
    var ordered := [TargetRow(rows[sel])] + Neighbours(rows, sel, sep);
    assert multiset(t) == multiset(ordered);
    NamesOfPermutation(t, ordered);
    CandidateNames(rows, sel, sep);
    assert |t| == |multiset(t)| == |ordered|;
  }

  /** A search that shows a table shows every cone-search row in it exactly once. */
  lemma TableCoversCone(rows: seq<GaiaRow>, reference: Option<real>, sep: (GaiaRow, GaiaRow) -> Separation, report: Report)
    requires Reports(rows, reference, sep, report) && report.NearbyStars?
    ensures multiset(Names(report.table)) == multiset(RowNames(rows))
    ensures |report.table| == |rows|
  {
    var k: nat :| k < |rows| && CanChoose(rows, reference, k) &&
      if Mismatch(rows[k], reference) then report == ParallaxMismatch
      else report.NearbyStars? && IsResultTable(report.table, rows, k, sep);
    assert !Mismatch(rows[k], reference);
    ResultTableCoversCone(report.table, rows, k, sep);
  }

  /**
   * When every other row lies at a defined, positive distance, the target
   * row (distance 0) heads the table.
   */
  lemma TargetFirstWhenSeparated(rows: seq<GaiaRow>, sel: nat, sep: (GaiaRow, GaiaRow) -> Separation, t: seq<TableRow>)
    requires sel < |rows| && IsResultTable(t, rows, sel, sep)
    requires forall k | 0 <= k < |rows| && k != sel ::
      sep(rows[sel], rows[k]).nominal.Some? && sep(rows[sel], rows[k]).nominal.value > 0.0
    ensures |t| > 0 && t[0] == TargetRow(rows[sel])
  {
    var target := TargetRow(rows[sel]);
    assert target in multiset(t);
    var p :| 0 <= p < |t| && t[p] == target;
    if t[0] != target {
      var ns := Neighbours(rows, sel, sep);
      assert t[0] in multiset(t);
      assert t[0] in multiset(ns);
      var q :| 0 <= q < |ns| && ns[q] == t[0];
      var src := if q < sel then q else q + 1;
      assert t[0].distance == sep(rows[sel], rows[src]).nominal;
      SortedPairwise(t, 0, p);
    }
  }

  /**
   * When some other row has an undefined distance, an undefined distance
   * heads the table and the target row is not first.
   */
  lemma UndefinedNeighbourPrecedesTarget(rows: seq<GaiaRow>, sel: nat, sep: (GaiaRow, GaiaRow) -> Separation, t: seq<TableRow>, k: nat)
    requires sel < |rows| && IsResultTable(t, rows, sel, sep)
    requires k < |rows| && k != sel && sep(rows[sel], rows[k]).nominal.None?
    ensures |t| > 0 && t[0].distance.None? && t[0] != TargetRow(rows[sel])
  {
    var ns := Neighbours(rows, sel, sep);
    var q := if k < sel then k else k - 1;
    assert ns[q] == Tabulate(rows[k], sep(rows[sel], rows[k]));
    assert ns[q] in multiset(t);
    var p :| 0 <= p < |t| && t[p] == ns[q];
    SortedPairwise(t, 0, p);
  }
}
