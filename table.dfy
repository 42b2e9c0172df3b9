/**
 * Assembling the "Nearby Stars" table once a target row has been chosen.
 *
 * The chosen row is dropped from the cone-search rows, every remaining row
 * gets the angular distance from the target (an opaque haversine result),
 * the target row is put in front at distance 0, and the table is sorted by
 * angular distance, ascending, with undefined (NaN) distances first. The
 * sort used is not stable: any ordering that is sorted and holds exactly
 * these rows is a possible outcome, and IsResultTable says just that.
 */
module Table {
  import opened Catalog
  import opened Sequences

  /** The order of the sort: NaN before everything, then ascending. */
  predicate DistanceLe(a: Option<real>, b: Option<real>)
  {
    a.None? || (b.Some? && a.value <= b.value)
  }

  /** Each row's distance is at most the next row's. */
  predicate Sorted(t: seq<TableRow>)
  {
    forall i | 0 < i < |t| :: DistanceLe(t[i - 1].distance, t[i].distance)
  }

  /** Sortedness of neighbours carries over to any two rows. */
  lemma {:induction false} SortedPairwise(t: seq<TableRow>, i: nat, j: nat)
    requires Sorted(t) && i <= j < |t|
    ensures DistanceLe(t[i].distance, t[j].distance)
    decreases j - i
  {
    if i < j {
      SortedPairwise(t, i + 1, j);
    }
  }

  /** In a sorted table every row with an undefined distance precedes every row with a defined one. */
  lemma UndefinedDistancesLead(t: seq<TableRow>, i: nat, j: nat)
    requires Sorted(t) && i < |t| && j < |t|
    requires t[i].distance.None? && t[j].distance.Some?
    ensures i < j
  {
    if j <= i {
      SortedPairwise(t, j, i);
    }
  }

  /**
   * The rows other than the target, in catalogue order, with their distance
   * from it: the rows before the target keep their positions, the rows after
   * it move up by one.
   */
  function Neighbours(rows: seq<GaiaRow>, sel: nat, sep: (GaiaRow, GaiaRow) -> Separation): (ns: seq<TableRow>)
    requires sel < |rows|
    ensures |ns| == |rows| - 1
    ensures forall k | 0 <= k < sel :: ns[k] == Tabulate(rows[k], sep(rows[sel], rows[k]))
    ensures forall k | sel <= k < |ns| :: ns[k] == Tabulate(rows[k + 1], sep(rows[sel], rows[k + 1]))
  {
    var rest := Drop(rows, sel);
    seq(|rest|, k requires 0 <= k < |rest| => Tabulate(rest[k], sep(rows[sel], rest[k])))
  }

  /** A table that may be shown for target position `sel`: sorted, and holding the target and its neighbours once each. */
  predicate IsResultTable(t: seq<TableRow>, rows: seq<GaiaRow>, sel: nat, sep: (GaiaRow, GaiaRow) -> Separation)
    requires sel < |rows|
  {
    && Sorted(t)
    && multiset(t) == multiset{TargetRow(rows[sel])} + multiset(Neighbours(rows, sel, sep))
  }

  /** Inserts a row into a sorted table after every row that does not sort after it. */
  function Insert(t: seq<TableRow>, x: TableRow): (r: seq<TableRow>)
    ensures multiset(r) == multiset(t) + multiset{x}
    ensures |r| > 0 && (r[0] == x || (|t| > 0 && r[0] == t[0]))
    ensures Sorted(t) ==> Sorted(r)
  {
    if |t| == 0 then [x]
    else if DistanceLe(t[0].distance, x.distance) then
      var rest := Insert(t[1..], x);
      assert t == [t[0]] + t[1..];
      [t[0]] + rest
    else [x] + t
  }

  /**
   * Sorts table rows ascending by angular distance with undefined
   * distances first, as one of the orders the unstable sort may produce.
   */
  method SortByDistance(rows: seq<TableRow>) returns (table: seq<TableRow>)
    ensures Sorted(table)
    ensures multiset(table) == multiset(rows)
    ensures |table| == |rows|
  {
    table := [];
    var j := 0;
    while j < |rows|
      invariant 0 <= j <= |rows|
      invariant Sorted(table)
      invariant multiset(table) == multiset(rows[..j])
    {
      assert rows[..j + 1] == rows[..j] + [rows[j]];
      table := Insert(table, rows[j]);
      j := j + 1;
    }
    assert rows[..|rows|] == rows;
    assert |table| == |multiset(table)| == |multiset(rows)| == |rows|;
  }

  /**
   * Builds the table for the target at position `sel`: drop it from the
   * rows, give every other row its distance from the target, put the
   * target row in front, and sort by distance with undefined ones first.
   */
  method AssembleTable(rows: seq<GaiaRow>, sel: nat, sep: (GaiaRow, GaiaRow) -> Separation)
    returns (table: seq<TableRow>)
    requires sel < |rows|
    ensures IsResultTable(table, rows, sel, sep)
    ensures |table| == |rows|
  {
    var target := rows[sel];

    // drop the target, then attach the distance columns to what is left
    var rest := Drop(rows, sel);
    var others: seq<TableRow> := [];
    var i := 0;
    while i < |rest|
      invariant 0 <= i <= |rest|
      invariant |others| == i
      invariant forall k | 0 <= k < i :: others[k] == Tabulate(rest[k], sep(target, rest[k]))
    {
      others := others + [Tabulate(rest[i], sep(target, rest[i]))];
      i := i + 1;
    }
    assert others == Neighbours(rows, sel, sep);

    // concatenate and sort
    table := SortByDistance([TargetRow(target)] + others);
  }
}
