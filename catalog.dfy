/**
 * The records the star finder works on: rows of the Gaia DR3 cone search
 * and rows of the "Nearby Stars" table shown to the user.
 */
module Catalog {

  /** An optional value; `None` stands for a missing (NaN) floating-point value. */
  datatype Option<T> = None | Some(value: T)

  /** One row of the cone search, with the columns the ADQL query selects. */
  datatype GaiaRow = GaiaRow(
    designation: string,
    sourceId: int,
    ra: real,            // degrees
    raError: real,       // milli-arcseconds
    dec: real,           // degrees
    decError: real,      // milli-arcseconds
    parallax: real,      // milli-arcseconds
    parallaxError: real, // milli-arcseconds
    pm: real,            // milli-arcseconds per year
    gMag: real,          // Gaia G mean magnitude
    ruwe: real,
    variableFlag: string)

  /**
   * The angular distance from the target to a row as the haversine
   * computation reports it: nominal value and standard deviation in
   * arcseconds, each possibly NaN.
   */
  datatype Separation = Separation(nominal: Option<real>, stdDev: Option<real>)

  /** One row of the "Nearby Stars" table. */
  datatype TableRow = TableRow(
    designation: string,
    ra: real,
    raError: real,
    dec: real,
    decError: real,
    parallax: real,
    parallaxError: real,
    pm: real,
    ruwe: real,
    gMag: real,
    distance: Option<real>,      // "Angular Distance [arcsec]"
    distanceError: Option<real>) // "Angular Distance Error [arcsec]"

  /**
   * The table row for a catalogue row at the given angular distance from
   * the target: every catalogue column shown keeps its value, and the two
   * distance columns are the haversine's nominal value and deviation.
   */
  function Tabulate(row: GaiaRow, sep: Separation): (t: TableRow)
    ensures t.designation == row.designation
    ensures t.ra == row.ra && t.raError == row.raError && t.dec == row.dec && t.decError == row.decError
    ensures t.parallax == row.parallax && t.parallaxError == row.parallaxError
    ensures t.pm == row.pm && t.ruwe == row.ruwe && t.gMag == row.gMag
    ensures t.distance == sep.nominal && t.distanceError == sep.stdDev
  {
    TableRow(row.designation, row.ra, row.raError, row.dec, row.decError,
             row.parallax, row.parallaxError, row.pm, row.ruwe, row.gMag,
             sep.nominal, sep.stdDev)
  }

  /** The table row of the selected target: its own columns, at distance 0 with error 0. */
  function TargetRow(row: GaiaRow): (t: TableRow)
    ensures t.distance == Some(0.0) && t.distanceError == Some(0.0)
    ensures t.designation == row.designation && t.parallax == row.parallax
    ensures t.ra == row.ra && t.dec == row.dec
  {
    Tabulate(row, Separation(Some(0.0), Some(0.0)))
  }
}
