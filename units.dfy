/**
 * Unit conversions used by the star finder.
 *
 * Catalogue positional errors are published in milli-arcseconds, the cone
 * search takes its radius in degrees, and the haversine result is reported
 * in arcseconds. Every conversion is an exact rational scaling, so it is
 * modelled with `real` arithmetic.
 */
module Units {

  /** Milli-arcseconds in one degree. */
  const MasPerDegree: real := 3600000.0

  /** Arcseconds in one degree. */
  const ArcsecPerDegree: real := 3600.0

  /** Smallest and largest search radius the input form accepts, in arcseconds. */
  const MinRadiusArcsec: int := 1
  const MaxRadiusArcsec: int := 300

  /** A positional error in milli-arcseconds expressed in degrees. */
  function MasToDegrees(mas: real): (deg: real)
    ensures deg * MasPerDegree == mas
    ensures (deg < 0.0) == (mas < 0.0) && (deg == 0.0) == (mas == 0.0)
  {
    mas / MasPerDegree
  }

  /**
   * The cone-search radius in degrees. The form only hands out whole
   * numbers of arcseconds between MinRadiusArcsec and MaxRadiusArcsec.
   */
  function SearchRadiusDegrees(arcsec: int): (deg: real)
    requires MinRadiusArcsec <= arcsec <= MaxRadiusArcsec
    ensures deg * ArcsecPerDegree == arcsec as real
    ensures 1.0 / 3600.0 <= deg <= 1.0 / 12.0
  {
    arcsec as real / ArcsecPerDegree
  }

  /** An angle in degrees expressed in arcseconds. */
  function DegreesToArcsec(deg: real): (arcsec: real)
    ensures arcsec / ArcsecPerDegree == deg
    ensures (arcsec < 0.0) == (deg < 0.0) && (arcsec == 0.0) == (deg == 0.0)
  {
    deg * ArcsecPerDegree
  }

  /** Converting a form radius to degrees and back gives the arcseconds typed in. */
  lemma RadiusRoundTrip(arcsec: int)
    requires MinRadiusArcsec <= arcsec <= MaxRadiusArcsec
    ensures DegreesToArcsec(SearchRadiusDegrees(arcsec)) == arcsec as real
  {
  }

  /** A milli-arcsecond error, taken to degrees and then to arcseconds, is a thousandth of itself. */
  lemma MasToArcsec(mas: real)
    ensures DegreesToArcsec(MasToDegrees(mas)) * 1000.0 == mas
  {
  }
}
