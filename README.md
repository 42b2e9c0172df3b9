# Star finder: target selection and the "Nearby Stars" table

A Dafny model of the logic inside the star-finder page `gaia_angular.py`.
The user names a star. The page looks the name up, runs a Gaia DR3 cone
search around the star's position and decides which returned row is the star
itself. It then shows every returned row in a table with its angular distance
from that star. The model covers these parts:

- `Units` (`units.dfy`): the exact scalings between milli-arcseconds, arcseconds
  and degrees, and the search radius of the form, a whole number of arcseconds
  from 1 to 300.
- `Catalog` (`catalog.dfy`): a cone-search row (`GaiaRow`), the haversine result
  (`Separation`, whose nominal value and standard deviation may be NaN,
  written `None`), and a table row (`TableRow`). The selected star becomes a
  table row at distance 0 with error 0.
- `Selection` (`selection.dfy`): the choice of the target row. The first row whose
  variability flag is exactly `"VARIABLE"` wins, whatever its parallax. Failing
  that, a row whose parallax is closest to the reference parallax wins. The
  ordering behind that choice is not stable, so on a tie any closest row may
  win: `CanChoose` admits each of them, and `SelectTarget` computes the first.
  Then the fixed 0.01 mas parallax check is applied. If there is no reference
  parallax, the check is skipped. With no variable row and no reference
  parallax, the source subtracts a missing value and stops with an error. The
  model makes this an explicit outcome, `MissingReference`.
- `Table` (`table.dfy`): the table assembly. The target is dropped from the rows.
  Every remaining row gets its distance from the target. The target row is put
  in front, and the table is sorted ascending by distance with NaN first. The
  sort is not stable, so `IsResultTable` admits every sorted arrangement of
  exactly these rows. `AssembleTable` builds one of them with an insertion
  sort, keeping rows with equal distances in their original order.
- `Sequences` (`sequences.dfy`): removing one element of a sequence, and the
  fact that mapping a function over two orderings of the same elements gives
  two orderings of the same images.
- `Search` (`search.dfy`): the whole search from the cone-search answer to what
  the page shows. The outcomes are "no nearby stars", the missing-reference
  error, "parallax mismatch", or the table of any row the selection may
  choose. The lemmas cover the table contents. Each catalogue row appears
  once. NaN distances come first. If every other row has a defined positive
  distance, the target heads the table. If some other row has a NaN
  distance, a NaN row heads it and the target does not.

Floating-point numbers are modelled as exact `real`s. The tolerance `1e-2` is
taken as exactly `0.01`. The haversine computation is a function parameter
`sep(target, row)`, and its results are opaque.

The code uses a fixed 0.01 mas tolerance. It has no identifier match and no
nearest-separation fallback. A variable row is chosen without any parallax
filter. NaN distances sort first. Only the sort puts the target first.

## Model

| member | source | states |
|---|---|---|
| `Units.MasToDegrees` | gaia_angular.py:16-19 | the degree error times 3,600,000 is the mas error; sign and zero are kept |
| `Units.SearchRadiusDegrees` | gaia_angular.py:92 | for a form value of 1 to 300 arcsec, the radius times 3600 is that value and lies in [1/3600, 1/12] degrees |
| `Units.DegreesToArcsec` | gaia_angular.py:43-44 | the arcsecond value divided by 3600 is the degree value; sign and zero are kept |
| `Units.RadiusRoundTrip` | gaia_angular.py:92 | converting the form radius to degrees and back to arcseconds gives the typed value |
| `Units.MasToArcsec` | gaia_angular.py:16-19 | a mas error taken to degrees and then to arcseconds is one thousandth of itself |
| `Catalog.TargetRow` | gaia_angular.py:124-137 | the target's table row carries its designation, position and parallax, with angular distance 0 and error 0 |
| `Selection.FirstVariable` | gaia_angular.py:114-116 | None exactly when no row is flagged "VARIABLE"; otherwise the index of a variable row with no variable row before it |
| `Selection.ClosestParallax` | gaia_angular.py:117-118 | for a non-empty row list, an index whose parallax gap to the reference is at most every row's gap |
| `Selection.SelectTarget` | gaia_angular.py:111-118 | nothing is chosen exactly when there are no rows; the missing-reference error happens exactly when the rows are non-empty, none is variable and the reference is absent; if a variable row exists, the first one is chosen regardless of parallax; otherwise a row with minimal parallax gap is chosen |
| `Selection.SelectTargetCanChoose` | gaia_angular.py:114-118 | the row the selection computes is always one of the rows the source may choose |
| `Selection.ParallaxTieAdmitsEither` | gaia_angular.py:117-118 | with two non-variable rows at the same parallax, either may be the target |
| `Selection.Mismatch` | gaia_angular.py:120 | never a mismatch without a reference parallax; with one, a mismatch exactly when the parallax lies outside reference ± 0.01 mas |
| `Selection.ChoicesAgreeOnMismatch` | gaia_angular.py:114-120 | all rows the selection may choose pass or fail the parallax check alike |
| `Selection.ClosestMismatchMeansNoneWithin` | gaia_angular.py:117-121 | on the parallax rule, the chosen row fails the 0.01 check exactly when every row is more than 0.01 mas from the reference |
| `Selection.VariableRowShadowsExactMatch` | gaia_angular.py:114-121 | a variable row that is off in parallax is chosen over a non-variable row that matches exactly, and then fails the check |
| `Table.SortedPairwise` | gaia_angular.py:176 | in a table sorted between neighbours, any earlier row's distance is at most any later row's |
| `Table.UndefinedDistancesLead` | gaia_angular.py:176 | in a sorted table, every row with a NaN distance comes before every row with a defined distance |
| `Sequences.Drop` | gaia_angular.py:140 | dropping a row leaves one row fewer; the rows before it keep their position and the rows after it move up by one |
| `Sequences.DropRemovesOnce` | gaia_angular.py:140 | the rows left after the drop, plus the dropped row, are the original rows as a multiset |
| `Catalog.Tabulate` | gaia_angular.py:159-172 | a table row keeps every shown catalogue column of its row, and its distance columns are the haversine's nominal value and deviation |
| `Table.Neighbours` | gaia_angular.py:140-172 | the neighbour list has one row fewer than the cone search; rows before the target keep their position and rows after it move up by one, each with its distance from the target |
| `Table.Insert` | gaia_angular.py:176 | inserting a row adds exactly that row to the multiset and keeps a sorted table sorted |
| `Table.SortByDistance` | gaia_angular.py:176 | the result is a permutation of the input rows, of the same length, sorted ascending by distance with NaN first |
| `Table.AssembleTable` | gaia_angular.py:124-176 | the table is sorted by distance with NaN first, holds exactly the target row plus the neighbour rows, and has as many rows as the cone search |
| `Search.FindNearby` | gaia_angular.py:111-176 | the report is "no nearby stars" for an empty cone search, the missing-reference error when no row is variable and no reference exists, a mismatch when the chosen row fails the check, and otherwise a result table for a row the selection may choose |
| `Search.EmptyConeShowsNoTable` | gaia_angular.py:111-112 | "no nearby stars" is reported exactly when the cone search is empty |
| `Search.MismatchExactly` | gaia_angular.py:120-121 | a mismatch is reported exactly when a row is chosen, a reference parallax exists and the chosen row's gap exceeds 0.01, on either rule and whichever closest row is taken on a tie |
| `Search.CandidateNames` | gaia_angular.py:140-175 | the target row and the neighbour rows together carry each cone-search designation exactly once |
| `Search.ResultTableCoversCone` | gaia_angular.py:175-176 | a result table has as many rows as the cone search and carries each cone-search designation exactly once |
| `Search.TableCoversCone` | gaia_angular.py:124-176 | a table the search shows holds every cone-search row exactly once, by designation |
| `Search.TargetFirstWhenSeparated` | gaia_angular.py:175-180 | if every other row has a defined positive distance, the target row is first, which is the row the page highlights |
| `Search.UndefinedNeighbourPrecedesTarget` | gaia_angular.py:175-180 | if some other row has a NaN distance, the first row has a NaN distance and is not the target, so the highlighted row is not the target |

## Left out

- The haversine computation and its first-order error propagation (gaia_angular.py:13-46). This is floating-point trigonometry through the `uncertainties` package. Its result enters the model as the opaque parameter `sep`.
- The name lookup and the cone search (gaia_angular.py:48-80, 98, 110), including their result caching. These are network I/O. Their answers are the parameters `rows` and `reference` of `Search.FindNearby`. The "Star not found." branch (gaia_angular.py:100-101) comes before the cone search and is not modelled.
- Sexagesimal coordinate parsing (gaia_angular.py:103-107). This is a call into astropy.
- The page layout, form, messages and the row styling and centring (gaia_angular.py:10, 83-95, 178-189). These are presentation only.
- NaN parallaxes: parallax is an exact `real`. The source's behaviour when a catalogue parallax or the reference parallax is NaN or masked is not modelled. That behaviour depends on how pandas compares and sorts NaN values.
- Whether the target is first when another row lies at distance 0 or at a negative distance. The sort may then place either row first, and negative distances are not excluded from the opaque haversine result.
- Floating-point rounding in the unit conversions and in the 0.01 comparison. All arithmetic is exact.
