# A verified model of the FenixSpoon server

FenixSpoon runs 2-D field solvers behind a job service: a caller submits a geometry and
parameters, a solve runs in the background and streams progress events, and the result is stored,
reused for identical submissions, queried, swept over and optimised. This project models the parts
of the server whose purpose is a theorem, and proves those theorems for every input, every run and
every interleaving. Numbers are exact reals; the golden ratio is any `r` with `0 < r` and
`r*r + r == 1`.

Check everything with `dafny verify dfyconfig.toml` (Dafny 4.11).

| module | models |
|---|---|
| `GoldenSection` | the bounded scalar search and its replay over the answers so far |
| `OptimizationSearch` | the search driver and the report that rebuilds it from the jobs |
| `Trajectories` | what the rows, the best and the stop reason of an optimization's report say |
| `Magnetostatics` | the in-place relaxation sweeps of the magnetostatic solver |
| `Staircase` | the surface of a masked body and the loads a pressure on it integrates to |
| `FieldQuadrature` | integrals and means over triangulations and lattices |
| `PointInPolygon` | the even-odd rule, and region rasterisation built on it |
| `Hotspots` | the greedy selection of spread-out extrema |
| `ProgressDelivery` | the event log, the in-process bus and the subscriber loop |
| `ObjectStore` | lock-free object ids, immutable revisions, patches |
| `JobCache` | the job store, the result cache, quotas, reconciliation and retention |
| `Counting` | what the store's counts and the life of one job come to, in its own records |
| `Retention` | exactly which retention purges keep the cache and the store's counts sound |
| `QuotasInForce` | the quotas measured on the jobs themselves, under any retention and under one lifetime |
| `CachedSearch` | what the result cache answers once an optimization over it has ended |
| `JobManager` | the live entries of the job manager and what a poll is told |
| `ByteText`, `Framing` | both message framings and the reader that tells them apart |
| `WireText` | the framings, header fields and numbers of the wire, character by character |
| `RpcServer` | the JSON-RPC read loop, handlers, progress streams and pump |
| `Sweep` | the factorial enumeration of a sweep and its response curves |
| `CurveText` | the limits of grids and curves and the names of traces, in numbers and characters |
| `Jobs`, `Plane`, `Sums`, `RealMath`, `Wrappers` | job statuses, points, shared mathematics and `Option`/`Result` |

Code that works step by step is modelled as classes and loops proved against a specification
function (`Replay` against `Walk`, `Sweep` against `Next`, `ReadMessage` against `Read`, and so
on); concurrency is a state machine whose steps are what the program does between two suspensions
or in one file operation, and the theorems quantify over every sequence of enabled steps.
Beside each specification function stand laws that do not mention it, in the numbers, characters,
statuses and records a caller sees.

## What holds, what does not, and exactly when

* **Delivery.** On a log that is not shared with the job's mirror, a subscriber has received a
  gap-free prefix of its job's log at every moment, and the log up to its first terminal event when
  it ends (`DeliveryIsExact`). This needs publishes in sequence order: `NothingIsLostExactlyInOrder`
  shows that order is exactly what the de-duplication relies on.
* **The in-memory store shares its log with the job's mirror** (server/fenixspoon/store.py:297,
  server/fenixspoon/backends.py:127), so there the log holds every event twice and the store answers
  2, 4, 6. The log is what was emitted if and only if the two lists are distinct, or nothing was
  emitted (`LogIsWhatWasEmitted`, `SharedListRepeats`). A subscriber of a shared log is offered
  twice what was emitted before it read the history and once what came after
  (`SharedLogIsOfferedTwice`); cut at the first terminal event it yields what it should if and only
  if nothing was emitted before, or the very first event ended the job (`SharedLogIsYieldedExactly`).
* **The best point of a search can lie outside the reported bracket** on ties
  (`TiedBestFallsOutside`). It does so if and only if a later evaluation to its right tied it and
  the search then took two more answers, or one that tied again (`BestIsBracketedExactly`); never
  for a strictly unimodal objective.
* **A report rebuilds its run** if and only if for every row the store finds no job where the
  submission was refused, and elsewhere one that reads the same, and a refused tail is still
  remembered (`ReplayEqualsRun`, `ReportEqualsRunReport`). What is remembered is gone after a restart
  or once another search has started (server/fenixspoon/core/service.py:751), and then a run that
  ended in a refusal is reported as incomplete, without its last row.
  Over the result cache that is so if and only if every row can be had again
  (`CachedSearch.ReportOverTheCacheExactly`): its job is done and still stored under its key, or
  nothing reusable is stored under its key and the recorded inputs answer as the run did. So a job
  submitted later under the key of an evaluation that failed takes its place
  (`ResubmissionTakesOver`). For an undisturbed first run it is so if and only if no evaluation
  joined somebody else's job that then failed or was cancelled (`UndisturbedReportExactly`).
  Without content addresses it is so if and only if the oldest recorded job of each row's index reads
  as the run's own (`UncachedReplayEqualsRunExactly`), which a re-run's do not.
* **Retention does not look at what is still being solved** (server/fenixspoon/jobs.py:424-433): a
  job purged on its way writes its record back. In every reachable state and under any quotas, a
  purge leaves one reusable job for each key in every later state if and only if it removed no keyed
  job still being solved (`PurgeKeepsOneReusableExactly`). As the store counts them, the concurrency
  quotas are kept if and only if it removed no job that had not started and whose owner has such a
  quota (`PurgeKeepsConcurrencyExactly`), and the hourly quotas if and only if it removed no job of
  the last hour still being solved whose owner has one (`PurgeKeepsHourlyExactly`).
* **What the store counts is not what runs.** A purged job that has started is not counted and still
  runs: no owner ever has more solves in progress than its quota if and only if the purge removed no
  job still being solved, started or not, whose owner has such a quota (`PurgeKeepsProgressExactly`).
  And a finished job that is purged frees its place in the hour: with one lifetime for all jobs, the
  jobs accepted in an hour are within an owner's hourly quota in every run if and only if the lifetime
  is off or at least an hour (`HourlyQuotaHoldsExactly`).
* **Trace names can repeat.** Two held values that print alike under six digits, 1.0000001 and
  1.0000002, give two traces one name, and the series model then refuses the whole report
  (server/fenixspoon/series.py:187-189). The report is refused if and only if two lines drawn for
  some metric hold values that all print alike (`ReportIsRefusedExactly`, `DistinctValuesAreRefused`).
* **A live entry lags the store.** While this process holds a job, a poll answers from the live
  entry, and nothing but the end of the solve writes to it, although the comment at
  server/fenixspoon/jobs.py:291-293 has it ahead of the store. Whatever retention removes, a poll of
  a stored job says what the store says if and only if the job has no live entry or its solve has not
  started, so a solve's `running` is never polled in the process that runs it
  (`PollLagsExactlyWhileSolving`). Still no job is ever missing and no answer goes back
  (`NoJobIsMissing`, `PollsNeverGoBack`).
* **A staircase is closed** on any mask clear of the grid edge. On an arbitrary mask a constant
  pressure pushes with no net force if and only if opposite grid edges carry equally many body
  nodes (`ConstantPressureForceIff`).

## Model

| member | source | states |
|---|---|---|
| GoldenSection.Replay | server/fenixspoon/core/optimize.py:208-250 | the loop over the answers returns exactly the specified walk: the same bracket and the same next point, for any answers and any tolerance |
| GoldenSection.KnownShape | server/fenixspoon/core/optimize.py:225-250 | after n answers the four points keep their order and golden proportions inside the bounds, and the bracket has width r^(n-2) of the range |
| GoldenSection.StopsExactlyAtTolerance | server/fenixspoon/core/optimize.py:253-261 | there is no next point if and only if n >= 2 and r^(n-2) <= tolerance |
| GoldenSection.UnstoppedWalksFreely | server/fenixspoon/core/optimize.py:264-277 | until it stops, a search with a tolerance is in the same bracket as one without |
| GoldenSection.BracketWidth | server/fenixspoon/core/optimize.py:264-277 | after n >= 2 answers the reported bracket has width exactly r^(n-1) of the range, lies in the bounds, and holds the next point strictly inside |
| GoldenSection.PointsWithinBounds | server/fenixspoon/core/optimize.py:253-261 | every point ever asked for lies within the bounds |
| GoldenSection.InteriorWasSeen | server/fenixspoon/core/optimize.py:234-250 | both interior points carry values reported there, an end that moved was itself evaluated, and nothing seen is below the better interior point |
| GoldenSection.LowestSeenIsBracketed | server/fenixspoon/core/optimize.py:264-277 | for any objective some evaluated point with the lowest value seen lies in the reported bracket |
| GoldenSection.TiedBestFallsOutside | server/fenixspoon/core/service.py:968-978 | three equal answers leave the reported best outside the reported bracket |
| GoldenSection.BestIsBracketedExactly | server/fenixspoon/core/service.py:968-978 | for any objective the reported best lies in the reported bracket if and only if no later tie to its right was followed by two more answers or by one more tie |
| GoldenSection.UniqueBestIsBracketed | server/fenixspoon/core/service.py:968-978 | without a tie at the lowest value the reported best lies in the reported bracket |
| GoldenSection.MinimiserIsBracketed | server/fenixspoon/core/optimize.py:208-250 | for a strictly unimodal objective the minimiser is in every bracket a replay reaches |
| GoldenSection.UnimodalBestIsBracketed | server/fenixspoon/core/service.py:968-978 | for a strictly unimodal objective the reported best is in the reported bracket, ties or not |
| GoldenSection.ConvergedLocatesMinimiser | server/fenixspoon/core/optimize.py:253-277 | a converged search has minimiser and best in one bracket no wider than r * tolerance of the range |
| GoldenSection.MonotoneTargetIsUnimodal | server/fenixspoon/core/optimize.py:116-122 | squared distance of a strictly monotone metric to an attained target is strictly unimodal, with the parameter that hits it as minimiser |
| GoldenSection.TargetIsHit | server/fenixspoon/core/optimize.py:116-122 | hitting a target with a strictly monotone metric: the converged best is within r * tolerance of the range of the parameter that hits it |
| GoldenSection.FirstLowest | server/fenixspoon/core/service.py:969 | the reported best is the first evaluation with the lowest objective |
| OptimizationSearch.SearchService.Search | server/fenixspoon/core/service.py:792-841 | the driver loop reports and remembers exactly the specified run, within the evaluation budget; what that run is in the caller's terms: `Trajectories` |
| OptimizationSearch.SearchService.OptimizationReport | server/fenixspoon/core/service.py:879-929 | the report loop returns exactly the specified replay of the method against the jobs, within the evaluation budget |
| OptimizationSearch.ReplayEqualsRun | server/fenixspoon/core/service.py:879-929 | whatever the store finds and whatever is remembered: the replay rebuilds points, objectives, stop reason and refused tail if and only if for every row it finds no job where the submission was refused and elsewhere one that reads the same, and a refused tail is still remembered |
| OptimizationSearch.ReportEqualsRunReport | server/fenixspoon/core/service.py:879-983 | and whichever search of this optimization is remembered, or none, the two reports are equal in exactly these cases |
| OptimizationSearch.CachedReplayEqualsRunExactly | server/fenixspoon/core/service.py:856-929 | where a content address finds exactly the done jobs, whatever inputs are recorded, the replay is the run if and only if the inputs answer every other row as the run did and a refused tail is remembered |
| OptimizationSearch.FirstCachedRunIsRebuiltExactly | server/fenixspoon/core/service.py:856-929 | where the inputs name the search's own jobs and no others, if and only if no evaluation joined a foreign job that then failed or was cancelled and a refused tail is remembered |
| OptimizationSearch.UncachedFirstRunIsRebuilt | server/fenixspoon/core/service.py:872-893 | without content addresses the recorded inputs of a first run, which are all its own, rebuild it |
| OptimizationSearch.UncachedReplayEqualsRunExactly | server/fenixspoon/core/service.py:872-893 | without content addresses, for any recorded jobs and whatever is remembered, the replay is the run if and only if the oldest job of each index reads as the run's own, none is recorded where the submission was refused, and a refused tail is remembered |
| OptimizationSearch.OldestInputWins | server/fenixspoon/core/service.py:872-877 | of several jobs recorded for one index the oldest is the one a report finds |
| OptimizationSearch.RerunIsShadowedByFirstRun | server/fenixspoon/core/service.py:872-893 | without content addresses, whatever else was recorded: if the oldest job of any row is not the run's own, the report is not the run |
| OptimizationSearch.RowsAreThePoints | server/fenixspoon/core/service.py:796-831 | the rows of a run are the points the method asks for, in order, graded with the answers, and the stop reason says why there is no further row |
| OptimizationSearch.ConvergedReport | server/fenixspoon/core/service.py:960-983 | a converged report stopped at the tolerance, has the first of its lowest points as best, and the method's bracket |
| OptimizationSearch.ConvergedSearchHitsTarget | server/fenixspoon/core/service.py:770-841 | end to end: a converged target search with a strictly monotone metric reports a best within r * tolerance of the range of the parameter that hits the target |
| OptimizationSearch.ConvergedSearchFindsOptimum | server/fenixspoon/core/optimize.py:116-122 | end to end for every sense: minimising a metric that falls to a point and then rises, maximising one that rises and then falls, or hitting a value of a monotone one, a converged search reports a best within r * tolerance of the range of that point |
| Trajectories.RowsReadAsReplies | server/fenixspoon/core/service.py:796-831 | each row is at the point the method asks for and tells its reply: the refusal's message and no job, or the job with its status, metric and error |
| Trajectories.SearchStopsExactly | server/fenixspoon/core/service.py:796-841 | stalled if and only if the last row has no grade, else converged if and only if the method asks for nothing more and budget if and only if it does |
| Trajectories.BestDesign | server/fenixspoon/core/service.py:968-969 | there is a best if and only if some row has a metric, and it has the smallest metric of all when minimising, the largest when maximising, the nearest to the value when hitting a target, the first of equally good ones |
| Trajectories.ReplayTellsTheJobs | server/fenixspoon/core/service.py:879-929 | each row of a replay tells the job found at its point or recorded for its index, and the replay ends converged, at the budget, at a job without a metric, or where no job is stored with what is remembered or as incomplete or not run |
| Trajectories.ReportTellsTheRun | server/fenixspoon/core/service.py:960-983 | the report counts the rows, has a bracket if and only if it has a best, and says not run if and only if it has no row to tell of |
| CachedSearch.FoundExactlyIfDone | server/fenixspoon/core/service.py:606-623 | a lookup of an evaluation's key finds its job if that is done and still stored; if it was not done, or refused by quota, nothing until somebody submits the key again |
| CachedSearch.ReportOverTheCacheExactly | server/fenixspoon/core/service.py:856-929 | over any run of the result cache whose retention spares keyed jobs being solved, whoever submits what, re-runs and refusals of any kind included, the replay is the run if and only if each row's job is done and still stored under its key, or nothing reusable is stored there and the recorded inputs answer as the run did, and a refused tail is remembered |
| CachedSearch.UndisturbedReportExactly | server/fenixspoon/core/service.py:856-929 | for a first run whose done jobs are still stored, with nothing reusable under the other keys and its own recorded inputs, if and only if no evaluation joined a foreign job that then failed or was cancelled and a refused tail is remembered |
| CachedSearch.ResubmissionTakesOver | server/fenixspoon/core/service.py:606-623 | under any quotas and with nothing purged there is a run on which an evaluation's job failed or was cancelled and a job submitted later is found under its key |
| Magnetostatics.Reluctivity | server/fenixspoon/solvers/mock_magnetostatics.py:135 | positive whatever permeability the geometry names: one over mu0 times the permeability, or one over the floor under it |
| Magnetostatics.FacesAreShared | server/fenixspoon/solvers/mock_magnetostatics.py:137-142 | a face has one coefficient, whichever of its two cells computes it |
| Magnetostatics.FacesCarrySeriesFlux | server/fenixspoon/solvers/mock_magnetostatics.py:137-142 | each of a node's four faces carries the flux of two half cells in series: at the interface value where both half cells carry the same flux, that is the face's flux, with that neighbour's reluctivity and that direction's spacing |
| Magnetostatics.FaceUnderTheFloor | server/fenixspoon/solvers/mock_magnetostatics.py:66-67 | where the two reluctivities add up to less than the floor, the floor stands for their sum |
| Magnetostatics.SweptNodeBalances | server/fenixspoon/solvers/mock_magnetostatics.py:144-157 | a sweep leaves each interior node at the value at which the four fluxes from its neighbours' old values and its current add up to nothing |
| Magnetostatics.RelaxInterior | server/fenixspoon/solvers/mock_magnetostatics.py:151-157 | the new interior is the five-point weighted mean of the old grid, computed in full before anything is written |
| Magnetostatics.LargestChange | server/fenixspoon/solvers/mock_magnetostatics.py:158 | the residual is the largest change over the interior, attained at some node |
| Magnetostatics.Sweep | server/fenixspoon/solvers/mock_magnetostatics.py:151-159 | one sweep in place leaves exactly the specified next grid and returns its residual |
| Magnetostatics.Solve | server/fenixspoon/solvers/mock_magnetostatics.py:144-165 | the solve returns the iterate it counted, stops early only below 1e-14, its residuals never rise, the boundary stays zero, and current is conserved to within residual times the sum of the diagonal |
| Magnetostatics.SweepContracts | server/fenixspoon/solvers/mock_magnetostatics.py:151-159 | two grids that agree to within a bound agree to within it after a sweep of each |
| Magnetostatics.ResidualNeverIncreases | server/fenixspoon/solvers/mock_magnetostatics.py:151-159 | for any positive reluctivities and any currents a sweep's residual is at most the one before |
| Magnetostatics.ResidualsFall | server/fenixspoon/solvers/mock_magnetostatics.py:148-165 | over a whole solve the residuals of successive sweeps never rise |
| Magnetostatics.BoundaryStaysZero | server/fenixspoon/solvers/mock_magnetostatics.py:144-159 | every sweep leaves the outer boundary at zero |
| Magnetostatics.PotentialGrows | server/fenixspoon/solvers/mock_magnetostatics.py:144-159 | with non-negative currents every sweep leaves the potential non-negative and pointwise no smaller than before |
| Magnetostatics.InteriorFluxesCancel | server/fenixspoon/solvers/mock_magnetostatics.py:137-157 | fluxes through interior faces cancel: the divergence over the interior is minus the net flux out through the boundary faces |
| Magnetostatics.FluxImbalanceBound | server/fenixspoon/solvers/mock_magnetostatics.py:137-159 | total interior current and net flux out differ by at most the residual times the sum of the diagonal, so a zero residual is exact conservation |
| Magnetostatics.ReturnedPotentialConserves | server/fenixspoon/solvers/mock_magnetostatics.py:148-165 | the bound measured by a sweep holds of the potential that sweep produced |
| Staircase.BodySurface | server/fenixspoon/solvers/aerodynamics.py:519-575 | the walk returns every face from a body node to a fluid node beside it, half way, facing it and once; the mask is empty if and only if no node is body, and has no wetted surface if and only if every node is |
| Staircase.SurfaceIsWetted | server/fenixspoon/solvers/aerodynamics.py:537-575 | the faces of the walk are exactly those between the flags of the mask, with midpoint, normal, length and fluid node, and none twice |
| Staircase.NoFaceExactly | server/fenixspoon/solvers/aerodynamics.py:566-575 | there is no face if and only if the whole mask is body or the whole mask is fluid |
| Staircase.SurfaceSum | server/fenixspoon/solvers/aerodynamics.py:519-575 | an integral over the faces is four sums over the lattice |
| Staircase.ColumnDivergence | server/fenixspoon/solvers/aerodynamics.py:531-575 | vertical faces integrate to the change of the integrand across the body, less what the left and right grid edges cut off |
| Staircase.RowDivergence | server/fenixspoon/solvers/aerodynamics.py:531-575 | horizontal faces likewise, with the lower and upper grid edges |
| Staircase.ForceX | server/fenixspoon/solvers/aerodynamics.py:617-621 | for any pressure the x force is the pressure change across the body's nodes plus what the grid edges cut off |
| Staircase.ForceY | server/fenixspoon/solvers/aerodynamics.py:617-621 | the same along y |
| Staircase.AffinePressureForce | server/fenixspoon/solvers/aerodynamics.py:617-621 | on a mask clear of the grid edge a pressure affine in the face midpoint pushes with exactly minus its gradient times the masked area |
| Staircase.Moment | server/fenixspoon/solvers/aerodynamics.py:623-628 | for any pressure and any mask the moment is the change of the levered pressure across the body's nodes, less what the grid edges cut off |
| Staircase.AffinePressureMoment | server/fenixspoon/solvers/aerodynamics.py:623-628 | on a mask clear of the grid edge an affine pressure has exactly the moment of its gradient over the masked cells about the quarter-chord point |
| Staircase.LoadsResolveTheForce | server/fenixspoon/solvers/aerodynamics.py:617-640 | lift and drag are the force across and along the stream, normal and axial force those across and along the chord, each over the chord, and the moment over its square |
| Staircase.AffinePressureLoads | server/fenixspoon/solvers/aerodynamics.py:617-640 | at any incidence and about any chord, an affine pressure on a mask clear of the grid edge has the loads of minus its gradient times the masked area |
| Staircase.ConstantPressureMoment | server/fenixspoon/solvers/aerodynamics.py:623-628 | on a mask clear of the grid edge a constant pressure has no moment about any point |
| Staircase.ConstantPressureLoadsNothing | server/fenixspoon/solvers/aerodynamics.py:608-640 | on a mask clear of the grid edge every load coefficient of a constant pressure is zero, at any incidence |
| Staircase.ConstantPressureForceIff | server/fenixspoon/solvers/aerodynamics.py:537-544 | on any mask a constant non-zero pressure has no net force if and only if opposite grid edges carry equally many body nodes |
| FieldQuadrature.ComputeNodalWeights | server/fenixspoon/fields.py:165-177 | the scatter-add loop over corners and triangles leaves exactly the specified dual areas |
| FieldQuadrature.IntegralIsWeightedSum | server/fenixspoon/fields.py:234-244 | the per-triangle integral equals the sum of nodal values times dual-area weights |
| FieldQuadrature.WeightsSumToArea | server/fenixspoon/fields.py:165-177 | the dual areas sum to the area of the mesh |
| FieldQuadrature.AreaIgnoresOrder | server/fenixspoon/fields.py:156-162 | a triangle's area does not depend on the order of its corners |
| FieldQuadrature.AreaMovesAlong | server/fenixspoon/fields.py:156-162 | nor on where it lies |
| FieldQuadrature.AreaIsHalfBaseTimesHeight | server/fenixspoon/fields.py:156-162 | on a base along an axis it is half the base times the height |
| FieldQuadrature.AreaSplits | server/fenixspoon/fields.py:156-162 | and a cut from a corner to the opposite side splits it in two |
| FieldQuadrature.RectangleOfTwoTriangles | server/fenixspoon/fields.py:234-244 | a rectangle cut along a diagonal has its own area, and an affine field integrates to that times its value at the centre |
| FieldQuadrature.MeanTimesAreaIsIntegral | server/fenixspoon/fields.py:193-208 | the mean exists exactly for positive area; mean times area is the integral, and the mean lies between the two extrema |
| FieldQuadrature.Extremum | server/fenixspoon/fields.py:183-190 | the extremum query returns the first valid index nothing valid exceeds, or nothing when no point is valid |
| FieldQuadrature.AxisWeights | server/fenixspoon/fields.py:224-231 | half weights at both ends of an axis of more than one point, one elsewhere |
| FieldQuadrature.PointsAreCells | server/fenixspoon/fields.py:211-241 | on at least 2 by 2 points the weighted sum equals the sum over cells of the four-corner average, for arbitrary values |
| FieldQuadrature.BilinearMids | server/fenixspoon/fields.py:211-241 | the trapezoids of a field bilinear in x and y telescope to its antiderivative over the bounds |
| FieldQuadrature.GridIntegralIsExact | server/fenixspoon/fields.py:234-241 | on an unmasked lattice the query answers exactly from 2 by 2 points on; its value is the sum over cells, its area is that of the bounds, and a bilinear field is integrated exactly |
| FieldQuadrature.MaskedIntegralIsOfLive | server/fenixspoon/fields.py:234-241 | with a mask the value is that of the field that is nothing outside it, and the area that of the field that is one inside |
| PointInPolygon.PointsInPolygon | server/fenixspoon/fields.py:418-436 | the loop over edges, for all points at once, gives each point the parity of the edges hit to its right |
| PointInPolygon.HitExactly | server/fenixspoon/fields.py:429-433 | an edge counts if and only if the point is at or above its lower end, below its upper one and strictly to the left of it, whichever end comes first |
| PointInPolygon.CrossingsAreEven | server/fenixspoon/fields.py:430-432 | any horizontal line makes an even number of crossings round a closed outline |
| PointInPolygon.OutsideTheBoxIsOutside | server/fenixspoon/fields.py:418-436 | no point left of, below, or on or beyond the right or upper side of the bounding box is inside |
| PointInPolygon.RotationChangesNothing | server/fenixspoon/fields.py:418-436 | the answer does not depend on the vertex the list starts at |
| PointInPolygon.ReversalChangesNothing | server/fenixspoon/fields.py:418-436 | nor on the direction the outline is walked in |
| PointInPolygon.ChordSplitsTheOutline | server/fenixspoon/fields.py:418-436 | cut along a chord, a point is inside the whole exactly when it is inside one part and not the other |
| PointInPolygon.RectangleIsHalfOpen | server/fenixspoon/fields.py:418-436 | an axis-aligned rectangle holds exactly its half-open box |
| PointInPolygon.RasterizeRegions | server/fenixspoon/solvers/mock_magnetostatics.py:59-63 | painting region by region gives each point the property of the last region covering it, the default where that region lacks it, and the background where none does |
| Hotspots.Budget | server/fenixspoon/fields.py:439-446 | refused if and only if below one; otherwise a request within the ceiling is kept, one above it is the ceiling, and no request is the default |
| Hotspots.NearExactly | server/fenixspoon/fields.py:377-387 | too near means closer than a tenth of the diagonal of the bounds |
| Hotspots.SomeOrder | server/fenixspoon/fields.py:368-376 | every field has an order of its valid points by extremeness |
| Hotspots.Select | server/fenixspoon/fields.py:368-389 | the loop with its early break picks exactly the specified greedy selection, or refuses a bad budget or an empty field |
| Hotspots.PickedIsSelection | server/fenixspoon/fields.py:382-389 | picks are valid, within budget, pairwise at least the radius apart and in order of extremeness, starting with the first of the order |
| Hotspots.PickedCover | server/fenixspoon/fields.py:382-389 | each point passed over is near a pick at least as extreme, unless a full selection is all at least as extreme |
| Hotspots.HotspotsAreSpreadAndComplete | server/fenixspoon/fields.py:360-394 | all of this over the whole field: the first pick has the greatest value of all valid points, or the least, and when the budget is not used up every valid point is picked or near a pick |
| Hotspots.HottestFirst | server/fenixspoon/fields.py:360-394 | the values of the picks fall from pick to pick, or rise for a minimum |
| Hotspots.PassedOverForBetter | server/fenixspoon/fields.py:382-389 | a point left out while the budget lasts is near a pick with at least as great a value, or as small for a minimum |
| ProgressDelivery.EventSink.Emit | server/fenixspoon/execution.py:58-62 | mirror, then store, then publish under the stored number; a mirror that is the stored log makes the log grow by two |
| ProgressDelivery.EventSink.EmitAll | server/fenixspoon/execution.py:58-62 | what a sequence of emits leaves in the stored log, with and without sharing |
| ProgressDelivery.InProcessEventBus.Publish | server/fenixspoon/events.py:80-82 | every subscriber of the job gets the event with its number, and nothing else is touched |
| ProgressDelivery.InProcessEventBus.Unsubscribe | server/fenixspoon/events.py:89-95 | removes one queue, forgets a job nobody listens to, and is idempotent |
| ProgressDelivery.StartOnMemoryStore | server/fenixspoon/backends.py:122-127 | on the in-memory store the mirror is the stored log itself |
| ProgressDelivery.SharedListRepeats | server/fenixspoon/store.py:297 | there the first event is already replayed twice |
| ProgressDelivery.LogIsWhatWasEmitted | server/fenixspoon/store.py:294-330 | the log is what was emitted if and only if the mirror is another list or nothing was emitted |
| ProgressDelivery.CopyingStoreKeepsHistory | server/fenixspoon/backends.py:122-127 | on a store that copies, with a mirror or without, the history is what was emitted |
| ProgressDelivery.Subscribe | server/fenixspoon/jobs.py:443-458 | the generator yields history and newer live events up to and with the first `done`, `failed` or `cancelled`, all of them where there is none, and ends exactly when there is one |
| ProgressDelivery.CutWhereItEnds | server/fenixspoon/jobs.py:443-462 | of a list whose first `done`, `failed` or `cancelled` is at t exactly the first t + 1 events are yielded |
| ProgressDelivery.KeptWholeUnlessEnded | server/fenixspoon/jobs.py:443-462 | a list without any of these is yielded whole, and nothing ends |
| ProgressDelivery.OverlapIsExact | server/fenixspoon/jobs.py:452-456 | a feed attached no later than the history was read completes it without gap or repeat, whatever the overlap |
| ProgressDelivery.SubscriptionIsComplete | server/fenixspoon/jobs.py:435-458 | on an unshared log, history and feed together yield the log up to its first terminal event |
| ProgressDelivery.SharedLogIsOfferedTwice | server/fenixspoon/store.py:294-330 | on a log shared with the mirror a subscriber is offered twice what was emitted before it read the history and once what came after: what was emitted if and only if nothing was before |
| ProgressDelivery.SharedLogIsYieldedExactly | server/fenixspoon/jobs.py:443-458 | cut at the first terminal event, that is what an unshared log would yield if and only if nothing was emitted before or the very first event is terminal |
| ProgressDelivery.NothingIsLostExactlyInOrder | server/fenixspoon/jobs.py:452-456 | of deliveries that are all news the loop keeps every one if and only if they arrive in sequence order |
| ProgressDelivery.ReorderingLosesAnEvent | server/fenixspoon/jobs.py:453-455 | two reordered publishes lose the earlier event |
| ProgressDelivery.StepKeepsInv | server/fenixspoon/jobs.py:435-458 | every emit, publish, attach, history read, delivery and departure keeps each subscriber consistent with its log |
| ProgressDelivery.DeliveryIsExact | server/fenixspoon/jobs.py:435-458 | on unshared logs, over every interleaving with several subscribers: what each has received is a prefix of its log with no `done`, `failed` or `cancelled` before its last event; one that ended has received one as its last; one that caught up has all of the log |
| ProgressDelivery.RunOnlyExtends | server/fenixspoon/events.py:80-106 | nothing delivered is taken back and no log is rewritten |
| ObjectStore.ObjectFileStore.NextNumber | server/fenixspoon/objects.py:206-214 | one past the highest number in use |
| ObjectStore.ObjectFileStore.Allocate | server/fenixspoon/objects.py:181-190 | the first free number from the start on, whose directory is the only change |
| ObjectStore.ObjectFileStore.Create | server/fenixspoon/objects.py:171-203 | a new reference with revision 1, and nothing else changed |
| ObjectStore.ObjectFileStore.HeadRevision | server/fenixspoon/objects.py:256-265 | the highest revision written |
| ObjectStore.ObjectFileStore.Get | server/fenixspoon/objects.py:238-254 | the pinned revision or the head; somebody else's object is no object |
| ObjectStore.ObjectFileStore.PatchHead | server/fenixspoon/core/workspace.py:268-309 | writes what the patch makes of the head's body, with the title given or else kept, as the next revision; or refuses for exactly the reason named and writes nothing; a pinned reference is always refused |
| ObjectStore.PatchedMeansPatch | server/fenixspoon/core/workspace.py:281-309 | a revision is a patch of another, or a refusal its answer, exactly when body, owner, kind, number and title say so |
| ObjectStore.SoundHead | server/fenixspoon/objects.py:256-273 | on a sound disk an object's revisions are exactly 1 to head |
| ObjectStore.UninterruptedPatch | server/fenixspoon/core/workspace.py:278-309 | three uninterrupted file operations write the patched head as the next revision, or refuse as one call does |
| ObjectStore.UninterruptedCreate | server/fenixspoon/objects.py:171-203 | a create at a free number makes that directory and writes what it was asked to as revision 1; at a taken one it goes on with the next |
| ObjectStore.RequestsAreKept | server/fenixspoon/core/workspace.py:278-309 | over any run a process does what it was asked to or is refused |
| ObjectStore.NobodyIsStuck | server/fenixspoon/core/workspace.py:278-309 | any request may start, and only a process that has created, patched or been refused has no operation left |
| ObjectStore.CreateNeverFails | server/fenixspoon/objects.py:192-203 | after its mkdir a create never loses the race for revision 1 |
| ObjectStore.StepKeepsInv | server/fenixspoon/objects.py:171-234 | every file operation of every process keeps the invariant |
| ObjectStore.RevisionsAreImmutable | server/fenixspoon/objects.py:220-234 | over any run a written revision never changes or disappears |
| ObjectStore.CreatesGetDistinctReferences | server/fenixspoon/objects.py:181-190 | no two creates get the same reference, however they interleave |
| ObjectStore.RevisionsAreOneToHead | server/fenixspoon/objects.py:256-273 | in every reachable state each object's revisions are exactly 1 to head |
| ObjectStore.PatchIsCompareAndSwap | server/fenixspoon/core/workspace.py:281-309 | in every reachable state a patch's write goes through if and only if the revision it was computed from is still the head, and then it is the new head; otherwise the disk is unchanged |
| ObjectStore.NoUpdateIsLost | server/fenixspoon/core/workspace.py:281-309 | every revision past the first was written by exactly one patch and is what that patch makes of the revision just before, body, title, owner and kind; every first one by exactly one create |
| JobCache.MemoryJobStore.Put | server/fenixspoon/store.py:294-323 | an update keeps the stored cache key and reuse count, takes the rest, and touches no other record |
| JobCache.MemoryJobStore.FindCached | server/fenixspoon/store.py:395-406 | the newest reusable job of this owner and key, or none exactly when there is none |
| JobCache.MemoryJobStore.Usage | server/fenixspoon/store.py:389-393 | active jobs, recent jobs and artifact bytes of one owner |
| JobCache.MemoryJobStore.PurgeBefore | server/fenixspoon/store.py:383-387 | removes exactly the records created before the cut-off |
| JobCache.MemoryJobStore.ListJobs | server/fenixspoon/store.py:353-375 | the newest jobs, exactly as many as the limit or as there are |
| JobCache.MemoryJobStore.Reconcile | server/fenixspoon/jobs.py:396-422 | of the newest 10,000 records fails exactly the queued and running ones nobody holds, so all such up to that many records, and touches nothing else |
| JobCache.SubmissionService.Submit | server/fenixspoon/core/service.py:318-346 | a hit is marked and costs no quota, a miss is refused exactly when a quota is used up, otherwise a new queued record is stored |
| Counting.RefusedExactly | server/fenixspoon/core/identity.py:99-117 | a submission that hits nothing is refused if and only if a non-zero quota of its owner is used up: as many queued and running jobs, as many of the last 3600 seconds, or as many bytes |
| Counting.ActiveJobsAreCounted | server/fenixspoon/store.py:389-393 | the active count is the number of the owner's queued and running records |
| Counting.RecentJobsAreCounted | server/fenixspoon/store.py:389-393 | the recent count is the number of the owner's records created at that time or later |
| Counting.BytesAndUsesAddUp | server/fenixspoon/store.py:389-393 | the byte count adds up the artifact bytes of the owner's records, and an account one for a job with the key and one for each reuse of it |
| Counting.LifeOfAJob | server/fenixspoon/core/service.py:335-346 | a submission the quotas let in may be made at any time, and its job then start, finish in any of three ways and leave, adding one record that says so |
| Counting.SolveIsStored | server/fenixspoon/jobs.py:331-352 | a step of a stored job's solve changes its status, its bytes if it is done, and nothing else |
| JobCache.StepKeepsInv | server/fenixspoon/execution.py:86-138 | every step of submissions, stale writes, reconciliation, restarts and the purges a policy permits keeps what that policy is for: one reusable job for each key, either quota, or the accounts |
| JobCache.AtMostOneReusableJob | server/fenixspoon/store.py:395-406 | over any run whose purges spare keyed jobs being solved, at most one queued, running or done job exists for each owner and key, and every lookup finds it |
| JobCache.IdenticalSubmissionAttaches | server/fenixspoon/core/service.py:328-339 | over any such run, while a keyed job is on its way an identical submission attaches to it |
| JobCache.QuotasAreNeverExceeded | server/fenixspoon/core/identity.py:99-110 | as the store counts its records: active jobs never exceed a non-zero concurrency quota over runs whose purges spare its jobs not yet started, nor the last hour's jobs the hourly one over runs whose purges spare those being solved |
| JobCache.SubmissionsAreAccountedFor | server/fenixspoon/store.py:408-411 | without purges the accepted submissions for a key are the sum of 1 + reused over its jobs, though solves keep writing stale records back |
| JobCache.SubmissionsSurviveRetention | server/fenixspoon/store.py:383-411 | with retention that spares jobs being solved the removed records complete that sum |
| Retention.PurgedSolveComesBack | server/fenixspoon/jobs.py:424-433 | under any quotas a keyed job purged while it is solved comes back beside a second reusable one, after steps the policy permits |
| Retention.PurgedStartOutrunsConcurrency | server/fenixspoon/jobs.py:424-433 | a job purged before it starts runs its owner past any non-zero concurrency quota |
| Retention.PurgedSolveOutrunsTheHour | server/fenixspoon/jobs.py:424-433 | a job of the last hour purged while it is solved runs its owner past any non-zero hourly quota |
| Retention.PurgeKeepsOneReusableExactly | server/fenixspoon/jobs.py:424-433 | in every reachable state and under any quotas a purge leaves one reusable job for each key in all later states if and only if it removed no keyed job still being solved |
| Retention.PurgeKeepsConcurrencyExactly | server/fenixspoon/jobs.py:424-433 | and the active records within every concurrency quota if and only if it removed no job that had not started and whose owner has such a quota |
| Retention.PurgeKeepsHourlyExactly | server/fenixspoon/jobs.py:424-433 | and the stored records of the last hour within every hourly quota if and only if it removed no job of the last hour still being solved whose owner has such a quota |
| Retention.PurgeOfASolveOutrunsTheQuota | server/fenixspoon/jobs.py:424-433 | a run from the empty store with two active jobs under a quota of one |
| QuotasInForce.QuotasHoldOfTheJobs | server/fenixspoon/core/identity.py:99-110 | solves in progress never exceed a concurrency quota over runs whose purges spare its jobs being solved, nor the jobs accepted in the last hour, stored or purged, an hourly one over runs whose purges spare all of those |
| QuotasInForce.RunKeepsRemembered | server/fenixspoon/store.py:383-387 | over any run a job was accepted if and only if it is stored or was purged, so that measure leaves none out |
| QuotasInForce.PurgedSolveOverlaps | server/fenixspoon/jobs.py:424-433 | a job purged while it is solved, waiting or not, lets its owner have one solve in progress more than any non-zero concurrency quota |
| QuotasInForce.PurgeKeepsProgressExactly | server/fenixspoon/jobs.py:424-433 | in every reachable state and under any quotas, a purge leaves every owner's solves in progress within its concurrency quota in all later states if and only if it removed no job still being solved whose owner has such a quota |
| QuotasInForce.ShortLifeOutrunsTheHour | server/fenixspoon/jobs.py:424-433 | with a lifetime below an hour some run accepts one job more within an hour than any hourly quota |
| QuotasInForce.HourlyQuotaHoldsExactly | server/fenixspoon/jobs.py:424-433 | with one lifetime for all jobs, the jobs accepted in an hour are within an owner's hourly quota in every run if and only if the lifetime is zero or at least an hour |
| QuotasInForce.SettledRetentionKeeps | server/fenixspoon/jobs.py:424-433 | over runs whose retention spares every job being solved: one reusable job for each key, both quotas as the store counts them, the solves in progress, and the accounts |
| JobManager.Manager.Get | server/fenixspoon/jobs.py:262-282 | the live entry if there is one, else the stored record; another owner's job is no job |
| JobManager.Manager.Submit | server/fenixspoon/jobs.py:308-325 | the record is stored and a live entry kept beside it, with every other entry as it was |
| JobManager.Manager.Finish | server/fenixspoon/jobs.py:348-352 | the outcome is copied onto the live entry, and that entry alone is dropped |
| JobManager.Manager.PurgeExpired | server/fenixspoon/jobs.py:424-433 | a zero time-to-live keeps everything; otherwise expired records and their live entries go together |
| JobManager.StepKeepsLiveInv | server/fenixspoon/jobs.py:331-352 | every step, any purge included, keeps each live entry a stored job being solved and saying `queued`, and live every job being solved that retention never removed |
| JobManager.NoJobIsMissing | server/fenixspoon/jobs.py:342-346 | whatever retention removes, an accepted job is found until retention removes it, and no entry is gone while the store shows its solve unfinished |
| JobManager.EachOwnerSeesItsOwn | server/fenixspoon/jobs.py:262-282 | a stored job is found by its owner, exactly as anyone would find it, and by no other owner |
| JobManager.PollLagsExactlyWhileSolving | server/fenixspoon/jobs.py:262-293 | whatever retention removes, a poll of a stored job says what the store says if and only if the job has no live entry or its solve has not started |
| JobManager.PollsNeverGoBack | server/fenixspoon/jobs.py:262-282 | over any run, any purges and restarts included, a job polled as running is never polled as queued again, and a final answer stays |
| ByteText.DecimalRoundTrip | server/fenixspoon/rpc/framing.py:48-87 | what `%d` writes as a length, `int` reads back |
| WireText.DigitsAreSpelled | server/fenixspoon/rpc/framing.py:40-46 | the digits of a number, most significant first |
| WireText.NumbersAreExactly | server/fenixspoon/rpc/framing.py:79-87 | what reads as a number: an optional sign and digits, with an underscore only between two |
| WireText.NumbersAreRead | server/fenixspoon/rpc/framing.py:79-87 | a minus sign negates, and a plus sign or a leading zero changes nothing |
| WireText.UnderscoresAreRead | server/fenixspoon/rpc/framing.py:79-87 | nor does an underscore between two numbers: they read as if run together |
| WireText.StrippedIsBetween | server/fenixspoon/rpc/framing.py:73-87 | stripping takes tabs, line ends, vertical tabs, form feeds and blanks from both ends, all of them and nothing else |
| Framing.ReadMessage | server/fenixspoon/rpc/framing.py:51-96 | the loops over blank lines, header lines and body consume and return exactly what the specification says |
| Framing.ReadsHeaderBlock | server/fenixspoon/rpc/framing.py:73-93 | the header block written for a length is read as that length and ends where the body starts |
| WireText.FramesAreSpelled | server/fenixspoon/rpc/framing.py:40-46 | both framings, byte for byte |
| WireText.FieldsAreRead | server/fenixspoon/rpc/framing.py:73-87 | a block of any number of header fields is read as those fields, names in lower case and values stripped, the last of a name winning |
| WireText.NamesAreLowered | server/fenixspoon/rpc/framing.py:73-79 | field names are compared without regard to the case of ASCII letters |
| WireText.BlocksAreRead | server/fenixspoon/rpc/framing.py:73-96 | and the body is read by its Content-Length wherever in the block that stands and however it is capitalised; without one, or with one that is no number, the frame is malformed |
| Framing.ReadsItem | server/fenixspoon/rpc/framing.py:51-112 | each frame of either kind, blank line, bad JSON line or line that is no header is read as what it is and consumes exactly its own bytes |
| Framing.StreamReadsBack | server/fenixspoon/rpc/framing.py:51-112 | so a stream of any of these, mixed, reads back item by item, and a bad one disturbs nothing after it |
| Framing.MixedFramingsRoundTrip | server/fenixspoon/rpc/framing.py:40-96 | any messages the codec encodes, written in either framing, mixed and with blank lines between, read back exactly, then end of input |
| Framing.SomeCodecEncodes | server/fenixspoon/rpc/framing.py:40-46 | for any messages there is a codec that encodes every one of them as a line and reads it back |
| Framing.TruncatedBodyIsNotTheEnd | server/fenixspoon/rpc/framing.py:88-96 | a body cut short is a framing error of its own, and only then the end of input |
| Framing.ReadToEnd | server/fenixspoon/rpc/framing.py:51-70 | reading until the end yields the outcomes the specification lists, and terminates |
| RpcServer.Server.ReadTurn | server/fenixspoon/rpc/server.py:85-98 | one turn of the read loop answers an unreadable frame with error -32700 and a null id, starts a handler, or starts draining |
| RpcServer.Server.Handle | server/fenixspoon/rpc/server.py:122-156 | a handler sends one response: what the method returned, error -32603 if it raised, error -32600 with a null id for an unusable id, and nothing for a notification |
| RpcServer.Server.PumpTurn | server/fenixspoon/rpc/server.py:107-114 | one turn of the pump writes one whole payload, or stops |
| RpcServer.StepKeepsInv | server/fenixspoon/rpc/server.py:69-118 | every step keeps what is queued and written equal to what is due |
| RpcServer.EachFrameIsAnsweredOnce | server/fenixspoon/rpc/server.py:69-156 | for every schedule: when the pump stops, each request with an id has exactly one response with its own id and what its method returned, or error -32603 if it raised, one with an unusable id error -32600 and a null id, each unreadable frame error -32700 and a null id, and notifications none (sections 4.1 and 5 of the JSON-RPC 2.0 Specification) |
| RpcServer.EventsKeepTheirOrder | server/fenixspoon/rpc/server.py:220-240 | over any run progress notifications are written in the order they were sent, each once |
| RpcServer.EveryResponseAnswersAFrame | server/fenixspoon/rpc/server.py:116-156 | no response is ever written that answers nothing |
| RpcServer.OutputIsWholeFrames | server/fenixspoon/rpc/server.py:100-118 | at every moment the bytes written are whole frames: where the messages sent encode and read back, a reader of the same framing gets exactly them |
| RpcServer.NeverStuck | server/fenixspoon/rpc/server.py:69-83 | until the pump stops there is always a next step of the server's own |
| Sweep.ProductReadsDigits | server/fenixspoon/core/studies.py:315-329 | the k-th variation reads off the mixed-radix digits of k, last axis fastest |
| Sweep.RankOfDigits | server/fenixspoon/core/studies.py:315-329 | a number's digits rank back to it |
| Sweep.DigitsOfRank | server/fenixspoon/core/studies.py:315-329 | and every digit vector is the digits of its rank, below the product of the lengths |
| Sweep.VariationsAreAllAndDistinct | server/fenixspoon/core/studies.py:315-329 | every combination of the axes' values is a variation and no two variations agree |
| Sweep.ResponseCurves | server/fenixspoon/core/studies.py:653-718 | the loops over metrics, combinations and points build exactly the specified curves, or stop at the first metric whose traces the series model refuses; explicit points have none |
| Sweep.OnItsLineOnly | server/fenixspoon/core/studies.py:687-692 | a row lies on the line of its own held values and on no other |
| Sweep.FewLines | server/fenixspoon/core/studies.py:270-281 | a legal grid has no more lines than a series may have traces |
| CurveText.GridOfOneAxis | server/fenixspoon/core/studies.py:265-285 | one axis is a grid exactly when its values ascend and there are two to sixty-four |
| CurveText.GridWithOneMoreAxis | server/fenixspoon/core/studies.py:265-285 | with an axis more exactly when its name is new, it has two ascending values and all points together are at most sixty-four |
| Sweep.EveryAnswerIsDrawnOnce | server/fenixspoon/core/studies.py:685-706 | the lines together draw each answered point once |
| Sweep.CurvesPartitionTheAnswers | server/fenixspoon/core/studies.py:683-718 | for each metric at most 32 traces, none empty, no two for the same held values, each strictly increasing, with as many samples as answered points |
| Sweep.EachAnswerIsOnItsTrace | server/fenixspoon/core/studies.py:687-706 | each answered point is on the trace of its own held values, at its own abscissa and with its own value |
| Sweep.NamesAreDistinctExactly | server/fenixspoon/core/studies.py:697-699 | a metric's traces have distinct names if and only if no two lines it is drawn on hold values that all print alike |
| CurveText.HeldTextsJoin | server/fenixspoon/core/studies.py:694-699 | the held values read as name, equals sign and printed value, with a comma and a blank between axes |
| CurveText.NamesAreSpelled | server/fenixspoon/core/studies.py:694-699 | a trace of a single axis is named by its metric alone; one held on another axis by the metric, an at sign and that text |
| CurveText.NamesWithMoreAxes | server/fenixspoon/core/studies.py:694-699 | and with more axes likewise, never as the bare metric |
| Sweep.ReportIsRefusedExactly | server/fenixspoon/series.py:174-202 | on a legal grid the whole report is refused if and only if, for some metric, two lines it is drawn on hold values that all print alike: no other check of the series model can fail |
| CurveText.CurvesAreWithinLimits | server/fenixspoon/series.py:105-202 | on any axes: what is drawn has 1 to 32 traces of different names and 1 to 4096 samples each, for each metric answered; a refusal names a metric that is over one of these |
| Sweep.DistinctValuesAreRefused | server/fenixspoon/series.py:187-189 | any two distinct values that print alike make a legal, fully answered sweep whose report is refused |

## Left out

- Floating-point rounding, `np.gradient` and the derived fields of a solver: arithmetic here is exact.
- FastAPI, MCP and CLI bindings, authentication, error prose, capability declarations and discovery payloads: no algorithm of their own.
- Redis, arq and SQLite: a store is a map and a worker queue is not modelled; the store's conflict clause is `PutInto`.
- Solvers behind foreign libraries (dolfinx, gmsh, PETSc, VTK output): foreign calls.
- pydantic, `json`, `jsonpatch`, SHA-256: parameters with the contract that decoding undoes encoding, or opaque functions.
- Sorting in `_hotspots`: `np.argsort` is a parameter that returns the valid indices in order of extremeness, ties in any order; lengths are compared by their squares.
- Wall-clock time: creation times, lifetimes and cut-offs are parameters, in whole seconds; progress messages and cooperative cancellation inside solvers carry no state here.
- Cancellation: a cancelled job is a solve that finishes as cancelled. Results and artifacts of live entries.
- The in-flight dictionary of `run_optimization` and the `cached` flag, job links and history curve of its report rows.
- The fallback of `subscribe` to a live job's own event list when the record has been purged.
- JobCache.MemoryJobStore.Reconcile: the status event appended for each job failed is not modelled, because records here carry no event list; `ProgressDelivery` models the log.
- JobCache.MemoryJobStore.FindCached: among equally new records any may be returned, where the source returns the first inserted; in reachable states there is only one.
- RpcServer: which job a progress stream belongs to, and the bookkeeping that removes streams; a stream is a step that may send a progress notification at any time. A `Content-Length` below zero raises something `read_message` does not catch and ends the loop; such a read is not a step of the machine. Handlers are assumed to finish and payloads to encode.
- Framing: the reader's line limit, and the digit limit of `int`.
- `parse_ref` and the file names of revisions: references are a type and a number. A reader that catches a half-written revision file is not part of this model.
- The digits `:g` prints: a label is a function of the value, with no comma in it.
- Explicit sweep points: they are returned as written and have no curves.
- `_at_point`, `_section` and `_sample`, and means over regions.
- Object and artifact quotas beyond the check at submission; the artifact quota is checked but, as in the source, not kept by an invariant.
