# A verified model of the risk engine's core

This project models, in Dafny 4.11, the parts of the engine whose correctness rests on an argument
rather than on reading one branch, and proves that argument for all inputs, runs or reachable states.

* **Path engine.** The Brownian bridge is planned slot by slot in a marks array, replayed row by row
  in place, differenced and standardized (`Bridge`). Possibly singular covariances are factored in
  place (`Cholesky`). The state recursion runs in difference form with the moments that standardize
  it (`Paths`), and the whole market is one linear map of the state (`ScenarioMarket`).
* **Job queue, worker and worker set.** Two tables and each transaction on them (`JobTables`), the
  class that owns the file (`JobQueue`), every interleaving of API calls, lock holders, crashes and
  restarts (`WorkerRuns`), the collectives of a set of hosts (`Hosts`), and sets that serve a queue, which
  refine the one worker (`WorkerSets`).
* **Number formats.** Exponents read from the words of a float (`FloatBits`), rounding onto a
  format's grid (`Grid`), power-of-two scales and residual terms (`Products`).
* **Term structures and calibration.** Variances of piecewise volatilities (`TermStructures`,
  `HullWhite`), the bootstrap and its tangent (`Calibration`), swaption helpers, their proRata
  corrections and their padding (`SwaptionHelpers`), what their model price is and why its exercise
  boundary is the one it is (`SwaptionPrices`), and a curve's interpolants and two-node stencil (`Curves`).
* **Two smaller pieces.** Arrays published in hashed chunks (`Artifacts`) and the covered time of a
  list of intervals (`IntervalUnion`).

`LinearAlgebra`, `Powers`, `Sums` and `Wrappers` hold what the others share.

`dafny verify --verification-time-limit 0 dfyconfig.toml` checks the whole project.

## Conventions

* Host code in float64 is modelled over exact reals; only `FloatBits`, `Grid` and `Products` are about
  representation and rounding. In these the values are finite.
* A square root, an exponential, a normal CDF, Bachelier's formula, a root solver, a JSON codec, a hash
  and a decimal notation are parameters; a lemma names the laws it needs of them (`IsSqrt`, `IsExp`,
  `IsSymmetric`, `HasDensity`, `IsBachelier`, `Extensional`, `IsJson`, `CollisionFree`). Clocks, new ids
  and uniform draws are arguments.
* Matrices and vectors whose size the source fixes elsewhere are functions of their indices, read below
  a dimension. The six parallel arrays of the bridge's plan are one array of steps, and a helper's
  parallel coupon arrays are sequences of coupons.
* One SQLite transaction is one step. The host's lock is the worker's phase: whoever holds it is in
  `serve`, and leaving or crashing frees it. In a worker set a collective completes when all hosts have
  entered it, as one round; that hosts reach the same phase boundaries of a job is an assumption
  (`SamePhases`), as it is where failures are determined by the request.

## Where the code differs from what is written about it

* engine/market_simulation/sobol.py:77-78 says that each step bisects the widest remaining gap. The
  code starts its search at slot 0 each time, so it takes the leftmost one; the model does too. Counted in
  slots, that is a widest one at every step if and only if there are at most 4 slots
  (`Bridge.LeftmostIsWidestUpToFour`): with 5, the second bisection is of [0, 1) while [2, 4) is open
  (`Bridge.FiveSlots`). The covariance does not depend on it: `Bridge.ReplayBridges` holds of every plan
  whose steps bisect open gaps.
* engine/precision/grid.py:54 promises the largest exponent that keeps `amax` within the limit. That is
  so exactly when the lowest exponent in range keeps it there (`Products.ScaleIsLargest`); a larger
  `amax` stays above the limit (`Products.LowSaturation`).
* engine/precision/products.py:324-325 says that a slice's largest magnitude is brought into (max/2, max].
  That is so exactly when the lowest exponent keeps it within max and the highest one brings it past max/2
  (`Products.ScaledIntoTopHalf`); below, it stays under half of it (`Products.HighSaturation`).
* engine/market_data/curves.py:173 says that the interpolant is linear in the node values for both
  curve types. For a discount curve with a single tenor it divides by zero, while the stencil gives a
  number; with two tenors or more, and for every zero curve, the stencil is exact
  (`Curves.StencilIsExact`).

## Model

| member | source | states |
|---|---|---|
| Bridge.LeftmostGap | engine/market_simulation/sobol.py:85-90 | both inner searches stay in bounds as long as a slot is open, and find the first open slot and the first built one after it |
| Bridge.PlanBridge | engine/market_simulation/sobol.py:79-110 | for every strictly increasing positive grid the loop ends with a plan: the end point first, then bisections of open gaps, the leftmost each time, with the weights and deviation of the Brownian bridge |
| Bridge.LeftmostIsWidestUpToFour | engine/market_simulation/sobol.py:77-92 | such a plan takes a widest gap in slots at every step if and only if there are at most 4 slots |
| Bridge.FiveSlots | engine/market_simulation/sobol.py:77-92 | five slots, where it does not |
| Bridge.PlanFillsEachSlotOnce | engine/market_simulation/sobol.py:84-92 | every slot is filled, and none twice |
| Bridge.OpenSlot | engine/market_simulation/sobol.py:84-90 | before the plan is complete some slot is open, by counting |
| Bridge.BridgePoint | engine/market_simulation/sobol.py:102-107 | the weights and the variance of a bisection give the new point covariance m with every later point and variance m |
| Bridge.ReplayBridges | engine/market_simulation/sobol.py:112-119 | after each replayed step the rows built so far have covariance min(t_r, t_s) |
| Bridge.ReplayPlan | engine/market_simulation/sobol.py:111-119 | the in-place replay reads only rows already built and leaves the matrix of the replayed plan |
| Bridge.BuildBridgeMatrix | engine/market_simulation/sobol.py:60-119 | B B' is min(t_r, t_s), for every strictly increasing positive grid |
| Bridge.IncrementDot | engine/market_simulation/sobol.py:130 | differenced rows of such a matrix are orthogonal, with the intervals' lengths as squared norms |
| Bridge.BridgeIncrementsMatrix | engine/market_simulation/sobol.py:122-131 | the differenced and scaled matrix A has A A' = I, and its rows are the bridge's increments over the intervals' roots |
| Cholesky.ReproducesExactlySemidefinite | engine/models/cam.py:439-460 | the factor reproduces S if and only if S is symmetric and positive semi-definite, singular ones included |
| Cholesky.ResidualReduced | engine/models/cam.py:444-450 | what is left after k columns is symmetric, semi-definite and zero in the first k rows and columns: a zero pivot loses nothing |
| Cholesky.FlexibleCholesky | engine/models/cam.py:444-453 | the in-place loops give the factor, lower triangular, and L L' = S for every semi-definite S |
| LinearAlgebra.ZeroPivotZeroRow | engine/models/cam.py:449-452 | a semi-definite form with a zero pivot has a zero row there |
| Paths.PathMoments | engine/models/cam.py:507-520 | the loop gives, for every date, the mean and covariance carried through the steps, and the scales of that covariance |
| Paths.ScaleIsNear | engine/models/cam.py:517-519 | a scale is a power of two, at least the standard deviation and at most twice it, and 1 for a variance that is not positive |
| Paths.DifferenceFormIsDirect | engine/market_simulation/paths.py:32-60 | m + s y of the standardized scan is the direct recursion x' = M x + b + L z at every date, for every noise sequence and non-zero scales |
| Paths.DeviationStep | engine/market_simulation/paths.py:36-39 | one product of [y, z] with [M~, L~]' is M s y + L z in units of the new scale |
| Paths.StateIsLoaded | engine/models/cam.py:512-516 | the state is its carried mean plus its loadings on all normals drawn so far |
| Paths.CovarianceIsGram | engine/models/cam.py:515 | the carried covariance is those loadings times their transpose, so the scale is that of the simulated states |
| Paths.SimulatedCovariance | engine/models/cam.py:487-489 | with each step's factor made by `flexible_cholesky`, that is so whenever, and the factors make their covariances exactly when, every step's covariance is symmetric and semi-definite |
| Paths.ScalesFitTheStates | engine/models/cam.py:515-519 | the scale of each component at each date is a power of two within a factor two of that component's own deviation over all normals drawn, 1 where it does not move |
| ScenarioMarket.Layout | engine/market_simulation/scenario_market.py:210-232 | the columns are the curves' tenor by tenor, then the domestic numeraire's, then every FX and equity spot's |
| ScenarioMarket.ValueIsLinear | engine/market_simulation/scenario_market.py:241-243 | a column in difference form, its level moved to the mean and its loadings scaled, is the plain level plus loadings times state |
| ScenarioMarket.FusedMarketIsByFormula | engine/market_simulation/scenario_market.py:236-248 | the fused map gives every curve's implied log discount factors with the floor, the numeraire, and the FX and equity spots of the per-curve formulas |
| ScenarioMarket.SimulatedMarketIsByFormula | engine/market_simulation/scenario_market.py:284-290 | from noise to market: difference-form states through the fused map give the formulas' market on the direct recursion's state |
| ScenarioMarket.DeflatedBond | engine/market_simulation/scenario_market.py:158-178 | a curve's level and slope and the numeraire's fit: a bond of any curve, deflated, is that curve's forward discount factor today times the numeraire curve's and the exponential martingale of H(T) |
| JobTables.SubmitValid | engine/api/job_queue.py:322-344 | a submission keeps the queue valid |
| JobTables.ClaimValid | engine/api/job_queue.py:360-368 | a claim keeps the queue valid, attempts bounded included |
| JobTables.FinishValid | engine/api/job_queue.py:375-383 | storing a result and its chunks keeps the queue valid, chunks of done jobs only and numbered from 0 |
| JobTables.CancelValid | engine/api/job_queue.py:396-410 | a cancel keeps the queue valid |
| JobTables.RequeueValid | engine/api/job_queue.py:430-439 | putting running jobs back keeps the queue valid: no waiting job is flagged or has used its attempts |
| JobTables.InterruptValid | engine/api/job_queue.py:441-446 | interrupting keeps the queue valid |
| JobTables.PurgeValid | engine/api/job_queue.py:448-457 | a purge keeps the queue valid |
| JobQueue.PurgeChunks | engine/api/job_queue.py:454-457 | a purge keeps exactly the chunks of the jobs it keeps |
| JobTables.KeyNamesOneJob | engine/api/job_queue.py:333-340 | a key names at most one stored job: the same body gives its id, another a conflict, and nothing is written |
| JobTables.SubmitTwice | engine/api/job_queue.py:322-344 | submitting the same body under the same key again gives the first id and changes nothing |
| JobTables.SubmitQueues | engine/api/job_queue.py:322-344 | a submission is refused for its kind, a key without a hash or an id in use, names the stored job of its key, and otherwise is accepted as one new row: its body, kind, key, hash and protection as given, dated, never claimed |
| JobQueue.FinishesIfRunning | engine/api/job_queue.py:375-383 | a result is stored if and only if the job is running |
| JobTables.MigrationsEstablishValid | engine/api/job_queue.py:152-174 | every migration ends in a valid file; from versions 1 and 2 every row is kept as it was, without a key or a claim, and interrupted when it was submitted if it had not ended; from version 3 every row is kept |
| JobQueue.JobQueue.SubmitJob | engine/api/job_queue.py:322-344 | the transaction on the file: one new waiting row with exactly what was submitted, an existing id, a conflict or a refusal |
| JobQueue.JobQueue.ClaimJob | engine/api/job_queue.py:360-368 | takes the oldest waiting row, counts the attempt, touches no other row |
| JobQueue.JobQueue.FinishJob | engine/api/job_queue.py:375-383 | row and chunks together, or nothing: the running row alone is done, with its result, its compiles and the time |
| JobQueue.JobQueue.FailJob | engine/api/job_queue.py:391-394 | closes the running row as failed, or writes nothing |
| JobQueue.JobQueue.CancelRunning | engine/api/job_queue.py:417-419 | closes the running row as cancelled, or writes nothing |
| JobQueue.JobQueue.CloseRunning | engine/api/job_queue.py:421-428 | the running row alone is closed, with what it is given; without one, nothing |
| JobQueue.JobQueue.CancelJob | engine/api/job_queue.py:396-410 | a waiting job ends at once, a running one is flagged, an ended one and an unknown id change nothing |
| JobQueue.JobQueue.CancelRequested | engine/api/job_queue.py:412-415 | whether a cancel has reached the job |
| JobQueue.JobQueue.RequeueRunning | engine/api/job_queue.py:430-439 | each running row is cancelled now where flagged, waits again without a worker or a start where it was claimed once, and is left otherwise; the count is of those put back |
| JobQueue.JobQueue.InterruptRunning | engine/api/job_queue.py:441-446 | every running row is interrupted now, and counted |
| JobQueue.JobQueue.PurgeJobs | engine/api/job_queue.py:448-457 | exactly the ended, unprotected rows past the cutoff go, with their chunks, and are counted |
| WorkerRuns.NextValid | engine/api/worker.py:216-232 | every step of API, worker and crash keeps the system's invariant |
| WorkerRuns.RunValid | engine/api/worker.py:193-238 | so it holds throughout every run from a file of which it holds |
| WorkerRuns.MigratedFilesAreServed | engine/api/job_queue.py:152-174 | it holds of every migrated file: one of version 1 or 2 has nothing left to run, one of version 3 keeps its rows, its order and its one running row, and counts a started job as claimed once |
| WorkerRuns.EveryRun | engine/api/job_queue.py:360-446 | in every run at most one job runs, none is claimed more than twice, claimed keys never decrease, every job submitted before the running one has ended, waiting jobs are unflagged with attempts left, chunks belong to done jobs |
| WorkerRuns.CancelledIsNeverClaimedAgain | engine/api/job_queue.py:430-437 | once a cancel was accepted, waiting or running, no later run claims the job |
| WorkerRuns.EndedJobsStay | engine/api/job_queue.py:421-457 | an ended row reads the same until it is purged, and a kept one stays |
| WorkerRuns.EndedChunksStay | engine/api/job_queue.py:448-457 | through every later run, an ended job still stored has exactly the chunks it had, byte for byte |
| WorkerRuns.GoneForGood | engine/api/job_queue.py:341-344 | a purged key is never used again |
| WorkerRuns.NoJobIsLost | engine/api/job_queue.py:448-457 | every submitted job is stored with its submission unchanged, or some purge found it ended, unprotected and past its cutoff |
| WorkerRuns.RowsAreSubmissions | engine/api/job_queue.py:322-344 | in every run a stored row has exactly the body, kind, key, hash, protection and time of some call of the API |
| WorkerRuns.RestartDecides | engine/api/worker.py:216-219 | the job a stopped worker was running: a set of several hosts puts it back once, cancels it where a cancel had reached it and interrupts it after that; a lone worker interrupts it |
| WorkerRuns.EndsAreDated | engine/api/job_queue.py:396-446 | whatever step ends a row dates it at that step |
| WorkerRuns.PurgeSpares | engine/api/job_queue.py:448-457 | a purge deletes a row if and only if it has ended before the cutoff, dated, and is not protected |
| WorkerRuns.DoneIsAtomic | engine/api/job_queue.py:375-383 | a row becomes done only with its result and exactly its artifacts' chunks, in one step |
| WorkerRuns.DoneJobsHoldTheirArtifacts | engine/api/job_queue.py:375-383 | in every run, a done job still stored was finished by its worker once, and holds the result and exactly the chunks it was finished with |
| WorkerRuns.OneHostClaimsOnce | engine/api/worker.py:216-222 | without a worker set, a job is claimed at most once however often workers crash |
| Hosts.DecodeEncode | engine/api/hosts.py:151-159 | decoding gives back the job encoded, whatever its body |
| Hosts.ShareBytes | engine/api/hosts.py:83-91 | the padded chunks join to the primary's payload for every length, in as many broadcasts as it needs |
| Hosts.EveryRunIsLockstep | engine/api/worker.py:223-232 | on any number of hosts, whatever the primary decides, all hosts have entered the same sequence of collectives and wait in the same one, until a host crashes |
| Hosts.CancelIsUnanimous | engine/api/worker.py:297-299 | a cancel the primary sees stops every host at the same phase boundary, the start or the phase last passed; one it does not see stops none |
| Hosts.OutcomesCloseTheRow | engine/api/worker.py:314-329 | all outcomes together close the one running row, and no other: with the status and class of failure that they say, the result of a done job, the boundary of a cancelled one or the reason of a failed one, the compiles and the time |
| Hosts.CloseJob | engine/api/worker.py:314-329 | the primary's calls on the queue do that to its file |
| Hosts.DoneMeansAllDone | engine/api/worker.py:318-329 | of the status outcomes close a row with: done if and only if every host was and the result can be stored; cancelled if and only if every host stopped |
| WorkerSets.SetsRefineTheWorker | engine/api/worker.py:193-238 | sets of any number of hosts serve a queue, through crashes, restarts and calls, as the one worker does: every run of theirs is one of its runs |
| WorkerSets.RowsReadTheirOutcomes | engine/api/worker.py:309-329 | in every run no row is closed from outcomes twice, a closing's outcomes are all cancelled or none is, and a stored row reads done if and only if it was closed with every outcome done and its result storable |
| WorkerSets.OnlyItsClosingEndsARun | engine/api/worker.py:309-329 | in every run, between restarts, a running row leaves that state only by the gather that closes it |
| WorkerSets.SharedJobArrives | engine/api/hosts.py:73-91 | in every run every host that runs or has run a job has the id, kind and request of the claimed row, which is running |
| WorkerSets.HostsRunWhatWasSubmitted | engine/api/job_queue.py:340-343 | in every run, what a host runs has the id, kind and request body, byte for byte, of a call of the API |
| WorkerSets.CancelReachesEveryHost | engine/api/worker.py:297-299 | in every run a cancel that has reached the running row stops every host at the same phase boundary, and without one none stops |
| FloatBits.Clz | engine/precision/grid.py:38-45 | the count of leading zeros puts a word in its binade |
| FloatBits.Frexp32IsExponent | engine/precision/grid.py:43-50 | for every finite float32 encoding, subnormals included, the exponent of its value |
| FloatBits.Frexp64IsExponent | engine/precision/grid.py:33-42 | for every finite float64 encoding in two words, subnormals included, the exponent of its value |
| FloatBits.Pow2Bits32Is | engine/precision/grid.py:83-89 | the word built for a normal exponent k decodes to 2^k, in float32 |
| FloatBits.Pow2High64Is | engine/precision/grid.py:83-88 | and in float64 |
| Grid.RoundsToNearest | engine/precision/grid.py:62-77 | the rounded value is no farther from x than any value of the format, across binades and among subnormals |
| Grid.RoundedOnGrid | engine/precision/grid.py:69-77 | it is a value of the format, at most half a spacing from x |
| Grid.TieGoesToEven | engine/precision/grid.py:73 | a tie goes to the even multiple of the spacing |
| Grid.GridValuesAreFixed | engine/precision/grid.py:62-77 | values of the format are left as they are |
| Grid.RoundingIsIdempotent | engine/precision/grid.py:62-77 | rounding twice is rounding once |
| Grid.RoundingIsMonotone | engine/precision/grid.py:62-77 | rounding keeps order |
| Grid.RoundingIsOdd | engine/precision/grid.py:62-77 | rounding commutes with the sign |
| Grid.StochasticIsNeighbour | engine/precision/grid.py:74-77 | given a draw in [0, 1) the result is one of the format's two values around x, and x itself where x is one |
| Grid.StochasticIsUnbiased | engine/precision/grid.py:75-76 | over the draw the result's mean is x |
| Products.ScaleIsLargest | engine/precision/grid.py:53-59 | the exponent is the largest in range that keeps amax within the limit, which it does if and only if the lowest one does, and the lowest one otherwise; below the top, one more passes the limit |
| Products.LowSaturation | engine/precision/grid.py:53-59 | a float64 for which no exponent in range does |
| Products.ScaledIntoTopHalf | engine/precision/products.py:323-325 | the scaled maximum is in (limit/2, limit] if and only if the lowest exponent keeps it within the limit and the highest brings it past half of it |
| Products.HighSaturation | engine/precision/products.py:323-325 | a float32 that no exponent in range brings past half of it |
| Products.ScalesAreFloats | engine/precision/grid.py:18-19 | every scale in the range and its inverse are built exactly as float32 numbers, and one exponent more has no such inverse |
| Products.ScalesBelowFloat32 | engine/precision/products.py:328-332 | a slice is scaled if and only if scaling is on and the format's largest value is below 2^127 |
| Products.StaysWithin | engine/precision/products.py:333-337 | no scaled value within the format's largest rounds past it |
| Products.PastTopOverflows | engine/precision/products.py:337-343 | and one scaled past the format's top binade overflows |
| Products.RestIsExact | engine/precision/products.py:308-319 | what a term leaves of a value of any format is a value of that format: the subtraction is exact, whatever the scale |
| Products.NeverMore | engine/precision/products.py:317-319 | a term never leaves more than it was given |
| Products.Terms | engine/precision/products.py:305-321 | the loop gives for every term the exponent and roundings of what the terms before left |
| Products.RestIsDifference | engine/precision/products.py:312-318 | what is left is the entry less the sum of its terms |
| Products.TermsReconstruct | engine/precision/products.py:305-344 | no term overflows, and `count` terms rebuild every entry to within amax 2^(-m count), or 2^(E-128-m) where the scale's range ends |
| Products.UnclippedTermsReconstruct | engine/precision/products.py:305-344 | with exponents below the top of the range, within amax 2^(-m count) alone |
| Products.UnscaledTermsReconstruct | engine/precision/products.py:323-331 | a format that is not scaled rebuilds every entry to its own relative error 2^(-(m+1) count), or half the finest spacing |
| Products.FormatsAreUsable | engine/precision/formats.py:127-131 | e4m3, e5m2 and float16 meet what the bounds ask of a format, have the finest spacings 2^-9, 2^-16 and 2^-24, and are scaled |
| Products.WideFormatsAreUnscaled | engine/precision/products.py:326-329 | bfloat16 and TensorFloat-32 are not, and space no values below float32's smallest normal |
| TermStructures.PrefixIsClipped | engine/models/lgm.py:120-128 | search over prefix sums and clipped sum over buckets agree, for every time, list of buckets and contribution of a stretch |
| TermStructures.ZetaIsIntegral | engine/models/lgm.py:107-128 | the accelerator's zeta is the host's integral |
| TermStructures.ZetaMonotone | engine/models/lgm.py:107-128 | zeta grows with time |
| TermStructures.ZetaStartsAtZero | engine/models/lgm.py:116 | zeta is 0 up to time 0 |
| TermStructures.ZetaAtEnd | engine/models/lgm.py:120-123 | at a bucket's end zeta is the sum of the buckets up to it |
| TermStructures.LaterBucketsDoNotReach | engine/models/lgm.py:120-128 | zeta at a bucket's end does not depend on later buckets' ends or values |
| HullWhite.IntegralsAgree | engine/models/lgm.py:131-138 | both forms of the exponential integral agree, at a zero rate or width too |
| HullWhite.IntegralIsDifference | engine/models/cam.py:198-200 | rate times the integral is the difference of the exponentials at its ends |
| HullWhite.HullWhiteIsHost | engine/models/lgm.py:141-150 | the accelerator's Hull-White zeta is the host's, for every reversion, time and list of buckets |
| HullWhite.MatchingHasTheSameVariance | engine/models/lgm.py:153-174 | accepted if and only if the ends increase from 0, and then the Hull-White zeta is the Hagan one at every bucket end |
| Calibration.Bootstrap | engine/calibration/lgm.py:543-553 | each bucket's value is what the solver made of its helper's equation on top of the buckets before, and each model value is at the variance reached |
| Calibration.BootstrapSigma | engine/calibration/lgm.py:500-523 | refused for no helpers or expiries that do not increase; otherwise the buckets, their model values and which of them hit the ceiling, and, with roots found, all helpers are repriced |
| Calibration.ModelsAreOfTheSigma | engine/calibration/lgm.py:543-553 | the model values returned are the helpers' own under the bootstrapped volatility |
| Calibration.ZetaAtExpiry | engine/calibration/lgm.py:500-512 | zeta of the bootstrapped volatility at expiry j is the variance helper j was solved at |
| Calibration.RepricesIffRoot | engine/calibration/lgm.py:589-599 | a helper is repriced if and only if its bucket's value is a root of its own equation |
| Calibration.BootstrapReprices | engine/calibration/lgm.py:543-553 | with a root in every bucket all helpers are repriced at once |
| Calibration.ConvertedReprices | engine/models/lgm.py:162-164 | the converted Hull-White volatility reprices every helper the Hagan one does |
| Calibration.GrownTangentIsDifferential | engine/calibration/lgm.py:630-631 | the cumulative sum of 2 v v' dt is the first-order change of the variance |
| Calibration.TangentInvertsCumulative | engine/calibration/lgm.py:645-649 | the differenced tangent is the one whose cumulative sums are the variances' tangents, and the only one |
| SwaptionHelpers.MapOwners | engine/calibration/lgm.py:286-290 | the loop fills owners and weights in place for the coupons it maps, and leaves -1 and 0 for the others |
| SwaptionHelpers.OwnersAreFixedCoupons | engine/calibration/lgm.py:286-290 | every coupon is mapped within the fixed schedule or not at all, with a weight of at most 1, and 1 for the last of each owner |
| SwaptionHelpers.PerFixedIsNearest | engine/calibration/lgm.py:286 | the coupons per fixed one are the nearest whole number, up at a tie and at least 1; an exact multiple is kept |
| SwaptionHelpers.ProRataConserves | engine/calibration/lgm.py:382-398 | the worth of all S_j and S_m1 is the sum of the owned floating coupons' corrections |
| SwaptionHelpers.CorrectionsAreShared | engine/calibration/lgm.py:382-398 | every S_j, and S_m1 at the start, is worth its shares: each coupon's weight falls on its owner and the rest on the fixed coupon before |
| SwaptionHelpers.CouponPaysForward | engine/calibration/lgm.py:335-337 | a floating coupon pays its accrual at the index curve's simple forward rate |
| SwaptionHelpers.StrikeIsNearest | engine/calibration/lgm.py:346-355 | the strike is the one within the band nearest to the helper's own, the forward at the money; receiver if and only if no higher than the forward |
| SwaptionHelpers.NoIntrinsicValue | engine/calibration/lgm.py:358-364 | no helper is in the money: without volatility its market value is 0 |
| SwaptionHelpers.MarketParity | engine/calibration/lgm.py:364 | a receiver's market value less a payer's is the forward swap |
| SwaptionHelpers.MarketGrows | engine/calibration/lgm.py:358-364 | and a helper is worth more the larger its deviation, where Bachelier's formula is |
| SwaptionHelpers.SwapIsAnnuity | engine/calibration/lgm.py:401-431 | on a regular schedule the corrected cash flows with certain exercise are worth annuity times strike less forward: the corrections carry the index curve's forward onto the discount curve |
| SwaptionHelpers.ModelParity | engine/calibration/lgm.py:401-431 | there a receiver's model value less a payer's is the forward swap, whatever the variance, the reversion and the root found |
| SwaptionHelpers.PaddingIsInert | engine/calibration/lgm.py:202-236 | padded coupons change neither market nor model value, y* included |
| SwaptionHelpers.StackingKeepsValues | engine/calibration/lgm.py:202-236 | a stack is rectangular and every helper in it is worth what it was, NaN strikes included |
| SwaptionHelpers.StackIsUniform | engine/calibration/lgm.py:202-236 | a stack has strikes if and only if some helper of it is struck |
| SwaptionPrices.PriceHasSlope | engine/calibration/lgm.py:401-431 | for a CDF with the normal density as its slope, up to a second-order remainder, the price as a function of y has the density-weighted swap over the root of the variance as its slope, up to a second-order remainder whose bound is given |
| SwaptionPrices.StationaryAtRoot | engine/calibration/lgm.py:401-431 | that slope is a positive factor times the underlying at y, so the price is stationary in y if and only if the underlying vanishes there |
| SwaptionPrices.PricedAtRoot | engine/calibration/lgm.py:418-431 | with the root found, the option is worth its price at a y where the underlying vanishes and the price is stationary |
| SwaptionPrices.ModelIsPricedAtRoot | engine/calibration/lgm.py:372-379 | a helper's model value is that price at its own strike, a receiver's if and only if the strike is no higher than the forward |
| SwaptionPrices.RootIsBest | engine/calibration/lgm.py:401-431 | where the underlying crosses zero from above at y*, no other boundary gives a larger price, to a receiver or a payer |
| SwaptionPrices.UnderlyingFalls | engine/calibration/lgm.py:434-439 | the underlying strictly decreases in y where H grows, coupons are paid after the start and none less its correction is negative |
| SwaptionPrices.OnlyRootIsBest | engine/calibration/lgm.py:418-431 | there y* is the only root, whatever solver finds it, and the best boundary |
| SwaptionPrices.UnderlyingIsSimulated | engine/calibration/lgm.py:434-439 | the underlying at y is the corrected swap on the simulated market's curve at z = y - H zeta, discounted to today, and vanishes exactly where that swap is worth nothing |
| SwaptionPrices.EitherSideReprices | engine/calibration/lgm.py:364-380 | on a regular schedule a helper is repriced as a receiver if and only if it is as a payer |
| SwaptionPrices.HelpersAreRepriced | engine/calibration/lgm.py:526-553 | bootstrapped on swaption helpers with a root in every bucket, the volatility gives each its market value at its expiry, on regular schedules on either side |
| Curves.StencilIsExact | engine/market_data/curves.py:170-204 | the stencil is the change of ln P under every node deviation, at every t from 0 on, if and only if the curve is a zero curve or has two tenors |
| Curves.NodesAreReproduced | engine/market_data/curves.py:84-100 | at every node, the last included, the interpolant has the node's value |
| Curves.ZeroRateIsLinear | engine/market_data/curves.py:84-93 | a zero rate is on the straight line between the pillars around it, the first one's before them, and beyond the last such that r(t) t grows at one forward |
| Curves.LastForwardIs | engine/market_data/curves.py:77-81 | that forward is z + t z' of the last segment at its end |
| Curves.LogDiscountIsLinear | engine/market_data/curves.py:135-149 | a log discount factor is on the straight line between the tenors around it, continued beyond the first and the last |
| Curves.WithinPillars | engine/market_data/curves.py:198-204 | before the first pillar, at pillars and between them |
| Curves.BeyondPillars | engine/market_data/curves.py:199-204 | in flat-forward extrapolation |
| Artifacts.ArrayArtifact | engine/api/artifacts.py:52-73 | refused for wrong axes or items; otherwise the reference describes the array |
| Artifacts.ReadArray | engine/api/artifacts.py:76-92 | succeeds if and only if every hash, size and shape checks, with the fetched bytes joined |
| Artifacts.ChunksTile | engine/api/artifacts.py:64-71 | the row ranges tile the first axis, whole rows each, no larger than the limit unless a single row |
| Artifacts.RowsPerChunk | engine/api/artifacts.py:62-63 | as many whole rows as fit a chunk, and at least one |
| Artifacts.ProductJoins | engine/api/artifacts.py:92 | an axis has as many items as it is long, and axes multiply |
| Artifacts.ReadBack | engine/api/artifacts.py:76-92 | reading a published array gives it back, for every shape and chunk size |
| Artifacts.AcceptedIsPublished | engine/api/artifacts.py:81-88 | whatever is fetched, what a reader accepts is what was published, if the hash has no collisions |
| Artifacts.AcceptedItemsArePublished | engine/api/artifacts.py:45-88 | and the item order accepted under a hash is the one published under it |
| IntervalUnion.UnionNanoseconds | demos/benchmark_reporting.py:203-209 | the number of instants of [start, end) that at least one interval holds, for any list of intervals |

## Left out

- HTTP routes, schemas and result documents, launching and supervising processes, profiles and plots: they translate or report.
- Floating-point rounding of the float64 host code, and of sums and products in the accumulate format (`add_level`, `matmul`): not decided by the code modelled here.
- Non-finite values in rounding and scaling: they pass through or are masked, each in one branch.
- The stacking of terms along a matrix axis and the choice of a product's algorithm, carrier and device; `_rounded_product`'s sum is exact in this model and so does not depend on its order.
- Shared operands in another format and stochastic rounding of terms: `_terms` is modelled for nearest rounding on one slice.
- `step_moments`, `_transition` and `_covariance`: their entries are numerical integrals; a step's moments are inputs, its factor made of its covariance by `flexible_cholesky` where a result needs that.
- Sobol draws, the inverse normal CDF, automatic differentiation, sharding and device dispatch: numerical library behaviour.
- Calendars, schedules and the helpers' construction by the pricing library: coupons and expiries are inputs.
- The root solver (`solve`, `implicit_root`, `elementwise_root_tangent`): a parameter, with the roots it finds as a hypothesis.
- The acceptance of a calibration (its error against a tolerance) and its messages: settled by reading one branch.
- The HTTP server's conversion of ids, and the wording of errors: a tag or a short text stands for each, the boundary's name for a cancelled job's.
- SQLite's locking, write-ahead log and timeouts, the lock file's contents, polling, retention parsing and the purge interval: one transaction is one step, and a purge may come at any time the worker is idle.
- Asynchronous arrival of hosts at a collective and its timeouts: a round is one collective that all have entered, and a crash of one host stops the set in the next.
- JobTables.KeyNamesOneJob: for submissions the queue takes, of its one kind; another kind is refused before the key is read.
- JobTables.MigrationsEstablishValid: a version-3 file is taken to hold no waiting job that was flagged or started, as no version-3 worker put jobs back.
- Products.TermsReconstruct: for slices whose largest entry the lowest scale brings within the format; larger ones saturate (`Products.LowSaturation`).
- Products.UnscaledTermsReconstruct: for entries within a value of the grid; TensorFloat-32's stated limit, float32's largest value, is not one, and entries above its last grid value can overflow.
- Calibration.BootstrapReprices: for expiries after the reference date.
- SwaptionPrices.UnderlyingFalls: for helpers whose fixed coupons, less their corrections, are not negative at the strike; `SwaptionPrices.RootIsBest` asks only that the underlying cross zero from above.
- TermStructures.ZetaStartsAtZero: for bucket ends from 0 on.
- Curves.StencilIsExact: for a last node at or after time 0.
