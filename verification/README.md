# Proofs about the RS-1 fusion pipeline and its neighbours

A Dafny 4.11 model of the parts of this repository that carry state or do
arithmetic worth proving something about, with the proofs. `dafny verify
dfyconfig.toml` checks everything.

## What is modelled

**Sensor fusion** (`products/rs1/fusion`). `Assignments.dfy` is the mathematics
of the assignment problem: the dual bound given by row and column minima, weak
duality, zero patterns and Hall violators. `Hungarian.dfy` is the solver, on
arrays, one method for each labelled step of the source function.
`HallTheorem.dfy` turns its halting condition into one about sets of rows.
`Association.dfy` adds the angular gate and the three result lists,
`TrackOrder.dfy` shows that the order of the tracks does not matter and
`ListingOrder.dfy` applies that to two listings of the engine's map.
`Kalman.dfy` is the filter on 4x4 matrices, as a class; `FilterMath.dfy` is what
it is proved equal to, two identical 2-state filters, and the properties of
those. `FusionModel.dfy` says what a batch and a timer tick do to the tracks, as
values, and what holds in every run; `Engine.dfy` is the engine itself, a map of
track objects changed in place, each method proved to make the transition of
that name. `TrackIds.dfy` and `MapFold.dfy` serve these two.

**Event stream** (`EventStream.dfy`). The hand-over between concurrent
`StreamEvents` calls as a state machine whose steps are the mutex sections, the
channel operations and the sends; a run is any interleaving.

**Over-the-air update** (`Ota.dfy`, `UpdateFiles.dfy`, `UpdateLock.dfy`). The
updater as a class whose runs are functions of its state and of an environment
record that holds every answer the outside can give, together with a log of file
operations and a record of all calls, to which its invariant ties every flag; and
concurrent callers as a state machine over the mutex and the writes of a run.

**Radar frames, video stream, link addresses, configuration fields**
(`Ld2450.dfy`, `VideoStream.dfy`, `ByteCodec.dfy`, `LinkAddresses.dfy`,
`ConfigFields.dfy`, `ConfigOrders.dfy`, `ConfigVerdicts.dfy`). A scanner against its specification, a length-prefix codec,
a reconciliation loop with every intermediate kernel state, and defaulting with
validation over maps that are iterated in any order.

## What turned out differently from what the code or its documents say

- *The solver does not always return.* `rowCovered` is never set and every
  column keeps a zero, so the adjustment subtracts 0 and the inner loop repeats
  itself for ever whenever the zeros left by the two reductions have no perfect
  matching. `Solve` takes the number of passes it may make; `None` means that
  they did not suffice. It returns within as many passes as the padded matrix
  has rows exactly when there is such a matching, which is when no set of rows
  has its zeros in fewer columns than rows. `NeverReturnsWitness` gives three
  ordinary detections and tracks for which it spins. In the engine the mutex is
  then held for good: `ProcessDetections` yields `None` with nothing changed.
- *An empty row yields zeros, not -1*, although the function's comment promises
  -1 for rows without a column (`hungarian.go:118` and `hungarian.go:125-127`).
- *One wrap-around is undone, not several*: `AngleDiffIsCircular` says exactly
  when the result is the distance on the circle. Azimuths from an arctangent
  always satisfy the condition; 400 degrees against 0 yields -40
  (`TwoTurnsWitness`).
- *No track is ever deleted.* `docs/rs1/FUSION_ENGINE.md:140` speaks of deletion
  after 30 missed frames and the code of 5; but a tick moves the filter's time
  to now before its age is looked at, so the counter never moves
  (`TickDeletesExactly`, `EveryRun`).
- *Two sensors can report less than one.* `BoostExactly` gives the condition.
- *A replaced event stream can still send one event*: exactly when the
  replacement found it cleared to send (`ReplacedSendExactly`). That event goes
  out behind a newer one exactly when a later call has sent something by then
  (`SendsLateExactly`; `OrderCanInvert` is such a run). One that has not returned
  yet can also take an event, which is then lost (`StaleCallTakesEvent`).
- *A frame length is cut to 32 bits*, so the video round trip holds exactly
  under the condition of `VideoStream.RoundTrip`.
- *A component stays pending after a failed run*: `pending` is never cleared, and
  a later run installs it again with that run's release data (`PendingExactly`,
  `TryUpdate`). `InstallsUnasked` is a pair of calls of which the second asks for
  the system only and installs the app.
- *A second wish cannot undo link-local addresses that an earlier one added*
  (`ReconcileTwice`, `LinkLocalStays`).
- *Validating a configuration twice is not the same as once*: `Twice` gives the
  exact condition, for every record that is accepted in some order. A default is
  judged by its own checks only the second time (`RefusedTheSecondTime`), a
  condition may find a default that it was waiting for, and a condition on a
  list field never holds.
- *The verdict on a configuration can depend on map iteration order*:
  `FixedExactly` says when it does not, `ReachedExactly` which verdicts some
  order leads to, and `OrderDecides` is a record whose verdict does.
- *A confidence of 0 is allowed but not handled*: `engine.go:29` documents the
  range 0-1, and a track made by such a detection carries a flag that contradicts
  its confidences. `ClassifiedExactly` says that all tracks are classified
  throughout a run exactly when every confidence is above 0 and at most 1.

## Reading the model

`float64` is `real`: no rounding, overflow or NaN. Times are `int` nanoseconds,
and clock readings are parameters (`now`; `births` for the readings that new
filters take). The azimuth, the room transform, SHA-256, string validators,
"is link-local" and "compares equal" are function parameters, so what is proved
holds for all of them. The two batch methods of the engine differ only in the
fields they set and are one method with a sensor parameter. Long source functions
are split into a method for each step. Map iteration is a choice of any
remaining key. Matrix inversion fails for determinant 0 only. A schema in
`ConfigFields.dfy` stands for field tags that parse.

## Model

| member | source | states |
|---|---|---|
| Hungarian.BuildPadded | products/rs1/fusion/hungarian.go:129-146 | the square matrix is the input with zero-cost dummy rows or columns |
| Hungarian.SubtractRowMinimums | products/rs1/fusion/hungarian.go:148-159 | every row is lowered by its minimum, in place |
| Hungarian.SubtractColumnMinimums | products/rs1/fusion/hungarian.go:161-172 | every column is then lowered by its minimum; the result is the reduced matrix |
| Hungarian.AssignRow | products/rs1/fusion/hungarian.go:186-191 | a free row takes the first free column in which it has a zero, no assignment is undone, the matching stays one of zeros |
| Hungarian.InitialAssignment | products/rs1/fusion/hungarian.go:174-192 | a matching of zeros that no further free zero can extend |
| Hungarian.CountAssigned | products/rs1/fusion/hungarian.go:196-202 | the number of assigned rows |
| Hungarian.CoverAssignedColumns | products/rs1/fusion/hungarian.go:207-220 | exactly the columns of assigned rows are covered |
| Hungarian.Adjust | products/rs1/fusion/hungarian.go:225-250 | for any cover: the least uncovered entry, taken off every uncovered cell, added to every doubly covered one |
| Hungarian.AdjustmentIsZero | products/rs1/fusion/hungarian.go:207-250 | while a row is unassigned an uncovered zero exists and no entry is negative, so the adjustment never changes anything |
| Hungarian.TraceBack | products/rs1/fusion/hungarian.go:275-291 | flipping the path keeps a matching of zeros and assigns one more row, the root of the search, and no row less |
| Hungarian.Visit | products/rs1/fusion/hungarian.go:294-300 | a row not seen before joins tree and queue with a zero as its parent edge; a row seen before changes nothing |
| Hungarian.ScanRow | products/rs1/fusion/hungarian.go:267-301 | a row is scanned completely or an augmenting path through it has been flipped |
| Hungarian.PathUnblocks | products/rs1/fusion/hungarian.go:275-291 | where a search tree reaches a free column, no set of rows around its root holds all of its own zero columns |
| Hungarian.Search | products/rs1/fusion/hungarian.go:258-302 | succeeds exactly when an augmenting path starts in the row; then the row becomes assigned and no row loses its column, else nothing changes and the searched rows are a Hall violator |
| Hungarian.SearchRows | products/rs1/fusion/hungarian.go:253-307 | one more row is assigned exactly when some unassigned row starts an augmenting path |
| Hungarian.AdjustInVain | products/rs1/fusion/hungarian.go:225-250 | the adjustment, as it is reached, leaves the reduced matrix as it was |
| Hungarian.ExhaustedSearchIsViolator | products/rs1/fusion/hungarian.go:266-302 | rows of a search that ends without a free column have their zeros in fewer columns than rows |
| Hungarian.Pass | products/rs1/fusion/hungarian.go:224-308 | one pass leaves the matrix as it was and assigns exactly one more row when an augmenting path exists, else changes nothing and exhibits a Hall violator |
| Hungarian.PassUntilFound | products/rs1/fusion/hungarian.go:222-308 | exactly when an augmenting path exists the loop ends, after its first pass; otherwise no number of passes ends it and nothing changes |
| Hungarian.AssignAll | products/rs1/fusion/hungarian.go:194-309 | on return the two assignments are inverse permutations on reduced zeros; the budget fails only when it is below the number of unassigned rows or a violator exists |
| Hungarian.RestrictToInput | products/rs1/fusion/hungarian.go:311-321 | dummy columns become -1 |
| Hungarian.Solve | products/rs1/fusion/hungarian.go:119-322 | returns iff the reduced zeros have a perfect matching, given as many passes as the padded side; the result has least total cost among all assignments of min(rows, cols) cells and is the restriction of one of two inverse permutations |
| Hungarian.MatchingIsAssignment | products/rs1/fusion/hungarian.go:203-205 | a complete matching is a pair of mutually inverse permutations on zeros |
| Assignments.ReducedHasZeroInEveryColumn | products/rs1/fusion/hungarian.go:148-172 | after both reductions every entry is non-negative and every column has a zero |
| Assignments.WeakDuality | products/rs1/fusion/hungarian.go:148-172 | every permutation costs at least the sum of the subtracted minima, and exactly that iff it uses reduced zeros only |
| Assignments.ZeroMatchingIsOptimal | products/rs1/fusion/hungarian.go:311-321 | a zero matching of the padded matrix, cut to the input, is an optimal assignment of the input |
| Assignments.ZeroMatchingIffBoundTight | products/rs1/fusion/hungarian.go:194-309 | the solver's halting condition as arithmetic: some permutation costs no more than the minima together |
| Assignments.ViolatorExcludesMatching | products/rs1/fusion/hungarian.go:222-308 | a Hall violator rules out a perfect matching of the zeros, so the loop never ends |
| Assignments.RestrictIsFullAssignment | products/rs1/fusion/hungarian.go:311-321 | a permutation cut to the input assigns exactly min(rows, cols) rows, each column at most once |
| HallTheorem.HaltsIffNoViolator | products/rs1/fusion/hungarian.go:194-309 | the zeros have a perfect matching iff no set of rows has its zeros in fewer columns |
| HallTheorem.Augment | products/rs1/fusion/hungarian.go:275-291 | from every search tree that reaches a free column there is a matching with one more row |
| Association.AngleDiffIsCircular | products/rs1/fusion/hungarian.go:108-114 | the result is the distance on the circle iff the azimuths are at most one turn apart, and is then between 0 and 180 |
| Association.BuildCosts | products/rs1/fusion/hungarian.go:54-67 | angles within 15 degrees, the penalty elsewhere |
| Association.PenaltyIsAMillion | products/rs1/fusion/hungarian.go:57-66 | angles up to 15 degrees cost themselves, larger ones a million |
| Association.OnePair | products/rs1/fusion/hungarian.go:32-104 | one detection and one track are associated iff they are at most 15 degrees apart, with the angle as cost |
| Association.KeepGated | products/rs1/fusion/hungarian.go:72-89 | the pairs kept are, in row order, those of the assignment that pass the gate, with their angles |
| Association.Remaining | products/rs1/fusion/hungarian.go:91-101 | the unmatched indices, ascending and complete |
| Association.OptimalIsBest | products/rs1/fusion/hungarian.go:16-104 | a least-cost assignment, without its penalised pairs, is a largest matching within the gate and of least total angle among the largest |
| Association.AssociateDetections | products/rs1/fusion/hungarian.go:32-104 | returns iff the solver does; pairs and unmatched lists split both index ranges; the pairs are a largest gated matching of least total angle when azimuths are comparable and 15 min(n, m) < 10^6 |
| Association.NeverReturnsWitness | products/rs1/fusion/hungarian.go:222-308 | detections at 0, 1, 2 degrees against tracks at 0, 5, 10: comparable, and the solver never returns |
| Association.TwoTurnsWitness | products/rs1/fusion/hungarian.go:108-114 | 400 and 0 degrees differ by -40 |
| TrackOrder.HaltingIgnoresOrder | products/rs1/fusion/hungarian.go:32-104 | whether the solver returns does not depend on the order of the second list of azimuths |
| TrackOrder.ResultIgnoresOrder | products/rs1/fusion/hungarian.go:32-104 | nor do the number of associations and their total angle |
| ListingOrder.ListingsPermute | products/rs1/fusion/engine.go:232-238 | two listings of the same tracks are permutations of each other |
| ListingOrder.HaltingIgnoresListing | products/rs1/fusion/engine.go:232-247 | whether a batch gets through does not depend on the order in which the tracks are listed |
| ListingOrder.AssociationsIgnoreListing | products/rs1/fusion/engine.go:232-247 | nor do the number of its associations and their total angle |
| ListingOrder.BatchIgnoresListing | products/rs1/fusion/engine.go:232-267 | batches that differ in the listing only leave the same counter and number of tracks |
| Kalman.KalmanFilter.constructor | products/rs1/fusion/kalman.go:39-82 | a filter at rest at the given position, with variances 1 and 10 |
| Kalman.KalmanFilter.Predict | products/rs1/fusion/kalman.go:86-118 | the matrix prediction is the scalar one on both axes, and nothing happens when time does not advance |
| Kalman.KalmanFilter.Innovation | products/rs1/fusion/kalman.go:134-142 | S is (a + 0.5) times the identity |
| Kalman.KalmanFilter.Gain | products/rs1/fusion/kalman.go:144-156 | S can always be inverted, so the branch that skips the update is dead; the gain acts on each axis alone |
| Kalman.KalmanFilter.Update | products/rs1/fusion/kalman.go:121-180 | the matrix update is the scalar one on both axes, the covariance keeps its shape and stays positive definite |
| Kalman.KalmanFilter.MarkMissed | products/rs1/fusion/kalman.go:204-206 | one more missed frame, nothing else |
| Kalman.BlockPositiveDefinite | products/rs1/fusion/kalman.go:16-18 | the 4x4 covariance of two uncoupled filters is symmetric and positive on every non-zero vector |
| Kalman.PredictBlock | products/rs1/fusion/kalman.go:98-117 | F P F' + Q of two identical uncoupled filters is two identical uncoupled filters |
| Kalman.InnovationScaled | products/rs1/fusion/kalman.go:134-142 | H P H' + R is a multiple of the identity |
| Kalman.UpdateBlock | products/rs1/fusion/kalman.go:163-179 | (I - K H) P keeps the two uncoupled filters and equals the scalar covariance update |
| Kalman.UpdateState | products/rs1/fusion/kalman.go:124-161 | x + K (z - H x) is the scalar update of each axis |
| FilterMath.PredictCovPD | products/rs1/fusion/kalman.go:110-117 | prediction by any time step keeps positive definiteness and raises the velocity variance |
| FilterMath.PredictionsCompose | products/rs1/fusion/kalman.go:86-118 | any sequence of predictions, times in any order, is one extrapolation to the latest time, and that becomes the filter's time |
| FilterMath.UpdateCovPD | products/rs1/fusion/kalman.go:163-179 | an update keeps positive definiteness, puts the position variance below both its old value and 0.5, and lets no variance grow |
| FilterMath.UpdateInterpolates | products/rs1/fusion/kalman.go:124-161 | the new position lies strictly between prediction and measurement, or nothing moves when they agree |
| FilterMath.UpdateAddsInformation | products/rs1/fusion/kalman.go:121-180 | the inverse covariance and the information vector grow by H'R^-1H and H'R^-1z, nothing else |
| FilterMath.InfoDetermines | products/rs1/fusion/kalman.go:121-180 | equal information means equal mean and covariance |
| FilterMath.LeastSquaresSplits | products/rs1/fusion/kalman.go:121-180 | every state costs, in weighted least squares, the cost of the updated state plus its squared distance from it, weighted by the new inverse covariance |
| FilterMath.UpdateMinimises | products/rs1/fusion/kalman.go:121-180 | the updated state is the unique minimiser of the weighted least-squares cost of prediction and measurement |
| FilterMath.UpdatesAddInformation | products/rs1/fusion/kalman.go:121-180 | many measurements at one time add their number and their sum |
| FilterMath.MeasurementsCommute | products/rs1/fusion/kalman.go:121-180 | measurements at one time give the same mean and covariance in any order |
| FilterMath.RunsStayPositive | products/rs1/fusion/kalman.go:86-206 | in every run of predictions, updates and misses the covariance stays positive definite and time does not go back; after an update the position variance is below 0.5 |
| FilterMath.NewAtRest | products/rs1/fusion/kalman.go:39-82 | a new filter stands at its position with velocity 0, variances 1 and 10 and nothing missed |
| FilterMath.SomeTime | products/rs1/fusion/kalman.go:86-118 | over dt seconds the mean moves by dt times the velocity; the variances become those of p + dt v and of v, plus 0.1 and 1 |
| FilterMath.OneMeasurement | products/rs1/fusion/kalman.go:121-180 | a measurement adds 2 to the precision and twice its coordinate to the information of its own axis |
| TrackIds.TrackIDInjective | products/rs1/fusion/engine.go:316-317 | different counters print as different identifiers |
| TrackIds.NextIdIsFresh | products/rs1/fusion/engine.go:316-317 | the next identifier has not been issued |
| TrackIds.NotYetIssued | products/rs1/fusion/engine.go:316-317 | nor have the ones after it |
| TrackIds.FirstIds | products/rs1/fusion/engine.go:316-317 | counters 1, 2 and 10 print as track_1, track_2 and track_10 |
| FusionModel.TickDeletesExactly | products/rs1/fusion/engine.go:351-368 | a tick deletes a track iff its counter had reached the limit before; the counter and the timeout never act |
| FusionModel.TicksFade | products/rs1/fusion/engine.go:344-380 | after any number of ticks, times in any order, a track stands where constant velocity takes it by the latest, its time is that, and each confidence is 0.95 to the number of ticks times what it was |
| FusionModel.TickLimits | products/rs1/fusion/engine.go:355-368 | a frame counts as missed after 200 ms; 5 of them, or 2 s, are too many |
| FusionModel.StepInvariant | products/rs1/fusion/engine.go:225-380 | every batch, whatever its confidences, and every tick keeps keys 1 .. nextTrackID-1 and a zero counter of missed frames, and removes no track |
| FusionModel.EveryRun | products/rs1/fusion/engine.go:225-380 | so does every run of any length from the empty engine, and the counter grows by detections minus associations over all batches |
| FusionModel.BatchEffect | products/rs1/fusion/engine.go:246-267 | a batch makes one new track, under the next identifier, of each unmatched detection, detections minus associations in all; it updates each paired track once with its detection and leaves the rest alone |
| FusionModel.PairMoves | products/rs1/fusion/engine.go:249-260 | a paired track, extrapolated from its own time to the later of that and now, moves towards its detection: each coordinate ends strictly between prediction and detection, or stays where they agree; it gains the information of one measurement; the sensor's confidence becomes the detection's and the flags follow |
| FusionModel.BornAtDetection | products/rs1/fusion/engine.go:315-341 | each unmatched detection becomes the track of the next identifier, at rest where the detection is, with the confidence and flag of its sensor and the detection's timestamp |
| FusionModel.OneAgainstOne | products/rs1/fusion/engine.go:231-247 | a batch of one detection pairs it with the only track iff the azimuths of the places where they stand are at most 15 degrees apart |
| FusionModel.BatchClassifiedExactly | products/rs1/fusion/engine.go:250-333 | a batch leaves all tracks classified, the flags following the confidences, iff all its confidences are above 0 and at most 1 |
| FusionModel.ClassifiedExactly | products/rs1/fusion/engine.go:225-380 | all tracks are classified throughout a run iff every confidence in it is above 0 and at most 1 |
| FusionModel.ZeroConfidenceMisfiled | products/rs1/fusion/engine.go:319-333 | a camera detection of confidence 0 yields a track whose flags do not follow its confidences |
| FusionModel.CreateInvariant | products/rs1/fusion/engine.go:315-341 | a new track gets a fresh identifier and keeps the invariant |
| FusionModel.ConfidenceInRange | products/rs1/fusion/engine.go:173-181 | the reported confidence of a classified track is positive and at most 1 |
| FusionModel.BoostExactly | products/rs1/fusion/engine.go:177-181 | two sensors report at least the better one iff the better is at most 1.5 times the other |
| FusionModel.BoostCanLower | products/rs1/fusion/engine.go:177-181 | 0.9 and 0.1 are reported as 0.6 |
| FusionModel.ReportedConfidence | products/rs1/fusion/engine.go:173-181 | one sensor is reported as it is, two as 0.6 times their sum, at most 1 |
| FusionModel.NewTrackReported | products/rs1/fusion/engine.go:159-196 | a track that a batch created is reported at the room position of its detection, at rest, with the detection's confidence and times |
| FusionModel.FadedTrackReported | products/rs1/fusion/engine.go:159-196 | after ticks a track is reported at the room position of its extrapolated mean, with its velocity and the latest tick's time |
| FusionModel.SeenInRun | products/rs1/fusion/engine.go:246-267 | in every run with confidences above 0 and at most 1 a sensor's confidence in a track is positive iff it was at the start or a batch of that sensor created the track or was paired with it |
| FusionModel.FlagsTellHistory | products/rs1/fusion/engine.go:250-333 | in every such run a track is radar-only iff no camera batch has created it or been paired with it, and likewise vision-only |
| FusionModel.ReportsSound | products/rs1/fusion/engine.go:159-199 | in every state that such a run reaches reports carry a confidence in (0, 1], and the two flags say exactly which sensor's batches have never touched the track |
| FusionModel.AzimuthsComparable | products/rs1/fusion/transform.go:20-26 | for azimuths between -180 and 180 only the number of detections and tracks limits optimality |
| Engine.Track.constructor | products/rs1/fusion/engine.go:319-333 | a new track seen by one sensor |
| Engine.Track.Observe | products/rs1/fusion/engine.go:255-259 | the filter moves from the extrapolated position towards the detection on each axis and gains the information of one measurement; the sensor's confidence and both flags follow |
| Engine.Track.Age | products/rs1/fusion/engine.go:352-373 | predict, count a miss, test for staleness, decay both confidences |
| Engine.Track.Report | products/rs1/fusion/engine.go:165-196 | the object reported of one track |
| Engine.Engine.constructor | products/rs1/fusion/engine.go:86-97 | no tracks, counter at 1 |
| Engine.Engine.ListTracks | products/rs1/fusion/engine.go:231-238 | every track once, in some order, with its azimuth |
| Engine.Engine.CreateTrack | products/rs1/fusion/engine.go:315-341 | one track added under the next identifier, sharing nothing with the others |
| Engine.Engine.UpdateMatched | products/rs1/fusion/engine.go:249-260 | the associations applied one after the other to the track objects |
| Engine.Engine.CreateUnmatched | products/rs1/fusion/engine.go:262-266 | one track for each unmatched detection, in order |
| Engine.Engine.ProcessDetections | products/rs1/fusion/engine.go:225-312 | a camera or radar batch makes exactly the specified transition with a best association, or the solver spins and nothing has changed |
| Engine.Engine.GetObjects | products/rs1/fusion/engine.go:159-199 | exactly one report for each track |
| Engine.Engine.AgeAll | products/rs1/fusion/engine.go:351-374 | every track aged once, exactly the stale ones collected |
| Engine.Engine.PredictAndCleanup | products/rs1/fusion/engine.go:344-380 | a tick ages every track and drops exactly the stale ones |
| EventStream.StepKeeps | targets/rv1106/native/grpc_server.go:86-144 | every step of every call keeps the protocol's invariant |
| EventStream.RunKeeps | targets/rv1106/native/grpc_server.go:86-144 | the invariant holds in every state of every interleaving; what cancels, replaces and registers a call is in the rows below |
| EventStream.DoneExactly | targets/rv1106/native/grpc_server.go:101-123 | a call's context is done iff its client disconnected, its clean-up ran, or another call opened while it was registered |
| EventStream.ReplacedExactly | targets/rv1106/native/grpc_server.go:101-110 | a call has been replaced iff another one opened while it was registered |
| EventStream.RegisteredExactly | targets/rv1106/native/grpc_server.go:107-123 | registered is the call opened last, until its own clean-up runs |
| EventStream.ReplacedCanLeave | targets/rv1106/native/grpc_server.go:126-142 | a replaced call's context is done, so at its select it can always return |
| EventStream.ReturnsForAReason | targets/rv1106/native/grpc_server.go:126-142 | a call returns only cancelled or having lost exactly one event |
| EventStream.StandsStillExactly | targets/rv1106/native/grpc_server.go:126-142 | a call cannot go on iff it has returned, or waits on an empty channel and nothing has cancelled it |
| EventStream.ChannelBound | targets/rv1106/native/grpc_server.go:86-88 | the channel holds at most 100 events, and the sender waits exactly while it holds 100 |
| EventStream.StaleCallTakesEvent | targets/rv1106/native/grpc_server.go:126-136 | a run in which a replaced call takes the only event, which its successor never gets |
| EventStream.Conserved | targets/rv1106/native/grpc_server.go:86-144 | an event that entered the channel is queued, or held, sent or lost by exactly one call, never two of these |
| EventStream.CallGuarantees | targets/rv1106/native/grpc_server.go:95-144 | a call sends in channel order, loses at most one event, sends at most one after it was replaced |
| EventStream.SendsLateExactly | targets/rv1106/native/grpc_server.go:95-144 | a send goes out behind a newer event iff a call opened after the sending one has already sent something |
| EventStream.ReplacedSendExactly | targets/rv1106/native/grpc_server.go:101-139 | a call sends after being replaced iff the replacement found it cleared to send, and then it sends that event |
| EventStream.OlderCallsSendOlder | targets/rv1106/native/grpc_server.go:101-139 | from the moment a call opens, calls that were there before send only what had left the channel by then |
| EventStream.RegisteredSendsInOrder | targets/rv1106/native/grpc_server.go:126-139 | what the registered call sends is newer than everything sent before by any call |
| EventStream.OrderCanInvert | targets/rv1106/native/grpc_server.go:126-139 | a run in which a replaced call sends an older event after its successor's newer one |
| EventStream.SendFollowsCheck | targets/rv1106/native/grpc_server.go:127-137 | a call is cleared to send an event only by having seen itself registered while holding that event |
| UpdateFiles.FinalPathsVouched | platform/ota/utils.go:177-186 | at every moment what stands at a final path was there untouched from the start or was renamed there after its hash matched |
| Ota.State.constructor | platform/ota/ota.go:170-177 | a fresh updater: no calls yet, nothing in progress, pending or failed, mutex free |
| Ota.State.StartFile | platform/ota/utils.go:50-70 | old files are removed and an empty unverified file created, exactly when no removal or creation fails |
| Ota.State.WriteChunk | platform/ota/utils.go:98-113 | one read is appended whole, or the download fails on a short or failed write |
| Ota.State.WriteBody | platform/ota/utils.go:95-120 | all reads are appended in order exactly when every write was complete |
| Ota.State.DownloadFile | platform/ota/utils.go:31-131 | succeeds exactly when nothing on the way fails, and then the unverified file is the body and the final path is free |
| Ota.State.VerifyFile | platform/ota/utils.go:132-193 | succeeds exactly when the hash matches and no file operation fails; a file reaches the final path only with a matching hash |
| Ota.State.ComponentUpdateError | platform/ota/errors.go:15-24 | records the failure and clears the updating flag |
| Ota.State.UpdateApp | platform/ota/app.go:14-45 | succeeds exactly when download and verification do; then the file is in place and a reboot is due; otherwise the updating flag is cleared |
| Ota.State.UpdateSystem | platform/ota/sys.go:16-93 | the same with the partition tool's two ways to fail |
| Ota.State.GetUpdateStatus | platform/ota/ota.go:316-418 | stores both statuses or neither, and when |
| Ota.State.MarkPending | platform/ota/ota.go:211-229 | a component is pending iff it was before or is requested and available now |
| Ota.OneMoreCall | platform/ota/ota.go:170-301 | what one more call adds: the updating flag tells of a reboot granted by some call, the error of a failed one, pending of one that found the component |
| Ota.InstallsUnasked | platform/ota/ota.go:211-295 | the app's download fails, and a later call that asks for the system only installs the app and reboots |
| Ota.PendingExactly | platform/ota/rpc.go:104-167 | a component is pending iff an earlier run left it so, or it is requested and a version was named and the release differs from the local one, or none was named and the release is newer |
| Ota.WantsExactly | platform/ota/state.go:13-16 | without named components a call asks for the newer releases of both; a component named without a version is found when newer, with one when the release differs |
| Ota.CheckedStatus | platform/ota/rpc.go:104-167 | a check takes over version, address and hash of each release and says what is available and which version was chosen by hand |
| Ota.State.FetchPending | platform/ota/ota.go:240-261 | the first fault among the pending components, or none and then all of them in place |
| Ota.OnlyCompleteDownloads | platform/ota/utils.go:31-193 | a fetched file is a complete 200 response, written completely, with the given hash |
| Ota.State.Install | platform/ota/ota.go:231-300 | ends as specified; updating stays set iff the reboot was accepted; the end without a reboot is never reached |
| Ota.State.DoUpdate | platform/ota/ota.go:181-301 | the outcome of a run for every environment; a reboot is requested only with every pending component's file in place, downloaded in this run and with this run's hash |
| Ota.State.EndsExactly | platform/ota/ota.go:181-301 | a call ends with a reboot iff it was not refused, the check got through, something is due by this or an earlier call, all that is due works, and reset and reboot do; and when it finds nothing to do or nothing it knows |
| Ota.State.FaultsExactly | platform/ota/ota.go:240-295 | which fault it ends with: the first in the order app, system, reset, reboot |
| Ota.NothingNamedMeansBoth | platform/ota/ota.go:196-198 | only the system is newer: a call that names no components installs it and reboots |
| Ota.State.TryUpdate | platform/ota/ota.go:170-177 | a call that finds the mutex held changes nothing; any other reboots and gets checked exactly under spelled-out conditions, leaves a component pending iff it was or the call finds it, where no components mean both and are never refused; and over all calls so far updating is set iff one was granted a reboot and nothing runs after that |
| UpdateLock.OneAtATime | platform/ota/ota.go:170-182 | under any interleaving of callers at most one is inside, and the writes of different runs do not mix |
| UpdateLock.RefusedExactly | platform/ota/ota.go:171-174 | a caller is refused iff another one is inside, and then its refusal is all that changes; every earlier caller keeps its place in any case |
| UpdateLock.OthersWait | platform/ota/ota.go:170-182 | while one caller is inside, the one thing that another caller's step changes is that it is refused |
| UpdateLock.FlagMeansReboot | platform/ota/ota.go:189-193 | with nobody inside, updating is set iff a reboot was granted, and no interleaving grants two |
| Ota.EveryMomentVouched | platform/ota/ota.go:170-301 | after any number of calls, every file ever at a final path was there from the start or had its hash matched |
| Ld2450.DistanceFits | products/rs1/radar/ld2450.go:54-61 | the millimetre distance of any 16-bit pair fits 16 bits |
| Ld2450.RootIsRoot | products/rs1/radar/ld2450.go:58-60 | the truncated distance is the integer square root |
| Ld2450.MadeTargetRanged | products/rs1/radar/ld2450.go:54-61 | a target is valid iff a coordinate is not 0; then its distance is positive, below 65536 and the truncated hypotenuse, else 0 |
| Ld2450.FrameBytes | products/rs1/radar/ld2450.go:194-201 | a frame is thirty bytes that begin with AA FF 03 00 and end with 55 CC |
| Ld2450.Scan | products/rs1/radar/ld2450.go:194-215 | positions of the frames: leftmost first, non-overlapping, none skipped |
| Ld2450.LeftmostUnique | products/rs1/radar/ld2450.go:194-215 | there is only one such list |
| Ld2450.PayloadsAreLeftmost | products/rs1/radar/ld2450.go:194-215 | the payloads the loop finds are those of the frames at these positions |
| Ld2450.LD2450.ParseData | products/rs1/radar/ld2450.go:194-215 | the channel takes the first frames it has room for, in order; the last frame is remembered whether or not it fitted |
| Ld2450.TakenInOrder | products/rs1/radar/ld2450.go:206-210 | under any interleaving of offers and takings, frames taken and still queued are, in order, those of the offered ones that found room |
| Ld2450.DroppedExactly | products/rs1/radar/ld2450.go:206-210 | an offered frame is dropped iff the channel is full at that moment |
| Ld2450.OffersOnly | products/rs1/radar/ld2450.go:206-210 | without takings the channel is as ParseData leaves it |
| Ld2450.RoomForTen | products/rs1/radar/ld2450.go:93 | the channel has room for ten frames |
| Ld2450.LD2450.Deliver | products/rs1/radar/ld2450.go:201-210 | one frame offered to the bounded channel |
| Ld2450.LD2450.ParseFrame | products/rs1/radar/ld2450.go:218-240 | three targets, each of its own eight bytes: little-endian two's complement coordinates and speed, valid iff one of the first four bytes is not 0, the distance the truncated hypotenuse, positive and below 65536, or 0 without data |
| Ld2450.SlotDescribes | products/rs1/radar/ld2450.go:218-240 | the same of the specified frame |
| Ld2450.ValidTargets | products/rs1/radar/ld2450.go:243-251 | exactly the valid targets of the frame, in the order in which they stand in it, none left out |
| Ld2450.RoundTrip | products/rs1/radar/ld2450.go:187-240 | any encoded targets, after a prefix without the first header byte and before fewer than 30 bytes, are found again exactly |
| ByteCodec.Int16RoundTrip | products/rs1/radar/ld2450.go:226-228 | 16-bit values survive the wire |
| ByteCodec.Uint32RoundTrip | targets/rv1106/native/server.go:101-102 | a length survives modulo 2^32 |
| ByteCodec.LittleEndian | targets/rv1106/native/proxy.go:282 | the first byte is the least significant one |
| VideoStream.HandleVideoFrames | targets/rv1106/native/proxy.go:265-301 | the reader with its one buffer delivers what the stream decodes to |
| VideoStream.Accepted | targets/rv1106/native/proxy.go:282-287 | the frames before the first refused size |
| VideoStream.RoundTrip | targets/rv1106/native/server.go:99-110 | decoding what was written gives the frames up to the first refused size, iff that size is still refused modulo 2^32 |
| VideoStream.RoundTripShort | targets/rv1106/native/server.go:99-110 | always so for frames shorter than 2^32 bytes |
| VideoStream.GetsThroughExactly | targets/rv1106/native/proxy.go:282-287 | a frame gets through iff it has 1 to 1036800 bytes modulo 2^32 |
| VideoStream.Writer.constructor | targets/rv1106/native/server.go:99-110 | a connection on which nothing has been written |
| VideoStream.Writer.OnVideoFrameReceived | targets/rv1106/native/server.go:99-110 | after each frame the connection holds the encoding of all frames so far |
| VideoStream.OversizedFrameIsTorn | targets/rv1106/native/server.go:101-102 | of a frame of 2^32 + 1 bytes the reader delivers the first byte as a frame |
| VideoStream.CutStream | targets/rv1106/native/proxy.go:272-300 | a stream cut anywhere delivers a prefix of what the whole delivers |
| LinkAddresses.Link.constructor | pkg/nmlite/link/manager.go:471-472 | a link with its kernel addresses |
| LinkAddresses.Link.AddrAdd | pkg/nmlite/link/manager.go:508-514 | set-like addition that fails on a duplicate |
| LinkAddresses.Link.AddrDel | pkg/nmlite/link/manager.go:516-520 | set-like removal that fails when absent |
| LinkAddresses.Sort | pkg/nmlite/link/manager.go:473-493 | what is removed, updated and still wanted, by name, link-local and comparison |
| LinkAddresses.InSomeOrder | pkg/nmlite/link/manager.go:495-498 | the wanted addresses, each in the list |
| LinkAddresses.Link.ReconcileLink | pkg/nmlite/link/manager.go:442-528 | the link ends with its old link-local addresses and the wanted ones; those link-local addresses and the addresses that compare equal are there in every intermediate state; no stale address goes before all wanted ones have come |
| LinkAddresses.LinkLocalStays | pkg/nmlite/link/manager.go:475-478 | a link-local address that was wanted once is still there after an empty wish |
| LinkAddresses.ReconcileTwice | pkg/nmlite/link/manager.go:442-528 | a second run changes nothing; a later wish undoes an earlier one iff the earlier brought in no new link-local address |
| ConfigFields.CheckConditions | internal/confparser/confparser.go:258-295 | the outcome is that of the first telling condition in some order of the map |
| ConfigFields.OrderMattersExactly | internal/confparser/confparser.go:258-295 | the order matters iff two conditions tell different things |
| ConfigFields.ValidateField | internal/confparser/confparser.go:184-253 | a field is accepted, and becomes what it should, exactly when it is acceptable |
| ConfigFields.SetDefaultsAndValidate | internal/confparser/confparser.go:171-182 | for any iteration order: an accepted record is lawful (see LawfulExactly) and determined, the verdict is one of those that may be, and it is determined when conditions refer to existing text fields |
| ConfigFields.LawfulExactly | internal/confparser/confparser.go:184-370 | what is accepted, spelled out: what was there stays and passes every validator, unless an empty text; what was missing becomes its default; of what a field ends with one item is in its list; a field that is required, or whose condition names a field with that text, is there, and what it points to is treated likewise |
| ConfigVerdicts.AcceptedExactly | internal/confparser/confparser.go:171-302 | some order accepts iff a lawful record exists and every condition that matters refers to an existing field that is not a number |
| ConfigVerdicts.RejectedExactly | internal/confparser/confparser.go:171-370 | some order rejects iff a condition refers to no field, a demanded field is missing, or a field holds what it may not, here or in a record that a demanded field points to |
| ConfigVerdicts.CrashedExactly | internal/confparser/confparser.go:171-302 | some order crashes iff a condition refers to a number or a demanded field is held by value, here or further down |
| ConfigVerdicts.UnlistedNeverAccepted | internal/confparser/confparser.go:304-342 | a field whose texts are all outside its list keeps the record from being accepted in any order |
| ConfigOrders.ReachedExactly | internal/confparser/confparser.go:171-302 | a verdict is reached in some order of fields and conditions, at every depth, iff it may be: accepted iff every field may be, rejected or crashed iff some field may be |
| ConfigOrders.FixedExactly | internal/confparser/confparser.go:171-302 | the verdict on a whole record is the same in every order iff exactly one of the three is possible |
| ConfigOrders.OrderDecides | internal/confparser/confparser.go:258-295 | a record that one order accepts and another rejects: one condition holds, another refers to no field |
| ConfigFields.FilledFits | internal/confparser/confparser.go:218-225 | filling in defaults keeps every field's kind, at every depth |
| ConfigFields.NeededFilled | internal/confparser/confparser.go:255-302 | after defaulting a field is required iff it was or a default is what a condition waited for |
| ConfigFields.Twice | internal/confparser/confparser.go:171-302 | a record accepted once is accepted again in every order, unchanged, iff its conditions can be evaluated and no default fails its checks, breaks a condition or makes required what cannot stand it |
| ConfigFields.RefusedTheSecondTime | internal/confparser/confparser.go:227-253 | a default that its own check refuses is accepted once and rejected the second time |

## Left out

- Solve: NaN and infinite costs and floating-point rounding are not modelled; entries at or above `math.MaxFloat64` are not excluded, as the adjustment never uses that start value. The cover update that a complete Hungarian algorithm would make is not part of the source and not added.
- Search: that the path found is a shortest one is not stated, since nothing depends on it.
- AngleDiffIsCircular: infinite azimuths are outside `real`.
- Predict: the saturation of `time.Sub` at about 292 years is not modelled.
- ParseData: what a reader takes while it runs is modelled on the channel alone (`TakenInOrder`), not inside the method; timestamps, range and azimuth of a target, and the rounding of the square root are not modelled.
- HandleVideoFrames: delivers copies, so a callback that keeps the shared buffer, and read errors other than the end of the stream, are not captured.
- ReconcileLink: routes, gateways and the MTU are left out, and the error return when the kernel cannot list addresses; listing is a parameter.
- SetDefaultsAndValidate: when a record is rejected, fields already filled in inside it are not described; parsing of the field tags is left out, and so are two fields that point to the same record.
- OrderMattersExactly: exact for the conditions of one field; whole records are the subject of `ConfigOrders.dfy`.
- DoUpdate: progress values, timestamps, the automatic-update setting and the redirect address are left out; the partition tool is two answers in the environment.
- TryUpdate: status requests made while an update runs; in `UpdateLock.dfy` what a run writes is left open, and its end is taken from the contract of `DoUpdate`.
- GetUpdateStatus: version strings are compared by answers in the environment.
- ProcessDetections: the input channels that drop batches when full, start and stop, and output of the objects.
- EventStream: process titles, log messages and the transport below `Send`.
- DHCP lease handling, NTP, TLS, WebRTC, the cloud service and the user interface: wrappers around input and output.
- World state and zone occupancy: a placeholder in the source.
- Applying the room transform and logging: easy members only.
