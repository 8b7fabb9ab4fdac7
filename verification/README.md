# A model of Wasteless and proofs about it

Wasteless finds wasted AWS resources, recommends what to do about them, and can carry out what a human
approves. This project models the parts of it where a mistake costs money or an instance, and proves what they
guarantee, for every input, every pattern of failures and every history.

| module | what it models |
|---|---|
| `TrendForecast` | the weighted regression and step detection behind the waste forecast |
| `TerraformFiles`, `TerraformSurgery`, `TerraformBlocks`, `TerraformMapper` | locating a resource block by brace counting, removing it, searching references, indexing the state, and the removal proposal built on them |
| `Recommendations`, `AwsSync`, `Ec2Actions`, `Lifecycle`, `GraceInterleaving` | the recommendations table as a transition system: API actions, grace executor, AWS sync, PR sync, detectors; grace ticks taken apart into their SELECT and their rows |
| `Remediation` | safeguards, the two batch loops that stop instances, and the guarded flow of the other remediators |
| `LogBuffer`, `LoggerTree` | the ring-buffer log, its pollers, and where the handler is attached |
| `CostPeriod` | cost periods on the Gregorian calendar and the month arithmetic around them |
| `Ledger`, `CostSeries`, `SavingsCap` | amounts under keys; the cost-by-service chart; the per-service savings cap |
| `Snapshots` | daily waste snapshots and their reconstruction from resource ages |

How the parts are represented:

- Money, weights and confidence are reals. The regression weight `0.5^((n-1-i)/halfLife)` is a power of a decay
  strictly between 0 and 1; the results hold for every such decay, and rounding appears only as a stated bound.
- A line of a `.tf` file is what the source's regular expressions and brace counts see of it. An unreadable file is
  skipped when locating a block and stops a reference search, as in the source.
- AWS, GitHub, `terraform validate` and the exceptions they raise are answers handed to the operations. A region may
  fail independently of the others. The clock, the settings and the failures of a history are arbitrary.
- A step of the life cycle is one recommendation of one API request, or one tick of a job. A request with several ids
  is the fold of its steps (`Lifecycle.Store.ApiActions`). In `GraceInterleaving` a grace tick is several steps, with
  those of everybody else in between, and it may break off after an execution.
- State that the source changes in place is a field of a class. Each method is tied to a function of the old state, and
  the lemmas are about those functions.

Some things the source or its documentation promises do not hold for every input. The model keeps the code as it is;
for each there is an input that fails and the exact condition:

- Locating a resource again through the same mapper, after its block is gone, still reports the old lines. What is
  reported is current iff the block is there or the resource was never located before (`TerraformMapper.Mapper.Locate`,
  `TerraformMapper.LocateRemoveLocate`).
- A removal proposal made from such a stale answer takes out whatever stands on those lines now. It removes the block of
  its own resource iff a header of the resource is left in a readable file (`TerraformMapper.ProposeRemoval`);
  `TerraformMapper.ProposeTwice` removes a neighbour.
- The per-run limit may be a fraction such as 2.5; it is respected by every batch of distinct instances exactly when it
  is a whole number (`Remediation.LimitIsRespectedIff`, `Remediation.ThreeStopsUnderTwoAndAHalf`). A stop whose recording
  fails is not counted; a batch that has used its limit up has stopped no more than that iff none was lost
  (`Remediation.ReallyStopped`, `Remediation.LostStopsExceedTheLimit`).
- The EC2 reconciliation updates by resource id alone, so an existing resource of another kind that shares its id with a
  vanished instance loses its recommendation (`AwsSync.ExistingIsResolvedIff`, `AwsSync.SharedIdIsResolved`).
- The chart counts a service twice when it is named "Other", ranks among the first seven and more than seven services
  exist (`CostSeries.ConservedIff`, `CostSeries.OtherCountedTwice`).
- The rows of the recommendations page add up to its realistic total, and the chat gives the same total, except with
  negative spends in particular places (`SavingsCap.RowsSumToHeadlineIff`, `SavingsCap.ChatAgreesIff`,
  `SavingsCap.RefundLowersTheTotal`).
- The docstring says each record is captured exactly once. With the propagation flags of the installation it is; when
  flags change later, a captured logger may be captured twice or not at all (`LoggerTree.FlagsThatBreakCapture`). It is
  captured exactly once iff its propagation ends where it did, or above with no other handler on the way
  (`LoggerTree.CaptureAfterChanges`, `LoggerTree.CapturedExactlyOnceIff`).
- A page that stays open across a restart of the server keeps its cursor and misses the first entries of the new
  process, up to that id (`LogBuffer.RestartLosesIff`, `LogBuffer.RestartLosesTheFirstLine`).
- The grace executor does not look at a row again after its SELECT. A row is still scheduled and due at its turn iff
  nobody took it back after the SELECT, or it was scheduled again since, not taken back after that, and that grace
  period is over too (`GraceInterleaving.DueAtItsTurnIff`); cancelled and approved again it is executed before its new deadline
  (`GraceInterleaving.NewDeadlineIsIgnored`). Dry-run switched on after the SELECT does not stop a row: it writes iff
  dry-run was off at the SELECT and its execution attempts a write (`GraceInterleaving.DryRunOfTheSelectDecides`,
  `GraceInterleaving.DryRunIsIgnored`).
- An attempt leaves its recommendation scheduled, to be attempted again under the same approval, iff the statements that
  close it fail and the remediator has not marked it applied (`GraceInterleaving.AttemptUsesUpIff`, `GraceInterleaving.AttemptedTwice`).

## Model

| member | source | states |
|---|---|---|
| TrendForecast.WeightsHalve | ui/static/trend_forecast.js:60-66 | with the half-life decay, a newer point always weighs more and a point half-life steps older weighs exactly half |
| TrendForecast.DoubleSums | ui/static/trend_forecast.js:60-68 | the numerator and denominator built from the five running sums equal sums over all pairs of points, weighted by the product of the weights, the distance, and the rise or the distance again |
| TrendForecast.PairsBetween | ui/static/trend_forecast.js:67 | the denominator is positive from two points on, and the numerator lies between the extreme adjacent steps times the denominator |
| TrendForecast.SlopeBetween | ui/static/trend_forecast.js:60-68 | the fitted slope lies between the smallest and the largest adjacent step: a non-decreasing series never gets a negative slope, a line gets its own |
| TrendForecast.FitSlope | ui/static/trend_forecast.js:60-68 | the loop computes the weighted mean of all pairwise slopes |
| TrendForecast.LeastSquares | ui/static/trend_forecast.js:60-68 | the fitted slope is that of the weighted least-squares line: no line has a smaller error, with weights that decay from the newest point, and none with another slope has as small a one |
| TrendForecast.WindowFacts | ui/static/trend_forecast.js:80-86 | the running minimum and maximum are attained bounds and the recorded jump is the first of the largest ones |
| TrendForecast.ComputeForecast | ui/static/trend_forecast.js:70-110 | the loops return the forecast of the documented rule: none below the minimum of points, otherwise the last value plus the trend, clamped at 0, with the trend of the points after a dominant jump or flat when fewer than three of them exist |
| TrendForecast.ForecastShape | ui/static/trend_forecast.js:70-110 | at least 4 months or 7 days of data, 6 months or 30 days ahead, each point the last value plus the slope times the distance, never below 0 |
| TrendForecast.StepIsRefitted | ui/static/trend_forecast.js:88-100 | a series whose first largest jump is more than half its range gets the slope of the points from the jump on, or is flat and flagged when fewer than three exist |
| TrendForecast.NoStepIsFittedWhole | ui/static/trend_forecast.js:90-101 | a series without a jump of more than half its range gets the slope of all its points |
| TrendForecast.ForecastBetween | ui/static/trend_forecast.js:88-105 | a forecast with a trend never leaves the cone spanned by the smallest and largest observed step from the last value; one without, after a step with too few points behind it, is flat |
| TrendForecast.AffineHasNoDominantJump | ui/static/trend_forecast.js:90 | a straight line of at least three points never counts as a step |
| TrendForecast.AffineIsExtended | ui/static/trend_forecast.js:70-110 | a straight line is extended exactly, clamped at 0, without a step flag |
| TrendForecast.StepIsNotATrend | ui/static/trend_forecast.js:88-110 | one level followed by another is forecast flat at the new level however many points follow, and flagged exactly when fewer than three do |
| TerraformFiles.WorkingCopy.FindEnd | src/remediators/terraform_mapper.py:185-189 | the depth counter stops at the first line where the braces opened since the header are closed |
| TerraformFiles.WorkingCopy.LocateBlock | src/remediators/terraform_mapper.py:171-192 | the search returns the first block in directory order whose header is the wanted one, reports unbalanced braces, and skips unreadable files |
| TerraformFiles.WorkingCopy.RemoveBlock | src/remediators/terraform_editor.py:44-60 | exactly the range and the blank lines after it go; a missing or unreadable file or an invalid range changes nothing |
| TerraformFiles.WorkingCopy.References | src/remediators/terraform_editor.py:97-131 | the nested loops list every referring line outside the exclusion, in order, and fail on an unreadable file |
| TerraformSurgery.DepthIsPreserved | src/remediators/terraform_editor.py:54-62 | removing a balanced block leaves the running brace depth in front of every surviving line unchanged |
| TerraformSurgery.TopLevelBlocksAreDisjoint | src/remediators/terraform_mapper.py:185-189 | two blocks that start at depth 0 are the same or disjoint |
| TerraformSurgery.NotFoundIffNoHeader | src/remediators/terraform_mapper.py:171-192 | the search comes back empty-handed iff no readable file has the header |
| TerraformSurgery.LocatedIsFound | src/remediators/terraform_mapper.py:171-189 | the block under the first header of the first readable file that has one is what the search returns |
| TerraformSurgery.FoundIsLocated | src/remediators/terraform_mapper.py:171-189 | and whatever the search returns is such a block |
| TerraformSurgery.NeverClosedIsUnbalanced | src/remediators/terraform_mapper.py:185-190 | a first header whose braces never close stops the search, with the number of its line |
| TerraformSurgery.RemovedBlockIsGone | src/remediators/terraform_editor.py:44-60 | after removing lines a resource cannot be located iff all its headers were inside them |
| TerraformSurgery.OtherBlockSurvives | src/remediators/terraform_editor.py:54-60 | any other located block with disjoint lines is still located, with exactly the same lines |
| TerraformSurgery.TopLevelNeighbourSurvives | src/remediators/terraform_editor.py:54-60 | in particular every other block at depth 0 survives the removal of one at depth 0, with exactly the same lines |
| TerraformSurgery.PreCheckIsExact | src/remediators/terraform_editor.py:97-131 | searching after the removal finds what the search before it found outside the range, renumbered: an empty pre-check leaves no dangling reference and a non-empty one is no false alarm |
| TerraformSurgery.ReportedIff | src/remediators/terraform_editor.py:97-131 | a line is reported iff it is no comment, mentions the resource, does not declare it and is not excluded; the search fails iff a file cannot be read |
| TerraformBlocks.WrittenIsBalanced | src/remediators/terraform_mapper.py:185-189 | a block written with any nested blocks closes all the braces it opens, and not before its last line |
| TerraformBlocks.WrittenIsLocated | src/remediators/terraform_mapper.py:171-189 | a block written into a file is found whole, from its opening to its closing line, however many blocks are nested in it |
| TerraformBlocks.WrittenIsRemoved | src/remediators/terraform_editor.py:44-60 | removing it leaves the lines before it and those after the blank lines behind it |
| TerraformMapper.Mapper.constructor | src/remediators/terraform_mapper.py:64-67 | the index covers exactly the managed resources of the tree, in preorder |
| TerraformMapper.PreorderLaws | src/remediators/terraform_mapper.py:102-121 | a module's own managed resources come first, in order and under its own path, then each child's under the address of the child |
| TerraformMapper.Mapper.IndexModule | src/remediators/terraform_mapper.py:102-121 | indexing a module appends its managed resources in preorder and keeps every id on its first carrier |
| TerraformMapper.Mapper.AddResource | src/remediators/terraform_mapper.py:108-118 | a resource takes the ids no earlier resource has |
| TerraformMapper.Mapper.FindById | src/remediators/terraform_mapper.py:123-125 | the answer is the first resource in preorder whose id, ARN, allocation id, public IP or association id is the value, and none iff there is none |
| TerraformMapper.FirstCarryingGrows | src/remediators/terraform_mapper.py:115-118 | a later resource never takes an id over |
| TerraformMapper.Mapper.Locate | src/remediators/terraform_mapper.py:127-155 | a root-module resource gets the lines found, a child-module one none; when the block is not found the field keeps an earlier answer; no other resource changes. What is reported is the current block iff there is one or the resource was never located before |
| TerraformMapper.LocateRemoveLocate | src/remediators/terraform_mapper.py:147-155 | after locating and removing a block, locating again reports the removed lines, which are no longer there, iff every header was inside them |
| TerraformMapper.RemovedLinesIff | src/remediators/terraform_pr.py:137 | whatever lines a proposal removes, a resource becomes unlocatable iff it has no header elsewhere |
| TerraformMapper.OwnBlockIsCurrent | src/remediators/terraform_mapper.py:171-192 | lines are the block of a resource iff the search finds them now |
| TerraformMapper.StaleLinesAreAnothers | src/remediators/terraform_pr.py:115-137 | lines once located for one resource can be the block of another, with nothing in the reference check against removing them |
| TerraformMapper.ProposeTwice | src/remediators/terraform_pr.py:114-137 | two accepted proposals for one resource through one mapper empty a file that held it and a neighbour |
| TerraformMapper.ProposeRemoval | src/remediators/terraform_pr.py:86-174 | a proposal is made iff there are lines to remove, nothing refers to the resource from elsewhere, they can be removed, validation passes and, unless dry-run, the PR opens. It then removed exactly those lines and left no reference; they were the own block of the resource iff a header of it was left, as always on the first proposal; the resource is unlocatable afterwards iff all its headers were inside. Every refusal before the edit, and every fall-back, leaves the files unchanged |
| AwsSync.FindVanished | ui/utils/aws_sync.py:106-170 | the loops return the filtered groups for any pattern of region failures |
| AwsSync.ReportedIff | ui/utils/aws_sync.py:128-170 | an id is reported iff it was asked about, its kind is one of the seven with a checker, every region answered and none lists it |
| AwsSync.Database.ResolveVanished | ui/jobs.py:64-88 | open recommendations of one kind's reported ids become applied iff a human had marked them to do, obsolete iff not; nothing else about them and no other recommendation changes |
| AwsSync.Database.ResolveAll | ui/jobs.py:237-265 | group after group, exactly the open recommendations reported under their kind are resolved |
| AwsSync.Database.SyncEc2States | ui/jobs.py:108-212 | the sweep and the loop over ids resolve exactly the open recommendations whose instance is absent from a complete sweep or has reached the goal |
| AwsSync.Database.SyncAws | ui/jobs.py:237-265 | a whole tick applies one verdict per recommendation, taken on the table before the tick |
| AwsSync.SyncVerdict | ui/jobs.py:64-265 | a tick resolves a recommendation iff it is open and either gone for all regions, or an open EC2 recommendation has its id and the instance is stopped or terminated as recommended, or in no region when all answered; a human's decision becomes applied, anything else obsolete |
| AwsSync.ExistingIsResolvedIff | ui/jobs.py:141-196 | a resource that exists in a swept region loses its open recommendation iff an open EC2 recommendation has its id and that instance reached the goal or, for another kind, is gone; failing regions never cause it |
| AwsSync.ExistingSurvives | ui/jobs.py:117-212 | with unshared ids only a reached goal resolves an existing resource |
| AwsSync.SharedIdIsResolved | ui/jobs.py:151-163 | a concrete listed load balancer that loses its recommendation |
| Ec2Actions.EveryRegionIsTried | ui/jobs.py:326-330 | the stored region is added in front and no region is left out |
| Ec2Actions.Execute | ui/jobs.py:319-362 | over the stored region and then the others: success iff some region ends the search; writes go exactly to the live instances met up to there, and one that succeeds is the last; "not found" iff no region has the instance, the stored one and every known one included; otherwise the errors are quoted; a stored region that has the instance is the only one written to |
| Ec2Actions.InTermsOfAnswers | ui/jobs.py:333-362 | success, writes and "not found" by the answers of the regions alone |
| Lifecycle.Store.ApiActions | ui/routes/recommendations.py:1185-1519 | a request leaves the table and the writes that its steps in order produce |
| Lifecycle.Store.ApiAction | ui/routes/recommendations.py:1187-1295 | skip, dismiss, cancel and restore move one row, from their allowed statuses and no other, and write nothing; no other row changes |
| Lifecycle.Store.ApproveRec | ui/routes/recommendations.py:1297-1491 | an approval opens a PR, schedules, executes or records, by routing, mode, grace period and dry-run; it writes iff no PR and no grace period applies and the execution attempts a write; under dry-run it at most records the decision; it schedules pending rows only |
| Lifecycle.ModesAre | ui/utils/action_registry.py:18-42 | the nine automated types and their modes; a type switched off or unknown is manual |
| Lifecycle.ExecutionIs | ui/jobs.py:408-424 | when an execution succeeds, writes and fails with "not found", in every mode, by what AWS and the backend answer |
| Lifecycle.ApprovalOutcome | ui/routes/recommendations.py:1297-1491 | the status and the deadline an approval leaves, by routing, mode, dry-run, grace period and the success of the execution |
| Lifecycle.Store.GraceExecutor | ui/jobs.py:398-461 | the loop over due rows executes each with the settings then in force, sets the resulting status and clears the deadline |
| Lifecycle.GraceOutcome | ui/jobs.py:298-312 | an executed row becomes approved iff the execution succeeded out of dry-run in an automated mode, obsolete iff it failed with "not found", pending otherwise |
| Lifecycle.ApprovedGoesBack | ui/jobs.py:298-312 | in every run an approved recommendation goes back to a successful execution or a merged pull request |
| Lifecycle.AppliedGoesBack | ui/jobs.py:64-88 | in every run an applied recommendation goes back to a remediator's success or to a sync that finds a human's decision carried out |
| Lifecycle.Store.SyncOpenPrs | ui/utils/terraform_pr.py:134-184 | merged PRs become approved, closed ones rejected, open or unreadable ones stay |
| Lifecycle.TickRowByRow | ui/jobs.py:398-461 | a tick changes only rows of its batch, each through one execution from the state the SELECT saw |
| Lifecycle.TickWrites | ui/jobs.py:412-421 | the writes of a tick are those of its rows, decided by the state the SELECT saw |
| Lifecycle.TickLogFacts | ui/jobs.py:412-421 | a tick writes for a recommendation iff it is in the batch and its execution writes, always as the grace executor at the tick's time |
| Lifecycle.BecomesScheduled | ui/routes/recommendations.py:1354-1366 | only approving a pending recommendation under a grace period, out of dry-run, with an enabled automated action schedules it, and its deadline is the grace period away |
| Lifecycle.StaysScheduled | ui/routes/recommendations.py:1354-1375 | no step re-arms or moves the deadline of a scheduled recommendation |
| Lifecycle.NothingIsLost | ui/jobs.py:381-460 | no step turns the clock back, removes a recommendation or forgets a write |
| Lifecycle.SchedulingOf | ui/routes/recommendations.py:1354-1366 | in every run a scheduled recommendation goes back to one approval and has been scheduled, unchanged, ever since; its deadline is set and is the approval time plus the grace days then in force |
| Lifecycle.GraceAttemptIsEarned | ui/jobs.py:381-460 | in every run each grace execution that attempts an AWS write comes no earlier than that deadline, with no cancel, sync resolution or execution in between, out of dry-run, with the action enabled, and ends the scheduling |
| Lifecycle.AttemptsAreSeparated | ui/jobs.py:381-460 | between two attempts for one recommendation there is a new approval: at most one per scheduling |
| Lifecycle.GrowsByOne | ui/jobs.py:408-424 | a step that adds a write is an approval of that resource or a grace attempt on it, out of dry-run and automated |
| Lifecycle.WriteHasAnOrigin | ui/routes/recommendations.py:1325-1438 | every AWS write of a run comes from an approval or a grace attempt, out of dry-run, for a type that is not manual and not disabled |
| Lifecycle.DryRunActsOnNothing | ui/routes/recommendations.py:1325-1491 | under dry-run no approval or grace step writes or moves a recommendation into scheduled, pr_open, approved or applied |
| Lifecycle.DryRunRunWritesNothing | ui/jobs.py:396-424 | a run entirely under dry-run writes nothing |
| Lifecycle.BackgroundKeepsResolved | ui/jobs.py:74-88 | no detector, sync, grace or PR-sync step changes a dismissed, applied or approved recommendation |
| Lifecycle.ResolvedUntilTheNextAction | ui/state.py:115-124 | over whole runs such a recommendation stays as it is until the API acts on it |
| Lifecycle.DetectorsChangeLittle | src/detectors/ec2_idle.py:513-544 | detectors revive obsolete recommendations (idle instances) and drop pending ones (AMI-backed snapshots), always and only those, change nothing else, and insert what is new as pending |
| Lifecycle.SyncResolvesOpenOnly | ui/jobs.py:149-196 | a sync changes open recommendations only, to applied exactly when a human had marked them to do |
| Lifecycle.DueIsExecutedOrOutranked | ui/jobs.py:381-389 | a due recommendation is executed by the tick unless twenty with deadlines no later were |
| GraceInterleaving.SelectOf | ui/jobs.py:381-398 | a running tick goes back to its SELECT and has worked through the selected rows in order since |
| GraceInterleaving.RowWasDue | ui/jobs.py:381-398 | an executed row was due at the SELECT of its tick and has not been executed since |
| GraceInterleaving.ScheduledWhile | ui/jobs.py:381-460 | while its row is not executed a recommendation stays scheduled, unchanged, iff no other step takes it back |
| GraceInterleaving.SchedulingOf | ui/routes/recommendations.py:1354-1366 | in every interleaved run a scheduled recommendation goes back to one approval that set its deadline, unchanged since |
| GraceInterleaving.AttemptIsEarned | ui/jobs.py:381-460 | in every interleaved run each attempt goes back to a SELECT and an approval: the SELECT came after the deadline, uninterrupted since the approval and out of dry-run; the action is enabled at the attempt; up to it the row stays scheduled iff nobody took it back after the SELECT, which only a cancellation, another approval or a sync can do |
| GraceInterleaving.DueAtItsTurnIff | ui/jobs.py:381-460 | a row is scheduled and due at its turn iff nobody took it back after the SELECT, or it was scheduled again, not taken back after that, and that grace period is over too |
| GraceInterleaving.AttemptUsesUpIff | ui/jobs.py:432-460 | an attempt leaves its recommendation scheduled iff the statements after it fail and the remediator has not marked it applied |
| GraceInterleaving.AttemptsAreSeparated | ui/jobs.py:381-460 | between two attempts of an interleaved run there is a new approval, if the first one was closed |
| GraceInterleaving.DryRunOfTheSelectDecides | ui/jobs.py:396-421 | a row writes iff dry-run was off when its tick began and its execution attempts a write, whatever the setting is by then |
| GraceInterleaving.WriteHasAnOrigin | ui/jobs.py:408-424 | every AWS write of an interleaved run comes from an approval out of dry-run or an attempt of a tick begun out of dry-run, for a type that is not manual and not disabled |
| GraceInterleaving.ApprovedGoesBack | ui/jobs.py:298-312 | in every interleaved run an approved recommendation goes back to a successful execution in a tick begun out of dry-run, a successful approval or a merged pull request |
| GraceInterleaving.DryRunRunWritesNothing | ui/jobs.py:396-424 | an interleaved run entirely under dry-run writes nothing |
| GraceInterleaving.RowIsBlind | ui/jobs.py:398-460 | whatever happened in between, a row that is closed ends with the status, and attempts a write iff, a tick that is one step would have given it, as long as the settings stay |
| GraceInterleaving.UndisturbedTickIsOneStep | ui/jobs.py:398-461 | with nothing in between the rows in turn are the tick as one step |
| GraceInterleaving.NewDeadlineIsIgnored | ui/jobs.py:453-460 | a run in which an instance cancelled and approved again after the SELECT is stopped two days before its deadline |
| GraceInterleaving.DryRunIsIgnored | ui/jobs.py:396-421 | a run in which an instance is stopped after dry-run was switched on |
| GraceInterleaving.AttemptedTwice | ui/jobs.py:432-460 | a run in which an instance is stopped twice under one approval, because the first attempt could not be closed |
| Remediation.ValidateAll | src/core/safeguards.py:328-412 | safe iff all seven checks pass; the listed checks end right before the first failing one |
| Remediation.SafeguardsAre | src/core/safeguards.py:160-326 | the seven safeguards by the fields of the configuration and of the instance |
| Remediation.Ec2Remediator.StopInstance | src/remediators/ec2_remediator.py:278-441 | AWS stops an instance iff it exists, is known, is whitelisted neither by id nor by tag, is old, certain and idle enough, within schedule and limit, remediation is on and AWS accepts; the stop is reported iff it is recorded too; the log row opened is closed accordingly and the recommendation applied on success, in dry-run too |
| Remediation.Ec2Remediator.ProcessPending | src/remediators/ec2_remediator.py:559-598 | the loop with the early break stops, logs and applies the same as the loop without it |
| Remediation.Ec2Remediator.ExecuteAll | ui/utils/remediator.py:219-277 | each target is tried with the number of successes before it |
| Remediation.StopsAreLimited | src/core/safeguards.py:306-326 | for every list and every pattern of failures fewer than the limit plus one stops are reported, and at most the limit when it is whole |
| Remediation.ReallyStopped | src/remediators/ec2_remediator.py:359-441 | the instances AWS stopped are those reported and those whose recording failed; with a whole limit and none lost they stay within it, and a batch that has used it up has stopped no more iff none was lost |
| Remediation.LostStopsExceedTheLimit | src/remediators/ec2_remediator.py:378-441 | two unrecorded stops under a limit of one |
| Remediation.LimitIsRespectedIff | src/core/safeguards.py:306-326 | given enough instances to stop, every batch of distinct recommendations and instances respects the configured limit iff it is a whole number |
| Remediation.ThreeStopsUnderTwoAndAHalf | src/core/safeguards.py:306-326 | a valid configuration with the limit 2.5 under which three different instances are stopped |
| Remediation.EveryStopPassedAll | src/remediators/ec2_remediator.py:341-351 | every stop, reported or not, passed all seven safeguards at its count |
| Remediation.StoppedAreEligible | src/core/safeguards.py:160-326 | whatever a batch stops is a known target of it that no whitelist, threshold, schedule or switch excludes |
| Remediation.LogIsSettled | src/remediators/ec2_remediator.py:363-439 | every log row a batch opens ends as success or failed, and the successes are the reported stops in order |
| Remediation.FullBatch | src/remediators/ec2_remediator.py:593-596 | once the limit is reached nothing more is attempted, so breaking off makes no difference |
| Remediation.ResourceRemediator.Remediate | src/remediators/resource_remediator.py:161-275 | AWS is called iff every live check and safeguard clears and this is no dry run, after a rollback snapshot; applied iff the call went through; the log row is closed |
| LogBuffer.RingBufferHandler.Emit | ui/utils/log_buffer.py:32-50 | the log grows by the formatted record with the next id, a broken one leaves no trace, and the buffer stays the last maxlen entries of the log |
| LogBuffer.RingBufferHandler.Query | ui/utils/log_buffer.py:57-75 | the answer is a function of everything ever captured, and last_id is the newest id |
| LogBuffer.PolledIs | ui/utils/log_buffer.py:66-75 | an answer without a limit holds exactly the captured entries above the cursor, still in the buffer, of the level or above and with the text |
| LogBuffer.PolledInOrder | ui/utils/log_buffer.py:66-75 | answers come oldest first, and a limit leaves the last ones |
| LogBuffer.NewerThanCursor | ui/utils/log_buffer.py:66-68 | for any cursor, also one ahead of the log, what the buffer has above it is the stream above it minus what was dropped |
| LogBuffer.PollIsExactIff | ui/utils/log_buffer.py:57-75 | for any cursor a poll returns the last of the matching entries above it, and all of them iff the buffer dropped none and no more than the limit match |
| LogBuffer.PollerSeesTheStreamIff | ui/utils/log_buffer.py:57-75 | over whole sessions the collected entries are the filtered stream with some left out, in order, nothing invented or repeated; none is left out iff every poll is complete |
| LogBuffer.PacedPollerSeesTheStream | ui/utils/log_buffer.py:57-75 | it suffices that at most maxlen records and at most limit matches arrive between polls |
| LogBuffer.RestartLosesIff | ui/templates/logs.html:151 | a page that keeps its cursor across a restart misses exactly the matching first entries of the new process up to that id, and sees the whole new stream iff there are none and its polls are complete |
| LogBuffer.RestartLosesTheFirstLine | ui/templates/logs.html:151 | a page that has seen one entry never sees the first line after a restart |
| LoggerTree.Capture.Install | ui/utils/log_buffer.py:95-105 | the handler ends up where it was, on the root and on the sinks of the captured loggers |
| LoggerTree.CapturedOnce | ui/utils/log_buffer.py:82-105 | for any tree and flags a record reaches the buffer once if its propagation ends at such a sink, and never otherwise |
| LoggerTree.CapturedLoggerDeliversOnce | ui/utils/log_buffer.py:85-89 | a captured logger's record reaches it exactly once |
| LoggerTree.InstallTwice | ui/utils/log_buffer.py:92-105 | a second installation changes nothing |
| LoggerTree.DeliveredOnceIff | ui/utils/log_buffer.py:82-105 | for handlers anywhere, a record is delivered exactly once iff exactly one logger on its chain carries the handler, and never iff none does |
| LoggerTree.AtMostOnceIff | ui/utils/log_buffer.py:82-105 | for handlers anywhere, nothing is delivered twice iff no handler is on the propagation chain of another |
| LoggerTree.CaptureAfterChanges | ui/utils/log_buffer.py:85-105 | whatever flags have changed, a captured logger is not captured iff its propagation now ends below where it ended, and captured exactly once iff it ends where it did, or above with no other handler on its chain from there; where the handler is at the new end, iff the end has not moved |
| LoggerTree.CapturedExactlyOnceIff | ui/utils/log_buffer.py:85-105 | every captured logger is captured exactly once after any changes iff that holds for each |
| LoggerTree.FlagChangedIff | ui/utils/log_buffer.py:98-105 | a captured logger that starts to propagate is captured twice iff its parent's chain ends at the handler, else once; one that stops is no longer captured |
| LoggerTree.FlagsThatBreakCapture | ui/utils/log_buffer.py:98-105 | a logger under the root captured twice after it starts to propagate, and one not captured after it stops |
| LoggerTree.CarrierBelowTheSink | ui/utils/log_buffer.py:98-105 | a logger captured exactly once although the end of its chain carries no handler |
| CostPeriod.OrdIsMonotone | ui/utils/cost_report.py:23-28 | day numbers order and identify dates |
| CostPeriod.AddDaysByOrd | ui/utils/cost_report.py:39-45 | adding a number of days moves the day number by it |
| CostPeriod.PeriodContainsAnchor | ui/utils/cost_report.py:31-59 | for every granularity a period contains its anchor and starts the day after the previous one ends |
| CostPeriod.PeriodIs | ui/utils/cost_report.py:31-59 | a period is the day, the week from Monday to Sunday, the calendar month or the calendar year of its anchor, sliced by month for a year and by day otherwise |
| CostPeriod.KnownWeek | ui/utils/cost_report.py:44-49 | the first week of 2024 starts on Monday, 1 January |
| CostPeriod.KnownDay | ui/utils/cost_report.py:23-28 | 1 March 1900 is day 693655, as 1900 was no leap year |
| CostPeriod.PeriodsPartition | ui/utils/cost_report.py:31-59 | a date lies in a period iff it resolves to that very period |
| CostPeriod.AnchorMoves | ui/utils/cost_report.py:62-76 | where a step leads: days or weeks on, the first of the same month of another year, the first of the previous or next month |
| CostPeriod.ShiftIsAdjacent | ui/utils/cost_report.py:62-76 | one step forward or back lands on exactly the adjacent period, and a step and its opposite return to the same one |
| CostPeriod.EveryDateIsReached | ui/utils/cost_report.py:62-76 | stepping towards a date reaches the period that contains it |
| CostPeriod.TwentyEighthPlusFour | ui/routes/dashboard.py:206-207 | the 28th plus four days, back to day 1, minus the first, is the length of the month |
| CostPeriod.WindowSpansMonthsBack | ui/utils/cost_report.py:288-290 | the analyst's window holds exactly the dates of the last months_back calendar months up to the latest one |
| Ledger.Accumulate | ui/routes/dashboard.py:187-189 | accumulating in a dictionary gives, in order of first use, each key with the sum of its amounts |
| Ledger.SumOverKeys | ui/routes/dashboard.py:187-198 | over distinct keys that cover the rows the sums per key add up to the total |
| CostSeries.FetchCostSeries | ui/routes/dashboard.py:186-250 | the loops chart each bucket and name with the rounded sum of its rows, and the rounded total and number of services |
| CostSeries.CellIs | ui/routes/dashboard.py:194-200 | a named service's cell holds its own rows of the bucket, the fold's those of every other service |
| CostSeries.TopFacts | ui/routes/dashboard.py:190-192 | the named services are distinct, at most seven, and all of them when there are no more |
| CostSeries.NamedCostMost | ui/routes/dashboard.py:190-192 | no named service costs less than a folded one |
| CostSeries.TopIsRanked | ui/routes/dashboard.py:190-192 | the named services are ranked by cost, ties in order of first use |
| CostSeries.OtherIsChartedIff | ui/routes/dashboard.py:193 | "Other" is charted iff more than seven services exist or a named one is called so |
| CostSeries.BucketIsConserved | ui/routes/dashboard.py:194-217 | the series of a bucket add up to its rows, plus the cell counted twice when names clash |
| CostSeries.ConservedIff | ui/routes/dashboard.py:193-217 | every bucket is conserved iff no names clash or nothing is charted under the clashing name |
| CostSeries.LargestOtherClashes | ui/routes/dashboard.py:190-197 | a service called "Other" that costs most clashes as soon as there is a fold |
| CostSeries.OtherCountedTwice | ui/routes/dashboard.py:193-217 | eight concrete services whose bars show at least 100 too much |
| CostSeries.BucketsFacts | ui/routes/dashboard.py:186 | the buckets are those of the rows, each once, in order |
| CostSeries.BucketsAreExhaustive | ui/routes/dashboard.py:186-198 | the buckets together account for every row |
| CostSeries.BarIsWithinHalfACentPerSeries | ui/routes/dashboard.py:214-217 | without a clash a bar differs from its rows by at most half a cent per series |
| SavingsCap.PageBuckets | ui/routes/recommendations.py:170-182 | folding the SQL sums per resource type gives each bucket the sum of its rows' estimates |
| SavingsCap.TypeSharesAreKeySums | ui/routes/recommendations.py:152-182 | grouping by resource type first loses nothing |
| SavingsCap.BucketRows | ui/routes/recommendations.py:198-216 | the rows of a coherent bucket add up to its capped amount and to no more than the service's spend; never to less than the capped amount |
| SavingsCap.CappedBy | ui/routes/recommendations.py:152-182 | a row is capped by the service of its resource type once the resource is 30 days old, and not at all before or for another type |
| SavingsCap.RowsShow | ui/routes/recommendations.py:184-216 | for non-negative amounts no row shows less than nothing or more than its estimate; rows within their service's spend show their estimates, others add up to exactly the spend |
| SavingsCap.RowsSumToHeadlineIff | ui/routes/recommendations.py:184-216 | the untruncated rows add up to the realistic total iff every bucket has savings or a cap no lower, and never to less |
| SavingsCap.CapIsConsistent | ui/routes/recommendations.py:168-225 | with non-negative estimates and spends the rows add up to the realistic total, the chat gives the same, no service's rows add up to more than its spend, and uncapped rows keep their estimates |
| SavingsCap.TruncatedRows | ui/routes/recommendations.py:108-112 | what a truncated page shows and what it leaves out make up the whole |
| SavingsCap.ChatCappedTotal | ui/routes/recommendations.py:1134-1144 | the chat's loop computes the capped sums over services with a mature row plus the rest |
| SavingsCap.ChatAgreesIff | ui/routes/recommendations.py:1134-1144 | the chat's figure is the page's iff no service with young rows only has a negative spend; otherwise the page's is lower |
| SavingsCap.RefundLowersTheTotal | ui/routes/recommendations.py:184-216 | one young row and a refund on its service: the realistic total is 4, the rows and the chat say 5 |
| Snapshots.WasteSnapshots.Backfill | src/core/snapshots.py:27-70 | missing rows are inserted, present ones kept, the number of insertions returned, and a failure changes nothing |
| Snapshots.WasteSnapshots.Snapshot | src/core/snapshots.py:73-124 | today's rows are upserted and the history backfilled while it is short, for every combination of failures |
| Snapshots.ActiveIsSum | src/core/snapshots.py:84-104 | active waste of a type is the sum and the number of its rows |
| Snapshots.AtIsSum | src/core/snapshots.py:38-57 | the reconstruction of a day sums the rows of resources created by then, or detected by then when their age is unknown |
| Snapshots.ShortHistoryIsBackfilled | src/core/snapshots.py:106-119 | with fewer than seven days on record a successful run gives each of the last 180 days with existing waste a row; with more it leaves the past alone |
| Snapshots.BackfillTwice | src/core/snapshots.py:38-64 | a second backfill on the same state inserts nothing and reports 0 |
| Snapshots.AtIsMonotone | src/core/snapshots.py:41-55 | with non-negative waste the reconstructed totals grow with the date and stay below today's |
| Snapshots.BackfillIsAFloor | src/core/snapshots.py:38-57 | a missing past row is inserted iff it is in range and something existed; the rows one backfill inserts grow with the date and stay below today's active total |
| Snapshots.PastRowsAreFrozen | src/core/snapshots.py:54-57 | in every history the row of a past day never changes, no row is ahead of its day, and no backfill replaces a real snapshot |
| Snapshots.TodayIsCurrent | src/core/snapshots.py:84-104 | after a successful snapshot today's row of every type ever seen is its active waste, zero included |
| Snapshots.LastSnapshotOfTheDayStands | src/core/snapshots.py:84-104 | once the day is over its row stays what the last successful snapshot of that day saw |

## Left out

- AwsSync.Database.SyncEc2States: does not model the counters it returns nor the instance state written into the metadata of open recommendations, which drive no status.
- Lifecycle.Store.ApiActions: does not model the result list, the audit log and the notifications, only the table and the AWS writes; a failing statement that aborts the transaction is not modelled.
- Lifecycle.Store.GraceExecutor: takes a tick as one step (`GraceInterleaving` takes it apart) and does not model the actions_log rows it writes.
- GraceInterleaving.RowIsBlind: a remediator-mode row reads the recommendation type again in the source; only EC2 types ever change, and those are not remediator-mode. Dry-run is read right after the SELECT there, not with it.
- Remediation.Ec2Remediator.StopInstance: does not model the rollback snapshot, nor database failures other than a success that is not recorded; before the AWS call they end the stop, and if the log row cannot be closed either the batch.
- Remediation.Ec2Remediator.ExecuteAll: models the EC2 targets of a request; the other types go through `Remediation.ResourceRemediator.Remediate` and do not count towards the limit.
- Remediation.ResourceRemediator.Remediate: does not model database failures.
- TerraformMapper.Mapper.Locate: models an indexed resource as a record in a list, so two ids share it by position and not by reference.
- TrendForecast.FitSlope: takes the decay as a parameter, because the half-life root of 0.5 is not a rational number; floating-point rounding is not modelled.
- CostPeriod.ShiftAnchor: has no smallest and largest year, where Python's dates overflow.
- CostSeries.FetchCostSeries: does not model axis labels, subtitles and the partial-month star.
- SavingsCap.BucketRows: does not model the monthly cost column, which is scaled by the same factor.
- `set_block_attribute`, which the removal flow does not use; the unified diffs, PR bodies, branches and commands around the edit.
- `_trend_scale`, the peak drivers and the run-rate of the cost report: display choices over figures already summed.
- Lock acquisition of the EC2 batch, the cached remediator instances and the regular expressions themselves.
- Savings verification, the cost collector and the price tables.
- The manual cleanup script, which overwrites resolved statuses and is not part of the scheduled system.
- Levels of loggers and handlers: which records are emitted at all.
