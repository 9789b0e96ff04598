# Argvio: capped, mergeable telemetry state

A Dafny model of the part of Argvio where untrusted command-line telemetry becomes stored state, with proofs of what that state keeps for every input, every run and every interleaving. Each module follows one source file or one protocol; code that updates fields, maps or rows in place is modelled by classes and methods proved against specification functions, code that only computes by functions.

- **Capped vocabularies** (`Vocabulary`, `GroupPlan`, `Admission`, `LastSeen`, `Admitter`, `AdmissionProtocol`, `AdmissionRuns`): the greedy choice of which new names, labels, dimension values and error reasons to let in; the admission of a batch, with its unlocked fast path and its locked transaction; and any number of batches and retention sweeps interleaved statement by statement.
- **Rows** (`Rows`, `RowChanges`, `PointDims`): the in-place rewriting of a batch's rows to what was admitted, which rows it changes and how the fold counts count them, and the folding of `cli.dim.*` attributes into a label.
- **Install state** (`Installs`, `InstallRuns`, `DeliveryOrder`, `InstallRace`, `RaceChanges`, `RaceFields`, `Tracking`, `LockOrder`): the plan that folds out-of-order events into a row, the SQL merge that stores it, runs of batches, exactly which fields depend on the order of delivery, racing writers, what their race keeps of each field and the version changes they leave, and the row-lock order of concurrent transactions.
- **Versions** (`Semver`): the parser and the comparison, against section 11 of Semantic Versioning 2.0.0.
- **Dimension tuples** (`Dims`): the printer, the parser, and the Go and SQL readers of a stored label.
- **Histograms** (`HistogramIngest`, `Quantile`, `Interpolation`, `QuantileBounds`, `ReportedBounds`, `Aggregates`, `MergedQuantiles`, `Grouping`): overflow-checked acceptance, clamped storage, the quantile estimate against the observations behind the counts and exactly when it is close to them, merging of data points that may leave out their extremes, and grouping by dimension values.
- **Retry chains** (`Retries`): the query's pipeline against a recursive reading of the documented chains.
- **Consent** (`Consent`) and **provider caches** (`Introspection`, `Jwks`).
- `Prelude`, `Text`, `Sorting` and `Sums` hold shared definitions.

Modelling choices. Times are integers, and clock readings, provider answers and fetch results are inputs of the steps. Database tables are maps; a statement or a locked section is one atomic step; advisory and row locks are taken as given. Counters, measures and values run the same admission code over tables of their own and are modelled once. Regular expressions are predicates; quantiles and sums are over the reals.

Where the code and its documentation disagree, the code is followed:

- The comment on `Retries` speaks of consecutive failures; the query requires them in one chain, so a success between them breaks the streak (`Retries.SuccessBreaksStreak`).
- The comment on `histQuantile` bounds the error by the bucket's width without condition. With exact extremes the two outermost buckets need theirs (`QuantileBounds.ErrorBoundedExactly`); and as data points may leave out their extremes, a merged minimum or maximum need not bound all observations: the interpolation may start at it and clamping to it can take the estimate out of its bucket (`ReportedBounds.ReportedExactly`, `ReportedBounds.BelowReportedMinimum`, `ReportedBounds.AboveLastBound`, `MergedQuantiles.PartlyReportedMedian`).
- The comment on `upsertInstall` calls it safe against a concurrent writer that creates the same row. The timestamps and, where every event has its fields, the other fields are; but a version, OS or arch is lost when only the second writer has it and its latest event is the earlier one (`RaceFields.MergeKeeps`, `RaceFields.RaceLosesVersion`).

## Model

| member | source | states |
|---|---|---|
| `Vocabulary.PlanVocabulary` | internal/storage/error_reasons.go:122-138 | the loops compute the plan whose properties the next five rows state |
| `Vocabulary.PlanChoosesAhead` | internal/storage/error_reasons.go:119-138 | exactly min(room, fresh) new values are admitted, every one of them ahead (more records, then name) of every fresh value that is not |
| `Vocabulary.PlanUnique` | internal/storage/error_reasons.go:119-138 | that leaves no freedom: the choice depends on the values as a set, on what is known and on the counts only |
| `Vocabulary.PlanConserves` | internal/storage/error_reasons.go:119-138 | known, admitted and folded records add up to the batch |
| `Vocabulary.PlanOptimal` | internal/storage/error_reasons.go:119-138 | no other choice of at most `room` new values folds fewer records |
| `Vocabulary.PlanAllKnown` | internal/storage/error_reasons.go:119-138 | with nothing unknown the plan is empty |
| `GroupPlan.AdmitsWithinCaps` | internal/storage/dims.go:188-244 | planning per (name, key) lets in only new values, and none past the room under its group's cap |
| `GroupPlan.AdmitsInGroup` | internal/storage/dims.go:188-244 | what the grouped plan does to one group is that group's own plan |
| `GroupPlan.FoldedIsRest` | internal/storage/dims.go:188-244 | the folded total is exactly the occurrences of values neither known nor let in |
| `Admission.FastRefinesLocked` | internal/storage/counters.go:109-217 | where every name and pair is known, the unlocked path returns and stores, last_seen included, exactly what the transaction would |
| `Admission.FastDimsRefinesLocked` | internal/storage/dims.go:135-261 | the same for dimension values |
| `Admission.FastReasonsRefinesLocked` | internal/storage/error_reasons.go:34-117 | the same for error reasons |
| `Admission.FoldedNamesCounted` | internal/storage/counters.go:134-196 | FoldedNames is the number of data points whose name was not admitted |
| `Admission.FoldedLabelsCounted` | internal/storage/counters.go:134-196 | FoldedLabels is the number of data points that keep their name and lose their label |
| `Admission.DimFoldsCounted` | internal/storage/dims.go:160-261 | Folded is the number of occurrences of values that were not admitted |
| `Admission.ReasonFoldsCounted` | internal/storage/error_reasons.go:48-117 | folded is the number of records whose reason was not admitted |
| `Admission.KeptNotOther` | internal/storage/counters.go:77-196 | "other" takes no slot, and only names of the batch are kept |
| `Admitter.Tally` | internal/storage/counters.go:77-92 | the counting loop yields the total per name and per label, whatever order the map is walked in |
| `Admitter.Writer.Admit` | internal/storage/counters.go:76-233 | fast return or transaction: the decision and the three tables are those of the specification; the batch's names and labels are fresh to within a day, new ones begin at its time, and no first_seen moves and no last_seen falls |
| `Admitter.Writer.AdmitLocked` | internal/storage/counters.go:134-233 | the transaction's own state change, with the same clauses |
| `Admitter.Writer.AdmitDims` | internal/storage/dims.go:135-261 | the same for dimension values |
| `Admitter.Writer.RecordFoldedDims` | internal/storage/dims.go:121-133 | the folded data points are added to the row's total, names and labels stay, the time is the later of the two; nothing folded writes nothing |
| `Admission.OverflowTallies` | internal/storage/counters.go:218-229 | whatever batches record in whatever order, the row holds the three totals and the latest time anything was folded, and exists exactly once something was |
| `Admitter.Writer.AdmitErrorReasons` | internal/storage/error_reasons.go:34-117 | the same for error reasons, and their overflow row: the running total and the latest time |
| `Admitter.Writer.Sweep` | internal/storage/installs.go:369-406 | a name, label, value or reason survives exactly if it is recent enough, and a label or value only with its name |
| `LastSeen.CommitRecords` | internal/storage/counters.go:100-312 | over names and labels before and after: keys of the batch have last_seen within a day of it, new keys have both times equal to it, first_seen never moves, last_seen never falls and moves only to the batch's time and only after a day, all other keys are as they were |
| `LastSeen.DimsRecorded` | internal/storage/dims.go:135-296 | the same for dimension values |
| `LastSeen.ReasonsRecorded` | internal/storage/error_reasons.go:34-144 | the same for error reasons |
| `LastSeen.SweepSparesCounters` | internal/storage/installs.go:369-406 | a sweep with its cutoff a day or more before a batch takes no name and no label the batch was admitted |
| `LastSeen.SweepSparesDims` | internal/storage/installs.go:369-406 | nor a dimension value, exactly unless it takes the name the value is under |
| `LastSeen.SweepSparesReasons` | internal/storage/installs.go:369-406 | nor an error reason |
| `Admitter.AdmitLabels` | internal/storage/counters.go:180-196 | the loop over kept names plans each name's labels by themselves |
| `Admitter.AdmitGroups` | internal/storage/dims.go:235-244 | the loop over (name, key) groups plans each by itself |
| `AdmissionProtocol.StepKeepsInv` | internal/storage/counters.go:105-233 | in every interleaving only the lock's holder is in a transaction, and no group has grown since it was counted |
| `AdmissionProtocol.StepKeepsCaps` | internal/storage/counters.go:105-233 | no step leaves a vocabulary larger than max(its size before, the limit the batch was given) |
| `AdmissionProtocol.RunKeepsCaps` | internal/storage/counters.go:105-233 | no run of batches and sweeps takes a vocabulary past its cap |
| `AdmissionProtocol.FromEmptyWithinCaps` | internal/storage/dims.go:160-261 | from an empty vocabulary every group stays within its cap for good |
| `AdmissionProtocol.CountersStayCapped` | internal/storage/counters.go:105-233 | so a tenant never has more names, nor a name more labels, than the caps |
| `AdmissionProtocol.AnswersStayStored` | internal/storage/counters.go:105-233 | without a sweep, all that batches were told they may store is in the table |
| `AdmissionProtocol.AnswersShareTheCap` | internal/storage/counters.go:105-233 | two batches cannot both take the last slot: all answers together stay within the cap until a sweep |
| `AdmissionRuns.TableIsHistory` | internal/storage/counters.go:76-233 | after any run a key is in the vocabulary exactly if it was there or was committed and no sweep has taken it since |
| `AdmissionRuns.AnswersExact` | internal/storage/counters.go:76-233 | until a sweep, in every interleaving, a batch that looked for all its keys is answered exactly those that are in the vocabulary when it returns |
| `AdmissionRuns.AloneKnown` | internal/storage/counters.go:94-132 | a batch whose keys are all known returns without the lock, answered all of them, and changes nothing |
| `AdmissionRuns.AloneIsAdmit` | internal/storage/counters.go:134-233 | a batch that runs by itself leaves the keys of the sequential admission, is answered its names and labels, and gives the lock back |
| `AdmissionProtocol.CounterPlanLegal` | internal/storage/counters.go:134-196 | admit's plan, whatever it observed, is a commit the protocol allows |
| `AdmissionProtocol.CounterCommitAdds` | internal/storage/counters.go:134-217 | the transaction adds exactly that plan to the tables |
| `AdmissionProtocol.DimPlanLegal` | internal/storage/dims.go:160-244 | so is admitDims' plan |
| `AdmissionProtocol.DimCommitAdds` | internal/storage/dims.go:235-257 | and its transaction adds exactly that |
| `AdmissionProtocol.DimsStayCapped` | internal/storage/dims.go:160-261 | so no (name, key) ever has more values than the cap |
| `AdmissionProtocol.ReasonPlanLegal` | internal/storage/error_reasons.go:48-117 | and AdmitErrorReasons' |
| `AdmissionProtocol.ReasonCommitAdds` | internal/storage/error_reasons.go:83-103 | whose transaction adds exactly that |
| `AdmissionProtocol.ReasonsStayCapped` | internal/storage/error_reasons.go:48-117 | so a tenant never has more error reasons than the cap |
| `Rows.RewriteCaps` | internal/otlp/counters.go:84-99 | a rewritten row has an admitted name or "other", no label under "other", else no label, "other" or an admitted one; other metrics and attributes are untouched |
| `Rows.FoldCountersCountRows` | internal/otlp/counters.go:59-101 | FoldedNames and FoldedLabels are the numbers of rows that lose their name, and that keep it and lose their label |
| `Rows.RewriteDimsCaps` | internal/otlp/dims.go:124-135 | folding values keeps a canonical tuple canonical, over the same keys, each value admitted or "other" |
| `Rows.DimsEndCapped` | internal/otlp/dims.go:116-135 | whatever the label was, every dimension value of the row's tuple ends admitted or "other" |
| `Rows.NothingFolded` | internal/otlp/dims.go:112-114 | with Folded zero no row has anything to fold, so returning early changes nothing |
| `Rows.TallyDims` | internal/otlp/dims.go:91-104 | the count of (name, key, value) occurrences of one row |
| `Rows.FoldRow` | internal/otlp/dims.go:116-135 | one row's rewrite, and whether it folded |
| `Rows.CapDimValues` | internal/otlp/dims.go:90-140 | all rows are rewritten as decided, foldedPoints is the number of rows rewritten, and the tables and overflow row follow |
| `Rows.RewriteAttrs` | internal/otlp/counters.go:88-98 | the switch computes the rewrite |
| `Rows.CapVendorInstrument` | internal/otlp/counters.go:59-101 | dimension values first, then names and labels as they will be stored; rows and all tables end as specified |
| `Rows.CappedRows` | internal/otlp/counters.go:59-101 | end to end: every row of the instrument ends capped, every dimension value of a label that survives too, every other row as it was, and the counters count the rows rewritten |
| `RowChanges.RewriteExactly` | internal/otlp/counters.go:84-99 | a row changes exactly if it is not capped already; a name not admitted becomes "other", and under a kept name a label not admitted does |
| `RowChanges.NamesAndLabelsChanged` | internal/otlp/counters.go:59-101 | over all rows before and after: exactly those not capped already change, foldedNames is the number whose name differs, foldedLabels the number whose name is the same, not "other", and whose label differs |
| `RowChanges.DimCountsExact` | internal/otlp/dims.go:91-104 | each count is the number of rows that carry the (name, key, value) |
| `RowChanges.DimValuesChanged` | internal/otlp/dims.go:90-140 | exactly the rows with a value that was not admitted change, and foldedPoints is the number of rows that differ |
| `Rows.CapErrorReasons` | internal/otlp/reasons.go:23-51 | records whose reason was not admitted say "other", all others are untouched, and the vocabulary and its overflow row follow |
| `Rows.FoldedReasonsCountRecords` | internal/otlp/reasons.go:23-51 | the folded count is the number of records so rewritten |
| `RowChanges.ReasonsChanged` | internal/otlp/reasons.go:23-51 | exactly the records whose reason was not admitted change, only in the reason and to "other", and folded is the number of records that differ |
| `PointDims.FoldDims` | internal/otlp/dims.go:47-84 | accepts or rejects, and rewrites, as specified; a rejected point's attributes are untouched |
| `PointDims.RejectedExactly` | internal/otlp/dims.go:47-76 | a point is rejected exactly if one of its dimensions was dropped, it has both a label and `cli.dim.label`, or its dimensions and label are more than the limit; without dimensions, or if its metric takes none, it is left as it is |
| `PointDims.AcceptedReads` | internal/otlp/dims.go:47-84 | an accepted point's label reads back as all of its dimensions, no `cli.dim.*` key is left, and every other attribute is kept |
| `PointDims.SeriesKeptApart` | internal/otlp/dims.go:38-46 | points stored alike had the same dimensions and attributes: no two series merge |
| `Installs.FoldEvent` | internal/storage/installs.go:104-143 | one turn of the loop, with the version change it records |
| `Installs.PlanInstall` | internal/storage/installs.go:92-145 | the loop over the sorted copy computes the plan |
| `Installs.PlanSummarises` | internal/storage/installs.go:85-145 | planned over a row that summarises some events, the result summarises both: the four timestamps are the min and max over all, and version, OS and arch those of the earliest and latest event where every event carries them and times are distinct |
| `Installs.NewPlanSummarises` | internal/storage/installs.go:85-145 | the same for a new install |
| `Installs.MergeSummarises` | internal/storage/installs.go:159-184 | the SQL merge of two rows summarises the events of both |
| `Installs.SummaryUnique` | internal/storage/installs.go:85-184 | a summary is unique: same events, same row up to install_method |
| `Installs.UpsertStoresPlan` | internal/storage/installs.go:159-184 | upserting a plan over the row it was planned from stores exactly the plan |
| `Installs.TwoFirstWriters` | internal/storage/installs.go:159-239 | two writers that both saw no row store what one writer with both batches would |
| `Installs.PlanOrdered` | internal/storage/installs.go:92-145 | FirstSeen ≤ FirstCommandAt ≤ FirstSuccessAt ≤ LastSeen, where set, through every plan |
| `Installs.MergeOrdered` | internal/storage/installs.go:163-184 | and through every merge |
| `InstallRuns.DeliverSummarises` | internal/storage/installs.go:85-239 | any run of batches ends in a summary of all their events |
| `InstallRuns.DeliveryOrderIrrelevant` | internal/storage/installs.go:85-239 | however the events are batched and ordered |
| `InstallRuns.MissingVersionOrderMatters` | internal/storage/installs.go:108-132 | a latest event without a version makes LastVersion depend on delivery order, an earliest one FirstVersion |
| `DeliveryOrder.RunIsFold` | internal/storage/installs.go:92-184 | any run of batches, upserts included, is one fold over its sorted batches |
| `DeliveryOrder.LastFieldExactly` | internal/storage/installs.go:116-132 | LastVersion, LastOS and LastArch end the same for all deliveries of an event set exactly when no event carries the field, or some event of the latest time does and all that do agree |
| `DeliveryOrder.FirstVersionExactly` | internal/storage/installs.go:110-115 | FirstVersion does exactly when no event carries a version, or every event of the earliest time does and they agree |
| `DeliveryOrder.MethodOfRun` | internal/storage/installs.go:133-136 | in every run install_method is the latest method by time of the last batch that has one, none if no batch does |
| `DeliveryOrder.InstallMethodExactly` | internal/storage/installs.go:133-136 | it ends the same for all deliveries exactly when the events have at most one method between them |
| `InstallRuns.PlanChangesSound` | internal/storage/installs.go:108-132 | a batch's version changes have strictly increasing times, all after the stored last_seen, each with the semver direction |
| `InstallRuns.RunChangesSound` | internal/storage/installs.go:108-132 | so have those of any run of batches |
| `InstallRuns.PlanChangesLead` | internal/storage/installs.go:108-132 | where versions parse and times do not tie, a batch's changes lead from the stored version to the new one, link by link |
| `InstallRuns.RunChangesLead` | internal/storage/installs.go:108-132 | so do those of a whole run, ending semver-equal to LastVersion |
| `InstallRuns.LateReplay` | internal/storage/installs.go:92-145 | a later replay moves no timestamp and records no change |
| `InstallRuns.ReplayChangesNothing` | internal/storage/installs.go:92-145 | the same batch twice in a row gives the same row and no change |
| `InstallRace.WriteSound` | internal/storage/installs.go:152-239 | a write by a writer that saw the row, or saw none, keeps the row a summary of all that was stored |
| `InstallRace.StepKeepsInv` | internal/storage/installs.go:152-250 | in every interleaving of reads, writes, aborts and sweeps |
| `InstallRace.RunKeepsStored` | internal/storage/installs.go:152-250 | without a sweep, what is stored is exactly the events of the writers that are done |
| `InstallRace.AllDoneRow` | internal/storage/installs.go:152-250 | so once all are done the row summarises all events |
| `InstallRace.WriterAlone` | internal/storage/installs.go:152-250 | a writer with the row to itself stores its plan over what it read; one that aborts leaves everything as it was |
| `RaceChanges.RunKeepsReal` | internal/storage/installs.go:186-250 | in every interleaving each stored version change is under its own time, no later than last_seen, with the semver direction |
| `RaceChanges.UnracedChanges` | internal/storage/installs.go:186-250 | in every interleaving, sweeps included, in which no writer that saw no row wrote over one, the stored changes are all those of delivering the batches in the order written: times strictly increase, and over a clean run they link and end at LastVersion |
| `RaceChanges.RacedChangesUnlinked` | internal/storage/installs.go:159-250 | two writers that both saw no row leave changes that do not link |
| `RaceFields.MergeKeeps` | internal/storage/installs.go:163-178 | which of two rows' versions, OS, arch and method is kept, and that a value is lost exactly if only the second writer has it and its latest event (for first_version: its earliest) does not give it precedence; a method never is |
| `RaceFields.RaceLosesVersion` | internal/storage/installs.go:159-178 | an input whose race loses a version that one writer of both batches keeps |
| `RaceFields.RunKeepsMethod` | internal/storage/installs.go:152-250 | in every interleaving of writers and sweeps, raced or not, install_method is that of delivering the batches in the order written |
| `LockOrder.StepKeepsInv` | internal/storage/installs.go:199-250 | an unfinished transaction holds every key it has passed and besides at most the one it has looked at; no two hold the same |
| `LockOrder.HolderIsAhead` | internal/storage/installs.go:199-250 | whoever holds an awaited key is itself further along, or can step |
| `LockOrder.NoDeadlock` | internal/storage/installs.go:199-250 | while a transaction is unfinished, one of them can step |
| `LockOrder.RunsFinish` | internal/storage/installs.go:199-250 | every run is finite, and one that cannot go on has committed all |
| `LockOrder.OppositeOrdersDeadlock` | internal/storage/installs.go:191-194 | without a common order there is a deadlock |
| `Tracking.CompareUUID` | internal/storage/installs.go:252-262 | the sign of the byte order |
| `Tracking.KeyLessStrictTotal` | internal/storage/installs.go:207-212 | the install key order is a strict total order |
| `Tracking.DiscoveryLessStrictTotal` | internal/storage/discoveries.go:121-133 | so is the discovery key order |
| `Tracking.GroupByInstall` | internal/storage/installs.go:199-203 | each install gets exactly its own events, in order |
| `Tracking.InstallStore.TrackInstalls` | internal/storage/installs.go:195-250 | every install of the batch ends with its plan's row and changes, every other untouched |
| `Tracking.InstallStore.InsertChanges` | internal/storage/installs.go:186-189 | changes are added, none rewritten |
| `Tracking.FirstSightings` | internal/storage/discoveries.go:110-116 | the per-key minimum |
| `Tracking.DiscoveryStore.TrackDiscoveries` | internal/storage/discoveries.go:94-145 | first_at is the least of what was stored and what was sent |
| `Tracking.TrackInstallsFinish` | internal/storage/installs.go:199-250 | any number of concurrent TrackInstalls transactions run to completion |
| `Tracking.TrackDiscoveriesFinish` | internal/storage/discoveries.go:106-147 | so do TrackDiscoveries statements |
| `Semver.ParseSemver` | internal/storage/semver.go:17-43 | the loop computes the parse |
| `Semver.ParsesExactly` | internal/storage/semver.go:8-43 | accepted exactly: one to three numbers that fit 64 bits with dots between, perhaps a prerelease that is not empty, perhaps build metadata, after white space and a "v" |
| `Semver.CompareVersionStrings` | internal/storage/semver.go:47-82 | the loops compute the comparison |
| `Semver.CompareVersionsOrder` | internal/storage/semver.go:45-82 | on versions that parse it is a total preorder |
| `Semver.CompareVersionKeysTotal` | internal/storage/semver.go:108-134 | on optional strings it is a total order: antisymmetric, transitive, zero only for identical inputs |
| `Semver.CompareVersionKeysExactly` | internal/storage/semver.go:108-134 | versions that parse first, by precedence and then as strings; then those that do not, as strings; then none |
| `Semver.KeysFollowPrecedence` | internal/storage/semver.go:108-134 | of two well-formed versions the one of lower precedence comes first |
| `Semver.RenderParses` | internal/storage/semver.go:17-43 | a well-formed version's numbers and pre-release identifiers are read back, its build metadata dropped |
| `Semver.WrittenParses` | internal/storage/semver.go:8-43 | with any list of numbers, and with or without a leading "v": read exactly if there are at most three and all fit 64 bits, missing ones as trailing zeros |
| `Semver.SpaceIgnored` | internal/storage/semver.go:18 | white space around a version changes nothing |
| `Semver.CompareIsPrecedence` | internal/storage/semver.go:45-106 | on well-formed versions whose numbers fit 64 bits it is the precedence of section 11 of Semantic Versioning 2.0.0 |
| `Dims.FormatDims` | internal/storage/dims.go:26-44 | the builder loop yields the canonical tuple |
| `Dims.ParseDims` | internal/storage/dims.go:46-66 | the loop yields the parse |
| `Dims.RoundTrip` | internal/storage/dims.go:26-66 | parsing gives the map back exactly when its keys avoid ';' and '=' and its values ';' |
| `Dims.IdentifiersClean` | internal/storage/dims.go:26-66 | which maps of identifiers do |
| `Dims.TupleInjective` | internal/storage/dims.go:26-44 | distinct dimension sets never share a label |
| `Dims.FoldedTuple` | internal/otlp/dims.go:124-135 | folding values to "other" keeps the keys and the canonical form |
| `Dims.SearchIsFirst` | internal/storage/query_dims.go:67-79 | the SQL expression reads the first pair with the key |
| `Dims.ParsePairsIsLast` | internal/storage/dims.go:50-66 | ParseDims keeps the last |
| `Dims.ReadersDiffer` | internal/storage/query_dims.go:67-79 | on any label the two readers agree exactly when it is not the empty label asked for "label" and first and last pair agree |
| `Dims.ReadersAgree` | internal/storage/query_dims.go:67-79 | so they agree on every stored label and every key |
| `Dims.TupleReads` | internal/storage/dims.go:68-76 | on a tuple both give the dimension's value, and nothing for a missing key |
| `Quantile.HistQuantile` | internal/storage/measure_percentiles.go:27-72 | nil exactly when there are no observations, else the interpolation in the bucket of rank q·n |
| `Quantile.RankedInPicked` | internal/storage/measure_percentiles.go:19-72 | for all observations behind the counts the ⌈q·n⌉-th smallest lies in the picked bucket |
| `Quantile.WithinBucketWidth` | internal/storage/measure_percentiles.go:19-72 | so with exact extremes the estimate is within that bucket's width of it, and within [min, max]; the last bucket needs the maximum, the first without a minimum that the observation is not below where the interpolation starts |
| `Quantile.QuantileWithinWidth` | internal/storage/measure_percentiles.go:19-72 | the same for histQuantile's own q: its answer against the ⌈q·n⌉-th smallest of the n observations |
| `Interpolation.EvenlySpread` | internal/storage/measure_percentiles.go:44-63 | where the observations of a bucket lie evenly over it, the answer at every whole rank in the bucket is exactly the observation of that rank, unless an extreme excludes it |
| `Interpolation.QuantilesProportional` | internal/storage/measure_percentiles.go:44-63 | two answers from one bucket of c of the n observations, neither of them an extreme, differ by its width times (q − p)·n/c |
| `QuantileBounds.ErrorBoundedExactly` | internal/storage/measure_percentiles.go:44-68 | for every histogram with exact extremes the width bounds the error for all observations where the bucket's ends are known or the asked observation is the known extreme; where not, observations lie as far off as one likes |
| `ReportedBounds.StaysInside` | internal/storage/measure_percentiles.go:62-68 | the exact condition on the stored extremes under which clamping leaves the estimate between where its bucket is taken to start and end |
| `ReportedBounds.InsideWithin` | internal/storage/measure_percentiles.go:44-68 | under it that width bounds the error for an observation that, in the outermost buckets, does not lie past the open end |
| `ReportedBounds.WithinRange` | internal/storage/measure_percentiles.go:44-68 | with extremes only some data points reported, the asked observation is never below the least nor above the greatest it can be by the stored fields and a floor the caller knows, if any |
| `ReportedBounds.ReportedExactly` | internal/storage/measure_percentiles.go:44-68 | in every bucket and for every d, the error is at most d for all observations such a histogram may stand for exactly when the estimate is within d of that least and that greatest |
| `ReportedBounds.WidthExactly` | internal/storage/measure_percentiles.go:44-68 | so the width of the bucket bounds it exactly then, in every bucket |
| `ReportedBounds.OpenEndExactly` | internal/storage/measure_percentiles.go:44-68 | and any bound at all holds exactly when bounds, floor or reported observations close the bucket on both sides for the asked rank |
| `ReportedBounds.BelowReportedMinimum` | internal/storage/measure_percentiles.go:46-52 | three durations whose median is three widths from the estimate, which clamping left in its bucket |
| `ReportedBounds.AboveLastBound` | internal/storage/measure_percentiles.go:53-60 | two observations in a last bucket taken to have no width, the smaller 7 from the estimate |
| `Quantile.KthExists` | internal/storage/measure_percentiles.go:19-26 | the ranked observation always exists |
| `Quantile.TotalIsAll` | internal/storage/measure_percentiles.go:28-34 | the counts add up to the number of observations |
| `Quantile.QuantileMonotone` | internal/storage/measure_percentiles.go:19-72 | the estimate is monotone in q, whatever minimum and maximum are stored |
| `Aggregates.Aggregate.Merge` | internal/storage/query_measures.go:349-371 | the receiver becomes the merge of both |
| `Aggregates.MergedCommutes` | internal/storage/query_values.go:41-62 | merging is commutative |
| `Aggregates.MergedAssociates` | internal/storage/query_values.go:41-62 | and associative |
| `Aggregates.ZeroMerged` | internal/storage/query_measures.go:331-335 | with the zero aggregate as identity |
| `Aggregates.UnionMerged` | internal/storage/query_measures.go:349-371 | merging two aggregates is aggregating the data points of both: counts and buckets of all observations, sum, minimum and maximum of the points that report them |
| `Aggregates.OrderIrrelevant` | internal/storage/query_measures.go:349-371 | an aggregate depends only on which data points there are |
| `Aggregates.ObservationOrderIrrelevant` | internal/storage/query_measures.go:349-371 | and within a data point only on which observations |
| `Aggregates.MergedIsUnion` | internal/storage/query_measures.go:286-335 | merging any rows in any order is aggregating the union of their data points, reported extremes or not |
| `MergedQuantiles.MergedHolds` | internal/otlp/metrics.go:368-381 | the merged counts are behind all observations; the merged extremes are observations, and exact where every data point reports its own |
| `MergedQuantiles.MergedQuantile` | internal/storage/query_measures.go:286-342 | where every data point reports, a group's percentile is that of its whole window up to a bucket's width; reported or not, the observation it stands for is between the least and the greatest it can be by what is stored, and within the width if clamping leaves the estimate in its bucket and, in the outermost buckets, it is not past the open end |
| `MergedQuantiles.MergedExactly` | internal/storage/query_measures.go:286-371 | in every bucket and for every d, the error is at most d for all data points that merge to the same exactly when the estimate is within d of that least and that greatest |
| `MergedQuantiles.MergedOpenEnd` | internal/storage/query_measures.go:286-371 | any bound at all holds for them exactly when the bucket is closed on both sides for the asked rank |
| `MergedQuantiles.Realised` | internal/storage/query_measures.go:349-371 | every list of observations a merged histogram may stand for is that of some data points that merge to it |
| `MergedQuantiles.PartlyReportedMedian` | internal/storage/query_measures.go:360-367 | a window whose median is 1 and is estimated as 7, because only one data point reported its minimum |
| `Aggregates.HitRateExact` | internal/storage/query_values.go:64-96 | the hit rate is exactly the share of values above zero, nil without values |
| `Grouping.GroupKey` | internal/storage/query_dims.go:115-128 | the loop builds the key |
| `Grouping.KeyInjective` | internal/storage/query_dims.go:115-128 | injective on values without byte 0xff, as in valid UTF-8 |
| `Grouping.KeyCollides` | internal/storage/query_dims.go:115-128 | with that byte, which a database of UTF-8 text never returns, two groups can share a key |
| `Grouping.GroupRows` | internal/storage/query_measures.go:307-335 | one group per key in order of first occurrence, with all of the key's rows as its series and their merge as its total; the totals merge to the merge of all rows |
| `Grouping.GroupedByValues` | internal/storage/query_values.go:320-348 | on valid values groups are by value: none lost, none mixed, none twice |
| `Grouping.TopKeepsMost` | internal/storage/query_measures.go:339-343 | most recorded first, ties in order of first occurrence, and no dropped group above a kept one |
| `HistogramIngest.CheckHistogramPoint` | internal/otlp/metrics.go:173-209 | the wrap-around test finds exactly the sums past 64 bits; accepted only if the mathematical sum is the count, bounds are the declared ones and values are finite and not negative; always without declared bounds |
| `HistogramIngest.AcceptedExactly` | internal/otlp/metrics.go:173-209 | always accepted without declared bounds; with them exactly if the bounds are those, every bucket has a count, they sum to the count, and sum, min and max are finite and not negative where set; overflow exactly past 64 bits |
| `HistogramIngest.StoredAddUp` | internal/otlp/metrics.go:367-385 | for an accepted point stored buckets add up to the stored count exactly when the count fits an int64, or one bucket holds all of it |
| `HistogramIngest.StoredTotal` | internal/otlp/clamp.go:34-39 | clamping loses nothing exactly when no bucket is over the limit |
| `Retries.ChainNoRange` | internal/storage/query_retries.go:93-97 | chain numbers start at one and never fall, so grouping from one up leaves out none |
| `Retries.PipelineIsChains` | internal/storage/query_retries.go:48-63 | the lag, prefix-sum and lead pipeline computes the documented chains and their summaries |
| `Retries.ChainFails` | internal/storage/query_retries.go:53-58 | only the last run of a chain can be a success |
| `Retries.ChainFacts` | internal/storage/query_retries.go:79-115 | retried runs are runs minus one, a recovered chain has at least two runs, its failures are its runs less the final success |
| `Retries.TotalsConserved` | internal/storage/query_retries.go:107-122 | summed over chains, failures and retries are those of all runs |
| `Retries.RepeatedIsThree` | internal/storage/query_retries.go:98-115 | some run is flagged repeated exactly when three consecutive runs all fail within the window |
| `Retries.SuccessBreaksStreak` | internal/storage/query_retries.go:61-63 | three failures within the window with a success among them are not flagged |
| `Retries.SequencesCounted` | internal/storage/query_retries.go:118-119 | retry and recovered sequences are the documented chains of two or more runs, and those of them that end in a success |
| `Retries.LongestIsStreak` | internal/storage/query_retries.go:121 | the longest streak is the longest row of consecutive failures each within the window of the one before |
| `Retries.ReportMeans` | internal/storage/query_retries.go:116-122 | a command's row over all installs: failed and retried counts, rate at most one, the sequences, the repeated installs and the longest streak of any |
| `Consent.FamilyOf` | internal/allowlist/schema.go:204-216 | walking the sorted families finds the unique longest that matches; a key with its own definition has none |
| `Consent.FamiliesDetermined` | internal/allowlist/schema.go:285-290 | every schema has its families in one order only |
| `Consent.TierNameForRank` | internal/consent/tier.go:183-190 | the first tier of the rank, or "" |
| `Consent.ResolveTier` | internal/consent/tier.go:65-82 | a known tier, the record's before the resource's, else an error exactly when it is missing, no string or unknown |
| `Consent.EvaluateEvent` | internal/consent/tier.go:108-181 | accepted exactly when name and ceiling are known, nothing is overclaimed under reject and every required attribute is kept; then the kept keys, dropped keys and the tier key partition the input |
| `Consent.KeptWithinTier` | internal/consent/tier.go:137-166 | a key that the event or its longest family allows is kept exactly when it satisfies its definition, its own or that family's, of rank at most min(declared, ceiling); any other key exactly when it is standard |
| `Consent.MoreConsentKeepsMore` | internal/consent/tier.go:119-172 | in strip mode raising the declared tier or the ceiling keeps a superset and never turns acceptance into rejection |
| `Consent.RejectModeExactly` | internal/consent/tier.go:125-127 | reject mode is strip mode less the records that claim above the ceiling |
| `Consent.ReportedTier` | internal/consent/tier.go:129-133 | with distinct tier names the reported tier has the effective rank |
| `Introspection.Cache.Get` | internal/oidc/introspect.go:55-67 | serves only before expiry and forgets what has expired |
| `Introspection.Cache.Put` | internal/oidc/introspect.go:69-86 | stores, evicting expired entries when full, or leaves a cache full of live ones |
| `Introspection.Cache.Introspect` | internal/oidc/introspect.go:97-143 | two looks, then the provider's answer with its expiry; provider trouble is not stored |
| `Introspection.RunSound` | internal/oidc/introspect.go:55-143 | in every run the cache stays within its bound and holds only settled answers |
| `Introspection.ServedIsCurrent` | internal/oidc/introspect.go:97-143 | nothing is served at or past expiry, no provider failure ever, and an active answer never past min(CacheTTL after it was settled, exp), as section 4 of RFC 7662 asks |
| `Introspection.PutServes` | internal/oidc/introspect.go:69-86 | an answer is served until it expires exactly unless the cache was full of other live entries; no live entry is evicted, and expired ones exactly if there was no room |
| `Introspection.ServedUntilLimit` | internal/oidc/introspect.go:97-143 | in every run a settled answer is served at every time before min(at + CacheTTL, exp), or at + NegativeCacheTTL, until another is settled: exactly unless the cache was full of other live entries |
| `Jwks.MatchKey` | internal/oidc/jwks.go:131-151 | the key that suits, exactly when there is exactly one |
| `Jwks.MatchExactly` | internal/oidc/jwks.go:129-162 | a key is matched exactly if it alone is of the token's kid or, without one, usable under its algorithm, and is declared for no other algorithm |
| `Jwks.RefreshesExactly` | internal/oidc/jwks.go:39-60 | in every run a lookup cacheTTL or more after the last successful fetch always refreshes, a younger one that matches never does, and one that does not match does exactly if the cooldown has passed |
| `Jwks.FetchServes` | internal/oidc/jwks.go:62-80 | in every run a lookup whose fetch succeeded is answered with the key the fetched keys match, or as unknown |
| `Jwks.Verifier.LookupKey` | internal/oidc/jwks.go:39-103 | the lookup run by itself: answer and cache as specified |
| `Jwks.RunKeepsSpaced` | internal/oidc/jwks.go:39-60 | in every interleaving each refresh for an unknown key is the cooldown after the one before |
| `Jwks.UnknownRefreshesSpaced` | internal/oidc/jwks.go:34-60 | so any two are at least the cooldown apart, whatever clocks the lookups read |
| `Jwks.HoldsLastFetched` | internal/oidc/jwks.go:82-103 | in every run the cache holds the keys of the last fetch that succeeded, however many failed since |
| `Jwks.FailedFetchServes` | internal/oidc/jwks.go:62-74 | in every run a lookup whose fetch failed is answered with the key those keys match, and with the failure only if they match none |
| `Jwks.FailuresLoseNoKey` | internal/oidc/jwks.go:39-103 | over any stretch of any run without a successful fetch, a lookup that was open when it began is answered with nothing but the key the held keys match |
| `Jwks.AnswersSound` | internal/oidc/jwks.go:39-103 | a key is found, or reported unknown, only as some published key set says |

## Left out

- Quantile.HistQuantile: counts are unbounded and arithmetic is over the reals; int64 overflow of the total and IEEE rounding are not modelled.
- Aggregates.Aggregate.Merge: sums are over the reals and counts unbounded, so rounding and overflow are not modelled.
- Aggregates.MergedIsUnion: a data point that reports a sum, minimum or maximum reports that of its own observations; one that misreports is not modelled.
- Admitter.Writer.Admit: counts are unbounded; a failed statement is an abort in AdmissionProtocol and not in the class.
- RaceChanges.UnracedChanges: a sweep that deletes old version changes and keeps the row is not a step of the model.
- Retries.PipelineIsChains: one partition's runs are given in (time, id) order; the selection of events from logs, the final ORDER BY, LIMIT and OFFSET are not modelled.
- Consent.EvaluateEvent: the order of the dropped keys, which follows Go's map iteration, is left open, and rejection reasons are not distinguished.
- Introspection.Cache.Introspect: followers of a shared provider call receive the leader's answer and take no step of their own; the validation of the provider's response is an input.
- Jwks.Verifier.LookupKey: fetching and parsing the key set are inputs.
- Dims.ReadersAgree: the SQL CASE and regular expression are modelled as a search over the label's characters, not through a regular-expression engine.
- HTTP and gRPC handlers, command-line commands, configuration, logging, SQL transport and the database itself.
- JWT and JWKS cryptography, single-flight and rate-limiting libraries.
- Error fingerprinting and the allowlist's and catalogue's regular expressions.
- The other read queries (latency, friction, environment, footprint, ratios, retention, sessions), which are mostly SQL over rollups.
- Backfills, which replay stored events through the operations modelled here.
