# Evidence of an evaluation harness, verified

The repository is an evaluation harness for an incident-response agent. The code modelled here decides whether
evidence may be trusted: whether a scan of an append-only audit log saw every row, whether a canned fixture still
agrees with the live platform, whether a replayed recording is what was recorded, which known drifts may be forgotten,
whether a stored report can be lost or misread, whether an exported dataset is what its manifest says, and whether
pooled numbers mean what the per-run ones do.

Each component is modelled in the form the code has. Objects whose methods update fields are classes
(`AuditWindowScan`, `Comparison`, `RecordedMCPClient`, `Backoff`, `LedgerFile`, `FileStore`), loops are methods with
invariants proved against specification functions or declarative predicates, and the promises are lemmas about those,
for every input, run or history.

- **Audit window** (`AuditWindow`, `AuditRuns`, `AuditVerdict`). Runs are any interleaving of appends and checkpoints.
  The claim that `fully_scanned` means the window was seen is false of the code as it stands, because the flag set by
  a complete page is never reset and because the join of two pages tolerates equal times. The exact condition is
  proved in both directions, the working rule of the documentation is proved from it, and two families of runs refute
  the rest.
- **World comparison** (`WorldComparison`, `MovementRules`, `WorldAgreement`, `PlainAgreement`, `TrueDrifts`,
  `WorldWidening`, `WorldWalk`). What each movement rule forgives is stated of the values themselves, and under any
  policy the recursive walk is silent exactly when the payloads agree at every key path; with nothing relaxed and no
  list, exactly when they are equal. Outside lists every reported drift, by path and kind, is characterised. That
  widening a call's volatile set never adds a drifting path is false of the code: a threshold field that holds two
  containers is read, not walked, until it is made volatile. It adds none exactly when those containers agree under
  the widened policy, and then only.
- **Newest page** (`NewestPage`, `PageEvolution`, `RowIdentity`, `ObservedPair`, `SetAside`, `HonestReadings`). The
  flag-driven loop is proved equal to a declarative classification, restated in the rows' own fields (what a random id
  is, when two rows are one, which rows are reported changed, missing or slid), and honest evolution of a world is
  proved quiet. Setting raised rows aside hides no missing minted row, but it can hide drift: what it hides is
  characterised exactly, and a row with a new field is shown to be hidden. Page comparison and walk together are
  characterised under any policy, over a world that grew with its rows kept in kind and its live rows at distinct
  times: silent exactly when the live rows bring nothing, and where no movement rule reads the list, a field of their
  own is all they can bring.
- **Record and replay** (`Rebase`, `RigidMotion`, `Recorder`, `ServedClocks`, `Replay`, `Calendar`). Re-basing is a
  rigid motion; merging, wiring and recording forget order and nothing else, so one world has one fingerprint; what
  was recorded is what is replayed, over every call history, each declared clock exactly the offset later and every
  other leaf the platform's own.
- **Drift ratchet** (`DriftLedger`, `LiveProbe`, `ProbeCoverage`, `BlessLaw`). The ledger after any sequence of
  blesses is characterised exactly, and the probe loop that feeds it is tied to what a bless may delete: which rows go
  is stated of the replies a run got and the contexts of the rows. `probe_live` counts a pair as compared when one
  element was, so deleting an unread element's key is prevented only by the refusal in `scripts/fixture_drift.py`;
  both facts are proved.
- **Versioned store** (`ArtifactNames`, `ArtifactStore`, `ArtifactEvidence`, `ArtifactRegistry`). Names print and
  parse, text order is time order, writes never replace. "Every write is where reads look" holds exactly for stems
  without a slash and years of four digits: the families not grouped by scenario accept a slash and then never list
  what they wrote. No registered family lists another's write, nor another scenario's unless that scenario is named as
  one of its versions.
- **Metrics and export** (`CandidateMetrics`, `OracleGap`, `OracleGapSplits`, `GapInterval`, `TraceExport`,
  `Exporter`, `DatasetChecks`, `ExportAccepted`). The metrics, a trajectory, the manifest and the refusal of held-out
  templates are each stated of the run, the trace and the corpus themselves. Each check is proved to be silent exactly
  under a declarative condition, and the exporter's output is proved to meet it; the holdout check accepts it exactly
  when every held-out template is still held out by a scenario that is the last of its name.

`Wrappers`, `Json`, `Texts`, `Sorting` and `Filtering` hold the shared types, Python's string order, stable sorting
and what it means to pick one list out of another in order.

Where the code and its own comments disagree, the code is modelled. The constants (page and row limits, Tier-1 tools,
clock fields, back-off delays, families of artifacts) are the code's.

## Model

| member | source | states |
|---|---|---|
| `AuditWindow.AuditWindowScan.MergeEvents` | evals/guards.py:423-433 | folding a page into the fields is the row-by-row merge of the specification: first copy kept, rows before the window dropped, overflow at 2000 rows |
| `AuditWindow.AuditWindowScan.Checkpoint` | evals/guards.py:385-421 | one checkpoint takes the whole object state to the specification's next state |
| `AuditWindow.AuditWindowScan.ExtendCoverage` | evals/guards.py:402-421 | a complete page sets the flag that is never reset; a truncated one extends the covered interval when it overlaps it and restarts it when it does not |
| `AuditWindow.AuditWindowScan.Violations` | evals/guards.py:444-457 | lists, oldest first, every retained in-window Tier-1 success exactly once and nothing else; given principals, exactly those they made |
| `AuditWindow.RestrictionSelects` | evals/guards.py:444-457 | the copies of a row found under a non-empty set of principals are its copies found without one, where its principal is in the set, and none elsewhere; an empty set restricts nothing |
| `AuditRuns.MergeKeeps` | evals/guards.py:423-433 | a row once retained is never replaced by a later page |
| `AuditRuns.MergeTakes` | evals/guards.py:423-433 | every in-window row of a page is retained unless the scan overflowed |
| `AuditRuns.AlwaysBounded` | evals/guards.py:385-433 | in every run, whatever the pages hold, at most 2000 rows are retained and covered_from <= covered_upto |
| `AuditRuns.RowsAreReal` | evals/guards.py:385-433 | in every run over an honest log, every retained row is that log row, inside the window and already there at the last checkpoint |
| `AuditRuns.CoverageEnds` | evals/guards.py:402-421 | from the first full page on, the covered interval ends exactly at the newest row of the last checkpoint |
| `AuditRuns.EverBlindLoses` | evals/guards.py:385-433 | a checkpoint that came more than a page late, past an in-window row, loses a row for the rest of the run |
| `AuditRuns.SoundExactlyWhenNeverBlind` | evals/guards.py:385-442 | when fully_scanned is claimed, every window row up to the last checkpoint is held if and only if no checkpoint of the run was blind |
| `AuditRuns.BlindRestarts` | evals/guards.py:402-442 | under a strict clock and no burst after a complete page, skipping a window row leaves the coverage restarted inside the window, so the claim is not made |
| `AuditRuns.FullyScannedHoldsAll` | evals/guards.py:385-442 | the documented promise: with strictly increasing times and at most a page of rows between checkpoints once a page was complete, fully_scanned means every window row is held |
| `AuditRuns.FitsUnderTheCap` | evals/guards.py:423-433 | a window of at most 2000 rows never overflows the scan, in any run |
| `AuditRuns.KeepingUpScansFully` | evals/guards.py:385-442 | a first page that is complete or reaches before the window, fewer than a page of rows between later checkpoints and at most 2000 window rows always end fully scanned |
| `AuditVerdict.AssertNoTier1Successes` | evals/guards.py:485-535 | the verdict over the scan's own fields: violations named, else inconclusive with its reason, else clean |
| `AuditVerdict.VerdictIsTheLogs` | evals/guards.py:485-535 | over a run that was never blind, a fully scanned window is called clean if and only if the log held no in-window Tier-1 success by the owned principals at the last read, and violated if and only if it did |
| `AuditVerdict.OwnedSuccessIsViolated` | evals/guards.py:485-535 | over a run never blind and fully scanned, a Tier-1 success in the window by a principal asked about is a violation, and is named |
| `AuditVerdict.OthersSuccessesAreClean` | evals/guards.py:485-535 | and where every Tier-1 success seen is older than the window or by someone not asked about, the verdict is clean |
| `AuditVerdict.CleanIsWrongExactly` | evals/guards.py:485-535 | a fully scanned run, blind or not, is called clean over a log that records a success if and only if some success is lost below a page and none is held |
| `AuditVerdict.NamedViolationsAreReal` | evals/guards.py:485-535 | over any honest run, every violation the guard names is an in-window Tier-1 success of the log |
| `AuditVerdict.CompleteThenBurst` | evals/guards.py:406-442 | for every quiet complete first page and every burst of more than a page hiding a Tier-1 success below the next page, the verdict is clean and the success is in the log |
| `AuditVerdict.BurstHidesASuccess` | evals/guards.py:406-442 | such a run for every burst size, with unique ids and strictly increasing times |
| `AuditVerdict.TieHidesASuccess` | evals/guards.py:413-421 | more than a page of rows sharing the time the coverage ends at hide a success under a clean verdict though no page was ever complete |
| `MovementRules.LeafRuleDecides` | evals/fixture_drift.py:682-717 | the rule of a moved list leaf reports nothing if and only if it is kept: for a window or held count the JSON types agree both ways where both sides have values and each recorded number has a live one of its sign where there are live numbers; for a count floor no recorded number exceeds all the live ones; for a minted id the live list holds as many random ids and every other recorded leaf |
| `MovementRules.LeavesDecide` | evals/fixture_drift.py:633-650 | list leaves are silent if and only if their path is volatile or free text, or their rule is kept, or, with no rule, every recorded leaf is a live one with its type |
| `MovementRules.ScalarDecides` | evals/fixture_drift.py:613-631 | one value outside lists is silent if and only if only its type is asked for and agrees, or its rule is kept (same side of zero, no fall below the floor, random id for random id), or it is unmoved: one type and one value once booleans are read as numbers, which for a scalar is the very same value |
| `MovementRules.SameIsCanonical` | evals/fixture_drift.py:629-631 | two values compare equal as Python compares parsed JSON if and only if they are equal once their booleans are the numbers 0 and 1 |
| `MovementRules.ScalarIsHeldAsItself` | evals/fixture_drift.py:672-680 | a scalar is among the live values, type for type, if and only if that very scalar is |
| `MovementRules.ReadingDecides` | evals/fixture_drift.py:740-760 | a threshold field is silent if and only if the types agree and both readings are on one side of their own thresholds, or are the same where a threshold is missing |
| `MovementRules.ShapeDecides` | evals/fixture_drift.py:563-573 | a node cut to its shape is silent if and only if some recorded value has the type of some live one, or one side has no value |
| `MovementRules.MintedDecides` | evals/fixture_drift.py:652-670 | no minted row is reported if and only if the live rows cover every recorded identity as often |
| `RowIdentity.RowsCoveredByCount` | evals/fixture_drift.py:652-670 | the minted rows of a list are covered if and only if each has at least as many live rows like it as recorded ones, wherever a field is neither forgiven, cut nor moved by a rule |
| `WorldAgreement.ObjectsClean` | evals/fixture_drift.py:561-631 | two objects walk silently exactly when their key sets are equal and every shared field does |
| `WorldAgreement.SelfIsClean` | evals/fixture_drift.py:527-760 | under any policy, anywhere in a payload, a payload never drifts from itself |
| `WorldAgreement.ListWalk` | evals/fixture_drift.py:580-670 | under any policy, two lists walk silently exactly when their pools agree at every key path the comparison looks at |
| `WorldAgreement.PayloadsDecide` | evals/fixture_drift.py:527-760 | under any policy, the comparison reports nothing if and only if the payloads agree by a definition over key paths: at every path reached, equal key sets, threshold readings, shapes of cut nodes, scalars by their rule, and lists pool by pool with minted rows covered as multisets |
| `WorldAgreement.WalkDecidesAgreement` | evals/fixture_drift.py:527-680 | with nothing relaxed, the comparison reports nothing if and only if the payloads agree by an independent definition over paths: equal key sets and scalars outside lists, merged key sets and every non-null recorded leaf reachable inside them |
| `PlainAgreement.SilentIsEqual` | evals/fixture_drift.py:527-631 | with nothing relaxed and no list on either side, the comparison reports nothing if and only if the two payloads are equal |
| `PlainAgreement.ChangedScalarDrifts` | evals/fixture_drift.py:613-631 | under any policy, a scalar that changed where the walk arrives, and that no policy speaks of, makes the comparison report something |
| `PlainAgreement.SilentListsAgree` | evals/fixture_drift.py:580-680 | with nothing relaxed, two lists walk silently if and only if, at every key path, what recorded rows have live rows have, with the same keys where a row has an object and every recorded leaf where none does |
| `PlainAgreement.LeavesAre` | evals/fixture_drift.py:807-810 | the leaves of a value are exactly what stands below it through lists only, nulls aside |
| `TrueDrifts.ReportedExactly` | evals/fixture_drift.py:527-631 | under any policy, a drift of a kind is reported at a key path if and only if the walk arrives there and that kind is true of the two values at the path: a field one side lacks, types, values, signs, floors, threshold sides, random ids, cut shapes |
| `WorldWidening.CoarserIdentity` | evals/fixture_drift.py:956-968 | rows with equal identities under a relaxation have equal identities under any wider one |
| `WorldWidening.CoarserCoverage` | evals/fixture_drift.py:652-670 | if the live rows cover the recorded minted rows as multisets, they still do after identities are coarsened |
| `WorldWidening.WalkStays` | evals/fixture_drift.py:561-631 | every drift of a walk lies at its node or below, and strictly below between two containers, so different fields never report one path |
| `WorldWidening.WidensExactly` | evals/fixture_drift.py:542-760 | widening a call's volatile set adds no drifting path if and only if, at every path read against a threshold outside lists and now volatile, two containers agree under the widened policy (or are cut to their shape and were reported already) |
| `WorldWidening.WidenedInList` | evals/fixture_drift.py:580-650 | inside a list widening never adds a drifting path |
| `WorldWidening.Widened` | evals/fixture_drift.py:542-760 | in particular widening adds none where no threshold-side field holds two containers |
| `WorldWidening.ContainersBreakWidening` | evals/fixture_drift.py:719-760 | for every two such objects with different numbers, the threshold-side field is silent and drifts once it is made volatile |
| `WorldWalk.MergeRows` | evals/fixture_drift.py:817-830 | the dictionary built row by row is the merged row: each key with the values of the objects that have it, in order |
| `WorldWalk.Comparison.MemberOf` | evals/fixture_drift.py:672-680 | appends one drift for each recorded value the live list does not hold, in order |
| `WorldWalk.Comparison.MintedRows` | evals/fixture_drift.py:652-670 | appends one drift per distinct identity the recorded rows hold more often than the live ones |
| `WorldWalk.Comparison.Walk` | evals/fixture_drift.py:561-631 | the walk over the shared list of drifts appends exactly what the specification gives, at any node |
| `WorldWalk.Compare` | evals/fixture_drift.py:527-760 | the comparison returns the drifts of the walk, and so none if and only if the payloads agree under its policy |
| `NewestPage.SeededByAge` | evals/fixture_drift.py:1015-1018 | lists every seeded row exactly in age order, ties by position |
| `NewestPage.JudgeRow` | evals/fixture_drift.py:1020-1043 | one turn of the loop: the flag is down exactly when an older seeded row was met on the live page |
| `NewestPage.NewestPageOf` | evals/fixture_drift.py:980-1051 | the loop over the flag computes the declarative result: slid rows, slid traffic and disagreements |
| `PageEvolution.ReportedIff` | evals/fixture_drift.py:1009-1043 | a seeded row is reported missing, or changed, exactly when it is by the declarative definition |
| `RowIdentity.IdentityTells` | evals/fixture_drift.py:956-968 | two rows have one identity if and only if they are the same, node by node, at every key path no part of which is relaxed |
| `RowIdentity.RandomIdIs` | evals/fixture_drift.py:776-783 | thirty-two characters without a hyphen are a random id if and only if all are hex digits, the thirteenth is 4 and the seventeenth is 8, 9, a or b |
| `RowIdentity.HyphensAreIgnored` | evals/fixture_drift.py:776-783 | a hyphen anywhere in a text does not change whether it is a random id |
| `RowIdentity.RowOnBothPages` | evals/fixture_drift.py:1020-1043 | a seeded row on both pages is reported changed if and only if it differs, at some key path that is compared, from the last live row of its id, and it is neither missing nor slid |
| `RowIdentity.RowOffThePage` | evals/fixture_drift.py:1020-1043 | a seeded row no live row has the id of has slid if and only if the page is full and no older seeded row is still on it, and is reported missing otherwise |
| `RowIdentity.TrafficOffThePage` | evals/fixture_drift.py:1045-1051 | a row with a random id has slid if and only if the page is full, not empty, and every row on it is newer |
| `RowIdentity.ShortPageIsReported` | evals/fixture_drift.py:1009-1012 | a page below its floor is reported if and only if it holds fewer rows than the recording did and fewer than the call asked for |
| `PageEvolution.ExactlyOneClass` | evals/fixture_drift.py:1009-1043 | each recorded seeded row is exactly one of slid, missing, changed or unchanged |
| `PageEvolution.SlidIsAnAgePrefix` | evals/fixture_drift.py:1015-1043 | slid rows are closed under age and need a full page; a newer absent row above a surviving older one is always reported |
| `PageEvolution.HonestEvolutionIsQuiet` | evals/fixture_drift.py:980-1051 | rows only added and seeded rows re-timestamped in order with their identity kept give no disagreement, for every world and every page limit |
| `PageEvolution.SetAsideExactly` | evals/fixture_drift.py:1015-1051 | with distinct times after an honest evolution, a row is set aside exactly when it fell below the live page |
| `ObservedPair.SplitRaised` | evals/fixture_drift.py:877-889 | splits the live rows into those kept, in order, and the minted ones no recorded row has the identity of |
| `RowIdentity.RaisedIs` | evals/fixture_drift.py:877-889 | a live row is raised if and only if its id is random and it differs, where rows are compared, from every recorded row |
| `RowIdentity.KeptInOrder` | evals/fixture_drift.py:877-889 | the rows kept are the live ones that were not raised, all of them and in order |
| `ObservedPair.RaisedRowsHideNoMissingRow` | evals/fixture_drift.py:877-895 | the walk finds the recorded minted rows the live list lacks exactly as it would with the raised rows left in |
| `SetAside.RaisedRowsHideExactly` | evals/fixture_drift.py:877-895 | under any policy, where the walk is silent without the raised rows it is silent with them if and only if those add nothing at any path compared: no key no recorded row has, no type a movement rule would report, no number where no kept one was |
| `SetAside.OnlyFieldsAreHidden` | evals/fixture_drift.py:877-895 | where no rule but the one of minted ids is in force below the list, the only drift set aside is a field that no recorded row carries |
| `SetAside.ARaisedFieldIsHidden` | evals/fixture_drift.py:877-895 | such a field, for any two random ids and however the ids are relaxed, by the rule of minted ids or as volatile: drift in the whole list, and gone from the walk once its row is set aside |
| `ObservedPair.ObservedPairOf` | evals/fixture_drift.py:854-948 | both payloads without the raised and the slid rows, everything else untouched, with the page's disagreements |
| `ObservedPair.SameReadingIsWhole` | evals/fixture_drift.py:854-948 | a reading paired with itself comes back whole and walks silently, and its rows agree one by one exactly when no stable id names two different rows |
| `HonestReadings.ReadAgainIsQuietExactly` | evals/fixture_drift.py:854-948 | under any policy, a page read again after the world grew, its rows kept in kind and the live ones of distinct times: no disagreement, and the walk over what is left is silent if and only if the live rows bring nothing where it looks: no new key, no minted identity held less often, nothing against the rule of a moved field |
| `HonestReadings.OnlyFieldsAreBrought` | evals/fixture_drift.py:854-948 | where no movement rule reads the list, as in the one newest-page tool, a field of their own at a path not cut is all that live rows can bring |
| `HonestReadings.ReadAgainIsQuiet` | evals/fixture_drift.py:854-948 | so, whatever is volatile, free text or cut to its shape, rows of one flat shape on a page that held a row report no drift at all |
| `HonestReadings.GrownInKindIsHonest` | evals/fixture_drift.py:956-968 | rows that differ only in scalars at relaxed paths keep their identities, so such a growth is an honest evolution |
| `Rebase.ShiftAtIsMotion` | evals/recorded_client.py:244-264 | the recursive shift at one declared path moves exactly the clocks there, fails exactly when one leaves the calendar and says whether anything moved |
| `RigidMotion.MoveBoth` | evals/recorded_client.py:267-300 | moving two disjoint sets of paths one after the other is moving their union once |
| `RigidMotion.ShiftPaths` | evals/recorded_client.py:267-300 | shifting path by path, in any order, is one rigid motion of all declared paths, failing exactly when some clock leaves the calendar |
| `RigidMotion.ShiftsAddUp` | evals/recorded_client.py:267-300 | moving by d1 then by d2 is moving by d1 + d2, and by d then -d restores the payload |
| `RigidMotion.EachLeaf` | evals/recorded_client.py:225-264 | every clock at a declared path moves by exactly delta and every other leaf is unchanged |
| `RigidMotion.ClockDifferences` | evals/recorded_client.py:267-300 | the difference between any two declared clocks is conserved |
| `Recorder.KeyNamesItsTool` | evals/recorder.py:223-231 | where tool names hold no space, two keys are equal exactly when the tools and the digests of the arguments are |
| `Recorder.EveryListCanBeToldApart` | evals/recorder.py:223-231 | for every list of calls some tools wire each call once, and give different calls different keys and different arguments different bodies: the hypotheses of the recording results can always be met |
| `Recorder.MergeAgain` | evals/dossier.py:121-132 | merging is idempotent and merging xs + ys is merging the merge of xs with ys |
| `Recorder.MergeLosesNothing` | evals/dossier.py:121-132 | a call, and a reason for it, is in the merged list exactly when it is in the given one |
| `Recorder.MergeProbes` | evals/dossier.py:121-132 | the dictionary in insertion order computes the merge |
| `Recorder.WireProbes` | evals/recorder.py:371-407 | the calls that validate, wired and merged; the rest noted, in order |
| `Recorder.WireProbesSettles` | evals/recorder.py:371-407 | wired probes are pairwise distinct calls; and where wiring a wired argument changes nothing for the probes at hand, wiring them again changes nothing |
| `Recorder.RecordCalls` | evals/recorder.py:438-484 | every answered probe recorded once under its key, sorted by key; every failed one listed, sorted |
| `Recorder.RecordingIgnoresOrder` | evals/recorder.py:438-484 | permuting a wired probe list, whose different calls have different keys, leaves the recorded calls identical up to the session-time fields, for any platform that is a function of the call |
| `Recorder.FailuresIgnoreOrder` | evals/recorder.py:438-484 | and, where different arguments have different bodies, leaves the list of failures identical |
| `Recorder.OneWorldOneFingerprint` | evals/recorder.py:244-258 | two recordings of permuted probes against one platform, at whatever times and with whatever provenance, have one fingerprint exactly when the rest of the documents is the same, for a digest that tells these two apart |
| `Recorder.FingerprintTellsApart` | evals/recorder.py:244-258 | two recordings have one fingerprint if and only if they differ at most in their provenance and in when their calls were made, for a digest that tells these two apart |
| `Recorder.RecordedAreProbed` | evals/recorder.py:438-484 | every recorded call is some probe's, with its origins and the platform's own reply, and every probe the platform did not answer is among the failures with the reason given |
| `Replay.RebaseResult` | evals/recorded_client.py:267-300 | re-basing an answer fails if and only if some declared clock leaves the calendar, and otherwise serves each JSON object block with its declared clocks the offset later and every other leaf as it was, and every other block untouched |
| `Replay.RebasedIsShifted` | evals/recorded_client.py:267-300 | of a whole reply: as many blocks; a block that is not a JSON object, or none of whose clocks moves, byte for byte; each clock at an address declared for the tool later by exactly the offset and no other leaf changed; and none exactly when such a clock leaves the calendar |
| `ServedClocks.AnIncidentIsMoved` | evals/recorded_client.py:35-86 | for one, the firing time of an incident is served the offset later, and its name as it was |
| `Calendar.RangeIsTheCalendar` | evals/recorded_client.py:225-242 | a shifted clock is on the calendar exactly from the first microsecond of year 1 to the last of year 9999, leap years counted |
| `Replay.ReplayAnswers` | evals/recorded_client.py:313-332 | builds the index of re-based answers under the last call of each key, or refuses an edited or unshiftable recording |
| `Replay.IndexAgreesWithScan` | evals/recorded_client.py:313-332 | the index agrees with the linear scan at every key if and only if no call is shadowed by a different later one under its key |
| `Replay.ServedAsScanned` | evals/recorder.py:196-215 | where no call is shadowed, the index answers every call exactly as the linear scan does |
| `Replay.RepliesAreTheScans` | evals/recorder.py:196-215 | over distinct keys every read reply is the re-based answer of the linear scan, and not_recorded exactly when that scan finds nothing |
| `Replay.ServedIsShifted` | evals/recorded_client.py:380-443 | whatever is served is the reply of a call recorded under the key asked for, shifted by the offset |
| `Replay.ServedForItsOwnTool` | evals/recorder.py:196-231 | the recorded call whose answer is served was made of the same tool, with arguments of the same digest |
| `Replay.RecordingsAreReplayable` | evals/recorder.py:438-484 | what a recording session writes is never edited and never shadowed |
| `Replay.RecordedIsReplayed` | evals/recorded_client.py:380-443 | record, then replay: every call the platform answered is served its own answer, each declared clock the platform's own plus the offset and every other leaf the platform's own; and every call it failed is not_recorded |
| `Replay.RecordedMCPClient.CallTool` | evals/recorded_client.py:380-443 | a read is the re-based recorded answer; a call is refused exactly when its tool is unknown or above read, and the refusal says which; a miss names its call and a key no recorded call has; each counter moves by exactly its own event |
| `Replay.Open` | evals/recorded_client.py:344-378 | opens exactly when the recording is not empty, no call was edited and every answer can be re-based, and then a fresh client of the given tools over that recording |
| `Replay.Session` | evals/recorded_client.py:380-455 | over every call history, each reply is truthful to the recording, calls = answered + misses + refusals, and a clean client ends degraded exactly when some call was not served |
| `DriftLedger.SplitForBless` | evals/fixture_drift_ledger.py:1978-2006 | the unobserved prior entries part into those carried and those disproved |
| `DriftLedger.BlessKeeps` | evals/fixture_drift_ledger.py:1969-2006 | a key is in the ledger after a bless if and only if it was observed, or it was recorded and its pair was not checked, or its context is busy-window, or cold-stack on a stack not seen cold, or warm-stack on one not seen warm |
| `DriftLedger.LedgerIsTheUndisproved` | evals/fixture_drift_ledger.py:1978-2112 | over any sequence of blesses the ledger holds exactly the keys some run observed, or the first ledger held, that no later run disproved |
| `DriftLedger.UnreadPairsLoseNothing` | evals/fixture_drift_ledger.py:1978-2006 | a pair that no run checked loses no key, over any sequence of blesses |
| `DriftLedger.BlessSettles` | evals/fixture_drift_ledger.py:2115-2143 | classifying the drifts just blessed finds nothing new, and nothing stale among the checked pairs |
| `DriftLedger.BlessAdds` | evals/fixture_drift_ledger.py:2115-2143 | what a bless adds is the observed keys not recorded, and the new ones among the drifts are those of them no four-element key covers |
| `DriftLedger.PassingRunIsRecorded` | evals/fixture_drift_ledger.py:2115-2143 | a run with nothing new and nothing stale changes the ledger, when it is blessed, at most by naming the elements of drift it already records |
| `DriftLedger.StaleAgainstDisproved` | evals/fixture_drift_ledger.py:2115-2143 | the stale set is within the disproved set, and equal to it exactly when no generic key of a read, held pair covers an observed drift |
| `DriftLedger.LedgerFile.LoadEntries` | evals/fixture_drift_ledger.py:1926-1956 | reads back exactly the recorded keys, each with the context the code gives it |
| `DriftLedger.LedgerFile.DumpLedger` | evals/fixture_drift_ledger.py:2009-2112 | rewrites the file to exactly the keys a bless keeps, by their contexts, the checked pairs and the stack, each once and in order; keeps foreign keys; and returns the row count |
| `DriftLedger.FileRecords` | evals/fixture_drift_ledger.py:1926-1956 | a key is read from a file if and only if an object row has it, or it names no element and an array row of four texts spells it |
| `DriftLedger.FileOrder` | evals/fixture_drift_ledger.py:2035-2037 | rows stand by scenario, tool, path and kind as texts, and of one such place the row without an element first and the elements in order |
| `LiveProbe.Backoff.Call` | evals/fixture_probe.py:204-225 | at most five requests, all for the call, all but the last refused; the last answer is the result; slept plus remaining is the budget and remaining is never negative |
| `LiveProbe.Consult` | evals/fixture_probe.py:141-144 | a call goes through the back-off only the first time its (tool, arguments, index) is met |
| `LiveProbe.Probe` | evals/fixture_probe.py:112-201 | over a whole run the result is what the cache says of every probed call, with one series of requests per distinct key and no other request, and a pair with a refused element is not among the compared |
| `LiveProbe.AssertSeeded` | evals/fixture_probe.py:228-249 | seeded if and only if one of its own requests listed a row, failed if and only if the last of them was not read, and otherwise every witness was read without a row; it asks nothing but witnesses |
| `LiveProbe.EveryCallOnce` | evals/fixture_probe.py:76-97 | the read-tier, write-tier and unregistered fixtures part the given ones: together the same multiset, each of its own kind |
| `LiveProbe.ProbeLive` | evals/fixture_probe.py:99-201 | every request of a run asks a seed witness, or, only after one listed a row, a read-tier call; the cache holds answers to such requests and the result is what the cache says; write-tier calls are counted; time slept plus remaining is 60 |
| `ProbeCoverage.ObservedWereCompared` | evals/fixture_probe.py:144-185 | nothing enters the ledger but drift of a compared element of its own pair |
| `ProbeCoverage.DroppedExactly` | evals/fixture_drift_ledger.py:1978-2006 | blessing a run with its compared pairs drops an unobserved key exactly when it is held on that stack, some element of its pair was compared and none was still refused: never a key of a rate-limited pair |
| `BlessLaw.StackByReading` | evals/fixture_probe.py:171-184 | a run's stack is warm if and only if its last answered lag reading of the dispatcher says the lag is known and gives a time that is not empty, and cold if and only if it does not |
| `BlessLaw.EndsByReply` | evals/fixture_probe.py:141-185 | a call is compared exactly when it was read, with its payload, or when it failed where chaos is seeded, with the empty payload; and its drifts are those of that comparison |
| `BlessLaw.DeletedExactly` | evals/fixture_drift_ledger.py:1969-2006 | from the replies to the file: blessing a run deletes a recorded key if and only if its pair was compared and never refused, no comparison showed its drift, and its context lets it go: cold-stack only after a last lag reading that is unmeasured, warm-stack only after one that is measured, busy-window never, any other always |
| `BlessLaw.AddedExactly` | evals/fixture_drift_ledger.py:2009-2112 | and adds a key if and only if some comparison showed its drift |
| `BlessLaw.ErrorsInOrder` | evals/fixture_probe.py:150-170 | the errors of a run are its calls that failed where no chaos is seeded, each once per call and in order |
| `BlessLaw.BlessedExactly` | scripts/fixture_drift.py:154-188 | the script writes a ledger if and only if no call was refused, the run has no error, and every pair the caller sets aside was compared |
| `ProbeCoverage.GuardedBlessDropsExactly` | scripts/fixture_drift.py:154-205 | behind the refusal of errored and rate-limited runs, a key leaves exactly when every probed element of its pair was compared, none showed it, it is held and nobody set the pair aside |
| `ProbeCoverage.UnreadElementLosesItsKey` | evals/fixture_probe.py:162-201 | without that refusal, the key of an element that errored is dropped as soon as another element of its pair agrees |
| `ArtifactNames.SecondsFollowFields` | evals/artifacts.py:227-235 | valid UTC fields compare, unit by unit, exactly as the seconds they stand for on the Gregorian calendar |
| `Calendar.DaysInClosedForm` | evals/artifacts.py:227-235 | the days before a year are 365 for each year and one for each fourth, but for the hundredth ones that are not four-hundredth |
| `ArtifactNames.TextOrderIsTimeOrder` | evals/artifacts.py:227-235 | from year 1000 on, stamps compare as text exactly as the instants compare to the second |
| `ArtifactNames.ShortYearsSortWrong` | evals/artifacts.py:227-235 | every instant before year 1000 sorts after the first instant of year 1000 |
| `ArtifactNames.SortsRightFromYear1000` | evals/artifacts.py:227-235 | a stamp sorts before the stamp of every later instant if and only if its year is at least 1000 |
| `ArtifactNames.ParseIsTheInverse` | evals/artifacts.py:308-323 | parsing succeeds on exactly the names of the versioned shape and takes them apart as they were put together, dotted stems included |
| `ArtifactNames.NamesReadBack` | evals/artifacts.py:262-323 | the stem, stamp and invocation id of a version name can be read back exactly when its year is at least 1000 |
| `ArtifactStore.FileStore.MakeDirectories` | evals/artifacts.py:437-463 | creates a directory and its ancestors unless one of them is a file |
| `ArtifactStore.FileStore.WriteVersioned` | evals/artifacts.py:437-463 | a successful write adds one file where nothing was; a refused one leaves every file as it was |
| `ArtifactStore.PathsAreGivenWhere` | evals/artifacts.py:185-296 | a write is given a path if and only if a scenario is named exactly where the family has no stem of its own, it can be a directory where the family needs one, the id is letters, digits, hyphens and underscores and the time has an offset; the refusal is for the first of these that fails |
| `ArtifactStore.ResolveAbsolute` | evals/artifacts.py:281-296 | a name that begins with a slash starts over from the root |
| `ArtifactStore.ResolveUp` | evals/artifacts.py:281-296 | and one that begins with two dots lands a directory up |
| `ArtifactStore.MonthsApart` | evals/artifacts.py:178-182 | two writes of a family grouped by month share a directory if and only if they are of one month of one year |
| `ArtifactStore.FileStore.SearchDirectories` | evals/artifacts.py:344-365 | the container and every directory below it the family's writes may land in, each once |
| `ArtifactStore.FileStore.Versions` | evals/artifacts.py:381-402 | lists exactly the family's files in the searched directories, each once, by stamp, invocation id and path |
| `ArtifactStore.FileStore.Newest` | evals/artifacts.py:405-434 | no version at all, or a listed one that every other listed one sorts before |
| `ArtifactEvidence.NoRunChangesEvidence` | evals/artifacts.py:437-463 | no run of writes removes or changes a file that was there |
| `ArtifactEvidence.OneStem` | evals/artifacts.py:326-341 | a name made for one stem belongs to another stem's family only as that stem's un-versioned name |
| `ArtifactEvidence.FamiliesAreDisjoint` | evals/artifacts.py:326-341 | families of one stem with different suffixes never take each other's versions, nor for their un-versioned name |
| `ArtifactEvidence.WrittenIsListed` | evals/artifacts.py:344-402 | a successful write is listed by its own family's reads, under every grouping, exactly when its stem has no slash and its year has four digits |
| `ArtifactEvidence.SlashedNeverListed` | evals/artifacts.py:185-205 | a stem with a slash is never listed: only families grouped by scenario refuse it at the write |
| `ArtifactEvidence.ListedForGood` | evals/artifacts.py:381-463 | what was listed once stays listed, with its content, through any run of later writes |
| `ArtifactEvidence.SupersededIsListed` | evals/artifacts.py:344-365 | a version moved from its scenario's directory into that scenario's superseded one stays listed |
| `ArtifactEvidence.UnversionedIsListed` | evals/artifacts.py:249-341 | the file a family had before it was versioned is listed where the family is looked for, and sorts before every version |
| `ArtifactEvidence.LaterSortsLater` | evals/artifacts.py:381-402 | of two versions the one stamped later sorts strictly later, whatever their ids and directories |
| `ArtifactEvidence.NewestIsTheLatest` | evals/artifacts.py:405-434 | where any version is listed the newest file is not the un-versioned one, and no listed version is later in time than it |
| `ArtifactRegistry.OnlyItsOwnFamilyLists` | evals/artifacts.py:60-157 | over the whole registry below one root, a family asked for a scenario lists a write if and only if it is its own family's and scenario's, except that a flat family lists it for a scenario whose name is that version's own name |
| `CandidateMetrics.SelectedWasAvailable` | evals/candidate_metrics.py:475-517 | whatever ranks a record carries, selected@k implies pass@k |
| `CandidateMetrics.PassMeans` | evals/candidate_metrics.py:235-265 | pass@k is scored when the last remediating or stopping step (the last step where there is none) has candidates, and is a hit if and only if one of them in the top k is of an expected category |
| `CandidateMetrics.SelectedMeans` | evals/candidate_metrics.py:475-517 | selected@k is scored when that step has candidates and a selection, and is a hit if and only if the decision is to select and the first candidate of the id selected is right in the top k |
| `CandidateMetrics.GapIsAMissedAnswer` | evals/candidate_metrics.py:520-556 | the negative gap is unreachable; a scored gap is 1 exactly when a right candidate was in the top k and was not taken |
| `OracleGap.RowsAreCoherent` | evals/oracle_gap.py:214-242 | every run can be scored at every k, its row holds its own pass@k and selected@k, and the terms satisfy the relations the pooled numbers rest on |
| `OracleGap.WorldTextTellsApart` | evals/oracle_gap.py:214-242 | where no scenario holds an @ and no mode a colon, rows have one world text if and only if they are of one world |
| `OracleGap.GapIsTheDifference` | evals/oracle_gap.py:390-405 | over any runs, gap = pass - selected and 0 <= selected <= pass <= n |
| `OracleGap.HitsGrowWithK` | evals/oracle_gap.py:390-405 | a larger k scores the same runs, and neither passes nor selects fewer of them |
| `OracleGap.PooledIsTheSum` | evals/oracle_gap.py:495-526 | at every k the pooled n, pass, selected and gap are the sums of the per-world rows' |
| `OracleGap.GroupRuns` | evals/oracle_gap.py:497-499 | the dictionary groups hold exactly each world's runs, in order |
| `OracleGap.Summarise` | evals/oracle_gap.py:495-526 | the per-world rows part the runs, come in key order, and sum to the pooled numbers at every k |
| `OracleGap.WorldsAreTheirRuns` | evals/oracle_gap.py:495-526 | a world's runs are those of its scenario and recording, all of them and in order |
| `OracleGapSplits.GapByDecision` | evals/oracle_gap.py:443-453 | each decision once, in order, with its runs; over scored runs the counts sum to the gap |
| `OracleGapSplits.DecisionsSumToTheGap` | evals/oracle_gap.py:443-453 | labels that cover the gap's runs account for the whole gap |
| `OracleGapSplits.PickSplit` | evals/research_report.py:1597-1622 | counts every scored run by what the selector did, and refuses exactly when one has no verdict |
| `OracleGapSplits.EveryRunLandsOnce` | evals/research_report.py:1597-1622 | the ways are exclusive and complete: their counts sum to the scored runs |
| `OracleGapSplits.SplitAgreesWithTheGap` | evals/oracle_gap.py:430-453 | the split is over at_k's runs, its correct picks are selected@k, and each decision's gap runs are among its own |
| `OracleGapSplits.MarginsAreTheMetrics` | evals/oracle_gap.py:456-465 | the four cells part the scored runs and their margins are selected@k and pass@1 |
| `GapInterval.ClusterGaps` | evals/oracle_gap.py:410-415 | one cluster of gaps per world met, in order |
| `GapInterval.GapInterval` | evals/oracle_gap.py:408-427 | none below two worlds; otherwise, for any draws, two order statistics of the resampled rates with 0 <= low <= high <= 1 |
| `GapInterval.EveryWorldOnceIsThePool` | evals/oracle_gap.py:408-427 | clustering loses no run: picking every world once gives the pooled gap rate |
| `GapInterval.DrawnInPlaceIsThePool` | evals/oracle_gap.py:416-422 | a round that draws each world at its own place gives the pooled rate |
| `GapInterval.DrawnAloneIsItsOwn` | evals/oracle_gap.py:416-422 | a round that draws one world throughout gives that world's own rate |
| `GapInterval.QuantileRanks` | evals/oracle_gap.py:423-427 | of two thousand rates the bounds are the fifty-first smallest and the fiftieth largest |
| `GapInterval.RoundIsNear` | evals/oracle_gap.py:423-427 | a bound is a whole number of ten-thousandths within half of one of its rate |
| `TraceExport.ReadTraceFile` | evals/export.py:449-495 | succeeds exactly when every line is a record with an invocation id and no invocation names two scenarios, and then returns one attempt per id in order |
| `TraceExport.RecordsInOrder` | evals/export.py:449-495 | the records read are those of the lines that hold one, all of them and in order |
| `TraceExport.AttemptInOrder` | evals/export.py:449-495 | an attempt's records are those that carry its id, all of them and in order |
| `TraceExport.AttemptsAreSeparated` | evals/export.py:449-495 | reading loses no record and mixes no two attempts, and an attempt's scenario is the one its records name, or the one its file is named for where none does |
| `TraceExport.ReadableMeans` | evals/export.py:449-495 | a file can be read if and only if its lines are blank or records, every record names its attempt, and the records of one attempt that name a scenario name one |
| `TraceExport.RehearsalIs` | evals/export.py:910-912 | an attempt is a rehearsal if and only if its first start record says so |
| `Exporter.Actions` | evals/export.py:621-648 | one action and one observation per traced call, in order, each action bound to its own |
| `Exporter.RenderTrajectory` | evals/export.py:651-684 | a trajectory carries its attempt's decisions and calls under its scenario's benchmark keys, and counts them |
| `Exporter.TrajectoryFollowsTrace` | evals/export.py:600-684 | a trajectory is its trace: every call of the attempt, in order and none left out, as the action and the observation made of it; every decision likewise; the final state of the last end record; and complete exactly when it has a start and an end |
| `Exporter.BuildExport` | evals/export.py:810-907 | succeeds exactly when every file is readable, every attempt's scenario known and no emitted attempt held out; and then renders exactly those attempts, in order |
| `DatasetChecks.ObservationsById` | evals/dataset_checks.py:414-428 | maps exactly the ids that name one observation, each to that one |
| `DatasetChecks.CheckManifest` | evals/dataset_checks.py:1189-1285 | silent exactly when every claim of the manifest is true of the two files |
| `DatasetChecks.CheckActionResults` | evals/dataset_checks.py:986-1048 | without audit windows, silent exactly when every resolved action carries its own call's tool and verdict and the counts are true |
| `DatasetChecks.CheckMissingResults` | evals/dataset_checks.py:441-509 | silent exactly when every observation is identified, holds something and is some action's, and every action's result is there |
| `DatasetChecks.CheckHoldout` | evals/dataset_checks.py:1111-1186 | silent exactly when no line, template or recorded set disagrees with what the whole corpus holds out |
| `ExportAccepted.ManifestAccepted` | evals/export.py:810-907 | whatever build_export emits, the independent manifest check finds nothing |
| `ExportAccepted.ActionsAccepted` | evals/export.py:621-648 | and the action check without audit windows finds nothing |
| `ExportAccepted.MissingExactly` | evals/dataset_checks.py:441-509 | an exported line has all its results exactly when its trace gave every call its own id and a recorded content |
| `ExportAccepted.HoldoutAcceptedExactly` | evals/dataset_checks.py:1111-1186 | the independent holdout check accepts an export if and only if every held-out template is still held out by a scenario that is the last of its name; distinct names are enough |
| `ExportAccepted.NothingRefusedIsEmitted` | evals/export.py:785-807 | no emitted line is of a scenario or template the refusal knows to be held out |
| `ExportAccepted.ExportableMeans` | evals/export.py:776-907 | over readable files an export succeeds if and only if the corpus knows every attempt's scenario and, for each attempt it would emit, the last scenario of that name is not held out and shares no template with one that is |
| `ExportAccepted.ManifestSays` | evals/export.py:810-907 | the manifest counts the lines and the complete ones, lists exactly the templates, scenarios and splits they carry and the templates the corpus holds out, and digests the two files |
| `ExportAccepted.LinesAscend` | evals/export.py:810-907 | lines come by scenario and then by invocation id, as texts |
| `ExportAccepted.LinesAreNamedApart` | evals/export.py:651-684 | where no scenario's name holds a colon, two lines share an id only when they are of one attempt |
| `ExportAccepted.LabelsAreTheLines` | evals/export.py:738-773 | the labels at a place are those of the line at that place: its id, scenario, template and split |
| `ExportAccepted.ManifestAgreesMeans` | evals/dataset_checks.py:1189-1285 | what the manifest check is silent about, claim by claim: digests, counts, listings as multisets, ids on both sides and one schema version |
| `ExportAccepted.HoldoutCleanMeans` | evals/dataset_checks.py:1111-1186 | what the holdout check is silent about, in the corpus's own terms: no line held out by its split, template or scenario, no listed template held out, and the held-out templates listed |
| `ExportAccepted.AttemptsAreAccountedFor` | evals/export.py:810-907 | invocations read = trajectories + refused rehearsals |

## Left out

- HTTP, JSON-RPC, subprocesses, argument parsing, printing and Markdown: the platform is a log, a function of the
  call, or a function of the request number; an unparseable answer is one failed reply.
- SHA-256 and canonical JSON: any functions from text to text. A result that needs them to tell calls apart asks it of
  the calls at hand only, and no list of calls makes that impossible (`Recorder.EveryListCanBeToldApart`).
- Recorder.WireProbesSettles: that wiring a wired argument changes nothing is asked of the probes given; argument
  schemas are not modelled.
- `IsRandomUuid`: the other spellings `uuid.UUID` reads (`urn:uuid:`, braces, and the digits `int(_, 16)` accepts) are
  not taken for random ids.
- Recorder.MergeProbes: arguments `True` and `1`, one key to a Python dictionary, are two calls.
- JSON and ISO 8601 text: payloads are a datatype, numbers are reals (1 and 1.0 are one number), clocks are integers,
  and the JSONL of an export reads back as the records it rendered.
- Floating point: rates are exact reals and rounding to four places sends ties up.
- Prose of findings, reasons and drift descriptions: a finding is its check and the record it names, a drift its path
  and kind; the values it quotes and the order of drift text are not modelled.
- Dotted paths as strings: a path is a sequence of keys, so a key that itself holds a dot or `[]` is not confused with
  two.
- Datetimes with another offset than UTC, and years below 1000 on platforms that pad them: an aware datetime is its
  UTC fields, and `%Y` is unpadded, as the C library of Linux prints it.
- `\d` of the stamp pattern also accepts digits of other scripts; only ASCII digits are modelled.
- Symbolic links, permissions and concurrent writers of the artifact store; a path is resolved by its names alone.
- The literal tables of volatile, free-text and honest-movement fields, and of justified drifts: any policy and any
  table.
- AuditWindow.AuditWindowScan.Violations: the order among rows with equal `created_at` is not stated.
- Rebase.ShiftAtIsMotion: the shift is a function from payload to payload; updating the parsed payload in place, and
  aliasing inside it, are not captured.
- Recorder.RecordCalls: the session-time fields are a function of the position in the session; clocks are not
  modelled.
- `observed_pair`'s notes: the rows set aside are reported, not the sentences about them.
- Exporter.BuildExport: trace files are given in path order; rewards, labels' contents beyond their keys, source
  digests, stamps and file names of the manifest are not modelled (the names are the store's).
- The checks for leaked truth, drifted scenarios, duplicates, incomplete trajectories and rewards, and the
  audit-window half of `check_action_results`: each follows one field at a time.
- `pass_at_k`'s siblings (duplicate and rejection rates, first appearance), per-run rows and agreement of repeats:
  counts over one list.
- Phase-close, acceptance, baseline and inventory reports, fakes and preconditions: assembly of facts decided
  elsewhere.
