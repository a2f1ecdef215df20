# Verification of the engine's hidden algorithms

This project models six pieces of logic that the TypeScript engine hides behind database calls,
and proves what each promises. `dafny verify dfyconfig.toml` checks everything.

- **Order keys** (`src/order-keys.ts`, used by `src/sequences.ts`). Keys are digit strings whose
  first digit encodes the length of an integer part. The project proves that key order embeds the
  integers, that a key fits strictly between any two keys, that re-keying a list changes as few
  stored keys as any increasing assignment can, and that moving a track reads back as the list
  with the track at the asked ordinal. Modules: `Lexicographic`, `OrderIntegers`, `OrderKeys`,
  `OrderKeyText`, `LongestIncreasing`, `KeptRows`, `Reconcile`, `TrackOrder`, `TrackTable`.
- **Media time** (`src/mvp-time.ts`). Canonical rationals and rounded conversions between ticks
  and frames. Module: `MediaTime`.
- **Timeline edits** (`src/edits.ts`). Thirteen operations on a sequence of clips. `Edits` holds
  them as functions from one timeline to the next, `EditSession` holds the class that runs them
  step by step and is proved to compute those functions. `Slices` bounds the rounding of nested
  cuts, `RangeRemoval` and `EditMeaning` say what edits do to the frames shown, `EditLaws` what one
  edit undoes, `EditSafety` and `EditIds` what every batch keeps. `EditAnswers` says exactly when
  each operation is accepted, `EditFrames` what it leaves alone, `EditLocks` what a locked track is
  spared, `EditChecks` what a whole intent reports. `RemovalChecks` says when a removal survives the
  final check, `EditKeeps` when an edit keeps what is checked only once, and `EditDrift` how much
  rounding a whole batch adds up.
- **Catalog merge** (`src/fork.ts`, `src/merge-policy.ts`). `RowMerge` is the three-way merge of
  one row and its algebra, `CatalogMerge` the loops over tables and keys, `MergeLaws` the laws of
  whole catalogs, `MergeMeaning` rows and conflicts said of the three rows alone, `MergePolicy` the
  reconcile of singleton flags.
- **Job queue** (`src/job-queue.ts`). `Jobs` holds the transactions as functions, `JobQueue` the
  class, `JobRuns` the theorems over every interleaving, `JobOutcomes` what every row and view says,
  told from the history.
- **Notebook grid** (`src/domain.ts`, `src/notebook-grid.ts`). Cells that share slots are kept or
  moved. `Grid` holds the repair and its laws, `GridPriority` who stays and where the others go.

Conventions. Integers are unbounded. A thrown fault is an `Err` or a `Some(fault)`. A table is a
map or a sequence of rows, one transaction is one step. Ids that are only compared as texts
(tracks, transcripts, sequences, cells) are numbered in text order. The answer of a query that
the original sorts in SQL is a parameter, with a precondition that says which answer it is; for
tracks `TrackOrder.ReadOrderIsUnique` shows that there is only one. Generated ids are values
derived injectively from another id and a label. Where the original throws after having changed
its working copy, the copy is discarded, so a method's contract leaves the state open after a
fault; where a transaction is rolled back, the contract says that nothing changed.

Some limits of the code are stated exactly. A row is refused a key when, and only when, it would
have to go below the least key (`OrderKeys.OrderKeyBetweenCorrect`, `Reconcile.ReconcileOrderKeys`,
`TrackTable.SequenceTracks.MoveTrack`). And although a split preserves total coverage, nested cuts
drift: after d cuts a frame may show a tick d too early but never more, and
`Slices.DriftIsReached` gives such cuts for every d. A cut can leave a piece without ticks, which
the final check then refuses (`RemovalChecks.RemovalPassesIff`); it does not look at fades that a
trim has outgrown or at transitions whose clips have parted (`EditKeeps.FadesKeptIff`,
`EditKeeps.JoinsKeptIff`). And marking a job as completing asks for no fence, so a worker that lost
its job can stop the heartbeat of the next one (`JobRuns.OnlyTheHolderCounts`, `JobRuns.StaleMark`);
a job enqueued as running has no lease, so it is never reaped before its first heartbeat
(`JobRuns.ReapedOnceLeaseEnds`). A lock does not keep a transform from the clips of a track, nor a cue
from being put on another track (`EditLocks.LockedTrackKeptIff`).

## Model

| member | source | states |
|---|---|---|
| OrderIntegers.PrefixFree | src/order-keys.ts:22-32 | no integer part is a proper prefix of another one's text |
| OrderIntegers.ValueOrder | src/order-keys.ts:22-32 | integer parts are ordered as the integers they stand for, across head lengths, and equal only if these are |
| OrderIntegers.ValueDecides | src/order-keys.ts:22-32 | two keys with different integer parts are ordered by them whatever follows |
| OrderIntegers.IncrementIsSuccessor | src/order-keys.ts:49-67 | incrementing is adding one to the integer, and is refused only at the greatest one |
| OrderIntegers.IncrementInteger | src/order-keys.ts:49-67 | the carry loop over the digit array computes the successor function |
| OrderIntegers.DecrementIsPredecessor | src/order-keys.ts:69-87 | decrementing is taking one from the integer, and is refused only at the least one |
| OrderIntegers.DecrementInteger | src/order-keys.ts:69-87 | the borrow loop over the digit array computes the predecessor function |
| OrderIntegers.IncrementDecrementInverse | src/order-keys.ts:49-87 | each undoes the other wherever it answers |
| OrderKeyText.KeyTexts | src/order-keys.ts:34-43 | the texts accepted as keys are exactly the texts of valid digit keys |
| OrderKeyText.TextRoundTrip | src/order-keys.ts:17-20 | texts over the alphabet and digit strings correspond one to one |
| OrderKeyText.TextOrder | src/order-keys.ts:5-9 | comparing texts by code is comparing keys, as the binary collation does |
| OrderKeys.KeyOrder | src/order-keys.ts:29-43 | keys compare by the value of their integer part, then by their fraction |
| OrderKeys.MidpointAbove | src/order-keys.ts:93-99 | without an upper bound the recursive midpoint is always a usable fraction above the lower bound |
| OrderKeys.MidpointBetween | src/order-keys.ts:93-108 | between two fractions in order it always finds a usable one strictly between |
| OrderKeys.DigitsAbove | src/order-keys.ts:93-99 | without an upper bound the first digit that can grow grows by one, or a middle digit is added |
| OrderKeys.DigitsBetween | src/order-keys.ts:93-108 | between two fractions the first digits that differ decide: the middle one rounded up, or the lower one and a fraction above what follows |
| OrderKeys.OrderKeyBetweenCorrect | src/order-keys.ts:110-144 | for all valid bounds the answer is a valid key strictly between, and the only refusal is to go below the least key |
| OrderKeys.RefusalsMean | src/order-keys.ts:110-122 | each refusal has its own exact condition: an invalid bound before, one after, bounds out of order, no room |
| OrderKeys.WholeWhenPossible | src/order-keys.ts:110-144 | the answer is a whole number, the one next to a bound, exactly when a whole number lies between the bounds, the least integer alone being missed; else the integer part of a bound is kept |
| OrderKeys.SmallestIsLeast | src/order-keys.ts:123-129 | "A" with 26 zeros is a key and no key is below it |
| OrderKeys.InitialOrderKeys | src/order-keys.ts:151-161 | fresh keys are valid and strictly increasing, and are the integers 0, 1, 2, ... while there are any |
| LongestIncreasing.LongestIsLongest | src/order-keys.ts:222-251 | the chosen indices form a strictly increasing subsequence and no longer one exists |
| LongestIncreasing.FirstTailNotBelow | src/order-keys.ts:227-236 | the binary search finds the first tail that is not below the element |
| LongestIncreasing.LongestIncreasingSubsequence | src/order-keys.ts:222-243 | the loop over tails and previous indices computes that subsequence for every input |
| LongestIncreasing.WalkBack | src/order-keys.ts:244-250 | the walk along previous indices terminates and collects the chain |
| KeptRows.GroupRanksOrder | src/order-keys.ts:182-189 | ranks of stored keys order survivors as the keys do, equal keys sharing a rank |
| KeptRows.KeptKeysIncrease | src/order-keys.ts:182-191 | stored keys of the kept rows are strictly increasing in desired order |
| KeptRows.KeptInOrder | src/order-keys.ts:190-192 | the kept rows filtered from the key-sorted list come in desired order |
| KeptRows.NoAssignmentKeepsMore | src/order-keys.ts:163-171 | no strictly increasing assignment of keys leaves more stored keys unchanged than there are kept rows |
| Reconcile.ReconcileOrderKeys | src/order-keys.ts:172-220 | for distinct ids with valid stored keys, duplicates allowed: valid, strictly increasing keys in desired order, kept rows unchanged, new keys between their neighbours, as many unchanged as possible; refused iff a row must go below the least key |
| Reconcile.AssignKeys | src/order-keys.ts:193-219 | the assigning loop keeps and mints exactly those keys |
| Reconcile.NextKeptKey | src/order-keys.ts:206-213 | the search for the next kept key finds the first one above the previous key |
| Reconcile.KeepsMost | src/order-keys.ts:163-171 | what the loop assigns leaves at least as many keys unchanged as any increasing assignment |
| Reconcile.NoLeastKeyNoRefusal | src/order-keys.ts:123-129 | as long as no row has the least key stored, re-keying is never refused |
| Reconcile.RefusedInFront | src/order-keys.ts:172-220 | a new row wanted in front of one stored with the least key is refused |
| TrackOrder.ReadOrderIsUnique | src/sequences.ts:244-254 | the listing by key and id has exactly one answer |
| TrackOrder.MovedMeans | src/sequences.ts:277-289 | the moved track stands at the ordinal asked for or at the nearer end, the others in their order |
| TrackOrder.KeySetSize | src/sequences.ts:262-266 | there are fewer different keys than siblings exactly when two share one |
| TrackOrder.FrontIsKept | src/sequences.ts:261-276 | a reconcile of the read order keeps the first row's key unless two rows share it |
| TrackTable.RepairKeys | src/sequences.ts:261-276 | the siblings end with valid keys strictly increasing in read order, and with their own when no two share one; no keys that increase along the listing change fewer; refused iff the front is exhausted |
| TrackTable.CollectRepairs | src/sequences.ts:270-275 | exactly the keys that differ are collected for writing |
| TrackTable.TargetKeyFits | src/sequences.ts:284-289 | the key taken at the target ordinal lies strictly between its new neighbours |
| TrackTable.PlanIsRight | src/sequences.ts:277-289 | the planned keys put the track where it was asked for, and planning fails exactly when the front is exhausted |
| TrackTable.IncreasingReads | src/sequences.ts:304-312 | keys that increase along a listing make it the answer of the query |
| TrackTable.SequenceTracks.MoveTrack | src/sequences.ts:233-319 | afterwards the siblings read as before with the track at the clamped ordinal and nothing but their keys changed, duplicates included; when no two siblings share a key only the track's own row changes, and none when it is already there; otherwise no more others change than under any keys that increase along the listing; refused iff the track is unknown or the front is exhausted, and then nothing changes |
| TrackTable.SequenceTracks.AddTrack | src/sequences.ts:177-231 | a new track reads last among its siblings with a valid key, and every other row is unchanged |
| TrackTable.SequenceTracks.WriteKeys | src/sequences.ts:304-312 | the writes change exactly the repaired keys and the track's own |
| MediaTime.GreatestCommonDivisor | src/mvp-time.ts:212-221 | the loop computes the recursive divisor |
| MediaTime.GcdDivides | src/mvp-time.ts:212-221 | it divides both numbers |
| MediaTime.GcdIsGreatest | src/mvp-time.ts:212-221 | every common divisor divides it |
| MediaTime.NormalForm | src/mvp-time.ts:53-61 | the normalized form is positive, has no common factor and stands for the same ratio |
| MediaTime.RationalEqualsIsCrossMultiplication | src/mvp-time.ts:63-68 | two rationals are equal exactly when the cross products are |
| MediaTime.RationalEqualsMeans | src/mvp-time.ts:63-68 | rationals that are not both positive are refused, others compare by cross products |
| MediaTime.RoundedRatio | src/mvp-time.ts:223-238 | the adjusted quotient is the rounded ratio in each mode |
| MediaTime.RoundedMeaning | src/mvp-time.ts:223-238 | floor, ceil and nearest are the only integers in their windows around the ratio |
| MediaTime.NearestError | src/mvp-time.ts:223-238 | nearest errs by at most one half |
| MediaTime.ConversionIgnoresNormalForm | src/mvp-time.ts:144-180 | normalizing time base and frame rate changes no conversion |
| MediaTime.ConversionMeans | src/mvp-time.ts:144-180 | a conversion answers a count exactly when it is the quotient of the durations rounded in the mode asked for; negative counts and ratios that are not positive are refused |
| MediaTime.ConversionsMonotone | src/mvp-time.ts:144-180 | both conversions are monotone in every mode |
| MediaTime.FrameTickGalois | src/mvp-time.ts:144-180 | frames to ticks with ceil and ticks to frames with floor form a Galois connection |
| MediaTime.FrameRoundTrips | src/mvp-time.ts:144-180 | nearest-nearest, ceil-floor and floor-ceil trips return every frame exactly when a frame lasts at least one tick |
| Slices.SliceDriftsByOne | src/edits.ts:1140-1172 | a frame of a slice shows its former tick or the one before |
| Slices.DriftIsBounded | src/edits.ts:1140-1172 | after d nested cuts a frame shows at most its original tick and at most d less |
| Slices.DriftIsReached | src/edits.ts:1140-1172 | for every d there are d cuts after which some frame is exactly d ticks early |
| Slices.SplitIsTwoSlices | src/edits.ts:634-682 | the two ranges of a split are the slices up to and from the split frame |
| Slices.SplitsTile | src/edits.ts:634-685 | the leaves of any tree of splits tile the original ticks and frames |
| Slices.SplitsDrift | src/edits.ts:634-685 | in any tree of splits a frame's tick is at most the original and at most its leaf's depth below it |
| RangeRemoval.AfterRemoval | src/edits.ts:516-551 | the clips after removing a range from a track are exactly what becomes of each clip |
| RangeRemoval.FramesAfterRemoval | src/edits.ts:516-551 | frame k of an original clip is shown at f exactly when f is where the removal puts it, overlapping clips included, with floor ticks at the cuts |
| RangeRemoval.NothingElse | src/edits.ts:516-551 | every clip left on the track traces to an original one, and other tracks keep their clips |
| RangeRemoval.CuesAfterRemoval | src/edits.ts:545-549 | cues of the track behind a closed gap move with it, others stay |
| RangeRemoval.TransitionsAfterRemoval | src/edits.ts:1185-1192 | a transition goes exactly when the range touches a clip it joins |
| EditMeaning.GenerationsDrift | src/edits.ts:1140-1172 | n generations of cut clips show each frame at most n ticks early and never late |
| EditDrift.RunDrifts | src/edits.ts:79-97 | after any run every timed clip is followed back, step by step, to a clip there before the run or to the step that placed or last trimmed it, and shows that one's media, each frame never late and at most one tick early for every step that cut it on the way |
| EditDrift.StepOrigin | src/edits.ts:397-462 | every clip after an operation is one the operation begins, or is made from one clip before it, whole or by a cut |
| EditMeaning.RemoveRangeMeans | src/edits.ts:502-551 | over all named tracks every frame goes where the removal sends it; clips of other tracks stay |
| EditMeaning.AfterRemovals | src/edits.ts:502-514 | the clips left after removing a range from several tracks are exactly what becomes of each clip |
| EditMeaning.SplitMeans | src/edits.ts:601-686 | a split replaces a clip by two that meet at the split frame, show its frames and ticks without gap, each at least one tick, and leaves the rest |
| EditMeaning.SplitWarns | src/edits.ts:663-670 | the rounding warning is given exactly when the split falls between two ticks |
| EditAnswers.SplitAnswers | src/edits.ts:601-670 | a split is accepted exactly inside a clip of an unlocked track, for two ids no other clip has, with ticks on both sides; a fault tells a true reason |
| EditAnswers.SplitParts | src/edits.ts:615-685 | the first part carries the given left id or the one derived for the left, the second the right one; the other clips come before them in their order |
| EditMeaning.TransformMeans | src/edits.ts:441-445 | a transform is accepted exactly for an existing clip and values in range, locked track or not, and only the clip's transform changes |
| EditMeaning.AudioMeans | src/edits.ts:713-738 | audio settings are accepted exactly for a clip of an unlocked track that carries media, when the fades are no longer than the clip; only they change |
| EditMeaning.SpeedMeans | src/edits.ts:740-768 | a speed is accepted exactly for a timed clip of an unlocked track when it is positive; the stored ratio is the one asked for in lowest terms, and the pitch warning is given exactly when pitch is to be preserved at a speed other than one |
| EditMeaning.LastSettingCounts | src/edits.ts:713-738 | of two settings of a kind the second alone counts, acceptance included |
| EditMeaning.OverwriteMeans | src/edits.ts:480-499 | overwriting drops exactly the clips of the track that the new one meets |
| EditMeaning.InsertMeans | src/edits.ts:480-499 | inserting opens a gap of the clip's length at its start, and no clip lies across that start |
| EditMeaning.RemoveOneMeans | src/edits.ts:416-428 | a rippling removal moves exactly the clips behind it on its track up by its length |
| EditAnswers.SourceAnswers | src/edits.ts:942-983 | a timed source is accepted exactly for a range of a known stream that is still what the range says; a fault tells a true reason |
| EditAnswers.PlacementAnswers | src/edits.ts:875-940 | a placement is accepted exactly when its values are in order and it fits the kind and sequence of its track; a fault tells a true reason |
| EditAnswers.PlacedClip | src/edits.ts:1093-1138 | a clip made of a placement gives it back with the defaults filled in, and a clip made of the placement of a clip is that clip, enabled and unlinked |
| EditAnswers.InsertAnswers | src/edits.ts:464-500 | an insertion is accepted exactly for a new id, an unlocked track, a placement that fits it and, to open a gap, no clip across its start; a fault tells a true reason |
| EditAnswers.RestoreAnswers | src/edits.ts:688-711 | a restore asks for the edit it undoes and then overwrites under a derived id |
| EditAnswers.RemoveOneAnswers | src/edits.ts:416-428 | a removal is refused exactly for a locked track |
| EditAnswers.MoveAnswers | src/edits.ts:553-570 | a move is accepted exactly between unlocked tracks of one kind, to a start that is not negative, where there is room; only the track and start of the clip change |
| EditAnswers.TrimAnswers | src/edits.ts:572-599 | a trim is accepted exactly on an unlocked track, for a positive length with room and a range that fits; only start, length and source of the clip change, as stated |
| EditAnswers.TransformAnswers | src/edits.ts:441-445 | a transform is put on any clip when its values are in order, and changes nothing else |
| EditAnswers.AudioAnswers | src/edits.ts:713-738 | audio settings are accepted exactly when track, values and fades allow; only they change |
| EditAnswers.SpeedAnswers | src/edits.ts:740-768 | a speed is accepted exactly for a timed clip of an unlocked track when it is positive; a fault tells a true reason |
| EditAnswers.TransitionAnswers | src/edits.ts:770-812 | a transition is set exactly for two clips of one unlocked video track that it fits; the transitions left are those there were, but of this pair only the one that was set, and nothing else changes |
| EditAnswers.CaptionAnswers | src/edits.ts:814-846 | a cue is accepted exactly on an unlocked caption track with values in order and a known transcript; a fault tells a true reason |
| EditAnswers.RangeAnswers | src/edits.ts:502-514 | a range is removed exactly when it is one of this sequence and every named track is there and unlocked; a fault tells a true reason |
| EditAnswers.BatchAnswers | src/edits.ts:848-873 | a batch is accepted exactly when its range can be removed and each placement names an unlocked track that it fits |
| EditFrames.FrameOfOperation | src/edits.ts:397-462 | for each of the thirteen operations: sequence and tracks stay; captions are the same list but for a cue that is put and for cues a closed gap moves; the transitions left are those that join no clip the operation took away, in their order, but for the one that is set |
| EditLocks.LockedTrackKeptIff | src/edits.ts:1216-1226 | an accepted operation leaves clips, cues and transitions of a locked track as they are, except a transform of one of its clips and the upsert of a cue it holds, and these exactly |
| EditLocks.LockedCueIsTaken | src/edits.ts:814-846 | put again on an open track, a cue is taken off a locked one |
| EditLocks.LockedClipIsTransformed | src/edits.ts:441-445 | a clip of a locked track is transformed |
| EditLaws.MoveBack | src/edits.ts:553-570 | moving a moved clip back is never refused for an overlap and restores the timeline |
| EditLaws.TimedSourceMeans | src/edits.ts:942-983 | a timed source is accepted exactly when its range lies in a known stream with the same artifact, object and time base ratio, and the object is available |
| EditLaws.TrimTwice | src/edits.ts:572-599 | the same trim again changes nothing |
| EditLaws.InsertThenRemove | src/edits.ts:416-500 | removing an inserted clip with a ripple undoes the insertion exactly |
| EditLaws.RangeIsEmptied | src/edits.ts:516-551 | after a removal without ripple no clip of the track meets the range |
| EditLaws.RemoveTwice | src/edits.ts:516-551 | removing the same range again changes nothing |
| EditLaws.CaptionMeans | src/edits.ts:842-845 | after an upsert the cue is the only one with its id and other cues are as before |
| EditLaws.CaptionTwice | src/edits.ts:842-845 | putting a cue twice is putting it once |
| EditLaws.TransitionMeans | src/edits.ts:770-812 | a transition that was set is the only one of its pair, joins clips of its track that meet, and is no longer than either |
| EditLaws.TransitionCleared | src/edits.ts:783-788 | clearing a transition just set leaves the others as they were |
| EditSafety.ApplyGood | src/edits.ts:397-462 | every operation keeps ids distinct, clips of non-audio tracks apart, starts non-negative and transitions between existing clips |
| EditSafety.RunGood | src/edits.ts:92-94 | so does every batch that does not fault, without the final check |
| EditSafety.NoTwoClipsShareAFrame | src/edits.ts:1069-1091 | in such a timeline no two clips of a non-audio track show the same frame |
| EditSafety.FinalCheckAgrees | src/edits.ts:1022-1067 | the final check can then find no duplicate id, no overlap and no transition of a missing clip |
| EditSafety.CheckedIsGoodAgain | src/edits.ts:1022-1067 | a projection that passes the final check satisfies the invariant, so the next intent starts from it |
| EditChecks.ProjectionAnswers | src/edits.ts:1022-1067 | the final check passes exactly when clips have distinct ids and fit their tracks, transitions lie on the tracks of their clips and cues on caption tracks; else it tells a reason of the first clip, transition or cue that is wrong, in this order |
| EditChecks.IntentAccepted | src/edits.ts:79-97 | an intent is accepted exactly when every operation is and what they leave is in order |
| EditChecks.FirstFailureDecides | src/edits.ts:79-97 | the first operation that fails decides the fault |
| EditChecks.RunWarns | src/edits.ts:79-97 | the warnings of a run are those of its operations, one after the other |
| EditChecks.OperationWarns | src/edits.ts:601-768 | only splits and speeds warn, each once, of its own kind and under the id of its operation |
| RemovalChecks.GoodPassesIff | src/edits.ts:1022-1067 | for a timeline with the invariant the final check decides nothing but each clip on its own and the tracks of transitions and cues |
| RemovalChecks.RemovalPassesIff | src/edits.ts:79-97 | from a checked timeline, an intent that removes one range is accepted exactly when range and tracks are in order and every piece of a timed clip keeps at least one tick |
| RemovalChecks.CutCanBeEmpty | src/edits.ts:1140-1172 | two ticks over ten frames, cut from frame 1 to 5, leave a left piece without ticks, so the condition can fail |
| EditKeeps.AfterPlacements | src/edits.ts:848-873 | the placements of a batch leave the clips none of them covers and each placed clip no later one covers |
| EditKeeps.FadesKeptIff | src/edits.ts:730-736 | for every operation, exactly when it leaves the fades of all clips no longer than the clips, said of its input |
| EditKeeps.TrimOutlivesFades | src/edits.ts:572-599 | a clip of ten frames with fades of five and five can be trimmed to one frame, and the final check accepts it |
| EditKeeps.JoinsKeptIff | src/edits.ts:770-812 | for every operation, exactly when it leaves the clips of every transition adjoining and long enough (and no transition on an audio track, where none can be set): an insertion where two meet, a move or a trim of a joined clip part them, nothing else does |
| EditKeeps.MovePartsJoined | src/edits.ts:553-570 | a clip joined by a transition can be moved away, and the final check accepts the transition over the gap |
| EditIds.RunUnrelated | src/edits.ts:1150 | if the ids a batch brings along have roots of their own, every id generated for a slice is new when it is generated |
| EditIds.BatchKeepsGood | src/edits.ts:92-94 | for such a batch the invariant holds after every run that does not fault |
| EditSession.Sequence.RemoveRangeFromTrack | src/edits.ts:516-551 | the loop over clips and the loops that close the gap compute the removal |
| EditSession.Sequence.ApplyRemoveRange | src/edits.ts:502-514 | range check and tracks in order; the first fault ends it |
| EditSession.Sequence.ApplyInsert | src/edits.ts:464-500 | checks, removal or shifting, and the new clip, as the insert function says |
| EditSession.Sequence.ApplyRemoveOne | src/edits.ts:416-428 | the remove-clip operation with its ripple |
| EditSession.Sequence.ApplyMove | src/edits.ts:553-570 | the move operation and its overlap check |
| EditSession.Sequence.ApplyTrim | src/edits.ts:572-599 | the trim operation, its source range and its overlap check |
| EditSession.Sequence.ApplySplit | src/edits.ts:601-686 | the split operation, its refusals and its warning |
| EditSession.Sequence.ApplyTransition | src/edits.ts:770-812 | a transition replaces the one of its clip pair, or removes it |
| EditSession.Sequence.ApplyCaption | src/edits.ts:814-846 | a cue replaces the one with its id |
| EditSession.Sequence.ApplyBatchReplace | src/edits.ts:848-873 | the removal, then every placement in order |
| EditSession.Sequence.ApplyOperation | src/edits.ts:397-462 | each operation, restore included, changes the state and warnings as its function says |
| EditSession.Sequence.ValidateClips | src/edits.ts:1022-1043 | the first fault among the clips of the projection is reported |
| EditSession.Project | src/edits.ts:79-97 | an intent is run on a copy, the first fault is its result, and the final check comes last |
| RowMerge.RowsEqualIsCanon | src/fork.ts:700-719 | rows compare equal exactly when their visible columns agree |
| RowMerge.ResolvedIsOneOfThem | src/fork.ts:585-603 | an object row resolved from two is, as far as comparing can see, the one with the earlier stamp |
| RowMerge.MergeRowIsCombine | src/fork.ts:488-537 | the branches for one key compute the row algebra, conflicts included |
| RowMerge.KeepMeansUnchanged | src/fork.ts:488-537 | a row is written or deleted exactly when that changes it visibly |
| MergeMeaning.HexRead | src/fork.ts:700-705 | bytes are compared as their lower-case hexadecimal digits |
| MergeMeaning.ValuesCompare | src/fork.ts:700-705 | two values compare equal exactly when they are, or when one is the tagged text of the other's bytes |
| RowMerge.CombineCommutes | src/fork.ts:577-584 | ours and theirs can change sides |
| RowMerge.CombineSwaps | src/fork.ts:470-539 | two merges in a row can be exchanged, conflicts included |
| RowMerge.CombineAbsorbs | src/fork.ts:470-539 | merging a change again changes nothing |
| CatalogMerge.MergeTable | src/fork.ts:476-538 | the key loop computes merged rows, conflicts, write set and changed flag of one table |
| CatalogMerge.MergeRefs | src/fork.ts:456-575 | the table loop refuses with all conflicts, or reports nothing to do, or gives the merged catalog and its write set |
| CatalogMerge.MergedRowAt | src/fork.ts:476-538 | every key of the merged catalog holds the outcome for that key, unvisited keys holding ours |
| MergeLaws.RefusedMeansClash | src/fork.ts:540-553 | a merge is refused exactly when some row conflicts |
| MergeMeaning.ConflictsMean | src/fork.ts:488-553 | the conflicts of a refused merge are exactly those that the three rows of some key justify, each reason said of the rows alone |
| MergeMeaning.CatalogMeans | src/fork.ts:488-537 | every merged row is, as stored, ours, theirs, or ours with the earlier stamp, by which of the three rows look alike |
| MergeLaws.NothingToDoMeansEqual | src/fork.ts:554 | no change is reported exactly when the merged rows look like ours |
| MergeLaws.WriteSetIsExact | src/fork.ts:476-515 | the write set is the union of the resources of the rows that differ from ours |
| MergeLaws.MergedAgain | src/fork.ts:436-455 | merging the same fork again finds no conflict and nothing to do |
| MergeLaws.FoldPermutes | src/fork.ts:470-539 | the fold of a row over forks does not depend on their order |
| MergeLaws.MergeAllFolds | src/fork.ts:470-539 | merging forks one after the other is folding every row, refused when some row's fold is |
| MergeLaws.OrderOfForksIsIrrelevant | src/fork.ts:470-539 | every permutation of ours and the forks is refused, or all end with the same rows |
| MergeLaws.EarliestIsLeast | src/fork.ts:577-584 | the earliest stamp is one of the stamps and none is earlier |
| MergeLaws.ForgottenStaysForgotten | src/fork.ts:577-603 | an object live in the base and forgotten on any side ends forgotten with the earliest stamp |
| MergePolicy.ReconcileTable | src/merge-policy.ts:111-182 | demoting group after group gives the reconciled table, whatever the order of the groups, and counts the demoted rows |
| MergePolicy.FlaggedTables.ReconcileSingletonFlags | src/merge-policy.ts:111-182 | both tables are reconciled, newest transcript and oldest sequence first; a missing table counts nothing |
| MergePolicy.FlaggedTables.VerifyConstraintHealth | src/merge-policy.ts:189-229 | healthy exactly when no foreign key is violated and in neither table two different flagged rows share a group |
| MergePolicy.DuplicatedMeans | src/merge-policy.ts:191-213 | counting flagged rows per group finds none above one exactly when no two different flagged rows share a group |
| MergePolicy.OneIsLeft | src/merge-policy.ts:107-110 | every group that had flagged rows keeps exactly one, the first in its order |
| MergePolicy.KeepsItsFlag | src/merge-policy.ts:107-110 | a row keeps its flag exactly when it is the newest transcript, or oldest sequence, among the flagged rows of its group, ties going to the lower id |
| MergePolicy.OnlyFlagsAreCleared | src/merge-policy.ts:132-142 | nothing but flags changes and none is set |
| MergePolicy.ReconcileIsIdempotent | src/merge-policy.ts:107-110 | a second reconcile changes nothing and demotes nobody |
| MergePolicy.ReconcilesIffDuplicated | src/merge-policy.ts:111-182 | the reconcile changes a table exactly when the health check would find a duplicate |
| MergePolicy.ReconciledIsHealthy | src/merge-policy.ts:184-229 | after it no two flagged rows of a table share a group, so both duplicate checks pass |
| MergePolicy.PrimaryIsUnchanged | src/sequences.ts:623-644 | the primary sequence read before and after the reconcile is the same |
| JobQueue.JobQueue.Enqueue | src/job-queue.ts:46-114 | insert or find the duplicate, as the two unique indexes decide; refused while a snapshot is taken |
| JobQueue.JobQueue.Dequeue | src/job-queue.ts:164-204 | the first candidate is leased with the next fence |
| JobQueue.JobQueue.Heartbeat | src/job-queue.ts:206-215 | only a running job with the presented fence is prolonged |
| JobQueue.JobQueue.MarkCompleting | src/job-queue.ts:320-329 | only a running job is marked |
| JobQueue.JobQueue.Complete | src/job-queue.ts:217-245 | a leased job with the presented fence, or its own when none is given, is done, else nothing changes; a missing job faults |
| JobQueue.JobQueue.Fail | src/job-queue.ts:247-283 | a leased job with the presented fence, or its own when none is given, is requeued or failed, else nothing changes; a missing job faults |
| JobQueue.JobQueue.Abort | src/job-queue.ts:285-303 | an unfinished job is aborted and its fence raised |
| JobQueue.JobQueue.AbortArtifact | src/job-queue.ts:331-359 | exactly the unfinished jobs of the artifact are aborted and listed |
| JobQueue.JobQueue.Reap | src/job-queue.ts:361-400 | the loop over expired rows requeues or fails each and counts both |
| JobRuns.FirstCandidateIsFirst | src/job-queue.ts:183-193 | the job handed out ranks before every other candidate, ties going to the lower id |
| JobRuns.StepKeepsGood | src/schema.ts:812-844 | every transaction keeps bounds on attempts, leases and fences and the uniqueness of active keys |
| JobRuns.ReachableIsGood | src/job-queue.ts:46-400 | so in every reachable state queued jobs have attempts left and no lease, leased ones are within their limit, and fences stay within twice it |
| JobRuns.HolderIsLeased | src/job-queue.ts:164-400 | the token last handed out and not taken back, told from the history alone, is the fence of the leased row |
| JobOutcomes.RowIsTold | src/job-queue.ts:46-400 | in every run every column of a job is told from the successful calls about it: state, times, worker, lease, attempts, result, error, fence |
| JobOutcomes.OutcomeTold | src/job-queue.ts:217-400 | done with a result exactly when last completed with it; failed exactly when last given up without a retry, with that error, or reaped without attempts left; waiting again exactly with attempts left; aborted exactly when last aborted |
| JobOutcomes.OthersUntouched | src/job-queue.ts:164-400 | a call leaves the rows it is not about as they are, and only the reaper is about more than one |
| JobOutcomes.ViewIsTold | src/job-queue.ts:450-500 | the view of an artifact is pending, ready or in error as the last enqueue, completion or final failure of a job of the artifact left it |
| JobOutcomes.EnqueueMeans | src/job-queue.ts:46-114 | a row is inserted exactly when no unfinished job has the key and none at all the type and external task; else the last row repeated is the answer |
| JobOutcomes.DequeueMeans | src/job-queue.ts:164-204 | the waiting job of an allowed type that goes first by preference, time and id is handed out, and none exactly when there is none |
| JobOutcomes.AnswersTold | src/job-queue.ts:285-329 | exactly a held job not yet marked can be marked, and exactly a job not over can be aborted |
| JobOutcomes.FenceIsOptional | src/job-queue.ts:217-283 | without a fence complete and fail act for whoever holds the job, with one for that holder alone |
| JobOutcomes.ReapCountsRows | src/job-queue.ts:361-400 | the reaper counts the held jobs it puts back and those it fails |
| JobRuns.MarkedIsCompleting | src/job-queue.ts:320-329 | a job is completing exactly when it was marked since its last token was handed out and that token was not taken back |
| JobRuns.OnlyTheHolderCounts | src/job-queue.ts:206-283 | in every run complete and fail work exactly for the current holder, heartbeat exactly for the holder of a job not marked as completing since it was handed out, and without effect otherwise |
| JobRuns.StaleMark | src/job-queue.ts:206-215 | since marking asks for no fence, a worker whose lease was reaped can end the heartbeat of the next holder, which can still complete the job |
| JobRuns.NeverLeasedIsWithoutLease | src/job-queue.ts:84-94 | a held job has no lease exactly when its last token came from its own enqueue and no heartbeat has succeeded since |
| JobRuns.ReapedOnceLeaseEnds | src/job-queue.ts:361-400 | told from the history alone, the reaper takes a held job away exactly when its lease has ended, and leaves every other held job as it is; one never leased is left by every reap |
| JobRuns.LostTokensStayLost | src/job-queue.ts:217-400 | a token that completed, failed, was aborted or reaped never works again, whatever follows |
| JobRuns.TokensIncrease | src/job-queue.ts:196-202 | a later token of a job carries a greater fence |
| JobRuns.TerminalForever | src/job-queue.ts:217-400 | a finished job is never touched again |
| JobRuns.AttemptsCountTokens | src/job-queue.ts:194-202 | attempts count the tokens handed out, so there are at most as many as the limit |
| JobRuns.WorkIsBounded | src/job-queue.ts:46-400 | a run makes at most three changing steps per attempt allowed to the jobs it inserted |
| Grid.FirstEmptyNotebookGridRow | src/notebook-grid.ts:31-39 | the row loop finds the first empty row, or none |
| Grid.EmptyRowIsFirst | src/notebook-grid.ts:31-39 | that row is empty and every row above it is not |
| Grid.FirstEmptyNotebookGridSlots | src/notebook-grid.ts:125-144 | the nested loops list the first free slots in address order, or report a full board or a slot off it |
| Grid.FreeSlotsAreFree | src/notebook-grid.ts:125-144 | the listed slots are free and on the board, and every free one is listed |
| Grid.FirstFreeIsFirst | src/notebook-grid.ts:125-144 | no free slot comes before the first listed one |
| GridPriority.Capacity | src/notebook-grid.ts:4-7 | the board is 64 rows of 8 slots |
| GridPriority.ApartMeans | src/notebook-grid.ts:14-23 | two cells are apart exactly when they have different slots, and different rows if one is a timeline |
| GridPriority.FirstEmptyMeans | src/notebook-grid.ts:106-144 | the slots listed are the first free ones in address order, as many as asked for; refused exactly for a slot off the board or too few free ones |
| Grid.Notebook.RepairCellSlots | src/domain.ts:810-853 | greedy pass and re-placement compute the repair; a repair that fails changes nothing |
| Grid.Notebook.AssertCellSlotFree | src/domain.ts:792-808 | a place is refused exactly when another cell occupies one of its slots |
| Grid.Notebook.PutCell | src/domain.ts:657-724 | a stored cell stays where it was put, the board ends without collisions, and on a board that had none nothing else moves |
| Grid.NoSharedSlots | src/domain.ts:810-853 | after a repair no two cells share a slot, timelines taking whole rows |
| Grid.KeptDoNotMove | src/domain.ts:828-843 | cells kept by the greedy pass do not move |
| Grid.DisplacedByKept | src/domain.ts:828-843 | a displaced cell shares a slot with a kept one ranked before it |
| GridPriority.StaysUnlessOusted | src/domain.ts:816-843 | after a repair a cell is where it was exactly when no other cell that stayed shares a slot and goes first: the protected one, then timelines, then by row, column and id |
| GridPriority.LowerIdStays | src/domain.ts:816-827 | of two unprotected cells of one type at one slot the one with the greater id never stays |
| GridPriority.MovedToFirstFree | src/domain.ts:844-853 | a moved cell is put at the first place left by the cells that stay and the moved ones that go first |
| GridPriority.PlaceTakenMeans | src/domain.ts:792-808 | a place is taken exactly when another cell has the slot, or a row that one of the two takes whole |
| Grid.ProtectedDoesNotMove | src/domain.ts:824-827 | the protected cell does not move |
| Grid.StaysOnBoard | src/domain.ts:844-853 | cells on the board stay on it and displaced ones are put on it |
| Grid.CollisionFreeIsKept | src/domain.ts:828-843 | a layout without collisions is left as it is |
| Grid.RepairsIffColliding | src/domain.ts:810-853 | a repair changes a layout exactly when it had a collision, and leaves none |
| Grid.RepairSucceedsIff | src/domain.ts:844-853 | on a board in the grid a repair succeeds exactly when kept cells leave a row for every displaced timeline and besides those rows a slot for every other displaced cell; else the fault says which is missing |

## Left out

- Safe-integer range checks and floating-point limits: integers are mathematical, numbers in rows are reals that are only compared.
- SQL text, commits, the outbox, remotes and hashes: a runtime callback is one atomic step, hashing and generated ids are injective.
- Identifiers as texts: order-only ids are numbers in text order, and canonical JSON keys are given as text.
- TrackTable.SequenceTracks.MoveTrack: stored keys of the siblings are taken to be valid, as every writer leaves them; a track's name and flags are not modelled.
- TrackTable.SequenceTracks.AddTrack: the name and the flags of the new track are not modelled, nor is the sequence row it is looked up for.
- OrderKeys.InitialOrderKeys: the count is a natural number, as its callers give it.
- Normalization of an intent before it is applied (src/edits.ts:337-395): operations are taken as normalized; the checks it repeats are made where they are applied.
- Edit previews, affected ranges, revision conflicts, write sets and persistence (src/edits.ts:97-300): they describe a run and do not change it. A write set is computed against the sequence before the batch, so no whole-batch law is claimed for it.
- Meaning of speed and reverse in slicing, and of the length a trim without a source range keeps: stored ranges are cut independently of them, so only the stored range is described.
- EditSafety.RunGood: assumes that slice ids are new when they are generated; EditIds.BatchKeepsGood replaces this by a condition on the ids of the intent alone.
- Fields of tracks, transitions and cues that no edit reads (names, kinds of transition, alignment, speakers).
- RowMerge.CombineCommutes: rows are compared as the code compares them, where bytes and a text of their tagged hexadecimal form look alike; stamps are numbers or null, as their integer column holds.
- The write set names resources as kind and column values; how a value is turned into text is not modelled, and which names a table has is taken over as the table of names it is (src/fork.ts:605-659).
- A merge followed by the singleton reconcile is not idempotent, because a demotion changes rows; idempotence is stated for the merge alone.
- Foreign keys of merged rows: the count of violations is a parameter of the health check.
- JobQueue.JobQueue.Enqueue: the metadata of artifact views is not modelled.
- JobQueue.JobQueue.AbortArtifact: one transaction per job, told here without other transactions in between; in runs it is a sequence of aborts.
- Queue runners, timers, abort handlers and terminal records of jobs.
- Grid.Notebook.PutCell: one method for inserting and updating; whether the cell exists and the checks of its own fields, made before it is stored, are not modelled.
- Row letters and addresses, proximity placement and wave placement on the board: easy case tables.
- Archives, content storage, workspaces, model workers, similarity and media processes, migrations.
