# SyncPoint: verified model

SyncPoint coordinates several coding agents on one project: claims on files, functions and line ranges, gates that
stop work until everyone has agreed, project memories that protect parts of the code, and runners that drive the
agents. This project models the logic those parts share and proves what it guarantees, for all inputs and all runs.

`dafny verify dfyconfig.toml` checks everything.

| part | files |
|---|---|
| how line ranges follow an edit | `LineDrift`, `DriftTheorems`, `DriftGeometry`, `DriftText`, `RangeSurvival` |
| reading an event stream from chunks | `SseReader`, `SseFrames` |
| event bus and replay | `EventBus` |
| normal forms of paths | `PathNormalize`, `ResourcePath`, `NormalizedPath`, `RootedPath`, `RootedAbsolute`, `FixedPaths` |
| overlap of resources, conflicts of claims | `Locators`, `RootedOverlap`, `Resources`, `ClaimConflicts`, `ConflictSites`, `OverlapTheorems` |
| write permission and audit | `SyncGate`, `WritePermit`, `FileAudit`, `PermitTheorems`, `RefusalTheorems` |
| from memories to the refusal of a write | `ProjectionRouting`, `Projection`, `ProjectionTheorems`, `ScopeTheorems`, `Constraints`, `ConstraintTheorems`, `WriteContext`, `Pipeline`, `ProtectedFiles` |
| votes and negotiation, alone and under the server | `LastWrite`, `GateVotes`, `GateService`, `Negotiation`, `NegotiationService` |
| function spans in source text | `FunctionSpans` |
| team templates and agent manifests | `TeamTemplate`, `TeamMaterialize`, `Manifest` |
| workers under a safety guard | `Safety`, `WorkerPool` |
| strings, splitting, trimming; lists; line ranges | `Text`, `Filters`, `Lists`, `Ranges` |

Code that works step by step is a method with loops, or a class with fields, and its contract ties it to a function of
its inputs or of the old state; the lemmas are about those functions. Code made of expressions is functions. The
strings are sequences of Unicode characters; absent strings that the program only tests for truth are empty strings.

## Main results

- Greedy line matching: pure insertions and deletions are recognised exactly (`DriftTheorems.PureInsertionExact`,
  `PureDeletionExact`, and of the texts themselves `DriftText.InsertionOfText`, `GrowthIsLineFeeds`); the script
  replays, patches, and is minimal exactly under `NoRegret` (`LineDrift.ScriptReplays`, `ScriptPatches`,
  `DriftTheorems.MinimalExact`); claims keep their geometry (`DriftGeometry.RangeKeepsItsLines`,
  `DisjointClaimsStayDisjoint`).
- Streams: every chunking emits the same payloads, and both readers see each event once (`SseReader.ReadSse`,
  `SseFrames.FramesReachClient`, `FramesReachRunner`).
- The event bus refines an unbounded log (`EventBus.EveryRunRefines`, `ReplayCompleteExact`, `CatchUpExact`).
- Path resolution preserves meaning and is unique (`PathNormalize.ResolveExact`, `SameResolutionIffSamePlace`,
  `ResourcePath.AppendEquivalenceExact`, `NormalizedPath.EquivalenceIsSamePlace`).
- Claim conflicts and memory conflicts are reported once for each pair that has one (`ConflictSites.ReportIsOneToOne`,
  `ProjectionTheorems.BucketConflictsExact`); claims on files report nothing exactly when rival files are apart
  (`OverlapTheorems.FileClaimsQuietExact`).
- A write is permitted under an exact condition, across four packages (`PermitTheorems.PermitExact`,
  `ConstraintTheorems.BlockersExact`, `Pipeline.WriteCheckExact`), a refusal names what objects
  (`RefusalTheorems.RefusalNamesExact`), files are protected in every request, from the directory a user names to the
  refusal (`Pipeline.FileProtectionExact`, `FileOverlapRefusesWrite`, `ProtectedFiles.DirectoryIsProtected`), and the
  later audit agrees exactly as far as stated (`PermitTheorems.PermittedWriteIsClean`, `RefusalAuditsExact`).
- In every run of the server a gate opens only for a reason, a quorum is one of different required agents
  (`GateService.OpensOnlyFor`, `QuorumGateExact`), a negotiation passes nobody over, and what is over stays over
  (`NegotiationService.WaitingTellsSilence`, `OnceOverStaysOver`).
- Votes and negotiations ignore interleaving (`GateVotes.CountsIgnoreInterleaving`,
  `Negotiation.VerdictIgnoresInterleaving`) and negotiations end (`Negotiation.ExpiredRoundsEnd`).
- Function spans are ordered, disjoint and end where the braces close (`FunctionSpans.BraceSpansOrdered`,
  `BraceSpansEndRight`).
- File stems never meet (`TeamTemplate.StemsAreDistinct`); manifests survive the trip through text
  (`Manifest.DocumentRoundTrip`, `ManifestTextRoundTrip`).
- Workers share a global budget in every interleaving (`WorkerPool.GlobalLimit`, `BudgetIsSpent`, `CountsAreStreaks`,
  `SoloRun`).

## Where the code and its documentation differ

The model follows the code. Each difference is a theorem with the exact condition, or a witness, or both.

- `computeEditOps` is documented as minimal. Greedy matching is minimal exactly under `NoRegret`
  (`DriftTheorems.MinimalExact`); moving one line breaks it (`NotMinimalWhenMoved`).
- `rangeStillExists` is documented to look at all lines of a range, `remapRange` to give up only when the whole range
  is gone. Both look at the two ends, and on equal sources at nothing (`RangeSurvival.StillExistsExact`,
  `UndefinedExact`, `StillExistsOnEqualSources`, `UndefinedOnEqualSources`).
- Normalised paths are meant to be normal forms. Outer blanks (`FixedPaths.NormalizesToFixedExact`), the root of a
  drive and a drive letter in lower case (`FixedPaths.RootedToFixedExact`, `RootedPath.RootedIsAbsoluteExact`,
  `RootedAbsolute.DriveRootIsUnstable`, `LowerDriveDiffers`) and ".." above a POSIX root
  (`PathNormalize.AbsoluteEquivalenceExact`, `ResourcePath.AboveRootDiffers`) are the exceptions. With a project root
  the result is meant to be absolute (`RootedAbsolute.RootedAbsoluteExact`, `RootedPath.SlashRootIsLost`).
- A write check roots every working locator, but in its references only those of files. A do-not-touch memory that
  names an artifact by its plain locator is therefore filtered out, although the scope check would find it
  (`WriteContext.SeenAsWrittenExact`, `Pipeline.PlainLocatorIsNotProtected`, `LogoIsNotProtected`).
- A do-not-touch memory whose scope uses only fields without a typed matcher, such as the generic plugin's own
  `assetTypes`, is always dropped by the relevance filter of a write check, although the scope check may have a hit
  (`Pipeline.CustomFieldIsNotProtected`, `AssetTypesAreNotProtected`).
- A memory's files are rooted when it is stored, its modules are not, and both are compared with rooted files. Below a
  POSIX root a relative module pattern therefore protects nothing (`ProtectedFiles.RelativeModulesExact`,
  `ModulesAreNotRooted`).
- The audit looks at actors, the permit at actors and tasks (`PermitTheorems.RefusalAuditsExact`,
  `AuditForgetsTasks`).
- A denied constraint check without blockers would not block a write; the evaluator never produces one
  (`Pipeline.EmptyDenialWouldPass`, `DenialIsHeard`).
- The evaluating functions count whoever posted and whoever acknowledged (`Negotiation.WaitingExact`,
  `OutsiderEndsTheWait`, `GateVotes.QuorumCountsRequired`, `OutsiderMeetsQuorum`). That concerns the functions alone:
  the services refuse outsiders and store nobody twice, so in every run of theirs the counts mean what they say
  (`NegotiationService.WaitingTellsSilence`, `GateService.QuorumIsRequiredAgents`).
- A deadlock or a timeout is meant to be final, but a later evaluation does not look at it. It is final as long as the
  clock does not run backwards (`NegotiationService.OnceOverStaysOver`, `ClockSetBackReopens`). The declared table of
  transitions is left in exactly two cases (`NegotiationService.TableExact`).
- The manifest schema counts characters before the transform trims (`Manifest.SecondTripExact`,
  `TeamMaterialize.MaterializeExact`), and a manifest file with both a complete top level and an agent record is
  parsed as one and written as the other (`Manifest.MixedDocumentChangesMeaning`).
- The failure limit is said to give up on a task; it never stops a worker by itself. An unexpected error at the limit
  throws out of the worker's loop (`Safety.AgentWorker.HandleItem`, `WorkerPool.CountsAreStreaks`).

## Model

| member | source | states |
|---|---|---|
| `LineDrift.IndexKeys` | packages/syncpoint-kernel/src/line-range-drift.ts:94-100 | the index maps exactly the occurring keys, each to all its positions in increasing order |
| `LineDrift.PickCandidate` | packages/syncpoint-kernel/src/line-range-drift.ts:113-122 | the candidate loop finds the first position of the key at or after the cursor; skipping used positions never changes that |
| `LineDrift.FindMatches` | packages/syncpoint-kernel/src/line-range-drift.ts:104-123 | the match loop computes the greedy pairing, whose meaning is given by GreedyValid, PureInsertionExact and GreedyBestExact |
| `LineDrift.GreedyValid` | packages/syncpoint-kernel/src/line-range-drift.ts:102-123 | pairs increase strictly on both sides and join lines with equal keys |
| `LineDrift.EmitOps` | packages/syncpoint-kernel/src/line-range-drift.ts:125-156 | the two-cursor loop terminates and emits the script of the pairs |
| `LineDrift.ComputeEditOps` | packages/syncpoint-kernel/src/line-range-drift.ts:92-159 | matching and emitting composed, for any two key sequences |
| `LineDrift.ScriptReplays` | packages/syncpoint-kernel/src/line-range-drift.ts:125-156 | the script consumes old lines 0..n-1 and produces new lines 0..m-1 once each and in order, keeps exactly the matched pairs, and its counts of deletions and insertions are n and m less the number of pairs |
| `LineDrift.ScriptPatches` | packages/syncpoint-kernel/src/line-range-drift.ts:84-91 | applying the script to the old keys yields the new keys |
| `LineDrift.BuildLineMapping` | packages/syncpoint-kernel/src/line-range-drift.ts:170-201 | the array filled in the loop holds, for every old line, the one-based new line of the pair that keeps it, else 0 |
| `LineDrift.CountOps` | packages/syncpoint-kernel/src/line-range-drift.ts:70-71 | the filters count the operations of one kind |
| `LineDrift.ComputeLineDrift` | packages/syncpoint-kernel/src/line-range-drift.ts:48-74 | fast path and general path together compute the drift value all results below speak about |
| `LineDrift.RemapLineRanges` | packages/syncpoint-kernel/src/line-range-drift.ts:236-248 | the returned list is the images of the surviving ranges, in order |
| `LineDrift.RangeStillExists` | packages/syncpoint-kernel/src/line-range-drift.ts:254-261 | true exactly when the range has an image |
| `DriftTheorems.PureInsertionExact` | packages/syncpoint-kernel/src/line-range-drift.ts:53-73 | `removed` is 0 if and only if the old key sequence is a subsequence of the new one (exchange argument for greedy matching) |
| `DriftTheorems.PureDeletionExact` | packages/syncpoint-kernel/src/line-range-drift.ts:53-73 | `added` is 0 if and only if the change is a clean deletion: dropped lines never come back later, a scan a caller can run |
| `DriftTheorems.SubsequenceMayAdd` | packages/syncpoint-kernel/src/line-range-drift.ts:104-123 | the mirror of pure insertion is false: old [1,0,1], new [0,1] |
| `DriftTheorems.DriftBalance` | packages/syncpoint-kernel/src/line-range-drift.ts:70-71 | added minus removed is the growth of the file |
| `DriftText.LinesExact` | packages/syncpoint-kernel/src/line-range-drift.ts:50-51 | the lines of a non-empty text join back to it, hold no line feed, and are one more than its line feeds, a final one included; no other list is like that; the empty text has none |
| `DriftText.GrowthIsLineFeeds` | packages/syncpoint-kernel/src/line-range-drift.ts:48-73 | added minus removed is the difference of the line feeds counted on the two texts |
| `DriftText.MappedLineIsSame` | packages/syncpoint-kernel/src/line-range-drift.ts:170-201 | whatever lists of lines the texts are joined from: a surviving line is mapped to a line that hashes alike |
| `DriftText.InsertionOfText` | packages/syncpoint-kernel/src/line-range-drift.ts:48-73 | under a hash that tells lines apart, `removed` is 0 if and only if the lines of the old text are a subsequence of those of the new one |
| `DriftTheorems.BestIsUpperBound` | packages/syncpoint-kernel/src/line-range-drift.ts:84-91 | no valid pairing keeps more lines than `Best` |
| `DriftTheorems.BestIsReached` | packages/syncpoint-kernel/src/line-range-drift.ts:84-91 | some valid pairing keeps `Best` lines |
| `DriftTheorems.GreedyBestExact` | packages/syncpoint-kernel/src/line-range-drift.ts:102-123 | greedy keeps at most `Best` lines, and reaches it exactly when no pair is regretted: without the pair, at most one more line could be kept than after it |
| `DriftTheorems.MinimalExact` | packages/syncpoint-kernel/src/line-range-drift.ts:84-91 | the documented minimality of the script, over all scripts, holds exactly under that condition |
| `DriftTheorems.NoMovesNoRegret` | packages/syncpoint-kernel/src/line-range-drift.ts:84-91 | a condition on lines alone: when no two later old lines could be kept in order among the new lines up to and including the one a pair takes, the script is minimal |
| `DriftTheorems.NotMinimalWhenMoved` | packages/syncpoint-kernel/src/line-range-drift.ts:84-91 | moving the first of three lines to the end keeps one line where two could be kept |
| `DriftGeometry.LinesKeepOrder` | packages/syncpoint-kernel/src/line-range-drift.ts:186-191 | surviving lines keep key and order and land in 1..m, on both paths |
| `DriftGeometry.RangeKeepsItsLines` | packages/syncpoint-kernel/src/line-range-drift.ts:193-199 | a surviving well-formed range stays well formed, and a surviving line lies in it exactly when its image lies in the image |
| `DriftGeometry.OverlapIsKept` | packages/syncpoint-kernel/src/line-range-drift.ts:193-211 | two ranges that both survive overlap afterwards exactly when they did before |
| `DriftGeometry.DisjointClaimsStayDisjoint` | packages/syncpoint-kernel/src/line-range-drift.ts:236-248 | remapping a list of pairwise disjoint ranges leaves it pairwise disjoint |
| `DriftGeometry.GreedyFollowsCommonRun` | packages/syncpoint-kernel/src/line-range-drift.ts:108-123 | two runs with equal keys are matched line by line |
| `DriftGeometry.CommonPrefixIsFixed` | packages/syncpoint-kernel/src/line-range-drift.ts:108-123 | lines of the common prefix map to themselves |
| `DriftGeometry.FastPathAgrees` | packages/syncpoint-kernel/src/line-range-drift.ts:53-60 | on equal sources both paths give the same line map, and the same range map exactly for ranges whose ends are lines of the file |
| `RangeSurvival.StillExistsExact` | packages/syncpoint-kernel/src/line-range-drift.ts:250-261 | on different texts: the documented meaning (all lines survive) holds for all texts and hashes exactly for ranges of at most two lines and ranges that start before the file |
| `RangeSurvival.StillExistsOnEqualSources` | packages/syncpoint-kernel/src/line-range-drift.ts:53-60 | on equal texts it holds exactly for ranges inside the file (and ranges that end before they start) |
| `RangeSurvival.UndefinedExact` | packages/syncpoint-kernel/src/line-range-drift.ts:23-27 | on different texts: the documented meaning of an undefined image (every line was deleted) holds for all texts and hashes exactly for one-line ranges and ranges that end before the file |
| `RangeSurvival.UndefinedOnEqualSources` | packages/syncpoint-kernel/src/line-range-drift.ts:209-211 | on equal texts it holds exactly for ranges that have a line of the file |
| `RangeSurvival.DropOneLine` | packages/syncpoint-kernel/src/line-range-drift.ts:186-199 | the failing texts: deleting one line of n different lines deletes that line and keeps every other |
| `RangeSurvival.SurvivalIsAboutEnds` | packages/syncpoint-kernel/src/line-range-drift.ts:193-199 | on different texts a range survives exactly when both ends do; full survival implies it, and it implies that some line survives |
| `SseReader.ReadStep` | packages/syncpoint-sdk/src/index.ts:117-119 | buffering the unfinished piece and splitting again with the next chunk changes nothing that was already closed |
| `SseReader.EmitBlocks` | packages/syncpoint-sdk/src/index.ts:121-129 | the inner loop emits one payload per block with data, in order |
| `SseReader.ReadSse` | packages/syncpoint-sdk/src/index.ts:113-130 | for every cutting of the text into chunks the loop emits the payloads of the whole text split on blank lines, less the last piece; an abort keeps the chunks read so far |
| `SseReader.EmitRunnerLines` | packages/syncpoint-loop-runner/src/runner.ts:227-241 | the runner hands on the text of every data line |
| `SseReader.ReadRunnerEvents` | packages/syncpoint-loop-runner/src/runner.ts:218-242 | the same chunk independence for the runner, which splits on single line feeds |
| `SseFrames.FrameIsOneBlock` | packages/syncpoint-server/src/transport/sse-manager.ts:80-81 | a written frame holds no blank line before its end |
| `SseFrames.FramePayload` | packages/syncpoint-server/src/transport/sse-manager.ts:80-81 | the payload read from an event frame is its JSON text; a heartbeat is silent |
| `SseFrames.WireBlocks` | packages/syncpoint-server/src/transport/sse-manager.ts:80-81 | any sequence of frames followed by an unfinished one reads as the JSON texts in order |
| `SseFrames.FramesReachClient` | packages/syncpoint-sdk/src/index.ts:113-130 | however the network cuts the server's frames, the client sees each event once and in order |
| `SseFrames.LinesOfBlockJoin` | packages/syncpoint-sdk/src/index.ts:122-126 | a payload sent as several data lines of one block arrives as those lines joined by line feeds |
| `SseFrames.FramesReachRunner` | packages/syncpoint-loop-runner/src/runner.ts:223-242 | the runner sees the same events, whatever the cuts, and of an unfinished frame the data lines that are complete |
| `EventBus.SyncPointEventBus.constructor` | packages/syncpoint-server/src/event-bus.ts:37-51 | a new bus has counter 0, an empty ring and zero metrics |
| `EventBus.SyncPointEventBus.EmitEvent` | packages/syncpoint-server/src/event-bus.ts:54-78 | the event gets the next number; the ring drops its oldest event when full; listeners get the stored event |
| `EventBus.SyncPointEventBus.ResetSequence` | packages/syncpoint-server/src/event-bus.ts:86-89 | counter and ring are emptied, metrics kept |
| `EventBus.SyncPointEventBus.RecoverSeq` | packages/syncpoint-server/src/event-bus.ts:95-99 | the counter is raised, never lowered; the ring is kept |
| `EventBus.SyncPointEventBus.ReplayAfter` | packages/syncpoint-server/src/event-bus.ts:105-110 | returns the ring events above the number, none for numbers up to 0, and counts them |
| `EventBus.StepRefines` | packages/syncpoint-server/src/event-bus.ts:54-99 | each operation keeps: ring = last 1000 events of an unbounded log, numbers strictly increasing |
| `EventBus.RunRefines` | packages/syncpoint-server/src/event-bus.ts:54-99 | the refinement holds after every mix of emits, recoveries and resets |
| `EventBus.EveryRunRefines` | packages/syncpoint-server/src/event-bus.ts:37-99 | in particular for every run of a new bus |
| `EventBus.ReplayIsRecentLog` | packages/syncpoint-server/src/event-bus.ts:105-110 | replay returns the last 1000 of the logged events above the number |
| `EventBus.RingKeepsThousand` | packages/syncpoint-server/src/event-bus.ts:45-103 | the ring holds the last 1000 logged events, or all of them |
| `EventBus.EmittedAsSaid` | packages/syncpoint-server/src/event-bus.ts:45-70 | the newest event carries the next number and all that was said |
| `EventBus.ReplayCompleteExact` | packages/syncpoint-server/src/event-bus.ts:105-110 | replay misses nothing exactly when no evicted event has a higher number |
| `EventBus.LogOnlyGrows` | packages/syncpoint-server/src/event-bus.ts:54-99 | without a reset the log only grows, with numbers above the counter |
| `EventBus.CatchUpExact` | packages/syncpoint-server/src/event-bus.ts:102-110 | a client that was up to date gets exactly what it missed if and only if it missed nothing, or the counter was not 0 and it missed at most 1000 events |
| `PathNormalize.ResolveSegments` | packages/syncpoint-kernel/src/path-normalize.ts:121-134 | the stack loop resolves the segments; the laws below say what that means |
| `PathNormalize.ResolveShape` | packages/syncpoint-kernel/src/path-normalize.ts:123-134 | the result is always some ".." followed by plain names, without ".." on a drive |
| `PathNormalize.ResolveKeepsCanonical` | packages/syncpoint-kernel/src/path-normalize.ts:123-134 | such a list resolves to itself |
| `PathNormalize.ResolveIsAction` | packages/syncpoint-kernel/src/path-normalize.ts:123-134 | resolve(a ++ b) = resolve(resolve(a) ++ b) |
| `PathNormalize.ResolveKeepsWalk` | packages/syncpoint-kernel/src/path-normalize.ts:114-134 | from every directory the resolved path leads to the same place as the path |
| `PathNormalize.DriveResolveIsWalk` | packages/syncpoint-kernel/src/path-normalize.ts:114-134 | on a drive the result is the directory the path leads to |
| `PathNormalize.CanonicalUnique` | packages/syncpoint-kernel/src/path-normalize.ts:123-134 | two normal forms that lead to the same place from every directory are equal |
| `PathNormalize.SameResolutionIffSamePlace` | packages/syncpoint-kernel/src/path-normalize.ts:123-134 | two relative paths resolve alike if and only if they lead to the same place from every directory |
| `PathNormalize.ResolveCountsClimbs` | packages/syncpoint-kernel/src/path-normalize.ts:125-130 | each climb above the start, counted on the unresolved segments by their depth, leaves one ".." in front |
| `PathNormalize.ResolveExact` | packages/syncpoint-kernel/src/path-normalize.ts:123-134 | resolution in closed form: the climbs above the root, then the place the path leads to from the root |
| `PathNormalize.AbsoluteEquivalenceExact` | packages/syncpoint-kernel/src/path-normalize.ts:125-130 | below a POSIX root two paths resolve alike exactly when they lead to the same place and climb above the root equally often |
| `ResourcePath.ResolveDotSegments` | packages/syncpoint-kernel/src/path-normalize.ts:115-148 | the string form: drive prefix, leading slash, "." for an empty result |
| `ResourcePath.ReadAbsolute` | packages/syncpoint-kernel/src/path-normalize.ts:136-147 | a rendered absolute path reads back as its prefix and segments |
| `ResourcePath.ReadDrive` | packages/syncpoint-kernel/src/path-normalize.ts:136-147 | so does a rendered drive path |
| `ResourcePath.ReadRelative` | packages/syncpoint-kernel/src/path-normalize.ts:136-147 | so does a relative one, unless its first name looks like a drive |
| `ResourcePath.ResolvedIdempotent` | packages/syncpoint-kernel/src/path-normalize.ts:115-148 | resolving a string twice is resolving it once |
| `ResourcePath.AboveRootDiffers` | packages/syncpoint-kernel/src/path-normalize.ts:125-141 | "/../x" and "/x" lead to the same place and resolve differently, for every name |
| `ResourcePath.AppendKeepsEquivalence` | packages/syncpoint-kernel/src/path-normalize.ts:115-148 | paths that resolve alike and are absolute in the same way resolve alike after any extension |
| `ResourcePath.AppendEquivalenceExact` | packages/syncpoint-kernel/src/path-normalize.ts:115-148 | equal resolution is kept by every extension exactly when the paths are absolute in the same way |
| `NormalizedPath.ResolvedIsNotLonger` | packages/syncpoint-kernel/src/path-normalize.ts:115-148 | resolving never lengthens a non-empty path and never empties it |
| `NormalizedPath.ResolvedLower` | packages/syncpoint-kernel/src/path-normalize.ts:70-82 | lower-casing before or after resolving is the same |
| `NormalizedPath.ResolvedIsTight` | packages/syncpoint-kernel/src/path-normalize.ts:70-76 | a resolved path never doubles a slash and ends in one only at a root |
| `NormalizedPath.NormalizeIsNotLonger` | packages/syncpoint-kernel/src/path-normalize.ts:41-86 | without a project root a normalised path is no longer than the trimmed input |
| `NormalizedPath.NormalizeIdempotentExact` | packages/syncpoint-kernel/src/path-normalize.ts:41-86 | a normalised path is a fixed point exactly when it has no outer white space, for every input and case rule |
| `FixedPaths.NormalizesToFixedExact` | packages/syncpoint-kernel/src/path-normalize.ts:41-86 | read off the input: it normalises to a fixed point exactly when it is blank, a URI, or leads to a place whose outer names have no white space on the outside |
| `NormalizedPath.NormalizeTwiceCanDiffer` | packages/syncpoint-kernel/src/path-normalize.ts:41-86 | "a /" normalises to "a ", which normalises further |
| `NormalizedPath.EquivalenceIsSamePlace` | packages/syncpoint-kernel/src/path-normalize.ts:163-169 | two relative paths are equivalent exactly when, with forward slashes and folded case, they lead to the same place from every directory |
| `NormalizedPath.UrisAreKeptExact` | packages/syncpoint-kernel/src/path-normalize.ts:49-50 | a trimmed locator with a scheme (a letter, then letters, digits, plus, dot, hyphen) is left alone, and the result holds a doubled slash exactly then |
| `RootedPath.RootedIsAbsoluteExact` | packages/syncpoint-kernel/src/path-normalize.ts:30-65 | a relative path under an absolute root and the same path written out from the root normalise alike, exactly unless case counts and the root is a drive in lower case, which only the join puts in upper case |
| `RootedAbsolute.RootedAbsoluteExact` | packages/syncpoint-kernel/src/path-normalize.ts:32-65 | for an absolute root and a relative path the result is absolute exactly unless the root is a drive and the path leads to the root of the drive; a root of slashes only is as good as none |
| `RootedPath.SlashRootIsLost` | packages/syncpoint-kernel/src/path-normalize.ts:106-112 | in particular a root of slashes only is filtered out of the join and the result does not start at the root |
| `RootedPath.AbsoluteNeedsNoRoot` | packages/syncpoint-kernel/src/path-normalize.ts:59-63 | a path from a slash, a drive with a slash of either kind, or two backslashes is normalised as if there were no root |
| `RootedAbsolute.LowerDriveDiffers` | packages/syncpoint-kernel/src/path-normalize.ts:108-111 | the exception met: under a root such as "c:/x", "a" and "c:/x/a" normalise differently when case counts |
| `RootedPath.RootedTwiceExact` | packages/syncpoint-kernel/src/path-normalize.ts:41-86 | a path rooted once and rooted again, below an absolute root that may differ, is unchanged exactly when it has no outer white space and is not a bare drive |
| `RootedPath.RootedIdempotentExact` | packages/syncpoint-kernel/src/path-normalize.ts:41-86 | so normalising below one absolute root is idempotent exactly on those results |
| `FixedPaths.RootedToFixedExact` | packages/syncpoint-kernel/src/path-normalize.ts:41-86 | read off root and input: exactly when it is blank, a URI, or leads below the root of its drive, if any, to a place whose last name does not end in white space |
| `RootedAbsolute.DriveRootIsUnstable` | packages/syncpoint-kernel/src/path-normalize.ts:73-76 | the exception met: "C:/" becomes "C:", which becomes something else, under every absolute root |
| `Locators.PathsOverlapIsSymmetric` | packages/syncpoint-plugin-code/src/file-resource.ts:29-50 | the file overlap test is reflexive and symmetric, globs included |
| `Locators.NestedIsPrefix` | packages/syncpoint-plugin-code/src/file-resource.ts:36-37 | the character test for nesting is the prefix order of segment lists |
| `Locators.OverlapIsAncestry` | packages/syncpoint-plugin-code/src/file-resource.ts:29-50 | glob-free paths overlap exactly when one segment list is a prefix of the other |
| `Locators.GlobIsItsDirectory` | packages/syncpoint-plugin-code/src/file-resource.ts:39-47 | against a plain path a trailing glob overlaps exactly what its directory overlaps |
| `Locators.GlobsAreTheirDirectories` | packages/syncpoint-plugin-code/src/file-resource.ts:39-47 | two trailing globs overlap exactly when their directories do |
| `Locators.ParseThenRender` | packages/syncpoint-plugin-generic-agent/src/locator.ts:33-50 | parsing a locator loses nothing, and the path holds no fragment mark |
| `Locators.ParseExact` | packages/syncpoint-plugin-generic-agent/src/locator.ts:33-50 | the scheme is what stands before the colon and two slashes, if it is a small letter followed by small letters, digits, underscores or hyphens and one non-empty line follows; the rest is cut at the first fragment mark |
| `Locators.RenderThenParse` | packages/syncpoint-plugin-generic-agent/src/locator.ts:28-50 | rendering a well-formed locator and parsing it gives scheme, path and fragment back |
| `Locators.LocatorOverlapIsAncestry` | packages/syncpoint-plugin-generic-agent/src/locator.ts:76-82 | generic locators overlap exactly by segment ancestry of their paths; the test is reflexive and symmetric |
| `Resources.MatcherRegistry.Register` | packages/syncpoint-kernel/src/resource.ts:108-110 | registering replaces the matcher of its type and keeps the others |
| `Resources.OverlapIsSymmetric` | packages/syncpoint-kernel/src/resource.ts:139-189 | resource overlap is symmetric for symmetric matchers |
| `Resources.SelfOverlapExact` | packages/syncpoint-kernel/src/resource.ts:139-189 | a reference overlaps itself unless it is a line range that ends before it starts |
| `Resources.ScopesApartExact` | packages/syncpoint-kernel/src/resource.ts:167-189 | two scopes are apart exactly when they name different functions, or line ranges without a common line |
| `Resources.IntersectIsCommonLine` | packages/syncpoint-kernel/src/resource.ts:180-185 | the comparison of ends is the existence of a common line |
| `Resources.PluginMatchersAreLawful` | packages/syncpoint-plugin-code/src/file-resource.ts:29-50 | the matchers of both plugins are symmetric and reflexive |
| `Resources.DriftKeepsConflicts` | packages/syncpoint-kernel/src/resource.ts:180-185 | two line-range references that survive an edit conflict afterwards exactly when they did before |
| `OverlapTheorems.PluginOverlapExact` | packages/syncpoint-kernel/src/resource.ts:136-186 | under the plugins: different types never overlap, files overlap by their normalised paths, listed types by the paths of their locators, others by equal locators, if the parts can meet |
| `OverlapTheorems.WholeFilesOverlapExact` | packages/syncpoint-kernel/src/resource.ts:136-156 | two whole glob-free files overlap if and only if the segments of one normalised path continue those of the other |
| `ClaimConflicts.DetectBetween` | packages/syncpoint-kernel/src/resource.ts:207-221 | the two inner loops report each overlapping pair of resources of two claims |
| `ClaimConflicts.DetectAgainst` | packages/syncpoint-kernel/src/resource.ts:200-222 | the loop over later claims, skipping claims of the same owner |
| `ClaimConflicts.DetectResourceClaimConflicts` | packages/syncpoint-kernel/src/resource.ts:195-226 | the whole nested loop over the active claims |
| `ClaimConflicts.InBetween` | packages/syncpoint-kernel/src/resource.ts:204-221 | a conflict between two claims is reported exactly when their owners differ and it names an overlapping pair of their resources; ReportIsOneToOne says how often |
| `ClaimConflicts.InAllPairs` | packages/syncpoint-kernel/src/resource.ts:199-223 | a conflict is reported exactly when it lies between two active claims, the earlier one first |
| `ConflictSites.ReportIsOneToOne` | packages/syncpoint-kernel/src/resource.ts:195-226 | the report is in one-to-one correspondence, in order, with the places (claim i, later claim j, resource k, resource l) where active claims of different owners overlap: none twice, none left out |
| `ConflictSites.SitesAreUnique` | packages/syncpoint-kernel/src/resource.ts:199-222 | there is only one such ordered list of places, so the report is fixed by what overlaps what |
| `ClaimConflicts.BetweenEmptyExact` | packages/syncpoint-kernel/src/resource.ts:204-221 | two claims have no conflict exactly when they are compatible |
| `ClaimConflicts.NoConflictExact` | packages/syncpoint-kernel/src/resource.ts:195-226 | nothing is reported exactly when the active claims are pairwise compatible |
| `ClaimConflicts.NewClaimAddsItsConflicts` | packages/syncpoint-kernel/src/resource.ts:195-226 | one more active claim adds exactly the conflicts that involve it, as a multiset |
| `OverlapTheorems.QuietExact` | packages/syncpoint-kernel/src/resource.ts:195-226 | nothing is reported if and only if every two rival claims (active, another actor or task) have all their resources apart |
| `OverlapTheorems.FileClaimsQuietExact` | packages/syncpoint-kernel/src/resource.ts:195-226 | claims on whole files report nothing if and only if no rival file is the same or lies in a directory of the other |
| `OverlapTheorems.ConflictSays` | packages/syncpoint-kernel/src/resource.ts:204-221 | a conflict carries both claims and both locators, and is hard exactly when either claim is exclusive |
| `FileAudit.AuditVerdictExact` | packages/syncpoint-kernel/src/file-audit.ts:33-73 | a matching gate beats a foreign exclusive claim, which beats ownership; exactly one verdict for each case |
| `FileAudit.AuditListsExact` | packages/syncpoint-kernel/src/file-audit.ts:33-73 | the report names exactly the actor's claims, the foreign exclusive claims and the gates that meet the changed resource |
| `FileAudit.ParsedExact` | packages/syncpoint-kernel/src/file-audit.ts:90-95 | a file list names exactly the trimmed texts between its arrows that are not blank |
| `FileAudit.JoinedLocatorsReadBack` | packages/syncpoint-kernel/src/file-audit.ts:90-95 | the joined locator of a detected conflict reads back as its two locators |
| `WritePermit.ValidateResources` | packages/syncpoint-kernel/src/write-permit.ts:126-141 | one blocker for an empty request and one per invalid reference |
| `WritePermit.CheckExternalConflicts` | packages/syncpoint-kernel/src/write-permit.ts:143-157 | one blocker per relevant blocking gate, then one per conflicting exclusive claim, in order |
| `WritePermit.CheckConstraintRuntime` | packages/syncpoint-kernel/src/write-permit.ts:159-175 | an unavailable runtime blocks; a denial blocks once per blocker, named by memory, projection or rule |
| `WritePermit.EvaluateWriteDecision` | packages/syncpoint-kernel/src/write-permit.ts:221-232 | the first check that reports anything decides |
| `RefusalTheorems.RefusalNamesExact` | packages/syncpoint-kernel/src/write-permit.ts:102-232 | a refusal names exactly what the first objecting check found: malformed references, then standing gates and claims by id, then constraints by memory, projection or rule, then the missing authorisation |
| `PermitTheorems.PermitExact` | packages/syncpoint-kernel/src/write-permit.ts:221-284 | a write is permitted if and only if, in the fields of request, claims, gates and operation: the request is non-empty and well formed, no gate that waits concerns the task, session and actor or resources, no active foreign exclusive claim meets it, the constraints name no blocker, and own claims or an approved operation cover every resource |
| `PermitTheorems.GateStandsExact` | packages/syncpoint-kernel/src/write-permit.ts:234-249 | a gate blocks exactly when it waits, is about the task and session or none in particular, and requires the actor or concerns a resource |
| `PermitTheorems.OperationExact` | packages/syncpoint-kernel/src/write-permit.ts:275-284 | an operation authorises exactly when it is approved, of the actor, task and session, and has a target for every resource |
| `PermitTheorems.PermitReasonExact` | packages/syncpoint-kernel/src/write-permit.ts:197-212 | the reason names what covers the write: claims before operations, exclusive before shared |
| `PermitTheorems.NoSharedPermitUnderExclusiveClaim` | packages/syncpoint-kernel/src/write-permit.ts:251-273 | two owners can both be permitted on a resource only if no exclusive claim in their scope touches it |
| `PermitTheorems.MoreObstaclesNeverPermit` | packages/syncpoint-kernel/src/write-permit.ts:234-273 | adding foreign claims or gates never turns a refusal into a permit, and never changes the reason |
| `PermitTheorems.SameGateTest` | packages/syncpoint-kernel/src/write-permit.ts:244-249 | the gate tests of permit and audit agree on every resource type |
| `PermitTheorems.PermittedWriteIsClean` | packages/syncpoint-kernel/src/file-audit.ts:33-88 | a permitted write never audits as alert or pollution, and audits as claimed when own claims covered it |
| `PermitTheorems.RefusalAuditsExact` | packages/syncpoint-kernel/src/file-audit.ts:34-63 | for claims in scope and no matching gate: a write refused for an exclusive claim audits as pollution exactly when such a claim belongs to another actor; it audits as claimed exactly when all of them are the same actor's for other tasks |
| `PermitTheorems.AuditForgetsTasks` | packages/syncpoint-kernel/src/file-audit.ts:34-38 | an instance of the disagreement |
| `ProjectionRouting.ResolveProjectionRoute` | packages/syncpoint-context/src/reality-projection-routing.ts:53-81 | every memory is routed to exactly one bucket |
| `ProjectionRouting.ExplicitReasonMark` | packages/syncpoint-context/src/reality-projection-routing.ts:53-62 | the reason of an explicitly routed constraint carries the enforcement mark exactly when the kind does |
| `Projection.ScopeMatcherRegistry.Register` | packages/syncpoint-context/src/reality-projection.ts:25-27 | registering replaces the matcher of its field and keeps the others |
| `Projection.IsRelevantToContext` | packages/syncpoint-context/src/reality-projection.ts:95-141 | relevant means: no scope, no patterns, or some field whose patterns overlap what the context offers for it |
| `ScopeTheorems.RelevantExact` | packages/syncpoint-context/src/reality-projection.ts:95-141 | a memory is relevant exactly when it has no patterns or the patterns of a field meet its targets |
| `ScopeTheorems.TargetsExact` | packages/syncpoint-context/src/reality-projection.ts:110-128 | the targets of a field: typed references when all the context says about it are locators of references, else what the context says |
| `Projection.FindCollision` | packages/syncpoint-context/src/reality-projection.ts:160-179 | the first field of the first scope on which both scopes overlap |
| `Projection.DetectWith` | packages/syncpoint-context/src/reality-projection.ts:153-180 | one item against the later ones |
| `Projection.DetectConflicts` | packages/syncpoint-context/src/reality-projection.ts:149-184 | the nested loops over a bucket |
| `Projection.AddToBuckets` | packages/syncpoint-context/src/reality-projection.ts:277-293 | an item is appended to the bucket of its route, the others are kept |
| `Projection.FillBuckets` | packages/syncpoint-context/src/reality-projection.ts:234-294 | the loop over the memories fills each bucket, the skipped list, the parsed scopes and the validity |
| `Projection.BuildRealityProjection` | packages/syncpoint-context/src/reality-projection.ts:199-304 | the whole projection |
| `ProjectionTheorems.BucketListsItsMemories` | packages/syncpoint-context/src/reality-projection.ts:234-294 | a bucket holds exactly the memories routed to it, in their order |
| `ProjectionTheorems.SkippedListsOutdated` | packages/syncpoint-context/src/reality-projection.ts:241-249 | the skipped list holds exactly the stale and invalid memories, in their order |
| `ProjectionTheorems.BucketStandsFor` | packages/syncpoint-context/src/reality-projection.ts:205-300 | each bucket stands for exactly the memories that are neither invalid nor stale, are relevant, and go there by kind and target, with their text, scope, rule and confidence |
| `ProjectionTheorems.ProjectionStandsFor` | packages/syncpoint-context/src/reality-projection.ts:280-304 | so it is for every part of a built projection |
| `ProjectionTheorems.SkippedNames` | packages/syncpoint-context/src/reality-projection.ts:241-249 | the skipped list names exactly the invalid and stale memories, with their status |
| `ProjectionTheorems.EveryMemoryCountedOnce` | packages/syncpoint-context/src/reality-projection.ts:234-294 | every memory lands in exactly one of skipped, irrelevant or one bucket |
| `ProjectionTheorems.PairConflictExact` | packages/syncpoint-context/src/reality-projection.ts:154-179 | two items conflict exactly when their scopes share an overlapping field, at most once |
| `ProjectionTheorems.CollisionIsSymmetric` | packages/syncpoint-context/src/reality-projection.ts:160-170 | collision does not depend on the order of the items, for symmetric matchers |
| `ScopeTheorems.CollisionExact` | packages/syncpoint-context/src/reality-projection.ts:160-178 | two scopes collide exactly when some field is in both and its patterns meet |
| `ProjectionTheorems.InConflictsAmong` | packages/syncpoint-context/src/reality-projection.ts:149-184 | the report holds exactly the conflicts of all pairs of the bucket |
| `ProjectionTheorems.EachPairOnce` | packages/syncpoint-context/src/reality-projection.ts:177 | with distinct sources no pair is reported twice |
| `ProjectionTheorems.BucketConflictsExact` | packages/syncpoint-context/src/reality-projection.ts:296-299 | for distinct ids and every pair of memories: both are in the bucket with colliding scopes if and only if exactly one reported conflict carries their ids |
| `ProjectionTheorems.ConflictIsClash` | packages/syncpoint-context/src/reality-projection.ts:149-184 | every reported conflict is between two such memories, the earlier one first |
| `ProjectionTheorems.FreshExact` | packages/syncpoint-context/src/reality-projection.ts:231-304 | a projection is fresh exactly when no memory asks for revalidation and no two enforced memories clash; it is never stale or invalid |
| `Constraints.FindAllScopeOverlaps` | packages/syncpoint-governance/src/constraint-evaluation.ts:70-88 | the hits of all scope fields, each once, in order of first arrival |
| `Constraints.ScopeOverlapsExact` | packages/syncpoint-governance/src/constraint-evaluation.ts:70-88 | a scope overlaps the resources exactly when one of its fields has a hit |
| `Constraints.ConstraintRun.EvaluateProjectionInvalid` | packages/syncpoint-governance/src/constraint-evaluation.ts:92-104 | appends one blocker for an invalid projection and nothing else |
| `Constraints.ConstraintRun.EvaluateProjectionConflicts` | packages/syncpoint-governance/src/constraint-evaluation.ts:106-119 | appends one blocker per conflict |
| `Constraints.ConstraintRun.EvaluateDoNotTouchScopeOverlap` | packages/syncpoint-governance/src/constraint-evaluation.ts:121-145 | appends one blocker per protected item whose scope is touched: marked constraints first, then do-not-touch items |
| `Constraints.ConstraintRun.EvaluateProtocolGateBlocked` | packages/syncpoint-governance/src/constraint-evaluation.ts:147-161 | appends one blocker per message |
| `Constraints.ConstraintRun.EvaluateSnapshotLockedInvalid` | packages/syncpoint-governance/src/constraint-evaluation.ts:163-175 | appends one blocker when the snapshot is known to be invalid |
| `Constraints.ConstraintRun.EvaluateHardConstraintTyped` | packages/syncpoint-governance/src/constraint-evaluation.ts:184-240 | appends what the typed rules block and collects the ids they took charge of |
| `Constraints.ConstraintRun.EvaluateHardConstraintAdvisory` | packages/syncpoint-governance/src/constraint-evaluation.ts:252-267 | warns of the constraints nobody took charge of |
| `Constraints.EvaluateConstraints` | packages/syncpoint-governance/src/constraint-evaluation.ts:277-307 | the evaluators in their order over shared lists; permitted exactly when no blocker was pushed |
| `ConstraintTheorems.BlockersExact` | packages/syncpoint-governance/src/constraint-evaluation.ts:277-307 | the blockers are exactly: invalid projection, each conflict, each touched protected scope, gate messages, an invalid snapshot, typed rules; permitted exactly without any |
| `ConstraintTheorems.TypedBlockerExact` | packages/syncpoint-governance/src/constraint-evaluation.ts:183-232 | a typed rule that speaks about the action demands a review before operation_submit and operation_apply, or reports what its plugin finds; "custom" and unknown types report nothing |
| `ConstraintTheorems.TypedBlockersExact` | packages/syncpoint-governance/src/constraint-evaluation.ts:183-232 | the typed blockers are exactly the demanded reviews and the findings of the plugins |
| `ConstraintTheorems.WarningsExact` | packages/syncpoint-governance/src/constraint-evaluation.ts:247-262 | the warnings are exactly the unprotected rules of which no rule of the same memory was taken up |
| `Pipeline.EnforcedIsRouted` | packages/syncpoint-context/src/reality-projection-routing.ts:53-81 | which memories are enforced, read off kind and target alone |
| `Pipeline.RulesComeFromMemories` | packages/syncpoint-governance/src/constraint-evaluation.ts:128-131 | the items checked for protected scopes are exactly those of live, relevant, enforced memories |
| `Pipeline.ProtectionExact` | packages/syncpoint-governance/src/constraint-evaluation.ts:121-145 | end to end: a do-not-touch blocker with an id is reported if and only if a live, relevant, enforced memory with that id overlaps a touched resource |
| `WriteContext.TargetsAreSeen` | packages/syncpoint-server/src/application/reality-projection-service.ts:102-112 | what the relevance filter compares a field with in a write check: rooted references of the field's types when all rooted working locators are backed by references, else all rooted locators, else nothing |
| `WriteContext.SeenAsWrittenExact` | packages/syncpoint-server/src/application/reality-projection-service.ts:102-112 | field by field, filter and scope check look at the same locators if and only if: the field has types, its locators are kept by rooting and (for files and resources) backed; or it is an untyped locator field and rooting keeps every locator; or nothing is written |
| `WriteContext.MatchIsHit` | packages/syncpoint-context/src/reality-projection.ts:114-135 | the filter matches a field by the targets it sees; on a field seen as written exactly when the scope check has a hit |
| `WriteContext.SettledFilesAreSeen` | packages/syncpoint-server/src/application/reality-projection-service.ts:107-111 | a write of files whose locators rooting keeps is seen as written on both locator fields and on every typed field |
| `WriteContext.FileHitsExact` | packages/syncpoint-plugin-code/src/index.ts:60-65 | the scope check finds exactly the overlaps of patterns with files |
| `WriteContext.FileHitsAreSeen` | packages/syncpoint-plugin-code/src/index.ts:60-65 | beside any other resources a settled file is still found on the fields of the code plugin |
| `WriteContext.SecondRootingExact` | packages/syncpoint-server/src/application/write-permit-service.ts:142-153 | the second rooting keeps a rooted file locator exactly when it has no outer white space and is no bare drive, whichever absolute roots are used |
| `WriteContext.LoneResourceSeen` | packages/syncpoint-server/src/application/reality-projection-service.ts:107-111 | a lone resource of another type is compared by its rooted locator, unless that is its own |
| `WriteContext.AnchoredNeverOverlapsPlain` | packages/syncpoint-plugin-generic-agent/src/locator.ts:76-82 | no locator that starts at a slash overlaps one whose path does not |
| `Pipeline.WriteProtectionExact` | packages/syncpoint-server/src/application/write-permit-service.ts:256-268 | a memory protects a write if and only if it is live and enforced, its scope overlaps the written resources, and a field has a hit among the targets the filter sees |
| `Pipeline.OverlapSeenAsWrittenProtects` | packages/syncpoint-server/src/application/write-permit-service.ts:256-268 | an overlap on a field that is seen as written is enough |
| `Pipeline.PlainLocatorIsNotProtected` | packages/syncpoint-server/src/application/reality-projection-service.ts:107-111 | a memory naming a non-file resource by its own plain locator overlaps the write and is filtered out, below every POSIX root |
| `Pipeline.LogoIsNotProtected` | packages/syncpoint-server/src/application/reality-projection-service.ts:107-111 | for example the artifact "logo" of a project at "/p" |
| `Pipeline.CustomFieldIsNotProtected` | packages/syncpoint-context/src/reality-projection.ts:114-128 | for every registry, request and rooting: a scope whose fields are neither typed nor locator fields protects no write |
| `Pipeline.AssetTypesAreNotProtected` | packages/syncpoint-plugin-generic-agent/src/index.ts:71-74 | the field assetTypes as the plugin registers it is such a field, although the scope check has a hit on it exactly when a pattern is the locator of a written resource |
| `Pipeline.FileProtectionExact` | packages/syncpoint-server/src/application/reality-projection-service.ts:97-112 | on the fields of the code plugin a live enforced memory protects a write if and only if one of its patterns overlaps one of the files, whatever else is written |
| `Pipeline.DecideWrite` | packages/syncpoint-server/src/application/write-permit-service.ts:234-272 | projection in the rooted context, constraint check and write decision, for a request whose locators are rooted already |
| `Pipeline.CheckWrite` | packages/syncpoint-server/src/application/write-permit-service.ts:73-110 | the same after rooting the file locators of the request |
| `Pipeline.DenialIsHeard` | packages/syncpoint-kernel/src/write-permit.ts:159-175 | a denial of the evaluator always names its blockers, so the write decision counts every one of them |
| `Pipeline.ClearExact` | packages/syncpoint-governance/src/constraint-evaluation.ts:277-307 | in a write check the evaluation is clear exactly when there is no conflict, no memory that protects in the rooted context and no typed violation |
| `Pipeline.WriteCheckExact` | packages/syncpoint-server/src/application/write-permit-service.ts:234-272 | across four packages and for every rooting: a write is permitted if and only if the permit condition holds and the memories are clear in the rooted context |
| `Pipeline.ReviewRuleRefusesWrite` | packages/syncpoint-server/src/application/write-permit-service.ts:234-272 | a live relevant rule that demands a review refuses every write, whatever claims the agent holds |
| `Pipeline.ProtectedScopeRefusesWrite` | packages/syncpoint-kernel/src/write-permit.ts:159-175 | a memory that protects in the rooted context refuses the write, whatever claims the agent holds |
| `Pipeline.FileOverlapRefusesWrite` | packages/syncpoint-server/src/application/write-permit-service.ts:142-272 | a file is protected in every request, whatever else it names: patterns of a live enforced memory that overlap the rooted file refuse the write, for every pair of absolute roots |
| `Pipeline.AnyMatcherProtectsFiles` | packages/syncpoint-server/src/application/write-permit-service.ts:142-272 | a request of files only is protected on the locator fields and every field with types, whatever the matchers |
| `RootedOverlap.RootedOverlapExact` | packages/syncpoint-kernel/src/path-normalize.ts:41-86 | two written paths normalised below one root overlap when one leads to or below the place of the other, and without globs exactly then |
| `RootedOverlap.DirectoryOverlapsBelow` | packages/syncpoint-kernel/src/path-normalize.ts:41-86 | a directory overlaps every path written as the directory, a slash and a rest that never climbs out of it |
| `RootedOverlap.NormalGlob` | packages/syncpoint-kernel/src/path-normalize.ts:41-86 | normalising keeps a trailing glob: it is the glob of the normalised directory |
| `ProtectedFiles.DirectoryIsProtected` | packages/syncpoint-server/src/application/project-memory-service.ts:74-90 | from writing to refusal: naming a directory, with or without a trailing glob, among the files of a memory refuses every request that names a file below it |
| `ProtectedFiles.RelativeModulesExact` | packages/syncpoint-server/src/application/project-memory-service.ts:74-90 | modules are not rooted: below a POSIX root relative module patterns protect a write if and only if one of them is empty and a file is written |
| `ProtectedFiles.ModuleSharesTheRoot` | packages/syncpoint-plugin-code/src/index.ts:63-65 | under any root a module pattern only meets files whose normal form starts with the same segment |
| `ProtectedFiles.ModulesAreNotRooted` | packages/syncpoint-server/src/application/project-memory-service.ts:74-90 | the same relative directory protects the file below it when it is named among the files, and does not when it is named among the modules |
| `Pipeline.RefusalNamesMemory` | packages/syncpoint-kernel/src/write-permit.ts:165-168 | when nothing earlier refuses, the refusal names the protecting memory |
| `LastWrite.LatestIsLast` | packages/syncpoint-kernel/src/sync-gate-evaluate.ts:63-65 | setting entries in turn leaves each agent's last value |
| `LastWrite.LatestSays` | packages/syncpoint-kernel/src/sync-gate-evaluate.ts:63-65 | the map holds a value for an agent exactly when the last entry of the agent in the log has it |
| `LastWrite.LatestIgnoresInterleaving` | packages/syncpoint-kernel/src/sync-gate-evaluate.ts:63-65 | reordering that keeps each agent's own order leaves the map unchanged |
| `GateVotes.LastVotes` | packages/syncpoint-kernel/src/sync-gate-evaluate.ts:64-65 | the map of last votes |
| `GateVotes.TallyVotes` | packages/syncpoint-kernel/src/sync-gate-evaluate.ts:66 | each field is the number of agents with that value, in whatever order the map lists them |
| `GateVotes.CountVotes` | packages/syncpoint-kernel/src/sync-gate-evaluate.ts:56-68 | each field is the number of agents whose last vote is of its kind |
| `GateVotes.CountsSumToVoters` | packages/syncpoint-kernel/src/sync-gate-evaluate.ts:56-68 | the four counts add up to the number of distinct voters |
| `GateVotes.CountsIgnoreInterleaving` | packages/syncpoint-kernel/src/sync-gate-evaluate.ts:56-68 | counts do not depend on how votes of different agents interleave |
| `GateVotes.ComputeAvailableActions` | packages/syncpoint-kernel/src/sync-gate-evaluate.ts:228-263 | the action list of the branches |
| `GateVotes.ActionsExact` | packages/syncpoint-kernel/src/sync-gate-evaluate.ts:228-263 | who may acknowledge, vote, change a vote, steer the gate or only look on, read off roles, acknowledgements and recorded votes |
| `GateVotes.ActionsIgnoreInterleaving` | packages/syncpoint-kernel/src/sync-gate-evaluate.ts:242-245 | available actions do not depend on the interleaving |
| `GateVotes.AllAckedExact` | packages/syncpoint-kernel/src/sync-gate-evaluate.ts:28-32 | all acknowledged exactly when somebody is required and nobody is pending |
| `GateVotes.LivenessIsMonotone` | packages/syncpoint-kernel/src/sync-gate-evaluate.ts:97-158 | over time a gate never falls back from escalation or cancellation, and more acknowledgements never withdraw a quorum |
| `GateVotes.QuorumCountsRequired` | packages/syncpoint-kernel/src/sync-gate-evaluate.ts:37-39 | for every quorum the count of acknowledgements is the count of required agents that acknowledged, if and only if each agent is listed once and only required agents are |
| `GateVotes.OutsiderMeetsQuorum` | packages/syncpoint-kernel/src/sync-gate-evaluate.ts:150-154 | the function alone, on a gate the service never stores: an outsider among the acknowledged opens the quorum |
| `GateService.RunKeeps` | packages/syncpoint-server/src/application/sync-gate-service.ts:125-155 | in every run of calls each acknowledgement is listed once and comes from a required agent, and the list grows by exactly the agents that were heard |
| `GateService.QuorumIsRequiredAgents` | packages/syncpoint-server/src/application/sync-gate-service.ts:125-144 | after every run of a new gate and for every quorum: it is met if and only if that many different required agents acknowledged |
| `GateService.AcknowledgedExact` | packages/syncpoint-server/src/application/sync-gate-service.ts:133-155 | after every run, while the gate blocks, it is marked acknowledged exactly when the agents heard are all the required ones |
| `GateService.OpensOnlyFor` | packages/syncpoint-server/src/application/sync-gate-service.ts:221-263 | safety over all runs: a gate opens only by an explicit resolution, a passed deadline that cancels, or a quorum of different required agents |
| `GateService.QuorumGateExact` | packages/syncpoint-server/src/application/sync-gate-service.ts:157-160 | a quorum gate without deadline or lease that nobody resolves or cancels is open after a run if and only if a quorum of different required agents acknowledged |
| `GateService.AckExact` | packages/syncpoint-server/src/application/sync-gate-service.ts:122-157 | an acknowledgement is taken exactly from a required agent while synchronisation is requested; what it changes, and nothing else |
| `GateService.ResolveAndCancelExact` | packages/syncpoint-server/src/application/sync-gate-service.ts:302-345 | which gates can be resolved and cancelled; an open or cancelled gate stays as it is |
| `Negotiation.RoundStances` | packages/syncpoint-adapters/src/negotiation.ts:142-148 | the latest stance of each agent in a round |
| `Negotiation.DetectDeadlock` | packages/syncpoint-adapters/src/negotiation.ts:134-168 | deadlock: round 2 or later, no new proposal, every participant's stance or silence as in the last round |
| `Negotiation.EvaluateNegotiation` | packages/syncpoint-adapters/src/negotiation.ts:173-237 | the verdict of the branches |
| `Negotiation.VerdictExact` | packages/syncpoint-adapters/src/negotiation.ts:173-237 | each advice by its exact condition on session and messages: closed, past the deadline, agreed, round over, stuck |
| `Negotiation.DeadlockExact` | packages/syncpoint-adapters/src/negotiation.ts:134-168 | deadlock read off the messages: from round 2 on, no proposal or counter-proposal in the round, and the last message of each participant of the same kind as in the round before |
| `Negotiation.VerdictIgnoresInterleaving` | packages/syncpoint-adapters/src/negotiation.ts:134-237 | deadlock test and verdict do not depend on how messages of different agents interleave |
| `Negotiation.AdvancesAreBounded` | packages/syncpoint-adapters/src/negotiation.ts:205-236 | any run that follows the advice advances at most maxRounds - currentRound times |
| `Negotiation.ExpiredRoundsEnd` | packages/syncpoint-adapters/src/negotiation.ts:205-218 | if every look finds its round expired the negotiation ends within maxRounds - currentRound + 1 looks |
| `Negotiation.WaitingExact` | packages/syncpoint-adapters/src/negotiation.ts:220-224 | the count of responses in terms of outsiders, silent participants and repeated entries, and exactly when it tells whether somebody is silent |
| `Negotiation.WaitingOfDistinct` | packages/syncpoint-adapters/src/negotiation.ts:220-224 | for distinct participants it tells so if and only if nobody is silent or fewer outsiders posted than participants are silent |
| `Negotiation.OutsiderEndsTheWait` | packages/syncpoint-adapters/src/negotiation.ts:220-236 | the function alone, on messages the service never stores: a post by an outsider counts as a response |
| `NegotiationService.WaitingTellsSilence` | packages/syncpoint-server/src/application/negotiation-service.ts:75-127 | after every run of a new negotiation it is within its rounds, the count of responses falls short if and only if some participant is silent, and an open session is marked as waiting if and only if nobody is |
| `NegotiationService.NobodyIsPassedOver` | packages/syncpoint-server/src/application/negotiation-service.ts:173-181 | in every run a round is left for the next only when its time is up or every participant has posted in it |
| `NegotiationService.PostExact` | packages/syncpoint-server/src/application/negotiation-service.ts:76-128 | a post is taken exactly from a participant of an open negotiation, is listed last in the current round, and marks the session as waiting exactly when everyone has posted |
| `NegotiationService.EscalateExact` | packages/syncpoint-server/src/application/negotiation-service.ts:212-228 | only a deadlocked or timed-out negotiation is escalated |
| `NegotiationService.OnceOverStaysOver` | packages/syncpoint-server/src/application/negotiation-service.ts:131-185 | a negotiation that a run has ended, by deadlock and timeout too, takes no post and opens no round in any further run while the clock does not run backwards |
| `NegotiationService.TableExact` | packages/syncpoint-adapters/src/negotiation.ts:27-39 | in every run a call leaves the declared table of transitions exactly when it finds an active round deadlocked, or a deadlocked negotiation past its deadline |
| `NegotiationService.ClockSetBackReopens` | packages/syncpoint-server/src/application/negotiation-service.ts:135-144 | with a clock set back a timed-out negotiation opens its next round, since only resolved and escalated sessions are left alone |
| `NegotiationService.ConcludeResolves` | packages/syncpoint-server/src/application/negotiation-service.ts:189-208 | after any run a person can conclude the negotiation; doing so twice is refused |
| `FunctionSpans.CountBraces` | packages/syncpoint-plugin-code/src/function-parser.ts:239-255 | the character loop counts braces outside strings and escapes |
| `FunctionSpans.StringsDoNotCount` | packages/syncpoint-plugin-code/src/function-parser.ts:243-253 | a quoted text may hold any braces |
| `FunctionSpans.PlainBraces` | packages/syncpoint-plugin-code/src/function-parser.ts:251-252 | outside strings the count is opening braces less closing ones |
| `FunctionSpans.EscapesDoNotCount` | packages/syncpoint-plugin-code/src/function-parser.ts:243-246 | an escaped character does not count |
| `FunctionSpans.ParseBraces` | packages/syncpoint-plugin-code/src/function-parser.ts:45-89 | the brace loop computes the spans described below |
| `FunctionSpans.ParseTypeScript` | packages/syncpoint-plugin-code/src/function-parser.ts:35-90 | TypeScript: control keywords are no headers |
| `FunctionSpans.TypeScriptSpans` | packages/syncpoint-plugin-code/src/function-parser.ts:63-80 | every span starts at a line whose matched name is no control keyword and no comment, and carries that name |
| `FunctionSpans.TypeScriptHeadersAreCovered` | packages/syncpoint-plugin-code/src/function-parser.ts:63-80 | every such line starts a span or lies in an earlier one |
| `FunctionSpans.ParseGo` | packages/syncpoint-plugin-code/src/function-parser.ts:144-185 | Go: the same loop with its own header |
| `FunctionSpans.ParsePython` | packages/syncpoint-plugin-code/src/function-parser.ts:96-138 | the indentation loop computes the spans described below |
| `FunctionSpans.BraceSpansOrdered` | packages/syncpoint-plugin-code/src/function-parser.ts:45-89 | spans of brace languages are in order, disjoint and inside 1..n |
| `FunctionSpans.PythonSpansOrdered` | packages/syncpoint-plugin-code/src/function-parser.ts:101-137 | so are Python spans |
| `FunctionSpans.FoundIsUnique` | packages/syncpoint-plugin-code/src/function-parser.ts:233-235 | the first hit is the only one, and a miss means no function covers the line |
| `FunctionSpans.BraceSpansEndRight` | packages/syncpoint-plugin-code/src/function-parser.ts:52-61 | a span starts at a header and ends at the first line where the running brace total is 0 or below, or with the file |
| `FunctionSpans.HeadersAreCovered` | packages/syncpoint-plugin-code/src/function-parser.ts:63-80 | every header line starts a span or lies in an earlier one |
| `FunctionSpans.PythonHeadersStartSpans` | packages/syncpoint-plugin-code/src/function-parser.ts:109-128 | every Python header starts its own span, which ends before the next header or dedent |
| `FunctionSpans.PythonSpanEnds` | packages/syncpoint-plugin-code/src/function-parser.ts:109-128 | a Python span ends before the first later line that starts a function or holds code no deeper than its header, or with the file |
| `TeamTemplate.SlugIsJoinedWords` | packages/syncpoint-adapters/src/agent-team-template.ts:307-311 | a slug is the lower-cased words joined by single hyphens; there is none exactly when the text has no letter or digit |
| `TeamTemplate.SlugIsTight` | packages/syncpoint-adapters/src/agent-team-template.ts:307-311 | no hyphen at the ends, no two in a row |
| `TeamTemplate.SlugKeepsLetters` | packages/syncpoint-adapters/src/agent-team-template.ts:307-311 | a slug keeps all letters and digits of the trimmed, lower-cased text, in order, and holds nothing else but hyphens |
| `TeamTemplate.SlugifyIdempotent` | packages/syncpoint-adapters/src/agent-team-template.ts:307-311 | a slug is its own slug |
| `TeamTemplate.EnsureUniqueMemberKeys` | packages/syncpoint-adapters/src/agent-team-template.ts:281-292 | accepts exactly the lists with distinct keys and names the first repeated key otherwise |
| `TeamTemplate.ParsedKeysAreSlugs` | packages/syncpoint-adapters/src/agent-team-template.ts:36-37 | validation leaves only slugs as keys |
| `TeamTemplate.StemForm` | packages/syncpoint-adapters/src/agent-team-template.ts:302-311 | a stem is the key, after the slug of the prefix if it has one |
| `TeamTemplate.StemsDiffer` | packages/syncpoint-adapters/src/agent-team-template.ts:302-311 | a prefix never makes two keys meet |
| `TeamTemplate.StemsAreDistinct` | packages/syncpoint-adapters/src/agent-team-template.ts:228-253 | for every prefix and every validated template all stems exist and are pairwise distinct |
| `TeamMaterialize.MaterializeExact` | packages/syncpoint-adapters/src/agent-team-template.ts:228-253 | a validated member materialises exactly when its trimmed profile and joined name are not empty, and then to the manifest of its own record |
| `TeamMaterialize.AcceptsMemberExact` | packages/syncpoint-adapters/src/agent-team-template.ts:19-34 | a template member is accepted exactly when its record is, names no version, and its key, if given, is not empty |
| `TeamMaterialize.MaterializeAll` | packages/syncpoint-adapters/src/agent-team-template.ts:232-252 | one failing member fails the team; otherwise one manifest per member, in order |
| `Manifest.NormalizeListExact` | packages/syncpoint-adapters/src/agent-file-manifest.ts:220-222 | lists come out trimmed, without blanks and repetitions, in order of first occurrence, and nothing else is lost |
| `Manifest.NormalizeListFixed` | packages/syncpoint-adapters/src/agent-file-manifest.ts:220-222 | the fixed points are exactly the normal lists, so normalising twice is normalising once |
| `Manifest.ParsedIsNormal` | packages/syncpoint-adapters/src/agent-file-manifest.ts:72-92 | whatever is parsed is normal |
| `Manifest.AcceptsManifest` | packages/syncpoint-adapters/src/agent-file-manifest.ts:57-70 | the schema takes a manifest back exactly when it is in range and its name and profile are not empty |
| `Manifest.AcceptsExact` | packages/syncpoint-adapters/src/agent-file-manifest.ts:57-70 | the schema, key by key |
| `Manifest.DefaultsFillIn` | packages/syncpoint-adapters/src/agent-file-manifest.ts:57-85 | what a record leaves out is filled in, what it says is kept |
| `Manifest.RoleExact` | packages/syncpoint-adapters/src/agent-file-manifest.ts:144-154 | a record keeps its role, else gets the one its profile stands for in any letter case |
| `Manifest.TransformFixed` | packages/syncpoint-adapters/src/agent-file-manifest.ts:72-85 | the transform leaves a normal manifest as it is |
| `Manifest.ManifestRoundTripExact` | packages/syncpoint-adapters/src/agent-file-manifest.ts:112-138 | serialising and parsing gives a normal manifest back exactly when its name and profile are not empty |
| `Manifest.SecondTripExact` | packages/syncpoint-adapters/src/agent-file-manifest.ts:57-138 | a parsed document survives a second trip exactly when the name and profile it was read from are not blank |
| `Manifest.BlankNameIsRefusedLater` | packages/syncpoint-adapters/src/agent-file-manifest.ts:57-75 | a blank name is accepted once and refused when the parsed manifest is written |
| `Manifest.DocumentRoundTrip` | packages/syncpoint-adapters/src/agent-file-manifest.ts:112-138 | a flat document reads back as it parses; a document whose own keys pass the schema reads back as those keys; everything else by the condition on name and profile |
| `Manifest.MixedDocumentChangesMeaning` | packages/syncpoint-adapters/src/agent-file-manifest.ts:116-118 | a file with a complete top level and an agent record of another name is written as the top level but parsed as the record |
| `Manifest.TextRoundTrip` | packages/syncpoint-adapters/src/agent-file-manifest.ts:94-134 | what was written reads back as the document written, in both formats, with the format given or detected, for every pair of libraries that carry that one document |
| `Manifest.ManifestTextRoundTrip` | packages/syncpoint-adapters/src/agent-file-manifest.ts:94-134 | a normal manifest with a name and a profile survives the trip through text |
| `Safety.SafetyGuard.IncrementIteration` | packages/syncpoint-loop-runner/src/safety.ts:38-46 | the counter moves even when the limit is passed; throws exactly above it |
| `Safety.SafetyGuard.RecordFailure` | packages/syncpoint-loop-runner/src/safety.ts:48-58 | the count is stored first; throws exactly from the limit on |
| `Safety.SafetyGuard.RecordSuccess` | packages/syncpoint-loop-runner/src/safety.ts:60-62 | the count of that task id is dropped, the others kept |
| `Safety.HandlersAgreeExact` | packages/syncpoint-loop-runner/src/worker.ts:189-365 | the handlers of tasks and of wakes judge the same answers alike exactly unless a constraint warning blocks the item or a timed-out process ended with code 0 |
| `Safety.EndingExact` | packages/syncpoint-loop-runner/src/worker.ts:189-365 | how an item ends: success, failure, no trace or crash, by what the process and the server answered |
| `Safety.AgentWorker.HandleTask` | packages/syncpoint-loop-runner/src/worker.ts:189-292 | at most one failure or success is recorded; only the failure limit or an unexpected error is thrown |
| `Safety.AgentWorker.HandleWake` | packages/syncpoint-loop-runner/src/worker.ts:298-365 | the same for wake requests |
| `Safety.AgentWorker.HandleItem` | packages/syncpoint-loop-runner/src/worker.ts:148-178 | a counted failure never leaves the loop; an unexpected error does exactly when its count reaches the limit; the worker is idle afterwards |
| `Safety.AgentWorker.Run` | packages/syncpoint-loop-runner/src/worker.ts:118-183 | one worker under a shared guard whose counter others move between passes; a rejected run leaves the worker idle, not shut down |
| `WorkerPool.StepBudget` | packages/syncpoint-loop-runner/src/worker.ts:121-130 | what one event does to the counter and the stopped workers |
| `WorkerPool.BudgetAccount` | packages/syncpoint-loop-runner/src/worker.ts:121-130 | from any state: every increment is a body or a stopped worker, and bodies run exactly while the counter is below the limit |
| `WorkerPool.GlobalLimit` | packages/syncpoint-loop-runner/src/safety.ts:38-46 | N workers in any interleaving run min(counter, maxIterations) bodies, and the counter ends at most at maxIterations + N |
| `WorkerPool.BudgetIsSpent` | packages/syncpoint-loop-runner/src/safety.ts:38-46 | without an abort, once a worker has left its loop all maxIterations bodies have been run and the counter exceeds the limit by the number of workers that left |
| `WorkerPool.HandledWithinBudget` | packages/syncpoint-loop-runner/src/worker.ts:121-130 | however they interleave, the workers together handle at most maxIterations pieces of work |
| `WorkerPool.CountsAreStreaks` | packages/syncpoint-loop-runner/src/worker.ts:155-175 | in any interleaving a worker's count for a task is its failures since its last success, and it is thrown out of run() exactly by an unexpected error that brings a streak to the limit |
| `WorkerPool.SoloRun` | packages/syncpoint-loop-runner/src/worker.ts:118-183 | run() of a worker whose counter nobody else moves is the run of a pool of one: same counter, same failure table, rejected exactly when the pool throws its worker out |
| `WorkerPool.OthersMoveTheCounter` | packages/syncpoint-loop-runner/src/worker.ts:121-130 | other workers only move the counter before a pass |

## Left out

- Message texts, descriptions, log lines and `escalateTo` lists: they decide nothing that is modelled.
- `hashLine` is an arbitrary key function, so the drift results hold for every hash, collisions included.
- Header patterns of the function parsers are parameters; braces, strings and indentation are concrete.
- Aliases and the detection of the platform in path normalisation; the case rule is a parameter.
- Lower-casing is ASCII only, and no lower-casing of other alphabets is modelled.
- JSON and YAML are abstract codecs; of them only what `Manifest.Carries` says is used, about the one document that is
  written. A library that loses something in it, for example blank lines at the end of a text that comes last, is not
  described. Schema checks are lengths and ranges on typed values, so wrong types, `null` values and coercion of version
  strings are not modelled. The profile table is a parameter of the manifest functions; `Manifest.KeywordRole` is the
  repository's.
- Hashes: projection ids are parameters; cache keys and fingerprints are left out.
- Resource ids and metadata fields, which no overlap rule reads.
- Dates are integers; an unparsable date is not modelled.
- The byte decoder, fetch errors, and `JSON.parse` of stream payloads: chunks are decoded text, payloads are text.
- The registries are classes, but the overlap tests read a registry as a value, so registering during a run of the
  loops is not modelled.
- Matchers, plugin evaluators and scope matchers are arbitrary functions; symmetry or reflexivity is assumed only where
  a row says so.
- Database, HTTP, tRPC, child processes, timers, the CLI, the MCP server and the VS Code extension.
- The server's services: where a run is needed the model drives the functions with its own step relation
  (`EventBus.Run`, `GateService.Run`, `NegotiationService.Run`, `WorkerPool.Step`). Their calls are atomic, and what the
  database refuses (a repeated participant) does not happen.
- Votes in `GateService`: a vote changes no gate, and the evaluation does not read votes.
- Two readings of the clock in one call are one instant in `NegotiationService`.
- The interleaving of workers is at the two points where they touch shared state: the loop head and the end of the
  body. Their failure tables are their own.
- Transition tables of tasks, contracts and wakes, `computeNextActions`, escalation routing, context policies, approval
  gates: finite or list-shaped, they would add only easy members.
- PermitTheorems.PermittedWriteIsClean: assumes that the audit sees the claims and gates the permit saw, all claims
  active and in the session's scope.
- ProjectionTheorems.BucketConflictsExact: for distinct memory ids only; with repeated ids the parsed scope of the last
  one is used for all, as in the code, and nothing is stated about that case.
- RootedPath.RootedIsAbsoluteExact: the project root is absolute, as its documentation asks, and no URI; the path has a
  character other than slashes.
- ResourcePath.AppendEquivalenceExact: for paths that are not empty and not a bare drive letter, since appending to
  either changes what the path is absolute to.
- Pipeline.FileOverlapRefusesWrite: for files whose rooted locator has no outer white space and is no bare drive;
  `WriteContext.SeenAsWrittenExact` and `Pipeline.WriteProtectionExact` cover every request.
- ProtectedFiles.DirectoryIsProtected: for one root, used on entry, by the guard and by the projection, and for a file
  whose rooted locator has no outer white space and is no bare drive.
- RootedOverlap.RootedOverlapExact: for paths that are not blank, no URI, no lone drive and not slashes only.
- Pipeline.DecideWrite: the projection cache is not modelled; memories are taken as they are stored, and
  `ProtectedFiles.Entered` is what storing does to their scope.
- Members without a row in the table are helpers, setters of the classes, and lemmas that only spell a definition out.
- PermitTheorems.RefusalAuditsExact: for claims in the session's scope and no gate that meets the resource; with a gate
  the audit raises an alert instead (`FileAudit.AuditVerdictExact`).
- SseFrames.FramesReachClient: for frames whose JSON text is one line and starts with a visible character, as
  serialised JSON does. Of section 9.2.6 of the WHATWG HTML Living Standard the readers handle line feeds and data
  fields only, and so does the model.
- Reason texts of projection routes and names of rules matter to the model only for the enforcement mark.
- ScopeTheorems.CollisionExact: for scopes that have each field once, as objects do.
- OverlapTheorems.FileClaimsQuietExact: for claims on whole files without globs; `OverlapTheorems.QuietExact` and
  `PluginOverlapExact` cover every claim.
