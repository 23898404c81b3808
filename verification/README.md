# Interstellar, verified

Interstellar is a review loop: it edits an agent's harness (skills, configuration, rules), replays a
prompt with and without the edit, and decides from the paired runs whether the edit helped. A Rust
controller for pseudo-terminals sits beside it. This project models the parts of it whose promises are
hard to see from the code alone, and proves those promises for all inputs, all random draws and all
interleavings. `dafny verify dfyconfig.toml` checks everything.

| files | what they model |
|---|---|
| `Common`, `Binomial`, `Matching` | sorting, filtering and their specifications, powers of two, binomial sums, first-in-first-out matching |
| `SignFlip`, `PermutationTest`, `PassK`, `Bootstrap`, `Resamples`, `Medians`, `Statistics`, `SummaryFacts`, `Grading`, `Gate` | `stats.py` and `grade.py`: from runs to a verdict |
| `Lines`, `Ranges`, `Sections`, `Patches`, `Harness`, `PatchEffects`, `VersionId`, `Identity` | `patches.py` and `harness.py`: line-based edits and version ids |
| `Toml`, `TomlFacts`, `McpConfig`, `Seal`, `SealLaws`, `SealTheorems`, `SealCounts`, `SealRuns` | `harness.py`: edits of the TOML configuration |
| `Scheduler`, `Turns` | `_rank_and_select` in `cli.py` |
| `ToolEvents`, `ToolFacts`, `Spans`, `SpanFacts` | the two event-log machines |
| `DiffText`, `DiffRows`, `DiffFacts` | the unified-diff parser and the row renderer of `report.py` |
| `PtySession`, `PtyRuns`, `Screen`, `ScreenFacts` | the PTY session protocol and the two renderings of its grid |

Loops are methods proved against specification functions; the promises are lemmas about those functions. What a
specification function computes is itself pinned by lemmas that do not name its definition: counts, filters and
positions in the input, both directions of each condition, and the steps of a run.
Randomness, the judge model, the trace detectors and the digest are arbitrary functions or tables, so every
statement holds whatever they return. A loop's `hide` statements only keep definitions out of a proof that
does not need them.

## Where the code stops short of a promise

The model follows the code. Each entry is a lemma that says exactly when the promise holds,
and one at an input where it does not.

- "A crash dominates every other signal": it always rejects, but the reading is `unknown`, not `unfavorable`,
  when no repeat finished on both arms (`Gate.ReviewCrash`, `Gate.LoneCrash`).
- The reported minimum p-value is attained "only when every nonzero delta points the same direction": the
  converse needs every delta to be larger than the comparison slack (`SignFlip.FloorAttained`,
  `SignFlip.HiddenDeltasMissFloor`), and the sampled branch can report less (`PermutationTest.SampledFloor`,
  `PermutationTest.SampledBelowFloor`, `PermutationTest.OnesBelowMinimum`). The same slack decides when the permutation test agrees with the sign test (`SignFlip.UniformAgreesWithSignTest`,
  `SignFlip.HiddenDeltasDisagree`).
- Duplicate calls are described as having byte-identical arguments; the table compares the first 400 characters
  (`Spans.GradedRepeats`, `Spans.LongArgumentsConfused`).
- Sealing forces every cell to false on every text and reports so on a second run (`SealRuns.SealHolds`), but the
  text settles only with the second run where a header was appended to an unterminated blank line
  (`SealRuns.IdempotentExactly`, `SealRuns.SecondRunUnindents`, `SealRuns.BlankTextUnindented`).
- A truncate patch is validated against the last skill of its name and applied to the first
  (`Patches.RequestAppliesExactly`, `Patches.DuplicateNameRefused`).
- The rewritten skill text of an insertion at the end of an unterminated text cannot be undone by deleting the
  inserted range (`Harness.InsertThenTruncate`, `Harness.GluedInsertStays`).
- Removing a nested table by its dotted name can take a server's last header and leave the server listed
  (`McpConfig.RemovalKeepsList`, `McpConfig.NestedRemovalLeavesStale`).
- A repeated patch id loses a patch under some budget (`Scheduler.NothingLost`, `Scheduler.DuplicateIdLost`).
- An event that brings an id in use breaks the tool table, save one kind of completion that it does not see
  (`ToolEvents.ConsistentExactly`, `ToolEvents.SyntheticIdBreaks`).
- A resize after the output has ended changes the grid without a new generation (`PtySession.QuietGeneration`,
  `PtySession.WakeupLost`).
- A changed line that reads as a file header is lost by the diff parser (`DiffText.ParsePrinted`,
  `DiffText.DashedLineLost`).
- A shown cursor on a cell with zero-width characters makes the two renderings of a line differ
  (`Screen.LinesCarrySameText`, `Screen.CursorCellDiffers`).

## Model

| member | source | states |
|---|---|---|
| `PermutationTest.Test` | interstellar/stats.py:359-399 | the bitmask enumeration yields the fraction of all 2^n sign assignments at least as extreme as the observed mean; above the cutoff, the fraction of the drawn ones; empty input, direction and reported minimum included |
| `PermutationTest.MasksAreAssignments` | interstellar/stats.py:373-381 | enumerating all bitmasks counts every sign assignment once, whatever is counted |
| `PermutationTest.TestSigns` | interstellar/stats.py:304-322 | the sign test's p-value is the clamped two-sided binomial tail over the nonzero deltas, with its direction |
| `PermutationTest.TestReports` | interstellar/stats.py:359-399 | how many deltas there are and how many are nonzero, which branch is taken, no result exactly for no deltas, the direction as the sign of their sum, the mean, and the published minimum as a function of the nonzero count |
| `SignFlip.PValueFloor` | interstellar/stats.py:343-357 | no delta list with a nonzero entry reports an exact p below 2·(1/2)^n_nonzero |
| `SignFlip.FloorAttained` | interstellar/stats.py:343-381 | that floor is attained exactly when one delta is nonzero, or all nonzero deltas agree in sign and none is hidden by the slack; with slack 0, exactly when they agree in sign |
| `SignFlip.HiddenDeltasMissFloor` | interstellar/stats.py:368-381 | two deltas equal to the slack point the same way and report more than the floor |
| `SignFlip.UniformAgreesWithSignTest` | interstellar/stats.py:304-313 | on deltas of one magnitude, zeros and clamp included, the permutation test and the sign test agree exactly when the slack is below the gap between sign counts or the signs are balanced up to one |
| `SignFlip.HiddenDeltasDisagree` | interstellar/stats.py:304-313 | on the same two deltas the permutation test and the sign test disagree |
| `PermutationTest.SampledFloor` | interstellar/stats.py:383-393 | for each number of samples, the sampled branch respects the floor for every table of draws exactly when every sign assignment is extreme |
| `PermutationTest.SampledBelowFloor` | interstellar/stats.py:383-393 | two or more deltas that agree in sign and are not hidden by the slack: for each number of samples some draws report less than the floor |
| `PermutationTest.OnesBelowMinimum` | interstellar/stats.py:348-399 | with more deltas of one than are enumerated, some draws make the result's p smaller than the minimum it reports as achievable |
| `PermutationTest.ErrorControl` | interstellar/stats.py:328-341 | exact error control: of the data sets that arise by flipping signs, all equally likely, at most a share of alpha gets an exact p of at most alpha |
| `Binomial.TailComplement` | interstellar/stats.py:311-313 | picking at most a of k and at most k-1-a of k add up to 2^k, the symmetry the two-sided tail uses |
| `PassK.PassKIsSubsetFraction` | interstellar/stats.py:427-440 | C(c,k)/C(n,k) is the fraction of k-element subsets of the trials in which every trial succeeded |
| `PassK.PassKReports` | interstellar/stats.py:427-443 | trials and successes counted, no estimate exactly for no trials or for more asked than run, each note with its condition |
| `PassK.PlugInIsOptimistic` | interstellar/stats.py:404-411 | the estimate lies between 0 and (c/n)^k, strictly below it exactly when k is at least 2 and the outcomes are mixed |
| `PassK.DegenerateIsIndicator` | interstellar/stats.py:416-443 | with k equal to n, given or by default, the value is 1 when all trials succeeded and 0 otherwise, and is flagged degenerate |
| `Bootstrap.PercentileOrder` | interstellar/stats.py:91-106 | an interpolated percentile stays within the sample's bounds and grows with the percentage |
| `Bootstrap.PercentileIsLinear` | interstellar/stats.py:91-106 | the percentile is the value at that share of the way through the ascending sample, on the straight line between its two neighbours |
| `Bootstrap.PairedBootstrap` | interstellar/stats.py:151-173 | the resampling loop computes the specified interval, with its sample-size gating and the number of distinct resamples |
| `Bootstrap.BootstrapReports` | interstellar/stats.py:151-173 | count, mean, note and bounds of the interval, from any ascending arrangement of the resamples' means |
| `Resamples.DistinctResamplesCounted` | interstellar/stats.py:109-119 | the reported C(2n-1, n) is the number of different resamples: the multisets that n draws from n samples can yield |
| `Bootstrap.IntervalWithinData` | interstellar/stats.py:133-173 | for every table of draws an interval is reported exactly from ten samples on, ordered, and inside the range of the deltas |
| `Bootstrap.PositiveNeedsPositive` | interstellar/stats.py:158-170 | a positive lower bound or mean needs a strictly positive delta |
| `Statistics.WinRate` | interstellar/stats.py:221-276 | counts, rate, resampled rates without undecided resamples, the notes of every sample-size regime, and the distinct resamples of the decided pairs |
| `SummaryFacts.WinRateReports` | interstellar/stats.py:221-276 | wins, losses and ties are how often each verdict occurs, the rate is wins over decided pairs, each note has its condition, and the bounds are the 2.5 and 97.5 percent points of the ascending resampled rates |
| `SummaryFacts.RatePerDraw` | interstellar/stats.py:255-262 | each draw gives the win rate of its own resample, or nothing when it has no decided pair |
| `SummaryFacts.VerdictsOfJudged` | interstellar/stats.py:221-226 | the verdicts counted are those of the judged grades, in order |
| `Statistics.WinIntervalHonest` | interstellar/stats.py:191-219 | whatever is drawn, wins, losses and ties add up; an interval is an ordered part of [0,1], rests on ten decided pairs, and is above zero only with an actual win |
| `Statistics.MetricPairs` | interstellar/stats.py:446-464 | a pair is used for a metric exactly when both sides report it, in order, as control minus treatment |
| `Statistics.EfficiencyDeltas` | interstellar/stats.py:497-532 | every metric gets the entry `SummaryFacts.EntryReports` describes |
| `Medians.MedianExactly` | interstellar/stats.py:518-524 | a value is the median exactly when it is halfway between two readings a and b, such that at least half are at most a and fewer than half below it, and at least half are at least b and fewer than half above it |
| `SummaryFacts.EntryReports` | interstellar/stats.py:497-532 | an entry is computed from exactly the pairs where both sides report the metric: their number, either side's median, the difference, its share of the control median unless that is zero, and the bootstrap of control minus treatment |
| `Statistics.Summarize` | interstellar/stats.py:603-637 | usable pairs, failures per arm, win rate, permutation test of the claimed metric, efficiency, pass^k of the treatment outcomes, flattened regressions and judge consistency; no summary for an unknown effect |
| `SummaryFacts.SummaryReports` | interstellar/stats.py:603-637 | pairs, usable pairs, failures per arm, judged and agreed pairs, pass^k counts and the pairs of the permutation test are counts of grades with a stated property |
| `SummaryFacts.RegressionsFlattened` | interstellar/stats.py:634-634 | the flattened regressions are the grades' lists one after the other |
| `SummaryFacts.EffectsHaveMetrics` | interstellar/stats.py:55-61 | each claimable effect is tested on its own metric and any other name on none |
| `Statistics.JudgeConsistency` | interstellar/grade.py:702-715 | judged pairs, the ones on which the judge agreed with itself, and their rate |
| `Grading.AskWithRetry` | interstellar/grade.py:581-601 | the first parseable answer within two attempts, and how many were made |
| `Grading.JudgeArms` | interstellar/grade.py:626-666 | both orders are asked; no verdict when either stays unparseable, a tie when they disagree |
| `Grading.VerdictOfAnswers` | interstellar/grade.py:626-666 | what the four possible answers of the judge, asked twice per order, make of a pair: verdict, consistency or no verdict |
| `Grading.SwapMirrorsVerdict` | interstellar/grade.py:652-666 | swapping the arms mirrors the verdict for every judge; a verdict is decided exactly when the same response won from both positions |
| `Grading.GradeMatrix` | interstellar/grade.py:727-805 | one grade per repeat up to the shorter arm; its regressions are the detectors' list, kept whole when both runs are traced, then a run-failed entry exactly when control finished and treatment did not, a turn-count entry exactly when treatment took more than half as many turns again as a positive control count, and a judge-unavailable entry exactly when both finished and the judge gave no verdict |
| `Gate.Decide` | interstellar/stats.py:814-1080 | the closed form of the gate: what accepted, provisional, directional and the evidence field are equivalent to |
| `Gate.DirectionalMeans` | interstellar/stats.py:658-692 | favorable exactly when neither the win count nor the claimed metric's mean points against and one points for; unfavorable exactly the other way round |
| `Gate.ImprovementMirrored` | interstellar/stats.py:640-657 | neither the improvement check nor the direction depends on which way a metric counts: negating mean and bounds of one that counts the other way round changes nothing |
| `Gate.Review` | interstellar/stats.py:695-1080 | for every judge, detector and table of draws, a patch is accepted exactly when some pair is usable, five are judged, there is no loss or else ten are judged and the win rate's lower bound is one half, no grade has a high regression, the claimed metric improved (by its lower bound from ten pairs on, by its mean before), and the token medians are within the allowed growth where they can be compared. An accepted patch has no high entry in what the detectors report of a repeat traced on both arms, no repeat where control finished and treatment failed, an actual win and ten decided pairs if there is a loss, a repeat that strictly improved the claimed metric and, unless provisional, middle token readings within the growth |
| `Gate.DecidedPairsAgreed` | interstellar/grade.py:652-666 | every decided pair of a graded matrix is one on which the judge agreed with itself, so wins and losses never exceed the agreed pairs |
| `Gate.ReviewCrash` | interstellar/stats.py:764-771 | a crash rejects without a provisional verdict; the reading is unfavorable exactly when some repeat finished on both arms |
| `Gate.LoneCrash` | interstellar/stats.py:764-771 | one repeat in which only treatment crashed is rejected and read as unknown |
| `Gate.CrashIsHigh` | interstellar/grade.py:250-263 | a repeat where control finished and treatment did not puts a high-severity regression in the summary |
| `Lines.JoinSplit` | interstellar/harness.py:512-530 | splitting into lines with their terminators and joining gives the text back |
| `Lines.SplitJoin` | interstellar/harness.py:512-530 | joining well-formed lines and splitting gives the lines back |
| `Ranges.ValidateAndCoalesce` | interstellar/patches.py:247-299 | the valid cited ranges, sorted and merged when they touch; every other citation is reported as dropped, in order |
| `Ranges.CitedLines` | interstellar/patches.py:247-299 | a line is covered exactly when a citation that is in order and in bounds names it |
| `Ranges.RejectedAre` | interstellar/patches.py:247-299 | the dropped citations are those out of order or out of bounds, in input order |
| `Ranges.MergeRanges` | interstellar/harness.py:490-499 | the given ranges, sorted and merged when they overlap |
| `Ranges.NormaliserKeepsLines` | interstellar/patches.py:247-299 | either normaliser yields ascending disjoint ranges that cover exactly the given lines |
| `Ranges.NormalisersAgree` | interstellar/harness.py:490-499 | the two normalisers cover the same lines, and re-merging coalesced ranges changes nothing |
| `Ranges.SeparatedCount` | interstellar/patches.py:243-244 | the line count of disjoint ranges is the size of their union |
| `Ranges.DeleteRanges` | interstellar/harness.py:523-530 | deleting from the highest range down keeps exactly the lines outside the ranges, in order, and counts the others |
| `Sections.SplitSections` | normalizer/grok_normalize.py:89-102 | consecutive ranges from the first to the last line, cut exactly at the headings, each with its title |
| `Sections.SectioningUnique` | normalizer/grok_normalize.py:92-101 | those cuts are the only ones: a text has one sectioning |
| `Sections.DropSections` | normalizer/grok_normalize.py:89-102 | deleting any set of whole sections leaves the other sections one after another; dropping none gives the text back |
| `Sections.CountOrphans` | interstellar/patches.py:302-340 | the number of surviving headings without a body plus surviving paragraphs whose heading was deleted |
| `Sections.WholeSectionsLeaveNoOrphan` | interstellar/patches.py:302-340 | dropping any set of whole sections leaves no orphan exactly for texts whose every heading is followed by a non-heading line |
| `Patches.BuildTruncate` | interstellar/patches.py:345-400 | the request of an unskipped truncate patch, the dropped citations and the orphan count |
| `Patches.RequestApplies` | interstellar/patches.py:373-400 | where the skill's name is unique, an unskipped patch applies, deletes exactly the union of its valid citations, and reports that many lines, between 1 and 60 |
| `Patches.RequestAppliesExactly` | interstellar/harness.py:502-521 | in general it applies exactly when its ranges fit the first skill of the name |
| `Patches.DuplicateNameRefused` | interstellar/patches.py:555-567 | two skills of one name: the patch is built against the second and refused by the first |
| `Patches.WholeSectionTruncation` | interstellar/patches.py:302-400 | citing whole sections of a uniquely named skill yields a patch exactly when they have between 1 and 60 lines; it applies, reports those lines, leaves the text of the other sections, and no orphan when every heading has a body |
| `Harness.ApplyTruncate` | interstellar/harness.py:502-537 | a missing skill, no ranges or a range out of bounds is a skip; otherwise exactly the covered lines go and their number is reported |
| `Harness.ApplyRemoveServer` | interstellar/harness.py:590-616 | a server without a header is a skip; otherwise text, list and line count after the removal |
| `Harness.Apply` | interstellar/harness.py:632-665 | applying a list is folding the patches from left to right; what each kind of patch does is said by the lemmas of `PatchEffects` |
| `PatchEffects.RemoveSkillEffect` | interstellar/harness.py:540-551 | the first skill of the name goes, the others stay in order, nothing else changes, and the lines of its text are reported |
| `PatchEffects.RemovedForGood` | interstellar/harness.py:540-551 | where at most one skill has the name, none has it after any list with a removal of it |
| `PatchEffects.MissingSkillSkips` | interstellar/harness.py:463-467 | a truncate, remove or insert patch for a name no skill has is skipped and changes nothing |
| `PatchEffects.TruncateEffect` | interstellar/harness.py:502-537 | it applies exactly when ranges are given and all in bounds; the first skill of the name keeps exactly its uncovered lines, nothing else changes, and the number of covered lines is reported |
| `PatchEffects.InsertEffect` | interstellar/harness.py:554-587 | it applies exactly with some text and an anchor between the beginning and the last line; the text stands after the anchor line, its last line ended, and its lines are reported |
| `PatchEffects.AppendRuleEffect` | interstellar/harness.py:619-629 | it applies exactly with some text, which becomes the last rule; all else stays |
| `PatchEffects.RemoveServerEffect` | interstellar/harness.py:590-616 | text and list change as the removal says; skills and rules stay |
| `PatchEffects.UnknownSkipped` | interstellar/harness.py:632-665 | a patch of an unknown kind is skipped and changes nothing |
| `Harness.RunConcat` | interstellar/harness.py:632-665 | applying a concatenation is applying one list after the other, reports in order |
| `Harness.RunReports` | interstellar/harness.py:640-654 | one report per patch, in order; if none applied, the version is unchanged |
| `Harness.InsertThenTruncate` | interstellar/harness.py:554-587 | inserting and truncating the inserted range restores the version exactly when the anchor, the beginning by default, is before the end or the text ends its last line |
| `Harness.GluedInsertStays` | interstellar/harness.py:575-587 | a one-line unterminated skill is not restored |
| `Harness.UntargetedKept` | interstellar/harness.py:632-665 | whatever a list of patches does, skills that none of them targets stay unchanged and in order, the configuration changes only by a removed server, and rules are only added at the end |
| `VersionId.HashInput` | interstellar/harness.py:101-110 | the updates feed the NUL-separated sorted skill pairs, the configuration digest and the rules to the digest |
| `VersionId.HashedLaws` | interstellar/harness.py:101-110 | the hashed string from the inside out: nothing but the configuration's digest; a rule goes last after a NUL; a skill that sorts first goes first, as name, NUL, digest, NUL |
| `VersionId.KeyLeqMeans` | interstellar/harness.py:101-103 | skills sort by name, those of one name by digest |
| `VersionId.HashedDecodes` | interstellar/harness.py:88-111 | equal hashed strings come from the same multiset of skills, the same configuration digest and the same ordered rules, for NUL-free names and rules and no name of digest form |
| `VersionId.HashedOrderFree` | interstellar/harness.py:92-94 | the order in which skills are listed does not matter |
| `VersionId.DigestNameCollides` | interstellar/harness.py:101-110 | without the condition on names, a skill named like a digest passes for the configuration |
| `VersionId.NulRuleCollides` | interstellar/harness.py:108-110 | without the condition on rules, a rule with NUL passes for two rules |
| `Identity.IdentifiesHarness` | interstellar/harness.py:88-111 | two versions hash the same string exactly when they are the same harness up to skill order, given no digest collision among their texts |
| `Identity.AppliedIsChanged` | interstellar/harness.py:502-629 | a patch of any kind is reported as applied exactly when it changes the harness |
| `Identity.AppliedChangesId` | interstellar/harness.py:96-100 | control and treatment hash different strings exactly when the patch applies |
| `McpConfig.Remove` | interstellar/harness.py:590-616 | the flag loop removes the lines its header owns, and the server from the list |
| `McpConfig.RemovalReports` | interstellar/harness.py:590-616 | not found exactly without a header of the server; otherwise the list loses exactly that name and the number of removed lines is reported |
| `McpConfig.RemovesOwnedLines` | interstellar/harness.py:594-613 | exactly the lines owned by the server's header or a nested one go, and a second removal finds nothing |
| `McpConfig.RemovalsCommute` | interstellar/harness.py:594-611 | removals commute on text, for any two names |
| `McpConfig.RemovalKeepsList` | interstellar/harness.py:601-612 | the server list keeps matching the dotless names in the headers exactly when the removed name is dotless or takes no server's last header |
| `McpConfig.NestedRemovalLeavesStale` | interstellar/harness.py:601-612 | with only `[mcp_servers.a.b]` in the text, removing `a.b` leaves `a` listed without a header |
| `Toml.SweepIsKeep` | interstellar/harness.py:597-611 | keeping what no matching table owns is deleting the owned lines |
| `TomlFacts.HeaderIsShaped` | interstellar/harness.py:58-58 | every line read as a header is blanks, one or two opening brackets, a name without brackets, one or two closing ones, and blanks; the header is the name without the blanks around it |
| `TomlFacts.ShapedIsHeader` | interstellar/harness.py:58-58 | and every line with those parts is read as the header of that name |
| `TomlFacts.OwnedMeans` | interstellar/harness.py:597-611 | a line is owned by the last header at or before it |
| `TomlFacts.CellIsShaped` | interstellar/harness.py:308-320 | every line read as a cell has the pattern's parts: a name, an equals sign, true or false, and blanks or a comment |
| `TomlFacts.ShapedIsCell` | interstellar/harness.py:308-320 | and every line with those parts is read as that cell and value |
| `Seal.FindTableBlock` | interstellar/harness.py:284-305 | the first table of that exact name, from its header to the next header of any name |
| `Seal.SealConfig` | interstellar/harness.py:327-362 | the text and the notes after sealing both vendors in turn |
| `TomlFacts.SealedInPlace` | interstellar/harness.py:337-362 | a vendor's first table is replaced where it stands, from its header to the next header of any name |
| `TomlFacts.SealedAtEnd` | interstellar/harness.py:337-345 | a vendor without one gets it at the end, after a blank line unless the text ends with one |
| `TomlFacts.NoteLists` | interstellar/harness.py:327-362 | added exactly without a table; otherwise the cells that were not false, in the cells' order, or already sealed |
| `SealRuns.SealHolds` | interstellar/harness.py:327-362 | on every text: both tables have all six cells false, a second run reports both already sealed, and from the second run on nothing changes |
| `SealRuns.NoteMeansFalse` | interstellar/harness.py:311-358 | a table is reported as already sealed exactly when all six cells are false in it |
| `SealRuns.RestKept` | interstellar/harness.py:337-362 | on every text the lines outside the compat tables stay in order: a newline may follow them, and a last blank line that a header was glued to is no longer among them |
| `SealRuns.SecondRunUnindents` | interstellar/harness.py:337-362 | on a glued text the second run takes that blank off the one header and does nothing else |
| `SealRuns.IdempotentExactly` | interstellar/harness.py:337-362 | the text is settled after one run exactly where no appended header is glued to an unterminated blank line |
| `SealRuns.BlankTextUnindented` | interstellar/harness.py:337-362 | on a text of one unterminated blank the second run reports both tables already sealed and still changes the text |
| `SealCounts.OneTablePerVendor` | interstellar/harness.py:330-336 | on every text a vendor without a table gets one and no vendor gets a second one |
| `Scheduler.RankAndSelect` | interstellar/cli.py:452-498 | the cursor-driven loops yield the two lists whose size, order, fairness and contents the rows below state |
| `Turns.RankedByScore` | interstellar/cli.py:455-460 | a class is ranked by descending score, ties by id, and holds exactly its own patches |
| `Scheduler.SelectionSize` | interstellar/cli.py:462-474 | the loop ends with as many patches as the budget and the appliable ones allow |
| `Scheduler.SelectionIsFair` | interstellar/cli.py:462-474 | of the selected patches each class gives a prefix of its ranked ones, and a class is behind another by more than one only when exhausted |
| `Turns.FirstSeenFirst` | interstellar/cli.py:452-474 | at every point of the selected list, a class whose first appliable patch comes before another's has given at least as many, or all it has |
| `Turns.KthInTurn` | interstellar/cli.py:462-474 | the k-th patch of a class is selected after the k-th of any class seen before it that has as many |
| `Turns.FirstSelected` | interstellar/cli.py:462-474 | with a positive budget the first selected patch is the top-ranked one of the first appliable patch's class |
| `Turns.DroppedInOrder` | interstellar/cli.py:475-498 | dropped are each class's unselected patches in ranked order, then the patches skipped already in input order |
| `Scheduler.NothingLost` | interstellar/cli.py:475-498 | under every budget selected and dropped patches together are a permutation of the input exactly when the ids of the appliable patches are unique |
| `Scheduler.DuplicateIdLost` | interstellar/cli.py:475-482 | with a repeated id and a budget of one, a patch disappears from both lists |
| `ToolEvents.ReadEvents` | hackathon/session-analysis/sa/normalize.py:384-507 | the loop over turns, tools, queues and permissions, event by event |
| `ToolEvents.CompleteCall` | hackathon/session-analysis/sa/normalize.py:438-490 | a completion takes the oldest open start of its name, re-keys or creates the record, and lists it once in the current turn |
| `ToolFacts.CompletedCall` | hackathon/session-analysis/sa/normalize.py:438-490 | the completed record: start and permissions from the oldest open start, else from the record its id has, else empty; end, name and outcome from the event; the duration given, or from start to end and never negative, or unknown, or kept; the turn that is running |
| `ToolFacts.OtherCallsKept` | hackathon/session-analysis/sa/normalize.py:444-468 | every other record stays as it is, and the taken start's key leaves when the completion has an id |
| `ToolFacts.MeasuredFromOldest` | hackathon/session-analysis/sa/normalize.py:470-478 | in a log without clashing ids, a call without a duration lasts from the oldest untaken start of its name to its end |
| `ToolFacts.StartedCall` | hackathon/session-analysis/sa/normalize.py:419-436 | a start makes an empty record with the next synthetic id, last in the table and in its name's queue |
| `ToolFacts.RequestMarks` | hackathon/session-analysis/sa/normalize.py:492-498 | a request marks exactly the newest unmarked call of its name |
| `ToolFacts.DecisionRecorded` | hackathon/session-analysis/sa/normalize.py:500-510 | a decision, with its wait if any, goes to exactly the newest call of its name |
| `ToolFacts.TurnRecorded` | hackathon/session-analysis/sa/normalize.py:388-417 | a turn over any events before the next one: its start, last first-token, number of loops, how and when it last ended, and exactly the calls completed in it, each once; other turns stay |
| `ToolEvents.StepExactly` | hackathon/session-analysis/sa/normalize.py:384-507 | a consistent state stays consistent exactly under an event that brings no id in use, or a completion without a timestamp, outside a turn, with the id of a later open call of its own tool |
| `ToolEvents.OverlookedTable` | hackathon/session-analysis/sa/normalize.py:444-478 | after such a completion the oldest start's record has replaced that of the call that stays open, which is still queued and uncompleted |
| `ToolEvents.ConsistentExactly` | hackathon/session-analysis/sa/normalize.py:384-507 | every log: the state is consistent after every event exactly when each event is of those two kinds |
| `ToolEvents.RunConsistent` | hackathon/session-analysis/sa/normalize.py:384-490 | after every log whose ids are external: keys are their records' ids, open ids are distinct, present and uncompleted, and a turn lists a present id once |
| `ToolEvents.ExternalFresh` | hackathon/session-analysis/sa/normalize.py:424-453 | external ids are never in use, whatever the log |
| `ToolEvents.SyntheticIdBreaks` | hackathon/session-analysis/sa/normalize.py:424-453 | a log that brings an id of a synthetic form overwrites a call that is still open |
| `ToolEvents.FirstInFirstOut` | hackathon/session-analysis/sa/normalize.py:419-447 | in every log that brings no id in use, the starts still queued under a name are exactly the last ones, in order |
| `ToolFacts.TakenIsLeast` | hackathon/session-analysis/sa/normalize.py:444-447 | how many starts of a name are taken is the least, over all cuts of the log, of the starts before and the completions after the cut |
| `ToolEvents.CompletionTakesOldest` | hackathon/session-analysis/sa/normalize.py:444-478 | after such a log any completion carries the time of the oldest start of its name that none has taken |
| `ToolEvents.RecordsConserved` | hackathon/session-analysis/sa/normalize.py:419-468 | the table has one record per start and per unannounced completion, less one per repeated id |
| `ToolEvents.LatestIsLast` | hackathon/session-analysis/sa/normalize.py:492-507 | the reversed search finds the most recently inserted matching record, or none exists |
| `Spans.Walk` | normalizer/grok_normalize.py:224-376 | spans and pending waits after the walk: each call starts at the oldest unused start of its name and carries the waits since the last completion |
| `SpanFacts.SpanPerEvent` | normalizer/grok_normalize.py:224-376 | one span per connection, turn and completed call, in log order; a call's kind, name, preview, skill, start and wait read off the log |
| `SpanFacts.UsedIsLeast` | normalizer/grok_normalize.py:278-287 | how many starts of a name are used up is the least, over all cuts of the log, of the starts before and the completions after the cut |
| `SpanFacts.StartsInOrder` | normalizer/grok_normalize.py:278-279 | the starts of a name are taken from the log in order |
| `SpanFacts.WaitsSinceLast` | normalizer/grok_normalize.py:280-296 | a call waited the sum of what its name was granted since the name's last completion |
| `Spans.Normalize` | normalizer/grok_normalize.py:378-425 | the walk's spans, then one per slash activation of a skill no span loaded |
| `SpanFacts.LoadedSkills` | normalizer/grok_normalize.py:382-382 | a skill counts as loaded exactly when a completed call, no dispatch or subagent, loaded it |
| `SpanFacts.SlashesFollow` | normalizer/grok_normalize.py:378-425 | the slash activations of other skills follow in log order, each with its name and time |
| `Spans.WaitsConserved` | normalizer/grok_normalize.py:278-296 | waits charged to calls plus waits no completion claimed equal every wait resolved |
| `Spans.DuplicateTable` | normalizer/grok_normalize.py:468-471 | one entry for each tool and preview that more than one call has, with how many have it and the first 160 characters, and no other entry; most frequent first |
| `Spans.DuplicateCalls` | interstellar/grade.py:119-120 | the graded metric is the number of calls minus the number of distinct signatures |
| `Spans.GradedRepeats` | normalizer/grok_normalize.py:464-471 | from a log to the metric: never below the repeats of a tool with byte-identical whole arguments, slash activations included, and equal to them exactly when no two completions of one tool have different arguments that agree on the first 400 characters |
| `Spans.LongArgumentsConfused` | normalizer/grok_normalize.py:300-301 | a log of two such completions has no repeated call and a metric of one |
| `DiffText.ParseDiff` | interstellar/report.py:450-498 | path and hunks read line by line, irregular lines tolerated |
| `DiffFacts.ReadInOrder` | interstellar/report.py:450-498 | a diff is read line by line, from an empty one |
| `DiffFacts.BarePathMeans` | interstellar/report.py:438-447 | a path loses the blanks around it and then one leading `a/` or `b/` |
| `DiffFacts.OldFileRead` | interstellar/report.py:466-468 | an old file's header names the path only while there is none |
| `DiffFacts.NewFileRead` | interstellar/report.py:469-473 | a new file's header names the path unless it names no file |
| `DiffFacts.HunkHeaderRead` | interstellar/report.py:474-483 | a hunk header opens a hunk of its ranges without lines |
| `DiffFacts.BodyLineRead` | interstellar/report.py:484-498 | any other line goes last into the open hunk, read by its first character, and nowhere before the first hunk |
| `DiffText.ParsePrinted` | interstellar/report.py:450-498 | parsing a printed diff loses exactly the changed lines that read as file headers, so it gives the diff back exactly when there are none |
| `DiffText.DashedLineLost` | interstellar/report.py:465-469 | a hunk whose only line is a deletion starting with two dashes and a blank is read back empty |
| `DiffText.ReadPrintedHeader` | interstellar/report.py:474-483 | a printed hunk header reads back whatever follows it, single-line ranges included |
| `DiffRows.HunkRows` | interstellar/report.py:543-600 | the rows of a hunk, with deletions and additions of a changed block paired by index |
| `DiffRows.SidesInOrder` | interstellar/report.py:543-600 | either side of the rows shows exactly that file's lines of the hunk, in order, the k-th numbered start plus k, however deletions and additions are paired |
| `DiffRows.RowPerLine` | interstellar/report.py:553-599 | one row per line of the hunk |
| `DiffFacts.PairsAdjacent` | interstellar/report.py:568-587 | the k-th deletion of a changed block stands directly above the k-th addition after it |
| `DiffFacts.UnpairedFollow` | interstellar/report.py:577-593 | the unpaired rest of the longer side follows the pairs, in order |
| `PtySession.StepKeepsInv` | crates/codegen/ptyctl/src/session.rs:158-283 | every step of feeder, resizers and readers keeps the protocol's invariant, and log and generation only grow; what each run does is said by the lemmas of `PtyRuns` |
| `PtyRuns.RefusedResize` | crates/codegen/ptyctl/src/session.rs:272-283 | after every run, a resize the PTY refuses leaves sizes, log and generation as they were, frees the lock and ends the call |
| `PtyRuns.ResizesLogged` | crates/codegen/ptyctl/src/session.rs:256-283 | in every run the grid's resizes are exactly those whose call the PTY answered with yes and whose grid step ran, in that order and to the sizes asked for; the grid has the last of them |
| `PtyRuns.SentSoFar` | crates/codegen/ptyctl/src/session.rs:158-172 | what was sent is what the send steps sent, in order |
| `PtyRuns.HeldSinceNote` | crates/codegen/ptyctl/src/session.rs:88-91 | what a reader holds is the generation at its last note |
| `PtySession.ReaderSeesItsGeneration` | crates/codegen/ptyctl/src/session.rs:158-173 | in every interleaving, a reader that noted generation g and holds the lock sees at least the first g changes |
| `PtySession.QuietGeneration` | crates/codegen/ptyctl/src/session.rs:158-283 | in every run the generation is the number of changes exactly when none is in flight and no resizer asked for the sender after the feeder's exit |
| `PtySession.NoLostWakeup` | crates/codegen/ptyctl/src/session.rs:88-91 | with nothing in flight and no late resize, a reader whose grid has changed since it noted its generation finds a later one |
| `PtySession.GenerationTrailsGrid` | crates/codegen/ptyctl/src/session.rs:166-171 | the generation trails the grid by exactly the changes in flight plus the resizes that asked for the sender after the feeder's exit |
| `PtySession.SizesAgree` | crates/codegen/ptyctl/src/session.rs:256-283 | whenever no resizer holds the lock, PTY and grid have the same size |
| `PtySession.MutualExclusion` | crates/codegen/ptyctl/src/session.rs:166-283 | at most one feeder, resizer or reader is inside a locked section |
| `PtySession.OutputFedInOrder` | crates/codegen/ptyctl/src/session.rs:158-172 | output reaches the grid in order, and all of it once the feeder has ended |
| `PtySession.LateResizeUnannounced` | crates/codegen/ptyctl/src/session.rs:277-281 | after every run in which the feeder has ended and the lock is free, a resize changes the grid and not the generation |
| `PtySession.WakeupLost` | crates/codegen/ptyctl/src/session.rs:277-281 | an ended session, a reader that notes its generation and a resize: the grid has changed, nothing is in flight, and the generation is the one noted |
| `PtySession.LockReleasable` | crates/codegen/ptyctl/src/session.rs:272-283 | in every reachable state, whatever the PTY answers, the holder's own next steps release the lock, at most five of them |
| `Screen.ExtractStyled` | crates/codegen/ptyctl/src/styled.rs:91-162 | the maximal runs of a line window, trailing plain blank runs dropped |
| `Screen.StyledLineMaximal` | crates/codegen/ptyctl/src/styled.rs:119-157 | no run is empty, neighbouring runs differ in style, and the last run is not droppable |
| `ScreenFacts.StyledLinePaints` | crates/codegen/ptyctl/src/styled.rs:99-157 | the runs give every character of the window's cells with its cell's style, in order, up to a rest of white space that has no colour and is not bold; the last run has a colour, is bold or shows a character |
| `Screen.LinesCarrySameText` | crates/codegen/ptyctl/src/styled.rs:99-157 | the two renderings of a line carry the same characters exactly when no replaced cell has zero-width characters |
| `Screen.CursorCellDiffers` | crates/codegen/ptyctl/src/styled.rs:99-157 | a one-cell row with zero-width characters under a shown cursor renders differently |
| `Screen.ScreenContent` | crates/codegen/ptyctl/src/term.rs:249-310 | the plain lines of a window, trailing blank lines dropped, each trimmed on the right |
| `ScreenFacts.ContentRows` | crates/codegen/ptyctl/src/term.rs:249-310 | line i is the text of the window's row i, cell by cell and right-trimmed; all rows when empty lines are kept, else up to the last row that is not blank |
| `Screen.ScreenStyled` | crates/codegen/ptyctl/src/term.rs:313-339 | the styled lines of a window, trailing empty lines dropped |
| `ScreenFacts.StyledRows` | crates/codegen/ptyctl/src/term.rs:313-339 | line i is the styled line of row i; all rows when empty lines are kept, else up to the last with a run |
| `Screen.ScreensAgree` | crates/codegen/ptyctl/src/term.rs:249-339 | line by line the right-trimmed styled text is the plain text, and extra styled lines hold white space only |

## Left out

- Floating point: deltas, rates and medians are reals; rounding is not modelled.
- `Lines.JoinSplit`: lines end at a newline only; the other separators Python's `splitlines` knows are not modelled.
- `Lines.SplitJoin`: as for `Lines.JoinSplit`, of newline-terminated lines only. White space is the space and the control characters from tab to carriage return.
- `Gate.Decide`: takes the summary that `Summarize` builds. The fallbacks for hand-assembled summaries (no `data` block, a bootstrap without `n`) are not modelled, nor are the textual reasons.
- `Grading.AskWithRetry`: the raw answers and their cost are not modelled.
- `Grading.JudgeArms`: the judge's reason, raw answers and failure details are not modelled.
- `Grading.GradeMatrix`: what the trace detectors report is an arbitrary list; judge prompts, costs and the repeat's label are not modelled.
- `Sections.SplitSections`: a section is its line range and title; its text, the lines in that range, is not part of the result.
- `Patches.BuildTruncate`: rationale and skip texts are not modelled.
- `Harness.Apply`: the version id is modelled in `VersionId` and `Identity`; source, warnings, diffs, reasons and the skill's derived fields (bytes, token estimate) are not modelled; a skill's unedited fields travel as one value.
- `Harness.ApplyTruncate`: the diff and the skip reason are not modelled; the list of lines is a value that is reassigned, so aliasing is not captured.
- `Harness.ApplyRemoveServer`: the diff and the skip reason are not modelled.
- `Scheduler.RankAndSelect`: class and score of a patch are given; the budget reasons and impact fields written into dropped patches are not modelled, and dictionaries are values that are reassigned.
- `ToolEvents.ReadEvents`: skill and MCP events and the turn fields that only copy event fields are not modelled; dictionaries are values that are reassigned, so aliasing of their entries is not captured.
- `ToolEvents.CompleteCall`: the constant `source` field of a completion is not modelled.
- `Spans.Walk`: durations, statuses, result sizes, section utilisation and skill bodies are not modelled; the preview has its default length of 400.
- `Spans.Normalize`: sizes and section data of slash activations are not modelled.
- `DiffText.ParsePrinted`: a diff is given as its lines; the printer follows the shape of Python's unified diffs, whose algorithm is not modelled.
- `DiffRows.HunkRows`: markup and word highlighting are not modelled.
- `PtySession.StepKeepsInv`: the session is modelled as a machine over the steps between its await and release points, not as objects; the alive flag, the raw tail, the broadcast channel, the writer task and the waiting loop of `wait.rs` are not part of this model.
- `Screen.ScreenContent`: windows are given as resolved column and row bounds; parsing and resolving ranges is not modelled.
- TOML beyond table headers and boolean cells, the header and cell expressions' treatment of Unicode, SHA-256, and the terminal emulator are not part of this model.
- Snapshots, materialising a home on disk, replays, report markup, the servers, the command line, key notation, and the corpus and demo tools are not modelled: they read and write files, start processes or produce text for display.
