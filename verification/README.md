# Aura: verified models of the transcript, audit, credential and memory core

A Dafny model of the state-heavy parts of the Aura agent runtime, with proofs about every input, every run or
every reachable state. `dafny verify dfyconfig.toml` checks the whole project.

| file | what it models |
|---|---|
| `Text.dfy`, `Sequences.dfy`, `Transcript.dfy` | UTF-8 lengths, trimming, numerals, lines, string order; filtering; messages, blocks, JSON |
| `Sanitize.dfy`, `RepairLaws.dfy`, `MadeUpResults.dfy` | repair of a message list to the positional tool rule of the Anthropic Messages API |
| `Truncation.dfy`, `Compaction.dfy`, `Dedup.dfy`, `Summary.dfy`, `RedactInput.dfy` | shrinking a conversation |
| `CompactionLaws.dfy`, `DedupLaws.dfy`, `SummaryLaws.dfy`, `RedactInputLaws.dfy` | what each of these does, told from the history alone |
| `Pipeline.dfy` | compaction, summary and repair together |
| `Replay.dfy` | the audit-log replay checker |
| `Refresh.dfy`, `RefreshLaws.dfy`, `RefreshResults.dfy` | the token refresh protocol, for any number of concurrent callers (section 6 of RFC 6749) |
| `Evolution.dfy`, `EvolutionLaws.dfy` | applying model-recommended MERGE, EVOLVE and INSIGHT lines to the fact store |
| `RedactError.dfy`, `RedactLaws.dfy` | redaction of error strings; when redacting again changes nothing |
| `FileChanges.dfy`, `BuildSignatures.dfy`, `SignatureLaws.dfy` | net file changes of a turn; build-error signatures |
| `RecordingStream.dfy` | the stream wrapper that records each model call once |

Code that works in place is a method over a class (`MessageLog`, `JsonCell`, `FactStore`, `ChangeLog`, `Recorder`) or
a loop, proved equal to a function of the old state; the laws are proved of those functions, and say what they compute
in the words of the source: ids, calls, limits, marks and texts, not in those of the functions themselves. The refresh protocol is
a state machine whose steps are the points between the awaits and vault calls of `credential_for`.

Results worth knowing:

- Repair leaves a transcript alone if and only if it is already valid and has no blank-only message. It is idempotent
  on inputs without blank text blocks, but not on all inputs: dropping an orphan result can leave a message of blank
  text, which is caught in the same run only if the message before it has calls to answer (`RepairTwice`).
- The module comment of `sanitize.rs` counts six passes; the sixth is a debug assertion, and the merge runs twice.
  The model follows the code.
- `truncate_content` compares bytes with the limit but takes characters. For a multi-byte text shorter than both
  budgets the whole text comes out twice (`WideTextIsDuplicated`); the omitted count is true exactly for one-byte text.
- In the micro tier head and tail fill the limit, so a truncated text is truncated again: it is a fixed point exactly
  when it was 48 characters over (`FullTruncationFixedPoint`).
- The dedup comment says the newest copy is kept; among the blocks of one message it is the first one.
- A range can be summarised by every text to a smaller estimate exactly when it has at least 260 bytes
  (`AlwaysShrinksIff`); with 43 bytes or fewer no text shrinks it.
- The replay fingerprint covers transactions, not decisions (`DecisionsAreNotCovered`), and with window size 0 only
  the last transaction (`EmptyWindowForgetsHistory`). Entries that the spawn hook hashes over an empty window validate
  exactly at seq 1 or with window size 0.
- A caller presents a replaced refresh token exactly when the save of the last grant that replaced the link's token
  failed (`ReplacedTokenPresentedIff`); a revoked grant is tried again exactly when both writes that record the
  revocation failed (`RevocationRetriedIff`).
- An EVOLVE line rebuilds its fact from the snapshot, so it forgets what an earlier MERGE wrote there
  (`EvolvingForgetsMerge`).
- Redacting an error a second time changes something in exactly two cases (`RedactTwice`): a marker inside the cap
  stands right behind a bare `/home/` or `/Users/`, or the cap cuts right behind a Unix or Windows home prefix, so that
  the ellipsis reads as the name. The second happens to text without any home directory in it (`CutCanReadAsName`).
- Masked build messages agree exactly when a chain of renumberings joins them, where a literal `N` that no digit
  follows counts as a number (`SameMaskIff`); changing digits for digits alone never leads to a literal `N`
  (`LiteralMarkIsNoRenumbering`).
- Files touched through the kernel gateway are reported as their net effect exactly when they were there before the
  turn: the gateway gives no base path, so a new file is reported as modified (`GatewayNetEffectIff`).

## Model

| member | source | states |
|---|---|---|
| `Sanitize.RemoveEmptyMessages` | crates/aura-agent/src/sanitize.rs:35-43 | the in-place pass keeps exactly the messages with more than blank text, in order |
| `Sanitize.FoldNext` | crates/aura-agent/src/sanitize.rs:46-61 | extending one message and removing the next leaves everything before and after in place |
| `Sanitize.MergeConsecutiveSameRole` | crates/aura-agent/src/sanitize.rs:46-61 | the merge loop equals folding each message into its predecessor when the role is the same |
| `Sanitize.MergeAlternates` | crates/aura-agent/src/sanitize.rs:46-61 | after merging, neighbours have different roles |
| `Sanitize.MergeKeepsSpoken` | crates/aura-agent/src/sanitize.rs:46-61 | merging loses, adds and reorders no block, and no block changes speaker |
| `Sanitize.MergeOfAlternating` | crates/aura-agent/src/sanitize.rs:46-61 | an alternating history is a fixed point of merging |
| `Sanitize.FixOrphanToolResults` | crates/aura-agent/src/sanitize.rs:74-110 | the in-place loop drops exactly the results answering nothing in the message right before, judged on the original list, then the emptied messages |
| `Sanitize.DroppingEmptiedKeepsTethers` | crates/aura-agent/src/sanitize.rs:74-110 | dropping emptied messages never separates a result from the call it answers |
| `Sanitize.SettledIsTethered` | crates/aura-agent/src/sanitize.rs:18-27 | after passes 1 to 3 and the second merge: roles alternate, no message is empty, and every result answers the message right before it |
| `Sanitize.Unanswered` | crates/aura-agent/src/sanitize.rs:116-150 | exactly the ids called and not answered |
| `Sanitize.PairAt` | crates/aura-agent/src/sanitize.rs:120-185 | looking at position i changes nothing up to and including i |
| `Sanitize.FixUnpairedToolUses` | crates/aura-agent/src/sanitize.rs:116-185 | the index loop with inserts equals the recursive pairing function |
| `Sanitize.PairUsesOfAlternating` | crates/aura-agent/src/sanitize.rs:116-185 | on alternating histories each message gets exactly the made-up answers its predecessor lacks, and at most one message is appended |
| `Sanitize.PairingIsSound` | crates/aura-agent/src/sanitize.rs:116-185 | pairing a settled history yields alternation and positional pairing in both directions |
| `Sanitize.EnsureStartsWithUser` | crates/aura-agent/src/sanitize.rs:188-193 | at most one placeholder user message is put in front |
| `Sanitize.ValidateAndRepair` | crates/aura-agent/src/sanitize.rs:18-32 | the passes in their order compute the repair function of the old list |
| `Sanitize.RepairIsValid` | crates/aura-agent/src/sanitize.rs:18-193 | for every list, however malformed: non-empty, user first, strict alternation, every result answers a call right before it, every assistant call is answered right after it |
| `MadeUpResults.LostResultsAreMadeUp` | crates/aura-agent/src/sanitize.rs:116-185 | before user message i stand, one for one and in call order, failed results with the lost-result text for the calls of message i-1 that it does not answer; a message is appended exactly for open calls at the end |
| `MadeUpResults.NoIdIsAnsweredTwice` | crates/aura-agent/src/sanitize.rs:18-185 | if no settled message calls or answers an id twice, no repaired message answers an id twice |
| `RepairLaws.OpeningIsPlaceholder` | crates/aura-agent/src/sanitize.rs:188-193 | the placeholder text, put in front exactly when the list is empty or does not start with the user |
| `RepairLaws.RepairConservesContent` | crates/aura-agent/src/sanitize.rs:35-193 | blocks other than results in the output are those of the messages surviving pass 1, same order and speakers, after at most one placeholder |
| `RepairLaws.RepairLosesNothingSolid` | crates/aura-agent/src/sanitize.rs:18-193 | no block that is neither blank text nor a result is ever lost |
| `RepairLaws.RepairKeepsAnchoredResults` | crates/aura-agent/src/sanitize.rs:92-185 | apart from made-up results, the output says exactly what pass 3 leaves |
| `RepairLaws.RepairKeepsResultOrder` | crates/aura-agent/src/sanitize.rs:92-185 | the original results kept are a subsequence of the input's |
| `RepairLaws.RepairLeavesValidAlone` | crates/aura-agent/src/sanitize.rs:535-545 | a valid history without blank-only messages comes out untouched |
| `RepairLaws.RepairFixedPoints` | crates/aura-agent/src/sanitize.rs:18-32 | fixed point if and only if valid and without blank-only messages |
| `RepairLaws.RepairTwice` | crates/aura-agent/src/sanitize.rs:18-32 | the second repair changes nothing if and only if every message that passes 1 to 3 leave is more than blank text, or is a user message whose predecessor makes calls |
| `RepairLaws.RepairIdempotent` | crates/aura-agent/src/sanitize.rs:18-32 | idempotent on every input without blank text blocks |
| `RepairLaws.RepairTwiceCanDiffer` | crates/aura-agent/src/sanitize.rs:92-109 | a family of inputs that a second repair changes: any orphaned result beside any blank text |
| `Truncation.TruncatedAtMost` | crates/aura-context-compaction/src/messages.rs:376-415 | a text over the limit keeps at most the limit plus 46 characters and the digits of the count |
| `Truncation.BudgetShares` | crates/aura-context-compaction/src/messages.rs:382-397 | requests that fit are granted; otherwise the head gets its share of the limit and the tail the rest |
| `Truncation.TruncationIs` | crates/aura-context-compaction/src/messages.rs:376-415 | every text over the limit: first characters, the note with the count, last characters |
| `Truncation.ClipPartitions` | crates/aura-context-compaction/src/messages.rs:400-415 | head, middle and tail make up the text when the budgets fit into it |
| `Truncation.OmittedCountIsTrue` | crates/aura-context-compaction/src/messages.rs:376-415 | for every text over the limit, the omitted count is the true one if and only if all characters are one byte |
| `Truncation.TruncationPartitions` | crates/aura-context-compaction/src/messages.rs:376-415 | one-byte text: head, omitted count and tail partition the original exactly |
| `Truncation.WideTextIsDuplicated` | crates/aura-context-compaction/src/messages.rs:376-415 | a short multi-byte text over the byte limit comes out twice |
| `Truncation.RoomyTruncationFits` | crates/aura-context-compaction/src/messages.rs:376-415 | with the default budget and room for the mark, the result fits the limit and never grows |
| `Truncation.RoomyTruncationIdempotent` | crates/aura-context-compaction/src/messages.rs:376-415 | such a truncation is idempotent |
| `Truncation.FullTruncationFixedPoint` | crates/aura-context-compaction/src/messages.rs:376-415 | when head and tail fill the limit: fixed point if and only if the text was 48 over |
| `Truncation.FullTruncationStabilises` | crates/aura-context-compaction/src/messages.rs:376-415 | after three such truncations nothing changes any more |
| `Compaction.CompactOlderMessages` | crates/aura-context-compaction/src/messages.rs:749-767 | the loop compacts exactly the messages before the recent tail, the first one losing images only |
| `CompactionLaws.CompactionIs` | crates/aura-context-compaction/src/messages.rs:700-767 | for every message: recent ones untouched, the first loses images only, and in the others each text and result over its limit is cut to head, note and tail and each image becomes a stub |
| `CompactionLaws.CutIsExact` | crates/aura-context-compaction/src/messages.rs:376-415 | one-byte text: the head and tail budgets and the true count of what is left out |
| `CompactionLaws.OlderBlocksFit` | crates/aura-context-compaction/src/messages.rs:700-767 | in a roomy tier every older text and result fits its limit |
| `CompactionLaws.NoImageIsLeft` | crates/aura-context-compaction/src/messages.rs:736-760 | no image is left outside the recent messages |
| `CompactionLaws.TierTable` | crates/aura-context-compaction/src/messages.rs:452-466 | the five thresholds and the limits of each tier |
| `Compaction.CompactionKeepsSkeleton` | crates/aura-context-compaction/src/messages.rs:700-767 | roles, block counts, calls, result ids and error flags survive; the recent tail is untouched |
| `Compaction.NamedTiersAreRoomy` | crates/aura-context-compaction/src/messages.rs:53-91 | every tier a pressure selects, except micro, has room for the truncation mark |
| `Compaction.CompactionIdempotent` | crates/aura-context-compaction/src/messages.rs:700-767 | in roomy tiers compacting a one-byte history twice is compacting once |
| `Compaction.MicroRewritesItsOwnMark` | crates/aura-context-compaction/src/messages.rs:43-52 | in micro a text is stable after one pass if and only if it was within 400 or exactly 448 |
| `Dedup.FoldMessage` | crates/aura-context-compaction/src/messages.rs:875-922 | one message of the pass: each block folded iff its key was seen later or earlier in the message; `seen` and the count updated |
| `Dedup.DedupReadResults` | crates/aura-context-compaction/src/messages.rs:861-924 | the newest-first loop equals the declarative spec; the return value is the number of folded positions |
| `Dedup.DedupKeepsSkeleton` | crates/aura-context-compaction/src/messages.rs:846-852 | roles, ids, error flags and all other blocks are unchanged |
| `Dedup.DedupChangesExactlyRepeats` | crates/aura-context-compaction/src/messages.rs:861-924 | the blocks that change are exactly the folded positions |
| `DedupLaws.LastName` | crates/aura-context-compaction/src/messages.rs:786-797 | the index gives, for every id called at all, the tool of the last call with that id |
| `DedupLaws.KeyIff` | crates/aura-context-compaction/src/messages.rs:876-901 | a block has a key if and only if it is an unmarked result whose last call names one of the five read-only tools; the key is that tool and the hash of its text |
| `DedupLaws.FoldedIff` | crates/aura-context-compaction/src/messages.rs:861-924 | a block changes if and only if it is such a read and the same read stands in a later message or earlier in its own; it becomes the marker with the path of the first call |
| `DedupLaws.CountIsChanges` | crates/aura-context-compaction/src/messages.rs:861-924 | the number returned counts the changed blocks |
| `Dedup.ACopySurvives` | crates/aura-context-compaction/src/messages.rs:830-842 | every folded result leaves an untouched copy with the same tool and hash |
| `Dedup.NoTextIsLost` | crates/aura-context-compaction/src/messages.rs:830-842 | with a hash that tells the texts of this history apart, every result text is still in the list verbatim |
| `Dedup.DedupIdempotent` | crates/aura-context-compaction/src/messages.rs:849-852 | a second run folds nothing |
| `Summary.SelectSummaryRange` | crates/aura-context-compaction/src/messages.rs:644-662 | the two bound-moving loops compute the first and the last admissible cut |
| `Summary.SelectedRangeIsWidest` | crates/aura-context-compaction/src/messages.rs:626-662 | every replaceable range sparing the first and the last two messages lies inside the selected one |
| `Summary.ApplyMessageSummary` | crates/aura-context-compaction/src/messages.rs:987-1058 | the splice, with clamp and fallback, or refusal leaving the list as it was |
| `Summary.SelectedRangeIsAccepted` | crates/aura-context-compaction/src/messages.rs:987-1018 | a non-blank summary of the selected range is always accepted |
| `SummaryLaws.SelectedExactly` | crates/aura-context-compaction/src/messages.rs:626-662 | the range selected is a candidate that holds all candidates; none is selected exactly when there is none |
| `SummaryLaws.AcceptedExactly` | crates/aura-context-compaction/src/messages.rs:1003-1017 | accepted if and only if the text shows a character and the range separates no result from its call |
| `SummaryLaws.EstimateIsTotal` | crates/aura-context-compaction/src/messages.rs:419-442 | the estimate is the sum, over every block, of its text, thinking, written input, written result or image data |
| `SummaryLaws.SummaryIs` | crates/aura-context-compaction/src/messages.rs:1019-1050 | in place of the range stands one assistant message: the prefix and the stripped words, whole if they fit in what was removed, and cut where they do not |
| `Summary.SummaryKeepsOutside` | crates/aura-context-compaction/src/messages.rs:1019-1036 | the first message and everything outside the range stay verbatim |
| `Summary.SummaryShrinks` | crates/aura-context-compaction/src/messages.rs:1019-1058 | removing at least 260 bytes strictly shrinks the estimate, for any summary text, through clamp and fallback |
| `Summary.AlwaysShrinksIff` | crates/aura-context-compaction/src/messages.rs:1019-1058 | every summary text shrinks the estimate if and only if the range has at least 260 bytes |
| `Summary.SummaryGrowsWhenLittleIsRemoved` | crates/aura-context-compaction/src/messages.rs:1019-1058 | removing 43 bytes or fewer never shrinks it |
| `Pipeline.SkeletonKeepsPairing` | crates/aura-context-compaction/src/messages.rs:846-852 | any rewriting over the same skeleton keeps positional pairing |
| `Pipeline.SummaryKeepsPairing` | crates/aura-context-compaction/src/messages.rs:987-1036 | an accepted splice of a paired history is paired |
| `Pipeline.PairedHistorySettles` | crates/aura-agent/src/sanitize.rs:18-32 | for a paired history the orphan and pairing passes have nothing to do |
| `Pipeline.RepairKeepsToolBlocks` | crates/aura-agent/src/sanitize.rs:18-32 | repair of a paired history neither drops nor injects a tool block |
| `Pipeline.LocalCompactionKeepsPairing` | crates/aura-context-compaction/src/messages.rs:929-955 | dedup and tier truncation together keep skeleton and pairing |
| `Pipeline.SummariseRepair` | crates/aura-context-compaction/src/messages.rs:987-1058 | an accepted summary and repair give a valid history whose tool blocks are exactly those outside the range |
| `Pipeline.CompactSummariseRepair` | crates/aura-context-compaction/src/messages.rs:929-1058 | the same for compaction, the selected range, summary and repair in a row, from any paired history |
| `Pipeline.PairedHistoryHasRange` | crates/aura-context-compaction/src/messages.rs:644-662 | a paired history of nine messages or more always has a range, sparing at most one extra message at each end |
| `RedactInput.LargestField` | crates/aura-context-compaction/src/messages.rs:1191-1200 | the longest non-empty top-level string, ties to the greatest key; none exactly when there is no candidate |
| `RedactInput.RedactOversized` | crates/aura-context-compaction/src/messages.rs:1180-1211 | terminates; non-objects and markers untouched; otherwise the result is the marking of a run of removals |
| `RedactInput.MarkAllKeeps` | crates/aura-context-compaction/src/messages.rs:215-268 | marking keeps an object, with every other field unchanged |
| `RedactInput.RecordIsExact` | crates/aura-context-compaction/src/messages.rs:215-268 | the marker lists exactly what a prior `_redacted` object listed (as a list or as a single entry) and then the removed fields in order with their true lengths |
| `RedactInput.PriorValueHidesRecord` | crates/aura-context-compaction/src/messages.rs:259-261 | a prior `_redacted` value that is not an object stays and nothing is recorded |
| `RedactInput.RunIsFaithful` | crates/aura-context-compaction/src/messages.rs:1180-1211 | for every object: only top-level non-empty strings go, longest first, no kept string longer than a removed one, and the `_redacted` field lists its prior entries and then exactly the removed fields, unless it held a value other than an object |
| `RedactInputLaws.RemovedInOrder` | crates/aura-context-compaction/src/messages.rs:1191-1200 | the removed fields are non-empty strings, most bytes first, ties to the greater key, and all before what stays |
| `RedactInputLaws.StoppedBecause` | crates/aura-context-compaction/src/messages.rs:1190-1209 | the three reasons to stop, and why every earlier removal went on |
| `RedactInputLaws.RecordIs` | crates/aura-context-compaction/src/messages.rs:222-257 | the record as it is written: kind, version, and one field or the list of fields with their byte lengths |
| `RedactInputLaws.PriorListGoesOn` | crates/aura-context-compaction/src/messages.rs:231-240 | a prior list is kept and goes on with the removed fields |
| `RedactInputLaws.PriorFieldComesFirst` | crates/aura-context-compaction/src/messages.rs:241-255 | a prior single field becomes the first of the list |
| `RedactInputLaws.MarkerIff` | crates/aura-context-compaction/src/messages.rs:273-289 | exactly which objects are markers |
| `RedactInput.RunIsDetermined` | crates/aura-context-compaction/src/messages.rs:1187-1210 | selection order and the three stopping reasons determine the run |
| `RedactInput.RecordIsMarker` | crates/aura-context-compaction/src/messages.rs:273-289 | every record is recognised as a marker |
| `RedactInput.RedactTwice` | crates/aura-context-compaction/src/messages.rs:1180-1211 | idempotent on every object: a second pass removes nothing, given only that an object without one of its fields is written shorter |
| `Replay.Run` | crates/aura-agent-kernel/src/replay.rs:203-272 | the loop returns the first failure or the report of the swept entries |
| `Replay.LeastFailure` | crates/aura-agent-kernel/src/replay.rs:253-262 | the failure reported is that of the least failing entry |
| `Replay.WindowIsSuffix` | crates/aura-agent-kernel/src/replay.rs:277-299 | scan and filter give exactly the last min(window, seq-1) entries before seq |
| `Replay.ZeroLimitMakesNoDifference` | crates/aura-store-db/src/rocks_store/mod.rs:519-560 | a store that returns one entry for limit 0 yields the same window |
| `Replay.CheckIff` | crates/aura-agent-kernel/src/replay.rs:277-382 | an entry passes if and only if it was hashed over that window and all its snapshots resolve |
| `Replay.AcceptedIff` | crates/aura-agent-kernel/src/replay.rs:203-316 | acceptance if and only if every entry from the start on passes; the report is then the suffix |
| `Replay.ResolveEffectIff` | crates/aura-agent-kernel/src/replay.rs:330-381 | a payload resolves if and only if it is no summary or its snapshot is found with the recorded length and digest |
| `Replay.RejectedBecause` | crates/aura-agent-kernel/src/replay.rs:253-381 | a rejection is that of the least failing entry: recorded hash expected and recomputed hash actual, or the reason of its first effect that does not resolve |
| `Replay.AcceptedReport` | crates/aura-agent-kernel/src/replay.rs:249-271 | the report lists every seq and decision from the start on in order, and the last hash |
| `Replay.WindowHolds` | crates/aura-agent-kernel/src/replay.rs:277-299 | the window holds the context hashes of the last min(window, seq-1) entries in log order |
| `Replay.StartIndependent` | crates/aura-agent-kernel/src/replay.rs:203-316 | a log accepted in full is accepted from every start, with the matching suffix report and the same final hash when non-empty |
| `Replay.CommitKeepsWellHashed` | crates/aura-agent-kernel/src/kernel/mod.rs:479-487 | appending an entry hashed over the kernel's window keeps the log well hashed |
| `Replay.CommittedLogsReplay` | crates/aura-agent-kernel/src/replay.rs:203-316 | every log built by commits replays from every start |
| `Replay.FinalHashIsFingerprint` | crates/aura-agent-kernel/src/replay.rs:145-150 | two logs accepted from seq 1 with equal final hash have equal length, transactions and hashes at every seq |
| `Replay.EmptyWindowForgetsHistory` | crates/aura-agent-kernel/src/replay.rs:277-299 | with window size 0 the last entry alone has the same final hash |
| `Replay.ChangedTransactionIsCaught` | crates/aura-agent-kernel/src/replay.rs:300-316 | changing one transaction is caught as a divergence at its seq if and only if replay starts at or before it |
| `Replay.DecisionsAreNotCovered` | crates/aura-agent-kernel/src/replay.rs:253-272 | replacing a decision changes neither acceptance nor the final hash |
| `Replay.SpawnEntryValidates` | crates/aura-agent-kernel/src/spawn_hook.rs:121-157 | an entry hashed over no predecessors validates if and only if it is at seq 1 or the window size is 0 |
| `Refresh.LocksKeptByStep` | crates/aura-auth/src/manager.rs:387-409 | every step keeps one lock per link, held by whoever works on the link |
| `Refresh.OneWorker` | crates/aura-auth/src/manager.rs:404-406 | at most one caller is past the lock of a link |
| `Refresh.ConsistentByMove` | crates/aura-auth/src/manager.rs:408-466 | every change keeps a link's vault entries and worker what its history adds up to, failed saves and failed revocation writes included |
| `Refresh.SafeByStep` | crates/aura-auth/src/manager.rs:395-466 | every enabled step of any caller keeps the global invariant |
| `Refresh.RunsAreSafe` | crates/aura-auth/src/manager.rs:395-466 | the invariant holds after every interleaving of any number of callers |
| `RefreshLaws.OneRefreshInFlight` | crates/aura-auth/src/manager.rs:395-466 | at most one refresh per link is in flight |
| `RefreshLaws.ReplacedTokenIsNeverPresented` | crates/aura-auth/src/manager.rs:436-441 | no refresh token is presented after a refresh replaced it, unless a save for that link failed in between |
| `RefreshLaws.ReplacedTokenPresentedIff` | crates/aura-auth/src/manager.rs:436-441 | a replaced token is presented if and only if the save of the last grant that replaced the link's token failed |
| `RefreshLaws.RefreshedOnceUntilMargin` | crates/aura-auth/src/manager.rs:430-443 | a further refresh presents the token granted last, and only once the clock is within the margin of its expiry, unless the save of that grant failed |
| `RefreshLaws.CallersShareOneRefresh` | crates/aura-auth/src/manager.rs:405-436 | a caller that reads the clock before the margin of the last saved grant makes no refresh and gets that grant's token |
| `RefreshLaws.NoRefreshAfterRevocation` | crates/aura-auth/src/manager.rs:452-459 | an attempt after a revocation implies that both writes recording it failed before the next attempt |
| `RefreshLaws.RevocationRetriedIff` | crates/aura-auth/src/manager.rs:408-459 | the next caller tries a revoked grant again if and only if both writes recording the revocation failed |
| `RefreshLaws.NeverStuck` | crates/aura-auth/src/manager.rs:387-409 | while a call is unfinished some caller under way can take a step |
| `RefreshResults.CredentialIff` | crates/aura-auth/src/manager.rs:395-466 | in every run a call ends with a credential if and only if it read the clock before the margin, or its refresh failed before the token expired, or its grant was saved with the plan enabled and the link updated; and which token it is |
| `RefreshResults.ResultIff` | crates/aura-auth/src/manager.rs:395-466 | a call has ended with a result exactly when a step ended it so, for all results |
| `RefreshResults.VaultCredentialIsFresh` | crates/aura-auth/src/manager.rs:430-463 | no credential handed out from the vault had expired when its caller read the clock |
| `RefreshResults.VaultOfStep` | crates/aura-auth/src/manager.rs:437-458 | what each step leaves in the vault, told from the vault and the last grant |
| `RefreshResults.LogOfStep` | crates/aura-auth/src/manager.rs:430-459 | what happens at each step, and that a refresh is attempted exactly when the stored token is due |
| `RefreshLaws.LostSaveReplaysToken` | crates/aura-auth/src/manager.rs:437-440 | a run in which a failed save makes the next caller present the replaced token |
| `RefreshLaws.LostRevocationRetries` | crates/aura-auth/src/manager.rs:452-459 | a run in which both writes fail and the next caller refreshes again |
| `Evolution.EvolutionKeepsApproval` | crates/aura-context-memory/src/consolidation.rs:444-547 | for every response: facts that stay keep id and continuity, new ones are approved, in the snapshot's scope, unpinned and not superseded |
| `Evolution.MergeIndicesRead` | crates/aura-context-memory/src/consolidation.rs:554-563 | the two 1-based numbers are read back in order, refused if out of range or equal |
| `Evolution.EvolveIndexReads` | crates/aura-context-memory/src/consolidation.rs:566-578 | the number is read back, refused if out of range |
| `Evolution.QuotedReads` | crates/aura-context-memory/src/consolidation.rs:581-591 | a quoted value after its first marker is read back whole |
| `EvolutionLaws.NumberIff` | crates/aura-context-memory/src/consolidation.rs:554-578 | exactly which words are numbers: digits, with or without a plus sign, below 2^64 |
| `EvolutionLaws.ExtractGives` | crates/aura-context-memory/src/consolidation.rs:581-591 | what is read after a marker: the quoted value or the bare word behind its first occurrence, or nothing |
| `EvolutionLaws.MergeLine` | crates/aura-context-memory/src/consolidation.rs:463-478 | a whole MERGE line: its first number goes, its second stays, and the value and key it gives |
| `EvolutionLaws.EvolveLine` | crates/aura-context-memory/src/consolidation.rs:484-495 | a whole EVOLVE line: the fact, its value and its confidence |
| `EvolutionLaws.InsightLine` | crates/aura-context-memory/src/consolidation.rs:501-504 | a whole INSIGHT line: a key and a value, both needed |
| `EvolutionLaws.MergeStores` | crates/aura-context-memory/src/consolidation.rs:465-481 | what the store holds after a merge, field by field |
| `EvolutionLaws.EvolveStores` | crates/aura-context-memory/src/consolidation.rs:486-498 | what the store holds after an evolution, field by field |
| `EvolutionLaws.InsightStores` | crates/aura-context-memory/src/consolidation.rs:504-517 | the new fact of an insight, field by field |
| `Evolution.ParseLine` | crates/aura-context-memory/src/consolidation.rs:457-517 | for any text, indices lie in the snapshot and a merge joins two different facts |
| `Evolution.ApplyLine` | crates/aura-context-memory/src/consolidation.rs:463-517 | one line acts on the store and the bookkeeping as the action function says, or is skipped |
| `Evolution.DeleteMerged` | crates/aura-context-memory/src/consolidation.rs:521-523 | the deletion loop removes the listed facts |
| `Evolution.ApplyEvolution` | crates/aura-context-memory/src/consolidation.rs:444-526 | store and counters after a response are those of its actions, then the deletions |
| `Evolution.MergesFormForest` | crates/aura-context-memory/src/consolidation.rs:463-470 | accepted merges delete distinct facts and never merge into one already deleted |
| `Evolution.MergeTargetsAreLater` | crates/aura-context-memory/src/consolidation.rs:463-470 | a target is merged away only by a later merge, so merges have no cycle |
| `Evolution.DeletedLeadsToSurvivor` | crates/aura-context-memory/src/consolidation.rs:463-470 | from every fact a chain of ever later merges leads to a surviving one |
| `Evolution.DeletedExactly` | crates/aura-context-memory/src/consolidation.rs:521-523 | deletion removes exactly those ids and changes no other fact |
| `Evolution.EvolutionConserves` | crates/aura-context-memory/src/consolidation.rs:444-526 | for every response: before - merged + insights facts, nothing outside the snapshot changes, a snapshot fact survives |
| `Evolution.LastLineDecides` | crates/aura-context-memory/src/consolidation.rs:470-500 | a snapshot fact ends as its last accepted line built it from the snapshot |
| `Evolution.EvolvingForgetsMerge` | crates/aura-context-memory/src/consolidation.rs:484-500 | evolving a merge target without a value restores its snapshot value |
| `RedactError.MatchUuid` | crates/aura-auth-kit/src/redact.rs:144-167 | the nested group loops match exactly 8-4-4-4-12 hex at the position |
| `RedactError.RedactUuids` | crates/aura-auth-kit/src/redact.rs:126-142 | the scanner equals leftmost non-overlapping replacement |
| `RedactError.UuidsGone` | crates/aura-auth-kit/src/redact.rs:126-167 | no position of the output matches a UUID, across inserted markers too |
| `RedactError.UuidStageFixed` | crates/aura-auth-kit/src/redact.rs:126-142 | text without a UUID passes unchanged |
| `RedactError.RedactLongHex` | crates/aura-auth-kit/src/redact.rs:169-193 | the scanner replaces exactly the maximal runs of 32 or more hex digits |
| `RedactError.LongHexGone` | crates/aura-auth-kit/src/redact.rs:169-193 | no run of 32 hex digits is left at any position |
| `RedactError.HexStageFixed` | crates/aura-auth-kit/src/redact.rs:169-193 | text without a long run passes unchanged |
| `RedactError.HexStageMakesNoUuid` | crates/aura-auth-kit/src/redact.rs:169-193 | the hex stage creates no UUID match |
| `RedactError.StagesClean` | crates/aura-auth-kit/src/redact.rs:126-202 | after the UUID, hex and cap stages: no UUID, no long hex run, at most 201 characters |
| `RedactError.StagesIdempotent` | crates/aura-auth-kit/src/redact.rs:126-202 | the three stages composed are idempotent |
| `RedactError.FindNameEnd` | crates/aura-auth-kit/src/redact.rs:90-124 | the name scan stops at the first separator or at the end |
| `RedactError.MatchWindowsHome` | crates/aura-auth-kit/src/redact.rs:70-101 | matches a drive letter, `:\Users\` in any case and a non-empty name, up to the next backslash |
| `RedactError.MatchUnixHome` | crates/aura-auth-kit/src/redact.rs:103-124 | matches `/Users/` or `/home/` in any case and a non-empty name, up to the next slash |
| `RedactError.RedactHomeDirs` | crates/aura-auth-kit/src/redact.rs:43-68 | the scanner equals leftmost replacement of Windows and Unix home prefixes |
| `RedactError.HomeStagePrefix` | crates/aura-auth-kit/src/redact.rs:43-68 | everything before the first match is copied, and there the marker begins |
| `RedactError.Redact` | crates/aura-auth-kit/src/redact.rs:31-41 | homes, UUIDs, long hex and the cap in this order; no UUID, no long hex run, at most 201 characters, for every input |
| `RedactLaws.UuidStage` | crates/aura-auth-kit/src/redact.rs:126-167 | from the left, each 8-4-4-4-12 group of hex digits becomes `<UUID>` and every other character is copied |
| `RedactLaws.HexStage` | crates/aura-auth-kit/src/redact.rs:169-193 | a whole run of 32 or more hex digits becomes `<HEX>`, a shorter one is copied |
| `RedactLaws.HomeStage` | crates/aura-auth-kit/src/redact.rs:43-124 | from the left, a prefix and its name up to the separator become `<USER_HOME>` and every other character is copied |
| `RedactLaws.PrefixSpelled` | crates/aura-auth-kit/src/redact.rs:70-124 | the three home prefixes letter by letter, in any case |
| `RedactLaws.CapIs` | crates/aura-auth-kit/src/redact.rs:195-202 | at most 200 characters, and an ellipsis if there were more |
| `RedactLaws.NothingIsLeft` | crates/aura-auth-kit/src/redact.rs:31-41 | for every input, no UUID and no 32 hex digits in a row anywhere, in at most 201 characters |
| `RedactLaws.UncappedHomes` | crates/aura-auth-kit/src/redact.rs:31-41 | before the cap, whatever reads as a home directory is a bare Unix prefix and the marker of the home directly behind it in the input |
| `RedactLaws.RedactTwice` | crates/aura-auth-kit/src/redact.rs:31-41 | redacting again changes nothing if and only if, in the text before the cap, no marker inside the cap stands behind a Unix prefix and the cap does not cut behind a prefix |
| `RedactLaws.CleanRedactTwice` | crates/aura-auth-kit/src/redact.rs:195-202 | for text with nothing to redact: if and only if no home prefix of the input ends at character 200 |
| `RedactLaws.MarkNeedsBarePrefix` | crates/aura-auth-kit/src/redact.rs:43-124 | the first case needs a bare Unix prefix directly before a home directory in the input |
| `RedactLaws.MarkCanReadAsName` | crates/aura-auth-kit/src/redact.rs:103-124 | a family of inputs for the first case |
| `RedactLaws.CutCanReadAsName` | crates/aura-auth-kit/src/redact.rs:195-202 | a family of inputs for the second case, without any home directory |
| `FileChanges.ChangeLog.Record` | crates/aura-agent/src/types.rs:287-314 | the list becomes the recorded one: found and merged, dropped, or appended |
| `FileChanges.RecordedEntries` | crates/aura-agent/src/types.rs:287-314 | one change keeps one entry per path and touches no other path's entry |
| `FileChanges.RecordedInPlace` | crates/aura-agent/src/types.rs:287-314 | a new path comes last, a known one stays in its place or goes, and the others keep their order |
| `FileChanges.OneEntryPerPath` | crates/aura-agent/src/types.rs:278-314 | after any history at most one entry per path, depending on that path's changes only |
| `FileChanges.RecordedListIsNetEffect` | crates/aura-agent/src/types.rs:278-314 | for histories consistent with existence: Create, Delete, Modify or no entry exactly as comparing before and after says |
| `FileChanges.RecordedCounts` | crates/aura-agent/src/types.rs:281-290 | counts are the saturating sums since the path last had no entry |
| `FileChanges.NetEffectIff` | crates/aura-agent/src/types.rs:278-314 | over all histories, consistent or not, the exact condition under which the reported kind is the net effect |
| `FileChanges.GatewayNetEffectIff` | crates/aura-agent/src/kernel_gateway.rs:76-84 | through the gateway the kind is the net effect if and only if the path was untouched or existed before |
| `FileChanges.NewFileReadsAsModified` | crates/aura-agent/src/helpers.rs:38-48 | a new file written through the gateway is reported as modified |
| `BuildSignatures.StripLineCol` | crates/aura-agent/src/types.rs:205-223 | the nested loops mask exactly the numbers after a colon |
| `BuildSignatures.MaskTwice` | crates/aura-agent/src/types.rs:205-223 | masking is idempotent |
| `BuildSignatures.RenumberingIsMasked` | crates/aura-agent/src/types.rs:205-223 | replacing any digits after a colon by any others leaves the masked text the same |
| `BuildSignatures.LiteralMarkReadsAsNumber` | crates/aura-agent/src/types.rs:210-216 | wherever it stands, a literal `:N` has the masked text of a number |
| `BuildSignatures.SameMaskIff` | crates/aura-agent/src/types.rs:205-223 | masked texts are equal if and only if a chain of renumberings joins the texts, an `N` that no digit follows counting as a number |
| `BuildSignatures.PlainSameMaskIff` | crates/aura-agent/src/types.rs:205-223 | for texts without a literal `:N` the chain changes digits for digits only |
| `BuildSignatures.LiteralMarkIsNoRenumbering` | crates/aura-agent/src/types.rs:210-216 | a literal `:N` and a number mask alike although no change of digits leads from one to the other |
| `BuildSignatures.NormalizeBlock` | crates/aura-agent/src/types.rs:172-203 | the loop, sort, dedup and join give the signature of the block's lines |
| `BuildSignatures.SignatureIsSet` | crates/aura-agent/src/types.rs:172-203 | two blocks have the same signature if and only if they have the same set of normalized lines |
| `BuildSignatures.ExtractSignatures` | crates/aura-agent/src/types.rs:144-170 | the block-collecting loop over text equals the fold over lines |
| `SignatureLaws.LineCounts` | crates/aura-agent/src/types.rs:172-197 | exactly which lines drop out, which become a location, and that the others count by their masked text |
| `SignatureLaws.StartsAre` | crates/aura-agent/src/types.rs:147-151 | exactly which lines begin an error |
| `SignatureLaws.SignaturesAre` | crates/aura-agent/src/types.rs:144-170 | one signature for each error, over the lines up to the next one or the end, in order, leaving out empty ones |
| `BuildSignatures.SignaturesOfMasked` | crates/aura-agent/src/types.rs:144-223 | the signatures of an output are those of its masked copy |
| `BuildSignatures.RenumberingKeepsSignatures` | crates/aura-agent/src/types.rs:144-223 | any chain of renumberings keeps all signatures |
| `BuildSignatures.Annotate` | crates/aura-agent/src/types.rs:116-140 | the header counts the signatures outside and inside the baseline |
| `BuildSignatures.AnnotationReads` | crates/aura-agent/src/types.rs:116-140 | the header word for word, with the numbers of errors outside and inside the baseline; left out when all are outside |
| `BuildSignatures.RenumberedCopyHasNothingNew` | crates/aura-agent/src/types.rs:116-223 | a renumbered copy of the baseline output is annotated with zero new errors |
| `RecordingStream.Recorder.constructor` | crates/aura-agent/src/recording_stream.rs:43-50 | a new wrapper holds its handle and has accumulated nothing |
| `RecordingStream.Recorder.FinalizeCompleted` | crates/aura-agent/src/recording_stream.rs:52-93 | one completed record if the handle is still there, nothing otherwise |
| `RecordingStream.Recorder.FinalizeFailed` | crates/aura-agent/src/recording_stream.rs:94-105 | one failed record if the handle is still there, nothing otherwise |
| `RecordingStream.Recorder.PollNext` | crates/aura-agent/src/recording_stream.rs:111-151 | the item passes through unchanged and the state makes the specified step |
| `RecordingStream.Recorder.Drop` | crates/aura-agent/src/recording_stream.rs:154-160 | a handle still there is recorded as dropped |
| `RecordingStream.RecordedAtFirstTerminal` | crates/aura-agent/src/recording_stream.rs:111-151 | nothing is recorded before the first terminal item and nothing after it |
| `RecordingStream.ExactlyOneAttempt` | crates/aura-agent/src/recording_stream.rs:52-160 | for every item sequence and drop: exactly one attempt, decided by the first terminal item, telling the model, stop reason, usage, finished tools, thinking and thinking time of the items before it |

## Left out

- Pressure, policy and request-body caps (`effective_pressure`, `pick_stricter_tier`, summary prompts): threshold tables; tiers are picked by a real-valued pressure.
- Serde text, BLAKE3, `DefaultHasher`, JSON parsing and float parsing are function parameters; injectivity and round trips are assumed only where a contract says so.
- RocksDB and vault storage are sequences and maps; store I/O errors in replay and fact evolution are not modelled, vault write failures in the refresh protocol are.
- Relink, unlink, signing in or out, and future cancellation during a refresh: the link set is fixed in the protocol.
- A grant in the refresh protocol always carries a refresh token, because the adapters keep the old one when none is returned; a new one is fresh.
- `credential_for` is a state machine over its atomic steps rather than a method, since its subject is interleaving.
- Storage truncation of tool results: the appended suffix pushes the text back over the cap, so only tool inputs have an idempotence law.
- Lengths are bounded by a 64-bit `usize` only where the digits of a count matter; sums of text lengths do not wrap.
- RedactLaws.RedactTwice: home redaction is not claimed to leave no match; the lemma says exactly when it does.
- Error scanners work by character where the code scans bytes; the two agree because all patterns are ASCII.
- Compaction.CompactionIdempotent: one-byte text and tiers other than micro, because byte lengths and character counts differ on other text and micro fills the limit.
- RecordingStream.ExactlyOneAttempt: an attempt is one call on the handle; a failed write of it is only logged by the code.
- Duplicate-result auditing, tracing, the debug assertion at the end of repair, LLM prompts and calls.
- Fact and event listing, decay, compression and forgetting phases of consolidation.
- Network and OAuth clients, subagent derivation, steering, budget warnings, automaton lifecycle, configuration and rendering: I/O, tables or small state machines that would add easy members.
