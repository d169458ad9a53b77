# Verified models of the repository's tools

A Dafny 4.11 project beside the repository. It models the algorithms and
protocols on which the repository's checks and services rest, and proves what
each of them is for. Run `dafny verify dfyconfig.toml` in this directory.

The models follow the code. Loops over buffers and lists are methods with
invariants, objects with mutable fields are classes, and each is proved equal to
a function on values, about which the theorems are then stated. Threads, calls
that may fail, and later edits are steps of a state machine, so a theorem about
runs covers every interleaving, every failure and every history.

| part | files | what is shown |
|---|---|---|
| lint ratchet | `RustLexer`, `CutLiterals`, `Canonical`, `FixedTexts`, `Brackets`, `Suppressions`, `AttributeGrammar`, `Spellings`, `Scanning`, `Origins`, `SourceFiles`, `Ratchet` | of a source of code, comments, one-line cooked literals, raw literals and characters other than the escaped quote, the scanner keeps exactly the code (and the `b` of some byte literals), and every other literal is cut; every attribute tree, inside another or not, is read back as its lints and as what cannot be read of it, on the line its own hash has in the source; the ratchet fails exactly when a count grew |
| delay proxy | `DelayQueue`, `DelayProtocol`, `DelayProgress`, `DelayTiming`, `DelaySamples` | in every interleaving the destination sees a prefix of what the source had sent at least the delay earlier, within the bound; a direction whose input ended drains, no later than its last chunk is due; an error, and nothing else, closes the connection; the sampler is an exact systematic sample with percentiles of nearest rank |
| bank memory | `BankMemory`, `BankSaves` | the folded index holds the saturated sums whatever the sort does with ties; no observed bank looks saved before it is |
| nightly guest | `Nightly`, `Manifests` | whatever throws and whenever the quiet lock appears: no later start, jobs only behind a bootstrap that succeeded, and all of them unless something stops the run, results after the stop, and for every run exactly when the lock stays behind; a checksum manifest verifies exactly the folders with the names and digests it was written for |
| known issues | `Releases`, `KnownIssues`, `ReleaseSections` | every release renders as the closed form of its ledger says; a published one renders, and passes its check, as it did, whatever is edited later |
| dependency tree, alias closure | `InverseTree`, `AliasClosure` | reading inverts printing and accepts nothing else; the denied types are the least fixpoint, and exactly when what an alias is noted with depends on the order |
| live map | `Globs`, `LivePlan` | the glob recursion decides its language; the plan depends on sets alone |
| documentation check | `CodeSpans`, `Slugs` | the scanner equals the rule of section 6.1 of the CommonMark Spec; heading slugs are distinct and numbered by the least free number |
| game data | `DropTables`, `FrozenNames` | a drop table is the items named by the reachable blocks; quoted names and name arrays are read exactly as printed |
| shared | `Options`, `Texts`, `Trimming`, `Orders` | optional values, decimal numerals, separators, trimmed ends, sorting of sets |

Where code and comments disagree, the code is modelled and the difference is a
result:

- `canonicalize` is documented as idempotent. It is so exactly when no raw
  prefix is written with a blank inside it (`Canonical.CanonIdempotentIff`);
  `r# f` is the counterexample (`Canonical.NotAlwaysIdempotent`).
- A cooked literal with a line break in it is taken for invalid Rust
  (tools/lint-ratchet/lint_ratchet.py:256), but it is legal. It is blanked up to
  the line break and its other lines are scanned as code
  (`RustLexer.OtherLinesAreScanned`); a cooked literal is blanked whole exactly
  when it has one line (`RustLexer.CookedWholeIff`). `RustLexer.SecondLineIsKept`
  is an input.
- The character literal of an escaped quote, plain or as a byte, is cut one
  character short (`RustLexer.EscapedQuoteIsCut`), and no other escaped character
  is (`RustLexer.EscapedWholeIff`). The quote left over may open a literal and
  hide code: `RustLexer.LeftoverQuoteHidesCode`. These two are the only legal
  segments that are cut (`RustLexer.SegmentWholeIff`), and neither is ever masked
  as it should be whatever follows (`CutLiterals.SegmentMaskedIff`). The branch for an escaped
  byte character looks at the character behind `b`, which is always the quote, so
  it never holds, and the model has no such branch.
- A run is documented to give its lock back. A signal, or a lock directory that
  cannot be removed again, between the `mkdir` of the lock and the teardown leaves
  the lock behind, and later runs find it taken. So does a log call that raises
  in the teardown before the release, as after a failed publish, even when no
  session is left; one that raises while the clone is stopped leaves the session
  id of a clone that is gone. `Nightly.Run.Go` says for every run exactly when the
  lock stays; `Nightly.Run.AcquireLock` does so for the part outside the `try`;
  `Nightly.AbandonedRun` makes such a run.
- The promise about unsaved banks fails when a whole number of 2^64 generation
  bumps, and not none, lies between a capture and its acknowledgement and the
  rows are not durable anyway: `BankSaves.AcknowledgeIff`. For every number of
  wraps `BankSaves.WrappedAcknowledgementLies` gives a history that ends so.
- A folder does not always pass the manifest just written for it: the writer
  refuses line feeds and carriage returns in names, the reader knows more line
  boundaries, a folder without files gets an empty line, and the writer passes
  over what the reader refuses. `Manifests.VerifiesItselfIff` gives the exact
  condition and `Manifests.OtherBoundary` runs into it.
- A `npc_param` token stops the drop walk when no death drop is configured, or an
  empty one is, even where an optional token may name no item; `DropTables.Bad` says exactly when,
  and `DropTables.OptionalParamFails` shows one.
- The denied types do not depend on the order in which aliases are met, but the
  targets noted for an alias do, when a second one is found in a later round:
  `AliasClosure.TargetsFixedIff` has the exact condition and
  `AliasClosure.OrderShows` two orders.

## Model

| member | source | states |
|---|---|---|
| `RustLexer.BlankCommentsAndStrings` | tools/lint-ratchet/lint_ratchet.py:139-243 | the in-place blanking loop computes `Masked`, the mask about which the theorems below speak |
| `RustLexer.BlankCooked` | tools/lint-ratchet/lint_ratchet.py:246-262 | a cooked literal ends at its quote, or at an unescaped newline, which stays |
| `RustLexer.BlockLoop` | tools/lint-ratchet/lint_ratchet.py:166-179 | block comments end where their nesting closes, or with the text |
| `RustLexer.MaskFrame` | tools/lint-ratchet/lint_ratchet.py:139-243 | for every text: same length, same newlines, and each character kept or blanked |
| `RustLexer.RawLengthDefined` | tools/lint-ratchet/lint_ratchet.py:180-213 | a raw literal is recognised exactly behind any number of hashes and a quote |
| `RustLexer.ScanKeepsIff` | tools/lint-ratchet/lint_ratchet.py:157-242 | a character is kept as code exactly where no comment or literal begins |
| `RustLexer.CookedWholeIff` | tools/lint-ratchet/lint_ratchet.py:246-262 | a legal cooked literal is blanked whole iff it has one line |
| `RustLexer.EscapedWholeIff` | tools/lint-ratchet/lint_ratchet.py:218-242 | an escaped character, plain or as a byte, is blanked whole iff it is not the quote |
| `RustLexer.SegmentWholeIff` | tools/lint-ratchet/lint_ratchet.py:157-242 | a legal segment of code, comment or literal is scanned whole, whatever follows it, iff it is neither of these |
| `RustLexer.SegmentMasked` | tools/lint-ratchet/lint_ratchet.py:139-243 | such a segment shows if it is code, and is blanked otherwise, and the rest is scanned afresh |
| `RustLexer.OtherLinesAreScanned` | tools/lint-ratchet/lint_ratchet.py:246-262 | of a literal on several lines the first is blanked and the others are scanned as code |
| `RustLexer.SourceMasked` | tools/lint-ratchet/lint_ratchet.py:139-243 | for every sequence of legal segments but the two kinds that are cut (code, line and nested block comments, one-line cooked, raw and character literals): the code verbatim, and the `b` of a byte string or of an escaped byte; the rest spaces with its newlines |
| `RustLexer.EscapedQuoteIsCut` | tools/lint-ratchet/lint_ratchet.py:218-242 | whatever follows, the escaped quote leaves a quote over, plain or as a byte, and the scan goes on at it |
| `RustLexer.LeftoverQuoteHidesCode` | tools/lint-ratchet/lint_ratchet.py:218-242 | a concrete text on which the quote left over opens a literal |
| `RustLexer.SecondLineIsKept` | tools/lint-ratchet/lint_ratchet.py:246-262 | a concrete text whose second line of a literal is kept as code |
| `CutLiterals.QuoteTells` | tools/lint-ratchet/lint_ratchet.py:139-262 | behind text with no bare quote, a quote is kept or hides the character after it |
| `CutLiterals.SegmentMaskedIff` | tools/lint-ratchet/lint_ratchet.py:139-262 | a legal segment shows as it should and leaves what follows alone, whatever follows, iff it is of neither kind that is cut |
| `Canonical.Canonicalize` | tools/lint-ratchet/lint_ratchet.py:94-127 | the three passes compute `Canon` |
| `Canonical.Squeeze` | tools/lint-ratchet/lint_ratchet.py:112-127 | the whitespace loop computes `Squeezed` |
| `Canonical.SqueezedIsShown` | tools/lint-ratchet/lint_ratchet.py:112-127 | the loop computes a normal form: newlines counted, a gap only between word characters |
| `Canonical.ShapeKept` | tools/lint-ratchet/lint_ratchet.py:95-102 | no kept character, line break or word boundary is lost, and none is made |
| `Canonical.SqueezedSameIff` | tools/lint-ratchet/lint_ratchet.py:112-127 | two texts squeeze alike exactly when they have the same shape |
| `Canonical.SqueezedIdempotent` | tools/lint-ratchet/lint_ratchet.py:112-127 | the whitespace pass alone is idempotent |
| `Canonical.CanonIdempotentIff` | tools/lint-ratchet/lint_ratchet.py:94-127 | canonicalizing again changes nothing iff no raw prefix is written with a blank inside |
| `Canonical.NotAlwaysIdempotent` | tools/lint-ratchet/lint_ratchet.py:95-103 | a concrete text on which the documented idempotence fails |
| `Canonical.RawSqueezed` | tools/lint-ratchet/lint_ratchet.py:87-127 | after squeezing a raw prefix stands exactly where the text had one, blanks aside |
| `Canonical.CanonKeepsLines` | tools/lint-ratchet/lint_ratchet.py:94-127 | every retained character keeps the number of line breaks before it |
| `FixedTexts.FixedIsCanon` | tools/lint-ratchet/lint_ratchet.py:94-127 | a text fixed by all passes is its own canonical form |
| `FixedTexts.FixedAround` | tools/lint-ratchet/lint_ratchet.py:94-127 | fixed texts around a separator are fixed together |
| `FixedTexts.RawNameStripped` | tools/lint-ratchet/lint_ratchet.py:87-127 | the raw prefix of a name goes |
| `FixedTexts.RawStays` | tools/lint-ratchet/lint_ratchet.py:87-127 | inside a word the same characters stay |
| `Brackets.MatchBalanced` | tools/lint-ratchet/lint_ratchet.py:265-286 | the stack loop finds where `Closes` ends; unbalanced text is the error |
| `Brackets.MatchedIff` | tools/lint-ratchet/lint_ratchet.py:265-286 | a match is found exactly when text of the balanced grammar fills the brackets |
| `Brackets.SplitTopLevel` | tools/lint-ratchet/lint_ratchet.py:289-303 | the depth loop computes `Split` |
| `Brackets.JoinedSplit` | tools/lint-ratchet/lint_ratchet.py:289-303 | joining the parts with commas gives back every text |
| `Brackets.SplitJoined` | tools/lint-ratchet/lint_ratchet.py:289-303 | splitting gives back every list of balanced items |
| `Brackets.ParenthesesMatch` | tools/lint-ratchet/lint_ratchet.py:265-286 | a parenthesized balanced text is matched to its very end |
| `Suppressions.LintsInAllowOrExpect` | tools/lint-ratchet/lint_ratchet.py:306-322 | the loop over the arguments returns the lints and records the problems of `ArgsFound` |
| `Suppressions.AfterHeadIff` | tools/lint-ratchet/lint_ratchet.py:82-85 | a keyword is found exactly before text that does not go on with a letter, a digit or an underscore |
| `Suppressions.LintsInSuppressionCall` | tools/lint-ratchet/lint_ratchet.py:325-346 | a call of `allow` or `expect`, with anything behind it or an open bracket recorded |
| `Suppressions.LintsInAttribute` | tools/lint-ratchet/lint_ratchet.py:349-382 | the recursion through nested `cfg_attr` terminates and returns `AttributeFound` |
| `Suppressions.CfgItemsSmaller` | tools/lint-ratchet/lint_ratchet.py:362-381 | every item behind a predicate is shorter in characters that are not whitespace, the measure of the recursion |
| `Suppressions.LintIff` | tools/lint-ratchet/lint_ratchet.py:76-76 | the lint pattern accepts exactly identifiers joined by `::` |
| `Suppressions.ArgsAccounted` | tools/lint-ratchet/lint_ratchet.py:306-322 | every argument ends as a lint, a problem, a reason or a blank |
| `AttributeGrammar.ArgsRead` | tools/lint-ratchet/lint_ratchet.py:306-322 | arguments are read as their lints, and those that are no lint, no reason and no blank as problems, each in order |
| `Spellings.LintIsRead` | tools/lint-ratchet/lint_ratchet.py:306-322 | every lint, in its own spelling, is an argument that reads as itself |
| `Spellings.SpreadIsRead` | tools/lint-ratchet/lint_ratchet.py:306-322 | so is every path of names with line breaks before it, behind it and around each `::` |
| `Spellings.ReasonIsRead` | tools/lint-ratchet/lint_ratchet.py:312-315 | `reason`, line breaks, `=` and any item is passed over |
| `Spellings.BadIsRead` | tools/lint-ratchet/lint_ratchet.py:306-322 | plain text that is neither a lint nor a reason is reported, and nothing else is found |
| `Spellings.BadShows` | tools/lint-ratchet/lint_ratchet.py:306-322 | `allow(not-a-lint)` and `allow($lint)` are reported |
| `AttributeGrammar.AttrFixed` | tools/lint-ratchet/lint_ratchet.py:94-127 | a printed attribute is its own canonical form |
| `AttributeGrammar.SuppressRead` | tools/lint-ratchet/lint_ratchet.py:325-346 | `allow` or `expect`, without a call, with one and anything behind it, or with one that is never closed, is read back as its lints and problems |
| `AttributeGrammar.OpenRead` | tools/lint-ratchet/lint_ratchet.py:325-382 | a call that is never closed is a problem, under its keyword |
| `AttributeGrammar.CfgRead` | tools/lint-ratchet/lint_ratchet.py:349-382 | a printed `cfg_attr` with any balanced predicate, and anything behind it, is read back |
| `AttributeGrammar.AttributeRead` | tools/lint-ratchet/lint_ratchet.py:349-382 | parser and printer are inverse: every attribute tree, however it is spaced, gives exactly its lints and exactly its problems, each in order, through every `cfg_attr` |
| `Scanning.ReadAttribute` | tools/lint-ratchet/lint_ratchet.py:414-427 | one attribute: matched, read and given its line, or an open bracket on that line |
| `Scanning.ScanFile` | tools/lint-ratchet/lint_ratchet.py:392-428 | the finder's loop over the canonical text of the blanked source computes `ScanOf`; a file that cannot be read is a problem |
| `Scanning.ReadLinesAreSourceLines` | tools/lint-ratchet/lint_ratchet.py:405-405 | every character that is left after blanking and canonicalizing stands on the line it has in the source |
| `Scanning.ReportedInSource` | tools/lint-ratchet/lint_ratchet.py:405-427 | every line reported, with a lint or a problem, holds a hash in the source itself |
| `SourceFiles.HeadIff` | tools/lint-ratchet/lint_ratchet.py:411-411 | the finder's pattern matches iff a hash, perhaps a bang, and a bracket begin the text, with whitespace between |
| `SourceFiles.FileScanned` | tools/lint-ratchet/lint_ratchet.py:405-424 | of any code without attribute heads and of attribute trees, inside each other too, or never closed: exactly the lints and problems of the trees and the open brackets, each on the line of its hash |
| `Origins.ReadFromSource` | tools/lint-ratchet/lint_ratchet.py:405-405 | each visible character that is read comes from one place of the source, in order, with its character and its line |
| `SourceFiles.HashInSource` | tools/lint-ratchet/lint_ratchet.py:405-413 | each hash that is read is one hash of the source, on the same line |
| `SourceFiles.SourceScanned` | tools/lint-ratchet/lint_ratchet.py:392-424 | from the source on, through comments, literals and canonical form: exactly the lints and problems of its attributes, each on the line that the hash of its own attribute has in the source, different attributes at different hashes, in order |
| `Ratchet.Summarize` | tools/lint-ratchet/lint_ratchet.py:439-444 | the nested table holds the count of every crate, lint and bucket |
| `Ratchet.GroupByKey` | tools/lint-ratchet/lint_ratchet.py:461-465 | the places of each key, in order |
| `Ratchet.Check` | tools/lint-ratchet/lint_ratchet.py:461-479 | no failure iff no count is above its baseline; otherwise the keys above it, in order, each with all its places |
| `Ratchet.ReportSays` | tools/lint-ratchet/lint_ratchet.py:461-479 | every place of every key above its baseline, and for each such key one headline that tells a new lint from one that grew, with its counts; nothing else |
| `Ratchet.CheckCommand` | tools/lint-ratchet/lint_ratchet.py:488-505 | passes iff there is no problem and no count is above its baseline |
| `Ratchet.RemovingIsFree` | tools/lint-ratchet/lint_ratchet.py:461-479 | removing suppressions, anywhere, never breaks a passing check |
| `Ratchet.Update` | tools/lint-ratchet/lint_ratchet.py:508-542 | written only without problems: exactly the counts of the hits, with no lint and no crate that has none |
| `Ratchet.FreshOnce` | tools/lint-ratchet/lint_ratchet.py:508-542 | the same suppressions in any order write the same baseline |
| `Ratchet.FreshBaselineIsTight` | tools/lint-ratchet/lint_ratchet.py:508-542 | a baseline as `Update` writes it passes its own sources and none with one suppression more |
| `DelayQueue.DirectionQueue.constructor` | tools/nightly/latency_proxy.py:114-121 | an empty open queue with its bound |
| `DelayQueue.DirectionQueue.Push` | tools/nightly/latency_proxy.py:123-133 | accepted exactly when open, not ended and within the bound, then last in line with its release and arrival; refused, nothing changes |
| `DelayQueue.DirectionQueue.Finish` | tools/nightly/latency_proxy.py:135-138 | end of input, queued chunks stay |
| `DelayQueue.DirectionQueue.Abort` | tools/nightly/latency_proxy.py:140-145 | the queue is emptied and closed |
| `DelayQueue.DirectionQueue.PopTurn` | tools/nightly/latency_proxy.py:147-164 | a head whose release time has passed is given up at once; waiting only for a head not yet due or an open queue with nothing in it; the end exactly after an abort or a drained end of input |
| `DelayQueue.PushSound` | tools/nightly/latency_proxy.py:123-133 | the byte count is the queued bytes, at most the high water, at most the bound |
| `DelayProtocol.MovedOk` | tools/nightly/latency_proxy.py:364-421 | a thread's own step keeps read bytes = sent, in flight, queued and held, in that order |
| `DelayProtocol.StepOk` | tools/nightly/latency_proxy.py:347-421 | every step of the four threads, the clock or a stop keeps both directions in order |
| `DelayProtocol.RunOk` | tools/nightly/latency_proxy.py:347-421 | and so does every run |
| `DelayProtocol.DeliveredInOrder` | tools/nightly/latency_proxy.py:364-421 | in every run the destination has a prefix of the source, and all of it once the sender ended by draining |
| `DelayProtocol.BoundedAndDelayed` | tools/nightly/latency_proxy.py:106-164 | in every run queued bytes <= high water <= bound, and no chunk left before arrival + delay |
| `DelayProtocol.NoErrorMeansDelivered` | tools/nightly/latency_proxy.py:350-421 | a finished connection without a recorded error delivered every byte both ways |
| `DelayProgress.DrainsToTheEnd` | tools/nightly/latency_proxy.py:147-164 | from every reached connection without a failure whose reader has ended, ticks, pops and sends bring the sender to its end with every byte sent, no later than when the last chunk is due |
| `DelayProgress.ErrorsClose` | tools/nightly/latency_proxy.py:350-421 | whatever follows an error, once the thread that met it is done the failure is recorded and both queues are closed |
| `DelayProgress.FailsOnlyByError` | tools/nightly/latency_proxy.py:350-421 | without an error nothing is recorded, no thread fails and no queue is closed; a socket error of a stopping server is none |
| `DelayTiming.DelayedBytes` | tools/nightly/latency_proxy.py:364-421 | in every run, whatever the destination has been given the source had sent by a moment at least the delay back |
| `DelaySamples.Samples.Add` | tools/nightly/latency_proxy.py:84-92 | the store stays the values at 0, s, 2s, ... with s a power of two, within the cap and more than half of it once full |
| `DelaySamples.Samples.Summary` | tools/nightly/latency_proxy.py:94-103 | p50 and p95 are the sample's values of nearest rank, the mean is exact, each rounded to three digits; p50 <= p95, the values were added, the count is exact |
| `DelaySamples.RankIff` | tools/nightly/latency_proxy.py:61-66 | there is one value whose place differs from its rank by at most a half, halves going up, and it is the one taken |
| `DelaySamples.RoundedIff` | tools/nightly/latency_proxy.py:98-101 | a summary value is the one whole number of thousandths nearest to its value, the even one of two |
| `DelaySamples.EveryHalved` | tools/nightly/latency_proxy.py:90-92 | dropping every second sample is sampling with twice the stride |
| `DelaySamples.EveryAppend` | tools/nightly/latency_proxy.py:84-89 | a new value is sampled exactly when the stride divides its index |
| `DelaySamples.PercentileMonotone` | tools/nightly/latency_proxy.py:61-66 | percentiles stay within the extremes and rise with the rank |
| `DelaySamples.PercentileStored` | tools/nightly/latency_proxy.py:61-66 | a percentile is one of the values added |
| `BankMemory.FoldSorted` | crates/api/src/bank_memory.rs:295-305 | sort and fold give the index of the table |
| `BankMemory.DedupedHeld` | crates/api/src/bank_memory.rs:295-305 | rows strictly increase by id, are positive, and hold every id's clamped total |
| `BankMemory.FoldIgnoresTies` | crates/api/src/bank_memory.rs:295-305 | whatever order an unstable sort leaves equal ids in, the rows are the same |
| `BankMemory.SameHeldSameIndex` | crates/api/src/bank_memory.rs:295-305 | an index is determined by what it holds |
| `BankMemory.TotalPermuted` | crates/api/src/bank_memory.rs:173-190 | saturating totals do not depend on the order of the slots |
| `BankMemory.CheckHintRows` | crates/api/src/bank_memory.rs:308-323 | accepts exactly lists of at most 1024 positive rows that strictly increase, and names the first rule broken |
| `BankMemory.BinarySearch` | crates/api/src/bank_memory.rs:153-159 | on increasing rows finds the id's row, or that there is none |
| `BankMemory.Bank.Count` | crates/api/src/bank_memory.rs:153-159 | unknown gives nothing; known gives the held count, zero for an absent id |
| `BankMemory.Bank.Observe` | crates/api/src/bank_memory.rs:173-190 | the rows become the index of the positive slots, the origin Session, the generation the next one, dirty |
| `BankMemory.Bank.LoadHint` | crates/api/src/bank_memory.rs:192-209 | good rows are taken as they are and clean; a refusal changes nothing |
| `BankMemory.Bank.Relog` | crates/api/src/bank_memory.rs:216-222 | rows and dirty stay, a known memory becomes a hint of a new generation |
| `BankMemory.Bank.MarkSaved` | crates/api/src/bank_memory.rs:139-143 | clears dirty only for the current generation |
| `BankMemory.Bank.FrameDue` | crates/api/src/bank_memory.rs:227-233 | true exactly when tracking the frame would change anything |
| `BankMemory.Bank.Track` | crates/api/src/bank_memory.rs:239-266 | open, observe and close edges, once per packet generation |
| `BankSaves.EventOk` | crates/host-play/src/slot_bank_memory.rs:187-219 | one event of session, frame, save, publication, drop or acknowledgement keeps captures and durable rows consistent |
| `BankSaves.SameGeneration` | crates/api/src/bank_memory.rs:139-143 | wrapped generations are equal iff a whole number of 2^64 bumps lies between them |
| `BankSaves.AcknowledgeOk` | crates/host-play/src/slot_bank_memory.rs:405-443 | a late acknowledgement clears the flag only for rows that are durable |
| `BankSaves.CleanMeansDurable` | crates/api/src/bank_memory.rs:134-143 | over every history: not dirty means the known rows are the durable rows; never known means nothing was touched |
| `BankSaves.RelaunchRestores` | crates/api/src/bank_memory.rs:192-209 | a process that ended with nothing unsaved is followed by one that loads the same rows |
| `BankSaves.AcknowledgeIff` | crates/api/src/bank_memory.rs:139-143 | an acknowledgement keeps unwritten rows marked iff no wrap lies between capture and acknowledgement, or the rows are durable anyway |
| `BankSaves.WrappedAcknowledgementLies` | crates/api/src/bank_memory.rs:139-143 | for every positive number of wraps, a history from the start at whose end an old acknowledgement clears the mark of rows never written |
| `BankSaves.SessionsAlternate` | crates/api/src/bank_memory.rs:239-266 | over every login opens and closes alternate, from whether the bank was open to whether it is |
| `Nightly.Run.SyncQuietLock` | tools/nightly/nightly-mac-guest.py:1499-1510 | once seen, the quiet lock is never forgotten |
| `Nightly.Run.StartClone` | tools/nightly/nightly-mac-guest.py:781-863 | returning without a session means that the quiet lock stopped the start; whatever throws, a clone that may be alive has its session id |
| `Nightly.Run.RunSupervised` | tools/nightly/nightly-mac-guest.py:905-966 | a guest command is never started once the lock was seen; its end is recorded with the code that is returned, with the lock polled just before, exactly when it came to its end |
| `Nightly.Run.StopClone` | tools/nightly/nightly-mac-guest.py:1000-1012 | the session id is given up only when the clone is down; a failure leaves it, even when the clone is down already |
| `Nightly.Run.AcquireLock` | tools/nightly/nightly-mac-guest.py:1398-1416 | however its calls go, raising or not: the lock is on disk iff it was made and not handed back, and owned iff all went well |
| `Nightly.Run.RunBootstrap` | tools/nightly/nightly-mac-guest.py:1512-1533 | the bootstrap succeeds or raises |
| `Nightly.Run.RunJob` | tools/nightly/nightly-mac-guest.py:1666-1691 | no job after the quiet lock; a stop ends the loops |
| `Nightly.Run.ReportJob` | tools/nightly/nightly-mac-guest.py:1680-1688 | a job that failed, or whose results could not be exported, is counted, and nothing else is |
| `Nightly.Run.RunBranches` | tools/nightly/nightly-mac-guest.py:1659-1694 | behind a bootstrap that succeeded, without a quiet lock or an exception both jobs of every branch are run to their end |
| `Nightly.Run.Body` | tools/nightly/nightly-mac-guest.py:1642-1699 | whatever throws, the run reaches its teardown with its record in order; when nothing throws, no bootstrap has failed, and without a quiet lock every job was run |
| `Nightly.Run.TearDown` | tools/nightly/nightly-mac-guest.py:1700-1758 | export, stop, publish, write the status, release; raises itself iff a log call or the unlink raised; all of it was done when no step failed; lock and status given back exactly when no log call cut it short, no session id is left and the file system lets them go |
| `Nightly.Run.Go` | tools/nightly/nightly-mac-guest.py:1635-1769 | for every run: the lock stays iff it was abandoned before the teardown, or a log call cut that short, a session id is left or the file system does not let it go; it raises iff the body, a step, a log call or the unlink failed or a signal was held back; a failed bootstrap fails it and no job is started; otherwise all jobs are run unless the quiet lock was seen, and code and last status say whether one failed |
| `Nightly.AbandonedRun` | tools/nightly/nightly-mac-guest.py:1398-1416 | a run that raises and leaves its lock, with no clone ever started |
| `Nightly.OrderlyNext` | tools/nightly/nightly-mac-guest.py:1635-1769 | one more event that is allowed behind the record keeps it orderly |
| `Nightly.OrderlyMeans` | tools/nightly/nightly-mac-guest.py:1635-1769 | in an orderly record nothing is started once the quiet lock was seen or the clone stopped, and results are published after the stop |
| `Nightly.BootstrapDecides` | tools/nightly/nightly-mac-guest.py:1512-1533 | in an orderly record the bootstrap ends once, and no job is started but behind its success |
| `Manifests.Write` | tools/nightly/nightly-mac-guest.py:433-445 | refused iff a name of a file holds a line feed or carriage return; otherwise one row per file, in path order; links, the manifest and the done mark are passed over |
| `Manifests.ReadManifest` | tools/nightly/nightly-mac-guest.py:452-463 | every line a safe entry, none repeated, none of the manifest itself; otherwise the error |
| `Manifests.EntryIff` | tools/nightly/nightly-mac-guest.py:454-462 | an entry is 64 lower-case hexadecimal digits, two spaces and a path that is neither absolute nor climbing nor empty |
| `Manifests.ActualFiles` | tools/nightly/nightly-mac-guest.py:464-471 | the regular files of the walk; links are passed over, anything odd is the error |
| `Manifests.Verify` | tools/nightly/nightly-mac-guest.py:448-480 | accepts iff there is a manifest that reads, nothing odd lies in the folder, and the entries are its files with their digests |
| `Manifests.WrittenParsed` | tools/nightly/nightly-mac-guest.py:433-463 | what was written is read back as exactly the files' digests |
| `Manifests.AcceptsSameDigests` | tools/nightly/nightly-mac-guest.py:433-480 | a written manifest accepts a folder iff it has the same names with the same digests |
| `Manifests.AcceptsOnlyItself` | tools/nightly/nightly-mac-guest.py:433-480 | so, when no file that differs keeps its digest, iff it is, file for file, the one written from |
| `Manifests.PassesOwnManifestIff` | tools/nightly/nightly-mac-guest.py:433-480 | a set of files passes the manifest written for it iff there are files and no name holds a line boundary |
| `Manifests.ListedOnce` | tools/nightly/nightly-mac-guest.py:435-439 | the writer's order lists every file once |
| `Manifests.WrittenVerifiesIff` | tools/nightly/nightly-mac-guest.py:433-480 | what `Write` returns verifies a folder iff nothing odd lies in it and its files have the names and digests written down |
| `Manifests.VerifiesOnlyItselfIff` | tools/nightly/nightly-mac-guest.py:433-480 | a folder that verifies has the files written down iff no file that differs keeps its digest |
| `Manifests.VerifiesItselfIff` | tools/nightly/nightly-mac-guest.py:433-480 | it verifies its own folder iff nothing odd lies in it, it has files, and no name holds a line boundary |
| `Manifests.OtherBoundary` | tools/nightly/nightly-mac-guest.py:433-480 | a folder with any other boundary in a name is written and refused |
| `Releases.NextIsNewer` | tools/known-issues/known_issues.py:219-232 | the next release has a larger key than the newest heading |
| `Releases.NewerThanIsKeyOrder` | tools/known-issues/known_issues.py:78-83 | by position or by key: in a rising order the two rules agree |
| `Releases.NextExtends` | tools/known-issues/known_issues.py:219-232 | the next release is new, newer than every heading, and keeps the order rising |
| `Releases.NextWritten` | tools/known-issues/known_issues.py:219-232 | the last number of a printed name goes up by one and the rest stays |
| `Releases.KeyWritten` | tools/known-issues/known_issues.py:67-75 | a name printed from numbers, each with any suffix, has these numbers for its key |
| `Releases.KeyLessTransitive` | tools/known-issues/known_issues.py:67-75 | version keys are ordered transitively |
| `KnownIssues.AppliesIff` | tools/known-issues/known_issues.py:263-278 | an item is open exactly from its `listed` place up to its `fixed` place |
| `KnownIssues.CarriedIs` | tools/known-issues/known_issues.py:281-287 | the carried releases are the headings from `first` up to the release |
| `KnownIssues.SentenceIs` | tools/known-issues/known_issues.py:290-303 | in a rising order they read as one range |
| `KnownIssues.TextAtIs` | tools/known-issues/known_issues.py:317-325 | the wording at a release is the first that holds until later, else the text |
| `KnownIssues.RenderRelease` | tools/known-issues/known_issues.py:328-346 | the loops over kinds and items compute `Rendered` |
| `KnownIssues.BulletsAre` | tools/known-issues/known_issues.py:263-346 | at a heading or the next release an item has no bullet outside its `listed` to `fixed` places, and otherwise one: the area of a known issue, the wording in force, and the range of releases that carry it |
| `KnownIssues.RenderedIs` | tools/known-issues/known_issues.py:328-346 | a good ledger renders as the page of all these bullets, by kind in ledger order under the kind's heading |
| `KnownIssues.BulletsCut` | tools/known-issues/known_issues.py:243-303 | a new release heading changes no bullet of a listed release |
| `KnownIssues.BulletsFixed` | tools/known-issues/known_issues.py:263-278 | nor does a later `fixed` |
| `KnownIssues.BulletsReworded` | tools/known-issues/known_issues.py:317-325 | nor a rewording that keeps the old text until a later release |
| `KnownIssues.BulletsNotYet` | tools/known-issues/known_issues.py:263-278 | nor an item listed later |
| `KnownIssues.EditKeepsRendering` | tools/known-issues/known_issues.py:328-346 | each such edit leaves the whole rendering as published |
| `KnownIssues.RenderedExists` | tools/known-issues/known_issues.py:328-346 | a good ledger renders every heading and the next release |
| `KnownIssues.PublishedForEver` | tools/known-issues/known_issues.py:5-15 | a published release renders, and after every history of such edits it renders as it did |
| `ReleaseSections.ExtractBlocks` | tools/known-issues/known_issues.py:373-389 | each block is the last subsection of its name, up to the next subsection |
| `ReleaseSections.CheckRelease` | tools/known-issues/known_issues.py:392-419 | the lines of the diff: a missing or unexpected block in full, a changed one as the differ says; none iff the section exists and shows both blocks as rendered |
| `ReleaseSections.BlockDiffSays` | tools/known-issues/known_issues.py:398-413 | a block too many is shown line by line with plus signs, a missing one with minus signs |
| `ReleaseSections.RenderedFound` | tools/known-issues/known_issues.py:328-389 | extracting from a rendering gives back every bullet of both kinds |
| `ReleaseSections.PastedPasses` | tools/known-issues/known_issues.py:392-419 | a rendering pasted between other text passes |
| `ReleaseSections.PassesForEver` | tools/known-issues/known_issues.py:10-15 | a section passes after a history of later edits iff it passed before |
| `InverseTree.InversePaths` | tools/architecture/native_dependencies.py:22-41 | the stack loop computes `Read`; a line that skips a parent is the error |
| `InverseTree.ReadInvertsPrint` | tools/architecture/native_dependencies.py:22-41 | for every forest printed in preorder: its root-to-leaf paths, in order |
| `InverseTree.AcceptedIffPrinted` | tools/architecture/native_dependencies.py:27-36 | a listing is accepted iff it is the preorder of some forest, blank lines aside |
| `InverseTree.PrintedOnce` | tools/architecture/native_dependencies.py:22-41 | and of one forest only |
| `InverseTree.CheckOrigin` | tools/architecture/native_dependencies.py:44-57 | allowed iff every path is the window one and passes no workspace crate, or there is no path; otherwise the first path that is not, with what is wrong with it |
| `AliasClosure.Collector.Round` | tools/architecture/nav_clippy.py:854-887 | one round over the candidates computes `RoundOf`: marked items, recorded paths and noted targets; true iff it marked a new item |
| `AliasClosure.Collector.Collect` | tools/architecture/nav_clippy.py:852-889 | the loop computes `Final`, in at most one round more than there are candidates |
| `AliasClosure.FinalSettled` | tools/architecture/nav_clippy.py:852-889 | the marked set is the least closed one, the recorded paths are the aliases that touch it, and each noted path has denied types that its alias mentions |
| `AliasClosure.CollectAliases` | tools/architecture/nav_clippy.py:852-889 | all of that from the seeds, with the targets' sorted names, or the error iff a noted target has no path |
| `AliasClosure.TargetsBetween` | tools/architecture/nav_clippy.py:866-885 | in any order the targets noted for an alias lie between the seeds and the marked items it mentions |
| `AliasClosure.TargetsFixedIff` | tools/architecture/nav_clippy.py:866-885 | they are the same in every order iff all marked items it mentions are seeds or are one item |
| `AliasClosure.OrderShows` | tools/architecture/nav_clippy.py:866-885 | two aliases whose order decides what is noted |
| `AliasClosure.LeastIsUnique` | tools/architecture/nav_clippy.py:852-889 | the order of the candidates does not matter |
| `AliasClosure.LeastIsReached` | tools/architecture/nav_clippy.py:852-889 | the marked items are those that chains of aliases reach from the seeds |
| `Globs.MatchIff` | tools/live-map/live_map.py:264-274 | the recursion accepts iff the path splits into one run per part, any run for `**` and one matching component otherwise |
| `Globs.LanguageConcat` | tools/live-map/live_map.py:264-274 | two patterns end to end accept iff the path splits between them |
| `Globs.MatchesIff` | tools/live-map/live_map.py:277-281 | the same for texts; absolute and climbing paths match nothing |
| `Globs.MatchesHalves` | tools/live-map/live_map.py:277-281 | a pattern of two halves on texts |
| `Globs.SpellingIgnored` | tools/live-map/live_map.py:277-281 | empty and dot components of a path do not matter |
| `Globs.BelowMatches` | tools/live-map/live_map.py:264-274 | a pattern with `**` added accepts whatever lies below |
| `LivePlan.CellRegistry` | tools/live-map/live_map.py:167-183 | accepted iff no name and no selector conflicts anywhere; then each command has its cell of least name |
| `LivePlan.ConflictsSeen` | tools/live-map/live_map.py:172-179 | the two checks against the tables see every conflict with an earlier cell |
| `LivePlan.Classify` | tools/live-map/live_map.py:288-304 | every path into its class, in order |
| `LivePlan.Choose` | tools/live-map/live_map.py:306-318 | the cells of all rows that cover a live path; live paths without a row |
| `LivePlan.MakePlan` | tools/live-map/live_map.py:288-320 | the three lists and the least-named cell per selected command, each sorted and complete |
| `LivePlan.PlanSays` | tools/live-map/live_map.py:288-320 | what stands in each list of paths, in terms of the globs alone |
| `LivePlan.PlanCells` | tools/live-map/live_map.py:306-319 | a cell is planned iff a live path wants it and wants none of its command with an earlier name |
| `LivePlan.OncePerCommand` | tools/live-map/live_map.py:306-319 | every command of a covering row is planned, once, under its least name |
| `LivePlan.PlanIsCanonical` | tools/live-map/live_map.py:288-320 | the plan depends on the sets of paths, globs and rows alone |
| `LivePlan.EveryPathPlaced` | tools/live-map/live_map.py:288-320 | one list at most per path, and a path in none is live with all its commands planned |
| `Orders.Sorted` | tools/live-map/live_map.py:289-289 | sorting distinct members: ascending, with the same members |
| `Orders.ListsOnce` | tools/live-map/live_map.py:319-319 | a set has one ascending list |
| `CodeSpans.CodeSpans` | tools/docs-check/docs_check.py:214-247 | the scanner's spans satisfy the declarative rule: leftmost backtick strings, each closed by the first later one of its length, all others literal |
| `CodeSpans.RuleOnce` | tools/docs-check/docs_check.py:214-247 | a text has one list of spans by that rule |
| `CodeSpans.FindClose` | tools/docs-check/docs_check.py:227-241 | the first later maximal run of the length, or that there is none |
| `CodeSpans.MaskCode` | tools/docs-check/docs_check.py:250-256 | spaces inside the spans, everything else and the length unchanged |
| `CodeSpans.MaskedHasNoSpans` | tools/docs-check/docs_check.py:214-256 | a masked text has no code span left |
| `Slugs.FreeNumber` | tools/docs-check/docs_check.py:202-206 | the search ends, at the least free number |
| `Slugs.TakenIsBounded` | tools/docs-check/docs_check.py:204-206 | taken numbers are no more than the slugs, so the search ends |
| `Slugs.NumberSlugs` | tools/docs-check/docs_check.py:192-207 | one fresh slug per heading; as many slugs as headings |
| `Slugs.NumberedNames` | tools/docs-check/docs_check.py:192-207 | a slug is its heading's own while that is free, and otherwise that with a dash and a number from one on |
| `Slugs.NumberedDistinct` | tools/docs-check/docs_check.py:192-207 | slugs are distinct |
| `Slugs.NumberedOnce` | tools/docs-check/docs_check.py:192-207 | slugs do not depend on later headings |
| `DropTables.Resolver.Resolve` | tools/game-data/generate.ts:1586-1608 | the recursive walk over the mutable sets ends on cyclic references and adds exactly the items of the blocks it adds |
| `DropTables.AddedIsReached` | tools/game-data/generate.ts:1586-1608 | a whole walk has visited exactly the reachable blocks |
| `DropTables.Drops` | tools/game-data/generate.ts:1586-1608 | the items named by reachable blocks; an error iff a reachable block is missing or holds a token that stops the walk |
| `DropTables.TokenIff` | tools/game-data/generate.ts:1594-1606 | what item a token stands for, itself, behind `cert_` or as the configured drop, and exactly when it stops the walk |
| `DropTables.CalleeIff` | tools/game-data/generate.ts:1592-1594 | `~name` calls the block `proc:name` |
| `DropTables.OptionalParamFails` | tools/game-data/generate.ts:1596-1606 | an optional `npc_param` without a death drop is an error, any other optional token is none |
| `FrozenNames.ParseQuoted` | tools/game-data/generate.ts:595-614 | the scanner computes `QuotedAt` |
| `FrozenNames.QuotedIff` | tools/game-data/generate.ts:595-614 | a value and an end are read iff the text between is the one printed form of the value |
| `FrozenNames.ParseArray` | tools/game-data/generate.ts:623-647 | the array loop computes `NamesAt`; an array without names is an error |
| `FrozenNames.ArrayPrinted` | tools/game-data/generate.ts:623-647 | every array of separators and one-line names is read as its names, in order |
| `FrozenNames.ArraySound` | tools/game-data/generate.ts:623-647 | whatever is read is such an array |
| `Texts.NumberOfDecimal` | tools/known-issues/known_issues.py:219-232 | a decimal numeral is read back as its number |
| `Texts.SplitJoined` | tools/known-issues/known_issues.py:67-75 | splitting gives back chunks that were joined |
| `Texts.JoinedSplit` | tools/known-issues/known_issues.py:67-75 | joining the chunks of a text gives back the text |

## Left out

- Unicode tables and `str.isspace`, `str.isalnum`: character classes are parameters; only what every version of the tables says of a few ASCII characters is required.
- Regular expression engines: the patterns are written out as functions. The file walk, exempt files, and the crate and test bucket of a file are not modelled; `Ratchet` starts from the hits.
- `lint_ratchet.py` reading its baseline file, the JSON text of the file, and the printed list of changed counts.
- The texts of error messages: an error is a constructor or `None`.
- Sockets and threads: `DelayProtocol` has their control states; a failed write may have handed over any prefix of a chunk. The upstream connection, the probe connection and the JSON record are not modelled.
- Floating point: delays and clock readings are integers, sampled values, percentile ranks and rounded values exact reals.
- `SAMPLE_CAP` is a parameter of at least one.
- Capacity reservation of the bank table, and its test-only constructor `seeded`.
- `BankSaves`: the service is reduced to publishing in submission order, dropping and acknowledging; the bounded exit wait and the hint file's format are not modelled. `bank_loaded` with no packet generation is excluded, as the snapshot guarantees.
- `Nightly`: orchestrator and clone handle are one class, because the quiet-lock callback crosses both. Outside calls have arbitrary outcomes; polling turns are an arbitrary finite number. A signal is an outcome of the call it arrives in, stands in one of the two gaps around the `try`, or is held back by the teardown; a log call may raise like any other call. Destination names, archives, environments and guest commands are not modelled.
- `Manifests`: the digest is any function of the content to 64 hexadecimal digits, and different contents may share one; that the manifest itself is a regular file is an optional text, and the order of the walk is arbitrary.
- `load_ledger`: its checks of release names are the assumption `GoodItem`; parsing, severities and owners are not modelled. `needs_ruling` and the carried table would add only lookups.
- Bullet wrapping is a parameter. `RenderedFound` assumes that no wrapped line looks like a subsection heading, which a wrapped line's indent guarantees. A line feed is the only line boundary. `difflib` is a parameter that gives some line for different texts and none for equal ones.
- Only ASCII digits count in release names.
- Cargo-tree lines are a depth and a name, or unreadable; the line pattern itself is not modelled.
- Alias candidates come resolved: rustdoc resolution and module walks are not modelled. An alias whose targets cannot be named stops the source at once and the model at its end, with the same error.
- `fnmatch` is a parameter. Cell texts come parsed, so selectors and shell quoting are not modelled; rows and globs are those of a map that was already read.
- `slugify` is a parameter: `Slugs` starts from the slugs. Front matter, fences, comments, word and sentence counts are not modelled.
- Drop blocks come as tokens; the token patterns, block files and the npc rows of the targets are not modelled. In `FrozenNames` an array starts behind its header; the search for the one header is not modelled.
- Set and map iteration order of Python and JavaScript, except where the code sorts.
