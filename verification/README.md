# OwnCord: verified models

Dafny models of the parts of OwnCord whose correctness does not show in any one
function, with proofs of what they promise over all inputs, all runs or all
interleavings.

- **Saved log history** (`LogLines`, `BackwardScan`, `LogFileKey`, `LogRecord`,
  `LogHistory`, `LogPaging`, `LogGrowing`, `LogFileWriter`, `LogRoundTrip`,
  `LogDecode`, `LogArchive`, `LogRuns`). Entries are written as JSON lines into
  day and part files, rotated and swept, and read back newest first, a chunk at a
  time, a page at a time. The scan is the
  reversed split of the file; pages followed by their cursors are the one
  unbounded query; the reader undoes the writer.
- **Log rings and live streams** (`LogRing`, `LogStream`, `Subsequence`,
  `SupportEvents`, `SupportDetail`). A general ring and a failure ring are
  written together, streamed to subscribers, merged and cut to 200 events whose
  detail shares one budget.
- **Support-bundle scrubber** (`JsonValueLen`, `NameTrie`, `SupportText`,
  `NameScrub`, `Allowlist`, `TextOrigin`, `SupportScrub`). A counter scan against
  the JSON grammar, a trie against the plain list of names, a one-pass rewrite
  against the maximal runs of the text, and what the passes let through together.
- **Audio worklets** (`JitterBuffer`, `NoiseFrames`, `NoiseProcessor`,
  `VoiceGate`, `VoiceProcessor`). A jitter buffer over chunks against a frame
  queue, a re-framing stage around RNNoise, and the voice gate.
- **Restart slot and binary swap** (`RestartSlot`, `BinarySwap`, `SwapFiles`,
  `SwapOutcome`, `UpdateJob`).
  The swap runs on a disk where paths lead to files and files hold bytes, with
  others acting between any two steps.
- **Shutdown hooks** (`HttpServer`, `ArchiveShutdown`, `ApplyShutdown`).

`Decimal` holds decimal text and `Option`, `LowerCase` lower-casing.

Code that changes things in place is a class whose methods are proved against a
function on values; protocols between goroutines are a step function on values
(`Do`, `Act`, `Step`, `Next`), and the theorems range over every list of steps. Calls
out of the modelled code are parameters: the clock, time parsing, JSON decoding,
lower-casing and character classes, the RNNoise model, the square root, which
renames fail.

## Where the code and its comments differ

The model follows the code.

- Lines over `logHistoryMaxLine` are said to be skipped. The carried tail is
  compared only at chunk edges, so a line up to one chunk less a byte longer can
  still be delivered, depending on where the scan began
  (`BackwardScan.OverLongHangsOnEnd`; `BackwardScan.Delivered` is exact).
- A file is said never to pass its cap, so that offsets fit 32 bits. The cap is
  compared before a line is added, so a file passes it by up to one line
  (`LogFileWriter.PutSize` says exactly when, `LogFileWriter.PassesItsCap` gives
  one); past 32 bits the server would refuse its own cursor
  (`LogFileKey.CursorTooFar`).
- Older support events are said to lose their detail once the budget is spent.
  An event that does not fit is passed over, and a smaller, older one may still
  get its detail (`SupportDetail.OlderLoseDetailIff` says exactly when none
  does).
- The bytes verified are said to be the bytes the restart will execute. The
  commit compares files, not bytes: a staged file overwritten in place after
  hashing is restarted into (`SwapFiles.RestartWithOtherBytes`;
  `SwapFiles.RestartBytes` says exactly when the bytes are the hashed ones).
- After a failed commit, what is at the executable path is said not to be the
  verified binary. When the staged file was renamed into place and could then
  not be looked at, it is; if the recovery rename fails as well it stays there,
  and no restart follows (`SwapFiles.VerifiedWithoutRestart`;
  `SwapOutcome.WhatIsLeft` says, by the steps that failed, exactly when).
- A setup restart is said to lose only to an operation that will itself restart
  the process. An update or restore can fail after that
  (`RestartSlot.SetupLosesToAFailure`; `RestartSlot.RefusedDirect` says exactly
  when it does restart).

## Model

| member | source | states |
|---|---|---|
| LogLines.LinesBeforeIsReversedSplit | Server/admin/handlers_log_history.go:193-246 | the lines listed backwards by the last newline are the reverse of the forward split on newlines without the unterminated tail and empty lines |
| LogLines.LinesBeforeSound | Server/admin/handlers_log_history.go:193-246 | every listed line is a whole, newline-terminated, non-empty line at its true offset, and offsets strictly decrease |
| LogLines.LinesBeforeComplete | Server/admin/handlers_log_history.go:193-246 | every such line that ends before the given offset is listed |
| LogLines.LinesBeforeSuffix | Server/admin/handlers_log_history.go:193-246 | scanning from an earlier offset lists exactly the older suffix |
| BackwardScan.DeliverWindow | Server/admin/handlers_log_history.go:215-236 | one chunk's loop advances the fold over the file's lines, whatever was carried into it |
| BackwardScan.ScanLinesBackward | Server/admin/handlers_log_history.go:197-246 | for every content, end offset and chunk size, the chunked scan folds the callback over exactly the delivered lines of the file, newest first, until it stops |
| BackwardScan.DeliveredBounds | Server/admin/handlers_log_history.go:24-34 | a line within the limit is always delivered, and none over limit + chunk - 1 ever is |
| BackwardScan.OverLongHangsOnEnd | Server/admin/handlers_log_history.go:236-240 | for every line between the two bounds, past the start of a file that goes on for two chunks, one scan of the file delivers it and another drops it |
| BackwardScan.ScanIsReversedSplit | Server/admin/handlers_log_history.go:197-246 | when all lines fit, the scan is the whole split reversed |
| BackwardScan.KeepMembers | Server/admin/handlers_log_history.go:197-246 | otherwise the scan keeps a line exactly when the line is delivered |
| BackwardScan.ScanMembers | Server/admin/handlers_log_history.go:197-246 | a scan of a file delivers a line of it exactly when the rule says so |
| LogFileKey.LessTotal | Server/admin/logfile.go:43-48 | file keys are strictly and totally ordered |
| LogFileKey.DateOfOrder | Server/admin/logfile.go:218-219 | the calendar day of a time is monotone in the time |
| LogFileKey.DayTextOrder | Server/admin/logfile.go:43-48 | comparing day texts is comparing dates |
| LogFileKey.NameRoundTrip | Server/admin/logfile.go:50-74 | every key's file name parses back to the key |
| LogFileKey.ParsedNameIsOwnName | Server/admin/logfile.go:57-74 | a parsed name is its key's own name if and only if its part number has no leading zero |
| LogFileKey.CursorRoundTrip | Server/admin/handlers_log_history.go:74-100 | an encoded cursor decodes to the same file and offset |
| LogFileKey.CursorTooFar | Server/admin/handlers_log_history.go:78-100 | a cursor whose offset passes 32 bits is refused |
| LogRecord.MarshalPrintable | Server/admin/logfile.go:232-236 | an encoded entry holds no newline or other control character |
| LogRecord.SearchSurvivesEscaping | Server/admin/handlers_log_history.go:154-161 | a searchable text found in a lower-cased field is found in the lower-cased JSON text of the field |
| LogRecord.TagInLine | Server/admin/handlers_log_history.go:335-337 | the level tag of an entry stands in its line |
| LogRecord.RawChecksKeep | Server/admin/handlers_log_history.go:335-348 | the checks on the raw line never discard an entry that the decoded filter keeps |
| LogRecord.LineTimeOfEntry | Server/admin/handlers_log_history.go:165-176 | the time cut out of a line is its entry's timestamp |
| LogHistory.ReadLogFile | Server/admin/handlers_log_history.go:308-362 | one file's scan is the page run over the file's lines below the end offset |
| LogHistory.ReadLogHistory | Server/admin/handlers_log_history.go:249-284 | one request is the page run over the lines its cursor, day and order rules leave |
| LogHistory.PageResumes | Server/admin/handlers_log_history.go:318-361 | wherever limit, budget or bound cuts a page, its entries and those from its cursor on are those of the uncut run, and it makes progress |
| LogHistory.FeedDescends | Server/admin/handlers_log_history.go:249-284 | lines are fed in strictly descending position |
| LogHistory.FeedCut | Server/admin/handlers_log_history.go:249-284 | reading from a cursor feeds exactly the suffix below it |
| LogHistory.ResumeCuts | Server/admin/handlers_log_history.go:74-100 | the text of a cursor handed out at a line decodes to the cut at that line |
| LogPaging.NextPage | Server/admin/handlers_log_history.go:249-362 | a page and the feed from its decoded cursor make up the feed from where it started, and the cursor moves on |
| LogPaging.FollowCursors | Server/admin/handlers_log_history.go:249-362 | a client following cursors always ends, and its pages concatenate to the single unbounded run, for every limit |
| LogGrowing.SameItems | Server/admin/handlers_log_history.go:197-246 | bytes added at the end of a file change nothing a scan from an offset delivers |
| LogGrowing.SameFeed | Server/admin/handlers_log_history.go:249-284 | what a cursor reads does not change while the newest file grows and newer ones follow |
| LogGrowing.FollowGrowing | Server/admin/handlers_log_history.go:249-362 | a client that follows cursors while entries are being saved ends, and gets exactly the run over the directory as it was when it began |
| LogPaging.StopLosesNothing | Server/admin/handlers_log_history.go:328-334 | with lines in time order up to the slack, stopping at the time bound loses no wanted entry |
| LogPaging.FeedHoldsAllWanted | Server/admin/handlers_log_history.go:255-270 | the files passed over by their day hold nothing wanted |
| LogPaging.PagesAreAllWanted | Server/admin/handlers_log_history.go:249-362 | the pages are exactly the wanted entries of the whole history, newest first, none lost, repeated or reordered |
| LogFileWriter.LogFile.Append | Server/admin/logfile.go:237-238 | bytes go to the end of the open file and nowhere else |
| LogFileWriter.LogFile.CloseFile | Server/admin/logfile.go:312-319 | closing flushes: every line written is then on disk |
| LogFileWriter.LogFile.FindNewest | Server/admin/logfile.go:252-262 | the last file of the day in key order and its size, wherever it stands among the files, or the day's first part |
| LogFileWriter.LogFile.OpenNewest | Server/admin/logfile.go:263-271 | the file opened is the newest of all, and not full |
| LogFileWriter.LogFile.EndTornLine | Server/admin/logfile.go:272-276 | a half line a crash left is ended as a line of its own, and nothing else changes |
| LogFileWriter.LogFile.SweepFiles | Server/admin/logfile.go:324-345 | only oldest files go, each past the age limit or over the total with those after it; then no closed file is past the age and the total fits unless only the open file is left |
| LogFileWriter.LogFile.Rotate | Server/admin/logfile.go:246-281 | the files are exactly those before with the day's newest part reopened and mended, or the next part created; a rotation away from an open file sweeps |
| LogFileWriter.LogFile.PutLine | Server/admin/logfile.go:232-241 | a line is added to the newest file, part on disk and part buffered |
| LogFileWriter.LogFile.WriteEntry | Server/admin/logfile.go:218-242 | an entry becomes the last line of its day's newest file and nothing else changes, with the exact new size, or is refused exactly while paused or when its file cannot be opened; unless it swept, the directory only grew at its newest end, and what it deleted was due; all but a buffer and that line of the file was on the disk before |
| LogFileWriter.PutLines | Server/admin/logfile.go:218-242 | saving a line adds it last of all lines ever written, after the half line it may have ended |
| LogFileWriter.PutSize | Server/admin/logfile.go:226-238 | the file's size afterwards, exactly; it passes the cap if and only if the size before, the line and its newline do |
| LogFileWriter.PassesItsCap | Server/admin/logfile.go:226-238 | any entry written to a file a byte short of its cap takes it past the cap |
| LogFileWriter.PutFine | Server/admin/logfile.go:218-242 | a line saved on its day keeps every file's day, part, size and lines within the rules |
| LogFileWriter.LogFile.Replay | Server/admin/logfile.go:186-345 | over any run with non-decreasing days, also one started on a torn file, the lines ever saved are those before, the half line repaired, and the accepted entries, which are some of those written, in order, each in a file of its day; without failures all are accepted; every file deleted was past the age limit at some step, or too much with all ever written after it |
| LogFileWriter.NothingDue | Server/admin/logfile.go:324-345 | so a run deletes nothing when no file is ever past the age limit and all ever written fits |
| LogRoundTrip.VolumeReadsBack | Server/admin/handlers_log_history.go:197-246 | a file's lines read back reversed, and a half line at its end is not read |
| LogRoundTrip.UnflushedReadsBack | Server/admin/logfile.go:303-319 | while lines are buffered, exactly a prefix of the lines reads back |
| LogRoundTrip.DirectoryReadsBack | Server/admin/handlers_log_history.go:249-284 | the directory reads back as every retained line, newest first |
| LogRoundTrip.TakenIsAsked | Server/admin/handlers_log_history.go:324-348 | the scan takes a saved entry if and only if the query asks for it |
| LogRoundTrip.JudgeWritten | Server/admin/handlers_log_history.go:324-348 | the scan takes a line, whole or cut by a crash, if and only if it is whole and the query asks for its entry |
| LogRoundTrip.HistoryAnswersQueries | Server/admin/handlers_log_history.go:249-362 | a query's pages over a flushed directory are the entries of its whole lines that it asks for, newest first |
| LogDecode.EscapePrefix | Server/admin/logfile.go:232-236 | the escapes of characters are a prefix code |
| LogDecode.MarshalPrefixFree | Server/admin/logfile.go:232-236 | no line is the beginning of another, and equal lines are of one entry |
| LogDecode.DecodeMarshal | Server/admin/handlers_log_history.go:341-344 | so every saved line decodes to its own entry |
| LogDecode.DecodeHalf | Server/admin/handlers_log_history.go:341-344 | and no part of one decodes |
| LogRecord.CutLineTime | Server/admin/handlers_log_history.go:165-176 | a line cut short shows the whole line's time or none |
| LogArchive.PromptOpsFine | Server/admin/logfile.go:218-242 | entries written within a day of their timestamps land in files whose day agrees with the reader's rule |
| LogArchive.FineDays | Server/admin/handlers_log_history.go:255-270 | files written by the rules have days, sizes and lines the reader can handle |
| LogArchive.FineTimes | Server/admin/handlers_log_history.go:328-334 | lines nearly in the order written are, read back, as nearly in order as the reader needs |
| LogArchive.OrderedSub | Server/admin/logfile.go:218-242 | lines that were not saved do not disturb the order of those that were |
| LogArchive.ArchiveAnswers | Server/admin/handlers_log_history.go:249-362 | following any query's cursors over an archive, half lines and all, gives exactly the entries of its whole lines that the query asks for, newest first |
| LogRuns.CutFile | Server/admin/logfile.go:272-276 | what a crash leaves of a file is its first lines and perhaps the beginning of the next, and what is lost is what was not on the disk |
| LogRuns.CrashLeavesArchive | Server/admin/logfile.go:272-276 | a crash leaves an archive, and loses at most the bytes not on the disk and the rest of one line |
| LogRuns.Leave | Server/admin/logfile.go:218-242 | closed, nothing is missing; after a crash the newest file lacks at most the buffer, and after one in the middle of a write that spills, at most the buffer and that line |
| LogRuns.SaveRun | Server/admin/logfile.go:186-345 | any life of the writer, started on any archive, torn file included, with prompt, nearly ordered writes some of which may fail, flushes, sweeps and closings, ended by closing, by a crash, or by a crash within its last step, leaves an archive again: of all lines, in order, the first went with deleted files, each past the age limit at some step or too much with all after it; a crash loses at most the buffer and one line of the last, and within a write also the line being written; the rest reads back newest first |
| LogRuns.RunDecodes | Server/admin/handlers_log_history.go:341-344 | the entries held afterwards are those before, a mended one if its line was whole, and those accepted |
| LogRuns.EmptyArchive | Server/admin/logfile.go:82-90 | an empty directory is an archive, so any number of lives can follow |
| LogRuns.FaithfulCodec | Server/admin/handlers_log_history.go:341-344 | the decoder the reader relies on can exist |
| LogRing.TailPush | Server/admin/logring.go:11-17 | keeping the last n of what was kept and one more is keeping the last n of everything |
| LogRing.RingStep | Server/admin/logring.go:11-17 | storing at the write position appends, and drops the oldest when full |
| LogRing.Ring.Push | Server/admin/logring.go:11-17 | the ring holds the last entries pushed, as many as fit |
| LogRing.Ring.Snapshot | Server/admin/logring.go:19-30 | the two copied slices are the stored entries, oldest first |
| LogStream.OfferFollows | Server/admin/logstream.go:171-177 | a write keeps every subscriber's view an in-order part of the history |
| LogStream.RingBuffer.Write | Server/admin/logstream.go:159-178 | both rings and every subscriber see the entry, a full channel missing it |
| LogStream.RingBuffer.SnapshotAndSubscribe | Server/admin/logstream.go:230-256 | the backfill is the ring at the moment of subscribing |
| LogStream.RingBuffer.LiveStreamIsSuffix | Server/admin/logstream.go:230-256 | backfill, received and queued entries are a contiguous suffix of the history if and only if no write found the channel full, and an in-order subsequence of it always |
| SupportEvents.SupportSnapshot | Server/admin/logstream.go:198-212 | the snapshot merges the general ring and the failures ring |
| SupportEvents.SnapshotIs | Server/admin/logstream.go:198-212 | the merge is the general ring preceded by the evicted failures among the last 200 of all, without duplicates |
| SupportEvents.ThinChosen | Server/admin/support_redaction.go:117-135 | keeping the newest failures, then the newest others, is the promised choice |
| SupportEvents.Collect | Server/admin/support_redaction.go:123-133 | the backward walks collect exactly the newest of one kind until full |
| SupportEvents.SortPositions | Server/admin/support_redaction.go:134 | the positions kept, increasing |
| SupportEvents.Select | Server/admin/support_redaction.go:117-140 | the selection is the promised choice |
| SupportEvents.BundleKeepsFailures | Server/admin/support_redaction.go:94-143 | after any history the events hold the last 200 failures ever written, then the newest others, at most 200, in write order |
| SupportEvents.Bundle | Server/admin/support_redaction.go:94-143 | the same of the method that reads a live ring buffer |
| SupportDetail.AttachDetail | Server/admin/support_event_detail.go:433-458 | the loop with its memory attaches exactly what fits, newest first, as if nothing were remembered |
| SupportDetail.WithinBudget | Server/admin/support_event_detail.go:433-458 | the details attached fit the budget together |
| SupportDetail.OlderLoseDetailIff | Server/admin/support_event_detail.go:429-458 | events older than the first that does not fit all lose their detail if and only if none of them would fit in what is left |
| SupportDetail.OlderCanOutlastNewer | Server/admin/support_event_detail.go:429-458 | eighteen details of ordinary size of which an older one is kept and a newer one is lost |
| JsonValueLen.ValueLen | Server/admin/support_event_detail.go:268-295 | the loop takes as many characters as the counter automaton |
| JsonValueLen.ValuePasses | Server/admin/support_event_detail.go:268-295 | inside brackets every value of the grammar of RFC 8259, sections 2 to 7, leaves the counter where it was |
| JsonValueLen.ScanTakesTheValue | Server/admin/support_event_detail.go:268-295 | for every value, followed by any legal terminator, the scan takes exactly the value's printed length |
| JsonValueLen.CutTakesAll | Server/admin/support_event_detail.go:268-295 | a text cut inside what the scan takes is taken whole |
| JsonValueLen.UnclosedTakesTheRest | Server/admin/support_event_detail.go:268-295 | an unclosed string, array or object takes the rest of the text |
| NameTrie.Trie.Add | Server/admin/support_event_detail.go:131-142 | adds exactly one name, and keeps the nodes a tree |
| NameTrie.Trie.FindLongest | Server/admin/support_event_detail.go:189-198 | the walk finds what a search of the plain list of names finds |
| NameTrie.LongestIsLongest | Server/admin/support_event_detail.go:189-198 | no longer acceptable name stands at that word |
| SupportText.RunsMaximal | Server/admin/support_event_detail.go:181-185 | word stretches are uniform and cannot be extended |
| SupportText.RunsCover | Server/admin/support_event_detail.go:181-185 | every word character lies in one |
| NameScrub.MasksApart | Server/admin/support_event_detail.go:177-208 | masked stretches are disjoint, in order, and each a known name |
| NameScrub.MasksCover | Server/admin/support_event_detail.go:177-208 | the first word of every occurrence of a known name is masked |
| NameScrub.MaskTokens | Server/admin/support_event_detail.go:186-208 | the walk over the text replaces exactly those stretches |
| NameScrub.NamesAreHidden | Server/admin/support_event_detail.go:177-208 | in the text, a known name's first word lies in a replaced stretch, and what lies outside the stretches is unchanged |
| NameScrub.Scrub | Server/admin/support_event_detail.go:177-246 | words are masked, then literals in what is left |
| NameScrub.AddValue | Server/admin/support_event_detail.go:159-171 | a value goes to the words, to the literals, or nowhere |
| NameScrub.NewKnown | Server/admin/support_event_detail.go:157-175 | the two tries hold exactly the names of the values |
| NameScrub.ScrubValues | Server/admin/support_event_detail.go:157-246 | scrubbing with the values the server knows masks exactly their words, then their literals |
| NameScrub.RegisteredNamesAreHidden | Server/admin/support_event_detail.go:157-208 | wherever the words of a registered value stand in a row in a text, in any case, the first lies in a replaced stretch and what lies outside is unchanged |
| NameScrub.NothingKnown | Server/admin/support_event_detail.go:177-180 | with nothing known the text is unchanged |
| Allowlist.Allowlist | Server/admin/support_event_detail.go:346-379 | the loop over builders is the rewrite |
| Allowlist.OutputAllKept | Server/admin/support_event_detail.go:346-379 | every compound of the output is kept |
| Allowlist.AllKeptMeans | Server/admin/support_event_detail.go:321-343 | that is every maximal run between separators passing the test, both ways |
| Allowlist.OutputRunsKept | Server/admin/support_event_detail.go:321-379 | every maximal run of the output passes the real test, over any vocabulary |
| Allowlist.KeptTextUnchanged | Server/admin/support_event_detail.go:346-379 | the rewrite is the identity on text whose compounds are all kept |
| Allowlist.Idempotent | Server/admin/support_event_detail.go:346-379 | rewriting twice is rewriting once |
| Allowlist.MaskedRunsCollapse | Server/admin/support_event_detail.go:346-379 | masked compounds apart only by spaces come out as one mask |
| TextOrigin.ReplaceTrace | Server/admin/support_event_detail.go:186-208 | what comes out is the input in order with whole `[x]` masks in it: no character of a replaced stretch is shown, every other one is, and each character is either shown from its place or part of a mask |
| TextOrigin.HiddenIsLeftOut | Server/admin/support_event_detail.go:186-208 | an output traced so, with a word hidden, has only characters that are one of `[`, `x`, `]` or stand in the input outside the word, in that order |
| TextOrigin.ShowingItIsCaught | Server/admin/support_event_detail.go:186-208 | a text that still has the word, if any character of it is not one of `[`, `x`, `]`, is not such an output |
| SupportScrub.AllowedTrace | Server/admin/support_event_detail.go:346-379 | what the rewrite puts out is its input in order with whole `[x]` masks in it, each character either shown from its place or part of a mask, and no character of a compound that is not kept is shown |
| SupportScrub.ScrubText | Server/admin/support_event_detail.go:315 | names, then literals, then compounds |
| SupportScrub.RegisteredNamesDoNotComeOut | Server/admin/support_event_detail.go:157-379 | wherever the words of a registered value stand in a row in a text: every character that comes out of the three passes and is not one of `[`, `x`, `]` stands in the text outside the first of those words, in that order |
| SupportScrub.ScrubbedIsKept | Server/admin/support_event_detail.go:321-379 | every maximal run of what comes out is kept |
| JitterBuffer.AppAudioJitterBuffer.Drop | Client/public/app-audio-worklet.js:64-79 | drops exactly the oldest frames across chunks |
| JitterBuffer.AppAudioJitterBuffer.Push | Client/public/app-audio-worklet.js:55-61 | the chunk list refines a frame queue cut to the cap |
| JitterBuffer.AppAudioJitterBuffer.Play | Client/public/app-audio-worklet.js:97-113 | the pull loop ends, and plays the queue's first frames across chunk edges |
| JitterBuffer.AppAudioJitterBuffer.PullInto | Client/public/app-audio-worklet.js:86-131 | a pull is the queue's pull: same frames, same silence, same lag count |
| JitterBuffer.RunConserves | Client/public/app-audio-worklet.js:55-124 | in every run pushed = played + dropped + queued, played frames are an in-order part of those pushed, frames leave only at the front, and at most the cap wait |
| JitterBuffer.SilentWhileFilling | Client/public/app-audio-worklet.js:86-92 | while filling, nothing is played, dropped or lost before the target is queued |
| JitterBuffer.UnderrunWaitsForTarget | Client/public/app-audio-worklet.js:86-96 | after running dry, however often it is pulled, the buffer stays silent until the target is queued again |
| JitterBuffer.StepLagBounded | Client/public/app-audio-worklet.js:86-124 | every step keeps: a positive lag count means more than twice the target was queued, under a second's worth |
| JitterBuffer.LagIsCutInTime | Client/public/app-audio-worklet.js:114-122 | no streak of pulls that each leave more than twice the target plays 48000 frames |
| JitterBuffer.CutLeavesTheTarget | Client/public/app-audio-worklet.js:114-119 | the pull that ends such a streak leaves exactly the target |
| NoiseFrames.NoOverflow | Client/public/rnnoise-worklet.js:192-228 | from the ready state no call of up to 23521 samples overwrites a frame |
| NoiseFrames.OverflowLosesFrames | Client/public/rnnoise-worklet.js:216-227 | a call makes exactly the model's output for the whole frames of the samples held back and its own, and holds back the rest; it loses frames if and only if it overflows the ring, and then exactly the oldest, as many as it is over |
| NoiseFrames.LimitIsExact | Client/public/rnnoise-worklet.js:192-228 | one sample more, after three small calls, loses a frame that still waits to be played: the ring then holds only the model's output for the samples held back and those of that call |
| NoiseFrames.Played | Client/public/rnnoise-worklet.js:345-346 | every run of calls within the limit stays healthy: nothing lost, nothing repeated |
| NoiseFrames.HeardIsPrefix | Client/public/rnnoise-worklet.js:256-302 | what is heard is a prefix of the processed stream, and less than 480 samples are missing |
| NoiseFrames.CallSilence | Client/public/rnnoise-worklet.js:277-302 | a call raises the run's silence to the input it leaves short of a frame |
| NoiseFrames.SilenceIsWorstRemainder | Client/public/rnnoise-worklet.js:256-302 | the silence of a whole run is exactly the worst remainder of its input, so it is under 480 samples |
| NoiseProcessor.RingPush | Client/public/rnnoise-worklet.js:216-222 | writing a slot of a ring with room appends a frame |
| NoiseProcessor.RingOverwrite | Client/public/rnnoise-worklet.js:216-227 | writing a slot of a full ring drops the oldest frame |
| NoiseProcessor.RNNoiseProcessor.ProcessFrame | Client/public/rnnoise-worklet.js:192-228 | a full input array goes through the model into the ring |
| NoiseProcessor.RNNoiseProcessor.ProcessInput | Client/public/rnnoise-worklet.js:256-275 | feeding in blocks is feeding sample by sample |
| NoiseProcessor.RNNoiseProcessor.FillOutput | Client/public/rnnoise-worklet.js:277-302 | draining in blocks is draining sample by sample, then silence |
| NoiseProcessor.RNNoiseProcessor.Process | Client/public/rnnoise-worklet.js:345-346 | one ready call is the stage's call |
| VoiceGate.ClippedIsBestWindow | Client/public/vad-worklet.js:157-159 | the clipped counter is the best net count over all windows ending now |
| VoiceGate.OpensExactly | Client/public/vad-worklet.js:157-165 | a closed gate opens exactly at the first quantum that ends a window, since closing, whose net count reaches the opening count |
| VoiceGate.QuietRunIs | Client/public/vad-worklet.js:166-176 | the quiet run has k quanta if and only if the last k are quiet |
| VoiceGate.ClosesExactly | Client/public/vad-worklet.js:166-176 | an open gate closes exactly when its quiet run reaches the closing count |
| VoiceGate.MessagesAlternate | Client/public/vad-worklet.js:74-99 | over every run of quanta and configurations gate messages strictly alternate, starting with a closing, and the last says how the gate stands |
| VoiceGate.MessagesAtMostInputs | Client/public/vad-worklet.js:74-99 | there are at most as many as quanta and configurations |
| VoiceGate.EveryChangeIsPaid | Client/public/vad-worklet.js:157-176 | every closing uses up the closing count of quanta and every opening by voice the opening count |
| VoiceGate.MessagesAreFew | Client/public/vad-worklet.js:157-176 | with closing counts of at least a and any opening counts, n quanta change the gate at most 2n/a times, however often it is configured |
| VoiceProcessor.NotBoth | Client/public/vad-worklet.js:150-166 | with the hysteresis no quantum counts for opening and for closing |
| VoiceProcessor.SumSquares | Client/public/vad-worklet.js:122-126 | the loop sums the squares |
| VoiceProcessor.VadProcessor.Store | Client/public/vad-worklet.js:128-130 | the running sum is the sum of the last four powers, never negative |
| VoiceProcessor.VadProcessor.Level | Client/public/vad-worklet.js:122-131 | the level is the root of the mean of the last four powers |
| VoiceProcessor.VadProcessor.Configure | Client/public/vad-worklet.js:75-87 | a configuration is a configuration step of the gate's run |
| VoiceProcessor.VadProcessor.Decide | Client/public/vad-worklet.js:150-176 | a decision is a quantum step of the gate's run |
| VoiceProcessor.VadProcessor.Process | Client/public/vad-worklet.js:102-179 | a quantum feeds the level always, and the gate only after the grace; a stopped processor ends; a missing input changes nothing |
| VoiceProcessor.PostedAlternate | Client/public/vad-worklet.js:74-179 | every processor's posted gate messages alternate, starting with a closing |
| RestartSlot.RestartState.Begin | Server/admin/restart.go:78-82 | only an idle slot is claimed |
| RestartSlot.RestartState.Abort | Server/admin/restart.go:84-87 | a release never demotes a pending restart |
| RestartSlot.RestartState.TryDirect | Server/admin/restart.go:96-98 | idle goes straight to pending, or nothing changes |
| RestartSlot.EveryRunKeepsInv | Server/admin/update_handlers.go:161-250 | in every interleaving of applies with their jobs, restores, config and setup restarts, at most one operation owns the slot, the slot says what it does, and at most one restart is requested |
| RestartSlot.ReleaseIsOwn | Server/admin/update_handlers.go:227-250 | a release takes back only its own operation's claim |
| RestartSlot.PendingStays | Server/admin/restart.go:84-98 | no step leaves pending |
| RestartSlot.PendingForGood | Server/admin/handlers_backup.go:218-227 | once pending, pending after any further steps |
| RestartSlot.RequestIsCommitted | Server/admin/handlers_backup.go:333-334 | a restart is requested once, by the operation that committed it |
| RestartSlot.RefusedDirect | Server/admin/setup_handler.go:388-393 | a direct restart that is refused has lost to one operation, which restarts the process if and only if none of its further steps gives its claim back |
| RestartSlot.SetupLosesToAFailure | Server/admin/setup_handler.go:388-393 | a setup restart skipped for an update that then fails: the slot is free and no restart was requested |
| SwapFiles.RestartOnlyForHashedFile | Server/admin/update_handlers.go:424-479 | in every interleaving with others creating, deleting, moving and overwriting files, a restart is requested only after one file was opened at the staged path, what was read from it hashed to the expected value, and that same file was found at the executable's path; it is still there if nobody touched the path since |
| SwapFiles.TextIsLastWritten | Server/updater/verify.go:235-284 | the job itself never changes a file's bytes: a file holds what others wrote into it last |
| SwapFiles.ReadsWhatIsThere | Server/updater/verify.go:235-250 | while nobody overwrites the open file, what was hashed is all of it, read in pieces of any size |
| SwapFiles.RestartBytes | Server/updater/verify.go:252-284 | the bytes restarted into are the hashed ones if and only if what others last wrote into the file after hashing, if anything, was those bytes |
| SwapFiles.RestartWithOtherBytes | Server/admin/update_handlers.go:432-435 | a run that restarts into other bytes: the staged file overwritten in place after hashing |
| SwapOutcome.RunAccounts | Server/admin/update_handlers.go:456-475 | each phase of the swap is reached by exactly one past: which of stat, rename, look and recovery failed, and which file the staged path led to when it was renamed |
| SwapOutcome.WhatIsLeft | Server/admin/update_handlers.go:456-479 | whatever is done to the staged path: a restart is requested if and only if the hashed file was renamed into place and could be looked at, and then it is there; otherwise the original is there if and only if moving it back did not fail or the staged path had led to it, nothing is there if and only if that failed and stat or rename had failed, and with that failure the hashed file is there if and only if it had been renamed into place and could not be looked at |
| SwapFiles.VerifiedWithoutRestart | Server/admin/update_handlers.go:465-474 | a run that ends so: the verified bytes in place and no restart |
| BinarySwap.ExactlyOneAnswer | Server/admin/update_handlers.go:317-380 | at no time have both a restart been requested and its announcement been taken back, and once the countdown has run out and the job is over exactly one has, once |
| BinarySwap.AuditIsTrue | Server/admin/update_handlers.go:317-341 | a job that is over has recorded one outcome: applied if and only if the restart was requested and the slot is pending, failed if and only if the slot is free |
| UpdateJob.Job.ReadStaged | Server/updater/verify.go:235-250 | reading through the handle, with others acting between reads, is a run of the machine and ends |
| UpdateJob.Job.Commit | Server/updater/verify.go:257-284 | stat, rename and comparison are steps of the machine |
| UpdateJob.Job.Swap | Server/admin/update_handlers.go:424-479 | the swap with its early returns is a run of the machine |
| UpdateJob.Job.ApplyAndRestart | Server/admin/update_handlers.go:317-341 | whatever others do and whatever fails, the whole job is a run of the machine and ends |
| ArchiveShutdown.ArchiveDeadline.CapAt | Server/admin/archive_deadline.go:111-136 | a cap pulls the bound, the build's timer and the connection in together |
| ArchiveShutdown.ArchivesInFlight.ShutdownArchives | Server/admin/archive_deadline.go:46-58 | the hook caps exactly its server's running requests |
| ArchiveShutdown.ArchivesInFlight.StartArchive | Server/admin/archive_deadline.go:78-99 | a request starting on a closing server is capped before it is registered |
| ArchiveShutdown.DoKeepsInv | Server/admin/archive_deadline.go:46-136 | every step keeps: no deadline passes its bound, and a registered request of a closing server is bound by the cutoff or awaited by the hook |
| ArchiveShutdown.RunKeepsInv | Server/admin/archive_deadline.go:46-136 | so does every run |
| ArchiveShutdown.BoundsNeverMoveLater | Server/admin/archive_deadline.go:109-136 | over every run no bound moves later |
| ArchiveShutdown.HookCatchesAll | Server/admin/archive_deadline.go:36-99 | once a server's hook has run, every registered request on it, from before or after, ends within the grace of that hook |
| ArchiveShutdown.OthersAreLeftAlone | Server/admin/archive_deadline.go:46-58 | until its own server closes, a request keeps its bound |
| ApplyShutdown.AppliesInFlight.EndApplies | Server/admin/update_shutdown.go:33-48 | the hook cancels exactly its server's tracked applies |
| ApplyShutdown.AppliesInFlight.TrackApply | Server/admin/update_shutdown.go:52-60 | a new apply is cancelled at once exactly when its server is closing |
| ApplyShutdown.ActKeepsInv | Server/admin/update_shutdown.go:33-66 | every step keeps: a tracked apply of a closing server is cancelled or owed a cancel, and no other is |
| ApplyShutdown.CancelledExactlyWhenClosing | Server/admin/update_shutdown.go:33-66 | in every interleaving, once no cancel is owed, a tracked apply is cancelled if and only if its server is closing |
| ApplyShutdown.CancelledStays | Server/admin/update_shutdown.go:33-66 | a cancel is never taken back |

## Left out

- HTTP handlers, middleware, permissions, routes and the database: adapters over code outside the models.
- The query parser of the history route: a valid query is the starting point.
- Base64 around a cursor, which is taken to be injective.
- Bytes and UTF-8: text is a sequence of characters, and a size is a number of characters.
- The regular-expression masks of the scrubber, its vocabulary table, and the reduction of attributes to keys and truncated values.
- WASM loading, start-up and errors of the RNNoise worklet, its speech probability output, and floating-point rounding; the model is any function from a state and a frame to a state and a frame.
- The level meter's messages of the voice worklet.
- The release manifest and its signature: the expected hash is given, and the hash is any function. File numbers are never used again, as an open handle or the file system sees to.
- Reads that end by context cancellation, and retried opens of log files.
- LogFileKey.NameRoundTrip: days are those of years 1 to 9999, the ones the file name's four digits can write.
- LogFileWriter.LogFile.WriteEntry: no file is dated after the day, as for LogFileWriter.LogFile.OpenNewest; the clock is read once per write, and neither a write to the disk nor a delete fails; failing to open a file is modelled.
- LogFileWriter.LogFile.Replay: the clock never goes back a day.
- LogFileWriter.LogFile.OpenNewest: no file is dated after the day; on a clock that went back the newest part of the day would not be the newest file, and lines would no longer stand in the order written.
- LogFileWriter.LogFile.Rotate: no file is dated after the day, likewise.
- LogRuns.SaveRun: caps and part numbers keep offsets and names readable, and days go on, as for LogFileWriter.LogFile.Replay; a crash falls between or within writes and flushes, not between two deletions of one sweep.
- LogGrowing.FollowGrowing: nothing is swept between two pages; what a sweep deletes later pages cannot give.
- LogPaging.PagesAreAllWanted: assumes lines within the limit, distinct file keys, file days that agree with entry times, and, for a query with a lower time bound, lines in time order up to a minute; LogRuns.SaveRun shows that prompt, nearly ordered writes give all of these.
- SupportEvents.Bundle: the second clause assumes that timestamps parse, as the server's own do.
- JitterBuffer.AppAudioJitterBuffer.Push: chunks have an even number of samples, as stereo frames do; an odd one would leave half a frame.
- JitterBuffer.AppAudioJitterBuffer.PullInto: the two outputs are distinct arrays of one length, as the worklet passes them.
- VoiceProcessor.VadProcessor.Process: a connected input has at least one sample, and frame counts are whole numbers.
- ArchiveShutdown.HookCatchesAll: about real servers; a request that carries no server is never capped on registering, and the code says so.
- ApplyShutdown.CancelledExactlyWhenClosing: about real servers, likewise.
- BinarySwap.ExactlyOneAnswer: the second half with a hub to broadcast to; without one nothing is broadcast.
- SupportScrub.RegisteredNamesDoNotComeOut: a character `[`, `x` or `]` that comes out cannot be told from one of a mask, so nothing is said of a word made only of these.
- SwapOutcome.WhatIsLeft: others keep off the executable and the names for the previous binary; what they do there the job cannot answer for.
- SwapOutcome.RunAccounts: others keep off the executable and the names for the previous binary, likewise.
