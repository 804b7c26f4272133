# ReflexScript coding-agent tooling, modelled in Dafny

This project models three pieces of the ReflexScript code-generation
tooling. Each piece has an executable-style model and proofs about it.

- **The agent loop's compiler-output handling** (`rs-coder/agent_loop.py`).
  - It extracts a ReflexScript program from a language-model reply
    (`extraction.dfy`, module `CodeExtraction`).
  - It parses `reflexc` diagnostics of the form
    `FILE:LINE:COLUMN: TYPE: MESSAGE`, with their follow-on lines, into error
    records (`compiler_errors.dfy`, module `CompilerErrors`).
  - It sorts raw compiler output lines into syntax, type, linker, warning and
    other lists (`categories.dfy`, module `ErrorCategories`).
  - It chooses which errors, and how many, go back to the model in the retry
    prompt (`feedback.dfy`, module `ErrorFeedback`).
- **The prompt-corpus generator's bookkeeping** (`gen_prompts.py`).
  - Batch counts, checkpoint file names and their parsing back, and the
    elapsed-time rendering (`checkpoints.dfy`, module `Checkpoints`).
  - Text normalisation, n-grams and prompt validation (`prompt_text.dfy`,
    module `PromptText`).
  - Near-duplicate removal (`dedup.dfy`, module `Dedup`).
- **The speech-to-text WebSocket session** (`rs-coder/scripts/whisper_ws_server.py`,
  `handle_websocket`). This is the per-connection state machine over start,
  audio chunk, stop, ping and info messages (`whisper_session.dfy`, module
  `RecordingSession`).

The Python string primitives these rely on are in `text.dfy` (modules
`Wrappers` and `Text`):

- `str.strip`, `str.lower`, `str.split`, `str.find`;
- the substring test `in`;
- decimal rendering and parsing of integers.

Where the source runs a loop that updates variables, the model is a Dafny
`method` with the same loop. That method is proved equal to a specification
function, and the lemmas state their properties about that function.
Regular expressions are matched by hand. Three regexes are involved: the
code fence of the extractor, the diagnostic header, and the checkpoint name.
Each hand matcher is proved equivalent, in both directions, to a separate
statement of what its regex accepts and which match Python reports. That
covers greedy and lazy groups, the leftmost match, `.` not taking a newline,
and `$` matching before a final newline. The header regex is stated in
`header_regex.dfy`, module `HeaderRegex`. The category patterns of
`parse_and_categorize_errors` are substring tests, not regexes.

## Model

| member | source | states |
|---|---|---|
| CodeExtraction.ExtractCode | rs-coder/agent_loop.py:143-190 | No code for a missing or empty reply. Otherwise the stripped body of the first ```` ```reflexscript ```` block. Failing that, the stripped body of the first plain fenced block, but only when that body contains `reflex `. Failing that, the brace scan from the first `reflex `. |
| CodeExtraction.UntaggedCode | rs-coder/agent_loop.py:160-188 | Without a tagged block: the stripped plain-fence body when it contains `reflex `, otherwise the brace-scan result. |
| CodeExtraction.FenceAt | rs-coder/agent_loop.py:155-161 | The body of the fence regex's match at a position, when the tag is there. The greedy `\s*` ends at the last newline of the whitespace after the tag. The lazy body runs from there to the first closing fence. FenceAtMatches and FenceAtLatest relate it to the regex. |
| CodeExtraction.FenceAtMatches | rs-coder/agent_loop.py:155-156 | The fence matcher answers exactly when the regex `TAG\s*\n(.*?)```` ` matches at a position. Its body runs from the last newline of the whitespace after the tag (greedy `\s*`) to the first closing fence (lazy body). |
| CodeExtraction.FenceAtLatest | rs-coder/agent_loop.py:155-156 | When the fence matcher answers, some regex match at that position has exactly its body, and every other match has its newline no later. |
| CodeExtraction.NextFence | rs-coder/agent_loop.py:155 | The lazy `(.*?)` stops at the first closing fence at or after a position. There is no fence before it, and no answer only when no fence follows. |
| CodeExtraction.SearchFence | rs-coder/agent_loop.py:156 | `re.search` finds the leftmost position where the fence regex matches. No earlier position matches. |
| CodeExtraction.BraceScan | rs-coder/agent_loop.py:170-190 | The scan result is present exactly when some `}` brings the running brace count back to 0 after a `{`. It is then the stripped text from the first `reflex ` up to and including the first such `}`. |
| CodeExtraction.FirstClose | rs-coder/agent_loop.py:176-184 | The first position where the scan stops, and no earlier stop exists. |
| CompilerErrors.ParseHeader | rs-coder/agent_loop.py:247-250 | `error_pattern.match(line)`: the header shape is tried with every colon as the end of the file group. The last colon where the rest of the line matches wins, as the greedy `(.+)` makes it. HeaderRegex.HeaderMatches relates it to the regex. |
| CompilerErrors.HeaderRoundTrip | rs-coder/agent_loop.py:247 | A diagnostic printed as `FILE:LINE:COLUMN: TYPE: MESSAGE` parses back to exactly its file, line, column, type and message. The conditions are that the file is non-empty without a newline, and the type has the `\w+(?:\s+\w+)*` shape. The message must be non-empty, start with no whitespace and hold no newline. No colon in the message may be followed by a `LINE:COLUMN: TYPE: MESSAGE` tail. Colons in the file name do no harm. |
| CompilerErrors.MessageTailMovesFile | rs-coder/agent_loop.py:247 | When a colon of the message is followed by such a tail, the greedy file group ends at that colon. The parse then has a longer file than the printed one, and is not the printed header. So the round trip's last condition cannot be dropped. |
| CompilerErrors.ParseErrors | rs-coder/agent_loop.py:236-271 | The parse loop yields the records of the specification fold. There is one record per header line, in order. Each record has its header's file, line, column and type, and a message that starts with the header's message. |
| CompilerErrors.Step | rs-coder/agent_loop.py:249-266 | The specification of one iteration of the parse loop. A header closes the open record, if any, and opens its own. With a record open, a suggestion line sets its suggestion and a continuation line appends a space and the text to its message. Anything else, and any line while no record is open, leaves the state alone. ParseErrors is proved equal to the fold of this step. |
| CompilerErrors.ParseLine | rs-coder/agent_loop.py:249-266 | One line, in the source's branch order: a header closes the open record and opens a new one. A `Suggestion:` line sets the suggestion. An unindented non-blank line extends the message. Anything else changes nothing. |
| CompilerErrors.SuggestionText | rs-coder/agent_loop.py:262-263 | The suggestion is the stripped text after the first `Suggestion:`, so it carries no surrounding whitespace. |
| CompilerErrors.RecordsFollowHeaders | rs-coder/agent_loop.py:249-269 | The records correspond one to one, in order, to the header lines. The final open record is emitted too. |
| CompilerErrors.RunFromShape | rs-coder/agent_loop.py:249-269 | From any state, closed records stay unchanged and the open record only grows. One new record follows per header line. |
| CompilerErrors.HeaderShape | rs-coder/agent_loop.py:249-255 | A header line closes the open record unchanged and starts the record of its own header. |
| CompilerErrors.OtherLineShape | rs-coder/agent_loop.py:260-266 | Any other line keeps every closed record and at most extends the open record's message. |
| CompilerErrors.LeadingLinesIgnored | rs-coder/agent_loop.py:249-266 | Lines before the first header leave no trace in the result. |
| CompilerErrors.BlankOutputNoErrors | rs-coder/agent_loop.py:243 | Compiler output that is all whitespace yields no records. |
| CompilerErrors.FollowOnLine | rs-coder/agent_loop.py:262-266 | Appending a non-header line touches only the last record. A `Suggestion:` line replaces its suggestion. An unindented non-blank line appends a space and the stripped line to its message. Any other line, or any line before the first record, changes nothing. |
| CompilerErrors.PrintedHeadersRoundTrip | rs-coder/agent_loop.py:247-261 | Output made of printed diagnostics, one per line, each meeting the round trip's conditions, parses back to exactly those diagnostics, in order, with no suggestion. |
| HeaderRegex.HeaderMatches | rs-coder/agent_loop.py:247-250 | `error_pattern.match` on a line succeeds exactly when the line splits into the regex's pieces. The pieces are a file without a newline, two digit runs, whitespace, a well-shaped type, whitespace, and a message without a newline. An optional final newline may follow. The parsed header is such a split. Its message is the one the greedy `\s*` leaves. No split has a longer file group. |
| HeaderRegex.LongestGreedySplit | rs-coder/agent_loop.py:247-259 | A split with the longest file group and the greedy message is exactly what the matcher returns, group by group. |
| HeaderRegex.ParsedIsSplit | rs-coder/agent_loop.py:250-259 | The groups the matcher returns are those of a split of the line. |
| HeaderRegex.SplitIsParsed | rs-coder/agent_loop.py:247-250 | Every split of the line makes the matcher answer, with a file group at least as long. It answers with that split when it ends the file there and the message is the greedy one. |
| ErrorCategories.CategoryOf | rs-coder/agent_loop.py:292-331 | The list a non-blank line goes to: the first pattern group found in the lower-cased line, in the order informational (other), syntax, type, linker, warning. With none of them it goes to other. The source's failure-word branch also appends to other, so it is not a separate case. |
| ErrorCategories.CategorizeErrors | rs-coder/agent_loop.py:274-334 | Each of the five lists holds, in input order, the non-blank lines of its category. The category is the first matching pattern group on the lower-cased line, in the order informational, syntax, type, linker, warning. |
| ErrorCategories.BucketsPartition | rs-coder/agent_loop.py:286-331 | The five lists together hold every non-blank line exactly once and no blank line, as a multiset and in total length. |
| ErrorCategories.BucketMembers | rs-coder/agent_loop.py:286-331 | A line is in a category's list if and only if it is a non-blank output line of that category. |
| ErrorCategories.LinkerNeverUndefined | rs-coder/agent_loop.py:308-318 | No linker-list line mentions "undefined". Such lines are caught by the type patterns first, so the linker pattern "undefined reference" never decides a line. |
| ErrorCategories.InformationalIsOther | rs-coder/agent_loop.py:292-299 | A line matching an informational pattern goes to the other list, whatever error words it also contains. |
| ErrorCategories.ErrorColonIsSyntax | rs-coder/agent_loop.py:302-306 | A non-informational line containing "error:" is a syntax error, whatever else it mentions. |
| ErrorFeedback.FirstPerLine | rs-coder/agent_loop.py:471-477 | The errors kept by the `seen_lines` loop. An error is appended exactly when no earlier error has its line number, and input order is kept. |
| ErrorFeedback.SelectFeedbackErrors | rs-coder/agent_loop.py:470-491 | The `seen_lines` loop keeps the first error per line number, in order. At most ten are shown. A count of the rest is given exactly when more than ten remain, and shown plus counted equals the number kept. |
| ErrorFeedback.FirstPerLineDistinct | rs-coder/agent_loop.py:471-477 | The kept errors have pairwise distinct line numbers and cover every line number of the input. |
| ErrorFeedback.FirstPerLineIsFirst | rs-coder/agent_loop.py:473-476 | Every kept error is an input error with no earlier error on the same line. |
| ErrorFeedback.FirstPerLineSubsequence | rs-coder/agent_loop.py:471-477 | The kept errors are the input's errors at strictly increasing positions, in input order. |
| ErrorFeedback.FirstIndicesExact | rs-coder/agent_loop.py:473-476 | A position is kept exactly when no earlier error has the same line number. So every error that is first on its line is kept. |
| ErrorFeedback.FeedbackAccountsForAllLines | rs-coder/agent_loop.py:479-491 | The number of kept errors equals the number of distinct error lines. Shown plus "more" adds up to that number. |
| ErrorFeedback.SimpleEntry | rs-coder/agent_loop.py:357-364 | A simple-mode entry carries the error's line and message. It has a FIX exactly when the suggestion is non-empty. It has a CODE line exactly when `0 < line <= number of code lines`, and that line is the stripped code line. |
| ErrorFeedback.SimpleFeedback | rs-coder/agent_loop.py:349-366 | Simple mode lists the entries of the first five errors, in order. It reports the number left out exactly when there are more than five. |
| ErrorFeedback.SectionOf | rs-coder/agent_loop.py:389-394 | A category section shows the first ten lines of its list, gives its size, and reports the rest exactly when there are more than ten. |
| ErrorFeedback.BuildReport | rs-coder/agent_loop.py:383-453 | The report has sections and summary counts for exactly the non-empty lists, in the order syntax, type, linker, warnings. The error total counts syntax, type and linker lines. Suggestions appear exactly when that total is positive. The many-errors note appears exactly when a summary exists and the total exceeds 30. |
| ErrorFeedback.AddSection | rs-coder/agent_loop.py:389-394 | One `if <list>:` block: a non-empty list adds its section and its summary count, an empty one adds nothing. |
| ErrorFeedback.FullFeedback | rs-coder/agent_loop.py:379-453 | Full mode on raw output builds the report over the category lists of that output. |
| ErrorFeedback.NonEmptyReported | rs-coder/agent_loop.py:389-447 | The reported lists are the non-empty ones among syntax, type, linker and warnings, in that order. |
| ErrorFeedback.TotalErrorsCountsErrorLines | rs-coder/agent_loop.py:383 | The error total is the number of non-blank output lines that are neither warnings nor other messages. |
| ErrorFeedback.ManyErrorsNoted | rs-coder/agent_loop.py:449-453 | The many-errors note appears exactly when syntax, type and linker errors number more than 30. The summary-exists guard never suppresses it. |
| Checkpoints.BatchesPerDomain | gen_prompts.py:64-65 | The batch count is undefined (ZeroDivisionError) exactly when the batch size is 0. |
| Checkpoints.FloorDiv | gen_prompts.py:65 | Python's `//` rounds toward negative infinity for either sign of divisor. |
| Checkpoints.BatchesPerDomainIsCeiling | gen_prompts.py:64-65 | For a positive batch size the count is the ceiling of `n_per_domain / batch_size`: `b*size >= n` and `(b-1)*size < n`. |
| Checkpoints.BatchFileName | gen_prompts.py:184-185 | `_batch_path`'s file name: the domain code, `_batch_`, the batch number zero-padded to at least four digits, and `.json`. |
| Checkpoints.ParseBatchNumber | gen_prompts.py:210-212 | The number `re.search(r"_batch_(\d+)\.json$", name)` extracts. A final newline is dropped first, because `$` matches before it. The name must then end in `.json`, preceded by a run of digits that `_batch_` precedes. The value of those digits is the result. ParseBatchNumberMatches relates it to the regex. |
| Checkpoints.BatchNameRoundTrip | gen_prompts.py:184-185 | The checkpoint name `{code}_batch_{num:04d}.json`, read back through `_batch_(\d+)\.json$`, gives `num` for every domain code and every `num >= 0`. |
| Checkpoints.ParseBatchNumberOf | gen_prompts.py:210-212 | Any name ending in `_batch_`, a non-empty run of digits and `.json` reads back to the value of those digits. A final newline, before which `$` also matches, changes nothing. |
| Checkpoints.ParseBatchNumberMatches | gen_prompts.py:210-212 | The regex search `_batch_(\d+)\.json$` finds a number exactly when the name has that shape. Every other name gives none. The number is the value of the digit group of the shape. |
| Checkpoints.TrailingDigits | gen_prompts.py:210 | The `\d+` group before `.json` is the maximal run of digits ending the name. |
| Checkpoints.CompletedBatches | gen_prompts.py:206-213 | The loop collects the numbers of the entries that pass both the glob and the regex. |
| Checkpoints.CompletedInAllBatches | gen_prompts.py:206-213 | A listing whose every entry names a batch yields exactly those batch numbers. |
| Checkpoints.SavedBatchesRecovered | gen_prompts.py:206-213 | A directory holding exactly the saved checkpoints of some batch numbers reports exactly those numbers as completed. |
| Checkpoints.BatchFileEntry | gen_prompts.py:209-212 | A saved checkpoint's name passes the glob and the regex and yields its own number. |
| Checkpoints.FormatTime | gen_prompts.py:270-273 | `_format_time` on `int(secs)`. Two `divmod`s by 60 give hours, minutes and seconds. The result is `{h}h{mm}m` when there are hours and `{mm}:{ss}` otherwise. |
| Checkpoints.TwoDigits | gen_prompts.py:273 | `{n:02d}` for `n < 100` is two digits that read back as `n`. |
| Checkpoints.TimeDecomposition | gen_prompts.py:271-272 | The two `divmod`s give `h*3600 + m*60 + s == secs` with `m, s < 60`. |
| Checkpoints.FormatTimeUnderAnHour | gen_prompts.py:273 | Under an hour the rendering is `mm:ss`, which reads back to the seconds exactly. |
| Checkpoints.FormatTimeHours | gen_prompts.py:273 | From an hour on the rendering is `{h}h{mm}m`, which reads back to the seconds rounded down to the minute. |
| PromptText.NormalizeText | gen_prompts.py:446-447 | `" ".join(text.lower().split())`: lower-case, split at whitespace runs with empty words dropped, and join the words with single spaces. |
| PromptText.NormalizeTextNormalized | gen_prompts.py:446-447 | normalize_text's output has no upper-case letter, no whitespace but single spaces, and no space at either end. |
| PromptText.NormalizeTextIdempotent | gen_prompts.py:446-447 | normalize_text applied twice equals normalize_text applied once. |
| PromptText.NormalizedFixpoint | gen_prompts.py:446-447 | An already normalized text is left unchanged. |
| PromptText.SplitJoinNormalized | gen_prompts.py:447 | A normalized text splits into words that join back with single spaces to itself. |
| PromptText.NGrams | gen_prompts.py:450-454 | `get_ngrams`: the normalized text alone when it is shorter than n, otherwise the set of its length-n substrings at positions 0 to `len - n`. |
| PromptText.WindowsFromMembers | gen_prompts.py:454 | The window set holds exactly the length-n substrings at the given positions, and has at most `len - n + 1` of them. |
| PromptText.NGramsShort | gen_prompts.py:452-453 | When the normalized text is shorter than n, the n-grams are the normalized text alone. |
| PromptText.NGramsLong | gen_prompts.py:454 | Otherwise every n-gram is a length-n substring of the normalized text, every such substring is an n-gram, and there are at most `len - n + 1`. |
| PromptText.NGramsNonEmpty | gen_prompts.py:450-454 | The n-gram set is never empty, so every Jaccard union in deduplication is positive. |
| PromptText.ValidatePrompt | gen_prompts.py:150-170 | Rejects non-dict input, a missing or non-string `prompt`, and text shorter than 15 or longer than 500 characters. Text that passes the length gate is accepted exactly when neither the code-pattern nor the hardware-name search fires. |
| Dedup.DedupRows | gen_prompts.py:489-522 | The specification of the second loop. Each analysed row is kept unless its normalized text equals a kept row's, or its n-gram set is similar above the threshold to a kept row's. Rows are scanned in input order against the rows kept before them. ScanRows is proved equal to it. |
| Dedup.DeduplicatePrompts | gen_prompts.py:463-525 | deduplicate_prompts returns the result of the specification scan: analyse every prompt, then keep each prompt that duplicates no prompt kept before it. |
| Dedup.AnalysePrompts | gen_prompts.py:473-478 | The first loop computes the normalized text and n-grams of every prompt, in order. |
| Dedup.ScanRows | gen_prompts.py:483-522 | The second loop keeps a row exactly when its normalized text is unseen and no kept n-gram set is similar above the threshold. The set of seen normalized texts and the list of seen n-gram sets track the kept rows. |
| Dedup.AnySimilar | gen_prompts.py:499-515 | The inner loop with its size pre-filter and early exit reports a duplicate exactly when some kept n-gram set is similar above the threshold. |
| Dedup.DuplicateByParts | gen_prompts.py:495-518 | A row is a duplicate of the kept rows exactly when its normalized text is among theirs or its n-grams are similar above the threshold to some kept row's. |
| Dedup.DeduplicateEmpty | gen_prompts.py:468-469 | An empty input gives an empty output. |
| Dedup.DeduplicateIsSubsequence | gen_prompts.py:489-522 | The output is the input at strictly increasing positions, an order-preserving subsequence. |
| Dedup.DedupRowsSubsequence | gen_prompts.py:489-522 | The kept rows are the input rows at strictly increasing positions. |
| Dedup.DedupRowsPrefix | gen_prompts.py:489-522 | Deduplicating a prefix of the input gives a prefix of the output, so decisions are never revisited. |
| Dedup.FirstPromptKept | gen_prompts.py:489-522 | For non-empty input the first prompt is always kept, and it comes first. |
| Dedup.KeptPromptsDistinct | gen_prompts.py:495-522 | No two kept prompts share a normalized text. No kept prompt is similar above the threshold to one kept before it. |
| Dedup.KeptRowsDistinct | gen_prompts.py:495-522 | Every pair of kept rows is neither an exact nor a near duplicate. |
| Dedup.DroppedIffDuplicate | gen_prompts.py:495-518 | A prompt is dropped if and only if its normalized text equals a kept one's, or its Jaccard similarity with some kept prompt exceeds the threshold. |
| Dedup.DroppedRepresented | gen_prompts.py:495-518 | Every dropped prompt has a kept prompt that it duplicates. |
| Dedup.PrefilterSound | gen_prompts.py:502-508 | For every threshold, a pair that the size pre-filter skips is not similar above the threshold. The pre-filter never changes the outcome. |
| RecordingSession.Step | rs-coder/scripts/whisper_ws_server.py:197-299 | The specification of one inbound message. A binary chunk is buffered while recording, with an acknowledgement at every tenth chunk, and is ignored otherwise. Undecodable text is ignored. Decoded JSON that is not an object ends the handler. start, stop, ping and info act as their branches do, and other commands do nothing. |
| RecordingSession.StopStep | rs-coder/scripts/whisper_ws_server.py:217-267 | The stop branch. Recording goes off. An empty buffer sends `No audio data received`. Otherwise the joined audio becomes WAV: webm, opus and ogg through the converter, whose failure sends the conversion error, and pcm through the WAV wrapper, whose raising ends the handler. Other formats are used as they are. The WAV then goes to transcription, and the buffer is emptied. |
| RecordingSession.Run | rs-coder/scripts/whisper_ws_server.py:197-308 | The specification of the handler loop. The connection's messages are handled in order, the replies are collected, and the loop stops at the first message that ends the handler. HandleConnection is proved equal to it. |
| RecordingSession.HandleConnection | rs-coder/scripts/whisper_ws_server.py:187-308 | The handler loop sends exactly the messages of the specification run over the connection's messages. It stops where an exception escapes the loop. |
| RecordingSession.HandleMessage | rs-coder/scripts/whisper_ws_server.py:197-299 | One message moves the state (`audio_chunks`, `audio_format`, `sample_rate`, `is_recording`) and sends replies as the specification step does. A message that ends the handler sends nothing. |
| RecordingSession.HandleStop | rs-coder/scripts/whisper_ws_server.py:217-267 | The stop branch turns recording off, then does one of four things: reports missing audio, reports a failed conversion, ends the handler when pcm wrapping raises, or sends the transcribing status and the transcription reply and empties the buffer. |
| RecordingSession.Command | rs-coder/scripts/whisper_ws_server.py:202 | The command is the `type` field when present, else the `command` field, else the empty string. |
| RecordingSession.Started | rs-coder/scripts/whisper_ws_server.py:206-209 | Start empties the buffer and turns recording on. It takes the announced format (default `webm`) and sample rate (default 16000). |
| RecordingSession.StartBeginsRecording | rs-coder/scripts/whisper_ws_server.py:204-215 | Whatever the earlier state, start resets the session and its only reply is the recording status. |
| RecordingSession.IdleChunkIgnored | rs-coder/scripts/whisper_ws_server.py:289-291 | A binary message outside a recording sends nothing and changes nothing. |
| RecordingSession.FeedChunks | rs-coder/scripts/whisper_ws_server.py:289-299 | While recording, binary messages are appended to the buffer in order. An acknowledgement carrying the chunk count and total byte count is sent exactly when the buffer reaches a multiple of ten chunks. |
| RecordingSession.AcksEveryTenth | rs-coder/scripts/whisper_ws_server.py:293-299 | From an empty buffer, n chunks draw `n / 10` acknowledgements. The k-th reports `10(k+1)` chunks and the bytes of exactly those chunks. |
| RecordingSession.AcksAreTenfold | rs-coder/scripts/whisper_ws_server.py:293-299 | Every acknowledgement a connection sends reports a positive multiple of ten chunks. |
| RecordingSession.Concat | rs-coder/scripts/whisper_ws_server.py:230 | The joined audio is as long as the chunks together and ends with the last chunk. |
| RecordingSession.ConcatHoldsChunks | rs-coder/scripts/whisper_ws_server.py:230 | Every chunk sits in the joined audio at the offset of the bytes received before it. |
| RecordingSession.StopWithoutAudio | rs-coder/scripts/whisper_ws_server.py:219-227 | Stop with an empty buffer sends `No audio data received` and only turns recording off. |
| RecordingSession.StopTranscribes | rs-coder/scripts/whisper_ws_server.py:229-267 | Stop with audio whose WAV form exists sends the transcribing status, then the reply for exactly that WAV. It empties the buffer whether transcription succeeded or failed. |
| RecordingSession.ConversionFailureKeepsAudio | rs-coder/scripts/whisper_ws_server.py:234-242 | When webm, opus or ogg conversion fails, stop sends the conversion error and keeps the buffer. |
| RecordingSession.WrapFailureEnds | rs-coder/scripts/whisper_ws_server.py:243-244 | When pcm wrapping raises, the handler ends with nothing more sent. |
| RecordingSession.OtherTextLeavesSession | rs-coder/scripts/whisper_ws_server.py:269-286 | ping and info get their reply. Undecodable JSON and unknown commands get none. None of these changes the session. |
| RecordingSession.NonObjectEnds | rs-coder/scripts/whisper_ws_server.py:201-202 | Decoded JSON that is not an object has no `get`, and the resulting exception ends the handler with nothing sent. |
| RecordingSession.RecordingTranscribesChunks | rs-coder/scripts/whisper_ws_server.py:204-267 | A full recording is start, chunks, then stop. It sends the recording status, one acknowledgement per ten chunks, the transcribing status, and the transcription of the WAV form of exactly the received chunks joined in order. It ends with an empty buffer and recording off. |

## Left out

- The ReflexScript compiler and safety-contract verifier (`reflexc`) are an external binary. Its diagnostics are the input of the parser here.
- Network, language-model and HTTP clients are left out. This covers `call_vllm`, the health checks, `generate_batch`, its retries, and the TTS and demo servers. They are request plumbing with no logic of their own.
- Subprocess, file and directory work is left out: running `reflexc`, writing `.rfx` files, checkpoint saving and loading, the directory glob and ffmpeg. A directory listing enters as a sequence of names.
- Concurrency is left out: asyncio task fan-out, the semaphore, the progress lock and WebSocket sending. Sends are assumed to succeed, so a `ConnectionClosed` raised by a send is not modelled.
- Floating point is left out. The dedup threshold is a rational `num/den` with `den > 0`, and the Jaccard comparison is cross-multiplied. `_format_time` is modelled on `int(secs)` for `secs >= 0`. Progress percentages and ETAs are not modelled.
- `str.lower()` is modelled on ASCII letters only. The regex classes `\w` and `\d` are modelled as ASCII.
- The code-pattern and hardware-name regex searches of `validate_prompt` are taken as given predicates.
- All rendered text is left out: the banner and instruction text, and the string rendering of error entries. That includes the 1-based numbering in full mode and the `Line .../Column ...` layout of `format_error_feedback`. The model keeps the selections and counts.
- The glob `{code}_batch_*.json` is modelled as a prefix-and-suffix test. Glob special characters inside a domain code are not modelled.
- Progress printing is not modelled.
- The session's JSON decoding, `convert_webm_to_wav`, `pcm_to_wav` and `transcribe_audio` are inputs, not models. A text message arrives decoded or marked undecodable. The three audio steps are functions supplied with the connection, and a raising `pcm_to_wav` is `None`.
- JSON numbers are integers. The session never reads a number: it only stores the sample rate and hands it to `pcm_to_wav`.
- The pong and info replies carry the model name, a timestamp and constants. They are modelled as bare reply kinds.
