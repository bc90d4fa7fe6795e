# Verified models of the lab's stateful tools

Dafny models of the tools in this repository that carry state from one step to the next, with
machine-checked proofs of what that state means. `dafny verify dfyconfig.toml` checks all of it.

| component | files |
|---|---|
| byte-pair encoding: merge, encode, decode | `Bpe.dfy`, `BpeDecode.dfy` |
| the incremental trainer, with its pair counts and reverse index | `BpeTrain.dfy` |
| the tokenizer file: one printer, two parsers | `BpeFormat.dfy` |
| the dispatch ledger: records, recorder, reader, and what links them | `LedgerRecords.dfy`, `LedgerRecorder.dfy`, `LedgerReader.dfy`, `LedgerTheorems.dfy`, `LedgerMessages.dfy` |
| batching of scoring requests and realignment of the results | `Scoring.dfy` |
| the resumable launch loop of the factorial experiment | `Orchestrator.dfy` |
| the artifact projector and the dependency graph behind it | `Projector.dfy`, `ProjectorSchema.dfy`, `DependencyGraph.dfy` |
| log rotation, document chunking, forensic evaluation runs | `LogRotation.dfy`, `Chunking.dfy`, `ChunkingText.dfy`, `Forensic.dfy` |
| what they share: options, results, joining of parts | `Common.dfy` |

Each tool is modelled in the form it has. Loops are methods with invariants, the ledger writer, the
recorder, the ledger, the memory and the evaluation directory are classes whose methods update their
fields, and each of these methods is proved equal to a function of the old state. The theorems are
lemmas about those functions, for all inputs and all runs.

Beside the theorems, each model is tied to what it stands for by laws that do not go through its own
definitions: the bytes of a saved file, the messages behind the records, the positions of a schema,
the characters of a text.

What the main theorems say:

- **Training.** The trainer keeps a count map and a reverse index and never recounts. At the head of
  every iteration both agree with a full recount and a full scan (`Exact`), every word, touched or
  not, is what encoding its own bytes under the rules so far gives, and every rule merges a true
  maximum. So the trainer refines the naive one that recounts everything (`TrainBpe`). Encodings are
  normal forms, no pair is chosen twice, the corpus shrinks by between half the pair's count and all
  of it at every merge, and decoding inverts encoding on every byte string.
- **Tokenizer file.** Both parsers return exactly what was saved and read exactly the bytes written.
  What is written and read is given byte by byte. They agree on every other file too, but for one
  family, which is given exactly; which truncations of a saved file go unnoticed is given exactly as
  well, for each of the two.
- **Ledger.** The reader accepts exactly the well-formed files. Every sealed log of the recorder,
  for any stream of messages, has a record for each first call and each first answer, and is rebuilt
  into one faithful receipt per dispatch, its times included; a whole directory reads if and only if
  no two runs share a dispatch id, and then holds all those receipts.
  Files ending in the same MAC are equal, only prefixes of a writer's own log are accepted, and losing
  tails or whole runs only loses evidence.
- **Scoring.** The greedy batches are the fewest possible, and the scores come back in request order
  whatever the budget and whatever the order of the scorer's lines.
- **Launch loop.** Over any number of invocations, exit codes and kills, completed cells are a prefix
  of the launch order, none is relaunched, and the hand-off happens at most once and only when ready.
  It follows the eighth completion exactly when the process lives to act once more, and if it does
  not, it never happens.
- **Projector.** What is emitted is given on the schema itself, by the position of the declaration
  that counts. For any schema and from any workspace, creating whatever is asked for until nothing is
  makes the same files in whatever order, namely those that can be obtained at all; some run gets
  stuck if and only if a declared artifact cannot be. Unless missing artifacts share a path, that is
  when one of them has a defect or some of them form a cycle of prerequisites. Every run ends and
  respects prerequisites, and other files may appear during it.
- **Conservation.** Rotation and head insertion lose and duplicate no log entry, from a log of entries
  always, and from any log that ends its last line if and only if no text without a heading is put
  behind another. No visible character of a document is lost in its paragraphs, a blank line separates
  them, and white space around them makes no difference. They determine the chunks, and can be read
  back off the chunks once each chunk is marked as packed, first window or further window. Without the
  marks, splitting every chunk at its blank lines gives the paragraphs back if and only if none of
  them is longer than the size; if no chunk is exactly of that size, this is the only reading there is.
  A forensic run leaves the canonical files unchanged if and only if no orphaned save was lying
  around.

Where the code and its own documentation part ways, the model follows the code:

- `tools/forensic_driver.py:324-326` calls the final recovery loop a no-op once files were restored.
  It is not when a save file left by an earlier run has no canonical file beside it: that file is then
  moved into place. `CanonicalFilesUnchanged` gives the exact condition, `OrphanIsMovedIn` an instance.
- `tools/tokenizer_compare.py:34-35` skips up to 16 bytes without checking that they are there, so it
  accepts some files cut inside the header that the trainer's loader refuses (`LoadersAgree`,
  `LoadersDiffer`).
- Both loaders accept a file whose last vocab entry is cut short when no rules follow, and shorten the
  entry (`TruncationDetected`, `OneByteShort`); the second one also accepts an empty tokenizer cut
  inside its special ids (`TruncationDetectedByCompare`).
- `tools/memory.py:119-127` inserts text as it is: an entry put at the head of the log without a final
  line break runs into the next one (`HeadInsertSeparatesIff`, `EntriesRunTogether`).
- `tools/lab_memory.py:55-59` promises chunks for any size and overlap, but the window loop at 73-75,
  once entered, ends if and only if `overlap < size` (`WindowLoopEndsIff`). A text without a paragraph
  longer than `size` never enters it, so the whole function ends if and only if `overlap < size` or
  there is no such paragraph (`ChunkingEndsIff`; `EndlessLoop` is an input on which it does not end).
  With a negative overlap the windows skip characters, which are lost (`NegativeOverlapLoses`).

The MAC and the digest are symbolic: each is a term over what was hashed, so two are equal exactly
when key and content are. Files are values in maps, the scorer and the evaluation drivers are
arbitrary functions of what they can see, and a killed process is one with a bounded number of
externally visible actions.

## Model

| member | source | states |
|---|---|---|
| `Bpe.MergeWord` | tools/train_tokenizer_32k.py:79-94 | the index loop returns the greedy left-to-right merge, of which the next four rows say what it is |
| `Bpe.MergeTakesLeftmost` | tools/train_tokenizer_32k.py:86-93 | the leftmost occurrence is replaced and what follows it is merged afresh, also when occurrences overlap |
| `Bpe.MergeAbsent` | tools/train_tokenizer_32k.py:87-94 | a word without the pair is unchanged |
| `Bpe.MergeCreatesOnlyFreshPairs` | tools/train_tokenizer_32k.py:220-234 | with a fresh id, the merged pair is gone and no pair without that id is created |
| `Bpe.MergeShrinks` | tools/train_tokenizer_32k.py:79-94 | a merge takes off at least half and at most all of the overlapping occurrences, exactly all when the halves differ |
| `Bpe.OccPositive` | tools/train_tokenizer_32k.py:141-144 | the pair count of a word is positive exactly when the pair is adjacent somewhere in it |
| `Bpe.EncodeBytes` | tools/tokenizer_compare.py:47-64 | the encoder's nested loops apply every rule once, in priority order |
| `Bpe.ApplyInOrder` | tools/train_tokenizer_32k.py:337-353 | encoding under a longer table is encoding under its first part and then under the rest |
| `Bpe.EncodingIsNormal` | tools/train_tokenizer_32k.py:337-353 | under any table with fresh ids, no pair of the table is adjacent in any encoding |
| `Bpe.NormalFormIsFixed` | tools/train_tokenizer_32k.py:337-353 | a sequence with no pair of the table is left alone by it |
| `Bpe.NormalFormIffFixed` | tools/train_tokenizer_32k.py:337-353 | under fresh ids, the sequences a table leaves alone are exactly those with none of its pairs |
| `Bpe.EncodingIsIdempotent` | tools/train_tokenizer_32k.py:337-353 | applying all merges to an encoding changes nothing |
| `Bpe.EncodingNeverGrows` | tools/tokenizer_compare.py:47-64 | an encoding is no longer than what was encoded |
| `BpeDecode.MergeKeepsSpelling` | tools/train_tokenizer_32k.py:174-178 | a merge keeps what a sequence decodes to if the new entry spells the pair |
| `BpeDecode.DecodeAppend` | tools/train_tokenizer_32k.py:356-358 | decoding goes token by token, and fails if any token fails |
| `BpeDecode.DecodeOne` | tools/train_tokenizer_32k.py:356-358 | a token is looked up in the vocab, from its end if it is negative, and nothing else is there |
| `BpeDecode.RoundTrip` | tools/tokenizer_compare.py:103-107 | for every byte string, joining the vocab entries of its encoding gives it back |
| `BpeTrain.CountDelta` | tools/train_tokenizer_32k.py:208-242 | rewriting one word changes a full recount by minus its old weighted occurrences plus its new ones |
| `BpeTrain.AddPairs` | tools/train_tokenizer_32k.py:237-242 | adds exactly a word's weighted occurrences to the counts, and its index to the sets of the pairs it has |
| `BpeTrain.DropPair` | tools/train_tokenizer_32k.py:211-218 | takes one occurrence out of both maps and leaves no empty entry, also for a pair whose entry is gone |
| `BpeTrain.RemovePairs` | tools/train_tokenizer_32k.py:209-218 | takes exactly a word's occurrences out of both maps, for every pair but the popped one |
| `BpeTrain.RewriteWord` | tools/train_tokenizer_32k.py:201-242 | one affected word is merged, and both maps agree with a recount and a scan again |
| `BpeTrain.ApplyBest` | tools/train_tokenizer_32k.py:198-242 | visiting only the indexed words, in any order, merges every word of the corpus and keeps both maps exact, the popped pair included |
| `BpeTrain.BuildIndex` | tools/train_tokenizer_32k.py:135-144 | the initial counts and index are exact |
| `BpeTrain.ExactMeans` | tools/train_tokenizer_32k.py:135-144 | exactness spelled out: an entry exists exactly when some word has the pair, and holds its recount and the words a scan finds |
| `BpeTrain.MaxPair` | tools/train_tokenizer_32k.py:160-161 | the chosen pair has a count no other entry exceeds |
| `BpeTrain.EncodedWord` | tools/train_tokenizer_32k.py:129-130 | the corpus that is counted is the words' own bytes before the first rule; each rule merges its pair in every word; a word always spells its bytes and has no pair of the table left |
| `BpeTrain.BestIsInRange` | tools/train_tokenizer_32k.py:171-178 | a pair with a positive count uses only ids the vocab already has |
| `BpeTrain.TrainBpe` | tools/train_tokenizer_32k.py:112-252 | raises exactly for sizes up to 256; otherwise returns a table of the promised shape, within the size, each of whose rules merges a best pair of a full recount of the encoded corpus, and stops only when full or when nothing is worth merging |
| `BpeTrain.NoPairTwice` | tools/train_tokenizer_32k.py:154-180 | no pair is selected twice |
| `BpeTrain.MergeShrinksCorpus` | tools/train_tokenizer_32k.py:196-242 | merging a pair of weighted count c takes between c/2 and c tokens off the corpus, exactly c when the halves differ |
| `BpeTrain.RunIsBounded` | tools/train_tokenizer_32k.py:154-168 | the number of rules is at most the number of tokens saved, whatever the limits |
| `BpeFormat.DigitsRoundTrip` | tools/train_tokenizer_32k.py:276-281 | little-endian digits read back as the number they were written for |
| `BpeFormat.IntRoundTrip` | tools/train_tokenizer_32k.py:276-319 | every 32-bit integer, negative ones included, is unpacked as it was packed |
| `BpeFormat.IntAtIs` | tools/train_tokenizer_32k.py:310-319 | a field is its four bytes, least significant first, as a signed number |
| `BpeFormat.FieldHolds` | tools/train_tokenizer_32k.py:276-281 | a number can be stored exactly if some four bytes read as it |
| `BpeFormat.SaveTokenizerBin` | tools/train_tokenizer_32k.py:273-290 | writes exactly the file image, and raises exactly when some count, length, id or special id does not fit 32 bits |
| `BpeFormat.StorableIff` | tools/train_tokenizer_32k.py:273-290 | saving fails exactly if a count, a length, an id of a rule or a special id is outside -2147483648 to 2147483647 |
| `BpeFormat.HeaderBytes` | tools/train_tokenizer_32k.py:275-281 | the header is 66, 80, 69, 0 and then the two counts and the pad, unk, bos and eos ids at 4, 8, 12, 16, 20 and 24 |
| `BpeFormat.EntryTotalIs` | tools/train_tokenizer_32k.py:284-286 | a vocab table takes four bytes and its own for each entry |
| `BpeFormat.ImageBytes` | tools/train_tokenizer_32k.py:273-290 | a saved file byte by byte: the header, each entry's length and bytes behind the entries before it, each rule's left, right and merged id behind the rules before it, and nothing else |
| `BpeFormat.LoadEntries` | tools/train_tokenizer_32k.py:317-321 | the vocab loop reads the declared number of entries or finds the file too short |
| `BpeFormat.LoadRules` | tools/train_tokenizer_32k.py:323-326 | the rule loop likewise |
| `BpeFormat.LoadTokenizerBin` | tools/train_tokenizer_32k.py:302-334 | the first loader, with the position it stops at |
| `BpeFormat.LoadTokenizer` | tools/tokenizer_compare.py:28-44 | the second loader, which skips the special ids |
| `BpeFormat.LoadsIff` | tools/train_tokenizer_32k.py:306-334 | a file loads exactly if it begins with 66, 80, 69, 0, has a whole header, and holds the tables its counts announce; the special ids are the fields at 12, 16, 20 and 24 |
| `BpeFormat.EntryRead` | tools/train_tokenizer_32k.py:318-321 | each entry read from any file is as long as its length field says, empty for a length of zero or less, and no longer than the file; the next follows it |
| `BpeFormat.EntriesShortIff` | tools/train_tokenizer_32k.py:318-319 | reading entries fails exactly if some length field is not all there |
| `BpeFormat.RulesRead` | tools/train_tokenizer_32k.py:324-326 | rules are read, three fields each, exactly if the file has twelve bytes for each |
| `BpeFormat.NoEntries` | tools/train_tokenizer_32k.py:318-326 | a count of zero or less reads nothing |
| `BpeFormat.EntriesRoundTrip` | tools/train_tokenizer_32k.py:284-321 | written vocab entries are read back, and reading stops where they end |
| `BpeFormat.RulesRoundTrip` | tools/train_tokenizer_32k.py:289-326 | written rules are read back, and reading stops where they end |
| `BpeFormat.HeaderRoundTrip` | tools/train_tokenizer_32k.py:275-315 | the written header is read back field by field |
| `BpeFormat.FileRoundTrip` | tools/train_tokenizer_32k.py:273-334 | both loaders return what was saved and consume exactly 28 + the sum of (4 + length) + 12 per rule, whatever follows in the file |
| `BpeFormat.SavedTokenizerRoundTrips` | tools/tokenizer_compare.py:85-107 | the tables loaded from a saved file decode every encoding back to its text |
| `BpeFormat.LoadersAgree` | tools/tokenizer_compare.py:28-44 | on any bytes, the two loaders agree if and only if the file is not cut inside the special ids with both counts zero or negative |
| `BpeFormat.CompareInsideSpecials` | tools/tokenizer_compare.py:34-44 | where they do not agree, the second loader returns empty tables |
| `BpeFormat.TruncatedEntries` | tools/train_tokenizer_32k.py:317-321 | a vocab table cut anywhere is refused, except inside the body of its last entry, which is then read shortened |
| `BpeFormat.TruncatedRules` | tools/train_tokenizer_32k.py:323-326 | a rule table cut anywhere is refused |
| `BpeFormat.TruncationDetected` | tools/train_tokenizer_32k.py:302-326 | the trainer's loader accepts a proper prefix of a saved file if and only if there are no rules and only bytes of the last vocab entry are missing, and returns that entry shortened |
| `BpeFormat.TruncationDetectedByCompare` | tools/tokenizer_compare.py:28-44 | the other loader accepts a proper prefix if and only if there are no rules and it lacks only bytes of the last entry or, with an empty vocab, only special ids |
| `BpeFormat.LoadersDiffer` | tools/tokenizer_compare.py:34-35 | twelve bytes of a saved empty tokenizer that one loader accepts and the other refuses |
| `BpeFormat.OneByteShort` | tools/train_tokenizer_32k.py:317-321 | a saved file that lost one byte and is loaded with a shorter entry |
| `LedgerRecords.ParseAttestations` | tools/dispatch_ledger.py:172-178 | collects the usable sign-offs in order of first appearance |
| `LedgerRecords.AttestationsExact` | tools/dispatch_ledger.py:172-178 | a text attests exactly what one of its sign-off lines with a usable target says, and says it once |
| `LedgerRecords.AttestationsInOrder` | tools/dispatch_ledger.py:172-178 | more sign-off lines only add sign-offs behind those there are |
| `LedgerRecords.NormalizeIff` | tools/dispatch_ledger.py:125-132 | a target is accepted as t exactly if it is t behind any number of "./", and t is not empty, begins with neither "./" nor a slash, and has no component ".." |
| `LedgerRecords.EscapesIff` | tools/dispatch_ledger.py:130 | a path escapes exactly if one of its components is ".." |
| `LedgerRecords.ComponentsJoin` | tools/dispatch_ledger.py:130 | components have no slash, and joining them by slashes gives the path back |
| `LedgerRecords.NormalizedIsStable` | tools/dispatch_ledger.py:125-132 | a normalized target is relative, has no `..` component and normalizes to itself |
| `LedgerRecorder.FoldAppend` | tools/dispatch_ledger.py:203-218 | observing two streams in turn is observing their concatenation |
| `LedgerRecorder.LedgerWriter.constructor` | tools/dispatch_ledger.py:138-149 | a new writer starts from the genesis of its run with an empty file |
| `LedgerRecorder.LedgerWriter.Append` | tools/dispatch_ledger.py:151-159 | appends one signed record that continues the chain |
| `LedgerRecorder.Recorder.constructor` | tools/dispatch_ledger.py:184-189 | a new recorder has written its opening record and seen nothing |
| `LedgerRecorder.Recorder.Dispatched` | tools/dispatch_ledger.py:220-239 | a new dispatch id is recorded and pending; a repeated or unusable one leaves no trace |
| `LedgerRecorder.Recorder.Completed` | tools/dispatch_ledger.py:241-252 | a result for a pending id is recorded, and the id is no longer pending |
| `LedgerRecorder.Recorder.Observe` | tools/dispatch_ledger.py:203-218 | one message, however many blocks it has, is its events one after the other |
| `LedgerRecorder.Recorder.WriteSeal` | tools/dispatch_ledger.py:254-257 | the seal reports the ids seen, those completed and those still pending |
| `LedgerRecorder.RecordRun` | tools/dispatch_ledger.py:181-257 | the log of a whole run is the sealed fold over the events of its messages |
| `LedgerReader.ReadLine` | tools/dispatch_ledger.py:307-355 | one pass of the reader's loop, on the shared ledger, is one step on the run's own receipts, error by error |
| `LedgerReader.ReadRun` | tools/dispatch_ledger.py:294-356 | one file adds exactly its receipts and its run, or raises the first error |
| `LedgerReader.ReadLedger` | tools/dispatch_ledger.py:359-372 | the whole directory, file by file, or the first error |
| `LedgerReader.ScanOwnsItsReceipts` | tools/dispatch_ledger.py:329-344 | a run adds only receipts of its own, under ids no other run has |
| `LedgerReader.ReceiptsNameTheirRun` | tools/dispatch_ledger.py:334-340 | every receipt of a ledger names one of the files read |
| `LedgerReader.StepAccepts` | tools/dispatch_ledger.py:307-355 | what the reader demands of a line in its own variables is what looking back at the lines before it demands |
| `LedgerReader.StepDescribes` | tools/dispatch_ledger.py:321-354 | after a line the reader's variables, its sandbox and opening time included, again describe the lines read |
| `LedgerReader.ReaderIsExact` | tools/dispatch_ledger.py:305-356 | a file is accepted if and only if it is well formed; the receipts say what its lines say, and the sandbox and opening time are those of its last opening record, or the defaults |
| `LedgerReader.StepFault` | tools/dispatch_ledger.py:307-355 | the error raised for a line is the first of its faults, looking back at the lines before it |
| `LedgerReader.FileFault` | tools/dispatch_ledger.py:305-355 | the error raised for a file is the fault of its first faulty line |
| `LedgerTheorems.SealedRunIsRebuilt` | tools/dispatch_ledger.py:181-356 | for any stream, the sealed log is accepted if and only if none of its ids is taken; it is listed as sealed with its sandbox and opening time, and has one receipt per dispatched id, each faithful to the first dispatch and the first answer and to when they were recorded |
| `LedgerMessages.MessagesAreRetold` | tools/dispatch_ledger.py:203-356 | the sealed log of a stream of messages reads back, if no id is taken, into a receipt for each id that an assistant's tool call named "Agent" or "Task" carries; the first such call gives role ("general-purpose" if none is asked for), parent, background, dictated lines and the first 200 characters of the description; the first user result after it gives the completion |
| `LedgerMessages.RecordsTell` | tools/dispatch_ledger.py:184-257 | the log opens with sandbox and roster, has a record for each first call (with session and prompt digest) and each first answer (with result digest), and ends with a seal that counts the ids called and answered and names those never answered; each record is dated when it was written |
| `LedgerMessages.NothingElseRecorded` | tools/dispatch_ledger.py:203-252 | every record between the opening and the seal is one of a call or a result of the stream |
| `LedgerMessages.FirstPositions` | tools/dispatch_ledger.py:220-252 | every id called has a first call, and a first answer or none |
| `LedgerTheorems.RunInStep` | tools/dispatch_ledger.py:203-356 | after any part of a stream the reader of the log so far has the writer's chain tip, and its open receipts are the recorder's pending ids |
| `LedgerTheorems.TakenIdIsRefused` | tools/dispatch_ledger.py:331-332 | a run that dispatched an id of another run is refused |
| `LedgerTheorems.RecordedDirectory` | tools/dispatch_ledger.py:359-372 | a directory of recorded runs reads if and only if no two dispatched the same id; it then holds one receipt for each id dispatched, faithful to the run that did, and, run names being distinct, lists exactly these runs, each as sealed |
| `LedgerTheorems.RecorderInvariant` | tools/dispatch_ledger.py:186-257 | in every run completed plus pending is seen, and the log is one chain |
| `LedgerTheorems.ChainBinds` | tools/dispatch_ledger.py:112-118 | two accepted files of one run that end in the same MAC are identical |
| `LedgerTheorems.OnlyPrefixesAreAccepted` | audits/README.md:85-90 | a file made of MACs that writers issued under the key is accepted only if it is a prefix of the log of that run's own writer |
| `LedgerTheorems.SealIsLast` | tools/dispatch_ledger.py:319-320 | no proper prefix of an accepted file reads as sealed |
| `LedgerTheorems.TruncationLosesEvidence` | audits/README.md:89-90 | every prefix of an accepted file is accepted, with no receipt, completion or sign-off the whole file does not have |
| `LedgerTheorems.LosingRecordsLosesEvidence` | audits/README.md:89-90 | an accepted directory with runs deleted and tails cut off is accepted, holds no more evidence, and a run that still reads as sealed has lost nothing |
| `Scoring.Place` | tools/hspa_lm_eval_adapter.py:154-182 | placing one item keeps the yielded batches packed and the pending one within the budget |
| `Scoring.BatchUnderByteBudget` | tools/hspa_lm_eval_adapter.py:121-185 | the batches are non-empty, fit or are singletons, concatenate to the input, and none could have taken the next item |
| `Scoring.PackedStaysAhead` | tools/hspa_lm_eval_adapter.py:148-185 | the first k batches reach at least as far as the first k of any other partition |
| `Scoring.GreedyIsOptimal` | tools/hspa_lm_eval_adapter.py:148-185 | no order-preserving partition under the budget has fewer batches |
| `Scoring.CountedIds` | tools/hspa_lm_eval_adapter.py:106-113 | n rows with none of 0..n-1 missing are rows for exactly those ids |
| `Scoring.ParseScores` | tools/hspa_lm_eval_adapter.py:86-113 | returns exactly when no line raises and the ids are exactly 0..n-1, with each score at its id; otherwise raises for a bad line, then for a wrong count, then for a missing id |
| `Scoring.RowsComeFromLines` | tools/hspa_lm_eval_adapter.py:88-103 | an id has a row exactly if some line scores it, and its score is the first log-probability of the last such line |
| `Scoring.AnswersAreRead` | tools/hspa_lm_eval_adapter.py:88-113 | rows in any order, repeated or mixed with other lines, are read as the score of each item |
| `Scoring.LogLikelihood` | tools/hspa_lm_eval_adapter.py:240-319 | if each invocation answers its batch, position i holds the score of request i, whatever the budget; there is a result exactly when every invocation is usable, and an error is about the first that is not |
| `Orchestrator.Phase3IsValid` | tools/run_phase3_factorial.py:109-118 | the launch order is arms A, D, B, C for seeds 42, 43 and 44, and the evaluation comes after the eighth cell |
| `Orchestrator.RunInvocation` | tools/run_phase3_factorial.py:754-870 | one invocation leaves on disk and in the history what its actions up to the kill amount to |
| `Orchestrator.BeginWrites` | tools/run_phase3_factorial.py:754-767 | a real invocation writes the index header first, if it is not there |
| `Orchestrator.PositionRuns` | tools/run_phase3_factorial.py:770-801 | a cell is skipped in a dry run, or if its record says completed and was not left by a dry run; otherwise it is launched |
| `Orchestrator.PositionsInOrder` | tools/run_phase3_factorial.py:770 | positions are taken one after the other, from the first, until the invocation is over |
| `Orchestrator.RunCellWrites` | tools/run_phase3_factorial.py:801-864 | what is on disk and in the history after each action of a launch: in progress, then completed for exit code 0, perf drift for 4, failed for any other; nothing but the cell's record changes |
| `Orchestrator.HandOffWrites` | tools/run_phase3_factorial.py:867-870 | the hand-off's verdict is what is persisted, and nothing else changes |
| `Orchestrator.InvocationIsSafe` | tools/run_phase3_factorial.py:771-870 | from any safe state, any number of positions, any exit codes and any kill leave a safe state |
| `Orchestrator.CampaignIsSafe` | tools/run_phase3_factorial.py:754-870 | so does any sequence of invocations, dry ones included, from an index in which nothing completed |
| `Orchestrator.CompletedCellsArePrefix` | tools/run_phase3_factorial.py:779-781 | in a safe state the completed cells are a prefix of the launch order |
| `Orchestrator.NoRelaunch` | tools/run_phase3_factorial.py:779-781 | a completed cell is never launched or completed again |
| `Orchestrator.HandoffOnceAndReady` | tools/run_phase3_factorial.py:866-870 | the hand-off happens at most once, and only after the first eight cells completed |
| `Orchestrator.HandoffIffAlive` | tools/run_phase3_factorial.py:825-870 | the completion of the eighth cell is followed by the hand-off exactly when the process was not killed before its next action |
| `Orchestrator.SkippedForGood` | tools/run_phase3_factorial.py:779-870 | once that completion is on disk, no later invocation hands off |
| `Orchestrator.DryRunsMakeNoDifference` | tools/run_phase3_factorial.py:763-799 | a campaign leaves the same index and history as the same campaign without its dry runs |
| `Orchestrator.CleanInvocationCompletes` | tools/run_phase3_factorial.py:771-870 | an invocation that is not killed and whose cells exit with 0 completes every cell, whatever it resumes from |
| `DependencyGraph.EndlessNeedIsCyclic` | tools/artifact_queue_projector.py:85-88 | finitely many artifacts that each need another one of them contain a cycle |
| `DependencyGraph.CycleIsEndless` | tools/artifact_queue_projector.py:85-88 | each artifact of a cycle needs another one of it |
| `Projector.FillTables` | tools/artifact_queue_projector.py:59-76 | the four dictionaries agree on every id across all phases; the last declaration of an id wins |
| `Projector.ProjectArtifacts` | tools/artifact_queue_projector.py:36-116 | the emitted list is the projection; without a schema it is empty |
| `Projector.ProjectionExact` | tools/artifact_queue_projector.py:78-116 | an artifact is emitted exactly when it is declared and ready, and at most once |
| `ProjectorSchema.EmittedIff` | tools/artifact_queue_projector.py:56-114 | an id is emitted exactly if the last artifact of the schema under it is in the current phase, its path is missing, it has a handler type, and the last declaration of each prerequisite has a path that exists; the item has that artifact's handler type |
| `ProjectorSchema.EmittedAsDeclared` | tools/artifact_queue_projector.py:78-79 | items are listed in the order in which the schema first declares their ids |
| `ProjectorSchema.LastCounts` | tools/artifact_queue_projector.py:65-76 | the declaration that counts is the last one by position, active exactly if its phase is the current one |
| `ProjectorSchema.KnownIff` | tools/artifact_queue_projector.py:67-70 | an id is known exactly if it is not empty and some position declares it |
| `Projector.ReadyMeans` | tools/artifact_queue_projector.py:79-92 | ready means missing, active, with a handler type, and every prerequisite declared and on disk |
| `Projector.StaysEmitted` | tools/artifact_queue_projector.py:79-92 | an emitted artifact stays emitted, whatever else is created, until it exists |
| `Projector.RunsTerminate` | tools/artifact_queue_projector.py:59-116 | each creation of an emitted artifact removes one from the missing ones, whatever else appears, so every run has only so many |
| `Projector.RunRespectsPrereqs` | tools/artifact_queue_projector.py:85-88 | whatever a run creates has all its prerequisites on disk by then |
| `Projector.MadeIsObtainable` | tools/artifact_queue_projector.py:59-116 | whatever a run of creations makes can be obtained: it is there, or an active, typed artifact with that path has only obtainable prerequisites |
| `Projector.ExhaustedRunsMakeAll` | tools/artifact_queue_projector.py:59-116 | creations that go on until nothing is asked for have made exactly the obtainable files |
| `Projector.ExhaustedRunsAgree` | tools/artifact_queue_projector.py:59-116 | any two such runs end in the same workspace |
| `Projector.SomeRunMakesIff` | tools/artifact_queue_projector.py:59-116 | a file is there or made by some run of creations if and only if it is obtainable |
| `Projector.RunsGetStuckIff` | tools/artifact_queue_projector.py:59-116 | for any schema and workspace, some run ends stuck if and only if some declared artifact is not obtainable |
| `Projector.AcyclicMakesProgress` | tools/artifact_queue_projector.py:59-116 | if no missing artifact has a defect and none form a cycle, the list is empty if and only if nothing is missing |
| `Projector.FinishedRunsLackNothing` | tools/artifact_queue_projector.py:59-116 | if there is neither at its start, a run is asked for nothing more if and only if every artifact exists |
| `Projector.StuckHasReason` | tools/artifact_queue_projector.py:79-92 | any stuck workspace lacks an artifact with a defect (inactive, untyped, an undeclared prerequisite) or a cycle of prerequisites |
| `Projector.CycleStaysMissing` | tools/artifact_queue_projector.py:85-88 | unless missing artifacts share a path, creating emitted artifacts never creates a member of a missing cycle |
| `Projector.DefectStaysMissing` | tools/artifact_queue_projector.py:82-92 | nor an artifact with a defect |
| `Projector.RunsGetStuckIffCycle` | tools/artifact_queue_projector.py:59-116 | unless missing artifacts share a path, some run from a workspace ends stuck if and only if it lacks an artifact with a defect or a cycle of prerequisites |
| `Projector.StuckIffCycle` | tools/artifact_queue_projector.py:59-116 | over all workspaces: one can be stuck if and only if the schema declares an artifact with a defect or a cycle |
| `LogRotation.SplitSegments` | tools/memory.py:288-297 | the loop cuts the log into its segments |
| `LogRotation.SegmentsJoin` | tools/memory.py:288-297 | the segments are the log, and every cut is at a heading line |
| `LogRotation.SegmentsOfBoth` | tools/memory.py:288-297 | segmenting commutes with putting entries after a text that ends its last line |
| `LogRotation.Keep` | tools/memory.py:299-311 | the number of leading segments kept is the largest whose total fits the cap |
| `LogRotation.FirstOverflow` | tools/memory.py:299-311 | the loop finds that number |
| `LogRotation.Memory.RotateLog` | tools/memory.py:278-320 | the new log and archives are those of the rotation, and it reports whether it rotated |
| `LogRotation.Memory.InsertIntoLog` | tools/memory.py:119-127 | the text goes before the given line, or the log is missing or the line out of range and nothing changes |
| `LogRotation.InsertStands` | tools/memory.py:119-127 | an insertion before line k puts the text between the first k lines and the rest; a missing file and a line that is not there are the only errors |
| `LogRotation.LinesAreLined` | tools/memory.py:123 | lines are not empty and have a break at their ends only |
| `LogRotation.LinesAreUnique` | tools/memory.py:123 | and no other such lines join to the text |
| `LogRotation.BreaksAre` | tools/memory.py:290 | the characters that end a line, by code point |
| `LogRotation.HeadingIs` | tools/memory.py:291 | a heading begins with two number signs and a blank |
| `LogRotation.CharBytesIsUtf8` | tools/memory.py:303 | a character counts with the bytes of its UTF-8 form |
| `LogRotation.BytesOfMore` | tools/memory.py:285-303 | a text counts with the sum over its characters |
| `LogRotation.RotationConserves` | tools/memory.py:278-320 | a rotation happens exactly when a non-empty log is over the cap; it cuts before a heading, keeps what fits, appends the non-empty rest to the day's archive and touches nothing else |
| `LogRotation.SecondRotationIsNoOp` | tools/memory.py:278-313 | rotating again under the same cap does nothing |
| `LogRotation.HeadInsertSeparatesIff` | tools/memory.py:119-127 | text put before entries keeps apart from them if and only if it ends its last line |
| `LogRotation.EntriesRunTogether` | tools/memory.py:119-127 | two entries that become one because the first lacks its line break |
| `LogRotation.SegmentsRunOn` | tools/memory.py:290-295 | putting a text without a heading behind another makes the last segment of the one and the first of the other one segment, and changes no other |
| `LogRotation.SeamCount` | tools/memory.py:288-297 | so the segments are all kept, one fewer if there is such a seam |
| `LogRotation.CutText` | tools/memory.py:299-320 | cutting a log after any of its segments leaves two texts with the same segments between them |
| `LogRotation.InsertAccounts` | tools/memory.py:119-127 | a head insertion into any line-ended log keeps all segments and adds the entry's, but for a preamble that joins it |
| `LogRotation.InsertionHeads` | tools/memory.py:119-127 | after it the log holds only entries, whatever it held before |
| `LogRotation.RotationAccounts` | tools/memory.py:283-320 | a rotation of any line-ended log moves segments and loses or repeats none, but for a preamble that joins the archive |
| `LogRotation.RotationMovesEntries` | tools/memory.py:283-320 | a rotation of a log of entries leaves a log of entries and joins nothing |
| `LogRotation.HistoryConservesIff` | tools/memory.py:119-320 | over any history from any line-ended log and archives, the segments are conserved if and only if no operation joined two |
| `LogRotation.OnlyThePreambleJoins` | tools/memory.py:119-320 | a history that begins with an insertion joins once if the log began with a preamble, and otherwise never |
| `LogRotation.HistoryConserves` | tools/memory.py:119-320 | over any history of head insertions and rotations from a log of entries, log and archives together hold each entry exactly as often as it was put in |
| `Chunking.WindowsReassemble` | tools/lab_memory.py:71-75 | dropping the overlaps puts a windowed paragraph back together |
| `Chunking.HardChunk` | tools/lab_memory.py:71-75 | with a positive step, the window loop ends and yields the windows |
| `ChunkingText.WindowsStand` | tools/lab_memory.py:72-75 | the windows stand at the multiples of the step within the paragraph, and each is the next `size` characters or what is left |
| `ChunkingText.SliceFromEnd` | tools/lab_memory.py:74 | with a negative end, a slice leaves that many characters off the end |
| `Chunking.WindowLoopEndsIff` | tools/lab_memory.py:72-75 | on a non-empty paragraph longer than the size, some pass of the loop reaches the end if and only if the overlap is below the size |
| `Chunking.ChunkingEndsIff` | tools/lab_memory.py:64-80 | every window loop that is entered ends if and only if the overlap is below the size or no paragraph is longer than it |
| `Chunking.EndlessLoop` | tools/lab_memory.py:72-75 | an input on which the loop does not end |
| `Chunking.ParagraphsAreClean` | tools/lab_memory.py:62 | a paragraph is not blank, has no white space at its ends and no blank line inside |
| `Chunking.ParagraphsOfJoined` | tools/lab_memory.py:62 | and conversely, such paragraphs joined by blank lines are the paragraphs of the text |
| `ChunkingText.ParagraphsKeepText` | tools/lab_memory.py:62 | the characters of any text that are not white space are, in order, those of its paragraphs |
| `ChunkingText.ParagraphsOfBoth` | tools/lab_memory.py:62 | a text, a blank line and another text have the paragraphs of both, for any two texts |
| `ChunkingText.OneParagraph` | tools/lab_memory.py:62 | a text without a blank line is one paragraph, stripped, or none if it is white space |
| `ChunkingText.PaddedParagraph` | tools/lab_memory.py:62 | whatever white space is around it, without a blank line |
| `ChunkingText.LeadingBreak` | tools/lab_memory.py:62 | a line break before a text makes no difference |
| `ChunkingText.TrailingBreak` | tools/lab_memory.py:62 | nor does one after it |
| `ChunkingText.StripIs` | tools/lab_memory.py:62 | stripping takes the white space off both ends and nothing else |
| `ChunkingText.SpacesAre` | tools/lab_memory.py:62 | the white space characters, by code point |
| `Chunking.SplitPacked` | tools/lab_memory.py:65-66 | splitting a packed chunk at its joins gives back its paragraphs |
| `Chunking.ChunkParagraph` | tools/lab_memory.py:65-78 | one pass of the loop accounts for one more paragraph |
| `Chunking.ChunkParagraphs` | tools/lab_memory.py:63-80 | whenever the loops end, the chunks come from groups that account for every paragraph in order, each within its size rule, and a packed group is closed only when the next paragraph does not fit |
| `Chunking.ChunksAreDetermined` | tools/lab_memory.py:63-80 | these rules leave one chunk list for a list of paragraphs |
| `Chunking.ChunksRecoverParagraphs` | tools/lab_memory.py:61-80 | from the chunks and a mark for each (packed, first window, further window), undoing joins and overlaps recovers the exact sequence of paragraphs |
| `Chunking.SplittingRecoversIff` | tools/lab_memory.py:63-80 | splitting every chunk at its blank lines gives the paragraphs back if and only if none of them is longer than the size, the guard at line 71 |
| `Chunking.WithoutFullChunks` | tools/lab_memory.py:63-80 | chunks none of which has exactly `size` characters can be read in that way only, and it is right |
| `Chunking.LongIsAmbiguous` | tools/lab_memory.py:71-75 | a paragraph longer than twice the size less the overlap has the chunks of two paragraphs, its first window and the rest of it after the first step |
| `Chunking.NegativeOverlapLoses` | tools/lab_memory.py:72-75 | with a negative overlap, the character after the first window can be any and the chunks are the same |
| `Chunking.ChunksAreAmbiguous` | tools/lab_memory.py:61-80 | the shortest instance: two texts with different paragraphs and the same chunks |
| `Chunking.ChunksFit` | tools/lab_memory.py:55-80 | for a positive size, every chunk is non-empty and at most `size` long |
| `Chunking.ChunkText` | tools/lab_memory.py:55-80 | all of this for the stripped paragraphs of any text on which the function ends |
| `Forensic.SetupIsValid` | tools/forensic_driver.py:131-149 | the four benchmarks each have their own results file, and none is the scorecard |
| `Forensic.EvalDir.SaveAside` | tools/forensic_driver.py:178-187 | an existing file becomes its save; an absent one leaves everything alone |
| `Forensic.EvalDir.Restore` | tools/forensic_driver.py:190-198 | the save replaces whatever stands in its place |
| `Forensic.EvalDir.Harvest` | tools/forensic_driver.py:201-214 | a written file replaces the result of the same name |
| `Forensic.EvalDir.RunForensic` | tools/forensic_driver.py:252-336 | the whole sequence of moves, for any benchmark list and any driver behaviour |
| `Forensic.DriverSeesNoJson` | tools/forensic_driver.py:178-187 | while a driver runs its JSON is absent and kept under its save name; nothing else has changed |
| `Forensic.ScorecardIsAside` | tools/forensic_driver.py:283-296 | the first driver finds no scorecard either |
| `Forensic.RunsCount` | tools/forensic_driver.py:288-304 | unknown benchmarks run no driver and change nothing |
| `Forensic.OneBenchKeeps` | tools/forensic_driver.py:288-313 | one benchmark's cycle keeps every canonical file but the scorecard |
| `Forensic.CycledKeeps` | tools/forensic_driver.py:283-321 | all cycles together keep every canonical file |
| `Forensic.RecoverAllMeans` | tools/forensic_driver.py:327-335 | the recovery loop moves back exactly the saves that have no canonical file, as they are |
| `Forensic.SavesAfter` | tools/forensic_driver.py:283-335 | after a run no file it handled has a save left, orphaned saves are in place as they were, and every other save is as it was |
| `Forensic.CanonicalFilesUnchanged` | tools/forensic_driver.py:252-336 | a run that returns leaves all canonical files unchanged if and only if none of them had an orphaned save at the start |
| `Forensic.OrphanIsMovedIn` | tools/forensic_driver.py:333-335 | a start from which a scorecard appears, whatever is run |
| `Forensic.ResultsAreLastOutputs` | tools/forensic_driver.py:305-321 | the forensic directory holds the last output of each driver and the last scorecard, and nothing else |

## Left out

Tokenizer:

- BpeTrain.MaxPair: does not say which of several maximal pairs is taken, because the source's choice depends on insertion order; every theorem holds for any choice.
- The pre-tokenizing regular expression (training starts from words with positive frequencies), decoding of bytes to text with `errors="replace"`, progress output and timing.
- What an interrupted save leaves in the file after a field that does not fit; the modelled printer then returns no file.

Ledger:

- HMAC, SHA-256 and JSON as bytes; fields that are missing or of the wrong type; file modes, fsync, keys, the run-id pattern and exclusive creation of the file.
- The sign-off pattern itself: a text carries the sign-off lines found in it, targets without surrounding white space, and the joining of a result's text blocks is done beforehand.
- The partial ledger after a reader error; `latest_run`; the gate's accepted-lines file; `render_settings`.
- The order of the unresolved ids in a seal, which are a set here.

Scoring:

- Serialization: an item comes with the size of its line; the temporary files and the command line.
- The adapter's other entry points, which only raise.

Launch loop:

- A claim that the hand-off always happens: it is false, and `HandoffIffAlive` and `SkippedForGood` say when.
- Preflight checks, the lock on the design, cell journals, training digests, and an index file that is corrupt (it is read as empty).

Projector:

- Projector.ProjectArtifacts: leaves out the payload, the priority and the rendering of templates in an emitted item.
- Projector.RunsGetStuckIffCycle: asks that missing artifacts have a path each, because an artifact can otherwise come into being through another one; `RunsGetStuckIff` asks for nothing.

Conservation:

- LogRotation.HistoryConservesIff: does not cover `delete` and `rename`, which write to per-day paths that can be overwritten, nor a log whose last line is not ended.
- LogRotation.Memory.RotateLog: leaves out the breadcrumb in `history.md`, the computation of the day and the returned path.
- Carriage returns in the log (texts are as read, with line ends translated), snapshots and search.
- Chunking.ChunkText: requires that its loops end; the condition is exact (`ChunkingEndsIff`).
- Forensic.EvalDir.RunForensic: does not cover a run that raises, where the recovery loop does not restore over a file the driver already wrote, nor the baseline snapshot, the hashes, the drift report and the metadata file.

Not modelled at all: the queue scanner and post director, the semantic rotation and migration scripts
(easier variants of log rotation), dashboards, evaluation drivers, hardware monitors, and the
statistics scripts.
