# Verified models of cave-runtime's AI tooling

This project models the parts of cave-runtime whose behaviour is hardest to see from the code, and proves what
they promise for every input and every run:

- **Prompt templates** (`Text`, `TextUnicode`, `PromptTemplate`, `TemplateTree`, `TemplateBlocks`). The engine
  renders by scanning raw text. A template tree keeps the raw text of every tag, so it stands for one exact
  spelling; the tree's meaning is defined on its own, and the scanner is shown to compute it. Every text at all
  is split into a tree and one of five tails. The scanner always skips 9 bytes for an end tag, so templates
  whose end tags have another length are not rendered as they mean: `FitsExactly` gives the exact condition.
  What any text is rendered to, such templates included, is the meaning of its reading (`AnyTextRendered`),
  which no value can change.
- **Modelfiles** (`Modelfile`, `ModelfileRoundTrip`, `ModelfileLayout`). Parser and printer, and the exact
  condition under which a printed command list is parsed back. The comment on the quoting function says that
  values round-trip; since nothing is escaped this is not so, and `RoundTripExactly` says of which values it is
  so.
- **The night-pump** (`NightPump`, `NightPumpRuns`, `NightPumpOrder`, `NightPumpBounds`, `NightPumpWorkers`,
  `NightPumpHonest`, `NightPumpProgress`). The handlers, and runs of requests, reports, ticks, snapshots that
  reach the state file in any order or never, and restarts. A snapshot lands when its file is renamed into
  place; a worker gets its batch only after that. The handler does not ask whether a reporter holds the batch,
  so "workers report only batches recorded as dispatched" is an assumption (`Behaved`) of some results.
  `OrderExactly` needs none, and `NightPumpWorkers` and `NightPumpHonest` say when workers that report what they
  were handed meet it: always if snapshots land in order, while one that lands late can undo a hand-out although
  it had landed.
- **GGUF metadata** (`Gguf`, `GgufCursor`, `Utf8`, `GgufUtf8`, `GgufFormat`). The reader, and the byte format
  with its own tables of types, widths and magic bytes after the "File Structure" section of the GGUF
  specification: the reader accepts exactly this format. The specification has limits on keys, booleans and
  element types that the reader does not check; its files are all read, and `SpecExactly` says which of the
  files read are among them.
- **The Hermes model router** (`HermesRouter`, `HermesRouterRuns`). Rate windows that discard old samples,
  compared with the full history of admissions, and degradation from tier to tier.
- **Hermes workflows** (`Workflow`, `WorkflowRuns`). A retrying step machine with checkpoints.
- **The LLM gateway** (`WeightedRouting`, `PromptCache`, `GatewayPipeline`, `GatewayCacheSize`, `CostLedger`,
  `GatewayCosts`). Weighted selection, the response cache and the request pipeline under concurrency, the size
  of the cache, the three cost ledgers, and the ledgers compared with what the pipeline returned.

Texts are UTF-8 byte strings, one `char` per byte, because the sources index texts by byte. Clock readings,
provider answers, guardrail verdicts, request fingerprints and the choice of an evicted cache entry are
parameters or part of the run. Integers are unbounded except where a width matters, and there the wrap-around or
saturation is written out: retry counters, weights, selection counters and token sums.

Where code and comments disagree the model follows the code:

- eviction is meant to keep the cache from going over its limit, but looks at the size and inserts in separate
  steps, so concurrent stores can pass it (`LimitExactly`);
- throttling a model is said to inflate its counter to its cap, but pushes 1024 samples, which is not enough for
  caps from 2050 on (`ThrottleStopsExactly`);
- a request is said to fail when the requested tier has no models, but fails when no model at or below that tier
  has room;
- a workflow is said to drop a checkpoint when a step is done and to count its revision per checkpoint, but takes
  checkpoints only on request and counts finish, fail and unstick calls (`RevisionCounts`);
- weighted selection is called random, but is a counter.

`dafny verify dfyconfig.toml` checks the whole project.

## Model

| member | source | states |
|---|---|---|
| PromptTemplate.FindMatchingEnd | crates/ai/cave-local-llm/src/prompt_template.rs:198-222 | the loop with its depth counter returns the position, or the error, that the depth scan `FindEnd` gives from depth one |
| PromptTemplate.RenderImpl | crates/ai/cave-local-llm/src/prompt_template.rs:114-179 | the scanning loop returns what `Render` says of the text, for every text, context and loop binding |
| PromptTemplate.RenderOneBlock | crates/ai/cave-local-llm/src/prompt_template.rs:131-155 | a block contributes its rendering, and scanning goes on at the returned text |
| PromptTemplate.RenderEach | crates/ai/cave-local-llm/src/prompt_template.rs:150-152 | the loop over list items concatenates the body rendered once per item with `it` bound, stopping at the first error |
| TemplateTree.RenderIsEval | crates/ai/cave-local-llm/src/prompt_template.rs:110-179 | a template that prints a balanced tree whose end tags fit renders to the tree's meaning in every context: same output or same error; `FitsExactly` is the converse |
| TemplateTree.TreeRendered | crates/ai/cave-local-llm/src/prompt_template.rs:119-178 | rendering a printed tree whose end tags fit, followed by any text, is the tree's meaning followed by the rendering of that text |
| TemplateTree.BlockRendered | crates/ai/cave-local-llm/src/prompt_template.rs:131-155 | a block with any end tag in front of any text: its part of the meaning, then the rendering of what is left behind the 9 bytes skipped |
| TemplateTree.FitsExactly | crates/ai/cave-local-llm/src/prompt_template.rs:139-153 | a block is rendered as meant in front of every well-formed rest of a template exactly when its end tag has 9 bytes or the block itself fails |
| TemplateTree.MisfitShows | crates/ai/cave-local-llm/src/prompt_template.rs:139-153 | for every end tag of another length a rest that shows it: the end of a longer tag is put out as text, text behind a shorter one is lost, and no error is given |
| TemplateTree.EndSpelled | crates/ai/cave-local-llm/src/prompt_template.rs:139-153 | `{{end}}` is an end tag of 7 bytes, and every end tag can be made one byte longer |
| TemplateTree.EveryTextSplits | crates/ai/cave-local-llm/src/prompt_template.rs:122-178 | every text is a printed balanced tree followed by nothing, a lone brace, an unclosed tag, a stray end, or an opening tag whose block runs to the end of the text and itself ends in one of these other than a stray end |
| TemplateTree.EveryTextRendered | crates/ai/cave-local-llm/src/prompt_template.rs:122-178 | the rendering of every text, well-formed or not, whose end tags fit: the tree's meaning, then the tail's output or error |
| TemplateTree.ReadingRendered | crates/ai/cave-local-llm/src/prompt_template.rs:119-178 | a reading takes every part of a text, the 9 bytes skipped behind a block included, for one thing; rendering is the meaning of the reading in every context |
| TemplateTree.EveryTextRead | crates/ai/cave-local-llm/src/prompt_template.rs:122-178 | every text at all has a reading |
| TemplateTree.AnyTextRendered | crates/ai/cave-local-llm/src/prompt_template.rs:110-179 | for every text there is one reading whose meaning is the rendering in every context, so no value is ever read as template text |
| TemplateTree.TailRendered | crates/ai/cave-local-llm/src/prompt_template.rs:125-158 | the output or the error each tail gives; an unclosed block gives missing `}}` when its innermost open part is a tag, else missing end |
| TemplateTree.TailScanned | crates/ai/cave-local-llm/src/prompt_template.rs:198-222 | at every depth the scan for an end fails on such a tail with that error |
| TemplateTree.EndFoundExactly | crates/ai/cave-local-llm/src/prompt_template.rs:196-222 | the matching end is found at a position exactly when the text before it prints a balanced tree and an end tag follows |
| TemplateTree.BalancedSkipped | crates/ai/cave-local-llm/src/prompt_template.rs:202-220 | scanning over a balanced text leaves the depth as it was |
| TemplateTree.InnerEndFirst | crates/ai/cave-local-llm/src/prompt_template.rs:208-216 | with several blocks open the scan finds the inner ends first and continues behind them |
| TemplateTree.ResumePoint | crates/ai/cave-local-llm/src/prompt_template.rs:139-153 | skipping 9 bytes ends behind the end tag exactly when the tag has 9 bytes, or fewer with nothing behind it |
| TemplateTree.CopiedExactly | crates/ai/cave-local-llm/src/prompt_template.rs:173-176 | literal text is reproduced exactly when it is ASCII |
| TemplateTree.PaddedDirective | crates/ai/cave-local-llm/src/prompt_template.rs:125-129 | any trimmed directive without a closing brace pair is read back from between two spaces |
| TemplateTree.CanonicalEnd | crates/ai/cave-local-llm/src/prompt_template.rs:139-156 | `{{ end }}` is an end tag of the length that is skipped |
| TemplateTree.LoopItemShadows | crates/ai/cave-local-llm/src/prompt_template.rs:181-194 | inside a loop the item hides a context variable called `it` everywhere in the body, nested blocks and loops included |
| TemplateTree.ValueNotExpanded | crates/ai/cave-local-llm/src/prompt_template.rs:160-171 | inside and outside loops: a scalar, a truth value and a loop item are put out as they are, tags in them included, a list and an unknown name give their errors, and rendering goes on behind the tag |
| TemplateBlocks.IfRendered | crates/ai/cave-local-llm/src/prompt_template.rs:46-52 | an `if` block shows its body when the named value is a loop item or scalar that is not empty, a list that is not empty, or true, shows nothing for the others, and an unknown name is an error |
| TemplateBlocks.RangeRendered | crates/ai/cave-local-llm/src/prompt_template.rs:143-155 | a `range` block shows its body once for every item of the named list, in order and with the item bound, up to the first error; a scalar, a truth value and a loop item are errors |
| TemplateBlocks.ByteCopied | crates/ai/cave-local-llm/src/prompt_template.rs:173-176 | a literal byte is put out as the UTF-8 encoding of the character with that number |
| TextUnicode.TrimExactly | crates/ai/cave-local-llm/src/prompt_template.rs:125-129 | trimming takes characters with the Unicode property White_Space off both ends until none is left there, and nothing else |
| TextUnicode.CaseExactly | crates/ai/cave-local-llm/src/modelfile.rs:83-99 | case conversion pairs the 26 letters of the alphabet and leaves every other character |
| Modelfile.ReadValueFrom | crates/ai/cave-local-llm/src/modelfile.rs:229-267 | the value read and the line it ends on, or the unterminated-quote error |
| Modelfile.ParseOne | crates/ai/cave-local-llm/src/modelfile.rs:84-118 | the command that starts on a line and its last line, or the error |
| Modelfile.ParseText | crates/ai/cave-local-llm/src/modelfile.rs:71-126 | the loop over lines returns the command list, or the first error, or the missing-FROM error |
| Modelfile.PrintText | crates/ai/cave-local-llm/src/modelfile.rs:176-197 | the loop prints the commands one line each, in order |
| ModelfileLayout.LinesJoin | crates/ai/cave-local-llm/src/modelfile.rs:75-75 | the lines of any text hold no line feed, and joined by line feeds they are the text with CR-LF as LF and without a final line feed; a last line without one is a line too |
| ModelfileLayout.FinalFeed | crates/ai/cave-local-llm/src/modelfile.rs:71-126 | a line feed at the end of a file makes no difference |
| ModelfileLayout.LinesConcat | crates/ai/cave-local-llm/src/modelfile.rs:77-120 | lines that parse, in front of any others: their commands come first and the others are read on their own, with the same error if they have one |
| ModelfileLayout.FilesConcat | crates/ai/cave-local-llm/src/modelfile.rs:71-126 | two files one after another give the commands of both |
| ModelfileLayout.CommentIgnored | crates/ai/cave-local-llm/src/modelfile.rs:78-82 | a blank line, or one whose first character that is not white is `#`, changes nothing between any two commands |
| ModelfileLayout.BareCommand | crates/ai/cave-local-llm/src/modelfile.rs:84-96 | after a keyword in any case an unquoted value is the rest of the line, trimmed |
| ModelfileLayout.BareParameter | crates/ai/cave-local-llm/src/modelfile.rs:97-104 | the same for a parameter, whose name is the next word in lower case |
| ModelfileLayout.BareMessage | crates/ai/cave-local-llm/src/modelfile.rs:105-116 | the same for a message, whose role must be system, user or assistant in any case |
| ModelfileLayout.KeywordsExactly | crates/ai/cave-local-llm/src/modelfile.rs:84-118 | any first word but the seven keywords, in any case, is an error that names it |
| ModelfileLayout.FromNeeded | crates/ai/cave-local-llm/src/modelfile.rs:122-125 | a file whose lines parse is accepted exactly when it has a FROM |
| ModelfileLayout.OneLineFile | crates/ai/cave-local-llm/src/modelfile.rs:71-126 | a single FROM line without a line feed is a whole file |
| ModelfileRoundTrip.RoundTripExactly | crates/ai/cave-local-llm/src/modelfile.rs:71-197 | parsing a printed command list returns that list exactly when every command is safe and one is a FROM |
| ModelfileRoundTrip.LinesExactly | crates/ai/cave-local-llm/src/modelfile.rs:77-120 | the same for the line loop alone |
| ModelfileRoundTrip.CommandExactly | crates/ai/cave-local-llm/src/modelfile.rs:180-195 | one printed command in front of any text is read back exactly when it is safe, and then nothing behind it is consumed |
| ModelfileRoundTrip.FromExactly | crates/ai/cave-local-llm/src/modelfile.rs:181-182 | a FROM value is read back exactly when it is one trimmed line that does not start with a quote |
| ModelfileRoundTrip.SafeParameter | crates/ai/cave-local-llm/src/modelfile.rs:97-104 | a parameter named by one lower-case word is read back exactly when its value is |
| ModelfileRoundTrip.UnsafeParameter | crates/ai/cave-local-llm/src/modelfile.rs:97-104 | any other parameter name is never read back |
| ModelfileRoundTrip.SafeMessage | crates/ai/cave-local-llm/src/modelfile.rs:105-116 | a message with a valid role is read back exactly when its content is |
| ModelfileRoundTrip.UnsafeMessage | crates/ai/cave-local-llm/src/modelfile.rs:105-116 | a message without a valid role is never read back |
| ModelfileRoundTrip.BlockReadExactly | crates/ai/cave-local-llm/src/modelfile.rs:241-254 | a multi-line value is read back exactly when it has no triple quote, no final quote and no CR-LF |
| ModelfileRoundTrip.LineReadExactly | crates/ai/cave-local-llm/src/modelfile.rs:257-263 | a one-line value is read back exactly when it has no quote, also when its quotes make up a triple quote |
| ModelfileRoundTrip.PrintedValueRead | crates/ai/cave-local-llm/src/modelfile.rs:205-213 | a quoted value behind any line start, on one or several lines, is read back exactly when it is safe |
| ModelfileRoundTrip.QuoteInValueLost | crates/ai/cave-local-llm/src/modelfile.rs:205-213 | no file with a one-line system prompt that contains a quote round-trips |
| NightPump.AppState.NextBatch | tools/night-pump/src/main.rs:299-329 | the batch handed out, the new recorded state and the snapshot to be written, for every state and pause flag |
| NightPump.AppState.BatchComplete | tools/night-pump/src/main.rs:331-362 | the new recorded state for any status text, and that an invalid one writes no snapshot |
| NightPump.PickIsBest | tools/night-pump/src/main.rs:310-312 | the picked batch is dispatchable and no dispatchable batch precedes it by priority, then id; none is picked only if none is dispatchable |
| NightPump.NextIsHighest | tools/night-pump/src/main.rs:310-312 | what is handed out has the highest priority of all dispatchable batches and, among those of that priority, the id that comes first character by character |
| NightPump.NextExactly | tools/night-pump/src/main.rs:303-328 | a batch is handed out exactly when the pump is not paused, fewer batches than its cap are dispatched or in progress and some batch is dispatchable; only that batch's entry changes, to exactly these fields |
| NightPumpRuns.CapKept | tools/night-pump/src/main.rs:306-324 | whatever is reported and whichever snapshots survive restarts, no more than the cap are in flight |
| NightPumpRuns.DiskIsPastMemory | tools/night-pump/src/main.rs:192-203 | disk and pending snapshots always are states that memory once held |
| NightPumpRuns.InvalidReportUnseen | tools/night-pump/src/main.rs:338-355 | a report with an invalid status changes no count, no status seen and no dispatchability |
| NightPumpOrder.DependenciesFirst | tools/night-pump/src/main.rs:221-249 | in every run of well-behaved workers, restarts included, started batches have completed dependencies and completions can be listed dependencies first |
| NightPumpOrder.CompletionsInOrder | tools/night-pump/src/main.rs:338-361 | between restarts the order of reported completions is a topological order |
| NightPumpOrder.CycleNeverStarted | tools/night-pump/src/main.rs:239-249 | no batch on a dependency cycle is ever started |
| NightPumpOrder.StrayReportBreaksOrder | tools/night-pump/src/main.rs:338-346 | a completion reported for a batch that was never handed out is taken and breaks the order |
| NightPumpOrder.NoDeadlock | tools/night-pump/src/main.rs:303-328 | with acyclic, closed dependencies an idle pump hands out its best batch unless all are completed |
| NightPumpOrder.EverythingGetsDone | tools/night-pump/src/main.rs:299-346 | with acyclic, closed dependencies a worker that completes what it is handed leaves no batch undone after as many cycles as there were undone batches |
| NightPumpBounds.PotentialSpent | tools/night-pump/src/main.rs:315-352 | every dispatch uses up a measure over statuses and retry counts that no report gives back |
| NightPumpBounds.IncarnationBounded | tools/night-pump/src/main.rs:239-249 | in every incarnation of the pump, the first or one after a restart, a batch is handed out at most as often as its entry allowed at the start, and so at most max(1, retry_max) times |
| NightPumpBounds.BoundedAcrossRestarts | tools/night-pump/src/main.rs:180-190 | if no restart loads a state that allows a batch more than memory did, the whole run keeps within that bound |
| NightPumpBounds.DispatchesBounded | tools/night-pump/src/main.rs:239-249 | all incarnations together hand out a batch at most (restarts + 1) × max(1, retry_max) times |
| NightPumpBounds.BoundReached | tools/night-pump/src/main.rs:192-203 | for every retry_max and every number of restarts a run of an honest and well-behaved worker reaches that bound; every hand-out and report lands, but before each restart a snapshot from before them lands last |
| NightPumpBounds.IncarnationTotal | tools/night-pump/src/main.rs:239-249 | all dispatches of one incarnation are bounded by what the entries of the whole queue allowed at its start |
| NightPumpBounds.AllDispatchesBounded | tools/night-pump/src/main.rs:239-249 | all dispatches of a run are bounded by (restarts + 1) times the sum over the queue |
| NightPumpWorkers.FirmExactly | tools/night-pump/src/main.rs:192-203 | a hand-out stays recorded in every continuation without a report of it exactly when memory, state file and every pending snapshot record it; a pending snapshot that is older is what can undo it |
| NightPumpWorkers.HonestIsBehaved | tools/night-pump/src/main.rs:315-325 | workers that report what they were answered, once, report only batches recorded as dispatched, in every run whose restarts load a state that records what they hold |
| NightPumpWorkers.InOrderRemembers | tools/night-pump/src/main.rs:315-325 | and all restarts do so if snapshots land in the order in which they were taken |
| NightPumpWorkers.OrphanExactly | tools/night-pump/src/main.rs:239-249 | a batch stays dispatched in every continuation with honest workers, so that it is never offered again and never done, exactly when it is firmly recorded so, nobody holds it and no answer is about to hand it out |
| NightPumpHonest.OrphanRun | tools/night-pump/src/main.rs:315-325 | a run that leaves such a batch: the hand-out is written by a later snapshot, and the pump restarts before it is answered |
| NightPumpHonest.ReportExactly | tools/night-pump/src/main.rs:338-355 | a report keeps every started batch on completed dependencies exactly when the reported batch has its own completed and no other started batch loses one by it; who reports does not matter |
| NightPumpHonest.OrderExactly | tools/night-pump/src/main.rs:299-362 | for every run at all: the order holds throughout exactly when every report met that condition at its time |
| NightPumpHonest.HonestOrder | tools/night-pump/src/main.rs:221-249 | honest workers keep the order in every run whose restarts load a state that records what they hold |
| NightPumpHonest.InOrderKeepsOrder | tools/night-pump/src/main.rs:192-203 | and in every run whose snapshots land in order |
| NightPumpHonest.HonestOrderExactly | tools/night-pump/src/main.rs:192-203 | without that order of landing honest workers keep the dependency order in every run exactly when no batch of the queue has a dependency |
| NightPumpProgress.StopsInTime | tools/night-pump/src/main.rs:239-249 | whatever the outcomes, nothing is handed out any more after as many tries as the entries of the queue allowed |
| NightPumpProgress.PumpEnds | tools/night-pump/src/main.rs:239-249 | and then, with acyclic, closed dependencies, a batch is undone exactly when it or something it depends on, directly or not, is out of retries |
| GgufCursor.Cursor.Take | crates/ai/cave-local-llm/src/gguf.rs:133-138 | the next n bytes and the advanced position, or end of data |
| GgufCursor.Cursor.ReadUint | crates/ai/cave-local-llm/src/gguf.rs:140-154 | the little-endian number of the given width |
| GgufCursor.Cursor.ReadString | crates/ai/cave-local-llm/src/gguf.rs:156-160 | the length-prefixed string, end of data, or invalid UTF-8 |
| GgufCursor.Cursor.ReadValue | crates/ai/cave-local-llm/src/gguf.rs:163-188 | the value of a type id, nested arrays included, whatever count they claim |
| GgufCursor.ReadHeaderFrom | crates/ai/cave-local-llm/src/gguf.rs:73-91 | the header or its first error |
| GgufCursor.ReadPairsFrom | crates/ai/cave-local-llm/src/gguf.rs:93-99 | the metadata map filled by the pair loop |
| GgufCursor.ParseBytes | crates/ai/cave-local-llm/src/gguf.rs:70-106 | the whole file, as the reading functions say |
| GgufUtf8.Utf8Exactly | crates/ai/cave-local-llm/src/gguf.rs:156-160 | the bytes accepted as a string are exactly the UTF-8 encodings of sequences of Unicode scalar values |
| GgufFormat.ValueReadExactly | crates/ai/cave-local-llm/src/gguf.rs:163-188 | a value is read from bytes exactly when they are its encoding, by the format's own table of types and widths, followed by the bytes that are left |
| GgufFormat.NumbersMean | crates/ai/cave-local-llm/src/gguf.rs:164-186 | every type id is read with the width the format gives it, and every number as the type and value the format gives it, two's complement for the signed types |
| GgufFormat.MagicIsGguf | crates/ai/cave-local-llm/src/gguf.rs:73-81 | the magic number that is compared with is that of the letters GGUF |
| GgufFormat.HeaderErrors | crates/ai/cave-local-llm/src/gguf.rs:73-91 | which bytes give which header and which of its errors: end of data, swapped magic, another magic, version |
| GgufFormat.StringErrors | crates/ai/cave-local-llm/src/gguf.rs:156-160 | a string is refused for want of bytes, or else exactly when it is not UTF-8 |
| GgufFormat.UnknownTypes | crates/ai/cave-local-llm/src/gguf.rs:163-188 | a value is refused with its own type exactly for type ids from 13 on |
| GgufFormat.ValueRead | crates/ai/cave-local-llm/src/gguf.rs:163-188 | every well-formed wire value, arbitrarily nested, is read back |
| GgufFormat.ValueWritten | crates/ai/cave-local-llm/src/gguf.rs:163-188 | whatever is read is the encoding of some wire value |
| GgufFormat.FileReadExactly | crates/ai/cave-local-llm/src/gguf.rs:70-106 | parsing succeeds with a content exactly on the version 2 and 3 files with that content, whatever follows them |
| GgufFormat.FileUnique | crates/ai/cave-local-llm/src/gguf.rs:70-106 | no bytes can be read as a file in two ways: header fields, keys, raw numbers and element types are determined |
| GgufFormat.SpecFileRead | crates/ai/cave-local-llm/src/gguf.rs:70-106 | every file of version 3 by the GGUF specification's section on file structure, with its limits on keys, booleans and element types, is read with the content that was written |
| GgufFormat.SpecExactly | crates/ai/cave-local-llm/src/gguf.rs:70-106 | of the files that are read, those of that section are exactly the ones of version 3 with lower-case dotted keys of at most 65535 bytes, booleans 0 or 1 and element types 0 to 12 |
| GgufFormat.OnePairRead | crates/ai/cave-local-llm/src/gguf.rs:70-106 | a version 3 file with one well-formed pair is always read, and is one of the specification exactly when its key and its value are |
| GgufFormat.ReadsBeyondSpec | crates/ai/cave-local-llm/src/gguf.rs:172-183 | for every key: a boolean byte from 2 on, and an empty array of an element type from 13 on, are outside the specification and are read, as true and as an empty array |
| GgufFormat.MergeLastWins | crates/ai/cave-local-llm/src/gguf.rs:93-99 | the map holds for a key the value of its last pair |
| GgufFormat.MergeKeeps | crates/ai/cave-local-llm/src/gguf.rs:93-99 | keys without a pair are untouched |
| GgufFormat.AppendingChangesNothing | crates/ai/cave-local-llm/src/gguf.rs:133-138 | a success, or an error other than end of data, is unchanged by appended bytes |
| GgufFormat.CountsBounded | crates/ai/cave-local-llm/src/gguf.rs:94-99 | an accepted file has at least 13 bytes for every pair it claims, after 24 bytes of header |
| GgufFormat.ItemsNeedBytes | crates/ai/cave-local-llm/src/gguf.rs:174-182 | an accepted array has at least one byte for every item it claims |
| HermesRouter.ModelRouter.Register | crates/ai/cave-hermes/src/router.rs:172-174 | a model is added last in its tier |
| HermesRouterRuns.RegisteredRight | crates/ai/cave-hermes/src/router.rs:172-174 | after any registrations every tier lists exactly its own models, in the order of registration |
| HermesRouter.ModelRouter.EvictWindow | crates/ai/cave-hermes/src/router.rs:117-125 | the window keeps exactly the samples of the last minute |
| HermesRouter.ModelRouter.PickInTier | crates/ai/cave-hermes/src/router.rs:219-239 | the model picked, the new counters, and a slack that is never negative |
| HermesRouter.ModelRouter.Route | crates/ai/cave-hermes/src/router.rs:193-217 | the degradation loop returns the decision or the error |
| HermesRouter.ModelRouter.MarkThrottled | crates/ai/cave-hermes/src/router.rs:244-251 | 1024 samples of the current instant are pushed |
| HermesRouterRuns.PickExactly | crates/ai/cave-hermes/src/router.rs:219-239 | a scan picks the first model with room and leaves one admission, or none and nothing any later query can see |
| HermesRouterRuns.RouteExactly | crates/ai/cave-hermes/src/router.rs:193-217 | a request gets the first model with room in the highest tier at or below the desired one, and fails exactly when there is none |
| HermesRouterRuns.RequestExactly | crates/ai/cave-hermes/src/router.rs:193-217 | a complex request gets the first Top model with room, else the first Mid, else the first Local one; a standard one starts at Mid and a trivial one at Local; it fails exactly when those have no room, with the tier it started at |
| HermesRouterRuns.RunCovers | crates/ai/cave-hermes/src/router.rs:111-126 | in every run the evicted windows count every admission of the last minute |
| HermesRouterRuns.RateBound | crates/ai/cave-hermes/src/router.rs:219-239 | no run admits a model more than half its cap in any closed minute |
| HermesRouterRuns.ThrottleStopsExactly | crates/ai/cave-hermes/src/router.rs:241-251 | a throttled model still has room exactly when half its cap exceeds its samples plus 1024 |
| HermesRouterRuns.ThrottledIsSkipped | crates/ai/cave-hermes/src/router.rs:241-251 | for a minute after throttling a model with half cap at most 1024 plus its samples of that instant gets no admission in any run |
| HermesRouterRuns.ThrottledMinuteExactly | crates/ai/cave-hermes/src/router.rs:241-251 | for every registered model: no run of the minute admits it exactly under that condition; otherwise a request at the end of the minute gets it once those before it are full |
| Workflow.WorkflowObject.StartStep | crates/ai/cave-hermes/src/workflow.rs:99-109 | the first step that is not done becomes running with one attempt more, also when it was stuck |
| Workflow.WorkflowObject.FinishStep | crates/ai/cave-hermes/src/workflow.rs:112-122 | the running step becomes done, or the call is refused and changes nothing |
| Workflow.WorkflowObject.FailStep | crates/ai/cave-hermes/src/workflow.rs:128-145 | the running step becomes pending again or stuck, by its attempts |
| Workflow.WorkflowObject.UnstickStep | crates/ai/cave-hermes/src/workflow.rs:171-186 | the stuck step becomes pending with no attempts |
| Workflow.WorkflowObject.TakeCheckpoint | crates/ai/cave-hermes/src/workflow.rs:147-153 | a checkpoint is a copy of the workflow |
| Workflow.WorkflowObject.RestoreFrom | crates/ai/cave-hermes/src/workflow.rs:157-166 | a checkpoint of the same id replaces the state, any other is refused |
| WorkflowRuns.EveryRunIsGood | crates/ai/cave-hermes/src/workflow.rs:84-187 | in every run from a fresh workflow, checkpoints included, done steps form a prefix, later steps are untouched, and pending and stuck match the attempts |
| WorkflowRuns.EventExactly | crates/ai/cave-hermes/src/workflow.rs:99-186 | in every such state each operation acts on the current step alone, whichever step it looks for, and makes of it exactly this step, or is refused |
| WorkflowRuns.ResumeRestores | crates/ai/cave-hermes/src/workflow.rs:147-166 | whatever happens after a checkpoint was taken, resuming from it brings back the workflow as it was then |
| WorkflowRuns.RunContinues | crates/ai/cave-hermes/src/workflow.rs:157-225 | a run resumed only from a checkpoint or later ones never loses or changes a step done in it |
| WorkflowRuns.NoDoneStepRestarted | crates/ai/cave-hermes/src/workflow.rs:219-225 | no step done in the resumed checkpoint is started again |
| WorkflowRuns.RevisionCounts | crates/ai/cave-hermes/src/workflow.rs:112-186 | the revision counts the successful finish, fail and unstick calls |
| WorkflowRuns.FreshRevision | crates/ai/cave-hermes/src/workflow.rs:112-186 | a workflow that was never resumed has as its revision the number of those calls |
| WorkflowRuns.DriverEnds | crates/ai/cave-hermes/src/workflow.rs:99-145 | each attempt uses up a measure; with enough outcomes a driver ends complete or stuck |
| WorkflowRuns.DriverBound | crates/ai/cave-hermes/src/workflow.rs:124-145 | a driver of a fresh workflow needs at most steps × (max_retries + 1) starts |
| WorkflowRuns.DriverExactly | crates/ai/cave-hermes/src/workflow.rs:99-145 | after any outcomes a driver of a fresh workflow is complete exactly when every step had a success, stuck exactly when one failed more than max_retries times in a row, and made one start for each outcome used |
| WeightedRouting.Router.SelectNext | crates/ai/cave-llm-gateway/src/router.rs:216-237 | the provider selected and the moved counter, with the empty and zero-weight cases |
| WeightedRouting.SelectsOwner | crates/ai/cave-llm-gateway/src/router.rs:220-235 | the provider selected is the one whose weight range holds the reduced counter; the default and zero weights are never taken |
| WeightedRouting.Fair | crates/ai/cave-llm-gateway/src/router.rs:220-235 | an even window of total-weight selections picks every provider exactly as often as its weight |
| WeightedRouting.FairExactly | crates/ai/cave-llm-gateway/src/router.rs:222-226 | a window is fair to every weight list of its total exactly when it does not cross the 32-bit wrap or the total divides 2^32 |
| PromptCache.Cache.Get | crates/ai/cave-llm-gateway/src/cache.rs:85-107 | disabled, absent, fresh and stale by the fields of the entry, with the store and both counters afterwards |
| PromptCache.Cache.Insert | crates/ai/cave-llm-gateway/src/cache.rs:109-136 | the new entry replaces that key, after some entry was removed exactly when the cache was full, and a cache within max(1, max_entries) stays within it |
| PromptCache.Cache.Invalidate | crates/ai/cave-llm-gateway/src/cache.rs:138-141 | the entry of the request is removed and nothing else |
| GatewayCacheSize.CacheBounded | crates/ai/cave-llm-gateway/src/cache.rs:109-136 | with insertions that look, pick, remove and insert in separate steps, the cache exceeds max(1, max_entries) by no more than the number of stores that others made between a store's look and its insertion, added up over all stores |
| GatewayCacheSize.OneAtATime | crates/ai/cave-llm-gateway/src/cache.rs:109-136 | if at no time more than one call is between looking and inserting, the cache keeps within max(1, max_entries) |
| GatewayCacheSize.CacheGrows | crates/ai/cave-llm-gateway/src/cache.rs:114-127 | with at most two such calls at a time and any max_entries, requests with different fingerprints can leave at least one entry for every two of them when all are done |
| GatewayCacheSize.LimitExactly | crates/ai/cave-llm-gateway/src/cache.rs:114-127 | with enough different requests, every run with at most p such calls at a time keeps within the limit exactly when p is at most 1 |
| GatewayPipeline.RunKeeps | crates/ai/cave-llm-gateway/src/router.rs:69-156 | every interleaving keeps the pipeline invariant: phases, productions, cost records, stores and cache agree |
| GatewayPipeline.ReturnedIsGenuine | crates/ai/cave-llm-gateway/src/router.rs:113-156 | every returned response was produced for a request of the same fingerprint and passed the output check; it has one cost record, or none if cached |
| GatewayPipeline.StoredIsPaid | crates/ai/cave-llm-gateway/src/router.rs:138-148 | every stored response was produced and checked, and its call has exactly one cost record and one store |
| GatewayPipeline.RefusedForGood | crates/ai/cave-llm-gateway/src/router.rs:86-111 | a request that is refused, or that no provider answers, fails for good: no response, no cost record and no store later |
| GatewayPipeline.HitExactly | crates/ai/cave-llm-gateway/src/cache.rs:85-107 | in every run: a request whose key is in the store of an enabled cache is answered with the latest store under it exactly when there is no time to live or that store is not older, and otherwise goes on to drop it; any other request misses |
| GatewayPipeline.LatestIsLast | crates/ai/cave-llm-gateway/src/cache.rs:121-135 | the latest store is one that no later store under the key replaced |
| GatewayCosts.ChargedIsOwed | crates/ai/cave-llm-gateway/src/router.rs:138-145 | in every run of the pipeline its cost records are worth exactly what its calls that are past recording owe, for each consumer, each model and in all |
| GatewayCosts.LedgersMatchReturns | crates/ai/cave-llm-gateway/src/router.rs:113-156 | when the tracker has recorded them, in any interleaving, at the prices in force when each call recorded, every ledger row holds exactly that; with no call on its way to returning, it is the worth of the answers returned from providers, cached ones not counted |
| CostLedger.CostTracker.RecordUsage | crates/ai/cave-llm-gateway/src/cost.rs:167-201 | the fields of the record made, its cost by the price list or nothing, and the three ledgers with one request, its tokens and its cost added once each |
| CostLedger.CallsAreBegun | crates/ai/cave-llm-gateway/src/cost.rs:167-183 | in every concurrent run the records are those of the calls that began, each with its own consumer, model, tokens, 32-bit total and cost |
| CostLedger.PostedTotal | crates/ai/cave-llm-gateway/src/cost.rs:187-194 | posting to any row adds exactly the record to the sum over all rows |
| CostLedger.RunBalanced | crates/ai/cave-llm-gateway/src/cost.rs:187-198 | at every moment of concurrent recording each ledger sums to the calls that have reached it |
| CostLedger.Conservation | crates/ai/cave-llm-gateway/src/cost.rs:187-198 | whenever no record is half applied, consumers, models and global have equal totals in every field |
| CostLedger.BucketExact | crates/ai/cave-llm-gateway/src/cost.rs:120-128 | every single bucket holds exactly the records posted to it |
| CostLedger.TotalsExactly | crates/ai/cave-llm-gateway/src/cost.rs:176-183 | a bucket's total equals input plus output exactly when no counted record's 32-bit sum wrapped |
| CostLedger.ModelCostExactly | crates/ai/cave-llm-gateway/src/cost.rs:19-25 | in every state of every run a model's cost is its price per million tokens applied to the tokens of its bucket, as long as that price does not change |

## Left out

- PromptContext setters, Modelfile accessors, router bootstrap, gateway statistics: map and list wrappers.
- Template nesting beyond 2^31 open blocks: the scanner's depth is a 32-bit counter there, an unbounded one here.
- Stack depth: deeply nested blocks or arrays can exhaust the stack of the original; the model has no stack.
- EveryTextRendered: says nothing about the result when an end tag does not fit, because the text after it is then
  read from the wrong place; `AnyTextRendered` covers those texts by their readings.
- GGUF tensor information and data, and big-endian files: the original stops after the metadata and refuses
  big-endian files.
- JSON and YAML files of the pump and of checkpoints: taken to be read back as written; two writers of the pump's
  one temporary file are taken not to disturb each other.
- Pump heartbeat time, statistics, contributions log and resource probes: no decision reads them; the pause flag
  appears as the value a request saw.
- 32-bit platforms: GGUF lengths are taken to fit the machine's address width.
- Retry attempts of a workflow step and revision numbers: counted without bound, so 2^32 starts of one step do not
  overflow.
- Task complexity estimate: the router model takes the complexity as given.
- Instants less than a minute after the clock's origin: the original's subtraction would panic there.
- Fixed, round-robin and fallback dispatch, aliases, rate limiter, guardrail rules and logging: easy or outside the
  modelled files; in the pipeline they appear as refusals, answers and failures.
- Request fingerprints: an arbitrary function, so hash collisions are allowed, and what is hashed is not modelled.
- Floating-point rounding of costs: costs are exact reals.
- Locks poisoned by a panic: a record then misses the global ledger in the original.
- The size of the concurrent map: read in one step here, while the original adds up its parts one by one, so that a
  size it reads may never have been there.
- Loss of power: a renamed state file is taken to survive; the original does not force it to the disk.
- Keys that the GGUF specification requires or reserves elsewhere: the model has its section on file structure.
