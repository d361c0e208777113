# RustyTune: a verified model of its core

RustyTune edits the memory of an engine ECU over a serial link while several browser clients edit the
same tune. This project models the parts where a mistake would silently give the engine other data than
the user sees, and proves what they promise.

| files | part |
|---|---|
| `SyncMachine`, `SyncSafety`, `SyncRace`, `SyncBurn`, `SyncConverge`, `SyncLosses`, `SyncBurnWanted` | tune synchronisation as a step system: edits, snapshots, chunk writes, marks, page checks, re-reads and burns, in any interleaving |
| `Comms`, `DirtySpans` | the communication thread itself: nested loops over pages, spans and chunks that release the tune between requests; every method is proved to take exactly steps of the step system |
| `Crc32`, `Envelope`, `Template`, `Session`, `Pages`, `Calibration`, `Device` | the wire protocol from command templates to the simulated ECU and back |
| `SyncWire` | each request over the wire is a step of the step system |
| `Downsample`, `LogView` | the log viewer: extrema-keeping downsampler, row index, view cache, disk cache |
| `Expressions`, `Evaluation`, `Preprocess` | the INI language |
| `BitFields`, `TuneModel`, `TuneState`, `Msq`, `MsqApply`, `MsqSave`, `MsqRestore`, `ScaleExpressions` | constants in page bytes, and tune files: diff, apply, save, restore |
| `ShutdownMonitor`, `Bresenham` | the engine-off monitor and the OLED line loop |
| `Bytes`, `Names`, `Options` | shared helpers |

`dafny verify dfyconfig.toml` checks everything.

How the pieces are connected:

- The checksum is the bit-serial CRC-32 of section 8 of RFC 1952 and is never taken to be injective. A
  theorem either assumes that the two page images that are compared do not collide (`NoCollision`,
  `CheckHonest`), or restricts the race to four consecutive bytes, where `Crc32.BurstDetected` replaces
  the assumption.
- `SyncWire` ties the wire to the step system: with a device that mirrors the state, a chunk write of 1 to 251 bytes,
  a checksum request, a page read and a burn through `Pages` move it as the steps do and bring back what the steps see.
  The step system lets a chunk of any length be acknowledged; the simulated device takes no longer write whole.
- The methods of `Pages` and `Calibration.Write` are proved for whatever templates they are given against the
  composition of building, framing, dispatch and decoding; what that composition achieves is proved for the
  firmware's own templates, which `Pages.Define` yields from the usual texts (`Pages.DefinedIsStandard`).
- Clients' edits, lost replies and half-lost writes are inputs: lists consumed one element at a time, over
  all of which the theorems quantify. The transport delivers a reply in any split into reads.
- Scaled numbers are reals, rounded half away from zero. Scales, translates and limits are arbitrary
  functions of the tune (`TuneState.Formula`); `ScaleExpressions.ExpressionIgnores` says when an expression
  meets the condition the tune-file theorems put on them.

Findings, where the code does not do all that its comments or its neighbours suggest:

- A clean page is never visited, so a wrong shadow under a clean page stays wrong
  (`SyncConverge.TwoRunsConvergeIff`). It can happen without any fault in the device: an edit between
  the acknowledgement of a chunk and `mark_sent`, followed by a lost reply to the page check, leaves the page clean
  and RAM different, for every later run without an edit (`SyncConverge.LostReplyHidesTheRace`).
  Without an edit no loss can do this (`SyncLosses.CleanIsRightWithoutEdits`).
- A page read with a blocking factor above 2047 never succeeds on a larger page: the reply exceeds what the
  decoder takes for a plausible length (`Pages.LongChunksNeverArrive`).
- `diff` lists string constants that differ, and bit indices too wide for their field, but `apply` cannot
  make either go away: apply then diff leaves nothing exactly when no entry was of these two kinds before
  (`MsqApply.ApplyMakesDiffEmptyIff`, `MsqApply.StringExample`). An index cut down to the value already there is listed although
  applying it changes nothing (`MsqApply.BitsListedIffChanges`, `MsqApply.CutIndexExample`).
- For an array that runs past its page `diff` is silent although `apply` writes the part inside; diff and write
  agree exactly for arrays within their page and for those that hold their values already
  (`MsqApply.ArrayListedIffChangesIff`, `MsqApply.PastThePageExample`).
- A burn can succeed although it stored nothing of an edit: a failed chunk write abandons the flush, not the burn
  (`SyncBurnWanted.LostWriteStillSucceeds`). With no edits meanwhile, EEPROM then holds the wanted bytes of exactly the
  pages that are clean at the report, or are reported with only their write's reply lost
  (`SyncBurnWanted.BurnStoresIff`). Lost checks and re-reads alone do no harm (`SyncBurnWanted.BurnStoresWanted`).
- A chunk write above 251 bytes can come back as a success although nothing was stored: the device drops its header
  and answers a request that lies in its data (`Pages.LongWriteCanSucceed`); where none lies in it, it times out.
- A saved array of one element reads back as a number and is never restored (`MsqRestore.OneElementStays`).
- Six saved decimals are enough exactly for scales larger than a millionth (`MsqSave.DriftIff`).
- A label or string that ends in a quote does not read back (`MsqSave.QuotedReadsBack`, `MsqSave.QuoteIsLost`).
- `#elif` may follow `#else`; the first arm whose condition holds wins, and the conditions after it are not
  even evaluated. An unknown directive is an error even in text that is not selected
  (`Preprocess.StackMeansNesting`, `Preprocess.ElifAfterElse`).

## Model

| member | source | states |
|---|---|---|
| Crc32.Crc | crates/ecu-proto/src/envelope.rs:11-15 | the checksum is a 32-bit number; defined bit by bit as section 8 of RFC 1952 does |
| Crc32.RegisterBack | crates/ecu-proto/src/envelope.rs:11-15 | registers equal after different messages of one length were equal, bit for bit, further up before |
| Crc32.BurstOfBits | crates/ecu-proto/src/envelope.rs:11-15 | two bit strings that differ only in a run of 32 bits give different registers, whatever surrounds the run |
| Crc32.BurstDetected | crates/server/src/comms.rs:645-648 | page images that differ, and only within four consecutive bytes, always have different checksums |
| DirtySpans.ScanSpans | crates/tune-model/src/lib.rs:637-655 | the scan over a growing list returns the specified coalescing |
| DirtySpans.CoalesceIsCoalescing | crates/tune-model/src/lib.rs:635-655 | spans are sorted, start and end on differing bytes, cover every difference, neighbours are more than the gap apart, no equal run inside exceeds the gap |
| DirtySpans.CoalescingUnique | crates/tune-model/src/lib.rs:635-655 | those conditions have only one solution |
| DirtySpans.ChunksOfSpansCut | crates/server/src/comms.rs:618-622 | every chunk is non-empty, no longer than the blocking factor, and is cut from `data` at its offset |
| DirtySpans.OutgoingStores | crates/server/src/comms.rs:618-628 | storing all chunks, on any image, makes every byte inside a span the wanted one and leaves every other byte alone |
| DirtySpans.OutgoingCompletes | crates/server/src/comms.rs:618-628 | on the image the spans were computed against, the chunks give exactly `data` |
| SyncMachine.Apply | crates/server/src/comms.rs:604-693 | every step keeps the five copies of each page at one length and the thread on a real page |
| SyncMachine.PagesWanted | crates/server/src/comms.rs:608-613 | the work lists of a flush and of a burn hold exactly the pages that need it, in increasing order |
| SyncSafety.StepFrame | crates/server/src/comms.rs:604-693 | which steps can change the shadow or the RAM of a page, and only of the page being visited |
| SyncSafety.SettledPagesAreTruthful | crates/server/src/comms.rs:604-666 | in every interleaving, with lost and half-lost writes: after a check reply (and the re-read if it differed) until the next write attempt the shadow equals ECU RAM, so a clean page has `data` = RAM |
| SyncSafety.AnsweredPassesStayInSync | crates/server/src/comms.rs:604-666 | with all flush requests answered and edits anywhere, whenever the thread is idle every shadow equals RAM |
| SyncRace.CrcDetectsBursts | crates/ecu-proto/src/envelope.rs:11-15 | the real checksum tells images apart that differ within four bytes |
| SyncRace.RaceOnOneElementIsCaught | crates/server/src/comms.rs:618-664 | with any burst-detecting checksum, edits inside one four-byte window of the visited page need no collision assumption |
| SyncRace.RaceOnOneElement | crates/server/src/comms.rs:618-664 | the same with the real checksum, from an idle and synchronised state |
| SyncBurn.BurnSucceeds | crates/server/src/comms.rs:668-693 | a successful burn ends with EEPROM = RAM = both shadows on every page and reports, in order, exactly the pages whose EEPROM changed |
| SyncBurn.BurnStopsAtFailure | crates/server/src/comms.rs:685-691 | a failure at one page leaves earlier pages burned and later ones untouched |
| SyncBurnWanted.BurnStoresIff | crates/server/src/comms.rs:618-693 | with no edits inside and anything lost: after a success EEPROM holds a page's wanted bytes if and only if the page is clean, or is reported with RAM already right; on a clean page all copies agree |
| SyncBurnWanted.BurnStoresWanted | crates/server/src/comms.rs:618-693 | with no edits and no failed chunk write, whatever checks and re-reads are lost, a success ends with EEPROM, RAM, both shadows and the wanted bytes equal |
| SyncBurnWanted.LostWriteStillSucceeds | crates/server/src/comms.rs:630-640 | a concrete burn whose one chunk write is lost succeeds, reports no page, and leaves EEPROM without the wanted byte |
| SyncBurnWanted.BurnSuccessReports | crates/server/src/comms.rs:669-693 | with edits and losses alike: reported pages have their RAM in EEPROM, the others keep EEPROM and it is what their shadows say |
| SyncLosses.CleanIsRightWithoutEdits | crates/server/src/comms.rs:604-693 | over any number of passes and burns without edits, whatever is lost, a clean page has exactly its wanted bytes in RAM |
| SyncConverge.PassRuns | crates/server/src/comms.rs:604-666 | every edit-free answered pass of the step system has, page by page, the outcome of a closed-form function |
| SyncConverge.PassMakesTruthful | crates/server/src/comms.rs:645-664 | after one pass over a dirty page the shadow is right, whatever it was |
| SyncConverge.OnePassConvergesIff | crates/server/src/comms.rs:618-664 | one pass makes all three copies agree exactly when RAM already held the wanted bytes outside the spans |
| SyncConverge.TruthfulConvergesInOne | crates/server/src/comms.rs:618-664 | a right shadow converges in one pass |
| SyncConverge.TwoPassesConvergeIff | crates/server/src/comms.rs:608-664 | two edit-free passes converge if and only if the page starts dirty or its shadow was right |
| SyncConverge.TwoRunsConvergeIff | crates/server/src/comms.rs:604-666 | the same of any two edit-free, answered passes of the step system |
| SyncConverge.CleanPageIsLeftAlone | crates/server/src/comms.rs:608-616 | a page clean when the thread is idle keeps shadow and RAM through every run that does not edit it |
| SyncConverge.LostReplyHidesTheRace | crates/server/src/comms.rs:622-663 | a concrete run that ends clean with RAM different, and stays so |
| Comms.Comms.WriteChunk | crates/server/src/comms.rs:622-623 | one request and one step; a failure may or may not have reached RAM |
| Comms.Comms.MarkSent | crates/tune-model/src/lib.rs:658-665 | the shadow takes over the current wanted bytes, not the ones that were sent |
| Comms.Comms.SendSpan | crates/server/src/comms.rs:618-642 | chunks go out in order at the computed offsets; the first failure abandons the pass |
| Comms.Comms.VerifyPage | crates/server/src/comms.rs:645-664 | hash, compare, and re-read on mismatch |
| Comms.Comms.FlushDirty | crates/server/src/comms.rs:601-666 | for every interleaving the method performs exactly one pass of the step system; if nothing interferes every page ends as the closed form says |
| Comms.Comms.BurnPages | crates/server/src/comms.rs:685-692 | burns in order, stops at the first failure |
| Comms.Comms.DoBurn | crates/server/src/comms.rs:668-693 | the method performs exactly one burn request of the step system; from truthful shadows success means all copies agree and the right pages are reported, failure that the pages before the failing one are burned and the later ones untouched |
| Comms.Comms.DownloadPage | crates/server/src/comms.rs:579-597 | one retry; an image is accepted only if its checksum is the ECU's, and exactly when the first is good or the first is damaged and the second good |
| Comms.Comms.DownloadTune | crates/server/src/comms.rs:572-599 | only checked images are installed, as all three copies; loaded only if every page was |
| Envelope.Decoder.Push | crates/ecu-proto/src/envelope.rs:79-115 | one byte moves the decoder and emits as its specification function says |
| Envelope.StreamComesThrough | crates/ecu-proto/src/envelope.rs:18-24 | any list of payloads of 1 to 2048 bytes decodes to exactly those payloads in order |
| Envelope.NoisyStreamComesThrough | crates/ecu-proto/src/envelope.rs:89-98 | the same after any noise whose byte pairs, the one with the first header byte included, read as implausible lengths |
| Envelope.EmittedIsOnTheLine | crates/ecu-proto/src/envelope.rs:100-115 | an emitted frame means the bytes just pushed end in its length, its payload and the matching checksum; a mismatch event, in a full frame with another checksum |
| Template.Parse | crates/ecu-proto/src/command.rs:46-125 | the character loop does what the recursive reading says, with every error case |
| Template.Build | crates/ecu-proto/src/command.rs:127-155 | the bytes are the parts in order, or the first missing field |
| Template.PrintParse | crates/ecu-proto/src/command.rs:46-125 | every normal list of parts is the reading of its printed template |
| Template.NormalIffParsed | crates/ecu-proto/src/command.rs:46-125 | normal lists of parts are exactly what parsing can give |
| Device.PageStore.Process | tools/fake-ecu/fake_ecu.py:240-315 | the store in place changes and answers as the dispatch function |
| Device.PageStore.Handle | tools/fake-ecu/fake_ecu.py:318-339 | consumes a request, drops a damaged one, skips a byte of noise or waits, as specified |
| Device.PageStore.Serve | tools/fake-ecu/fake_ecu.py:390-423 | received bytes are served while they hold requests, the rest is kept; replies follow one another |
| Device.RequestIsServed | tools/fake-ecu/fake_ecu.py:390-423 | an idle device takes an admissible request whole and leaves nothing over |
| Device.DrainSplits | tools/fake-ecu/fake_ecu.py:390-423 | bytes served in any two receptions are served as in one |
| Device.SilentIff | tools/fake-ecu/fake_ecu.py:318-339 | the device is silent on given bytes exactly when the parser finds no request in them, which the bytes alone decide; then its pages and tables stay |
| Device.RequestIsDispatched | tools/fake-ecu/fake_ecu.py:318-339 | a framed admissible request is dispatched whole, whatever follows it in the buffer |
| Device.PartialRequestWaits | tools/fake-ecu/fake_ecu.py:328-329 | no proper prefix of it changes anything |
| Device.RequestIsSkipped | tools/fake-ecu/fake_ecu.py:323-327 | a request of a length its command does not allow is not dispatched: one byte is dropped |
| Session.ReadEnveloped | crates/ecu-proto/src/session.rs:122-147 | the verdict does not depend on how the reply was split into reads |
| Session.ReplyUnderstood | crates/ecu-proto/src/session.rs:130-135 | a framed reply gives its payload if its code is accepted and the error code otherwise |
| Session.Session.Request | crates/ecu-proto/src/session.rs:96-106 | a request is framing, serving by the device until its buffer holds no more, and decoding, composed |
| Session.ExchangeDispatches | crates/ecu-proto/src/session.rs:96-106 | for any dispatched answer of a legal length the caller gets its data or its error code, and the device has moved |
| Pages.Define | crates/ecu-proto/src/pages.rs:51-80 | a page's templates are parsed and its identifier built, or the first problem is reported |
| Pages.DefinedIsStandard | crates/ecu-proto/src/pages.rs:51-80 | the firmware's texts for page `n` define a page with the standard command set, identifier included |
| Pages.StandardRequests | crates/ecu-proto/src/pages.rs:104-194 | the standard templates build the byte layout the device expects, little-endian offset and count |
| Pages.StandardTexts | crates/ecu-proto/src/pages.rs:51-80 | the usual template texts parse to those templates |
| Pages.ReadPage | crates/ecu-proto/src/pages.rs:104-132 | for any templates the chunk loop is the composition of the requests; with the standard ones the result is a download as in the next row |
| Pages.StandardReadAll | crates/ecu-proto/src/pages.rs:104-132 | a download succeeds if and only if the page is empty, or the device has it and no chunk exceeds 2047 bytes; then it is exactly the device's bytes, and the device is left alone |
| Pages.LongChunksNeverArrive | crates/ecu-proto/src/envelope.rs:26-28 | with page size and blocking factor above 2047 every download fails |
| Pages.WriteChunk | crates/ecu-proto/src/pages.rs:135-153 | for any template one request; with the standard one a write as in the next row |
| Pages.StandardWrite | crates/ecu-proto/src/pages.rs:135-153 | a chunk of 1 to 251 bytes does to the page of an idle device exactly what the write step of the step system does, and succeeds exactly when that accepts; any other one changes nothing and times out unless a request lies in its bytes |
| Pages.LongWriteCanSucceed | tools/fake-ecu/fake_ecu.py:390-423 | a concrete write of 252 bytes whose data hold a query returns success and stores nothing |
| SyncWire.WriteIsAStep | crates/server/src/comms.rs:618-642 | one chunk write over the wire moves the device as the write steps move RAM: acknowledged, refused or with its reply lost |
| SyncWire.CrcIsAStep | crates/server/src/comms.rs:645-648 | the checksum request brings the checksum of RAM, which is what the check step compares |
| SyncWire.ReadIsAStep | crates/server/src/comms.rs:649-653 | the re-read brings the page's RAM, which is what the read step sees |
| SyncWire.BurnIsAStep | crates/server/src/comms.rs:685-691 | the burn request moves EEPROM as the burn steps do, answered or with its reply lost |
| Pages.PageCrc | crates/ecu-proto/src/pages.rs:156-177 | with the standard template, the checksum of the device's page, or the device's range error |
| Pages.BurnPage | crates/ecu-proto/src/pages.rs:180-194 | with the standard template, copies the working page to the burned copy, and succeeds exactly when the device has the page |
| Calibration.Write | crates/ecu-proto/src/calibration.rs:34-68 | a layout or identifier that is not accepted and any template error send nothing; with the firmware's template, identifier 2 makes exactly the data current and any other one fails and changes nothing |
| Calibration.AllOrNothing | tools/fake-ecu/fake_ecu.py:287-300 | from any partial state, the first `k` commands leave the current table alone unless they are all, and then it is exactly the data |
| Calibration.TransferIsSent | crates/ecu-proto/src/calibration.rs:34-68 | from any device state a whole transfer completes, or for another table fails at its first chunk |
| Calibration.TableText | crates/ecu-proto/src/calibration.rs:53 | the firmware's text parses to the table command |
| Downsample.Bucket.Add | crates/server/src/log_view.rs:91-113 | the running fields are first, last, lowest, highest and first gap per channel of the rows so far |
| Downsample.Bucket.Finish | crates/server/src/log_view.rs:115-128 | the kept rows are the specified ones, sorted, without repeats |
| Downsample.KeepWorks | crates/server/src/log_view.rs:77-128 | rows kept of one bucket are real, in order, at most 2 + 3 per channel, with end rows, extrema and a gap if there was one |
| Downsample.OverviewRepresents | crates/server/src/log_view.rs:77-128 | over any bucketing: real rows in strictly increasing order, first and last row, exact minimum and maximum of every channel, within the budget |
| Downsample.OverviewKeepsGaps | crates/server/src/log_view.rs:77-128 | wherever a bucket had a missing cell, a kept row of that bucket has one |
| LogView.ParseColumns | crates/server/src/log_view.rs:149-164 | the merge loop over cells and selected columns picks exactly the selected cells, absent ones as missing |
| LogView.BucketsFitBudget | crates/server/src/log_view.rs:308-309 | the bucket count keeps within max(points, 2 + 3 per channel) rows |
| LogView.SampledRepresents | crates/server/src/log_view.rs:307-369 | a sampled answer represents the rows within that budget and keeps each bucket's gaps |
| LogView.ScanFile | crates/server/src/log_view.rs:307-369 | the one-pass build over lines indexes every timed row and, with byte-sized buckets, holds the plain rows and the overview of all rows |
| LogView.ReadVisible | crates/server/src/log_view.rs:456-492 | re-reading by offset yields exactly the plain scan's rows, grouped into row-count buckets |
| LogView.Viewer.Build | crates/server/src/log_view.rs:285-393 | the index agrees with the file and its first view is right |
| LogView.Viewer.Compute | crates/server/src/log_view.rs:448-500 | a view computed from the index is right for its query |
| LogView.Viewer.Load | crates/server/src/log_view.rs:424-508 | after any history of hits, evictions, restarts and restores the answer is right: up to 5000 rows exactly the plain scan; more are a bucket sampling within the point budget, with end rows, extrema and each bucket's gaps; a hit keeps the cache, a miss adds the view in place of the evicted one; at most 4 views are cached |
| LogView.Evict | crates/server/src/log_view.rs:495-501 | the first cached zoom goes, or the oldest view when all are of the whole recording |
| LogView.Viewer.Persist | crates/server/src/log_view.rs:227-283 | the disk cache becomes the index with its views of the whole recording, or stays when it cannot be written |
| LogView.PersistedIsAcceptable | crates/server/src/log_view.rs:195-240 | what is written to disk passes the checks made when it is restored |
| Expressions.Lbp | crates/ts-ini/src/expr.rs:252-274 | a binary operator's power is 1 to 10 and names the operator back |
| Expressions.Parser.ParseExpression | crates/ts-ini/src/expr.rs:300-325 | the loop over a mutable position parses as the recursive climb, with the same error, and stops at the same token |
| Expressions.Parser.ParsePrimary | crates/ts-ini/src/expr.rs:327-367 | likewise for primaries, calls, elements, parentheses and unary operators |
| Expressions.ParseTokens | crates/ts-ini/src/expr.rs:116-129 | all tokens must be used |
| Expressions.ParsePrint | crates/ts-ini/src/expr.rs:252-367 | every tree comes back from its minimally parenthesised tokens: precedence, left associativity, ternary, unary, call, index |
| Expressions.PrintIsShortest | crates/ts-ini/src/expr.rs:300-367 | no token list that parses to a tree is shorter than its printed form, so the parser needs no further parentheses |
| Evaluation.OnlyAnswersMatter | crates/ts-ini/src/expr.rs:372-484 | a value or error depends only on the lookups really made: operands cut off by a short circuit, unchosen branches and extra arguments ask nothing |
| Preprocess.Expand | crates/ts-ini/src/preprocess.rs:157-191 | the character loop, and its shortcut for text without a dollar sign, are the recursive expansion |
| Preprocess.ExpansionSubstitutes | crates/ts-ini/src/preprocess.rs:153-191 | every reference becomes its define, escaped dollars and everything else stay |
| Preprocess.PreprocessLines | crates/ts-ini/src/preprocess.rs:28-113 | the line loop is the stack machine, errors and their line numbers included |
| Preprocess.StackMeansNesting | crates/ts-ini/src/preprocess.rs:28-113 | running any nest of chains emits exactly the lines of the first arm that holds in each chain, with symbols and defines threaded in order, or the same first error |
| Preprocess.ElifAfterElse | crates/ts-ini/src/preprocess.rs:55-73 | a concrete chain with `#elif` after `#else` is accepted, and the `#else` arm wins |
| Preprocess.AcceptedIsNested | crates/ts-ini/src/preprocess.rs:56-112 | whatever is accepted is such a nest: unbalanced or misplaced directives are errors |
| BitFields.WithFieldBits | crates/tune-model/src/lib.rs:379-387 | setting a field replaces its bits and no others |
| BitFields.FromLeBits | crates/tune-model/src/lib.rs:88-106 | bit k of little-endian bytes is bit k of their number |
| TuneModel.ReadAfterWrite | crates/tune-model/src/lib.rs:88-119 | every value of every type reads back as written, signed ones included |
| TuneModel.WriteWhatIsThere | crates/tune-model/src/lib.rs:88-119 | writing back what was read changes no byte |
| TuneModel.WriteBits | crates/tune-model/src/lib.rs:108-119 | a raw write sets the bits of its bytes to those of the number and leaves all others; out of the page it does nothing |
| TuneModel.EncodeDecode | crates/tune-model/src/lib.rs:276-303 | encoding a decoded value gives the raw value back |
| TuneModel.EncodeIsClosest | crates/tune-model/src/lib.rs:276-303 | no representable value is closer to the requested one than the stored one, clamping included |
| TuneState.Tune.WriteConstant | crates/tune-model/src/lib.rs:360-395 | the edit in place does what the specification says, or refuses and changes nothing |
| TuneState.Tune.WriteElement | crates/tune-model/src/lib.rs:416-450 | likewise for array elements |
| TuneState.LimitedIsClosest | crates/tune-model/src/lib.rs:324-337 | a variable, and a clamped edit, takes the value within its limits closest to the request, so one within them unchanged; where the limits contradict each other, the upper one |
| TuneState.SetConstantTouches | crates/tune-model/src/lib.rs:360-395 | an edit changes no bit outside its constant, so fields sharing its word keep their values |
| TuneState.SetElementTouches | crates/tune-model/src/lib.rs:416-450 | likewise for array elements |
| TuneState.BitsReadBack | crates/tune-model/src/lib.rs:374-389 | a bit field reads back as the selected index, cut to its width |
| TuneState.FieldIsKept | crates/tune-model/src/lib.rs:460-475 | a bit field's value depends on its own bits only |
| Msq.Compared | crates/tune-model/src/msq.rs:203-297 | the diff loop, its early exit for arrays included, lists what the specification lists |
| Msq.EntriesAreListed | crates/tune-model/src/msq.rs:203-297 | a name is listed exactly when some entry of the file under that name differs |
| Msq.ApplyOneTouches | crates/tune-model/src/msq.rs:324-355 | applying one entry changes no bit outside its constant |
| Msq.TextIsKept | crates/tune-model/src/lib.rs:237-245 | a string depends on its own bytes only |
| Msq.VerdictIsKept | crates/tune-model/src/msq.rs:203-297 | the verdict on a constant of any class does not move with bits and variables outside its footprint and its scale |
| MsqApply.ScalarListedIffChanges | crates/tune-model/src/msq.rs:213-234 | a scalar is listed exactly when applying it would change the tune |
| MsqApply.BitsListedIffChanges | crates/tune-model/src/msq.rs:235-252 | for bits this holds exactly when the index fits its field or, cut down, differs from the value there |
| MsqApply.CutIndexExample | crates/tune-model/src/msq.rs:235-252 | a one-bit field holding 0 and a file value of 2: listed, and applying it changes nothing |
| MsqApply.ArrayListedIffChanges | crates/tune-model/src/msq.rs:253-278 | an array inside its page is listed exactly when applying it would change the tune |
| MsqApply.ArrayListedIffChangesIff | crates/tune-model/src/msq.rs:253-278 | for every array this holds exactly when it lies in its page, or every comparable element holds its value already, or there is nothing to compare |
| MsqApply.PastThePageIsSilent | crates/tune-model/src/msq.rs:259-268 | an array that runs past its page is never listed |
| MsqApply.PastThePageExample | crates/tune-model/src/msq.rs:259-268 | a concrete such array that is not listed although applying it changes a byte |
| MsqApply.EntrySettles | crates/tune-model/src/msq.rs:324-355 | right after an entry was applied it is listed exactly when, before, its index was too wide for a readable field or its string differed |
| MsqApply.ConstantsTouch | crates/tune-model/src/msq.rs:309-356 | applying a file, or the selected part of it, changes no bit outside the constants it selects |
| MsqApply.Apply | crates/tune-model/src/msq.rs:309-387 | the loops over constants and variables, with the filter, have the specified effect and report |
| MsqApply.ApplyThenDiff | crates/tune-model/src/msq.rs:309-387 | after a whole file was applied a selected entry is listed exactly when, before the call, its index was too wide for a readable field or its string differed |
| MsqApply.StringExample | crates/tune-model/src/msq.rs:279-292 | a concrete string that differs, is not written by applying, and stays listed |
| MsqApply.ApplyMakesDiffEmptyIff | crates/tune-model/src/msq.rs:203-387 | the diff of what was applied is empty if and only if no selected entry was of those two kinds before |
| MsqSave.DriftIff | crates/tune-model/src/msq.rs:400-408 | over all raw values and translates, saving six decimals and re-encoding is exact if and only if the scale exceeds a millionth in size |
| MsqSave.SmallScalesDrift | crates/tune-model/src/msq.rs:400-408 | at every smaller scale, a raw value and translate that drift |
| MsqSave.QuotedReadsBack | crates/tune-model/src/msq.rs:53-57 | quoted text reads back exactly when it does not end in a quote |
| MsqSave.BitsReadBackTheSame | crates/tune-model/src/msq.rs:181-197 | a saved label, or the number written for `INVALID` and unlisted indices, selects the same index again |
| MsqSave.QuoteIsLost | crates/tune-model/src/msq.rs:53-57 | a concrete label that ends in a quote and reads back without it |
| MsqSave.BytesAreSavedOnce | crates/tune-model/src/msq.rs:479-495 | no byte of a page is saved under two names, bit fields aside |
| MsqSave.Save | crates/tune-model/src/msq.rs:471-560 | the loops over pages and definitions write the specified entries |
| MsqSave.SaveThenDiff | crates/tune-model/src/msq.rs:411-560 | a tune compared with its own saved file has no differing entry and no unknown name, and nothing left uncompared exactly when scalar scales are not zero and arrays have two elements |
| MsqRestore.SaveThenApply | crates/tune-model/src/msq.rs:309-560 | applying a saved file to another tune of the same page sizes brings back every bit of every saved constant that is not a string, when each scale reads earlier constants only |
| MsqRestore.OneElementStays | crates/tune-model/src/msq.rs:58-65 | a saved array of one element is refused on applying |
| ScaleExpressions.ExpressionIgnores | crates/ts-ini/src/model.rs:16-27 | a scale given as an expression is steady as soon as the lookups it really makes are |
| ShutdownMonitor.Monitor.Observe | crates/server/src/comms.rs:256-279 | the answer is yes exactly at the first observation where, after an arming, an unbroken quiet stretch has lasted the delay |
| ShutdownMonitor.Watch | crates/server/src/comms.rs:246-279 | over a whole run each answer is that one, and at most one is yes |
| Bresenham.Display.DrawPixel | appliance/oled-configurator/ssd1306.c:103-114 | one pixel changes, off-screen points change nothing |
| Bresenham.Display.DrawLine | appliance/oled-configurator/ssd1306.c:135-147 | terminates and paints exactly the on-screen pixels of the line |
| Bresenham.NextStep | appliance/oled-configurator/ssd1306.c:143-145 | the two tests on the error term always move along the longer axis, and along the shorter one when rounding says so |
| Bresenham.EndsMeet | appliance/oled-configurator/ssd1306.c:141-142 | the line begins at the first end point and reaches the second at its last pixel, not before |
| Bresenham.WithinHalfAPixel | appliance/oled-configurator/ssd1306.c:140-146 | every position is within half a pixel of the ideal line along the shorter axis |
| Bresenham.LineSize | appliance/oled-configurator/ssd1306.c:140-146 | the line has exactly max(dx, dy) + 1 distinct positions |

## Left out

- Serial ports, termios, polling and deadlines: a reply arrives in arbitrary pieces, or a request fails.
- Replies that arrive after their timeout: the source does not resynchronise them; the step system has
  half-lost writes and lost checks as steps, and the convergence and burn theorems assume answered requests.
- Floating point: reals are used, so rounding of sums and products, not-a-number and infinities are absent.
  A non-finite engine speed is a separate reading.
- XML, JSON and UTF-8: `.msq` bodies are given as quoted text or lists of numbers, log lines as cells, and
  string constants are compared byte per character.
- The token scanner of expressions, and comment stripping and word splitting in the preprocessor: the
  models start from tokens and classified lines.
- Floating-point arithmetic and 64-bit operators inside `Expr::eval`: arithmetic is a parameter of `Eval`.
- The recursion from a scale expression through other constants' scales: it has no bound in the source, so
  scales are functions of the tune.
- Definitions that name a page that does not exist, or whose bit masks overflow 64 bits: the source panics there.
- MsqApply.EntrySettles: nothing is said of bit ranges that reach past their word; edits of such fields are modelled,
  cut to the word as in the source.
- TuneState.BitsReadBack: the same.
- TuneState.FieldIsKept: the same.
- Table views, axes and their metadata, output channels and telemetry: readers of the constants modelled here.
- What page commands achieve with templates that build other bytes than the firmware's, and downloads of pages
  above 64 KiB, whose offsets wrap: the loops are proved for them, their outcome is not characterised.
- Replies after the first one to a single request, which only a request hidden in a write's data can cause: the client
  drops them with its decoder here, where the source may leave them for the next request.
- Device requests it would crash on, such as a page read of 65535 bytes, and its och payload contents.
- `burned` after a download: the source sets it to the RAM image, and EEPROM is not read; the burn theorems
  therefore start from a state where `burned` matches EEPROM.
- Names, labels and units in log views and saved files, the file header, and saved `pcVariable` elements.
- Recordings that change or disappear while they are viewed, and the removal of caches whose recording is gone.
- HTTP and WebSocket handlers, pairing, the desktop shell, the user interface, Wi-Fi and OLED menus.
- INI section parsers, gauges, datalog formatting, configuration merging: long but easy members.
- The secondary serial protocol: a simpler twin of the envelope without a checksum.
- 32-bit overflow of line coordinates in the OLED driver.
