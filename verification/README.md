# Verified model of the state-bloat benchmark harness

A Dafny model of the parts of the benchmark harness that hold real algorithms or state
machines, with proofs of what they are for. One module per component:

| module | models |
|---|---|
| `Wrappers`, `Bytes` | optional values, byte strings, Python slices, big-endian integers |
| `Rlp`, `Canonical`, `Framing`, `Hex`, `Payload`, `Converter` | `scripts/rlp_to_mocks.py`: RLP decoder, record framing, DATA/QUANTITY hex, the ExecutionPayload object, the block-number peek and the slicing loop |
| `Records` | `src/mock_cl/payloads.py`: the JSONL loader |
| `Engine` | `src/mock_cl/engine.py`: version choice and the retry budget of one call |
| `Protocol`, `Account`, `Replay` | `src/mock_cl/drivers.py`: the replay driver, as a machine over calls and replies and as the code that follows it |
| `EndToEnd` | a stream converted, loaded and replayed |
| `Window` | `src/load_tests/locustfile.py`: pinning recent blocks on a node with a sliding band of state |
| `MountTable`, `Overlay` | `src/orchestrator/overlay.py`: overlay mounts over a snapshot, and finding them in `/proc/mounts` |
| `Sync` | `src/orchestrator/runner.py`: detecting that a sync is complete |

Verify everything with `dafny verify dfyconfig.toml`.

## How it is modelled

* **Decoder.** As lenient as the code: slices run short, lengths need not be minimal, and a
  list may end beyond its last item. Only an offset outside the input fails (`IndexError`).
* **Replay.** `Protocol.Step` says which call may come next and what is recorded after it;
  `Protocol.After` folds it over the calls made. Any other call is a `Violation`. The class
  `ReplayDriver` is the code; every method of it is proved to stay on that machine
  (`Tracks`) and to keep the latency file equal to the rows (`Saved`). What every run keeps
  is then proved about the machine; `Account` says it of the calls alone, without the machine's
  own functions. The execution client answers anything, or throws, and
  takes any time; a VALID forkchoice sets its head and a forkchoice that threw may have. A
  sleep lasts at least as long as asked. `blockHash` may be missing from a record; the next
  record is then taken for a first one, as in the code.
* **Engine call.** A post ends within its time limit, `sleep(1)` takes one second, and the
  clock moves only in the two.
* **Node.** It serves the last `band` blocks of a head that only grows, also during probes; a
  positive answer is true when given, a negative one may also be a failed request. A test
  starts with any refresh interval; a refresher round sleeps through it, so there it is not
  negative.
* **Overlay.** Files live at paths in one file system, so nothing keeps a wipe from the
  snapshot but the paths themselves; `..` is taken as the step up it is without symbolic
  links. Overlays stack on the merged directory; containers write whenever they can, also
  through an overlay that was detached lazily; every command can fail, and the tool can be
  killed during or after any of them. A mount is looked for in the text of `/proc/mounts`, as
  the kernel writes it and Python splits it.
* **Sync.** The loop runs over any finite prefix of the stream of polls.

## What the proofs turned up

* Decoding inverts encoding everywhere, but encoding gives back the bytes that were decoded
  exactly where these are canonical, which is a check of the bytes alone: payloads inside the
  input, each list ending with its last item, each prefix the shortest form
  (`Canonical.EncodesBackExactlyIfCanonical`, `Canonical.CanonicalExactlyIfEncoded`). The
  decoder takes more (`Canonical.AcceptsMoreThanEncodings`).
* `--count` is described as an upper bound, but a record is written before the count is
  looked at: the bound is kept exactly for counts of one or more, or for a count of zero where
  no record is wanted or the first one is malformed (`Converter.CountIsKeptExactlyIf`). A stream of one block
  and a count of zero give one record (`Converter.CountZeroWritesOne`).
* The kernel writes a space, tab, newline or backslash of a mount point in octal, and
  `is_mounted` compares that text with the path. With such a character, or any other
  whitespace, in the merged path the tool never sees its own mounts
  (`Overlay.MountIsSeenExactlyIf`, `Overlay.SpaceHidesTheMount`). A restore then skips the
  unmount and wipes under the live overlay, and `up` stacks a second one: no live mount is
  wiped, and one overlay is mounted, exactly where the tool sees its mounts or there was
  none before (`Overlay.Host.Restore`, `Overlay.Host.Up`). The snapshot is kept even so.
* The exit codes of `rm -rf` are ignored. If the wipe of upper succeeded, the one overlay
  mounted shows exactly the snapshot. Whatever a failed wipe leaves, it does so exactly if nothing in
  upper was harmful before: each entry what the snapshot has in its place, or a whiteout over
  nothing (`Overlay.FailedWipeShowsSnapshotExactlyIf`, `Overlay.StaleUpperShows`).
* Nothing checks that the scratch directories are apart from the snapshot; that is exactly
  what the wipes need (`Overlay.WipingSparesSnapshotExactlyIfDisjoint`), and
  `Overlay.DisjointExactlyIf` says it of the two paths. The default scratch directory grants
  it, for an overlay name without a slash, unless the snapshot is the root or carries that very
  name (`Overlay.DefaultScratchIsSafeExactlyIf`). A name with slashes can lead back to any
  snapshot (`Overlay.SlashedNameReachesSnapshot`).
* One restore takes at most six overlays off the stack: five tries and the lazy one.
* A window that is not cut back from a retention edge keeps no safety margin. It survives the
  margin exactly when the band is deeper than the request by that much
  (`Window.FullWindowOutlivesBandExactlyIf`), and the defaults can expire after one block
  (`Window.FullWindowCanExpireAtOnce`). The function's comment calls either window safe to pin.
* A window cut back from an edge is raised to one block if the margin does not fit into the
  depth found. It is sure to survive the margin exactly if it was not
  (`Window.EdgeWindowIsSafeExactlyIf`). A smallest window of two or more rules the other case
  out (`Window.EveryStateIsSafe`); with `min_pinned_window: 1` it can be pinned and expire
  (`Window.SmallEdgeWindowCanExpire`).
* At one block in twelve seconds the margin covers a refresh up to 84 seconds late, and no
  later (`Window.MarginCoversExactlyUpTo84`).
* A refresh interval below -120 seconds makes the margin so negative that a window cut back
  from an edge can reach below block zero. Such tags can be pinned exactly with such an
  interval, a requested window of two or more, and a smallest window that the widest one
  cut back reaches (`Window.TagsStayAboveZeroExactlyIf`).
* The budget of an engine call is not a hard one. A call of two seconds or more can give up
  at any moment from the end of its budget until two seconds later, and at none other; one of
  a second takes one second more at most (`Engine.GivesUpExactlyWithin`). A post itself stays
  within the budget exactly if at least a second was left when it began
  (`Engine.PostStaysInBudgetExactlyIf`).
* The payload latencies are those of the rows exactly unless a block is being polled, or one
  of its polls threw; then there is one more. A newPayload or a base forkchoice that throws
  leaves none
  (`Protocol.LatenciesMatchRowsExactlyIf`).
* "Consecutive" polls of the sync detector may have unreachable polls between them
  (`Sync.UnreachableDoesNotBreakTheRow`): these neither count nor reset
  (`Sync.CompleteIffStreak`). The last polls, as many as have to confirm, all do exactly if
  none of them was unreachable (`Sync.ConsecutiveExactlyIfReachable`).

## Model

| member | source | states |
|---|---|---|
| Rlp.DecodeAt | scripts/rlp_to_mocks.py:36-70 | every success moves strictly forward from an offset inside the input, whatever lengths are claimed |
| Rlp.Decode | scripts/rlp_to_mocks.py:36-70 | the recursive decoder with its two list loops terminates on all bytes and computes the decoding function |
| Rlp.ReadPrefix | scripts/rlp_to_mocks.py:41-65 | the five prefix cases give the payload's kind, start and claimed length |
| Rlp.DecodeList | scripts/rlp_to_mocks.py:56-70 | the list loop collects the items up to the claimed end, or fails with the first item that fails |
| Rlp.ByteStandsForItself | scripts/rlp_to_mocks.py:42-43 | a byte below 0x80 decodes to itself |
| Rlp.ShortStringRunsShort | scripts/rlp_to_mocks.py:44-47 | a short string is as long as its prefix says, or as what is there of it, and ends where it claims |
| Rlp.EndsWhereClaimed | scripts/rlp_to_mocks.py:42-60 | no string fails, and a short list ends where it claims even before the end of its last item |
| Rlp.ItemsFollowEachOther | scripts/rlp_to_mocks.py:56-60 | items of a list are decoded one after another, each from where the one before ended |
| Rlp.ListFailsExactlyIf | scripts/rlp_to_mocks.py:56-60 | a list fails exactly if an item of it fails or would begin beyond the input |
| Rlp.HeaderRoundTrip | tests/unit/test_rlp_to_mocks.py:15-19 | a written header, short or long, reads back as its kind, length and end |
| Rlp.DecodeInvertsEncode | scripts/rlp_to_mocks.py:36-70 | wherever an encoding occurs, decoding there returns the tree and the offset just past it |
| Rlp.DecodeItemsInvertsEncodeItems | scripts/rlp_to_mocks.py:56-70 | the list loop over encoded items returns exactly those items |
| Rlp.RoundTrip | tests/unit/test_rlp_to_mocks.py:15-30 | decode inverts encode with any prefix before and any suffix after, for all trees with lengths below 2^64 |
| Rlp.PrefixFree | tests/unit/test_rlp_to_mocks.py:15-30 | the encoding is injective and no encoding is a proper prefix of another |
| Canonical.EncodingIsCanonical | tests/unit/test_rlp_to_mocks.py:15-30 | wherever an encoding occurs the bytes are canonical up to its end |
| Canonical.CanonicalIsEncoding | scripts/rlp_to_mocks.py:36-70 | canonical bytes decode, and the encoding of the result is those bytes |
| Canonical.CanonicalExactlyIfEncoded | scripts/rlp_to_mocks.py:36-70 | some tree's encoding stands at an offset exactly if the bytes there are canonical |
| Canonical.EncodesBackExactlyIfCanonical | scripts/rlp_to_mocks.py:36-70 | encoding what was decoded gives back the bytes read exactly if these are canonical |
| Canonical.SoundHeaderIsWritten | tests/unit/test_rlp_to_mocks.py:15-19 | a header without leading zeros or a needless long form is the one an encoder writes |
| Canonical.AcceptsMoreThanEncodings | scripts/rlp_to_mocks.py:44-52 | two inputs decode that no encoder writes: a length that is not minimal, a string that runs short |
| Framing.IterRecords | scripts/rlp_to_mocks.py:73-85 | the in-memory reader yields the bodies of the stream and fails as it should |
| Framing.RecordFile.Read | scripts/rlp_to_mocks.py:96-102 | a read returns at most that many bytes, fewer only at the end, and moves past them |
| Framing.RecordFile.NextBody | scripts/rlp_to_mocks.py:95-105 | one step of the streaming reader takes exactly one record off the stream, or says how it ends |
| Framing.IterRecordBodies | scripts/rlp_to_mocks.py:88-105 | the streaming reader yields the same bodies and failures as the in-memory one, for every byte string |
| Framing.SplitJoin | scripts/rlp_to_mocks.py:73-105 | length-prefixed bodies shorter than 2^32 read back exactly, whatever follows |
| Framing.JoinSplit | scripts/rlp_to_mocks.py:73-105 | every stream is the frames of the reported bodies, then an incomplete record that explains the error |
| Framing.SplitUnique | scripts/rlp_to_mocks.py:73-105 | that reading of a stream is the only one |
| Hex.QtyRoundTrip | scripts/rlp_to_mocks.py:129-132 | a QUANTITY parses back to its number and has no leading zero; zero is 0x0 |
| Hex.QtyInjective | scripts/rlp_to_mocks.py:129-132 | two numbers share a QUANTITY exactly when equal |
| Hex.DataInjective | scripts/rlp_to_mocks.py:124-126 | two byte strings share a DATA form exactly when equal, leading zeros included |
| Hex.DataReadsBack | scripts/rlp_to_mocks.py:124-126 | each byte of a DATA form reads back from its own two digits |
| Hex.WrittenInLowerCase | scripts/rlp_to_mocks.py:124-132 | both forms use the sixteen lower-case digits only |
| Hex.ReadsEitherCase | src/mock_cl/payloads.py:43 | hex is read in either case, with or without a prefix, and never without digits |
| Payload.PayloadFromRlp | scripts/rlp_to_mocks.py:167-179 | the loop fills the object as specified and raises the first field's error |
| Payload.FieldsByName | scripts/rlp_to_mocks.py:136-176 | each of the fifteen scalar keys, by name, holds the DATA or the QUANTITY of its own numbered field |
| Payload.PayloadAt | scripts/rlp_to_mocks.py:136-176 | under each scalar key stands the encoding of its own field of the list, by the table of fields |
| Payload.ObjectExactlyIfPayload | scripts/rlp_to_mocks.py:167-179 | a decoded body becomes an object exactly if it has seventeen fields of the right kinds; fewer, or none, are a ValueError |
| Payload.ScalarsExactlyIf | scripts/rlp_to_mocks.py:174-176 | the first scalar field of the wrong kind decides the error |
| Payload.ListErrors | scripts/rlp_to_mocks.py:177-178 | what the two lists raise, transactions first |
| Payload.WithdrawalExactlyIf | scripts/rlp_to_mocks.py:156-164 | a withdrawal is written exactly if it has four fields of the right kinds, and otherwise raises as its shape says |
| Payload.PayloadLists | scripts/rlp_to_mocks.py:167-179 | all seventeen keys are there, the lists from fields 13 and 14 |
| Payload.TransactionAt | scripts/rlp_to_mocks.py:177 | transactions keep their number and order, each as DATA of its bytes |
| Payload.WithdrawalAt | scripts/rlp_to_mocks.py:156-178 | withdrawals keep their number and order, each with its four fields in their places |
| Payload.EncodedInjective | scripts/rlp_to_mocks.py:124-132 | encoded fields are equal exactly when the bytes (DATA) or the numbers (QUANTITY) are |
| Payload.TransactionsInjective | scripts/rlp_to_mocks.py:177 | two transaction lists are written alike exactly when byte-equal |
| Payload.WithdrawalInjective | scripts/rlp_to_mocks.py:156-164 | two withdrawals are written alike exactly when addresses are byte-equal and the three numbers equal |
| Payload.WithdrawalsInjective | scripts/rlp_to_mocks.py:156-178 | the same for lists of withdrawals |
| Payload.Lossless | scripts/rlp_to_mocks.py:167-179 | two lists give the same object exactly when DATA fields, transactions and addresses are byte-equal and QUANTITY fields equal as numbers |
| Converter.PeekBlockNumber | scripts/rlp_to_mocks.py:108-119 | the loop over seven items computes the peek, errors included |
| Converter.PeekIsSeventhItem | scripts/rlp_to_mocks.py:108-119 | on every body whose full decode has seven items the peek is the seventh read as a number |
| Converter.PeekIsEmitted | scripts/rlp_to_mocks.py:108-132 | on every well-formed body the peek equals the number read back from the emitted blockNumber, non-minimal lengths included |
| Converter.ConvertBody | scripts/rlp_to_mocks.py:205-218 | one body is skipped, written or raised on, as the step function says |
| Converter.ReadStep | scripts/rlp_to_mocks.py:204-208 | each round consumes exactly one body of the stream |
| Converter.Convert | scripts/rlp_to_mocks.py:189-224 | the loop writes what the fold over the stream's steps says and returns the first and last number written |
| Converter.CollectSelected | scripts/rlp_to_mocks.py:189-224 | for all bodies, well formed or not, the fold is filter, take, decode in full, up to the first malformed one chosen |
| Converter.SlicingRefinesFullDecode | scripts/rlp_to_mocks.py:189-224 | a slice of any stream is the full decodes of the first `count` bodies from `start_block` on; it raises exactly if one of these is malformed |
| Converter.SkippedByEmittedNumber | scripts/rlp_to_mocks.py:192-206 | a well-formed body is skipped exactly if the number it would be written with is below `start_block` |
| Converter.PeekDecidesFirst | scripts/rlp_to_mocks.py:205-208 | with a start block a body with too few fields is skipped or fails by its number, without one by its fields |
| Converter.HowManyAreWritten | scripts/rlp_to_mocks.py:204-224 | of sound bodies from the start on, the first `count` are written, or all, and the end says which |
| Converter.CountIsKeptExactlyIf | scripts/rlp_to_mocks.py:221-223 | a conversion writes at most `count` records exactly if count is at least one, or zero with no sound record first |
| Converter.CountZeroWritesOne | scripts/rlp_to_mocks.py:217-223 | a stream of one block converted with a count of zero gives one record |
| Converter.EncodedConverts | scripts/rlp_to_mocks.py:207-208 | the full decode of an encoded tree gives the payload of that tree |
| Converter.EncodedStreamConverts | scripts/rlp_to_mocks.py:189-224 | the framed encodings of convertible trees convert to exactly their payloads, in order and without an error |
| Converter.SliceIsContiguous | scripts/rlp_to_mocks.py:192-197 | a slice of a stream that reads as consecutively numbered is a gapless range from the first wanted block |
| Records.LoadsLineByLine | src/mock_cl/payloads.py:46-78 | lines that load yield their records, one each and in order |
| Records.BlankLinesAreSkipped | src/mock_cl/payloads.py:56-58 | blank lines make no difference, wherever they are |
| Records.BadLineEndsStream | src/mock_cl/payloads.py:59-65 | a line that does not load ends the stream with its error, after the records before it |
| Records.LineLoadsExactlyIf | src/mock_cl/payloads.py:37-65 | a line loads exactly if it has an object for a payload whose block number, if any, is a number |
| Records.MissingValues | src/mock_cl/payloads.py:37-40 | a missing root becomes 64 zeros, a missing number -1, and the rest stays missing |
| Engine.ForkTellsPragueFromCancun | src/mock_cl/engine.py:134-152 | the fork decides V3 or V4 for payloads of one shape; without it only the execution requests do |
| Engine.RecordIsSentAs | src/mock_cl/engine.py:145-166 | a record is sent as the version forced, stamped, of its fork or of its shape, in this order, with every argument in its place |
| Engine.EngineClient.Rpc | src/mock_cl/engine.py:45-104 | a call's posts are timely attempts at one request, all but the last retried, and it ends as the last one says or over budget |
| Engine.RetryBudget | src/mock_cl/engine.py:61-104 | at most `timeout` attempts, none begun with the budget spent, less than two seconds beyond it |
| Engine.CallDuration | src/mock_cl/engine.py:54-56 | every call ends within its budget plus two seconds, and gives up only after the budget |
| Engine.PostStaysInBudgetExactlyIf | src/mock_cl/engine.py:70-80 | a post cannot outrun the budget exactly if at least a second was left of it |
| Engine.GivesUpExactlyWithin | src/mock_cl/engine.py:54-88 | the moments at which a call can give up are those from the end of its budget until two seconds later |
| Engine.EndsAsLastPostSays | src/mock_cl/engine.py:76-104 | a call ends as its last post says, and goes on after a post exactly if that had no answer in time or code -32002 within the budget |
| Engine.ServerTimeoutIsRetried | src/mock_cl/engine.py:94-103 | code -32002 is raised only with the budget spent |
| Engine.ReturnsOnlyCleanResults | src/mock_cl/engine.py:76-104 | a call returns a value exactly if its last post got it from an HTTP 200 response without an error, all posts before it retried |
| Protocol.StepSends | src/mock_cl/drivers.py:163-214 | one allowed step sends the payload that is due, or none |
| Protocol.PayloadsInOrder | src/mock_cl/drivers.py:163-214 | in every run the payloads sent are those of the records so far, each once and in order, all chained |
| Protocol.PrefixClean | src/mock_cl/drivers.py:163-288 | a run on the protocol was on it all along |
| Protocol.StepTracksHead | src/mock_cl/drivers.py:173-275 | one step keeps the client's head where the phase says and moves it only by a forkchoice to the record or its base |
| Protocol.HeadIsTracked | src/mock_cl/drivers.py:241-275 | for every client, the head in each phase is the record's parent, or the record once it landed |
| Protocol.PayloadSentOnItsParent | src/mock_cl/drivers.py:241-255 | whenever a payload is sent, it is the next record's and the client's head is its parent |
| Protocol.HeadMovesOneRecord | src/mock_cl/drivers.py:182-255 | every move of the head is from a record's parent to that record, or the base move of a first record |
| Protocol.HeadIsLeftAlone | src/mock_cl/drivers.py:179-181 | with the head not advancing only payloads are sent and the head never moves |
| Protocol.StepKeepsBooks | src/mock_cl/drivers.py:214-288 | one step keeps rows and latencies consistent |
| Protocol.BooksBalance | src/mock_cl/drivers.py:157-288 | in every run rows are in record order, only the last can be a failure, and the latency lists are what the rows show, but for at most one payload latency, which the next row settles |
| Protocol.LatenciesMatchRowsExactlyIf | src/mock_cl/drivers.py:205-288 | the payload latencies are those of the rows exactly unless a block is polled or its forkchoice threw, and then one more |
| Protocol.PollingState | src/mock_cl/drivers.py:247-268 | during polling, the accepted payload was followed by undecided forkchoices to its hash only, two seconds apart |
| Protocol.PollsAreBounded | src/mock_cl/drivers.py:247-268 | a block takes at least one and at most floor(wait/2)+2 polls, however they end |
| Protocol.BlockShape | src/mock_cl/drivers.py:242-275 | a finished block is an accepted payload and forkchoices to its hash, the last VALID and all before undecided |
| Protocol.HaltsOnlyOnRefusal | src/mock_cl/drivers.py:184-267 | a run halts only at a call that was refused: neither VALID nor an accepted payload |
| Account.HaltsExactlyIf | src/mock_cl/drivers.py:184-267 | a run halts exactly at a call that threw, a payload or base refused, a poll INVALID, or one undecided with the wait over; otherwise it goes on |
| Account.HaltIsExplained | src/mock_cl/drivers.py:184-267 | the failure raised says which of these it was; a block is given up on only after the wait |
| Account.RowsTellTheCalls | src/mock_cl/drivers.py:205-288 | every row of every run tells the times and replies of its record's own payload and of the poll that settled it, with only undecided polls between |
| Account.StepSettles | src/mock_cl/drivers.py:216-288 | the row one call adds settles the payload that was pending |
| Account.PollsKeepTime | src/mock_cl/drivers.py:247-268 | the first poll is made at once, every other at least two seconds after the one before |
| Account.ChainedByHash | src/mock_cl/drivers.py:173-195 | a record must name the block hash before it as its parent, and is a first record if there is none |
| Replay.CsvFile.Replace | src/mock_cl/drivers.py:311-318 | the file gets all rows in one step: after each step of writing a reader finds the old content or the whole new one |
| Replay.ReplayDriver.MaybeWriteCsv | src/mock_cl/drivers.py:305-318 | the file becomes the rows so far, or stays as it is without a path |
| Replay.EveryVersionIsAPrefix | src/mock_cl/drivers.py:286-288 | each version of the file is the rows up to some row, in order |
| Replay.ReplayDriver.CheckBase | src/mock_cl/drivers.py:181-189 | the base forkchoice goes to the first parent; the replay goes on exactly on VALID |
| Replay.ReplayDriver.CheckChain | src/mock_cl/drivers.py:173-194 | a record passes exactly if it is a first record with a known base or its parent hash is the previous block hash |
| Replay.ReplayDriver.SendPayload | src/mock_cl/drivers.py:205-237 | one newPayload with the record's parameters; refusals add the failure row before raising |
| Replay.ReplayDriver.PollOnce | src/mock_cl/drivers.py:249-288 | one poll lands the block, fails it with its row, or leaves it polled within the deadline |
| Replay.ReplayDriver.AwaitHead | src/mock_cl/drivers.py:241-288 | the poll loop terminates, with the block landed or the run halted |
| Replay.ReplayDriver.ReplayRecord | src/mock_cl/drivers.py:200-288 | a chained record is finished with its row, or raises what its phase explains |
| Replay.ReplayDriver.ReplayNext | src/mock_cl/drivers.py:169-288 | one round of the loop, from chain check to row |
| Replay.ReplayDriver.Run | src/mock_cl/drivers.py:155-303 | every run follows the protocol, ends for a stated reason, leaves the file versions of its rows, and never shows a reader part of one |
| EndToEnd.NormalEnd | src/mock_cl/drivers.py:163-303 | after a normal end every wanted record was sent once and landed with its own row, and the head is the last of them |
| EndToEnd.GapStopsTheReplay | src/mock_cl/drivers.py:190-194 | a chain gap is raised only at the first broken link, with a row and a payload for each record before it |
| EndToEnd.GapIsFound | src/mock_cl/drivers.py:190-194 | for a client that refuses nothing and supported versions, the first broken link within reach is raised, with just the rows and payloads before it |
| EndToEnd.GapExactlyIfUnchained | src/mock_cl/drivers.py:163-194 | for these the replay ends normally exactly if all wanted records are chained, and with a gap otherwise |
| EndToEnd.LoadedRecord | src/mock_cl/payloads.py:63-78 | a written body loads as the record with its hashes, number, payload and stamps |
| EndToEnd.ConvertedRecordIsSentAsStamped | src/mock_cl/engine.py:155-166 | a converted record stamped version 4 is sent as V4 with its own payload and the stamped extras |
| EndToEnd.LinkIsByteEquality | src/mock_cl/drivers.py:190 | the textual link between converted records holds exactly when the parentHash bytes equal the blockHash bytes |
| EndToEnd.ConvertedStreamLoads | src/mock_cl/payloads.py:46-78 | a converted slice loads without error, record for body |
| EndToEnd.GapsAgree | src/mock_cl/drivers.py:173-194 | the first gap among the records is the first gap among the bytes |
| EndToEnd.EndToEnd | src/mock_cl/drivers.py:155-194 | over converter, loader and replay, any client: a gap is raised only at the first byte-level gap, with exactly the rows and payloads before it |
| EndToEnd.EndToEndExactly | src/mock_cl/drivers.py:155-194 | with a supported stamp and a client that refuses nothing, the replay ends normally exactly if the bodies are linked byte for byte, and at the first gap otherwise |
| EndToEnd.ReplayStream | src/mock_cl/drivers.py:155-303 | converter, loader and driver run one after another: the driver's rows, the client's calls and the end are as the byte links say |
| EndToEnd.LinksAgree | src/mock_cl/drivers.py:173-194 | all wanted records are chained exactly if all wanted bodies are linked byte for byte |
| EndToEnd.StampedVersionsSupported | src/mock_cl/drivers.py:200-204 | records converted with a supported stamp all have a newPayload version |
| EndToEnd.VersionIsSupported | src/mock_cl/engine.py:155-164 | the version error is raised exactly for a resolved version outside 1 to 4 |
| Window.ProbeStateDepth | src/load_tests/locustfile.py:144-162 | on a moving node: the depth found was served when probed and the next one refused; 1 + ceil(log2) probes, none below block 0 |
| Window.BisectIsExact | src/load_tests/locustfile.py:144-162 | if availability is downward closed and holds at the head, the result is the deepest served depth up to the cap |
| Window.BisectFindsBand | src/load_tests/locustfile.py:144-162 | on a node that stands still and answers, the result is the last block of the band, or the cap |
| Window.CeilLog2Exact | src/load_tests/locustfile.py:156-161 | the probe bound is the rounded-up base-two logarithm |
| Window.ComputeBlockWindow | src/load_tests/locustfile.py:180-194 | window, depth and edge flag fit the probes made |
| Window.ServedExactlyWhile | src/load_tests/locustfile.py:174-194 | a window of pinned blocks is served whole exactly until the head has moved by band minus window |
| Window.EdgeWindowOutlivesBand | src/load_tests/locustfile.py:174-194 | a window cut back from an edge is served whole while the head is within the margin of where it was at the probe |
| Window.EdgeWindowIsSafeExactlyIf | src/load_tests/locustfile.py:190-194 | every band the probe allows keeps the cut-back window through the margin exactly if the margin fits into the depth |
| Window.SmallEdgeWindowCanExpire | src/load_tests/locustfile.py:191-194 | with a smallest window of one, a window raised to one block is pinned and expires within the margin |
| Window.FullWindowOutlivesBandExactlyIf | src/load_tests/locustfile.py:191-193 | a full window survives every move within the margin exactly when the band is that much deeper |
| Window.FullWindowCanExpireAtOnce | src/load_tests/locustfile.py:191-193 | with the defaults a node can drop a pinned block one block later |
| Window.MarginCoversExactlyUpTo84 | src/load_tests/locustfile.py:174-177 | at a block in twelve seconds the margin lasts until a late refresh, for every interval, exactly up to 84 seconds |
| Window.WindowLastsUntilRefresh | src/load_tests/locustfile.py:174-194 | so a cut-back window is served whole until such a refresh |
| Window.LoadTest.Pin | src/load_tests/locustfile.py:221-229 | the computed window is pinned, or `latest` exactly when an edge leaves too few blocks |
| Window.LoadTest.PinAtStart | src/load_tests/locustfile.py:363-377 | the same at a head just served, where the tags always rest on a successful probe |
| Window.DefaultsPinFromDepth17 | src/load_tests/locustfile.py:221-229 | by default an edge at depth 16 leaves `latest`, one at 17 eight tags down from the head |
| Window.LoadTest.OnTestStart | src/load_tests/locustfile.py:327-381 | by the node's answers: head unknown, aborted exactly if `latest` is not served, `latest` exactly if the head is not served by number, pinned otherwise |
| Window.LoadTest.RefresherTick | src/load_tests/locustfile.py:213-231 | a round asks for the head once and re-pins there; one unanswered, or one at `latest`, keeps the tags and probes nothing |
| Window.EveryStateIsSafe | src/load_tests/locustfile.py:180-381 | in every reachable state the tags are `latest` or, where the configuration allows no others, a descending run above zero; a window cut back by the margin stays served within it, as all are if the smallest window is two |
| Window.TagsStayAboveZeroExactlyIf | src/load_tests/locustfile.py:176-194 | on no node can the tags pinned reach below block zero, exactly if the interval is at least -120, the requested window below two, or the smallest window out of reach of a cut-back one |
| Window.LatestIsForever | src/load_tests/locustfile.py:200-210 | once the tag is `latest`, no refresher round leaves it |
| MountTable.EntryIsFoundExactlyIf | src/orchestrator/overlay.py:144-156 | a mounted overlay's line is recognised exactly if name and path come out of the table as the words they are |
| MountTable.PlainNameLeavesItToTarget | src/orchestrator/overlay.py:148-152 | with a name of one word, exactly if the path has no whitespace and no backslash |
| Overlay.Host.IsMounted | src/orchestrator/overlay.py:144-156 | the search of the mount table finds the overlay exactly if it is mounted and its line is recognised |
| Overlay.MountIsSeenExactlyIf | src/orchestrator/overlay.py:144-156 | with such a name the tool sees its mounts exactly if the merged path is plain text |
| Overlay.SpaceHidesTheMount | src/orchestrator/overlay.py:144-156 | a space, tab, line end, backslash or wide space in any part of the scratch path hides them |
| Overlay.Host.UmountWithRetry | src/orchestrator/overlay.py:164-189 | it returns only with nothing mounted that it sees, raises only still mounted after every try, and issues no other command |
| Overlay.Host.Wipe | src/orchestrator/overlay.py:203-204 | the three wipes in order, each whatever the one before reported |
| Overlay.CommandsByName | src/orchestrator/overlay.py:66-76 | the directories wiped and made are merged, upper and work, by name and in order |
| Overlay.Host.Restore | src/orchestrator/overlay.py:192-204 | five plain unmounts come before a lazy one, none with nothing mounted; on return all three wipes were issued, and no live mount was wiped exactly if the tool sees its mounts or there were none; on raising, nothing was wiped |
| Overlay.Host.PrepareDirs | src/orchestrator/overlay.py:207-211 | the six commands in order, stopping with the first that fails |
| Overlay.Host.MountFresh | src/orchestrator/overlay.py:220-221 | exactly one more overlay, over an upper with nothing new in it if nobody was there to write |
| Overlay.Host.Up | src/orchestrator/overlay.py:214-222 | on return one overlay is mounted exactly if the tool sees its mounts or there were none, after a whole restore; it shows the snapshot if upper was wiped or harmless |
| Overlay.Host.Down | src/orchestrator/overlay.py:225-228 | on return the scratch directories were wiped, and nothing is mounted exactly if the tool sees its mounts or there were none |
| Overlay.EveryHistoryIsSafe | src/orchestrator/overlay.py:164-228 | over any history with crashes and container writes the snapshot is unchanged, and where the tool sees its mounts no wipe met a live one |
| Overlay.LowerIsKept | src/orchestrator/overlay.py:57-76 | what stays within the scratch directories leaves a disjoint snapshot unchanged |
| Overlay.WipingSparesSnapshotExactlyIfDisjoint | src/orchestrator/overlay.py:203-204 | the wipes spare the snapshot in every file system exactly when it is disjoint from the scratch directories |
| Overlay.DisjointExactlyIf | src/orchestrator/overlay.py:66-76 | disjoint exactly if the snapshot is neither at or above scratch nor in one of its three directories |
| Overlay.DefaultScratchIsSafeExactlyIf | src/orchestrator/overlay.py:99-105 | for a name without a slash, the default scratch directory is disjoint exactly when the snapshot is not the root nor named like it |
| Overlay.SlashedNameReachesSnapshot | src/orchestrator/overlay.py:97-105 | every snapshot has names with slashes whose default scratch directory is the snapshot |
| Overlay.WalkStays | src/orchestrator/overlay.py:105 | empty steps and dots lead nowhere, nor does a step up from the root |
| Overlay.EmptyUpperShowsSnapshot | src/orchestrator/overlay.py:192-228 | through an overlay with an empty upper one sees exactly the snapshot |
| Overlay.FailedWipeShowsSnapshotExactlyIf | src/orchestrator/overlay.py:203-204 | whatever a wipe leaves of upper, the overlay shows the snapshot exactly if nothing harmful was in upper |
| Overlay.HarmlessShowsSnapshot | src/orchestrator/overlay.py:203-221 | what is left of a harmless upper shows exactly the snapshot |
| Overlay.StaleUpperShows | src/orchestrator/overlay.py:203-204 | a file in upper that is not the snapshot's own shows after some failed wipe |
| Overlay.SealHolds | src/orchestrator/overlay.py:192-211 | containers put nothing into upper while nothing is mounted or detached |
| Sync.MeasureSyncTime | src/orchestrator/runner.py:388-446 | it completes at the first poll that is complete, times out at the first capped poll before, and has no time exactly without a syncing poll |
| Sync.CompleteIffStreak | src/orchestrator/runner.py:411-420 | the counter reaches its threshold exactly when enough polls confirm with no reset between, unreachable ones aside |
| Sync.ConsecutiveExactlyIfReachable | src/orchestrator/runner.py:392-420 | a complete sync took as many polls as must confirm, and the last of these all confirm exactly if none was unreachable |
| Sync.UnreachableDoesNotBreakTheRow | src/orchestrator/runner.py:392-393 | a confirmation, an unreachable poll and a confirmation complete a sync that needs two consecutive ones |
| Sync.SyncingOrStaleBreaksTheRow | src/orchestrator/runner.py:411-420 | a syncing poll or a stale head between confirmations starts the count anew |
| Sync.HeadCountsFromPivotMinus32 | src/orchestrator/runner.py:370-372 | with a pivot a head counts from exactly 32 below it |
| Sync.HeadCountsWhileFresh | src/orchestrator/runner.py:342-350 | in a live sync a head counts above zero and exactly while younger than the bound |
| Sync.HeadCountsAfterSyncing | src/orchestrator/runner.py:364-385 | in the frozen modes a head counts above zero and once the node was seen syncing; without a readable number it never does |
| Sync.CapCountsFromItsSecond | src/orchestrator/runner.py:428 | the cap is reached from its very second on, and never if zero |
| Sync.StreakIsReached | src/orchestrator/runner.py:411-420 | the counter's value is the confirmations of some stretch without a reset |
| Sync.StreakIsMost | src/orchestrator/runner.py:411-420 | no stretch without a reset that ends here has more |
| Sync.MeasurementIsUnique | src/orchestrator/runner.py:388-446 | the polls determine how and when the measurement ends |
| Sync.FrozenModesAreMeasured | src/orchestrator/runner.py:370-385 | in mode none, or mock without a pivot number, a completed measurement always has a time |
| Sync.ConfirmationsTakePolls | src/orchestrator/runner.py:394-396 | a stretch confirms no more often than it has polls |

## Left out

- HTTP, JSON text, YAML, CSV text, command lines, logging and signals: inputs, replies or record sequences.
- JWT tokens and `engine_exchangeCapabilities`: nothing of their own to prove.
- The safe, finalized and version parameters of forkchoice calls, which the driver never sets.
- Trimming and lower-casing of fork names: `Engine.VersionForFork` takes them as already so written.
- Values of other JSON types under `blockHash`, `parentHash` or an optional key of a record.
- The percentiles of the replay summary, `PivotDriver`, `record_from_el` and the block-to-payload mapping.
- Records.LoadsLineByLine: block numbers are read as hex digits of either case, prefixed or not; signs, blanks, underscores and non-ASCII digits, which `int(raw, 16)` also takes, are a `ValueError` here.
- The text of the mount options: overlayfs reads a colon in the snapshot path as a layer separator and a comma as the next option; paths are taken to hold neither.
- Python's recursion limit on deeply nested lists.
- A conversion that is killed: one that ends or raises has all its lines on disk, as `Converter.Conversion` says.
- Replay.ReplayDriver.Run: `stop_event` is a record index before which it is first found set, and a loader error surfaces when the next record is fetched.
- Sync.MeasureSyncTime: runs over a finite prefix of the unbounded stream of polls, and says `Pending` when that is used up; the one-time warning is not modelled.
- Engine.EngineClient.Rpc: a post that outlives its time limit is not modelled, as `requests` limits each read and not the whole exchange.
- Directory entries, opaque directories and redirects of overlayfs: files and whiteouts only. Mounts other than this tool's overlays, hosts without `/proc/mounts`, and an overlay name with a carriage return, at which Python's text mode ends the line.
- Symbolic links: the scratch and snapshot paths are taken as resolved.
- Two instances of the tool on the same scratch directory.
- Threads: the refresher's rounds are steps between those of the node. The Locust tasks, the gas sender and the proof file.
- Rounding of floating-point times: they are reals.
- The metrics aggregator, docker, ssh and compose wiring, shell scripts and dashboards.
