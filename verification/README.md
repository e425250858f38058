# Verified model of the spy capture pipeline

This project models the parts of rootcell that turn captured provider traffic into stored calls, and
proves what they promise. It also covers two self-contained pieces of the host CLI.

* **Wire decoders.** The AWS event-stream decoder with its CRC-32, the protobuf wire decoder, the Connect
  envelope parser, the canonical JSON printer and the scanner that finds JSON objects in text. Each loop of
  the program is a method proved equal to a specification; about the specification we prove round trips in
  both directions, unique readability, the exact grammar of what is accepted, and that any single changed byte
  of an event stream is noticed. Printed JSON is read back by an independent reader of RFC 8259.
* **The streaming block assembler.** The two Bedrock normalizers turn interleaved deltas into blocks. The
  class `Assembler` keeps the program's builders, finalized set and ordinal counter, and is proved equal to
  a reference that filters the events of one index and concatenates their pieces; the whole output is then
  stated block by block and field by field, over the events and over what a sender of either format says.
* **Spool to store.** The shim's size-bounded spool and its drop markers, the batch ingester, the tables
  with their triggers and cascades, replay of responses, chunk reassembly, retention, clearing, paging and
  schema upgrades. `SpyTables` says what each statement does; `SpyStore.Store` does it in place and is
  proved equal; `SpyEvents` states when a file is stored, and each row and column afterwards. The theorems are
  about whole runs: invariants, conservation of drops, accounting, progress for every batch size, and that
  draining the spool gives each call what its own flow gives alone, in any order, with duplicated responses,
  and with error events wherever these make no difference.
* **Cooperative concurrency.** `mapWithConcurrency` and the background token counts, over every
  interleaving of their workers between awaits.
* **Host CLI.** The /24 subnet allocator with the IPv4 text conversion it relies on, and the remote command
  quoter, against POSIX word splitting.

Strings of the program are sequences of UTF-16 code units where their content matters (`Ordering.Text`),
bytes are a number type below 256, 32-bit arithmetic is written out, and an exception is an `Err` or `None`.
Hashes, base64, UTF-8, gunzip, `JSON.parse`, the text heuristics and the provider adapters are parameters.

Results that are not as one may expect, stated exactly:

* A block holds all pieces of its index if and only if none of them comes after the first stop that
  follows a touch of it (`FilterThenConcatenate`; a stream that loses a delta is in `LateDeltaIsLost`).
* After a rejected token count the handler frees the keys of the whole job. That is harmless exactly when
  none of them is in use at that moment, being counted or still to be counted, in this job or in another
  that has taken it since (`HandlerHarmlessIff`; an example run is in `RejectionFreesBusyKey`).
* The subnet pool check looks at its two ends only. A pool is safe, whatever is recorded already, exactly
  when both lie in one private block (`PoolSafeIffOneBlock`). Otherwise a public network may be recorded,
  and no call succeeds after that (`CreateOutside`; a pool that does so is in `StrandedByWidePool`).
* If all files of a full batch are deferred or fail, every file behind them is blocked for good, whatever
  arrives; if one of them leaves, the others move forward (`BlockedIffAllStay`).
* Hopeless files, which their own flow cannot store, keep their places in a batch. With each request before the
  other events of its flow, batches of any limit store all that can be stored exactly when none of the other
  files has `limit` hopeless ones before it (`LimitedDrainSettlesIff`).
* An error event does not commute with its request, unless the call is recorded already, nor with its
  response, unless that is an error of the same time and flow (`ErrorRequestCommuteIff`, `ErrorCommutesIff`;
  inputs in `EarlyErrorIsLost` and `ErrorOrderMatters`). Where in a run it makes no difference is stated in
  `AnywhereAlikeIff`, `FlowAnywhereIff` and `ErrorHarmlessIff`.
* A response that comes again at any moment of a drain changes no table, and is ingested exactly when the
  request blocks it adds are marked as derived (`ReplayInDrain`). After an error event or a chunk that came
  in between it can change them (`ReplayAfterErrorIff`, `ReplayAfterChunkIff`; inputs in
  `ReplayAfterErrorChanges` and `ReplayAfterChunkChanges`).
* A header value that breaks off at the end of its block is accepted as what there is of it, for binary, text
  and uuid values; everything else the event-stream decoder accepts is a run of whole frames (`HeadersIff`,
  `DecodesIff`).
* The two Bedrock formats give the same blocks for the same stream, if and only if it holds no event unknown to
  the normalizers: Converse drops it, Anthropic Messages shows it (`FormatsAssembleAlikeIff`).
* An upgrade never repairs an index entry that is wrong or stale (`UpgradeAgreesIff`).
* A first word of the form `NAME=value`, or one the shell reserves, is not run as a command, unless there is
  an environment (`FirstWordRunsIff`).
* Two flow ids can have one call id (`FlowsShareCallIds`).

## Model

| member | source | states |
|---|---|---|
| Checksum.BuildTable | src/spy/eventstream.ts:123-130 | the nested loops leave, at every index, that byte shifted eight times by the bitwise CRC rule |
| Checksum.Crc32 | src/spy/eventstream.ts:132-138 | the table-driven loop computes the bit-at-a-time CRC-32 (section 8 of RFC 1952) of every byte string |
| Checksum.TableStep | src/spy/eventstream.ts:132-138 | one table lookup and one byte shift of the register are worth eight single-bit steps |
| Checksum.FeedInjective | src/spy/eventstream.ts:132-138 | equal registers after a byte came from equal registers exactly when the bytes were equal |
| Checksum.FeedBijective | src/spy/eventstream.ts:132-138 | for each byte, every register value is reached from exactly one register, which is given |
| Checksum.ChangedByteChangesCrc | src/spy/eventstream.ts:132-138 | two buffers that differ in one byte never have the same checksum |
| Checksum.ShiftIs | src/spy/eventstream.ts:123-130 | every shift follows from halving an even register and from the one value 0xEDB88320 of a lone low bit |
| Checksum.KnownAnswers | src/spy/eventstream.ts:132-138 | the checksums of no bytes, of 0xFF and of two such bytes are 0, 0xFF000000 and 0xFFFF0000 |
| EventStream.DecodeHeaderBlock | src/spy/eventstream.ts:70-119 | the header loop ends in the record, or the error, that reading headers one after the other defines |
| EventStream.DecodeMessage | src/spy/eventstream.ts:17-54 | one turn of the message loop: all length and checksum guards in order, the message, and where the next one starts |
| EventStream.DecodeAwsEventStream | src/spy/eventstream.ts:13-57 | the loop returns the messages in order, or the first error, as decoding message by message from the front defines |
| EventStream.MessageAtIsDecodeOne | src/spy/eventstream.ts:17-54 | a message at an offset is decoded from the bytes that start there and from no others |
| EventStream.DecodeAppend | src/spy/eventstream.ts:13-57 | decoding distributes over appending anything to a buffer that decodes |
| EventStream.ChangedByteIsDetected | src/spy/eventstream.ts:18-54 | changing any one byte of any buffer that decodes, however many messages it holds, makes the decoder throw, with the error that belongs to the place of the byte in its message |
| EventStream.HeadersRoundTrip | proxy/test_agent_spy.py:16-29 | encoded headers of all ten value types, in range, decode to the record of what was sent |
| EventStream.StreamRoundTrip | proxy/test_agent_spy.py:16-29 | decoding the concatenation of any encoded messages returns exactly their headers and payloads, in order |
| EventStream.DistinctHeadersSurvive | src/spy/eventstream.ts:70-119 | with distinct names the decoded record holds each header sent, and nothing else |
| EventStreamGrammar.HeadersIff | src/spy/eventstream.ts:70-119 | a header block decodes to a record if and only if it is a run of headers of the ten types, the last of which may break off inside the bytes of its value, and the record is theirs |
| EventStreamGrammar.DecodesIff | src/spy/eventstream.ts:13-57 | a buffer decodes to a list of messages if and only if it is a run of frames, each with right lengths and checksums, whose header blocks and payloads say that list |
| EventStreamGrammar.FaultyHeader | src/spy/eventstream.ts:70-119 | the first header that is wrong gives the error: name or type missing, type unknown, value short, or a time that is no date |
| EventStreamGrammar.CutMessage | src/spy/eventstream.ts:17-30 | a message cut off anywhere is refused, as a short prelude before its sixteenth byte and as a short message after it |
| ProtoWire.ReadProtoVarint | src/spy/cursor.ts:1698-1716 | the shift-and-or loop reads the base-128 number its bytes stand for, at most ten bytes, or fails |
| ProtoWire.ProtoHexBytes | src/spy/cursor.ts:1740-1753 | the guard loop and the conversion compute the hexadecimal reading that ProtoRoundTrip.HexUndoes and HexIff are about |
| ProtoWire.DecodePackedProtoVarints | src/spy/cursor.ts:1755-1770 | the packed loop returns the sequence of varints that fills the buffer exactly, or nothing |
| ProtoWire.DecodeProtoMessage | src/spy/cursor.ts:1592-1696 | the field loop with its limits, and the recursion into strictly shorter buffers, compute the field list the wire reading defines |
| ProtoWire.DecodeField | src/spy/cursor.ts:1600-1611 | the key of a field: which keys are refused, and that the rest of the field is read by its wire type |
| ProtoWire.DecodeValue | src/spy/cursor.ts:1613-1682 | the value of a field of each wire type: number, length, bytes taken and where the next field starts |
| ProtoWire.DecodeDelimited | src/spy/cursor.ts:1641-1663 | the text, packed, nested and hexadecimal readings of a delimited field, each speculative and independent |
| ProtoRoundTrip.RoundTrip | src/spy/cursor.ts:1592-1696 | for every list of valid fields: decoding the encoding gives back those fields exactly when there are 1 to 2000 of them within the depth bound, and nothing otherwise |
| ProtoRoundTrip.HexUndoes | src/spy/cursor.ts:1740-1753 | the hexadecimal text of any bytes, in either letter case, gives back those bytes when there are eight or more, and nothing otherwise |
| ProtoRoundTrip.HexIff | src/spy/cursor.ts:1740-1753 | bytes are taken as hexadecimal text if and only if they are an even number, at least sixteen, of hexadecimal digits of either case |
| ProtoRoundTrip.PackedUndoes | src/spy/cursor.ts:1755-1770 | encoded varints give back the numbers exactly when they are safe integers in 1 to 10000 bytes |
| ProtoRoundTrip.ForestMatches | src/spy/cursor.ts:1613-1682 | each decoded field says what was sent, in path, number, value, length, text, packed numbers, nested message, and hexadecimal message with its byte length |
| ProtoRoundTrip.NestedRoundTrip | src/spy/cursor.ts:1641-1663 | a tree of nested messages comes back whole exactly when its depth is within the bound |
| ProtoRoundTrip.ForestRoundTrip | src/spy/cursor.ts:1592-1696 | a message of such trees comes back field by field, with every nested level |
| ProtoRoundTrip.ChunksTile | src/spy/cursor.ts:1592-1696 | the fields of a successful decoding tile the buffer: non-empty slices, one per field, that concatenate to it |
| ProtoRoundTrip.DecodesIffTiled | src/spy/cursor.ts:1592-1696 | a buffer decodes if and only if it is a concatenation of 1 to 2000 single-field messages |
| ProtoRoundTrip.DecodeAppend | src/spy/cursor.ts:1592-1696 | the decoding of a concatenation is the concatenation of the decodings, unless that exceeds the field limit |
| ProtoGrammar.VarintIff | src/spy/cursor.ts:1698-1716 | a varint is read at a place if and only if one to ten groups stand there, canonical or not, and its value is theirs |
| ProtoGrammar.FieldIff | src/spy/cursor.ts:1600-1682 | a field is read if and only if a safe key of one of the four wire types with a field number stands there, and then the bytes of its value |
| ProtoGrammar.DecodesIff | src/spy/cursor.ts:1592-1696 | a buffer decodes if and only if the depth is at most 8 and it is a run of 1 to 2000 such fields |
| ProtoGrammar.PackedIff | src/spy/cursor.ts:1755-1770 | a buffer is a list of packed numbers if and only if it is 1 to 10000 bytes that are their varints, all safe integers |
| ConnectEnvelope.ParseConnectEnvelope | src/spy/cursor.ts:1454-1518 | the offset loop returns the frames that cutting the buffer by its length prefixes defines, or nothing |
| ConnectEnvelope.FramesPartition | src/spy/cursor.ts:1454-1518 | offsets and lengths of the frames partition the buffer, and the frame bytes concatenate to it |
| ConnectEnvelope.CompleteFramesParse | src/spy/cursor.ts:1454-1518 | any run of complete frames parses into exactly those frames |
| ConnectEnvelope.ParsesIffFrames | src/spy/cursor.ts:1454-1518 | parsing succeeds exactly on non-empty concatenations of complete five-byte-prefixed frames |
| ConnectEnvelope.ParseFindsFrames | src/spy/cursor.ts:1454-1518 | the cut into frames is unique and is the one found |
| ConnectRoundTrip.ParsedFramesAreTold | src/spy/cursor.ts:1454-1518 | of every returned frame: the compressed flag is the low flag bit, the payload is the unzipped bytes whenever that bit or the two magic bytes are set and unzipping succeeds and else the raw ones, with its length, and the message is that of the payload |
| ConnectRoundTrip.SentFramesArrive | src/spy/cursor.ts:1454-1518 | frames built from messages, plain or with any zip that gunzip undoes, come back frame by frame with fields that match the messages sent |
| CanonicalJson.SortSorts | src/spy/bedrock.ts:1882-1896 | sorting the fields of an object gives sorted keys and the same key-value map |
| CanonicalJson.EscapeUnique | src/spy/bedrock.ts:1882-1896 | the escaped form of a string and its closing quote can be read in one way only; what it is read as is in JsonReader.StringReads |
| CanonicalJson.PrintUnique | src/spy/bedrock.ts:1882-1896 | a printed value at the start of a text determines the value and where it ends |
| CanonicalJson.DenoteDetermines | src/spy/bedrock.ts:1882-1896 | values equal up to key order print alike |
| CanonicalJson.CanonicalPrint | src/spy/bedrock.ts:1882-1896 | two values print to the same text if and only if they are equal up to object key order at every depth |
| JsonReader.StringReads | src/spy/bedrock.ts:1882-1896 | an independent reader of section 7 of RFC 8259, with letter escapes and four-digit hexadecimal escapes by value, reads every printed string back |
| JsonReader.PrintReadsBack | src/spy/bedrock.ts:1882-1896 | an independent reader of sections 2 to 7 of RFC 8259 reads the whole printed text of every value back to that value, and its object names are in ascending order at every depth |
| Ordering.LessAscends | src/spy/bedrock.ts:1882-1896 | the order of the names is by code units: at the first place where two differ the unit is less, or the first name ends there |
| JsonScanner.JsonObjectEnd | src/spy/cursor.ts:1829-1865 | the loop over depth, string and escape flags ends where the scanner's state machine closes the first brace |
| JsonScanner.ExtractJsonValues | src/spy/cursor.ts:1809-1827 | the loop collects the parsed objects from left to right, skipping past each object it parsed |
| JsonScanner.ObjectEndCorrect | src/spy/cursor.ts:1829-1865 | for an object anywhere in a text, with braces, quotes and backslashes in its strings and anything after it, the scanner returns its closing brace |
| JsonScanner.ExtractionCorrect | src/spy/cursor.ts:1809-1827 | of objects separated by text without an opening brace, exactly those objects are returned, in order |
| JsonScanner.PrintPieces | src/spy/cursor.ts:1829-1865 | every printed JSON value is made of the strings, braces and plain text the scanner is proved on |
| JsonScanner.PrintedObjectEnd | src/spy/cursor.ts:1829-1865 | scanning from any printed object, whatever surrounds it, ends at that object's last character |
| JsonScanner.PrintedExtraction | src/spy/cursor.ts:1809-1827 | from printed objects between text without an opening brace, extraction returns the parsed value of each, in order, and nothing else |
| ObjectSpans.ObjectEndIff | src/spy/cursor.ts:1829-1865 | in any text, the scan from an opening brace ends at a place if and only if an object of well-formed strings and braces stands from the one to the other |
| ObjectSpans.ExtractionIsLeftmost | src/spy/cursor.ts:1809-1827 | on every text, whatever parses, the values are those of the leftmost object that parses, the leftmost behind it, and so on to the end |
| StreamFormats.ConverseReads | src/spy/bedrock.ts:931-1033 | each Converse event, block events in all their shapes as well as stop reasons, metadata, stray and unknown events, is read as what its sender meant |
| StreamFormats.AnthropicReads | src/spy/bedrock.ts:1201-1298 | so is each Anthropic Messages event, starts with content, signatures and unknown events included |
| StreamFormats.FormatsAreRead | src/spy/bedrock.ts:931-1298 | in both formats the normalizer acts on exactly the meaning sent |
| StreamMeaning.SaidComesOut | src/spy/bedrock.ts:827-1298 | for any stream in either format, the whole output: one block with its kind, payload, role and literal text for each stop reason, metadata, closing or unknown event, and the blocks of each index where it ends, in this order and with these fields |
| StreamMeaning.SaidIsAssembled | src/spy/bedrock.ts:827-1298 | the blocks of an index stand together in the output and hold, joined in order, the texts, thoughts, tool inputs and values said for it up to its end, which is everything exactly when nothing is said later |
| StreamMeaning.FormatsAssembleAlikeIff | src/spy/bedrock.ts:827-1298 | the same stream sent in the two formats comes out as the same blocks, as many, with the same ordinals, kinds, roles, texts and tool inputs, if and only if it holds no unknown event, which only one format shows |
| StreamAssembler.Assembler.FinalizeBuilder | src/spy/bedrock.ts:872-928 | a known index that was not finalized before is finalized now, its blocks are appended with the next ordinals; nothing else changes |
| StreamAssembler.Assembler.Handle | src/spy/bedrock.ts:931-1033 | one event keeps the builders, the finalized set, the role and the output in agreement with the reference for the events so far |
| StreamAssembler.Assembler.FinalizeAll | src/spy/bedrock.ts:1031-1033 | the closing loop finalizes the open builders in the order of their first touch |
| StreamAssembler.Assembler.Run | src/spy/bedrock.ts:827-1033 | over a whole stream the state machine produces the blocks of the reference, whose fields StreamOutput.OutputIsScheduled states |
| StreamTheorems.FinishedExactlyOnce | src/spy/bedrock.ts:872-881 | every touched index is finalized exactly once, and no other |
| StreamTheorems.FilterThenConcatenate | src/spy/bedrock.ts:843-1033 | for every interleaving, the blocks of a touched index stand together in the output and are those of its pieces up to its first stop after a touch, with the fields StreamOutput.IndexIsAssembled states |
| StreamOutput.OutputIsScheduled | src/spy/bedrock.ts:827-1033 | the whole output of every stream: a block for each event that is one by itself, and for each touched index a text block exactly when it has text, then thinking, tool call and unknown ones, each with all its pieces joined in order, its role and origin, in the order of their ends |
| StreamOutput.IndexIsAssembled | src/spy/bedrock.ts:872-928 | those of one index stand together and hold every piece brought for it up to its end; these are all of them if and only if none comes later |
| StreamTheorems.LateDeltaIsLost | src/spy/bedrock.ts:872-881 | a stream whose second delta comes after the stop: the output holds the first one only |
| StreamTheorems.InterleavingsAgree | src/spy/bedrock.ts:843-1033 | two streams with the same touches of an index, none late, have blocks of the same kinds, texts and contents for it in their outputs |
| StreamTheorems.OwnEventsDecide | src/spy/bedrock.ts:843-1033 | so do any two streams with the same touches and stops of it, whatever else they hold |
| StreamTheorems.OrdinalsAreDense | src/spy/bedrock.ts:843-850 | emitted ordinals are 0, 1, 2 and so on without gaps |
| StreamTheorems.BlockIdsDistinct | src/spy/bedrock.ts:1873-1880 | no two blocks of a stream have the same id |
| BlockIds.BlockIdsInjective | src/spy/bedrock.ts:1873-1880 | the id of a block tells its call, its direction and its ordinal, all three, as the store's block key needs |
| BlockIds.CallIdIsClean | src/spy/bedrock.ts:153-155 | every call id is text that `idPart` leaves as it is, so it stands in its block ids unchanged |
| BlockIds.FlowsShareCallIds | src/spy/bedrock.ts:1877-1880 | two flow ids that have the same call id |
| SpyStore.Store.InsertBlockRows | src/spy/store.ts:1106-1128 | inserting block by block, the insert trigger adds one index entry per text, and a repeated ordinal stops it |
| SpyStore.Store.ReplaceBlockRows | src/spy/store.ts:1099-1129 | one side of a call is exactly the new blocks afterwards, index included, or the statement fails |
| SpyStore.Store.UpsertPendingCall | src/spy/store.ts:1017-1044 | the statement on the call table in place: insert, or update of a known call, or refusal of a flow that is recorded for another; its columns are in SpyEvents.RequestIsStored |
| SpyStore.Store.KeptRequestRows | src/spy/store.ts:950-954 | the recorded request blocks that no response added, in ordinal order |
| SpyStore.Store.StreamChunksForCall | src/spy/store.ts:1272-1280 | the captured chunks of one call in index order |
| SpyStore.Store.PersistRequestUnlocked | src/spy/store.ts:922-934 | all tables after a request, or all of them unchanged when the normalizer or a statement fails |
| SpyStore.Store.PersistResponseUnlocked | src/spy/store.ts:936-964 | all tables after a response; unchanged when its call is unknown and when a statement fails |
| SpyStore.Store.PersistStreamChunkEventUnlocked | src/spy/store.ts:997-1015 | a chunk of a known call is stored under its index and counted; otherwise nothing changes |
| SpyStore.Store.PersistErrorEventUnlocked | src/spy/store.ts:975-995 | a known call is completed as an error, an unknown one is only counted |
| SpyStore.Store.IngestSpoolFileUnlocked | src/spy/store.ts:886-920 | the outcome of one file and the tables it leaves: ingested, deferred, malformed or error |
| SpyStore.Store.IngestSpoolBatch | src/spy/store.ts:435-469 | the counters add up to the files attempted, deleted is ingested plus malformed, and what stays is the files kept, then the untouched ones |
| SpyStore.Store.DeleteCallRows | src/spy/migrations.ts:39-119 | deleting calls deletes exactly their rows in every table, index entries included |
| SpyStore.Store.DeleteForSize | src/spy/store.ts:825-831 | the loop deletes the least number of oldest calls that makes the tables fit, or all |
| SpyStore.Store.RunRetention | src/spy/store.ts:818-847 | expired calls and then the oldest ones go, the two counts say how many, and the spool is untouched |
| SpyStore.Store.ClearData | src/spy/store.ts:849-862 | no call, row or counter is left, and every spool file is deleted and counted |
| SpyEvents.RequestIsStored | src/spy/store.ts:922-934 | a request is stored if and only if it normalizes, its flow belongs to no other call and its blocks have distinct ordinals; then each request column is set, the answer columns are kept or empty, its side holds its blocks, and no other row of any table moves |
| SpyEvents.ResponseIsStored | src/spy/store.ts:936-964 | a response is deferred if and only if its call is unknown, and stored if and only if it is known, normalizes and its blocks find a place; then each answer column is set, its side holds its blocks, the request side is the original blocks and those it adds, and no other row moves |
| SpyEvents.ChunkIsStored | src/spy/store.ts:997-1015 | a chunk of a recorded call is put under its index and counted, another is deferred, and nothing else moves |
| SpyEvents.DropIsStored | src/spy/store.ts:966-973 | a drop marker adds its count to the dropped captures, one to the events, and touches no table |
| SpyEvents.ErrorIsStored | src/spy/store.ts:975-995 | an error event sets status, completion time and response flow of a recorded call and no other column or row |
| SpyEvents.OutcomeIs | src/spy/store.ts:886-920 | for every file and any tables, which of the four outcomes it has, in terms of the tables before; one that is not ingested changes no table and counts only itself |
| SpyEvents.DeletionIsExact | src/spy/migrations.ts:39-119 | deleting calls takes their rows in every table and no other row |
| SpyInvariants.RequestKeeps | src/spy/store.ts:922-934 | a request keeps the index equal to the texts of the blocks, every row with its call, and pending equal to having no completion time |
| SpyInvariants.ResponseKeeps | src/spy/store.ts:936-964 | a response keeps all three |
| SpyInvariants.IngestKeeps | src/spy/store.ts:886-920 | whatever happens to a spool file, all three hold afterwards |
| SpyInvariants.DeleteCallsKeeps | src/spy/migrations.ts:164-168 | deleting calls, with cascades and the delete trigger, keeps all three |
| SpyInvariants.ClearedKeeps | src/spy/store.ts:849-862 | clearing leaves the empty database |
| SpyBatches.AttemptAccounts | src/spy/store.ts:435-469 | every attempted file has one outcome, the four counts add up, and exactly the deferred and failed files stay, in order |
| SpyBatches.CountersTell | src/spy/store.ts:1445-1453 | the health counters of events, malformed files and errors grow by exactly the number of files with that outcome |
| SpyBatches.UnattemptedMoves | src/spy/store.ts:435-469 | a file behind the limit moves forward by as many places as files left the batch |
| SpyBatches.EventuallyAttempted | src/spy/store.ts:435-469 | while fewer than `limit` files are stuck and new files sort last, every file is attempted within a number of batches given by its position |
| SpyBatches.BlockedForGood | src/spy/store.ts:435-469 | if every file of a batch is deferred or fails, then after any number of batches and arrivals no table has changed and the files there are still in front |
| SpyBatches.BlockedIffAllStay | src/spy/store.ts:435-469 | the files there stay in front for ever if and only if all of a full batch stay, that is, if the batch leaves `limit` files stuck; otherwise the bound of EventuallyAttempted applies |
| SpyRuns.RunsKeepSound | src/spy/store.ts:818-1068 | after every run of captures, batches, retention and clears the index, the references and the pending states are right |
| SpyRuns.RunsFromEmptyAreSound | src/spy/store.ts:818-1068 | in particular from an empty database, whatever is spooled |
| SpyRuns.UpgradedRunsAgree | src/spy/migrations.ts:147-179 | the same for runs on an upgraded version-1 database whose index was empty |
| SpyRuns.DropsAreConserved | proxy/agent_spy.py:485-521 | over every run, database counter, spooled markers and pending count grow together by exactly the captures refused, less what each clear finds counted or spooled and each restart finds pending |
| SpyRuns.DropsSinceClear | src/spy/store.ts:849-862 | after a clear, while the shim keeps running, the drops known are those refused since, plus what it had pending at the clear |
| SpyRuns.MarkersAreSpaced | proxy/agent_spy.py:485-503 | over any run, two markers one after the other are at least thirty seconds apart by the shim's clock |
| SpyRuns.SpoolStaysWithinCap | proxy/agent_spy.py:506-521 | a spool that starts under its byte cap never exceeds it, as long as no directory scan misses a file |
| SpoolWriter.SpoolSizeBytes | proxy/agent_spy.py:413-425 | the scan adds up the sizes of the entries whose stat succeeds |
| SpoolWriter.Shim.WriteSpoolEvent | proxy/agent_spy.py:506-521 | a file is written exactly when the directory, the cap and the disk allow it; a full spool counts one drop, other failures none |
| SpoolWriter.Shim.WriteDroppedMarker | proxy/agent_spy.py:485-503 | a drop is added to the pending count, or the whole count goes into one marker file, at most every thirty seconds |
| SpoolWriter.CapturingConserves | proxy/agent_spy.py:485-521 | a refused capture is counted once, in the marker or in the pending count; any other capture moves neither |
| SpoolWriter.BatchConserves | src/spy/store.ts:966-973 | a batch moves drops from markers to the counter without losing or inventing one, and never grows the spool |
| SpoolWriter.CaptureOutcome | proxy/agent_spy.py:485-521 | a capture is written, among the other files in their order, exactly when the scanned bytes leave room and the disk lets it; one without room is counted in a marker with the whole count when the last one is thirty seconds old and there is room for it, else in the shim |
| SpoolWriter.SeenAppend | proxy/agent_spy.py:413-425 | the scan is the sum of the sizes it can stat |
| SpyChunks.StreamCapture.CaptureStreamChunk | proxy/agent_spy.py:657-677 | empty pieces have no event; the others get consecutive indexes from zero |
| SpyChunks.ReassembledIffComplete | src/spy/store.ts:1203-1280 | whatever order, repetition and other files come with them, the captured chunks make up the original stream if and only if none is missing |
| SpyChunks.ChunkBoundariesDoNotMatter | src/spy/store.ts:1238-1270 | with no chunk missing the response is normalized from the bytes of the stream, the same for every way of cutting it |
| SpyChunks.MergedIs | src/spy/store.ts:1238-1270 | captured chunks with bytes become the body, with an encoding exactly when every chunk names that one; without bytes they change nothing |
| SpyViews.RequestLocal | src/spy/store.ts:922-934 | a request changes the rows of its own call only, and as if that call were alone |
| SpyViews.ResponseLocal | src/spy/store.ts:936-964 | the same for a response |
| SpyDrain.DrainInv | src/spy/store.ts:435-469 | at every moment of a drain the tables are determined by the files that are left |
| SpyDrain.DrainGivesEachFlowAlone | src/spy/store.ts:886-964 | once the spool is empty, each call has exactly the rows its flow gives it in an empty database |
| SpyDrain.EmptiedDrainsAgree | src/spy/store.ts:886-1015 | any two lawful file orders, arrivals and batch limits that empty the spool leave the same tables, even when requests share flow ids |
| SpyQuiescence.StaysIffWaits | src/spy/store.ts:886-920 | a file of a batch stays exactly when it is a request that cannot be stored, an event that comes before its request, or a response that cannot be stored after all its chunks |
| SpyQuiescence.LeftIffHopeless | src/spy/store.ts:886-920 | where a drain has come to rest, an event is left exactly when its own flow cannot store it, on its own in an empty database |
| SpyQuiescence.DrainIsConfluent | src/spy/store.ts:886-1015 | any two lawful file orders, arrivals and batch limits whose drains come to rest leave the same events in the spool and the same tables, whatever fails for good |
| SpyQuiescence.TwoBatchesSettle | src/spy/store.ts:435-469 | in any lawful order and whatever fails, two batches are enough when the limit is no less than the number of files: everything left then stays |
| SpyQuiescence.TwoBatchesDrain | src/spy/store.ts:435-469 | if no flow fails on its own, two such batches empty the spool |
| SpySettling.BatchesComeToRest | src/spy/store.ts:435-469 | for every spool, order and limit, as many batches as there are files lead to a state that no later batch of that limit changes |
| SpySettling.AtRestIff | src/spy/store.ts:435-469 | such a state is one in which every file of the next batch stays |
| SpySettling.LimitedDrainSettlesIff | src/spy/store.ts:435-469 | from any moment of a drain, if each request left comes before the other events of its flow: batches of any limit, as many as there are files, leave a spool in which everything stays if and only if no file that is not hopeless has `limit` hopeless ones before it |
| SpySettling.FewHopelessSettle | src/spy/store.ts:435-469 | so fewer than `limit` hopeless files never stop it |
| SpySettling.CleanDrains | src/spy/store.ts:435-469 | if no flow fails on its own, batches of any positive limit empty the spool |
| SpySettling.LimitedDrainsAgree | src/spy/store.ts:435-469 | two such orders of the same files, each with a limit that gets through, leave the same events and the same tables |
| SpySettling.EarlyFilesBlock | src/spy/store.ts:886-915 | a batch filled with responses and chunks that come before their requests is at rest, so the order of the files does matter for a small limit |
| SpyReplay.ReplaceIs | src/spy/store.ts:1099-1129 | blocks can be replaced exactly when their ordinals are distinct; afterwards that side is exactly the new blocks and all others are unchanged |
| SpyReplay.ReplayedBlocks | src/spy/store.ts:949-957 | storing the same blocks again changes nothing, or clashes exactly when an unmarked request block would be kept twice |
| SpyReplay.ReplayedResponse | src/spy/store.ts:936-964 | ingesting a response again at once, with nothing in between, changes no table; it succeeds if and only if all request blocks it adds are marked as derived |
| SpyReplay.NoOpIffRecorded | src/spy/store.ts:936-964 | whatever happened before, a response that is ingested changes no table if and only if row, http, usage, stream, raw rows and both block sides say already what it says with the chunks there now |
| SpyReplay.LateRequestKeepsAnswer | src/spy/store.ts:1017-1044 | a request that comes after its response keeps status, completion and everything the response brought, but for request blocks the response had added |
| SpyErrors.ErrorCommutesIff | src/spy/store.ts:975-995 | an error event and a response for one call leave the same tables in both orders if and only if the response is an error of the same time and flow |
| SpyErrors.ErrorRequestCommuteIff | src/spy/store.ts:975-995 | an error event and a request for one call do if and only if the call is recorded already |
| SpyErrors.AttemptAfterError | src/spy/store.ts:886-995 | what an error event of a recorded call leaves changes the fate of no later file, and is there in the end as if it came last, unless a response or another error event of the call is ingested after it: then no trace is left |
| SpyErrors.ErrorAmongFiles | src/spy/store.ts:886-995 | the same for an error event anywhere in any list of files: it leaves no trace when its call is unknown at that moment or completed later |
| SpyErrors.AnywhereAlikeIff | src/spy/store.ts:886-995 | for any list of files, all places of an error event leave the same tables if and only if its call is not recorded in the end, or its row reads then as the event would leave it |
| SpyErrors.FlowAnywhereIff | src/spy/store.ts:886-995 | for a flow in any lawful order that is: its request was not stored, or its response was and is itself an error of the same time and flow |
| SpyErrors.ErrorDuringDrain | src/spy/store.ts:435-469 | an error event at any moment of a drain leaves the spool of every later batch as it is, and the tables too unless its call is recorded and not completed after it |
| SpyErrors.ErrorHarmlessIff | src/spy/store.ts:435-469 | so it makes no difference if and only if its call is unknown then, is completed later, or reads in the end as the event would leave it |
| SpyErrors.ErrorOrderMatters | src/spy/store.ts:975-995 | three files, a request, a response and an error, whose two orders leave different tables |
| SpyErrors.EarlyErrorIsLost | src/spy/store.ts:975-995 | two files, an error and a request: with the error first the call stays pending, with the request first it is an error |
| SpyDuplicates.ReplayInDrain | src/spy/store.ts:936-964 | at every moment of a drain, a response that has left the spool can come again: no table changes, and it is ingested if and only if all request blocks it adds are marked as derived |
| SpyDuplicates.DuplicatesChangeNothing | src/spy/store.ts:435-469 | a whole run of batches and responses that come again, however often, leaves the spool and the tables of the run without them |
| SpyDuplicates.DuplicatedRunsAgree | src/spy/store.ts:886-1015 | so two such runs that come to rest leave the same events and the same tables |
| SpyDuplicates.NoOpIff | src/spy/store.ts:936-964 | in any tables with a right index, a response file changes none if and only if it is not ingested or they say already what it says |
| SpyDuplicates.ReplayAfterErrorIff | src/spy/store.ts:936-995 | after an error event of its call in between, a response that comes again changes no table if and only if it is not ingested, for an unmarked block it adds, or is itself an error of the same time and flow |
| SpyDuplicates.ReplayAfterChunkIff | src/spy/store.ts:936-1015 | after a chunk in between, if and only if it is not ingested or its body is the same with the chunk, for adapters whose content hash tells the two bodies apart |
| SpyDuplicates.ReplayAfterErrorChanges | src/spy/store.ts:936-995 | four files, a request, a response, an error and the same response: the last changes the tables |
| SpyDuplicates.ReplayAfterChunkChanges | src/spy/store.ts:936-1015 | four files, a request, a response, a chunk and the same response: the last changes the tables |
| SpyOutcome.OpenFlowOutcome | src/spy/store.ts:922-934 | a drained call without a response is pending, with the blocks of its request and its chunks |
| SpyOutcome.AnsweredFlowOutcome | src/spy/store.ts:922-1068 | the row, http, usage, stream and raw rows, both block sides and the index of a drained call, in terms of what its adapter said of its two events: who and when from the request, what came of it from the response, the model from whichever names it |
| SpyOutcome.StreamIsSeen | src/spy/store.ts:1238-1270 | with its stream captured, the response of a drained call is normalized from the bytes of the stream, however it was cut |
| CursorContext.NormalizeCursorResponseRequestContext | src/spy/cursor.ts:834-895 | the blocks are the distinct non-empty candidates, then the sections added, numbered from 1000 without gaps and all marked as derived |
| CursorContext.EverySectionOnce | src/spy/cursor.ts:864-892 | a section is added exactly when its key is new and the blocks so far do not cover it, so none is forgotten and none comes twice |
| CursorContext.CursorReplaySucceeds | src/spy/store.ts:936-964 | so a Cursor response that comes again at any moment of a drain is ingested and changes no table |
| CursorContext.OneOfEach | src/spy/cursor.ts:844-851 | of the candidates with text exactly one of each is kept, told apart by kind, role and text |
| CursorContext.SectionsByKeyAndSize | src/spy/cursor.ts:864-892 | each section has a block with its key and size unless blocks before cover it, and no key and size has two |
| CursorContext.BlocksSay | src/spy/cursor.ts:853-892 | each kept candidate and each added section has a block of its own with its source and text, candidates first, in order |
| CursorContext.StoredIffRangeIsFree | src/spy/store.ts:950-955 | such blocks can be stored beside the request's own exactly when none of these has an ordinal in their range |
| SpyRetention.RetentionIsLeast | src/spy/store.ts:818-847 | retention deletes a set closed under older calls, the least one that holds the expired calls and makes the tables fit, or all |
| SpyRetention.RetentionOutcome | src/spy/store.ts:818-847 | after retention no call that started before the cutoff is left, no deleted call is younger than a kept one, nothing else went when the expired calls made room enough, and the counter grew by the number deleted |
| SpyRetention.RetainKeeps | src/spy/store.ts:818-847 | retention keeps the index, the references and the pending states right |
| SpyPaging.QueryLimit | src/spy/store.ts:1875-1880 | the page size is the whole part of the request, within 1 and 500, and 100 without one |
| CallOrder.BeforeIff | src/spy/store.ts:481-505 | calls are ordered by start time and then by id, unit by unit |
| SpyPaging.ListedPage | src/spy/store.ts:481-505 | a page holds the newest matching calls below the cursor, at most the limit, has a next cursor exactly when there are more, and what it leaves out is below that |
| SpyPaging.ReadDescends | src/spy/store.ts:1282-1293 | however the table changes between pages, what is read is strictly decreasing, so nothing is read twice |
| SpyPaging.NothingIsSkipped | src/spy/store.ts:481-505 | a matching call present throughout with an unchanged key has been read or is still ahead, and has been read when the walk ends |
| SpyPaging.WalkEnds | src/spy/store.ts:481-505 | the walk ends no later than when its pages could hold every key there ever was |
| SpyPaging.FixedTableIsReadWhole | src/spy/store.ts:481-505 | on a table that does not change, exactly the matching calls are read |
| SpyMigrations.SpyDatabase.ApplySpyMigrations | src/spy/migrations.ts:274-298 | the loop runs exactly the migrations not yet recorded, in order, and records them |
| SpyMigrations.SpyDatabase.RebuildTokenCounts | src/spy/migrations.ts:210-237 | the copy with INSERT OR REPLACE replaces nothing: every cached count arrives, without a label |
| SpyMigrations.UpgradeIsIdempotent | src/spy/migrations.ts:274-298 | opening an upgraded database again changes nothing |
| SpyMigrations.UpgradeOutcome | src/spy/migrations.ts:274-298 | after an upgrade every version is recorded, each missing migration has left its table, its triggers or its emptied labels, and nothing else has changed |
| SpyMigrations.UpgradeAgreesIff | src/spy/migrations.ts:147-179 | after an upgrade the index agrees with the blocks exactly when what was indexed before was right |
| SpyMigrations.EmptyIndexUpgrades | src/spy/migrations.ts:170-178 | an empty index becomes exactly the texts of the blocks |
| SpyMigrations.CountsSurvive | src/spy/migrations.ts:210-237 | no cached count is lost or changed but for its label |
| WorkerPool.Mapping.TakeNext | src/spy/service.ts:825-832 | a worker takes the next index, or returns when there is none |
| WorkerPool.Mapping.ResumeWith | src/spy/service.ts:831-833 | the result lands at the index the worker held, and the worker takes the next |
| WorkerPool.Mapping.ResumeThrowing | src/spy/service.ts:831-833 | a mapper that rejects ends its worker and stores nothing; the others go on |
| WorkerPool.EveryInterleaving | src/spy/service.ts:817-842 | under every interleaving indexes are handed out in order, each once, and no more than `concurrency` mappers run |
| WorkerPool.FinishedRunIsMap | src/spy/service.ts:817-842 | a run goes on until every worker is done; without rejections it then holds the mapper's value for every item, or nothing when there are no workers |
| TokenCounts.Counter.TakeKeys | src/spy/service.ts:355-372 | a view takes the missing subjects whose key is not being counted, each key once, and marks them |
| TokenCounts.SafeCatchesCountOnce | src/spy/service.ts:355-385 | whatever rejects, as long as every handler runs when none of its keys is in use, no key is ever counted by two workers, over all views and interleavings |
| TokenCounts.NoKeyTwiceInFlight | src/spy/service.ts:355-385 | so when no count rejects, no two counts of the same key are ever in flight |
| TokenCounts.EightWorkersAtMost | src/spy/service.ts:355-372 | at every moment of every run each view has one worker for each key it took, eight at most, and these keys are distinct |
| TokenCounts.FreedKeyIsRetaken | src/spy/service.ts:355-385 | from every reachable state, a handler, a view of any key it frees and that view's first worker count the key, while the other jobs go on as they were |
| TokenCounts.UnsafeCatchCountsTwice | src/spy/service.ts:380-384 | from every reachable state in which a handler may run while one of its keys is in use in any job, it can lead, without another handler, to that key being counted twice at a time |
| TokenCounts.HandlerHarmlessIff | src/spy/service.ts:380-384 | so a handler is harmless if and only if none of its job's keys is in use when it runs |
| TokenCounts.RejectionFreesBusyKey | src/spy/service.ts:355-385 | an example run in which one rejection leads to the same key being counted twice at once |
| Ipv4.ParseIpv4 | src/rootcell/instance.ts:435-452 | the octet loop, with its 32-bit shift, computes the number four decimal octets stand for, or refuses |
| Ipv4.FormatParse | src/rootcell/instance.ts:435-461 | formatting an accepted address gives back its text |
| Ipv4.ParseFormat | src/rootcell/instance.ts:435-461 | parsing a formatted number gives back the number, for all 32-bit numbers |
| Ipv4.ParseInjective | src/rootcell/instance.ts:435-452 | no two texts are accepted for one address |
| Subnets.PoolFromEnv | src/rootcell/instance.ts:388-401 | an accepted pool has ordered /24 ends that are both private |
| Subnets.AllocateState | src/rootcell/instance.ts:365-376 | the loop returns the lowest free network of the pool, which is the only state that is that, and fails exactly when none is free |
| Subnets.InstanceDirectory.EnsureInstanceState | src/rootcell/instance.ts:251-273 | a recorded instance is reused; a new one is validated or allocated and recorded, and nothing else changes |
| Subnets.AssertNoSubnetCollisions | src/rootcell/instance.ts:403-415 | the check passes exactly when no two recorded subnets have the same text |
| Subnets.ValidIff | src/rootcell/instance.ts:417-433 | a state is valid if and only if it is a private /24 network with its hosts 10 and 11, as written |
| Subnets.RequestedIff | src/rootcell/instance.ts:347-363 | hosts asked for give a state if and only if they are the hosts 10 and 11 of one private network and no prefix but 24 is asked for; without hosts nothing is requested |
| Subnets.PoolIff | src/rootcell/instance.ts:388-401 | an environment gives a pool if and only if its texts, or 192.168.100.0 and 192.168.254.0 by default, are two private /24 networks in order, and the pool is theirs |
| Subnets.DistinctMeansDisjoint | src/rootcell/instance.ts:403-415 | states on distinct texts cover disjoint address ranges, because the text of a network is unique |
| Subnets.PoolPrivateIffOneBlock | src/rootcell/instance.ts:388-401 | the whole pool is private exactly when its ends lie in one block of section 3 of RFC 1918 |
| Subnets.AllocatedValidIffPrivate | src/rootcell/instance.ts:365-386 | an allocated state passes validation exactly when its network is private |
| Subnets.AllocationKeepsHealthyIff | src/rootcell/instance.ts:251-273 | recording the lowest free network of any pool keeps all recorded states valid and distinct if and only if it is private |
| Subnets.CreationKeepsHealthyIff | src/rootcell/instance.ts:251-273 | one creation does if and only if its hosts were requested or its network is private |
| Subnets.PoolSafeIffOneBlock | src/rootcell/instance.ts:365-401 | no allocation from a pool, whatever is recorded, ever records an invalid state if and only if its ends lie in one private block |
| Subnets.CreateInstances | src/rootcell/instance.ts:251-273 | after any sequence of creations and reuses, from any pools, the recorded networks are pairwise disjoint, none recorded before has changed, and at most one state cannot be read back |
| Subnets.CreateOutside | src/rootcell/instance.ts:251-273 | when the lowest free network of an accepted pool is not private, it is recorded all the same, and every later call fails |
| Subnets.StrandedByWidePool | src/rootcell/instance.ts:388-401 | the pool 10.255.255.0 to 172.16.0.0 with its first network taken: 11.0.0.0 is recorded, and every later call fails |
| ShellQuoting.ShellUndoesQuoting | src/rootcell/transports/proxyjump-ssh.ts:347-359 | POSIX word splitting and quote removal give back exactly the argument list, with the `env` prefix when set |
| ShellQuoting.AssignmentSurvivesIffSafe | src/rootcell/transports/proxyjump-ssh.ts:354-359 | a quoted word is an assignment for the shell exactly when it is an all-safe one already |
| ShellQuoting.ReservedSurvivesIffSafe | src/rootcell/transports/proxyjump-ssh.ts:354-359 | it is a reserved word of section 2.4 of the Shell Command Language exactly when it is an all-safe one already, which all are but `!` and the braces |
| ShellQuoting.FirstWordRunsIff | src/rootcell/transports/proxyjump-ssh.ts:347-359 | the first word of a remote command names the command to run if and only if there is an environment, or it is not an all-safe assignment or reserved word |

## Left out

- SpyStore.Store: SQL text, locking, page and vacuum accounting, and the `last_*` entries of service_metadata; used bytes are an arbitrary function of the tables.
- SpyStore.Store.IngestSpoolBatch: does not model a crash between commit and unlink; ingesting a file and deleting it is one step.
- SpyTables: the columns of http, usage, stream and raw rows are one opaque text each; token_count rows appear only in the upgrade.
- SpyTables.InsertBlock: the update trigger, since no statement changes the text of a block.
- SpyTables.Adapter: the adapters are arbitrary functions that may fail; the call id, status, times and flow of a row are taken from the event, as both adapters do.
- SpyQuiescence.DrainIsConfluent: is about flows with one request and at most one response and distinct request flow ids; an error event for a call is outside these flows, and what it changes in any run is stated by SpyErrors.ErrorHarmlessIff; counters are not compared, because a failed attempt is counted each time.
- SpyDuplicates.DuplicatesChangeNothing: a response that comes again is ingested between two batches and takes no place in one.
- SpyRuns: one shim process writes the spool; several writers racing between scan and write are not modelled, and a restarted shim forgets its pending count.
- SpyRuns.SpoolStaysWithinCap: needs scans that see every byte, because a failing stat makes the shim count too little.
- SpyChunks.StreamCapture: flow metadata is always a dictionary, so an index is never lost.
- SpyPaging: the cursor is the key itself; its JSON and base64url text is not part of this model, and neither are the other paged listings.
- SpyMigrations: of the schema only what the migrations change in rows, index, triggers and existing tables.
- EventStream.StreamRoundTrip: header types 5 and 8 are kept as their eight raw bytes, with their JavaScript rendering a parameter; a header named `__proto__` is an ordinary name.
- ProtoWire.DecodeDelimited: whether bytes are text is an arbitrary function.
- ConnectEnvelope.ParseConnectEnvelope: base64 text, the hash of a payload, and the text and JSON values of a frame, which are functions of its payload and message.
- StreamFormats.ConverseReads: the events a sender has are those of `Said`; deltas that carry more than one kind of content are text with tool input, and `thinking` with `reasoning`, and no others.
- CanonicalJson.CanonicalPrint: a number is its printed token, so negative zero and non-finite numbers do not occur; an undefined value prints as null.
- StreamAssembler.Assembler.Run: usage records, the text derived from a tool call and the parsed tool input are functions of the modelled content and not repeated.
- BedrockEvents: whole-response (non-stream) normalization and the request normalizers.
- CursorContext.NormalizeCursorResponseRequestContext: how candidates and sections are found in a response, the covering patterns and text truncation are parameters.
- TokenCounts: subject keys are texts; how `subjectKey` joins their parts, and the network calls, are not part of this model.
- Subnets.InstanceDirectory: the state files are a map from instance name to state; file-system errors and malformed state files are not part of this model.
- BlockIds.BlockIdsInjective: takes the call id as given, since two flow ids can have one call id; the sixteen hexadecimal digits that stand for an empty part are a parameter.
- ShellQuoting.FirstWordRunsIff: words only some shells reserve, such as `time` or `function`, are not part of this model.
- HTTP routing, server-sent events, the UI, VM, AWS, Lima, Terraform and SSH processes, mitmproxy policy checks and configuration files: I/O, or claims read off one branch.
