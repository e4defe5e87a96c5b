# The SSP2 sync codec and its consumers, in Dafny

This project models the reference implementation of syncular's binary sync protocol and proves what the protocol is
for: one value, one byte sequence; a grammar of frames; a scanner that finds the end of a message however it is cut;
a client that never runs two syncs at once and never forgets to run one.

## How it is laid out

| layer | modules | what they hold |
|---|---|---|
| bytes | `Results`, `Utf8`, `CodeUnits`, `Primitives`, `Formats`, `LoopTurns`, `ByteIO`, `Locality` | UTF-8 and UTF-16 order, the fixed-width layouts, the laws of a wire format and the combinators that keep them, the growable writer and the bounds-checked reader |
| rows and segments | `NullBitmap`, `RowCodec`, `RowIO`, `SegmentCodec`, `SegmentIO`, `SegmentLaws`, `SegmentContract` | the null bitmap, row cells, blocks of rows, both directions of their codec, and their bytes written out |
| frames | `Hosts`, `Messages`, `RejectionDetails`, `DetailsSyntax`, `FrameFormats`, `FrameRules`, `FrameWriter`, `FrameReader`, `DetailsCodec`, `FrameEncoder`, `FrameDecoder`, `FrameLaws` | the fourteen frame types with a payload layout, and unknown ones, at wire versions 1 and 2 |
| wire contract | `WireLayout`, `WireContract`, `WireBytes`, `WireRules` | the bytes of every frame and message written out with literal values, and the proofs that the codec emits and reads them |
| messages | `Grammar`, `ResponseGrammar`, `Companions`, `UnknownFrames`, `Envelope`, `MessageLaws`, `ByteOrderMarks`, `SpacedDetails`, `WorkBounds` | the frame grammar, the envelope, and the laws of whole messages |
| streams | `Scanner`, `ScannerLaws`, `Observations`, `Traffic`, `TrafficRuns`, `Accounting` | the incremental scanner and the code that reads decoded or streamed responses |
| the client | `AutoSync`, `AutoSyncRuns`, `NativeClient` | the auto-sync scheduler and the command gate of the React Native bridge |
| canonical text | `ScopeJson`, `ScopeReader`, `Base64`, `RemoteValues` | scope digests and a reader of their text, base64, tagged values |

A format (`Formats.Format`) is a set of values, a way to put one in front of what follows it, and a way to read one off
the front. `Lawful` says that reading undoes putting, that whatever is read was exactly put, that whatever is read can be
put again and took a minimum of bytes, and where the two text decoders part. The code itself is imperative, as in the
source: writer and reader classes over an array and a position, loops that append and advance. Each method is proved
against a pure function of its input; the laws are proved about those functions. A law such as a round trip holds for any
bijection, so the tables and orders behind it are pinned separately, each against a definition that shares nothing with
the code: `WireLayout` for the bytes, `Companions` for the details companions, `DetailsSyntax` for the text patterns,
`ScopeReader` for the scope text, `CodeUnits.LessMeans` for the key order, `AutoSyncRuns.RetryAsAsked` for the deadlines.

## Conventions

* Text is a sequence of Unicode scalars. The decoder drops one leading U+FEFF, as the source's `TextDecoder` does. The
  flag `keepBom` selects a second decoder that keeps it; it exists in the model only, to say exactly when the first one
  loses something.
* The source states that every value has exactly one valid byte sequence (packages/core/src/bytes.ts:5-8). That is false
  for texts behind a byte order mark: `ByteOrderMarks.CanonicityFailsBehindAMark` gives two byte sequences for one
  message. For rows and segments this is the only way to fail (`RowIO.RowCanonical`, `SegmentLaws.SegmentCanonical`). A
  message can also carry a details companion whose JSON text is not the one its details are printed as
  (`SpacedDetails.CanonicityFailsOverASpace`, and every such text in `SpacedDetails.OtherTextIsLost`).
  `MessageLaws.CanonicalExactly` says that there is no third way.
* Calling `pause` does not always stop the scheduler: a `resume` that is still waiting for its command clears the flag
  afterwards. `AutoSyncRuns.PauseUndone` reaches such a state in two calls, and `AutoSyncRuns.PauseHoldsExactly` says
  that a paused, open client may start a run without another `resume` exactly when an earlier one has not finished,
  whatever else is in flight.
* The turns of the decoding loops are counted by ghost variables: each counted loop returns its own, and the reader
  keeps the sum for itself and the readers inside it. Eight turns are paid for by every byte; `Envelope.DecodeMessage`
  states the sum for a whole message.
* JSON parsing and printing and the blob-reference check are parameters (`Hosts.Host`). Two facts about the JSON engine
  are named where a claim needs them: `DetailsCodec.PrintsFaithfully` (printing normalized details and parsing them
  again gives them back, and the text does not start with U+FEFF) and `DetailsCodec.PrintsCompactly` (the printed text is
  no longer than any text that parses to the same details).
* A 64-bit float is eight opaque bytes. The clock is a parameter of a background intent. Promises, timers and microtasks
  are events that the host delivers in any order it may.

## Model

| member | source | states |
|---|---|---|
| `Utf8.TextRoundTrip` | packages/core/src/bytes.ts:15-20 | text decodes to itself unless it starts with U+FEFF, and then never |
| `Utf8.DecodersAgree` | packages/core/src/bytes.ts:200-207 | what dropping the mark does to any accepted bytes |
| `Utf8.MarkDropped` | packages/core/src/bytes.ts:17-20 | the bytes EF BB BF in front of any text are dropped; the mark is U+FEFF |
| `Utf8.CharShape` | packages/core/src/bytes.ts:15-20 | each scalar is one to four bytes by the ranges of section 3 of RFC 3629, and is recomposed from their payload bits |
| `CodeUnits.LessTotal` | packages/core/src/bytes.ts:229-246 | JavaScript string order is total and irreflexive on text |
| `CodeUnits.LessTransitive` | packages/core/src/bytes.ts:229-246 | and transitive, so sorted keys are one list |
| `CodeUnits.SortedUnique` | packages/core/src/bytes.ts:234-246 | an ascending list is the sorted list of its elements |
| `CodeUnits.LessMeans` | packages/core/src/bytes.ts:229-262 | a text is below another exactly when its code units are a proper prefix of the other's or the first unit in which they differ is smaller |
| `CodeUnits.UnitsOfChar` | packages/core/src/canonical-json.ts:3-13 | a scalar below 0x10000 is one unit, any other a high and a low surrogate that recompose to it |
| `ByteIO.ByteWriter.Reserve` | packages/core/src/bytes.ts:28-41 | growing by doubling keeps everything written |
| `ByteIO.ByteWriter.Raw` | packages/core/src/bytes.ts:103-106 | appends exactly the given bytes |
| `ByteIO.ByteWriter.U32` | packages/core/src/bytes.ts:59-65 | throws exactly outside 0 to 2^32-1, else appends four little-endian bytes |
| `ByteIO.ByteWriter.I64` | packages/core/src/bytes.ts:75-81 | throws exactly outside the safe integers, else appends two's complement |
| `ByteIO.ByteWriter.Str` | packages/core/src/bytes.ts:92-96 | throws exactly on text of 2^32 UTF-8 bytes or more, else appends length and bytes |
| `ByteIO.ByteWriter.OptStr` | packages/core/src/bytes.ts:108-115 | a presence byte and the text if there is one |
| `ByteIO.ByteReader.Take` | packages/core/src/bytes.ts:137-147 | fails exactly when fewer bytes are left, else moves by the size |
| `ByteIO.ByteReader.I64` | packages/core/src/bytes.ts:165-174 | reads the integer or refuses one outside the safe range |
| `ByteIO.ByteReader.Bool` | packages/core/src/bytes.ts:180-189 | accepts 0 and 1 only |
| `ByteIO.ByteReader.Str` | packages/core/src/bytes.ts:200-207 | reads length-prefixed UTF-8, dropping a leading mark |
| `ByteIO.ByteReader.OptStr` | packages/core/src/bytes.ts:209-217 | accepts presence bytes 0 and 1 only |
| `ByteIO.ByteReader.ExpectFullyConsumed` | packages/core/src/bytes.ts:219-227 | fails exactly when bytes are left |
| `ByteIO.WriteStringListMap` | packages/core/src/bytes.ts:234-246 | writes the entries in key order, or throws exactly when one does not fit |
| `ByteIO.ReadStringListMap` | packages/core/src/bytes.ts:248-270 | returns the map of ascending entries, refusing any other order at the first bad key |
| `ByteIO.WriteStringMap` | packages/core/src/bytes.ts:272-283 | the same for maps to text |
| `ByteIO.ReadStringMap` | packages/core/src/bytes.ts:285-301 | the same for maps to text |
| `Primitives.I64RoundTrip` | packages/core/src/bytes.ts:75-174 | every safe integer is read back, and what follows it is left |
| `Primitives.I64Exact` | packages/core/src/bytes.ts:165-174 | every accepted eight bytes are the ones that integer is written as |
| `Formats.ListLawful` | packages/core/src/bytes.ts:4-9 | counted lists of a lawful format are lawful |
| `Formats.MapLawful` | packages/core/src/bytes.ts:229-301 | sorted maps are lawful: one byte sequence per map, one map per accepted sequence |
| `Formats.FromEntriesOfEntries` | packages/core/src/bytes.ts:229-301 | a map is rebuilt from its sorted entries |
| `Formats.EntriesOfFromEntries` | packages/core/src/bytes.ts:229-301 | ascending entries are the sorted entries of the map they make |
| `Formats.WholeRoundTrip` | packages/core/src/bytes.ts:4-9 | decoding what was encoded gives it back exactly on clean values |
| `Formats.WholeCanonical` | packages/core/src/bytes.ts:4-9 | encoding what was decoded gives the same bytes exactly on bytes free of marks |
| `NullBitmap.PackInvertsUnpack` | packages/core/src/row-codec.ts:181-245 | a bitmap with zero padding is the packing of its bits |
| `NullBitmap.UnpackInvertsPack` | packages/core/src/row-codec.ts:181-245 | packed flags unpack to themselves, with zero padding |
| `RowIO.WriteValue` | packages/core/src/row-codec.ts:86-139 | throws exactly on a value its column type cannot hold, else appends its layout |
| `RowIO.ReadValue` | packages/core/src/row-codec.ts:141-179 | reads a value of the column type, with its JSON and blob-reference checks |
| `RowIO.WriteRow` | packages/core/src/row-codec.ts:181-210 | throws exactly on rows that are not writable, else appends bitmap and cells |
| `RowIO.ReadRow` | packages/core/src/row-codec.ts:212-245 | reads one row, refusing set padding bits and nulls in columns that forbid them |
| `RowIO.EncodeRow` | packages/core/src/row-codec.ts:247-255 | the one encoding of a writable row |
| `RowIO.DecodeRow` | packages/core/src/row-codec.ts:257-265 | the row that uses up all of the payload, or an error |
| `RowCodec.RowLawful` | packages/core/src/row-codec.ts:181-245 | the row layout is lawful for every list of columns |
| `RowIO.RowRoundTrip` | packages/core/src/row-codec.ts:247-265 | a writable row comes back exactly when its JSON and blob cells are valid and its texts clean |
| `RowIO.RowCanonical` | packages/core/src/row-codec.ts:247-265 | an accepted payload can be written again, to the same bytes exactly when free of marks |
| `SegmentIO.EncodeRowsSegment` | packages/core/src/segment.ts:42-76 | throws exactly on segments that are not writable, else returns their one encoding |
| `SegmentIO.DecodeRowsSegment` | packages/core/src/segment.ts:78-150 | the segment that uses up all of the bytes, or an error |
| `SegmentCodec.SegmentLawful` | packages/core/src/segment.ts:42-150 | the block-structured layout is lawful, though its columns decide how its rows are read |
| `SegmentLaws.SegmentRoundTrip` | packages/core/src/segment.ts:42-150 | a writable segment comes back, columns reduced to name, type and nullability, exactly when its cells are valid and its texts clean |
| `SegmentLaws.SegmentCanonical` | packages/core/src/segment.ts:42-150 | accepted bytes re-encode to themselves exactly when free of marks |
| `Locality.SegmentPrefixFree` | packages/core/src/segment.ts:78-150 | no proper prefix of an accepted segment is accepted |
| `SegmentContract.RowLayout` | packages/core/src/row-codec.ts:181-210 | a row is one bit a column, weight 1 first, and the bytes of the cells that are not null |
| `SegmentContract.SegmentLayout` | packages/core/src/segment.ts:42-76 | a segment is exactly the bytes written out: magic, version, flags, table, columns, blocks, end marker |
| `SegmentContract.ColumnLayout` | packages/core/src/row-codec.ts:56-73 | a column is its name, the type tag 1 to 8 of the table, and its nullability |
| `RejectionDetails.NormalizeRejectionDetails` | packages/core/src/rejection-details.ts:64-183 | the step-by-step checks compute `Normalize`, and throw exactly where it has no value |
| `RejectionDetails.NormalizeIdempotent` | packages/core/src/rejection-details.ts:64-183 | normalizing twice is normalizing once |
| `RejectionDetails.NormalForm` | packages/core/src/rejection-details.ts:21-183 | normalized details print within 4096 bytes, with members in order, distinct paths and sorted references |
| `DetailsSyntax.TokenMeans` | packages/core/src/rejection-details.ts:32 | a token is non-empty runs of lower-case letters and digits joined by single dots, underscores or hyphens, with a letter first |
| `DetailsSyntax.ExampleToken` | packages/core/src/rejection-details.ts:13-14 | the documented reason is a token |
| `DetailsSyntax.PathMeans` | packages/core/src/rejection-details.ts:31 | a field path is names of letters, digits and underscores, none starting with a digit, joined by dots |
| `DetailsSyntax.TrimmedMeans` | packages/core/src/rejection-details.ts:149-158 | the check is that trimming changes nothing |
| `DetailsSyntax.ControlMeans` | packages/core/src/rejection-details.ts:34-40 | a control character is a code unit up to 0x1F or from 0x7F to 0x9F |
| `DetailsSyntax.NormalizeMeans` | packages/core/src/rejection-details.ts:21-183 | which details are not thrown out, and their normal form, with every limit, member name and member order spelled out |
| `FrameFormats.PayloadLawful` | packages/core/src/message.ts:270-612 | the layout of each frame type with a fixed one is lawful at both wire versions |
| `FrameRules.PayloadOk` | packages/core/src/message.ts:854-1101 | the frames a layout holds are those that encoder and decoder both accept unchanged |
| `FrameWriter.WritePushCommit` | packages/core/src/message.ts:882-905 | refuses exactly the push commits that do not fit, else appends the layout |
| `FrameWriter.WriteSubscription` | packages/core/src/message.ts:916-924 | the same for subscriptions |
| `FrameWriter.WritePushResult` | packages/core/src/message.ts:953-982 | the same for push results, with their three kinds of record |
| `FrameWriter.WriteCommit` | packages/core/src/message.ts:1017-1050 | the same for commits, whose changes index their tables |
| `FrameWriter.WriteSegmentRef` | packages/core/src/message.ts:1051-1069 | the same for segment references, with an expiry exactly when there is a URL |
| `DetailsCodec.WriteDetails` | packages/core/src/message.ts:983-1008 | refuses exactly empty, negative, repeated or unsafe entries, else prints each normalized |
| `DetailsCodec.DecodeDetails` | packages/core/src/message.ts:447-475 | the loop with its set of seen indexes reads the raw layout and normalizes each entry |
| `DetailsCodec.EntriesRead` | packages/core/src/message.ts:447-475 | failing at the first bad entry is failing on the whole list |
| `FrameEncoder.EncodeFrame` | packages/core/src/message.ts:854-1101 | throws exactly on frames that do not fit, else returns type and payload |
| `FrameDecoder.DecodePushCommit` | packages/core/src/message.ts:292-330 | the loop over the operations, with the separate code for an empty commit |
| `FrameDecoder.DecodePushResult` | packages/core/src/message.ts:395-445 | the loop over the result records and the presence of the commit number |
| `FrameDecoder.DecodeCommit` | packages/core/src/message.ts:498-539 | the loops over tables and changes, each change inside the table list |
| `FrameDecoder.DecodeRequestFrame` | packages/core/src/message.ts:614-644 | request types are decoded and used up, response types refused, others kept |
| `FrameDecoder.DecodeResponseFrame` | packages/core/src/message.ts:646-694 | the same for responses, with inline segments checked |
| `FrameReader.PushResultRead` | packages/core/src/message.ts:395-445 | reading field by field is reading the layout |
| `FrameReader.CommitRead` | packages/core/src/message.ts:498-539 | reading field by field is reading the layout |
| `FrameLaws.FrameRoundTrip` | packages/core/src/message.ts:614-1101 | a fitting, acceptable frame comes back as its wire form, exactly when clean |
| `FrameLaws.FrameSound` | packages/core/src/message.ts:614-694 | a decoded frame has its type, fits, is acceptable and is its own wire form |
| `FrameLaws.DetailsRoundTrip` | packages/core/src/message.ts:447-1008 | a details companion comes back normalized, exactly when its commit id is clean |
| `FrameLaws.DetailsSound` | packages/core/src/message.ts:447-475 | decoded details are in normal form and can be encoded again |
| `FrameLaws.DetailsSize` | packages/core/src/message.ts:447-1008 | and take no more bytes then, given a compact printer |
| `WireContract.DigitsValue` | packages/core/src/bytes.ts:48-90 | little-endian bytes stand for the number they were made from |
| `WireContract.Limits` | packages/core/src/bytes.ts:48-90 | the integer fields hold what their width can, and an i64 the safe integers |
| `WireContract.I64Bytes` | packages/core/src/bytes.ts:75-81 | an i64 is the eight base-256 digits of its two's complement, lowest first |
| `WireContract.OperationBytes` | packages/core/src/message.ts:890-904 | an operation is its fields side by side, upsert the byte 1 and delete the byte 2 |
| `WireContract.ChangeBytes` | packages/core/src/message.ts:1026-1049 | a change is its fields side by side, with the same two bytes |
| `WireContract.ResultBytes` | packages/core/src/message.ts:963-981 | a record is its index, the byte 1, 2 or 3 for applied, conflict or error, and its fields |
| `WireContract.PayloadBytes` | packages/core/src/message.ts:849-1101 | every frame the encoder accepts has exactly the payload written out for it and the type of its tag |
| `WireContract.EncodingBytes` | packages/core/src/message.ts:1107-1127 | every encodable message is exactly the bytes written out for it: magic, version, kind, flags, tagged frames, end |
| `WireBytes.OperationByte` | packages/core/src/message.ts:849-904 | where the byte of an operation stands behind its table and row id, and that it is 1 for upsert and 2 for delete |
| `WireBytes.ChangeByte` | packages/core/src/message.ts:849-1049 | where the byte of a change stands behind its row id, and that it is 1 for upsert and 2 for delete |
| `WireBytes.PushCommitByte` | packages/core/src/message.ts:849-905 | the same for each operation, counted from the start of the payload |
| `WireBytes.PushResultByte` | packages/core/src/message.ts:850-982 | the status byte of a push result in its payload: 1 applied, 2 cached, 3 rejected |
| `WireBytes.RecordByte` | packages/core/src/message.ts:953-982 | the status byte of each of its records, counted from the start of the payload |
| `WireBytes.SubStartByte` | packages/core/src/message.ts:851-1016 | the status byte of a subscription start in its payload: 1 active, 2 revoked, 3 reset |
| `WireBytes.SegmentRefByte` | packages/core/src/message.ts:852-1069 | the media type byte of a segment reference in its payload: 1 rows, 2 sqlite |
| `WireRules.FitsMeans` | packages/core/src/message.ts:854-1101 | the encoder accepts a frame exactly when it meets the presence rules and field ranges of its type, spelled out in numbers |
| `WireBytes.KnownTypes` | packages/core/src/frames.ts:22-49 | the type bytes of requests and of responses, spelled out |
| `WireBytes.DecodesLayout` | packages/core/src/message.ts:270-694 | the decoder reads the bytes written out for a frame back as its wire form |
| `Grammar.ValidateRequestSequence` | packages/core/src/message.ts:700-730 | the flag loop accepts exactly `AcceptsRequest` |
| `Grammar.ValidateResponseSequence` | packages/core/src/message.ts:732-838 | the flag loop accepts exactly `AcceptsResponse`, in one turn a frame and one for each record or entry it passes over |
| `Grammar.IsCompanion` | packages/core/src/message.ts:775-790 | a companion passes exactly when it names the commit of the last result, that result is rejected, and each entry has the index of an error record; with the turns of both passes |
| `Grammar.RequestGrammar` | packages/core/src/message.ts:700-730 | without unknown frames: accepted exactly as header, pushes, then perhaps a pull and its subscriptions |
| `ResponseGrammar.ShapeAccepted` | packages/core/src/message.ts:732-838 | every response of the grammar is accepted |
| `ResponseGrammar.AcceptedHasShape` | packages/core/src/message.ts:732-838 | every accepted response without unknown frames parses into the grammar |
| `ResponseGrammar.ResponseGrammar` | packages/core/src/message.ts:732-838 | accepted exactly as header, lease, results with matching companions, sections of commits or of segments, and an ending |
| `Companions.CompanionsBelong` | packages/core/src/message.ts:764-797 | a details companion in an accepted response follows the rejected result of the same commit, with no result or companion in between, and each entry has the index of an error record of it |
| `Companions.CompanionAccepted` | packages/core/src/message.ts:764-797 | an accepted response stays accepted with a companion added exactly when it has no ERROR and no section and its last result, not yet accompanied, is such a one |
| `UnknownFrames.RequestTransparency` | packages/core/src/message.ts:700-730 | requests that differ in unknown frames after the header stand or fall together |
| `UnknownFrames.ResponseTransparency` | packages/core/src/message.ts:732-838 | a response is accepted exactly when its erasure is and no unknown frame precedes a lease or follows an error |
| `UnknownFrames.WireToken` | packages/core/src/message.ts:732-838 | a trip over the wire changes nothing the validators look at |
| `Envelope.EncodeMessage` | packages/core/src/message.ts:1107-1126 | throws exactly on messages that are not encodable, else returns their one encoding |
| `Envelope.ReadFrameList` | packages/core/src/message.ts:1128-1152 | the loop returns the frames up to an END that is last, or the first error, in exactly `FrameTurns` turns |
| `Envelope.DecodeMessage` | packages/core/src/message.ts:1154-1196 | header, frames and grammar, or the first error; all its loops together, nested ones and the validator's with its passes over records and entries included, take at most eight turns for every byte and one more |
| `MessageLaws.MessageRoundTrip` | packages/core/src/message.ts:1107-1196 | what is encoded comes back in its wire form exactly when JSON fields and segments are valid and texts clean |
| `MessageLaws.CanonicalExactly` | packages/core/src/message.ts:1107-1196 | what an encodable decoded message is encoded to are the bytes it came from exactly when they are free of marks and every details text is the printed one |
| `FrameLaws.DetailsExact` | packages/core/src/message.ts:447-1008 | a companion whose texts are printed ones is encoded to the payload it came in |
| `SpacedDetails.CanonicityFailsOverASpace` | packages/core/src/message.ts:447-1008 | a response with one space in its details text decodes, holds no mark, and is encoded to other bytes |
| `SpacedDetails.OtherTextIsLost` | packages/core/src/message.ts:447-1008 | so does one with any text that parses to details it is not printed as |
| `MessageLaws.MessageCanonical` | packages/core/src/message.ts:1107-1196 | decoded bytes without a details companion re-encode, to themselves exactly when free of marks |
| `MessageLaws.DecodedReencodes` | packages/core/src/message.ts:1107-1196 | encoding a decoded message fails only over the size of a details payload, and never given a compact printer |
| `MessageLaws.DecodedIsFixed` | packages/core/src/message.ts:1107-1196 | a decoded message is a fixed point of one more trip, exactly when clean |
| `MessageLaws.DecodedSound` | packages/core/src/message.ts:1154-1196 | a decoded message is of its kind, accepted, encodable frame by frame, and took five bytes a frame |
| `MessageLaws.EncodingInjective` | packages/core/src/message.ts:1107-1126 | messages with the same bytes have the same wire form |
| `ByteOrderMarks.CanonicityFailsBehindAMark` | packages/core/src/bytes.ts:5-16 | a message with two byte sequences |
| `LoopTurns.TurnsBounded` | packages/core/src/message.ts:292-330 | a counted loop runs at most once more than the input has room for, and exactly as often as counted if it succeeds |
| `ByteIO.ReadStringItems` | packages/core/src/bytes.ts:248-270 | the loop over a string list takes exactly `Turns` turns, paid for by the bytes it read |
| `ByteIO.ReadListEntries` | packages/core/src/bytes.ts:248-270 | the loop over map entries takes at most `Turns` turns, fewer when a key is out of order |
| `ByteIO.ReadStrEntries` | packages/core/src/bytes.ts:285-301 | the same for maps to text |
| `FrameDecoder.DecodeOperations` | packages/core/src/message.ts:305-329 | the loop over operations takes exactly `Turns` turns |
| `FrameDecoder.DecodeResults` | packages/core/src/message.ts:412-437 | the loop over result records takes exactly `Turns` turns |
| `FrameDecoder.DecodeChanges` | packages/core/src/message.ts:504-537 | the loop over changes takes exactly `Turns` turns |
| `DetailsCodec.ReadDetailsEntries` | packages/core/src/message.ts:452-473 | the loop over details entries takes at most `Turns` turns |
| `SegmentIO.ReadColumns` | packages/core/src/segment.ts:106-118 | the loop over columns takes exactly `Turns` turns |
| `SegmentIO.ReadRows` | packages/core/src/segment.ts:120-148 | the loop over rows takes exactly `Turns` turns, with its cells no more than eight for every byte |
| `SegmentIO.ReadRowBlocks` | packages/core/src/segment.ts:120-148 | the loop over blocks takes exactly `BlockTurns` turns |
| `WorkBounds.OperationTurns` | packages/core/src/message.ts:292-330 | operations: eleven bytes a turn |
| `WorkBounds.ChangeTurns` | packages/core/src/message.ts:498-539 | changes: thirteen bytes a turn |
| `WorkBounds.ResultTurns` | packages/core/src/message.ts:395-445 | result records: five bytes a turn |
| `WorkBounds.DetailsTurns` | packages/core/src/message.ts:447-475 | details entries: eight bytes a turn |
| `WorkBounds.MapEntryTurns` | packages/core/src/bytes.ts:248-301 | map entries: eight bytes a turn |
| `WorkBounds.RowTurns` | packages/core/src/segment.ts:120-148 | rows: eight bytes a turn |
| `WorkBounds.BlockTurnsBounded` | packages/core/src/segment.ts:120-148 | blocks: eight bytes a turn |
| `WorkBounds.ColumnTurns` | packages/core/src/segment.ts:106-118 | columns: six bytes a turn |
| `WorkBounds.FrameTurnsBounded` | packages/core/src/message.ts:1128-1152 | frames: five bytes a turn, accepted or not |
| `Scanner.MessageStreamScanner.Append` | packages/core/src/stream.ts:85-96 | the buffer holds what it held and then the chunk |
| `Scanner.MessageStreamScanner.CheckHeader` | packages/core/src/stream.ts:98-127 | accepts exactly the headers the decoder accepts |
| `Scanner.MessageStreamScanner.Push` | packages/core/src/stream.ts:53-83 | the answer is the scan of everything fed; after a message, a refusal |
| `ScannerLaws.Feed` | packages/core/src/stream.ts:53-83 | a new scanner fed chunk by chunk runs as the step machine |
| `ScannerLaws.ChunkIndependence` | packages/core/src/stream.ts:53-96 | each answer is a function of the concatenation so far |
| `ScannerLaws.CompletesAtItsEnd` | packages/core/src/stream.ts:53-83 | the chunk with the last byte of the END frame returns the message, the rest of it being excess |
| `ScannerLaws.ScanExtends` | packages/core/src/stream.ts:53-83 | a message found stays found and a bad header stays bad |
| `ScannerLaws.DecodableScans` | packages/core/src/stream.ts:53-83 | a decodable message scans to all of its bytes |
| `ScannerLaws.ScannerAgreesWithDecoder` | packages/core/src/stream.ts:53-83 | any cut of a decodable message completes at its last non-empty chunk, whole and without excess |
| `ScannerLaws.MessagesPrefixFree` | packages/core/src/message.ts:1128-1196 | no decodable message is a proper prefix of another |
| `AutoSync.StepKeeps` | bindings/react-native/src/index.ts:434-940 | every turn of the event loop keeps the invariant |
| `AutoSyncRuns.Safety` | bindings/react-native/src/index.ts:434-557 | in every interleaving one run at most, one timer at most, armed exactly when a retry is set, and due then |
| `AutoSyncRuns.RetryAsAsked` | bindings/react-native/src/index.ts:395-474 | in every run, while open: the retry is the earliest of the deadlines, now plus the non-negative delay, of the background intents that passed the guard since the last event that dropped it, and the armed timer is due at that time |
| `AutoSyncRuns.RetryStep` | bindings/react-native/src/index.ts:434-519 | which events set, drop or leave the retry |
| `AutoSyncRuns.StepSends` | bindings/react-native/src/index.ts:312-557 | which command each event sends to the native module, by name, and when it sends none |
| `AutoSyncRuns.PreflightDrops` | bindings/react-native/src/index.ts:499-528 | entering preflight drops the queued sync, the repeat and the retry, and waits on one new promise |
| `AutoSyncRuns.NoLostWakeup` | bindings/react-native/src/index.ts:434-491 | after an intent passes the guard: a run started, or a microtask is queued, or the run in flight repeats, until close, pause or preflight |
| `AutoSyncRuns.WakeupDelivered` | bindings/react-native/src/index.ts:434-491 | an owed wakeup is two host steps at most from a run whose `syncUntilIdle` reaches the native module |
| `AutoSyncRuns.TimerDelivers` | bindings/react-native/src/index.ts:457-474 | a timer that fires is never wasted on a blocked client |
| `AutoSyncRuns.RequestsCoalesce` | bindings/react-native/src/index.ts:434-455 | asking twice is asking once |
| `AutoSyncRuns.ClosedForGood` | bindings/react-native/src/index.ts:312-347 | after close no command is called and no run starts, in any interleaving |
| `AutoSyncRuns.PreflightStep` | bindings/react-native/src/index.ts:312-347 | in preflight a step adds at most one call, and one on the allowlist |
| `AutoSyncRuns.Gate` | bindings/react-native/src/index.ts:312-347 | wherever a run is cut: the next step calls nothing once closed, one allowlisted command at most in preflight, and the log only grows |
| `AutoSyncRuns.PauseHolds` | bindings/react-native/src/index.ts:901-925 | a paused client with no resume under way starts no run until resume is called |
| `AutoSyncRuns.PauseHoldsExactly` | bindings/react-native/src/index.ts:901-925 | a paused, open client may start a run without another resume exactly when an earlier resume has not finished, running or in preflight as it may be |
| `AutoSyncRuns.PauseUndone` | bindings/react-native/src/index.ts:901-925 | a paused client with a resume under way is two calls from the start |
| `NativeClient.NativeSyncClient.Command` | bindings/react-native/src/index.ts:312-347 | reaches the native module exactly when open and, in preflight, on the allowlist |
| `NativeClient.NativeSyncClient.RequestAutoSync` | bindings/react-native/src/index.ts:434-455 | takes the step of the same name |
| `NativeClient.NativeSyncClient.RequestBackgroundSync` | bindings/react-native/src/index.ts:457-474 | takes the step of the same name: unguarded, the retry becomes the earlier of what it was and now plus the delay |
| `NativeClient.NativeSyncClient.RunAutoSync` | bindings/react-native/src/index.ts:476-480 | takes the step of the same name |
| `NativeClient.NativeSyncClient.OnRunSettled` | bindings/react-native/src/index.ts:481-491 | the `finally` block: not running, and another request if asked |
| `NativeClient.NativeSyncClient.BeginSecurityPreflight` | bindings/react-native/src/index.ts:499-528 | drops timer, schedule and rerun, and keeps one barrier at a time |
| `NativeClient.NativeSyncClient.OnActivateContinued` | bindings/react-native/src/index.ts:537-557 | the command behind the barrier passes the gate again |
| `NativeClient.NativeSyncClient.Pause` | bindings/react-native/src/index.ts:901-912 | takes the step of the same name |
| `NativeClient.NativeSyncClient.OnResumeContinued` | bindings/react-native/src/index.ts:915-925 | unpauses and asks for a sync |
| `NativeClient.NativeSyncClient.Close` | bindings/react-native/src/index.ts:927-940 | takes the step of the same name |
| `ScopeJson.QuoteSplits` | packages/core/src/canonical-json.ts:14-19 | quoted text is injective and self-delimiting |
| `ScopeJson.CompleteInvariant` | packages/core/src/canonical-json.ts:10-20 | equal texts exactly for the same keys with the same sets of values |
| `ScopeReader.CanonicalReads` | packages/core/src/canonical-json.ts:10-20 | read as JSON, the text is the scopes: keys ascending, under each the values ascending and once |
| `Base64.BytesToBase64` | packages/core/src/render.ts:35-65 | the loop returns the padded text of the bytes |
| `Base64.Base64ToBytes` | packages/core/src/remote-operations.ts:89-120 | pattern, groups and final comparison compute `Decode` |
| `Base64.DecodeExact` | packages/core/src/remote-operations.ts:89-120 | accepted exactly the encoded texts, each decoded to the bytes it came from |
| `Base64.AlphabetSpelled` | packages/core/src/render.ts:32-33 | the alphabet, character by character |
| `Base64.EncodeAt` | packages/core/src/render.ts:35-65 | the text is one group for every three bytes begun: four characters of the alphabet for six bits each, padded where a byte is missing |
| `RemoteValues.ValueRoundTrip` | packages/core/src/remote-operations.ts:122-226 | every supported value tree, its properties in enumeration order, comes back |
| `RemoteValues.DecodedValueEncodes` | packages/core/src/remote-operations.ts:122-226 | what is decoded encodes again, to the same form exactly when nothing is padded with further members, no integer is written as minus zero and every object lists its entries in property order |
| `RemoteValues.MinusZero` | packages/core/src/remote-operations.ts:184-197 | the accepted text that is not canonical |
| `RemoteValues.IndexAfterName` | packages/core/src/remote-operations.ts:200-219 | entries b and 1 are accepted and come back as 1 and b |
| `RemoteValues.ReorderEnumerates` | packages/core/src/remote-operations.ts:200-219 | an object lists array indexes first and ascending, each name once |
| `RemoteValues.ReorderFixed` | packages/core/src/remote-operations.ts:148-158 | entries in that order stay as they are |
| `RemoteValues.ReorderStable` | packages/core/src/remote-operations.ts:200-219 | names that are no array index keep the order they came in |
| `RemoteValues.IndexMeans` | packages/core/src/remote-operations.ts:200-219 | an array index is what an integer below 2^32-1 prints as |
| `RemoteValues.ScalarRanges` | packages/core/src/remote-operations.ts:122-140 | big integers of 64 bits and finite doubles are encoded, and no others |
| `RemoteValues.ParseDecimal` | packages/core/src/remote-operations.ts:184-197 | accepted integer text is what the integer prints as, except minus zero |
| `RemoteValues.DecodeValue` | packages/core/src/remote-operations.ts:161-226 | the recursive decoder with its key set computes `Decode` |
| `Accounting.EndsHaveStarts` | packages/core/src/message.ts:732-838 | in an accepted response without ERROR each SUB_END closes one SUB_START, and commits and segments are inside a section |
| `Accounting.StartsHaveEnds` | packages/core/src/message.ts:732-838 | and each SUB_START is closed |
| `Accounting.VClient.Account` | load/src/vclient.ts:130-184 | throws exactly on ERROR frames and broken inline segments; rows, final states and completeness as the sections say |
| `Accounting.ClosesItsSection` | load/src/vclient.ts:142-176 | a SUB_END updates the subscription its own SUB_START named |
| `Accounting.LastSectionWins` | load/src/vclient.ts:159-172 | final cursors are those of the last section of each subscription |
| `Accounting.AccountNeverThrows` | load/src/vclient.ts:144-148 | no inline segment of a decoded response fails |
| `Accounting.FrameRows` | load/src/vclient.ts:142-158 | what a frame adds to the rows: the rows of all blocks of an inline segment, a reference's count, a commit's changes, else nothing |
| `Accounting.ResponseSections` | packages/conformance/src/raw.ts:258-278 | each id maps to its last section: start, body in between, end |
| `Accounting.SectionFound` | packages/conformance/src/raw.ts:258-278 | a section whose id does not come again is found under it |
| `Accounting.SectionsDisjoint` | packages/conformance/src/raw.ts:258-278 | sections do not overlap |
| `Accounting.EveryFrameHasItsSection` | packages/conformance/src/raw.ts:258-278 | and hold every edge, commit and segment frame |
| `Accounting.SectionsPartition` | packages/conformance/src/raw.ts:258-278 | with distinct ids the records returned, in frame order, concatenate to the frames from the first SUB_START on, but for unknown frames between sections |
| `Observations.Drain` | packages/conformance/src/scenario.ts:266-274 | splices out and resolves exactly the waiters that are due, last first |
| `Observations.DueBackwards` | packages/conformance/src/scenario.ts:266-274 | who is due is resolved in the reverse of the order they began to wait |
| `Observations.ResolvedOnceWhenDue` | packages/conformance/src/scenario.ts:124-187 | each waiter is resolved once, at the first moment its counter stands at its threshold |
| `TrafficRuns.Replay` | packages/conformance/src/scenario.ts:99-274 | a new observer told any mix of waits, texts, binary messages, acknowledgements and closes: every waiter of every counter resolved once when due, close waiters exactly at the close, the flag and the rounds as the messages say |
| `Traffic.RealtimeObservations.ObserveServerBinary` | packages/conformance/src/scenario.ts:223-242 | routes by tag: feeds the scanner of the round or counts a delta |
| `Traffic.RealtimeObservations.ObserveAck` | packages/conformance/src/scenario.ts:244-263 | the level becomes the greatest cursor and its waiters are drained |
| `Traffic.RealtimeObservations.ObserveServerClose` | packages/conformance/src/scenario.ts:188-191 | resolves everybody who waits for the close |
| `Traffic.OpenMeans` | packages/conformance/src/scenario.ts:223-234 | a round lasts from a chunk outside any round to the chunk that completes its message |
| `Traffic.TagRouting` | packages/conformance/src/scenario.ts:223-242 | tag 0 is a delta, tag 1 feeds the round in flight, any other is ignored |
| `Traffic.TrafficMeans` | packages/conformance/src/scenario.ts:99-242 | the flag is set exactly when a delta arrived inside a round, and rounds counted are scans completed |

## Left out

- The sync server, its storage and the SQLite client: they are not part of this model.
- packages/core/src/crypto.ts, packages/crypto and packages/crdt-yjs: they rest on WebCrypto and Yjs.
- packages/core/src/realtime.ts and packages/core/src/blob-ref.ts: field-by-field JSON checks; blob-reference validity is a parameter.
- The debug rendering of packages/core/src/render.ts apart from base64: it is lossy and not on the wire.
- Lone surrogates: text is Unicode scalars, so what `TextEncoder` and `JSON.stringify` do with half a pair is not modelled.
- The identity of integer and float cells: JavaScript has one number type, the model has two kinds of cell value.
- Object members that are present but `undefined`: an optional field is there or it is not.
- Sharing of memory between a returned message or payload and the buffer it is a view of.
- Non-integral numbers in integer fields, which the encoder refuses: those fields are integers.
- The envelopes around remote values and the JSON text they travel in.
- The delivery of native events across a security preflight, which depends on native code.
- Listeners, change batches and the queries of the React Native bridge: they do not touch the scheduler or the gate.
- Envelope.DecodeMessage: its turn count leaves out the loops inside the normalization of rejection details, which run over a parsed JSON value and not over the input.
- The JSON parsing in the observers: a text message is modelled as the event it carries.
- Frames of the wrong kind in a message given to the encoder, which TypeScript's types exclude: `MessageLaws.MessageRoundTrip` asks for `WellTyped`.
