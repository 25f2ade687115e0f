# Protobuf codec and gRPC transport: a verification model

This project models, in Dafny, how the binary protobuf serializer of Qt Protobuf prints and parses
messages, how the HTTP/2 transport of Qt GRPC runs calls on a channel, and two smaller formats: the
packed metadata table and the JSON text of a Duration. Every file is verified by
`dafny verify dfyconfig.toml`; nothing is executed.

The format follows the Protocol Buffers encoding ("Base 128 Varints", "Signed Integers", "Packed
Repeated Fields", "Last One Wins"), the gRPC PROTOCOL-HTTP2 document ("Length-Prefixed-Message",
"Responses") and section 8.1 of RFC 9113. Where the code departs from them, the model follows the
code: a packed chunk replaces a repeated field instead of being appended to it; a message, map or
single enum field is read whatever its wire type; a varint wider than its field is truncated; a oneof
member of message type that is unset is updated from its sibling of the same type, if that is set.

## How it is organised

The codec has two layers.

- Functions on values say what octets mean: `Varint`, `Scalars` (scalar codecs), `Schema` (message
  types, messages, the property store), `Records` (one field on the wire), `Decoder` and `Encoder`
  (the reference decoder and encoder). The reference decoder nests by construction and writes every
  field through at once.
- Classes work as the program does: `Cursors`, `Deserializer` (one cursor over the whole input, a
  stack of end limits tested by inequality only, a one-entry write-back cache, a word-packed set of
  seen fields, parents that go on after an inner error) and `Serializer` (a buffer, a stack of
  buffers set aside, the list of types being made up). `Progress` and `Bitsets` carry the proof that
  the deserializer accepts exactly what the reference decoder accepts, with the same message.

Above the reference layer: `RoundTrip` and `ReadBack` (what comes back from the octets of any
message), `Consequences` (when that is the message itself; the 32-bit cut of nested sizes), `Required`
(when it is accepted at all: required cycles), `Cleanliness` and `Stability` (decoded messages), with
`MapValues` as the input that `Stability` has to leave out, `Evolution` (forwarding by an older
schema) and `WireCheck` (the check of the input that forwarding asks for).

Reading back cannot tell two outputs apart that read the same, nor two readers that agree on what the
encoder writes. So the formats are also pinned down by themselves: `Wire` (the octets of numbers,
headers and frames), `Inputs` (an input as a list of records, and which inputs are accepted), `Outputs`
(the list of records that is printed) and `Repeats` (fields that occur more than once).

The transport: `Frames` (the message parser), `Headers` (response headers), `Calls` (the state of a
call and its step for every event), `CallSafety`, `CallTheorems` and `CallStreams` (what holds in
every run), `Http2Handler` (the handler's slots as a class, each proved to be its step),
`Operations` (the user's side), `Channels`, `ChannelSafety` and `Http2Channel` (the same for the
channel). `Requests` says what of the user's writes becomes part of a request, `Outcomes` which status
ends a call, `ChannelOutcomes` what a channel does to its calls. Answers of the transport, such as how much of a frame goes out at once, come as parameters,
so a statement about every run covers every behaviour of the transport.

`Ordering` is the metadata table builder and its readers on one array of octets; `Durations` is the
Duration printer and parser.

## What is assumed

- Varints have at most ten octets and an unknown length-delimited field is shorter than 2^63 octets;
  the program's arithmetic is undefined or signed beyond that, and the model reports an error there.
- The octet behind the input reads as zero, as it does in a `QByteArray`.
- A hash is listed in the order its iterator visits it, a new key last; statements hold for every order.
- User code does not re-enter the channel in the middle of a step. The transport may re-enter the
  handler from `sendDATA`, and does so in the model.
- A stream object goes away only when its call has ended.
- A socket reports that it has connected only after it was told to connect, once for each time, and a
  socket that is connected already is not made to connect again.
- Calls with a single request message neither write nor end their writes, as the context asserts.

## Model

| member | source | states |
|---|---|---|
| Varint.RoundTrip | src/protobuf/protobufscalarserializers_p.h:257-272 | a 64-bit value followed by any octets is read back with exactly its own octets, ten at most |
| Varint.WriteIsShortest | src/protobuf/protobufscalarserializers_p.cpp:8-23 | no varint spells a value in fewer octets than the printer uses |
| Varint.Serialize | src/protobuf/protobufscalarserializers_p.cpp:8-23 | the loop that marks every octet as continued and unmarks the last prints the reference varint, zero included |
| Scalars.ZigZagRoundTrip32 | src/protobuf/protobufscalarserializers_p.h:197-205 | the shift-and-xor form is the zigzag numbering and is undone by its inverse, over all 32-bit values |
| Scalars.ZigZagRoundTrip64 | src/protobuf/protobufscalarserializers_p.h:197-205 | the same over all 64-bit values |
| Scalars.WireRoundTrip | src/protobuf/protobufscalarserializers_p.h:197-213 | for every kind, the unsigned number put on the wire (sign-extended, zigzag, fixed) turns back into the value |
| Scalars.ShapeRoundTrip | src/protobuf/protobufscalarserializers_p.cpp:31-50 | varint, fixed-width and length-delimited payloads are recovered from their octets, whatever follows |
| Scalars.NumberRoundTrip | src/protobuf/protobufscalarserializers_p.h:275-320 | a number of any kind followed by any suffix is read back, and the suffix is left |
| Scalars.PackedRoundTrip | src/protobuf/protobufscalarserializers_p.h:227-251 | the elements of a packed list tile their octets and come back in order |
| RoundTrip.EitherPacking | src/protobuf/qprotobufserializer.cpp:509-531 | a repeated number reads the same from its packed and its unpacked form, whichever the schema declares |
| RoundTrip.PackedRecord | src/protobuf/protobufscalarserializers_p.h:338-367 | a packed chunk replaces what the field held before |
| Records.HeaderRoundTrip | src/protobuf/qprotobufserializer.cpp:365-384 | a legal field number and wire type come back from their tag, followed by anything |
| Records.RecordWindow | src/protobuf/qprotobufserializer.cpp:434-491 | cutting the input behind a record does not change how it reads, and cutting into it spoils it |
| Wire.VarintOctets | src/protobuf/protobufscalarserializers_p.cpp:8-23 | every octet of a printed varint holds its seven bits of the number, the lowest first, and all but the last are marked |
| Wire.VarintRead | src/protobuf/protobufscalarserializers_p.h:257-272 | any run of continued octets, the shortest form or not, is read as the number its groups of seven bits stand for |
| Wire.FixedOctets | src/protobuf/protobufscalarserializers_p.h:145-195 | every octet of a fixed-width number is its own eight bits, the lowest first |
| Wire.NumberOctets | src/protobuf/protobufscalarserializers_p.h:145-213 | the form of a number by its kind: negative plain numbers as 64-bit varints, zigzag numbers as 2n or -2n-1, fixed ones in four or eight octets |
| Wire.WiderIsCut | src/protobuf/protobufscalarserializers_p.h:287-320 | a varint wider than its field is cut to the low bits, for every 64-bit value; a truth value is anything but zero |
| Wire.TagOctets | src/protobuf/qprotobufserializer.cpp:588-605 | the three low bits of a tag mean varint, 64 bits, chunk and 32 bits; groups and the unused values are refused |
| Wire.HeaderIff | src/protobuf/qprotobufserializer.cpp:588-605 | a header is read exactly where the low 32 bits of a varint are the tag of a number and a wire type |
| Wire.WireTypeIgnored | src/protobuf/qprotobufserializer.cpp:466-482 | a message or single enum is read alike under every wire type |
| Wire.WireTypeChecked | src/protobuf/qprotobufserializer.cpp:509-531 | any other field is refused unless its wire type is its own, or that of a packed list |
| Wire.FrameOctets | src/grpc/qgrpchttp2channel.cpp:1323-1324 | a message on the stream is its flag, four octets of length with the highest first, and its payload |
| Inputs.AcceptedInput | src/protobuf/qprotobufdeserializerbase.cpp:38-124 | whatever the message held before, an input is accepted if and only if, at every depth, its records can be read and every required field of any kind has one |
| Inputs.RequiredIff | src/protobuf/qprotobufdeserializerbase.cpp:128-155 | an input that can be read is accepted if and only if each required field has a record in it |
| Outputs.OutputItems | src/protobuf/qprotobufserializerbase.cpp:21-79 | what is printed is a list of records: those of the fields in the order of the fields, each field as often and with the header its schema asks for (none for a zero without presence, one for a packed list, one for each element otherwise), unknown records last and only if kept |
| Outputs.ListForms | src/protobuf/qprotobufserializer.cpp:291-343 | a packed list is exactly one chunk of its elements, an unpacked one a record with the wire type of its kind for each element |
| Repeats.LastScalarWins | src/protobuf/qprotobufserializer.cpp:493-532 | of several records of a singular scalar field, or of its oneof, the last decides, whatever stands in between |
| Repeats.UntouchedKeeps | src/protobuf/qprotobufdeserializerbase.cpp:38-124 | a field that the input does not mention keeps its value |
| Repeats.BodiesMerge | src/protobuf/qprotobufdeserializerbase.cpp:22-36 | several bodies of a sub-message are merged into what was there, as if they had come as one body |
| Repeats.SiblingMerges | src/protobuf/qprotobufoneof.cpp:171-176 | an unset oneof member of message type takes over a sibling of the same type, which is unset |
| Repeats.LastEntryWins | src/protobuf/qprotobufrepeatediterator.h:49-90 | of several entries with one key the map holds the last, and keys that are not mentioned keep their entries |
| Schema.GetAfterSet | src/protobuf/qtprotobufserializerhelpers.cpp:9-59 | a value written to a property is the value read back for update |
| Schema.SetAfterSet | src/protobuf/qtprotobufserializerhelpers.cpp:37-59 | the last of two writes to a field wins, oneof siblings included |
| Decoder.DecodeAppend | src/protobuf/qprotobufdeserializerbase.cpp:38-124 | decoding a concatenation is decoding the second part from where the first left off |
| ReadBack.ReadBack | src/protobuf/qprotobufserializer.cpp:646-672 | for every schema and every message of the store (nested, repeated, maps in any order, oneofs, unknown records), decoding its octets yields exactly what `Reread` says of the message: itself, with required sub-messages made up and implicit negative zeros lost, or failure on a required cycle |
| Consequences.DecodeEncode | src/protobuf/qprotobufserializer.cpp:646-672 | encode then decode returns an equal message if and only if, at every depth, no required sub-message is unset, no implicit floating-point field is a negative zero, and the program keeps unknown records or there are none |
| Required.AcceptedIff | src/protobuf/qprotobufserializerbase.cpp:90-108 | whatever is printed of a clean message is accepted if and only if, at every depth, each message in it has a type whose chain of required sub-message types ends |
| Required.AcyclicAccepted | src/protobuf/qprotobufserializerbase.cpp:90-108 | when no set of types is a required cycle, whatever is printed is accepted |
| Required.CycleRejected | src/protobuf/qprotobufserializerbase.cpp:95-100 | no finite message satisfies a required cycle: printing still ends, and the octets are accepted for no message of a type on the cycle, whatever is set in it |
| Required.RankedIff | src/protobuf/qprotobufserializerbase.cpp:95-100 | the required sub-message types of a schema can be ranked, each below its owner, if and only if no non-empty set of types is a required cycle |
| Consequences.CutIsIdle | src/protobuf/qprotobufserializer.cpp:351-363 | cutting nested sizes to 32 bits has no effect on a result below 2^32 octets |
| Cleanliness.DecodedClean | src/protobuf/qprotobufdeserializerbase.cpp:38-124 | whatever is decoded into a message of the store leaves one: oneofs exclusive, map keys distinct, stored records unknown |
| Stability.Reencoded | src/protobuf/qprotobufserializer.cpp:646-672 | a decoded message with no implicit negative zero is a fixed point of encoding and decoding, unless the schema has a map whose value type itself requires a sub-message |
| MapValues.EntryWithoutValue | src/protobuf/qprotobufserializer.cpp:646-672 | for such a map it is not: an entry that came without its value is decoded to a message that encoding and decoding turns into another one |
| Stability.UnknownKept | src/protobuf/qprotobufmessage.cpp:118-124 | unknown records are kept octet for octet and in order for each number |
| Stability.UnknownDropped | src/protobuf/qprotobufmessage.cpp:118-124 | a program that does not keep unknown records stores none |
| Evolution.SameToBoth | src/protobuf/qprotobufserializer.cpp:451-464 | two inputs that an older schema decodes alike are alike to a newer one |
| Evolution.Forwarding | src/protobuf/qprotobufserializer.cpp:280-289 | decoding with an older schema, encoding again and decoding with a newer one gives what the newer one makes of the original, and accepts exactly the same inputs when it requires nothing new; the condition is on the message of the older program |
| WireCheck.DecodedLiftable | src/protobuf/qprotobufserializer.cpp:451-464 | an input in which every record of a newer field has that field's wire type is decoded by the older schema to a message that meets the condition of forwarding |
| WireCheck.ForwardingChecked | src/protobuf/qprotobufserializer.cpp:280-289 | the same as `Evolution.Forwarding`, with that check of the input in place of the condition on the decoded message |
| Bitsets.HasAfterAdding | src/protobuf/qprotobufdeserializerbase.cpp:44-51 | setting one bit in the 64-bit words changes the answer for that field index only |
| Cursors.Cursor.ReadVarint | src/protobuf/protobufscalarserializers_p.h:257-272 | the loop kept to 64 bits reads the number that the octets spell and moves behind it |
| Cursors.Cursor.TakeFixed | src/protobuf/protobufscalarserializers_p.h:275-285 | a fixed-width number is read whole or the iterator stays |
| Cursors.Cursor.TakeChunk | src/protobuf/protobufscalarserializers_p.cpp:36-50 | length-delimited octets are delivered only if all of them are there |
| Cursors.Cursor.TakePacked | src/protobuf/protobufscalarserializers_p.h:338-367 | the list is accepted exactly when its elements tile the declared length, though only the whole input bounds each element |
| Cursors.Cursor.PassVarint | src/protobuf/qprotobufserializer.cpp:563-568 | skipping ends behind the varint, or one past the input on the terminator |
| Progress.BodyDone | src/protobuf/qprotobufdeserializerbase.cpp:22-36 | what is still due behind a nested body depends on the body only through the value it gives its field |
| Progress.ScalarDone | src/protobuf/qprotobufserializer.cpp:493-532 | a scalar read from the whole input counts only if it ends inside its limit |
| Deserializer.Deserializer.SkipField | src/protobuf/qprotobufserializer.cpp:534-580 | an unknown payload is passed exactly, or an error is recorded |
| Deserializer.Deserializer.DecodeHeader | src/protobuf/qprotobufserializer.cpp:588-605 | a tag is accepted exactly when the reference reader accepts it |
| Deserializer.Deserializer.NextFieldIndex | src/protobuf/qprotobufserializer.cpp:434-491 | either the next known field with its limit pushed, or the end of the frame with its own limit popped and the cursor on it, or a recorded error |
| Deserializer.Deserializer.EnterBody | src/protobuf/qprotobufserializer.cpp:466-482 | a nested body is entered only if it lies in the input, and bodies nest no deeper than half the input's length |
| Deserializer.Deserializer.DeserializeEnum | src/protobuf/qprotobufserializer.cpp:414-432 | an enum occurrence updates the cached value as the reference does |
| Deserializer.Deserializer.DeserializeScalarField | src/protobuf/qprotobufserializer.cpp:493-532 | so does a scalar occurrence; a wrong wire type or a short payload leaves an error and no value |
| Deserializer.Deserializer.StoreCachedValue | src/protobuf/qprotobufdeserializerbase.cpp:157-176 | the pending write is carried out and the cache is empty |
| Deserializer.Deserializer.FetchCache | src/protobuf/qprotobufdeserializerbase.cpp:52-63 | after the cache has moved, it holds what a get on the written-through message would give, and writing back through it assigns that message's field |
| Deserializer.Deserializer.DeserializeMessageField | src/protobuf/qprotobufdeserializerbase.cpp:22-36 | the parent's pending write survives the recursion |
| Deserializer.Deserializer.CheckRequiredFields | src/protobuf/qprotobufdeserializerbase.cpp:128-155 | without a pending error, the frame is refused exactly when a required field, of whatever kind, has not been seen |
| Deserializer.Deserializer.DeserializeMessage | src/protobuf/qprotobufdeserializerbase.cpp:38-124 | a frame succeeds exactly when the reference decoder accepts the slice up to its limit, with that message, the cursor on the limit and only its own limit popped; otherwise an error is recorded and the limit stack has lost at most one entry |
| Deserializer.Deserialize | src/protobuf/qprotobufserializer.cpp:661-672 | an input within the maximum size is accepted exactly when its records can be read and, at every depth, no required field of any kind is missing, and then with the message of the reference decoder; a larger one is refused |
| Serializer.SerializeListType | src/protobuf/protobufscalarserializers_p.h:227-240 | the loop prints the packed form with its size in front |
| Serializer.SerializeNonPackedList | src/protobuf/protobufscalarserializers_p.h:242-251 | the loop prints one tagged record for each element |
| Serializer.Serializer.SerializeScalar | src/protobuf/qprotobufserializer.cpp:291-343 | a scalar, list or enum field appends its reference octets, nothing when it looks default and has no presence |
| Serializer.Serializer.SerializeMessageFieldEnd | src/protobuf/qprotobufserializer.cpp:351-363 | the finished body moves behind what was set aside, unknown records included |
| Serializer.Serializer.SerializeDefaultMessageField | src/protobuf/qprotobufserializerbase.cpp:90-108 | an unset required message is made up once per type in progress, and the list of types is restored |
| Serializer.Serializer.SerializeMessage | src/protobuf/qprotobufserializerbase.cpp:21-79 | the buffer grows by the reference encoding of the fields, the stacks are left as they were, and it ends on every schema |
| Serializer.Serialize | src/protobuf/qprotobufserializer.cpp:646-659 | the result is the reference encoding, free of truncated sizes, or the too-large error exactly beyond 2^31-1 octets; for a clean message its records are those of `Outputs.OutputItems` |
| Frames.ChunkingIndependent | src/grpc/qgrpchttp2channel.cpp:1058-1074 | however a stream is cut, the frames, the oversize error and the left-over octets are those of the stream fed at once |
| Frames.FramesRecovered | src/grpc/qgrpchttp2channel.cpp:561-596 | framed messages within the limit come back exactly, and what follows is parsed as if alone |
| Frames.NothingLost | src/grpc/qgrpchttp2channel.cpp:561-596 | without an oversize error the stream is its frames and the rest |
| Frames.DrainSettles | src/grpc/qgrpchttp2channel.cpp:561-596 | what is left over is shorter than a header and a message of maximum size |
| Frames.EndsCleanly | src/grpc/qgrpchttp2channel.cpp:1125-1132 | nothing is left over exactly when the stream is a sequence of allowed frames |
| Frames.DataParser.ParseNextFrame | src/grpc/qgrpchttp2channel.cpp:561-596 | one frame is taken off the front, the buffer is left alone, or it is dropped |
| Frames.DataParser.Receive | src/grpc/qgrpchttp2channel.cpp:1058-1074 | the drain loop ends and yields every complete frame |
| Outcomes.DataEnds | src/grpc/qgrpchttp2channel.cpp:1053-1133 | plain messages are delivered in order; a length beyond the limit ends the call as resource exhausted, a compressed message as internal, the end of the stream inside a message as data loss, a clean end as Ok, and an unfinished message is kept |
| CallStreams.FeedIs | src/grpc/qgrpchttp2channel.cpp:1053-1124 | a body received in chunks delivers what it delivers in one piece, up to the first error, which ends the call |
| CallStreams.EndStreamOk | src/grpc/qgrpchttp2channel.cpp:1125-1133 | END_STREAM ends the call Ok exactly when the body is a sequence of plain messages within the limit, and then those were received |
| Headers.HandleHeaders | src/grpc/qgrpchttp2channel.cpp:1495-1650 | the loop reaches the verdict of the first objection, then of what is missing, then of the last status |
| Headers.LastStatusIsLegal | src/grpc/qgrpchttp2channel.cpp:1542-1554 | the status is set, and legal, whenever it is looked at |
| Headers.EndsOk | src/grpc/qgrpchttp2channel.cpp:1621-1649 | headers end a call Ok exactly when nothing is missing or objected to and the last status is Ok |
| Outcomes.TrailersOk | src/grpc/qgrpchttp2channel.cpp:1495-1650 | trailers make a live call finish Ok if and only if no header in them offends, none is missing and the last status is zero |
| Outcomes.StatusEnds | src/grpc/qgrpchttp2channel.cpp:1621-1649 | trailers with nothing to object to finish the call with exactly the last status in them |
| Outcomes.OffenderEnds | src/grpc/qgrpchttp2channel.cpp:1532-1580 | the first header that is not allowed (an HTTP status other than 200, another content type, an illegal status, an encoding not offered) finishes the call with the status of its kind |
| Outcomes.MissingEnds | src/grpc/qgrpchttp2channel.cpp:1621-1634 | the lack of a header that the phase asks for finishes the call as internal |
| Outcomes.HeadersContinue | src/grpc/qgrpchttp2channel.cpp:1636-1639 | response headers with nothing to object to leave the call active and raise nothing |
| Outcomes.HeadersIgnored | src/grpc/qgrpchttp2channel.cpp:1012-1036 | any other headers change nothing |
| Outcomes.GivenStatus | src/grpc/qgrpchttp2channel.cpp:1439-1477 | a live call that is cancelled, fails or comes to its scheduled end raises exactly the status it is given |
| Outcomes.Unheard | src/grpc/qgrpchttp2channel.cpp:1439-1456 | without a context nothing is raised or reported, and what would have been raised cancels the call |
| Requests.WriteAccepted | src/grpc/qgrpchttp2channel.cpp:1274-1333 | a write on an open call adds exactly one message, which any parser takes as one plain frame with its data; one too large ends the call; on a call that is not open nothing changes |
| Requests.RequestIs | src/grpc/qgrpchttp2channel.cpp:1274-1333 | in every run, the request is the first message, the writes that came while the call was open, and the end mark if it came then, each in a message of its own, in order |
| Requests.RequestIsAsked | src/grpc/qgrpchttp2channel.cpp:1479-1493 | on a call of several messages that is still going on and whose stream nobody closed, that is every write up to the end of the writes |
| Requests.EndsIff | src/grpc/qgrpchttp2channel.cpp:1411-1416 | in every run, a message handed over ends the stream if and only if it is the end mark or the one message of its call |
| Requests.SuppressedWhenOver | src/grpc/qgrpchttp2channel.cpp:1428-1437 | messageWritten is never suppressed on a live call with a context |
| CallTheorems.SentInOrder | src/grpc/qgrpchttp2channel.cpp:1387-1421 | in every run, what was handed to the transport is a prefix of what was accepted, the queue is the rest, and nothing precedes the request HEADERS, sent once at most |
| CallTheorems.EndsOnce | src/grpc/qgrpchttp2channel.cpp:1401-1420 | in every run, END_STREAM goes with the last message ever accepted and with no other |
| CallTheorems.NoLostWakeup | src/grpc/qgrpchttp2channel.cpp:1146-1156 | at rest, with the stream open and no refused message, a queue that could move is being moved |
| CallTheorems.BytesConserved | src/grpc/qgrpchttp2channel.cpp:1408-1411 | in every run, the octets queued are those of the queue, and the octets to write are those of the queue, of the rest of the message in transmission, and of messages refused or given up, exactly; so both assertions about the counters hold |
| CallTheorems.WrittenPerMessage | src/grpc/qgrpchttp2channel.cpp:1428-1437 | messages the transport took and that did not end the stream are in one-to-one balance with messageWritten: emitted, deferred, suppressed, in flight or given up |
| CallTheorems.ResponseShape | src/grpc/qgrpchttp2channel.cpp:1012-1042 | the header phases are a prefix of Initial then Trailers, or TrailersOnly alone; trailers end the call; a status is raised more than once only after a cancellation |
| CallTheorems.TerminalForever | src/grpc/qgrpchttp2channel.cpp:1439-1477 | an ended call stays ended: no message accepted, no HEADERS, no messageWritten, no header phase ever after |
| CallTheorems.RaisesAgainIff | src/grpc/qgrpchttp2channel.cpp:1439-1450 | in every run, a call that has raised a status can raise another one if and only if it was cancelled and its context is still there |
| CallSafety.StepKeeps | src/grpc/qgrpchttp2channel.cpp:1005-1157 | every event keeps the call's invariants |
| CallSafety.FinishingKeeps | src/grpc/qgrpchttp2channel.cpp:1439-1450 | finish() leaves every call ended, with the invariants on what was sent, counted, looked at and raised; a finished call raises nothing more and a cancelled one stays cancelled |
| CallSafety.EndingKeeps | src/grpc/qgrpchttp2channel.cpp:1439-1477 | a cancellation, a finish, and one scheduled and fired later keep the call's invariants, in whatever order they come |
| Http2Handler.Http2Handler.ProcessQueue | src/grpc/qgrpchttp2channel.cpp:1387-1421 | the drain loop, re-entered by uploads that finish inside sendDATA, hands over what the step says, and its assertion holds |
| Http2Handler.Http2Handler.UploadFinishedSlot | src/grpc/qgrpchttp2channel.cpp:1146-1156 | a finished upload is booked once; the queue moves on unless the loop is already moving it |
| Http2Handler.Http2Handler.WriteMessage | src/grpc/qgrpchttp2channel.cpp:1274-1333 | a message is framed, counted and queued, and the request has it; it is ignored when the call is closed for writing, and ends the call when too large |
| Http2Handler.Http2Handler.WritesDone | src/grpc/qgrpchttp2channel.cpp:1479-1493 | the end mark is queued once, unless the stream is closed for sending |
| Http2Handler.Http2Handler.SendInitialRequest | src/grpc/qgrpchttp2channel.cpp:1352-1369 | HEADERS go out and the queue starts to move, or the call is to end as unavailable |
| Http2Handler.Http2Handler.BytesWritten | src/grpc/qgrpchttp2channel.cpp:1138-1144 | written octets leave the counter, which is never too small |
| Http2Handler.Http2Handler.HeadersReceived | src/grpc/qgrpchttp2channel.cpp:1012-1042 | the phase follows from state and END_STREAM, and the call from the verdict; trailers finish it Ok exactly when nothing in them offends and the last status is zero |
| Http2Handler.Http2Handler.DataReceived | src/grpc/qgrpchttp2channel.cpp:1053-1133 | a chunk delivers its messages and ends the call as the step says |
| Operations.FinishedOnce | src/grpc/qgrpcoperation.cpp:204-223 | in every run of handler and operation together, finished reaches the user at most once, with the first status raised, seen through the interceptors |
| Operations.FailedWriteRaisesTwice | src/grpc/qgrpcoperation.cpp:456-463 | a write that does not serialize raises two statuses and the user sees the first |
| Operations.StepDelivers | src/grpc/qgrpcoperation.cpp:204-223 | every status that the handler raises is passed on by the context, behind those raised past it |
| Operations.HandlerStatusSeen | src/grpc/qgrpcoperation.cpp:204-223 | in every run in which only the handler raises, the user sees its first status as soon as there is one |
| Operations.CancelEnds | src/grpc/qgrpcoperation.cpp:318-332 | cancelling an operation under way ends its call and shows the user that it was cancelled; a finished one, or one without channel, is left alone |
| Operations.WriteReaches | src/grpc/qgrpcoperation.cpp:463-465 | what the user writes on an open call becomes the last message of its request |
| Operations.DoneReaches | src/grpc/qgrpcoperation.cpp:467-480 | and so does the end mark |
| ChannelSafety.ChannelRunKeeps | src/grpc/qgrpchttp2channel.cpp:1778-1889 | every interleaving of starts, connects, SETTINGS, errors and events of single calls keeps the channel's invariant |
| ChannelSafety.OneConnection | src/grpc/qgrpchttp2channel.cpp:1825-1829 | in every run, a connection exists exactly in the Connected and SettingsReceived states, and no socket is about to connect then, so none is made over another |
| ChannelSafety.CallsInPlace | src/grpc/qgrpchttp2channel.cpp:1778-1814 | live calls are Idle without stream while connecting, Idle with stream (or about to end) once connected, past Idle (or about to end) after SETTINGS, and absent after an error; HEADERS go out at most once per call |
| ChannelSafety.InitialRequestsAllowed | src/grpc/qgrpchttp2channel.cpp:1352-1360 | when SETTINGS come, a live call is Idle, as asserted, and has the stream asserted if and only if the connection has not refused it one |
| ChannelSafety.EndedCallsHaveStreams | src/grpc/qgrpchttp2channel.cpp:1352-1360 | a call that has ended but still has its context is visited too, and has a stream unless the present connection has refused one |
| ChannelSafety.StreamMissing | src/grpc/qgrpchttp2channel.cpp:2132-2148 | a refusal is reachable: a failed creation followed by SETTINGS reaches the assertion without a stream |
| ChannelSafety.StreamsUnattached | src/grpc/qgrpchttp2channel.cpp:1005-1008 | no call has a stream when the socket connects |
| ChannelSafety.StartCallKeeps | src/grpc/qgrpchttp2channel.cpp:1778-1814 | a call started in any state of the channel, whether or not it gets its stream and its HEADERS, stands where that state calls for and leaves the other calls where they were |
| ChannelOutcomes.KeptInOrder | src/grpc/qgrpchttp2channel.cpp:922-945 | a visit to the handlers drops those without a context and keeps all others in their order |
| ChannelOutcomes.SocketErrorEnds | src/grpc/qgrpchttp2channel.cpp:1867-1889 | a socket error ends every call that was heard: as unavailable, on top of what it had raised, unless it had finished before, and without a stream |
| ChannelOutcomes.ConnectedOrScheduled | src/grpc/qgrpchttp2channel.cpp:2132-2148 | in every run, each live call gets its stream when the socket connects, or is to end as unavailable |
| ChannelOutcomes.RequestedOrScheduled | src/grpc/qgrpchttp2channel.cpp:1352-1369 | in every run, each live call sends its HEADERS when the first SETTINGS come, or is to end as unavailable |
| ChannelOutcomes.ScheduledEnds | src/grpc/qgrpchttp2channel.cpp:1451-1456 | in every run, whenever the scheduled end of a live call comes it finishes as unavailable |
| ChannelOutcomes.StartedJoins | src/grpc/qgrpchttp2channel.cpp:1778-1800 | a started call joins the handlers with its first message in its request, and is to end as unavailable if it gets no stream or its HEADERS are not taken |
| ChannelOutcomes.NeverStuck | src/grpc/qgrpchttp2channel.cpp:1802-1823 | in every run, a channel that is connecting waits for its socket or for the timer that starts it |
| Http2Channel.QGrpcHttp2Channel.CreateHttp2Connection | src/grpc/qgrpchttp2channel.cpp:1825-1865 | every waiting call gets a stream or is to end; expired handlers go |
| Http2Channel.QGrpcHttp2Channel.SettingsFrameReceived | src/grpc/qgrpchttp2channel.cpp:1850-1862 | the first SETTINGS frame starts every waiting call, later ones none |
| Http2Channel.QGrpcHttp2Channel.HandleSocketError | src/grpc/qgrpchttp2channel.cpp:1867-1889 | every live call has finished as unavailable, in its place among those that are left, and the connection goes with the streams |
| Ordering.QProtobufPropertyOrderingBuilder.Build | src/protobuf/qprotobufpropertyordering.cpp:275-342 | a table is built exactly for a legal list of fields; its words and characters are all in place and fill the allocation |
| Ordering.EntryRead | src/protobuf/qprotobufpropertyordering.cpp:106-146 | number, property index and flags are read back as added, from inside the table |
| Ordering.NameRead | src/protobuf/qprotobufpropertyordering.cpp:93-104 | a name is the difference of adjacent offsets, and is the name added |
| Ordering.FullNameRead | src/protobuf/qprotobufpropertyordering.cpp:86-91 | the message name is read back |
| Ordering.IndexOfFieldNumber | src/protobuf/qprotobufpropertyordering.cpp:128-138 | the first field with the number, or -1 exactly when there is none; the inverse of the number reader when numbers are distinct |
| Durations.PrintNanos | src/wellknown/qprotobufwellknowntypesjsonserializers.cpp:117-127 | the loop over ever smaller powers of ten prints the nine digits without their trailing zeros |
| Durations.Print | src/wellknown/qprotobufwellknowntypesjsonserializers.cpp:78-134 | a valid duration prints as its sign, whole seconds, fraction and unit; an invalid one does not |
| Durations.FractionValue | src/wellknown/qprotobufwellknowntypesjsonserializers.cpp:117-127 | the printed fraction stands for the nanoseconds and does not end in a zero |
| Durations.Parse | src/wellknown/qprotobufwellknowntypesjsonserializers.cpp:137-171 | the value is what the matched digits stand for, scaled and signed |
| Durations.ParsedIff | src/wellknown/qprotobufwellknowntypesjsonserializers.cpp:142-166 | a text is accepted if and only if it is a sign or none, up to twelve digits, up to nine digits behind a point or none, and the unit (with a final newline or none), within the range; it stands for that number |
| Durations.PrintedIsTight | src/wellknown/qprotobufwellknowntypesjsonserializers.cpp:78-134 | the printed text has no leading zero, no trailing zero in its fraction, and a sign only for a negative duration |
| Durations.ParsedIsValid | src/wellknown/qprotobufwellknowntypesjsonserializers.cpp:153-166 | whatever is accepted is a valid duration, although the check comes before scaling and sign |
| Durations.RoundTrip | src/wellknown/qprotobufwellknowntypesjsonserializers.cpp:78-171 | parsing the printed form of a valid duration returns it, in at most 24 characters |
| Durations.PrintedOnce | src/wellknown/qprotobufwellknowntypesjsonserializers.cpp:78-134 | distinct valid durations have distinct texts |

## Left out

- Varint.Serialize: takes any natural number; sizes of octet strings are not bounded by 2^63 as they are in memory.
- Cursors.Cursor.ReadVarint: fails on an eleventh octet, where the program shifts by 70 bits and more.
- Deserializer.Deserialize: the message after a failed parse is not modelled, only that an error is recorded.
- Evolution.Forwarding: the condition is on what the older program decoded; `WireCheck` derives it from the input. Schemas without oneofs and maps; no implicit negative zeros, which encoding drops; records of newer fields must be single well-delimited occurrences for the newer schema; without the condition on required fields it speaks of inputs that the newer schema accepts on both ways.
- Stability.Reencoded: maps whose value type requires a sub-message are excluded, since an entry whose value never came holds a default message with it unset; `MapValues` has such an input.
- ChannelSafety.OneConnection: that a connected socket does not connect again is assumed of the socket.
- ChannelSafety.InitialRequestsAllowed: of calls that have ended, only whether they have a stream is stated, on its own. A handler that has ended but is not deleted yet may meet the assertion on its cleared headers after a reconnect; only calls with a context and the assertions on state and stream are covered.
- Http2Handler.Http2Handler.WriteMessage: the outgoing message is never compressed.
- Http2Handler.Http2Handler.SendInitialRequest: the deadline timer started here is a cancellation that may come at any time.
- Http2Handler.Http2Handler.DataReceived: a compressed frame is an error, as no encoding is ever negotiated in the model.
- Outcomes.OffenderEnds: the table from HTTP status to gRPC status is taken over as it is; only that 200 alone means Ok is stated of it.
- Repeats.BodiesMerge: members of a oneof are covered one record at a time, by `Repeats.SiblingMerges`.
- Headers.HandleHeaders: header names and values are classified beforehand; metadata and encodings other than identity are not modelled.
- Ordering.QProtobufPropertyOrderingBuilder.Build: asks for names whose offsets fit 32 bits, as the program asserts.
- Message properties are values: the aliasing of sub-message pointers, copy-on-write and the meta-object system are not modelled; a typed store never refuses a write.
- Strings are octets: no UTF-8. Floating-point numbers are bit patterns.
- Custom type handlers, proto2 default values other than zero, and the JSON message serializer.
- Interceptors other than one that maps the final status; zlib compression; sockets, TLS, timers, deadlines as time, reconnect backoff, logging.
- Sending RST_STREAM: a closed stream is an event of its own.
- The destruction of a channel, and a call refused because its socket is not writable, which never becomes a handler.
- Re-entrancy of user code, and the guard against a socket error inside a socket error.
- The mapping of HTTP/2 error codes to statuses, receive windows, option setters, code generators.
