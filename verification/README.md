# WebSocket service: a verified model

This project models, in Dafny, the core of a small C++ WebSocket service and proves what its parts promise each other:

- **Framing** (RFC 6455, sections 5.2 and 5.3). The client's whole-buffer encoder and decoder, and the server's
  reader, which stops wherever the socket runs dry and resumes on the next event. `FrameDecoding` is the reader as a
  function; `PacketReading` is the code over the packet object and the socket; `Segmentation` runs it over a stream
  that arrives in arbitrary pieces; `ClientSending` is the client's sending routine, up to what the server delivers.
  `PublishedExamples` holds frames, base 64 texts and UTF-8 sequences that the standards print.
- **Connection.** The server's state machine for one connection: head, handshake reply, frames, upload, results.
  `Uploads` says what each call of the reader leads to and relates it to the frames; `Connections` is the object with
  its fields, its socket and everything it sends; `Replies`, `ResultTexts` and `ResultFrames` are what it sends;
  `Sessions` says what a client's messages make of an upload.
- **Handshake** (RFC 6455, section 4.2.2). The client's request, the server's reading of it, the accept key computed
  twice (SHA-1 object and base 64 on the server; hexadecimal digest, its conversion back to bytes and another base 64
  on the client), and the client's check. `Sha1Digest` is FIPS PUB 180-1, sections 4 to 7; `Sha1` is the streaming
  object; `Base64Text` is section 4 of RFC 4648. `AcceptExample` carries the example of section 1.3 of RFC 6455 through
  all 160 rounds; `HeadTexts` says what requests, heads and replies mean as texts.
- **JSON** (RFC 8259). The printer over a growing or preallocated buffer, the recursive parser, the in-place minifier,
  doubly linked child lists, objects built member by member, deep copies and comparison. `JsonText` is the text of a
  tree, `JsonSyntax` the parser as a function of the text, and `JsonItems` says which tree linked items hold: printer,
  parser, copying and comparison walk and build linked items. `JsonGrammar` is the grammar as a type of spellings: the
  parser accepts exactly the texts that spell a document, and reads what they mean; `JsonSpelling` is the same for string
  literals, and `JsonMinify` squeezes every document, white space and comments included. `JsonLayout` is the layout of
  the printer's texts. `JsonCompare` says what comparing decides, and
  `JsonCopies` joins printer, parser and comparison.
- **Asynchronous logger.** Producers and the writing thread, step by step, over buffer objects that are moved,
  dropped and recycled. `LogModel` is the history the buffers stand for.
- **Event loop.** The functor queue and its wake-up counter, as interleaved steps of all threads.

Code that works on fields and buffers is modelled by classes and methods on arrays, each proved against a function of
its inputs; the theorems are lemmas about those functions and the invariants that the methods keep. Bytes are eight-bit
vectors. The texts of the JSON code are sequences of characters, one for each `unsigned char`.

`dafny verify dfyconfig.toml` checks everything.

What turned out to be false of the code is stated with its exact condition:

- an unmasked frame survives the server's reader exactly when every left-over key byte it meets is zero
  (`FrameDecoding.MeantIsPayload`);
- a 64-bit length becomes the payload length exactly when its upper half is zero, and the buffer is made that large
  exactly when it fits an `int`, too (`FrameDecoding.LongLengthHonoured`); a longer payload makes the reader write behind
  its buffer as soon as more of it has arrived than an earlier buffer can hold
  (`FrameDecoding.OnlyLongPayloadsExceed`), and no other does (`Connections.WebSocketData.NeverOverruns`);
- the client's encoder is right exactly when the left-over byte 1 adds no bit (`ClientFraming.WireOverIsWire`), and its
  decoder stays inside its buffers exactly when no 32-bit sum wraps around unnoticed (`ClientFraming.DePackage`);
- when a result frame fits its allocation (`ResultFrames.BuildResult`) and when it is the prescribed frame
  (`ResultFrames.ResultIsFrame`);
- there is one result for each saved frame exactly when no call was idle (`Uploads.UploadCompleted`);
- the client accepts exactly the replies whose accept key is the right one up to its first NUL
  (`Handshake.AcceptedExactly`), so that another key can be accepted (`Handshake.NulHidesTheRest`);
- a print can be read back exactly when the tree is nested at most 1000 deep (`JsonRoundTrip.ParsedPrint`,
  `JsonCopies.PrintAndParse`);
- a tree compares equal to a separate copy of itself exactly when its namesakes agree (`JsonCompare.CompareWithCopy`,
  `JsonComparison.CompareWithDuplicate`).

## Model

| member | source | states |
|---|---|---|
| Bytes.MaskedTwice | src/websocket-client.cc:800-808 | masking with the same key from the same position twice restores the data (section 5.3 of RFC 6455) |
| Frame.WireFields | src/websocket-data.cc:324-407 | where first byte, second byte, extended length, mask key and payload of a frame lie on the wire |
| Frame.ExtendedLengthRoundTrip | src/websocket-data.cc:339-382 | the extended length field, two or eight bytes long, determines the payload length |
| ClientFraming.TypeByteIsFirstByte | src/websocket-client.cc:741-754 | each of the six type bytes is the final bit and the opcode that RFC 6455 prescribes |
| PublishedExamples.WireOctets | src/websocket-client.cc:731-822 | every octet of a frame by its position, in numbers (section 5.2 of RFC 6455) |
| PublishedExamples.HelloFrames | src/websocket-client.cc:731-822 | the masked and unmasked frames holding "Hello" are, byte for byte, those of section 5.7 of RFC 6455 |
| ClientFraming.PutLength | src/websocket-client.cc:760-788 | the length field is ORed over byte 1 and the extended length follows; -1 exactly when the capacity is too small for it; nothing at all for the largest 32-bit length |
| ClientFraming.PutMasked | src/websocket-client.cc:800-809 | the loop with its own key counter stores the payload masked from position 0 and touches nothing else |
| ClientFraming.EnPackage | src/websocket-client.cc:731-822 | -1 exactly for an unsendable type or a frame longer than the capacity; otherwise the frame over whatever byte 1 held, a terminator behind it, nothing else changed |
| ClientFraming.WireOverIsWire | src/websocket-client.cc:756-787 | the bytes written are the prescribed frame exactly when it is masked or the left-over byte 1 adds no bit of its own; a zeroed buffer is one such case |
| ClientFraming.ReadSizes | src/websocket-client.cc:841-936 | the lengths are reported from the first 2, 4 or 10 bytes on, and not before |
| ClientFraming.LengthsRead | src/websocket-client.cc:879-937 | the length is the low seven bits, or the number in two bytes, or the number in eight bytes, which is refused exactly when it does not fit 32 bits |
| ClientFraming.DePackage | src/websocket-client.cc:834-978 | with all sums taken in 32 bits: exactly when the decoder stays inside data and output; if it does, type, payload and terminator of the frame at the start of the data, or an error that leaves the output untouched |
| ClientFraming.LongestLengthOverruns | src/websocket-client.cc:903-957 | fourteen bytes that announce a length of 2^32-1 make the decoder leave every output area |
| ClientFraming.EncodedStaysInside | src/websocket-client.cc:834-978 | no beginning and no continuation of a frame that the encoder builds makes it leave its buffers |
| ClientFraming.DeclaredSizesOfPrefix | src/websocket-client.cc:879-937 | on every prefix of a frame that holds its 2, 4 or 10 length bytes the decoder reports the payload and header length of the complete frame, and on shorter ones nothing |
| ClientFraming.UnpackedInvertsWire | src/websocket-client.cc:834-978 | the decoder inverts the encoder for all six types, masked or not, with any bytes behind the frame, exactly when the output has room for the payload and a terminator |
| ClientFraming.IncompleteFrameIsRefused | src/websocket-client.cc:890-953 | a proper prefix of a frame is never taken for a complete frame |
| Packet.Socket.Read | src/websocket-data.cc:317-322 | what is read and what stays unread make up what was there; a read of bytes that are there falls short only when the socket fails |
| Packet.Packet.Reset | src/packet-buffer.h:39-49 | everything is forgotten but the mask key and the buffer |
| Packet.Packet.Resize | src/packet-buffer.h:50-56 | the buffer grows to the requested size and never shrinks, and keeps its contents; a size that has become negative allocates nothing |
| PacketReading.ReadInit | src/websocket-data.cc:311-337 | the first two bytes, or a reset packet when there are fewer |
| PacketReading.ReadHead127 | src/websocket-data.cc:358-382 | the eight-byte length: refused, truncated to four bytes, or still to come |
| PacketReading.ReadMask | src/websocket-data.cc:384-408 | the mask key is read when the mask bit is set; otherwise the old one stays |
| PacketReading.ReadData | src/websocket-data.cc:410-435 | the part of the payload that is there is unmasked in place behind what was there before; or an overrun is reported, exactly when that part does not fit the buffer that the narrowed length has made |
| PacketReading.ReadAndParsePacket | src/websocket-data.cc:305-437 | one call does to packet and socket what the abstract decoder does, unless a read falls short or the call overruns the buffer, which is reported exactly when it does |
| FrameDecoding.HeaderRead | src/websocket-data.cc:311-408 | after the header of any frame: every field of the packet, and exactly the payload left to read |
| FrameDecoding.MeantIsPayload | src/websocket-data.cc:419-424 | a frame is understood as it was sent exactly when it is masked or every left-over key byte it meets is zero |
| FrameDecoding.LongLengthHonoured | src/websocket-data.cc:371-417 | a 64-bit length becomes the payload length exactly when its upper four bytes are zero, and is refused only when none of them is; the buffer is made that large exactly when the lower four bytes fit an `int`, too |
| FrameDecoding.OnlyLongPayloadsExceed | src/websocket-data.cc:410-420 | a call writes behind the buffer exactly when the payload length fits no `int`, an earlier buffer is too small for it, and more has arrived than that buffer holds |
| FrameDecoding.LongPayloadOverruns | src/websocket-data.cc:410-435 | no call completes a frame whose length fits no `int` and no earlier buffer without writing behind the buffer |
| FrameDecoding.AdvanceInside | src/websocket-data.cc:305-437 | wherever in a frame a call starts and however much has arrived: it completes the frame exactly when the rest is there, never consumes a byte behind it, and otherwise stops inside the frame |
| Segmentation.FeedDecodes | src/websocket-data.cc:305-437 | one call on a stream of frames completes the first of them, or waits, and loses no byte |
| Segmentation.RunDelivers | src/websocket-data.cc:305-437 | any run from anywhere in a stream: the frames delivered are the first ones, and consumed and unread bytes make up what has arrived |
| Segmentation.SegmentationIrrelevant | src/websocket-data.cc:305-437 | masked frames cut into any pieces, one call for each: what has been delivered is a prefix of the list of opcodes and payloads sent, and the position in the stream is exact |
| Segmentation.EverythingDelivered | src/websocket-data.cc:305-437 | once a stream has arrived, one more call for each frame delivers all of it, unmasked frames as the left-over key distorts them |
| Segmentation.StreamFits | src/websocket-data.cc:410-435 | on a stream of frames whose lengths fit an `int`, masked or not and however cut, no call writes behind the buffer |
| Segmentation.MaskedFramesDelivered | src/websocket-data.cc:305-437 | masked frames, however cut, are delivered with exactly the opcodes and payloads sent, in order |
| ClientSending.Send | src/websocket-client.cc:1158-1180 | the sending routine puts exactly the prescribed frame on the wire, whatever type, mask and payload |
| ClientSending.SendAll | src/websocket-client.cc:1158-1180 | the messages of a session make up the stream of their frames |
| ClientSending.MessagesDelivered | src/websocket-client.cc:731-1180 | messages sent with masks, their bytes cut into any pieces: the server delivers exactly their opcodes and payloads, in order |
| Uploads.CallEffect | src/websocket-data.cc:83-95 | what a call leads to depends only on the completed frame; an idle call counts as an empty frame, an incomplete close frame already ends the upload, and a refused length neither saves nor ends anything |
| Uploads.SavedExactly | src/websocket-data.cc:520-555 | at every moment, whatever has arrived: what is saved is the in-order concatenation of the payloads of the frames completed before the end, without three-byte texts; none of them ends the upload; results number saved frames plus idle calls, ended or not |
| Uploads.SavedInOrder | src/websocket-data.cc:520-555 | the frames that have counted so far are the first ones of the stream, masked or not, and the upload ends only at a frame that ends it |
| Uploads.SavedCompletely | src/websocket-data.cc:520-555 | once everything has arrived, one more call for each frame saves all of it; it has ended exactly when some frame is a close frame or "EOS"; results equal saved frames plus idle calls |
| Uploads.UploadSaved | src/websocket-data.cc:520-555 | for masked frames in any pieces, at every moment: the first `n` frames are complete and exactly their upload is saved and answered; when it has ended, the next frame ended it and the whole upload is saved |
| Uploads.UploadCompleted | src/websocket-data.cc:520-555 | once all has arrived: the payloads in order, up to the first close frame or "EOS", without three-byte texts; ended exactly when some frame ends it; one result for each saved frame exactly when no call was idle |
| Sessions.MessageKinds | src/dog-status.h:37-44 | of what the client can send, a disconnect and the text "EOS" end an upload, other texts of three bytes are left out, and everything else is saved, pings and pongs included |
| Sessions.SessionUpload | src/websocket-data.cc:520-555 | the upload is the payloads of the messages in front of the first disconnect or "EOS" |
| Sessions.SessionSaved | src/websocket-data.cc:520-555 | messages sent with masks, their bytes cut in any way: the server saves exactly what comes before the first disconnect or "EOS", and the session has ended exactly when there is one |
| ResultFrames.BuildResult | src/websocket-data.cc:453-509 | the frame is built in the write packet; it stays inside the allocation exactly when it is shorter than 65535 bytes or an earlier result left room for ten header bytes |
| ResultFrames.ResultIsFrame | src/websocket-data.cc:477-507 | the bytes are the final unmasked text frame of RFC 6455 exactly when the payload is not 65535 bytes long |
| ResultFrames.ResultUnpacked | src/websocket-data.cc:453-509 | the client's decoder takes every such frame apart again, the one of 65535 bytes included |
| ResultTexts.FormatJson | src/websocket-data.cc:439-451 | the printed text of the object with result type, status, uuid and result |
| ResultTexts.BuildReport | src/websocket-data.cc:439-446 | the linked object that is reported, built member by member |
| ResultTexts.ReportedIsShort | src/websocket-data.cc:439-467 | that text is shorter than 1024 bytes, so the server's own results always fit their frames |
| ResultTexts.ReportedIs | src/websocket-data.cc:439-451 | the reported text, character by character |
| ResultTexts.ResultUnderstood | src/websocket-data.cc:439-509 | whoever unpacks a result with the client's decoder and parses it gets the reported object back |
| Replies.KeyIsUsable | src/websocket-data.cc:182-231 | every key found in a head is one the accept key can be computed for |
| Replies.RequestAnswered | src/websocket-data.cc:153-247 | the client's request, arriving in one go, is answered with a reply the client accepts |
| Replies.SwitchingSent | src/websocket-data.cc:225-247 | a good head is answered with status 101, character by character, and the client reads the accept key in it |
| Replies.RefusalSent | src/websocket-data.cc:120-152 | a bad head is answered with status 400, character by character |
| Replies.ExampleAnswered | src/websocket-data.cc:225-247 | the key of section 1.3 of RFC 6455 is answered with the accept key printed there |
| Replies.ResultSent | src/websocket-data.cc:439-509 | a result, unpacked and parsed, is an object whose result type is 1 exactly for the last one, with status 0, the uuid and the fixed result |
| Connections.Outlet.Write | src/websocket-data.cc:249-275 | the bytes taken are appended to what the peer has been sent |
| Connections.WebSocketData.constructor | src/websocket-data.cc:18-33 | a new connection waits for a head; nothing is sent or saved |
| Connections.WebSocketData.WriteData | src/websocket-data.cc:249-303 | repeated partial writes send a beginning of the answer, all of it exactly when no error is reported |
| Connections.WebSocketData.ReadAndParseHead | src/websocket-data.cc:153-180 | everything that has arrived is one head; success exactly when the peer is still there, reading did not fail and the head is good; the error names the reason |
| Connections.WebSocketData.SendRespond | src/websocket-data.cc:225-247 | the 101 reply with the accept key of the request's key |
| Connections.WebSocketData.SendErrorRespond | src/websocket-data.cc:122-146 | the error reply carries status 400 and an accept key all the same |
| Connections.WebSocketData.ProcessError | src/websocket-data.cc:148-152 | only a head that could not be read or is not good is answered |
| Connections.WebSocketData.SendResult | src/websocket-data.cc:453-509 | a result is sent; when that fails only the error is remembered |
| Connections.WebSocketData.ProcessPacket | src/websocket-data.cc:520-555 | what is saved, answered and ended is what the frame in the packet calls for, idle calls, three-byte texts and incomplete close frames included |
| Connections.WebSocketData.ProcessEnd | src/websocket-data.cc:557-569 | the final result is sent and the connection is closed |
| Connections.WebSocketData.ReadPacket | src/websocket-data.cc:305-437 | the packet object stays in step with the abstract reader over all pieces so far; the error names why a call failed, and an overrun is recorded with the piece and the buffer size that caused it |
| Connections.WebSocketData.HandleHead | src/websocket-data.cc:62-74 | the handshake state after the first event, with the answer given and the error recorded |
| Connections.WebSocketData.HandleData | src/websocket-data.cc:83-95 | one call of the reader and what follows from it; a failure or an overrun saves and answers nothing |
| Connections.WebSocketData.HandleRead | src/websocket-data.cc:59-110 | the whole transition of one readable event, from the head or from between two frames |
| Connections.WebSocketData.HandleConn | src/websocket-data.cc:112-120 | the connection is taken off the poller exactly when it is over |
| Connections.WebSocketData.HandleEvents | src/channel.h:42-61 | a hang-up without data and an error change nothing; a readable event is one transition |
| Connections.WebSocketData.Protocol | src/websocket-data.cc:59-152 | in every reachable state the answers are none, or one refusal, or the handshake reply with intermediate results and at most one final result behind which nothing follows; results follow only a completely sent reply |
| Connections.WebSocketData.SavedIsExact | src/websocket-data.cc:59-152 | in every reachable state, after errors and after the close, too, the file is exactly the upload of the frames completed before the end, and the answers number one handshake reply, a result for each saved frame and each idle call, and the final one |
| Connections.WebSocketData.UploadIsSaved | src/websocket-data.cc:520-555 | in every reachable state, for masked frames: the file is the upload of the first `n` frames, all of it when the connection is closed, which only an ending frame brings about |
| Connections.WebSocketData.UploadIsAnswered | src/websocket-data.cc:520-555 | once everything has been read and the connection is still open, the file is the whole upload, no frame ends it, and the results number saved frames plus idle calls; closed conversations are counted by `SavedIsExact` |
| Connections.WebSocketData.NeverOverruns | src/websocket-data.cc:410-435 | a client whose payload lengths fit an `int`, masked or not, never makes the server write behind its buffer |
| Connections.Serve | src/websocket-data.cc:59-152 | over any sequence of events, failures and overruns included, the invariants and the order of answers hold, and the connection is registered exactly while it is open |
| Base64Text.EncodedAppend | src/base64.cc:49-61 | encoding can be cut behind any whole number of three-byte groups |
| Base64Text.GroupBytes | src/base64.cc:95-106 | four digits determine the three bytes they were made from |
| PublishedExamples.AlphabetIsTable | src/base64.cc:33-36 | the digits are the 64 characters of Table 1 of RFC 4648, in its order, and no other |
| PublishedExamples.SextetNumbers | src/base64.cc:49-56 | the digits of a group as quotients and remainders of its bytes |
| PublishedExamples.FoobarEncoded | src/base64.cc:42-83 | the examples of section 10 of RFC 4648 |
| ServerBase64.Encode | src/base64.cc:42-83 | the server's encoder produces the text of section 4 of RFC 4648 |
| ServerBase64.Decode | src/base64.cc:85-124 | the server's decoder reads the digits up to the first character that is none |
| ServerBase64.DecodeInvertsEncode | src/base64.cc:42-124 | decoding inverts encoding for every byte string, padded tails included |
| ClientBase64.Encode | src/websocket-client.cc:190-223 | the client's encoder produces the same text |
| ClientBase64.Decode | src/websocket-client.cc:232-272 | the client's decoder, quantum by quantum |
| ClientBase64.DecodeInvertsEncode | src/websocket-client.cc:190-272 | decoding inverts encoding for every byte string, padded tails included |
| Sha1Digest.LengthFieldOfWords | src/sha1.cc:557-564 | the two length words together are the 64-bit length field of the padding |
| Sha1Digest.PaddedLength | src/sha1.cc:522-567 | the padded message is a whole number of blocks (section 4 of FIPS PUB 180-1) |
| Sha1Digest.PaddedInOneBlock | src/sha1.cc:544-566 | with fewer than 56 bytes left, padding and length complete the last block |
| Sha1Digest.PaddedInTwoBlocks | src/sha1.cc:529-543 | with 56 or more bytes left the padding needs another block |
| Sha1Digest.RoundConstants | src/sha1.cc:414-419 | the four round constants are the square roots of 2, 3, 5 and 10 with thirty binary places |
| Sha1.CircularShifts | src/sha1.cc:588-591 | the shift expression is rotation for the three amounts in use |
| Sha1.Extend | src/sha1.cc:436-439 | the loop fills in the message schedule of section 7 of FIPS PUB 180-1 |
| Sha1.AllRounds | src/sha1.cc:441-490 | the four loops of twenty rounds are the eighty rounds of the standard |
| Sha1.SHA1.ProcessMessageBlock | src/sha1.cc:412-499 | the chaining value becomes the compression of the full buffer |
| Sha1.SHA1.CountByte | src/sha1.cc:194-204 | the length words encode eight times the byte count until 2^61 bytes, where the object is spoilt |
| Sha1.SHA1.Input | src/sha1.cc:176-213 | a piece is appended to what was fed; feeding after the digest, or too much, spoils the object for good |
| Sha1.SHA1.PadMessage | src/sha1.cc:522-567 | the chaining value becomes the digest of everything fed |
| Sha1.SHA1.Result | src/sha1.cc:135-156 | the digest of everything fed, as often as it is asked for; false exactly for a spoilt object |
| Sha1.HashPieces | src/sha1.cc:101-213 | in whatever pieces a message is fed, the result is the FIPS PUB 180-1 digest of the whole, and there is one exactly below 2^61 bytes |
| AcceptKey.ServerAccept | src/websocket-data.cc:230-242 | the server computes the accept key of section 4.2.2 of RFC 6455 |
| AcceptExample.ExampleAccepted | src/websocket-data.cc:230-242 | the accept key of the key in section 1.3 of RFC 6455 is the one printed there, round by round |
| AcceptKey.Htoi | src/websocket-client.cc:514-545 | the number written by at most `len` hexadecimal digits from a position on |
| AcceptKey.PairBytesOfHex | src/websocket-client.cc:629-630 | pairs of hexadecimal digits of a number give back its bytes |
| AcceptKey.DigestHexBytes | src/websocket-client.cc:476-500 | the bytes read back from the hexadecimal digest are the bytes of the digest |
| AcceptKey.ClientAccept | src/websocket-client.cc:605-637 | the client computes the same accept key on its own way |
| Handshake.ParseHead | src/websocket-data.cc:182-223 | the headers of a complete head, later lines winning and lines without carriage return skipped; otherwise the headers stay |
| Handshake.FieldsRead | src/websocket-data.cc:205-221 | every field of a well-formed head is read back, whatever its value contains besides line feeds |
| HeadTexts.LastLineWins | src/websocket-data.cc:205-221 | for lines of any kind: a header has the value in the last line that starts with its name, colon and space and ends in a carriage return |
| HeadTexts.HeadMeans | src/websocket-data.cc:182-223 | for any complete head: the value of every header, lines behind the first empty one not counting |
| HeadTexts.HeadRefused | src/websocket-data.cc:182-199 | a head is refused exactly when it does not end in an empty line or its first line does not end in a carriage return |
| Handshake.KeyReachesServer | src/websocket-client.cc:679-688 | the key put into the client's request is the key the server takes out of it |
| HeadTexts.RequestText | src/websocket-client.cc:679-688 | the request, character by character |
| Handshake.ClientChecks | src/websocket-client.cc:1063-1087 | the client accepts exactly the replies that offer, in front of any NUL, the accept key of its own key |
| HeadTexts.TokenOffered | src/websocket-client.cc:1069-1080 | any reply that starts with "HTTP" offers the token behind its first accept header, up to white space or a NUL |
| HeadTexts.NothingToOffer | src/websocket-client.cc:1069-1076 | a reply offers nothing exactly when it does not start with "HTTP" or holds no accept header in front of the first NUL |
| HeadTexts.FirstFound | src/websocket-client.cc:1076 | the search finds the first occurrence, and nothing exactly when there is none |
| Handshake.OfferedIsAccept | src/websocket-client.cc:1069-1080 | whatever a reply carries as its accept key, under whatever status, is what the client reads: a token up to its first NUL, and in general the first token up to a NUL, or the text itself when there is none |
| Handshake.AcceptedExactly | src/websocket-client.cc:648-667 | for every accept key a reply can carry: the reply is accepted exactly when the first token of it, up to a NUL, is the right key |
| Handshake.NulHidesTheRest | src/websocket-client.cc:1069-1080 | a reply that continues behind the right key and a NUL is accepted although it carries another key; one with a NUL in front of the key is refused although it carries it |
| Handshake.ReplyFits | src/websocket-client.cc:991-1066 | the reply to a handshake leaves room for a terminator in the 512 bytes received |
| Handshake.HandshakeCompletes | src/websocket-client.cc:605-688 | the client accepts the server's reply to its own request, and any reply exactly when the accept key it carries is the right one up to its first NUL |
| JsonText.ValueIsText | src/cJSON.cc:1258-1333 | no printed text contains a NUL, so its length is what `strlen` finds |
| JsonLayout.LaidOut | src/cJSON.cc:1430-1712 | the text of an array or object is the texts of its children joined by commas; formatted, each member has a line of its own with one tab for each container around it |
| JsonPrinter.PrintBuffer.Ensure | src/cJSON.cc:366-451 | room for the bytes asked for and a terminator, with everything before the offset kept; fails exactly when it cannot be had |
| JsonPrinter.PrintBuffer.UpdateOffset | src/cJSON.cc:454-464 | the offset catches up with the end of the terminated text |
| JsonPrinter.PrintBuffer.PrintNumber | src/cJSON.cc:467-530 | the decimal text is written behind the offset; fails exactly when it does not fit |
| JsonPrinter.PrintBuffer.CopyEscaped | src/cJSON.cc:890-936 | the escaped characters are written inside the space granted |
| JsonPrinter.PrintBuffer.PrintStringPtr | src/cJSON.cc:820-939 | the quoted text is written; fails exactly when it does not fit |
| JsonSpelling.EscapeIsShortest | src/cJSON.cc:890-936 | the printer spells every character correctly, and no standard spelling is shorter |
| JsonPrinter.PrintBuffer.PrintValue | src/cJSON.cc:1258-1333 | for every tree of linked items: the text is written behind what was there, and this succeeds exactly when the text and its slack of one or two bytes fit |
| JsonPrinter.PrintBuffer.PrintArray | src/cJSON.cc:1430-1489 | the same for arrays, along the chain of children, across all reallocations in between |
| JsonPrinter.PrintBuffer.PrintObject | src/cJSON.cc:1601-1712 | the same for objects, along the chain of members, across all reallocations in between |
| JsonPrinter.Print | src/cJSON.cc:1080-1151 | a fresh zero-terminated text of the tree an item holds, exactly when it can be addressed by an `int` |
| JsonPrinter.PrintBuffered | src/cJSON.cc:1153-1181 | the same text for any initial size |
| JsonPrinter.PrintPreallocated | src/cJSON.cc:1183-1200 | never writes behind the given length, and succeeds exactly when the text and at most two more bytes fit, with the text of the growing printer |
| JsonParser.ParseBuffer.BufferSkipWhitespace | src/cJSON.cc:956-974 | white space is skipped, and a step back from the terminator made |
| JsonParser.ParseBuffer.FindClosingQuote | src/cJSON.cc:704-726 | where a literal ends and how many backslashes the first scan counts |
| JsonParser.ParseBuffer.ParseNumber | src/cJSON.cc:259-333 | the number characters are collected and converted as the specification says, and the item holds the number |
| JsonParser.ParseBuffer.ParseString | src/cJSON.cc:691-817 | the literal is unescaped into an allocation it never exceeds, and the item holds the string |
| JsonParser.ParseBuffer.ParseValue | src/cJSON.cc:1203-1255 | for every input: success, failure and offset are those of the specification, and on success the item holds the tree read, in new items only |
| JsonParser.ParseBuffer.ParseArray | src/cJSON.cc:1336-1427 | the same for arrays, with the nesting limit: the elements are linked one behind the other while they are read |
| JsonParser.ParseBuffer.ParseObject | src/cJSON.cc:1492-1598 | the same for objects: a name is read as the value of its item and then becomes its name |
| JsonParser.LinkItem | src/cJSON.cc:1379-1394 | a new item is linked behind the current one, or starts the list, and the trees read so far stay as they are |
| JsonParser.ParseWithOpts | src/cJSON.cc:993-1071 | a whole document, with byte order mark, and with or without something behind it: a new item that holds the tree, or none |
| JsonGrammar.DocRead | src/cJSON.cc:1203-1598 | every spelling of every document is read as what it means, whatever its white space, names, escapes and nesting, exactly within the nesting limit |
| JsonGrammar.DocTaken | src/cJSON.cc:1203-1598 | whatever is read was the spelling of a document with that meaning |
| JsonGrammar.DocumentAccepted | src/cJSON.cc:993-1071 | a text is read as a value exactly when it spells a document nested at most 1000 deep that means this value |
| JsonGrammar.BeginningRead | src/cJSON.cc:993-1071 | when something may stand behind the value: any spelling at the beginning is read and the rest is left |
| JsonSpelling.MarksRead | src/cJSON.cc:737-800 | every spelling of a string by plain characters, the eight two-character escapes, `\u` escapes and surrogate pairs is read as that string |
| JsonSpelling.MarksTaken | src/cJSON.cc:737-800 | every literal that is read is such a spelling |
| JsonSpelling.LiteralSpelled | src/cJSON.cc:691-817 | the quoted form of such a spelling is a literal and means the same |
| JsonSpelling.OthersRefused | src/cJSON.cc:792-800 | other escapes and half surrogate pairs are refused |
| JsonReading.NumberRead | src/cJSON.cc:259-333 | every integer of at most fifteen digits is read back from its decimal text |
| JsonReading.NumberSorted | src/cJSON.cc:259-333 | of texts that start with digits: an integer, or, exactly with a fraction, an exponent, a value of 10^15 or more or a negative zero, a number beyond the model |
| JsonRoundTrip.StringRead | src/cJSON.cc:691-939 | every NUL-free string is read back from its quoted text |
| JsonRoundTrip.ValueRead | src/cJSON.cc:1203-1712 | a printed value is read back and what follows is left, at any depth, exactly when the nesting stays within the limit |
| JsonRoundTrip.ParsedPrint | src/cJSON.cc:1073-1151 | parsing what the printer wrote, formatted or not, gives the same tree exactly when it is nested at most 1000 deep, and is refused otherwise |
| JsonCopies.PrintAndParse | src/cJSON.cc:993-1151 | printing a tree of linked items and parsing the text gives a second tree of new items that holds the same, exactly when the text is addressable and the nesting within the limit |
| JsonCopies.CompareWithReprint | src/cJSON.cc:993-2744 | the tree read back compares equal to its source exactly when its namesakes agree |
| JsonLiterals.ParseHex4 | src/cJSON.cc:533-567 | four hexadecimal digits, or zero as soon as one is none |
| JsonLiterals.PutUtf8 | src/cJSON.cc:633-682 | the UTF-8 form of a code point, written last octet first |
| JsonLiterals.Utf16LiteralToUtf8 | src/cJSON.cc:570-688 | an escape or a surrogate pair is converted, or refused as the specification says |
| Utf8.EncodedIsShortest | src/cJSON.cc:633-682 | the encoding is a UTF-8 sequence for its code point, and no sequence for it is shorter (section 3 of RFC 3629) |
| PublishedExamples.CodePointsEncoded | src/cJSON.cc:633-682 | the examples of section 7 of RFC 3629 |
| JsonStrings.ScalarUnescaped | src/cJSON.cc:570-688 | every Unicode scalar value written as an escape or a pair of escapes becomes its UTF-8 form |
| JsonStrings.OneLiteralUnescaped | src/cJSON.cc:570-688 | the same for any spelling of the four hexadecimal digits |
| JsonStrings.PairUnescaped | src/cJSON.cc:595-626 | the same for any surrogate pair |
| JsonStrings.UnescapedFits | src/cJSON.cc:704-735 | the unescaped contents and their terminator fit the size computed by the first scan |
| JsonStrings.ClosedIsPaired | src/cJSON.cc:708-726 | the closing quotation mark found by the first scan is never the second half of an escape |
| JsonMinify.SkipBlock | src/cJSON.cc:2487-2495 | a block comment is skipped, or its end is missing |
| JsonMinify.CopyLiteral | src/cJSON.cc:2496-2509 | a string literal is copied unchanged |
| JsonMinify.Minify | src/cJSON.cc:2451-2519 | in place, the write cursor never overtaking the read cursor: the minified text and its terminator, nothing behind the old terminator changed |
| JsonMinify.MinifiedDocument | src/cJSON.cc:2451-2519 | minifying any document, whatever its white space and comments, gives the same document without them, which parses to the same value |
| JsonMinify.MinifiedPrint | src/cJSON.cc:2451-2519 | minifying the formatted print of any tree gives its unformatted print, byte for byte |
| JsonList.GetArraySize | src/cJSON.cc:1715-1736 | the number of children |
| JsonList.GetArrayItem | src/cJSON.cc:1738-1765 | the child at a position, or none |
| JsonList.AddItemToArray | src/cJSON.cc:1811-1865 | the sequence of children grows by one at its end, links included |
| JsonObjects.AddItemToObject | src/cJSON.cc:1867-1901 | the object holds one more member at its end, under a copy of the name |
| JsonObjects.AddNumberToObject | src/cJSON.h:242 | the object holds one more number under the name, in a new item |
| JsonObjects.AddStringToObject | src/cJSON.h:243 | the object holds one more string under the name, in a new item |
| JsonList.InsertItemInArray | src/cJSON.cc:1996-2023 | the sequence of children with the new one at its position; behind the end it is appended |
| JsonList.DetachItemViaPointer | src/cJSON.cc:1926-1954 | the sequence of children without the item, which points nowhere afterwards |
| JsonList.DetachItemFromArray | src/cJSON.cc:1956-1964 | the same by position; no such position changes nothing |
| JsonList.ReplaceItemViaPointer | src/cJSON.cc:2025-2058 | the sequence of children with the item replaced, and the old item free |
| JsonList.ReplaceItemInArray | src/cJSON.cc:2060-2068 | the same by position, also with the item that is already there; no such position changes nothing |
| JsonList.DetachUndoesInsert | src/cJSON.cc:1926-2023 | detaching what was inserted restores the sequence |
| JsonDuplicate.Duplicate | src/cJSON.cc:2372-2449 | a recursive copy holds the same tree in fresh items only; a shallow one has the same own fields and no child |
| JsonDuplicate.DuplicateChildren | src/cJSON.cc:2415-2438 | the chain of children is copied and linked one after the other |
| JsonCompare.CaseInsensitiveEqual | src/cJSON.cc:90-111 | two names agree exactly when their lower-case forms do |
| JsonCompare.LookupIsFirst | src/cJSON.cc:1767-1793 | looking up a name yields the first member whose name is the same text, or the same text but for the case of letters, by mode |
| JsonCompare.CompareDecides | src/cJSON.cc:2621-2744 | two trees compare equal exactly when the namesakes of each agree and they mean the same, objects being maps from names to meanings |
| JsonCompare.CompareWithCopy | src/cJSON.cc:2621-2744 | a tree compares equal to a separate copy of itself exactly when its namesakes agree |
| JsonCompare.CompareSymmetric | src/cJSON.cc:2621-2744 | comparing is symmetric on all trees |
| JsonCompare.DistinctMeans | src/cJSON.cc:2703-2739 | the members of an object are distinct exactly when no two of their names are the same text, or the same but for case, by mode |
| JsonCompare.DistinctIsConsistent | src/cJSON.cc:2703-2739 | namesakes agree wherever names are distinct |
| JsonCompare.CompareIsEquivalence | src/cJSON.cc:2621-2744 | comparing is reflexive exactly on the trees whose namesakes agree, and symmetric and transitive on all trees |
| JsonCompare.OrderDoesNotMatter | src/cJSON.cc:2703-2739 | objects with the same members in any order compare equal exactly when their namesakes agree |
| JsonCompare.SameNames | src/cJSON.cc:2703-2739 | objects that compare equal with case have the same names |
| JsonCompare.CaseDoesNotCount | src/cJSON.cc:2621-2744 | without case, changing the case of letters in names changes no comparison |
| JsonCompare.CaseCounts | src/cJSON.cc:1777-1790 | two names that differ in the case of letters only are told apart exactly when case counts |
| JsonCompare.NamesakesDiffer | src/cJSON.cc:2703-2739 | an object with two different members of one name, which does not compare equal to a separate copy of itself |
| JsonComparison.GetObjectItem | src/cJSON.cc:1767-1793 | the linked item of the first member whose name matches, or none |
| JsonComparison.CompareItems | src/cJSON.cc:2621-2744 | the walk over two linked trees finds everything equal that the comparison of the values finds equal, and nothing else when the trees share nothing or the namesakes of one of them agree; the very same item equals itself; a missing item equals nothing |
| JsonComparison.CompareArrays | src/cJSON.cc:2679-2701 | the same for arrays, side by side until one chain ends |
| JsonComparison.CompareObject | src/cJSON.cc:2703-2739 | the same for one direction of objects: every member of one chain is looked up in the other |
| JsonComparison.CompareWithDuplicate | src/cJSON.cc:2372-2744 | a recursive duplicate compares equal to its source exactly when the namesakes of the tree agree |
| FixedBuffers.FixedBuffer.Append | src/fixed-buffer.h:23-29 | a text is kept exactly when more than its length is free |
| LogModel.NothingLost | src/async-logging.cc:52-137 | without drops, file, buffers to write, waiting buffers and current buffer hold every appended line in order |
| LogModel.FileIsInOrder | src/async-logging.cc:101-113 | with drops, the file apart from its notices is whole buffers, each at most once, in the order they were filled, and the notices count the missing ones |
| LogModel.AppendedLines | src/async-logging.cc:52-66 | exactly the lines shorter than a buffer are accepted |
| LogModel.TrimmedIsSound | src/async-logging.cc:101-108 | dropping all but two buffers keeps the order and the count |
| LogModel.SwappedIsSound | src/async-logging.cc:89-96 | taking over the filled buffers keeps the order |
| LogModel.RoundTexts | src/async-logging.cc:83-113 | a round of the thread adds everything waiting to the file when that is at most 25 buffers, and otherwise the notice and two buffers |
| AsyncLoggings.AsyncLogging.constructor | src/async-logging.cc:13-28 | four distinct empty buffers |
| AsyncLoggings.AsyncLogging.Append | src/async-logging.cc:52-66 | a producer's critical section appends the line to the history, and all live buffers stay distinct |
| AsyncLoggings.AsyncLogging.Swap | src/async-logging.cc:83-97 | the thread's critical section takes over what was filled; a missing spare implies that buffers were put aside |
| AsyncLoggings.AsyncLogging.DropBuffers | src/async-logging.cc:101-108 | more than 25 buffers: a notice with their number, and only the first two stay |
| AsyncLoggings.AsyncLogging.WriteBuffer | src/async-logging.cc:110-113 | the next buffer's text goes to the file |
| AsyncLoggings.AsyncLogging.Recycle | src/async-logging.cc:114-133 | two buffers are always there to be recycled, so none of the assertions of the loop can fail |
| AsyncLoggings.AsyncLogging.Round | src/async-logging.cc:78-135 | one undisturbed round writes the contents of all waiting buffers and the current one, in order, as long as they are at most 25, and leaves empty buffers |
| AsyncLoggings.AsyncLogging.ThreadStep | src/async-logging.cc:78-135 | each step of the thread does to the history what the model says, from every reachable state |
| AsyncLoggings.AsyncLogging.Conserved | src/async-logging.cc:52-137 | without drops, the contents of the actual file and buffer objects together are all accepted lines in order |
| AsyncLoggings.Run | src/async-logging.cc:52-137 | all of this holds after any interleaving of producers and thread |
| EventLoops.EventLoop.QueueInLoop | src/event-loop.cc:132-140 | a functor is queued; who queues it owes a wake-up unless the loop's thread does so while handling events |
| EventLoops.EventLoop.Wakeup | src/event-loop.cc:142-148 | afterwards the poller has something to report |
| EventLoops.EventLoop.Poll | src/cur-epoll.cc:64-99 | the edge is consumed whether or not the loop returns |
| EventLoops.EventLoop.HandleRead | src/event-loop.cc:150-157 | the counter is reset, and the queue will be taken before the next poll |
| EventLoops.EventLoop.TakeFunctors | src/event-loop.cc:159-166 | the queue is taken over as a whole |
| EventLoops.EventLoop.RunFunctor | src/event-loop.cc:168-170 | the next functor runs, once |
| EventLoops.EventLoop.NeverStuck | src/event-loop.cc:101-172 | the loop sits in poll with a queued functor only while some other thread is between its push and its wake-up |
| EventLoops.EventLoop.RunsInOrder | src/event-loop.cc:159-172 | what has run is a prefix of what was queued, and all of it when nothing is pending |
| EventLoops.EventLoop.Turn | src/event-loop.cc:101-115 | one undisturbed turn runs everything that was queued |
| EventLoops.EventLoop.Take | src/event-loop.cc:101-172 | what every step of every thread changes, and that an impossible one changes nothing |
| EventLoops.EventLoop.Settle | src/event-loop.cc:101-172 | from every reachable state the wake-ups on their way and the loop alone run everything ever queued; nothing is lost and no other event is needed |
| EventLoops.Run | src/event-loop.cc:101-172 | after any interleaving of all threads: what has run is a prefix of what was queued, all of it when the loop polls with nothing pending, and a loop that sits in poll with work has a wake-up on its way |

## Left out

Contracts that say less than the source does, or only for some inputs:

- ClientFraming.EnPackage: frames of at most 2^31-1 bytes, because the routine returns their length as an `int`; the capacity test does not count the terminator (src/websocket-client.cc:810, 817), so a frame that fits the capacity must not fill the buffer.
- ClientFraming.DePackage: where the decoder would leave its buffers the model stops; what the source reads or overwrites there is not modelled.
- ClientBase64.Decode: texts of full quanta only; the source reads past the terminator of others.
- PacketReading.ReadAndParsePacket: an overrun ends the call; what the source reads or overwrites behind the buffer is not modelled.
- Connections.WebSocketData.HandleData: after an overrun, whose effects the language leaves undefined, the model ends the connection without an error code.
- Connections.WebSocketData.ProcessPacket: the count of saved bytes is unbounded; in the source it is an `int` that can overflow and is only logged (src/websocket-data.cc:539, 559).
- Handshake.ParseHead: heads of fewer than four bytes, heads with an empty first line and heads of 2^31 bytes or more, where the source indexes out of range, count as refused; an empty header line (a bare line feed), where it does so, too (src/websocket-data.cc:208), is skipped.
- Handshake.ClientChecks: a reply of 512 bytes or more without a NUL leaves the client's buffer without a terminator (src/websocket-client.cc:991, 1066); the model takes it to end there. Requests that overflow the other 512 bytes are not modelled either.
- JsonParser.ParseWithOpts: error positions are not reported; numbers that are not integers of at most fifteen digits end the model's answer with "unmodelled" instead of a value, because conversion by `strtod` is foreign code; deleting what a failed call has built is not modelled.
- JsonPrinter.PrintBuffer.Ensure: the branch for custom allocation hooks and failing allocations is not modelled.
- JsonComparison.CompareItems: for two trees that share items and both have namesakes that differ, the shortcut can find more equal than the values are; how much more is not specified.
- JsonList.InsertItemInArray: null arguments are not modelled; neither are they in the other list operations.
- Sha1.SHA1.Input: the client's own SHA-1 routines are the same code over a struct and are represented by this class.
- AsyncLoggings.AsyncLogging.WriteBuffer: the file is a text that grows; its rolling and flushing, and the copy of the drop notice on the error stream, are not modelled.
- ResultTexts.FormatJson: the connection's uuid is any text of 36 octets without NUL, which covers what `uuid_unparse` produces (src/util.cc:83-91); the result is the fixed text used without speech decoding.
- Connections.WebSocketData.WriteData: an outcome of `write` that is neither progress nor failure is retried by the source without limit; only the outcomes that end the retries are modelled.
- EventLoops.EventLoop.Wakeup: the counter is unbounded; an overflow of the 64-bit counter, which would block the writer, is not modelled.

Parts of the repository that are not modelled:

- Sockets, the poller's system calls, host names, time, random numbers and the generation of a uuid: they are parameters or nondeterministic choices. Retries after `EINTR` and `EAGAIN` are not counted.
- The path on which a send fails in the middle of an answer is modelled; the operating system's buffering behind it is not.
- Decoding of speech behind `_ADD_ASR`, whose source is not part of this model.
- Floating-point numbers, negative zero, raw JSON items and references.
- The end of the logger: `stop` does not wait for the buffers that are still filled.
- Leaving the event loop, and the distribution of connections over worker threads.
- The client's receiving loop with its timeouts, the server side of the client library, and the command-line programs.
- Formatting of log lines, latches, threads and other small classes, which would only add easy members.
