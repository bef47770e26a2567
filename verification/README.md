# Verified models of the motion-control web server

Dafny models of the parts of the server in which it is easy to be wrong, with proofs of what
they promise. Methods keep the form of the program (arrays, objects, loops that edit in place)
and are proved equal to functions on values; the functions are proved to have the properties
that callers rely on.

- **The controller's wire protocol.** `BitConverter`, `Crc` (table loop against a serial
  register), `CrcDetection`, `Frames` (the decoder, one byte at a time), `FrameRuns`, `Assembly`
  (the decoder seen one frame at a time), `Encoding` (round trip of whole streams),
  `Reassembly`, `Replies` (the controller's frames written out), `Corruption`, and `MessageUtils`, the class with its arrays. `BitStrings`,
  `ShiftRegister`, `Register` and `Runs` hold the theory behind them.
- **Its communication manager.** `Pump` (chunks, queue and drain thread in every interleaving),
  `Dispatch` (which command gets which message), `Queries`, `SyncedQuery` and `BlockingQuery`
  (what the two kinds of query return), `Wakeup` (the monitor of the blocking query), and
  `CommManager`, the class with its table of command objects. `Texts` holds the theory of
  trimming behind them.
- **Path normalisers.** `PathWalk` (the walk both are measured against), `UriPath` (the buffer
  edited in place), `CanonicalLaws`, `PathCleaning` and `StringUtils`, `NormaliserLaws`.
- **The WebSocket connection.** `Connection` (a value machine with one function for each public
  call), `ConnectionInvariant`, `ConnectionRuns`, `ConnectionLaws` and `ConnectionReports` (every
  run, and what the listener hears), and the objects `WebSocketImpl` and `SocketChannelIOHelper` over `ByteBuffers`.
- **Routing and lookups.** `RoutePaths`, `RouteEntry` and `RouteLaws`, `MimeParse`, `MimeLaws` and `Routes`,
  `QueryParams` and `QueryParamsMap` (a tree of objects), `ExceptionMapper`.

What the proofs found out about the program:

- A message that is too long for 250 bytes a package is not refused: a package that does not fit
  discards what came before it and itself, and the rest is delivered as if it were all. The same
  goes for a package with a wrong CRC (`Reassembly.MessageOfWhatIsKept`).
- A stray byte 0xE7 right before a frame costs the frame (`FrameRuns.StrayByteHidesFrame`), and the
  last byte of a frame may serve the next one as its type byte (`Assembly.TypeByteBorrowed`).
- A command carries its id in bytes 7 to 10 (`Encoding.EncodedFields`); the id of a reply is read
  from bytes 11 and 12 (`Replies.MessageArrives`).
- The drain thread copies `bContinue` from the socket client whenever its queue is empty, so a
  manager that was told to stop can start again and skip messages (`Pump.RearmingLosesMessages`);
  only stopping the socket client first prevents it (`Pump.SkipsNothingIff`).
- A query reads `bContinue` when it leaves its loop and once more before it returns. If the flag
  is set again in between, or while messages come, it may return a part of its answer as if it
  were all (`SyncedQuery.WholeOrNothingIff`, `BlockingQuery.WholeOrNothingIff`).
- A caller of the blocking query sleeps until somebody begins to disconnect if the drain thread
  ends while it waits, because the socket closed or by an exception (`Wakeup.WokenUnlessStuck`,
  `Wakeup.StuckByStop`, `Wakeup.StuckByException`).
- The canonical form of a path keeps or drops a trailing slash for reasons that are not in the
  path's meaning (`CanonicalLaws.SlashAfterDownAndUp`, `CanonicalLaws.TrailingSlash`).
- A server whose handshake failed has no draft, so it is never closed by writing its answer
  (`ConnectionLaws.FailedHandshakeWaits`); the branch of `decodeHandshake` for a server that has
  a draft already is never taken (the invariant `ConnectionInvariant.Phased`); a second end of channel fails
  (`ConnectionLaws.EotTwiceFails`).
- A server that has refused a handshake and is sent more judges it again, behind the bytes read
  for the refused one and without those it had not read (`ConnectionLaws.RefusedForgetsRest`).
- A pattern such as `/foo*` matches `/foo*/bar` and captures nothing of it
  (`RoutePaths.StarInsideSegment`); an unclosed bracket in a query key costs the last character
  (`QueryParams.UnclosedLosesLast`); a handler mapped after a lookup may be missed
  (`ExceptionMapper.LateMappingIsSeenIff`).

`dafny verify dfyconfig.toml` checks everything.

## Model

| member | source | states |
|---|---|---|
| BitConverter.Reverse | src/main/java/MCJCommLib/BitConverter.java:18-30 | the array in place becomes its own mirror image |
| BitConverter.GetBytesShort | src/main/java/MCJCommLib/BitConverter.java:50-55 | the two little-endian bytes of a short, negative ones included |
| BitConverter.GetBytesInt | src/main/java/MCJCommLib/BitConverter.java:57-65 | the four little-endian bytes of an int |
| BitConverter.GetBytesLong | src/main/java/MCJCommLib/BitConverter.java:67-78 | the eight little-endian bytes of a long |
| BitConverter.ToInt16 | src/main/java/MCJCommLib/BitConverter.java:120-127 | the signed little-endian value of two bytes; too short an array is an error, and nothing else is |
| BitConverter.ToInt32 | src/main/java/MCJCommLib/BitConverter.java:129-136 | the signed little-endian value of four bytes, or an error exactly if the array is too short |
| BitConverter.ToInt64 | src/main/java/MCJCommLib/BitConverter.java:138-150 | the signed little-endian value of eight bytes, or an error exactly if the array is too short |
| BitConverter.RoundTrip | src/main/java/MCJCommLib/BitConverter.java:50-150 | reading the bytes written for any value of a width gives the value |
| BitConverter.LittleEndianOfUnsigned | src/main/java/MCJCommLib/BitConverter.java:50-150 | writing the value read from any bytes gives the bytes |
| Crc.LookupIsEightBits | src/main/java/MCJCommLib/MCJMessageUtils.java:201-202 | a table step is eight steps of the serial register with generator x^16+x^12+x^5+1, for every register and byte |
| Crc.LookUp | src/main/java/MCJCommLib/MCJMessageUtils.java:201-202 | one round of the loop feeds the eight bits of a byte, most significant first |
| Crc.MakeCrc | src/main/java/MCJCommLib/MCJMessageUtils.java:195-206 | the table loop computes the serial CRC (section 2 of ITU-T V.41) of the first `useCount` bytes, started at 0x00A2; a negative count means none |
| CrcDetection.StepInjectiveInRegister | src/main/java/MCJCommLib/MCJMessageUtils.java:201-202 | for a fixed byte, different registers stay different |
| CrcDetection.StepInjectiveInByte | src/main/java/MCJCommLib/MCJMessageUtils.java:201-202 | for a fixed register, different bytes lead to different registers |
| CrcDetection.DetectsBurst | src/main/java/MCJCommLib/MCJMessageUtils.java:196-206 | messages of equal length that differ within 16 adjacent bits, anywhere, have different CRCs |
| CrcDetection.DetectsTwoBytes | src/main/java/MCJCommLib/MCJMessageUtils.java:196-206 | messages that differ only in two adjacent bytes, or one, have different CRCs |
| CrcDetection.DetectsOddErrors | src/main/java/MCJCommLib/MCJMessageUtils.java:138-153 | a message followed by its CRC field always has the same bit parity, so an odd number of wrong bits is noticed |
| Crc.CrcOfNothing | src/main/java/MCJCommLib/MCJMessageUtils.java:195-206 | the checksum of no bytes at all is 0x00A2 |
| FrameRuns.DecodeFrame | src/main/java/MCJCommLib/MCJMessageUtils.java:88-192 | byte by byte, a frame read from Waiting does what its last byte does to a full frame buffer |
| FrameRuns.DecodeGarbage | src/main/java/MCJCommLib/MCJMessageUtils.java:90-97 | bytes without 0xE7 leave the decoder waiting and silent |
| FrameRuns.HeaderOutcome | src/main/java/MCJCommLib/MCJMessageUtils.java:90-135 | what becomes of 0xE7, the byte before it and the seventeen after it, whatever they are: unless they are a type byte and the serial number, written out byte by byte, they are passed over in silence, the decoder waits and keeps what it has gathered; so is a frame of length 0; a length below 19, or package 1 of a negative number, is an exception; otherwise the rest of the frame is awaited |
| FrameRuns.HeaderAloneThrows | src/main/java/MCJCommLib/MCJMessageUtils.java:128-137 | a frame of 19 bytes is an exception on the byte that follows |
| FrameRuns.DecodeNoise | src/main/java/MCJCommLib/MCJMessageUtils.java:90-111 | any string of other bytes and of such refused headers leaves the decoder waiting, silent, and with what it has gathered |
| FrameRuns.StrayByteHidesFrame | src/main/java/MCJCommLib/MCJMessageUtils.java:91-111 | a frame behind a stray 0xE7 is such noise: it is lost, unless 0xE7 occurs once more in its number of packages or behind its header |
| FrameRuns.NoListenerHearsNothing | src/main/java/MCJCommLib/MCJMessageUtils.java:161-177 | without a callback nothing is ever reported, whatever arrives |
| Assembly.FrameRefines | src/main/java/MCJCommLib/MCJMessageUtils.java:88-192 | one frame does to the decoder what it does to a machine that takes whole frames and only gathers payloads |
| Assembly.DecoderRefines | src/main/java/MCJCommLib/MCJMessageUtils.java:88-192 | any stream of frames, with noise between them that may hold refused headers, does to the decoder what the frames do to that machine |
| Assembly.ByteBeforeNext | src/main/java/MCJCommLib/MCJMessageUtils.java:144-191 | the byte kept as the one before the next is the last of a frame that was added, and the last but one of a frame that was refused |
| Assembly.TypeByteBorrowed | src/main/java/MCJCommLib/MCJMessageUtils.java:91-94 | so a frame without its type byte is read as if it were whole, if the frame before it was added and ends with that byte |
| Encoding.LengthFits | src/main/java/MCJCommLib/MCJMessageUtils.java:36-39 | the length survives the casts to short exactly when it is at most 32767; otherwise it is negative or leaves too little room for the message, so that making the array or copying into it fails |
| Encoding.LengthFailsBothWays | src/main/java/MCJCommLib/MCJMessageUtils.java:36-48 | both happen: 32746 bytes give a negative length, 65536 bytes one of 22 |
| Encoding.EncodedFields | src/main/java/MCJCommLib/MCJMessageUtils.java:39-51 | an encoded frame is well formed, with valid CRC, the serial number 0x7e8118e7, package 1 of 1, its type, its payload with the line feed, its id in bytes 7 to 10, and zeros in bytes 11 to 14, where the decoder looks for an id |
| Encoding.IdsStayApart | src/main/java/MCJCommLib/MCJMessageUtils.java:44 | frames with different ids are different, whatever else is in them |
| Encoding.SendableIff | src/main/java/MCJCommLib/MCJMessageUtils.java:31-41 | the messages that can be sent are exactly those whose type has a byte and whose length, computed in shorts, is right |
| Encoding.RoundTripOverLine | src/main/java/MCJCommLib/MCJMessageUtils.java:31-192 | any list of encoded messages, with noise between them that may hold refused headers, is delivered as exactly the messages with at most 250 payload bytes, in order, and leaves the decoder waiting |
| Reassembly.ReassemblyComplete | src/main/java/MCJCommLib/MCJMessageUtils.java:114-187 | packages 1 to k of k give exactly one message, with all payloads and the type and id of the last one, if and only if the payloads fit into 250k bytes |
| Reassembly.NothingBeforeTheLast | src/main/java/MCJCommLib/MCJMessageUtils.java:160-178 | nothing is reported before the last package |
| Reassembly.MessageOfWhatIsKept | src/main/java/MCJCommLib/MCJMessageUtils.java:138-185 | packages 1 to k of k, each good or damaged and of any size: the message is the payloads behind the last one that was damaged or did not fit, or there is none if that was the last package |
| Reassembly.KeptFits | src/main/java/MCJCommLib/MCJMessageUtils.java:129-159 | what is kept never exceeds the room, and is everything exactly if every package is good and everything fits |
| Reassembly.LostPackageTruncates | src/main/java/MCJCommLib/MCJMessageUtils.java:147-153 | a package with a wrong CRC, whatever came before it, makes the message the concatenation of the payloads after it |
| Reassembly.ReassemblyOnTheWire | src/main/java/MCJCommLib/MCJMessageUtils.java:88-192 | on the wire, with noise between the packages, refused headers included, and with packages good or damaged, that message is all that is delivered, on the last byte and not before, and the decoder waits again |
| Replies.MessageArrives | src/main/java/MCJCommLib/MCJMessageUtils.java:88-192 | a message as the controller lays it out, written byte by byte with its id in bytes 11 and 12, in one package or many, arrives once with the type and id of its last package and all its payload |
| Replies.ConversationArrives | src/main/java/MCJCommLib/MCJMessageUtils.java:88-192 | and so do all messages of a conversation, in order |
| Corruption.DamageBreaks | src/main/java/MCJCommLib/MCJMessageUtils.java:138-153 | a frame with a valid CRC, changed within two adjacent covered bytes, or only in its CRC field, or in an odd number of bits, has no valid CRC |
| Corruption.DamagedFrameDropped | src/main/java/MCJCommLib/MCJMessageUtils.java:88-192 | the decoder drops a frame damaged like that without a report and goes back to Waiting |
| MessageUtils.MCJMessageUtils.MakeMessage | src/main/java/MCJCommLib/MCJMessageUtils.java:31-54 | fills an array with the encoding of the message; no array exactly when the type has no byte or the length does not fit |
| MessageUtils.MCJMessageUtils.DecodeMessage | src/main/java/MCJCommLib/MCJMessageUtils.java:88-192 | one byte changes the fields, and the buffers they own, as the step function says, and reports the same |
| MessageUtils.MCJMessageUtils.FillHeader | src/main/java/MCJCommLib/MCJMessageUtils.java:40-47 | the nineteen header bytes are those of the encoding, the rest of the array stays |
| MessageUtils.MCJMessageUtils.FillBody | src/main/java/MCJCommLib/MCJMessageUtils.java:48-49 | the payload and one zero byte follow the header |
| MessageUtils.MCJMessageUtils.Seal | src/main/java/MCJCommLib/MCJMessageUtils.java:50-51 | the last two bytes become the CRC of all before them |
| MessageUtils.MCJMessageUtils.OnWaiting | src/main/java/MCJCommLib/MCJMessageUtils.java:90-97 | the step of the Waiting phase |
| MessageUtils.MCJMessageUtils.OnHeader | src/main/java/MCJCommLib/MCJMessageUtils.java:98-135 | the step of the Header phase |
| MessageUtils.MCJMessageUtils.OnPayload | src/main/java/MCJCommLib/MCJMessageUtils.java:136-189 | the step of the Data phase |
| MessageUtils.MCJMessageUtils.CheckHeader | src/main/java/MCJCommLib/MCJMessageUtils.java:102-134 | what a full header leads to: rejection, ignoring, a fault, or buffers set up for the frame |
| MessageUtils.MCJMessageUtils.CheckFrame | src/main/java/MCJCommLib/MCJMessageUtils.java:138-188 | what a full frame leads to: its payload is taken if the CRC is right, else it is given up |
| MessageUtils.MCJMessageUtils.TakePayload | src/main/java/MCJCommLib/MCJMessageUtils.java:156-159 | the payload goes behind those before it |
| MessageUtils.MCJMessageUtils.Deliver | src/main/java/MCJCommLib/MCJMessageUtils.java:162-177 | the complete message is reported with type and id, and its buffer given up |
| MessageUtils.MCJMessageUtils.AppendFrame | src/main/java/MCJCommLib/MCJMessageUtils.java:155-187 | the payload goes behind those before it, and the last package delivers the message; one that does not fit gives the frame up |
| Pump.RunsFromStart | src/main/java/MCJCommLib/MCJCommManager.java:68-108 | in every interleaving of arriving chunks, the drain loop and changes of `bContinue`, the bytes consumed, in hand and queued are the bytes received; the decoder is where decoding them as one string puts it; what is passed on is what was decoded with the flag set, in order |
| Pump.ChunkingOnlyDelays | src/main/java/MCJCommLib/MCJCommManager.java:82-92 | two runs that received the same bytes in different chunks have decoded the same messages, as far as each has come |
| Pump.ChunkingIsInvisible | src/main/java/MCJCommLib/MCJCommManager.java:82-92 | once both have emptied their queues and decoded everything with the flag set, they have made the same callbacks |
| Pump.SkipsNothingIff | src/main/java/MCJCommLib/MCJCommManager.java:75-136 | for every order in which `bContinue` is cleared and the socket client stopped: every run passes on the first messages decoded, none left out, if and only if there are no such calls or the first one stops the socket client; `Disconnect` begins with the other one |
| Pump.RearmingLosesMessages | src/main/java/MCJCommLib/MCJCommManager.java:93 | the drain thread may set `bContinue` again; then a message is lost and the next one passed on |
| Texts.TrimSplits | src/main/java/MCJCommLib/PendingCommand.java:29-32 | trimming takes characters up to the space off both ends and leaves none there |
| Texts.PickedIsWholeIff | src/main/java/MCJCommLib/PendingCommand.java:12-32 | a result from which parts are missing trims to the same as the whole exactly if nothing is missing but white space at its two ends |
| Dispatch.CommandCollectsItsOwn | src/main/java/MCJCommLib/MCJCommManager.java:167-235 | in any interleaving a pending command has exactly its own data and marked errors, in order, and is done exactly after its own prompt |
| Dispatch.ErrorsAreMarked | src/main/java/MCJCommLib/PendingCommand.java:16-19 | an error joins the text of its command behind the characters $ERRORFRAME$ |
| Dispatch.ApplicationHears | src/main/java/MCJCommLib/MCJCommManager.java:167-235 | in any interleaving the application is called for exactly these messages, in order, while `bContinue` is set: every prompt; every asynchronous message, as one of type Async; and the data, errors and acknowledgements that come while no blocking query runs |
| SyncedQuery.QueryResult | src/main/java/MCJCommLib/MCJCommManager.java:291-307 | what a query finds in the table whatever other callers and ids do meanwhile |
| SyncedQuery.ReturnsWhatItHeard | src/main/java/MCJCommLib/MCJCommManager.java:291-307 | at every moment the caller keeps waiting unless `bContinue` is cleared or its prompt was heard; it returns nothing if `bContinue` is cleared when it is read again, else all that was heard until the text is read, trimmed |
| SyncedQuery.ReturnsTheAnswer | src/main/java/MCJCommLib/MCJCommManager.java:291-307 | while `bContinue` stays set, the query waits until its prompt has come and then returns the whole answer, trimmed |
| SyncedQuery.FallsShortIff | src/main/java/MCJCommLib/MCJCommManager.java:296-306 | in every run it returns neither nothing nor the whole answer exactly if `bContinue` is set when it is read again, something was heard, and there is a gap in it, white space at the ends aside |
| SyncedQuery.FallsShortUnbrokenIff | src/main/java/MCJCommLib/MCJCommManager.java:296-306 | with no message missed: exactly if it left its loop because `bContinue` was cleared, before its prompt, found it set again, and has heard something but not everything |
| SyncedQuery.WholeOrNothingIff | src/main/java/MCJCommLib/MCJCommManager.java:296-306 | for every order in which `bContinue` changes: every query returns nothing or its whole answer if and only if it is never set after it was cleared |
| SyncedQuery.AnswerCutShort | src/main/java/MCJCommLib/MCJCommManager.java:296-306 | a run in which nothing is missed and the beginning of the answer is returned as if it were all |
| SyncedQuery.CollectTakesOut | src/main/java/MCJCommLib/MCJCommManager.java:303 | the command leaves the table, no other does, and nothing that arrives brings it back |
| BlockingQuery.ReturnsWhatItHeard | src/main/java/MCJCommLib/MCJCommManager.java:267-289 | the same for the blocking query, which a prompt of any id or a cancellation ends; what came between its first two steps is in front if the query before left its mark |
| BlockingQuery.HeardUntilTheEnd | src/main/java/MCJCommLib/MCJCommManager.java:179-187 | what arrives after the end of a blocking query makes no difference to its result |
| BlockingQuery.ReturnsTheAnswer | src/main/java/MCJCommLib/MCJCommManager.java:267-289 | while `bContinue` stays set and nobody cancels, it waits until a prompt has come and then returns the whole answer, trimmed |
| BlockingQuery.FallsShortIff | src/main/java/MCJCommLib/MCJCommManager.java:273-288 | in every run it returns neither nothing nor the whole answer exactly if `bContinue` is set when it is read again, something was heard, and there is a gap in it, white space at the ends aside |
| BlockingQuery.FallsShortUnbrokenIff | src/main/java/MCJCommLib/MCJCommManager.java:273-288 | with no message missed: exactly if it left its loop because `bContinue` was cleared or it was cancelled, before a prompt, found the flag set again, and has heard something but not everything |
| BlockingQuery.WholeOrNothingIff | src/main/java/MCJCommLib/MCJCommManager.java:273-288 | for every order in which `bContinue` changes: every blocking query returns nothing or its whole answer if and only if it is never set after it was cleared |
| BlockingQuery.AnswerCutShort | src/main/java/MCJCommLib/MCJCommManager.java:273-288 | a run in which nothing is missed, nobody cancels, and the beginning of the answer is returned as if it were all |
| Wakeup.NoLostWakeup | src/main/java/MCJCommLib/MCJCommManager.java:267-289 | in no run is the caller of the blocking query asleep after its query was answered or cancelled with no notification under way |
| Wakeup.PendingNotifyArrives | src/main/java/MCJCommLib/MCJCommManager.java:189-195 | a notification under way is at most three steps off, each of them possible |
| Wakeup.WokenUnlessStuck | src/main/java/MCJCommLib/MCJCommManager.java:267-289 | at every moment of every run a sleeping caller can be woken by what is under way, without anybody beginning to disconnect, if and only if the drain thread has not ended or somebody is disconnecting already |
| Wakeup.StuckStaysStuck | src/main/java/MCJCommLib/MCJCommManager.java:273-276 | in the other case it sleeps for ever, whatever the threads under way do |
| Wakeup.StuckByStop | src/main/java/MCJCommLib/MCJCommManager.java:93-97 | that happens when the socket closes while a query waits, with `bContinue` cleared |
| Wakeup.StuckByException | src/main/java/MCJCommLib/MCJCommManager.java:98-105 | and when an exception of the decoder ends the drain thread, with both flags still set |
| Wakeup.StuckWaitsForAnswer | src/main/java/MCJCommLib/MCJCommManager.java:273 | a caller that is stuck still has its query marked as running |
| CommManager.PendingCommand.AppendText | src/main/java/MCJCommLib/PendingCommand.java:12-14 | the text is appended to what there is |
| CommManager.PendingCommand.AppendError | src/main/java/MCJCommLib/PendingCommand.java:16-19 | the text is appended behind the error mark |
| CommManager.PendingCommand.SetIsDone | src/main/java/MCJCommLib/PendingCommand.java:21-23 | the flag is set, the text stays |
| CommManager.PendingCommand.TrimmedText | src/main/java/MCJCommLib/PendingCommand.java:29-32 | the text without white space at its ends |
| CommManager.MCJCommManager.OnNewBufferCallback | src/main/java/MCJCommLib/MCJCommManager.java:148-158 | the filled part of the buffer goes to the end of the queue |
| CommManager.MCJCommManager.OnMultiPurpDataCallback | src/main/java/MCJCommLib/MCJCommManager.java:167-235 | a message changes the shared table of command objects, the flags and the callbacks as the event function says |
| CommManager.MCJCommManager.AppendTo | src/main/java/MCJCommLib/MCJCommManager.java:177-178 | the text goes to the command of that id alone, if there is one |
| CommManager.MCJCommManager.AppendErrorTo | src/main/java/MCJCommLib/MCJCommManager.java:210-211 | the marked text goes to the command of that id alone, if there is one |
| CommManager.MCJCommManager.DecodeOne | src/main/java/MCJCommLib/MCJCommManager.java:87-89 | one byte is decoded and the message it completes is handled |
| CommManager.MCJCommManager.DecodeChunk | src/main/java/MCJCommLib/MCJCommManager.java:86-89 | a chunk is decoded byte by byte, as part of one string, until an exception stops it |
| CommManager.MCJCommManager.PollAndDecode | src/main/java/MCJCommLib/MCJCommManager.java:86-89 | the first chunk leaves the queue and is decoded |
| CommManager.MCJCommManager.PutCommand | src/main/java/MCJCommLib/MCJCommManager.java:292 | a fresh command replaces whatever had the id, and no other |
| CommManager.MCJCommManager.SetCommandDone | src/main/java/MCJCommLib/MCJCommManager.java:293-294 | the flag of that command alone, if it is there |
| CommManager.MCJCommManager.CollectCommand | src/main/java/MCJCommLib/MCJCommManager.java:299-306 | the trimmed text of the command, which leaves the table; without `bContinue` nothing, and it stays |
| CommManager.MCJCommManager.FinishQuery | src/main/java/MCJCommLib/MCJCommManager.java:285-288 | the trimmed result of a blocking query, or nothing without `bContinue` |
| CommManager.MCJCommManager.OnData | src/main/java/MCJCommLib/MCJCommManager.java:176-187 | a data frame goes to its command, and to the callback or the blocking query |
| CommManager.MCJCommManager.OnPrompt | src/main/java/MCJCommLib/MCJCommManager.java:188-201 | a prompt ends the blocking query, marks its command as done and goes to the callback |
| CommManager.MCJCommManager.OnError | src/main/java/MCJCommLib/MCJCommManager.java:209-221 | an error frame goes marked to its command, and to the callback or, marked, to the blocking query |
| CommManager.MCJCommManager.DrainQueue | src/main/java/MCJCommLib/MCJCommManager.java:82-92 | the queue is emptied, and its chunks are decoded as one string until an exception stops the thread |
| CommManager.ConversationReachesApplication | src/main/java/MCJCommLib/MCJCommManager.java:82-235 | from bytes to callbacks: once all that the controller sent in a conversation has been decoded, in whatever chunks, the application has been called for exactly those of its messages, with their types, texts and ids |
| PathWalk.BackwardIsForward | src/main/java/spark/resource/UriPath.java:69-149 | a scan from right to left that lets ".." cancel the next plain segment ends where a walk from left to right with a stack does |
| UriPath.FindDots | src/main/java/spark/resource/UriPath.java:40-58 | the position of the last dot segment, or none |
| UriPath.OnDot | src/main/java/spark/resource/UriPath.java:82-105 | one round of the scan at a "." keeps the scan state: what was scanned shows what the walk keeps, what was not is as in the path |
| UriPath.OnDotDot | src/main/java/spark/resource/UriPath.java:118-128 | one round of the scan at a ".." keeps the scan state |
| UriPath.CancelPlain | src/main/java/spark/resource/UriPath.java:70-148 | one round of the scan at a plain segment that a pending ".." cancels keeps the scan state |
| UriPath.OnPlain | src/main/java/spark/resource/UriPath.java:70-148 | one round of the scan at a plain segment, deletions included, keeps the scan state |
| UriPath.CanonicalInPlace | src/main/java/spark/resource/UriPath.java:32-162 | the buffer edited in place from right to left ends as the walk from left to right says, trailing slash included; no result exactly when the walk leaves the root |
| CanonicalLaws.CanonicalHasNoDots | src/main/java/spark/resource/UriPath.java:32-162 | the canonical form has no "." and no ".." segment |
| CanonicalLaws.CanonicalIsFixed | src/main/java/spark/resource/UriPath.java:32-162 | it is its own canonical form |
| CanonicalLaws.CanonicalIsWhereTheWalkEnds | src/main/java/spark/resource/UriPath.java:152-161 | it names the place where the walk ends, up to one trailing slash |
| CanonicalLaws.NoCanonicalFormAboveRoot | src/main/java/spark/resource/UriPath.java:152-154 | there is none exactly when some beginning of the path goes up more often than down |
| CanonicalLaws.SlashAfterDownAndUp | src/main/java/spark/resource/UriPath.java:73-78 | going down and up again gives "/" or nothing, depending on the length of the segment |
| CanonicalLaws.SlashAfterDots | src/main/java/spark/resource/UriPath.java:82-105 | a path that ends with single dots keeps a slash if there is one of them, or any number with nothing before them |
| CanonicalLaws.SlashAfterUps | src/main/java/spark/resource/UriPath.java:70-148 | a path whose end goes up from a segment to the place before it keeps a slash, unless that segment comes first and is one or two characters long |
| CanonicalLaws.EveryPathEndsSo | src/main/java/spark/resource/UriPath.java:69-149 | every path that stays below the root ends in one of these two ways |
| CanonicalLaws.TrailingSlash | src/main/java/spark/resource/UriPath.java:69-161 | so the trailing slash of every canonical form is known |
| StringUtils.Replace | src/main/java/spark/utils/StringUtils.java:131-149 | replacing every occurrence is splitting at the pattern and joining with the replacement; an empty pattern changes nothing |
| StringUtils.DelimitedListToStringArray | src/main/java/spark/utils/StringUtils.java:312-337 | the parts between the delimiters, none for the empty string; single characters for an empty delimiter |
| StringUtils.CollectionToDelimitedString | src/main/java/spark/utils/StringUtils.java:349-374 | the strings with the delimiter between any two |
| StringUtils.JoinOfSplit | src/main/java/spark/utils/StringUtils.java:312-374 | joining what was split gives the string back, for every non-empty delimiter |
| StringUtils.SplitOfJoin | src/main/java/spark/utils/StringUtils.java:312-374 | splitting what was joined with a character that no part has gives the parts back |
| StringUtils.PartsLackDelimiter | src/main/java/spark/utils/StringUtils.java:312-337 | no part contains the delimiter |
| StringUtils.SplitIsElements | src/main/java/spark/utils/StringUtils.java:312-337 | splitting at slashes from the left finds the segments that splitting from the right does |
| StringUtils.Resolve | src/main/java/spark/utils/StringUtils.java:242-265 | the loop with the counter of tops leaves the walk from left to right, with the steps above the start in front |
| StringUtils.CleanPath | src/main/java/spark/utils/StringUtils.java:218-267 | the method computes the walk on the path behind its prefix |
| PathCleaning.CleanIsIdempotent | src/main/java/spark/utils/StringUtils.java:218-267 | cleaning a clean path changes nothing, for every string |
| NormaliserLaws.CleanKeepsCanonical | src/main/java/spark/utils/StringUtils.java:218-267 | cleaning leaves a canonical path as it is, without backslash and colon |
| NormaliserLaws.NormalisersAgree | src/main/java/spark/resource/UriPath.java:32-162 | both normalisers agree on such absolute paths up to one slash; one has no result exactly when the other starts with ".." |
| NormaliserLaws.BackslashesAreSlashes | src/main/java/spark/utils/StringUtils.java:222 | cleaning reads every backslash as a slash and leaves none |
| NormaliserLaws.PrefixIsKept | src/main/java/spark/utils/StringUtils.java:224-238 | what comes before the one colon, and the colon, is kept as it is, and the rest cleaned by itself |
| NormaliserLaws.RelativeAsAbsolute | src/main/java/spark/utils/StringUtils.java:218-267 | a relative path without a colon is cleaned as the absolute one is, without the slash in front |
| ConnectionLaws.SendableCodes | src/main/java/org/java_websocket/framing/CloseFrame.java:191-252 | the codes for which a close frame passes its checks: those that section 7.4 of RFC 6455 defines for sending, 1007 only with a reason, 1012 to 1014, and 3000 to 4999 |
| ConnectionInvariant.GoodClose | src/main/java/org/java_websocket/WebSocketImpl.java:435-479 | closing keeps the invariant of a connection and takes nothing back |
| ConnectionInvariant.GoodDecode | src/main/java/org/java_websocket/WebSocketImpl.java:212-373 | receiving keeps the invariant and takes nothing back, whatever the drafts and the listener make of the handshake |
| ConnectionInvariant.GoodBatch | src/main/java/org/java_websocket/SocketChannelIOHelper.java:78-108 | writing keeps the invariant and takes nothing back, however little the channel takes |
| ConnectionInvariant.FlushConserves | src/main/java/org/java_websocket/SocketChannelIOHelper.java:92-102 | written and queued bytes together stay the same, however little the channel takes |
| ConnectionRuns.GoodNext | src/main/java/org/java_websocket/WebSocketImpl.java:212-721 | every public call keeps the invariant and takes nothing back |
| ConnectionRuns.NothingIsTakenBack | src/main/java/org/java_websocket/WebSocketImpl.java:435-587 | over any run the state never goes back, the first reason to close stays, and what was told, queued, written or decoded stays |
| ConnectionRuns.EveryRun | src/main/java/org/java_websocket/WebSocketImpl.java:435-720 | over any run from a new connection: one `onWebsocketClose` exactly when closed, one `onWebsocketClosing` exactly when told to close, with the first reason; at most one close frame and no frame after it; written and queued bytes are the bytes enqueued |
| ConnectionRuns.BatchClosesIff | src/main/java/org/java_websocket/SocketChannelIOHelper.java:92-107 | writing closes a connection exactly when it is an opened server told to close and the channel takes all; then all is written and the reason is the first one |
| ConnectionRuns.BatchHasReason | src/main/java/org/java_websocket/WebSocketImpl.java:539-544 | the exception for closing without a reason cannot come from writing |
| ConnectionReports.CloseReports | src/main/java/org/java_websocket/WebSocketImpl.java:435-479 | what `close` stores and tells, for every state, code, draft and origin: 1006 for 1006 and for a frame that may not be sent, else the code given, from OPEN; before that -3 and 1002 as given and -1 for every other code; a reason that is there already stays |
| ConnectionReports.ReasonReachesTheEnd | src/main/java/org/java_websocket/WebSocketImpl.java:435-544 | over any run behind the first call of `close`: the listener hears this reason once when the closing begins, and it is the reason of `onWebsocketClose`, unless somebody calls `closeConnection` with another |
| ConnectionReports.EotReports | src/main/java/org/java_websocket/WebSocketImpl.java:572-587 | what the end of the channel tells: -1 if never open, the reason kept if there is one, else 1000 without a close handshake or with a one-way one at a client, and 1006 otherwise |
| ConnectionReports.EndReports | src/main/java/org/java_websocket/WebSocketImpl.java:497-544 | `closeConnection` tells the reason given; without one it tells the reason kept, and is an exception that changes nothing if there is none |
| ConnectionReports.SendQueues | src/main/java/org/java_websocket/WebSocketImpl.java:628-641 | sending queues all frames in order behind what is there, and nothing unless open |
| ConnectionReports.StartQueues | src/main/java/org/java_websocket/WebSocketImpl.java:670-691 | a handshake is queued in order if the listener consents, and nothing otherwise |
| ConnectionReports.ServerJudges | src/main/java/org/java_websocket/WebSocketImpl.java:253-300 | what a server does with a handshake: the first draft that does not pass it on decides; the response is queued, and then the connection opened with that draft, or an error page is queued and the connection told to close, for the reason given |
| ConnectionReports.ServerAsksItsDraft | src/main/java/org/java_websocket/WebSocketImpl.java:301-318 | the branch for a server that has a draft already: the draft alone decides, and the listener is not asked |
| ConnectionReports.ClientJudges | src/main/java/org/java_websocket/WebSocketImpl.java:319-351 | what a client does with the answer: it waits, opens, or is told to close for the reason of the draft or the listener, without a word to the other end |
| ConnectionReports.PagesAreWhole | src/main/java/org/java_websocket/WebSocketImpl.java:422-433 | the two error pages have their status, and the length that each declares is that of what follows |
| ConnectionReports.EveryWriteWakes | src/main/java/org/java_websocket/WebSocketImpl.java:550-711 | over any run the listener is asked to write once for every buffer queued, and once more for the closing |
| ConnectionReports.NothingReadLate | src/main/java/org/java_websocket/WebSocketImpl.java:212-230 | a closing or closed connection reads nothing, and calls to send or close leave it as it is |
| ConnectionReports.FramesAreTheRest | src/main/java/org/java_websocket/WebSocketImpl.java:212-230 | however the bytes are cut into chunks and whatever else is called: the frame decoder of an open connection has all that has arrived, from the first byte that was not read as part of the handshake |
| ConnectionLaws.ClosingSaysSoIff | src/main/java/org/java_websocket/WebSocketImpl.java:443-465 | when closing an open connection queues a close frame, and that it queues nothing else |
| ConnectionLaws.GoodbyeIsLast | src/main/java/org/java_websocket/WebSocketImpl.java:443-477 | once the opening handshake is under way, a close frame is the last that is queued (section 5.5.1 of RFC 6455) |
| ConnectionLaws.LastBytesAreGoodbye | src/main/java/org/java_websocket/SocketChannelIOHelper.java:92-107 | when writing closes a connection that has said goodbye, the bytes written end with the close frame |
| ConnectionLaws.EotFailsIff | src/main/java/org/java_websocket/WebSocketImpl.java:572-587 | the end of the channel finds no draft exactly at a connection that was never open, never told to close, and has ended |
| ConnectionLaws.EotTwiceFails | src/main/java/org/java_websocket/WebSocketImpl.java:572-587 | so reporting it twice to such a server is a null dereference |
| ConnectionLaws.FailedHandshakeWaits | src/main/java/org/java_websocket/SocketChannelIOHelper.java:104-106 | a server whose handshake failed is not closed by writing everything |
| ConnectionLaws.FlushedThenOpened | src/main/java/org/java_websocket/WebSocketImpl.java:550-570 | being told to close does not keep a connection from opening |
| ConnectionLaws.HandshakeSeesEverything | src/main/java/org/java_websocket/WebSocketImpl.java:236-371 | while the chunks of a handshake are incomplete, nothing is told or queued and the buffer holds exactly what was received, whatever sizes were preferred |
| ConnectionLaws.CollectedIsAll | src/main/java/org/java_websocket/WebSocketImpl.java:236-252 | each judgement sees everything received, however the buffer has to grow |
| ConnectionLaws.RestGoesToFrames | src/main/java/org/java_websocket/WebSocketImpl.java:219-229 | when the handshake is complete, what was received and not read as part of it goes to the frame decoder, all of it and nothing else |
| ConnectionLaws.RefusedForgetsRest | src/main/java/org/java_websocket/WebSocketImpl.java:236-252 | a connection that was refused and gets another piece judges it behind what the last judgement had read; what that had left unread is lost |
| ConnectionLaws.RoomForMore | src/main/java/org/java_websocket/WebSocketImpl.java:241-365 | the first piece is kept with the room the draft asked for, or sixteen bytes more; the buffer grows by a later piece that does not fit |
| WebSocketImpl.WebSocketImpl.Server | src/main/java/org/java_websocket/WebSocketImpl.java:178-188 | a new server connection, with the standard draft if none is given |
| WebSocketImpl.WebSocketImpl.Client | src/main/java/org/java_websocket/WebSocketImpl.java:196-205 | a new client connection with a copy of its draft |
| WebSocketImpl.WebSocketImpl.Write | src/main/java/org/java_websocket/WebSocketImpl.java:693-698 | a buffer goes to the end of the queue and the listener hears of it |
| WebSocketImpl.WebSocketImpl.WriteAll | src/main/java/org/java_websocket/WebSocketImpl.java:705-711 | all buffers go to the end of the queue, in order, each with its call to the listener |
| WebSocketImpl.WebSocketImpl.SayClose | src/main/java/org/java_websocket/WebSocketImpl.java:449-468 | a valid close frame is queued, an invalid one is an error and flushes with code 1006; neither without a close handshake |
| WebSocketImpl.WebSocketImpl.Open | src/main/java/org/java_websocket/WebSocketImpl.java:713-721 | OPEN, and the listener hears of it |
| WebSocketImpl.WebSocketImpl.CloseConnectionDueToWrongHandshake | src/main/java/org/java_websocket/WebSocketImpl.java:401-404 | an answer with status 404 is queued and the connection told to close |
| WebSocketImpl.WebSocketImpl.CloseConnectionDueToInternalServerError | src/main/java/org/java_websocket/WebSocketImpl.java:411-414 | an answer with status 500 is queued and the connection told to close as never connected |
| WebSocketImpl.WebSocketImpl.DecodeFrames | src/main/java/org/java_websocket/WebSocketImpl.java:375-394 | the bytes go to the draft behind those before them |
| WebSocketImpl.WebSocketImpl.Send | src/main/java/org/java_websocket/WebSocketImpl.java:628-641 | an exception and no change unless open; else all frames are queued |
| WebSocketImpl.WebSocketImpl.StartHandshake | src/main/java/org/java_websocket/WebSocketImpl.java:670-691 | the bytes of the handshake are queued if the listener consents; otherwise an exception, and nothing is queued |
| WebSocketImpl.WebSocketImpl.Close | src/main/java/org/java_websocket/WebSocketImpl.java:435-479 | all fields, the queue and the calls to the listener become those of `Connection.Close`, whose place in every run `ConnectionRuns` proves; a close frame is sent only from OPEN and only if it is valid |
| WebSocketImpl.WebSocketImpl.FlushAndClose | src/main/java/org/java_websocket/WebSocketImpl.java:550-570 | the first call sets flag, code, message and origin and tells the listener twice; later calls change nothing |
| WebSocketImpl.WebSocketImpl.CloseConnection | src/main/java/org/java_websocket/WebSocketImpl.java:497-533 | CLOSED, and the listener hears the reason, unless it was closed before; nothing else changes |
| WebSocketImpl.WebSocketImpl.CloseFlushed | src/main/java/org/java_websocket/WebSocketImpl.java:539-544 | closes with the reason kept; an exception exactly if there is none |
| WebSocketImpl.WebSocketImpl.Eot | src/main/java/org/java_websocket/WebSocketImpl.java:572-587 | closes with the reason that state, flag, close handshake and role give; failure exactly when there is no draft to ask |
| WebSocketImpl.WebSocketImpl.Collect | src/main/java/org/java_websocket/WebSocketImpl.java:236-252 | growing and filling the handshake buffer, where every put fits |
| WebSocketImpl.WebSocketImpl.JudgeAsServer | src/main/java/org/java_websocket/WebSocketImpl.java:257-300 | the loop over the drafts ends as the first one that has something to say wants it |
| WebSocketImpl.WebSocketImpl.AnswerMatch | src/main/java/org/java_websocket/WebSocketImpl.java:273-292 | the answer of the server's listener: the response is queued and the connection opened with that draft, or it is refused with an error answer |
| WebSocketImpl.WebSocketImpl.JudgeByDraft | src/main/java/org/java_websocket/WebSocketImpl.java:301-351 | the draft that is there decides, for a client with its listener |
| WebSocketImpl.WebSocketImpl.HearAnswer | src/main/java/org/java_websocket/WebSocketImpl.java:331-345 | the answer of the client's listener opens the connection or tells it to close |
| WebSocketImpl.WebSocketImpl.DecodeHandshake | src/main/java/org/java_websocket/WebSocketImpl.java:236-373 | the chunk joins what was collected, is judged with it, and is kept, dropped or left to be read as frames, as `Connection.DecodeHandshake` has it |
| WebSocketImpl.WebSocketImpl.Decode | src/main/java/org/java_websocket/WebSocketImpl.java:212-230 | a chunk is a piece of the handshake before the connection is open, frames while it is, and ignored afterwards |
| SocketChannelIOHelper.Batch | src/main/java/org/java_websocket/SocketChannelIOHelper.java:78-108 | the loop of writes and polls leaves queue and channel as `Connection.Flush` does, closes exactly when `ConnectionRuns.BatchClosesIff` says, and returns whether the queue is empty |
| RouteEntry.ConvertRouteToList | src/main/java/spark/utils/SparkUtils.java:34-43 | the non-empty segments of a route |
| RouteEntry.MatchPath | src/main/java/spark/route/RouteEntry.java:59-127 | the loops and the two appended empty segments decide the declarative match, for every pattern and path |
| RouteEntry.MatchParts | src/main/java/spark/route/RouteEntry.java:79-98 | the comparing loop decides whether all segments of the pattern match |
| RouteEntry.Matches | src/main/java/spark/route/RouteEntry.java:45-57 | a filter for all paths matches any path, other entries by method and pattern |
| RouteEntry.GetParams | src/main/java/spark/Request.java:504-523 | each parameter has the segment at its place |
| RouteEntry.GetSplat | src/main/java/spark/Request.java:525-556 | each splat has the segment at its place, the last one all that follow |
| RoutePaths.ParamsAt | src/main/java/spark/Request.java:504-523 | with names that differ in any case, no parameter overwrites another |
| RoutePaths.RebuildIff | src/main/java/spark/Request.java:504-556 | for every pattern and path that match: parameters and splats put back into the pattern give the path, if and only if nothing is left over behind a last segment that is no splat |
| RoutePaths.StarInsideSegment | src/main/java/spark/route/RouteEntry.java:104-121 | a star at the end of a longer segment lets a pattern match longer paths, of which it captures nothing |
| RouteLaws.EndingsAgree | src/main/java/spark/route/RouteEntry.java:60-64 | a pattern that does not end with a star matches only paths that end with a slash just when it does |
| RouteLaws.LiteralMatchesIff | src/main/java/spark/route/RouteEntry.java:59-127 | a pattern without parameters and stars matches exactly the paths with the same segments and the same ending |
| RouteLaws.StarMatchesIff | src/main/java/spark/route/RouteEntry.java:79-121 | a pattern whose last segment is a star, or a parameter that ends with one, matches exactly the paths that begin like it and go on: with another segment or with a slash |
| RouteLaws.NameStarMatchesIff | src/main/java/spark/route/RouteEntry.java:79-121 | one whose last segment is a name with a star at its end matches exactly the paths that begin with all its segments, star included |
| RouteLaws.FilledMatches | src/main/java/spark/route/RouteEntry.java:59-127 | a pattern whose parameters and splats have been filled in matches the path that results, with its ending kept |
| RouteLaws.FilledReadsBack | src/main/java/spark/Request.java:504-556 | and taking that path apart gives what was filled in |
| RouteLaws.PathOfHas | src/main/java/spark/utils/SparkUtils.java:34-43 | every list of segments is that of a path with either ending |
| RouteLaws.FilterMatchesAll | src/main/java/spark/route/RouteEntry.java:45-51 | a filter for all paths matches every path under its own method and no other |
| RouteLaws.EntryMatchesByRoute | src/main/java/spark/route/RouteEntry.java:52-56 | every other entry matches by its method and its pattern |
| RouteLaws.MatchingIff | src/main/java/spark/route/Routes.java:199-207 | a request finds exactly the entries of its method that serve its path |
| RouteLaws.KeptIff | src/main/java/spark/route/Routes.java:229-248 | removing takes out exactly the entries that serve the path, of the method if one is given |
| Routes.Routes.Add | src/main/java/spark/route/Routes.java:171-180 | an entry goes to the end of the table |
| Routes.Routes.Clear | src/main/java/spark/route/Routes.java:119-121 | no entry is left |
| Routes.Routes.FindTargetsForRequestedRoute | src/main/java/spark/route/Routes.java:199-207 | exactly the entries that match, in order |
| Routes.Routes.Find | src/main/java/spark/route/Routes.java:83-87 | the first entry that matches, or among those that match the first of a type that fits best and is not ruled out; none exactly when the best is ruled out or nothing matches |
| Routes.Routes.FindMultiple | src/main/java/spark/route/Routes.java:97-114 | all entries that match and are not ruled out, in order |
| Routes.Routes.FindTargetWithGivenAcceptType | src/main/java/spark/route/Routes.java:210-227 | the choice among the entries that match |
| Routes.Routes.GetAcceptedMimeTypes | src/main/java/spark/route/Routes.java:183-193 | for each type the first entry that has it |
| Routes.Routes.RemoveRoute | src/main/java/spark/route/Routes.java:229-248 | exactly the entries that match are gone, the others keep their order; whether there were any |
| Routes.RemovedIsGone | src/main/java/spark/route/Routes.java:229-248 | afterwards nothing matches that method and path |
| Routes.MatchingOfKept | src/main/java/spark/route/Routes.java:229-248 | for every other method and path the matches are those of before without the removed ones, in order |
| MimeParse.CompareRange | src/main/java/spark/utils/MimeParse.java:148-160 | the loop over the parameters, in whatever order they come, counts a common parameter once |
| MimeParse.FitnessAndQualityParsed | src/main/java/spark/utils/MimeParse.java:138-164 | the best fit over all ranges and parameters, in whatever order the parameters come |
| MimeParse.BestFitIsFirstBest | src/main/java/spark/utils/MimeParse.java:138-164 | no range fits better, and the quality is that of the first that fits so well |
| MimeParse.BestMatch | src/main/java/spark/utils/MimeParse.java:173-189 | a type that no other beats in fitness and quality, or none if the quality of the best is zero |
| MimeLaws.FitterIffMoreSpecific | src/main/java/spark/utils/MimeParse.java:150-156 | the fitness orders ranges by this alone: naming the main type, then naming the subtype, then sharing a parameter |
| MimeLaws.AppliesIff | src/main/java/spark/utils/MimeParse.java:144-147 | a range applies unless a main type or a subtype clashes, neither being a wildcard |
| MimeLaws.DecidedBySpecificity | src/main/java/spark/utils/MimeParse.java:138-164 | the quality of a type is that of the first most specific range that applies |
| MimeLaws.ExactDecides | src/main/java/spark/utils/MimeParse.java:138-164 | if some range names the type exactly, such a range decides, whatever the wildcards say |
| MimeLaws.RuledOutIsNotServed | src/main/java/spark/utils/MimeParse.java:173-189 | so a type that the header names only with quality 0 is never chosen |
| MimeLaws.MaximalIff | src/main/java/spark/utils/MimeParse.java:173-189 | the chosen type has the greatest fitness and among those the greatest quality |
| MimeLaws.AcceptedIff | src/main/java/spark/route/Routes.java:97-114 | an entry is accepted exactly if its type has a name and the range that decides about it has a quality |
| QueryParams.PathOfFormat | src/main/java/spark/QueryParamsMap.java:109-143 | a well-formed key names exactly its path; parsing ends because the remainder shrinks |
| QueryParams.NameSurvivesIff | src/main/java/spark/QueryParamsMap.java:136-143 | the name in a group of brackets survives exactly when it stands alone or between one opening and one closing bracket |
| QueryParams.UnclosedLosesLast | src/main/java/spark/QueryParamsMap.java:109-143 | a key that is a name behind an unclosed bracket names that without its last character |
| QueryParams.LoadThenFind | src/main/java/spark/QueryParamsMap.java:109-124 | loading any key, well formed or not, sets the values of its path and of no other |
| QueryParams.LoadAllThenFind | src/main/java/spark/QueryParamsMap.java:97-124 | the tree has at each path what was loaded last for it |
| QueryParams.TreeHasItsKeys | src/main/java/spark/QueryParamsMap.java:97-170 | distinct well-formed keys, in any order, are all found with their values |
| QueryParams.TreeHasNothingElse | src/main/java/spark/QueryParamsMap.java:97-170 | and no other path has values |
| QueryParamsMap.QueryParamsMap.LoadKeys | src/main/java/spark/QueryParamsMap.java:109-124 | the tree of objects updated in place becomes the tree of values, and no object is shared |
| QueryParamsMap.QueryParamsMap.UpdateChild | src/main/java/spark/QueryParamsMap.java:119-123 | one child changes, and shares nothing with the others, which stay |
| QueryParamsMap.QueryParamsMap.LoadQueryString | src/main/java/spark/QueryParamsMap.java:97-101 | all entries of a parameter map are loaded, in whatever order they come |
| QueryParamsMap.QueryParamsMap.Get | src/main/java/spark/QueryParamsMap.java:160-170 | the node that the keys lead to, or the shared empty one |
| ExceptionMapper.ExceptionMapper.Map | src/main/java/spark/ExceptionMapper.java:65-67 | the class gets the handler, whatever it had before |
| ExceptionMapper.ExceptionMapper.GetHandler | src/main/java/spark/ExceptionMapper.java:75-103 | the handler of the nearest class in the map, which the map remembers, null included |
| ExceptionMapper.LookupsStayRight | src/main/java/spark/ExceptionMapper.java:75-103 | after any lookups, every class gets the handler of its nearest originally mapped class |
| ExceptionMapper.LateMappingIsSeenIff | src/main/java/spark/ExceptionMapper.java:65-67 | a handler mapped after lookups is missed exactly by the classes whose answer was looked up on the way, if it differs |
| ExceptionMapper.LateMappingIsMissed | src/main/java/spark/ExceptionMapper.java:65-67 | such a class exists |

## Left out

- Sockets, telnet and UDP, the timeouts and sleeps of the manager, and its connection-state callbacks: a chunk arrives, a flag changes, a wait may end by itself.
- Java's memory model: every read or write of a shared field is one step, and steps interleave; stale reads of fields that are not volatile are not modelled.
- Interrupted waits, and exceptions thrown by the application's callback or, apart from the handshake, by the WebSocket listener.
- Wakeup.NoLostWakeup: speaks of queries that were answered or cancelled. A caller also waits for `bContinue`, whose end brings no notification: `Wakeup.WokenUnlessStuck` says what then.
- Wakeup.WokenUnlessStuck: one connection; connecting again while a query waits is not modelled.
- Dispatch.CommandCollectsItsOwn: a message is one step, though the program looks its command up twice; a command that is taken out of the table in between would end the drain thread with a null dereference.
- SyncedQuery.ReturnsWhatItHeard: for an id that no other caller uses at the same time; the table has one entry for an id.
- BlockingQuery.WholeOrNothingIff: `Disconnect` cancels a query and clears `bContinue` inside the monitor in which the caller tests both, so a caller that finds its query cancelled also finds that the flag has been cleared since.
- Text as Unicode: messages are byte strings and decoding UTF-8 is the identity on them; URL decoding is the identity on characters.
- Null arguments, which the path and string methods return unchanged or answer with an empty result.
- Assembly.DecoderRefines: for noise that does not throw. A header that declares fewer than 19 bytes, or package 1 of a negative number, throws outside any handler (`FrameRuns.HeaderOutcome`), and so does the byte behind a header that declares 19 (`FrameRuns.HeaderAloneThrows`).
- FrameRuns.DecodeNoise: a good header between frames, with any length, opens a frame and is no noise.
- `makeCRCUS` and `UShort`, which the protocol does not use; the char, float, double, boolean and String conversions of `BitConverter`.
- UriPath.CanonicalInPlace: for absolute paths only, as all callers pass them.
- NormaliserLaws.NormalisersAgree: for paths without backslash and colon, which only one of the normalisers treats specially.
- `deleteAny` and the variants of the string helpers with a prefix, a suffix or characters to delete: the path clean-up passes none.
- The drafts of the WebSocket protocol and their frame codecs: what they make of a handshake is any function of the bytes, and what they make of a frame are further public calls. A draft that names the size of buffer it would like is taken to name one that holds what it was given, as the program asserts.
- WebSocket calls are atomic and listeners do not call back. With listeners that do, the properties of runs are not claimed.
- `handshakerequest`, the reset of drafts, and the resource descriptor, which no modelled property speaks of.
- Wrapped and TLS channels, `read` and `readMore`, selection keys, I/O errors, pings, attachments.
- WebSocketImpl.WebSocketImpl.DecodeHandshake: stores the collected buffer once it has been judged; the program stores it before, which nobody can see in between.
- WebSocketImpl.WebSocketImpl.DecodeFrames: hands the bytes over; the exceptions of the draft and what its frames ask for are calls of their own (`close`, `sendFrame`, `closeConnection`, `flushAndClose`), which may follow in any number.
- WebSocketImpl.WebSocketImpl.Send: takes frames as the bytes the draft makes of them; the close frame alone is modelled as a frame.
- ConnectionInvariant.GoodDecode: how many bytes a failed judgement reads is any number up to what there is.
- RouteEntry.ConvertRouteToList: `String.split` drops empty pieces at the end, which this method drops anyway.
- RouteEntry.MatchPath: the program has the comparing loop twice; here it is one method, called from both places.
- MimeParse.BestMatch: media ranges are taken as parsed, qualities are real numbers, and sorting is modelled as keeping the last of the greatest.
- Routes.Routes.RemoveRoute: entries are values, so two equal entries are not told apart; both match or neither does.
- Argument checks of `Routes.remove` and the deprecated way to add routes as one string.
- QueryParams.ParseKey: the pattern for keys is written out as runs of characters; it needs no backtracking.
- ExceptionMapper.ExceptionMapper.GetHandler: a class hierarchy is a chain of names, and the map that all servlets share is one object.
- Authentication, static files, serialisers, the database, and the user interface.
