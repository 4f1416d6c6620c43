# A model of the traffic-analysis suite

Dafny models of the algorithmic cores of a network-monitoring suite, and proofs of what they
promise. Nothing here runs the original program.

| files | component |
|---|---|
| Frames, ChunkedIO, Link | `ChunkedIOFd`: chunks over a byte stream between two processes |
| Bits32, PrefixTable, KeptNets, A50, PrefixMd5 | prefix-preserving anonymization of IP addresses |
| HttpTypes, HttpStep, HttpSpec, HttpParser, HttpTally, HttpNumbers, HttpBodies, HttpHeaders, HttpUrls, HttpLines, HttpFields, HttpMessages | `http_parser_execute`, strict build |
| CompTypes, CompSpec, CompRecover, CompHash | composite hash keys |
| Nfa, EquivSpec, EquivClass, DfaTag, Dfa, Matcher | equivalence classes of characters, lazy subset construction and matching for regular expressions |
| TcpId, TcpSegBuf, TcpSession, SessionPool | TCP sessions and their hand-over between two threads |
| Base64Spec, Base64, Base64Decoder, Sha1Spec, Sha1, Url | codecs |
| Bytes | octets, optional values and big-endian words |

`dafny verify dfyconfig.toml` checks the whole project.

How the models read:

- The kernel's byte stream, random numbers, keyed hashes and the schedule of operations are
  arbitrary: methods choose them nondeterministically or take them as parameters, so the results
  hold for all of them.
- The anonymizer's trie is a heap structure. A ghost snapshot of it carries the invariant; the
  methods change real nodes and keep the two in step.
- The HTTP parser appears twice. `HttpStep.Step` is one execution of the big switch and `HttpSpec`
  folds it into a machine that reads one byte at a time and reports one byte at a time.
  `HttpParser.Connection` is the buffered loop with marks, callbacks and bulk skipping, proved to
  do what the byte machine does. `HttpBodies`, `HttpHeaders`, `HttpUrls`, `HttpLines`, `HttpFields`
  and `HttpMessages` compare the byte machine with the written form of bodies, names, targets, first
  lines, header fields and whole messages.
  A hand-over to another protocol (`upgrade`) ends a
  run; the caller has to notice it.
- Composite keys: enumerations and ports behave as integers and counts, a double is its bit
  pattern, a function its unique number, memory is little-endian and the key's buffer is aligned
  to eight bytes. A type list and the fields of a record are the same kind of list.
- An automaton is a list of states that know each other by position. `Matcher` rewrites one over
  characters into one over equivalence classes, as the matcher does once the pattern is parsed, and
  its results are about the automaton over characters. Cached states are filed under their tag
  itself, which amounts to a digest without collisions. The array of flags that `CCL_Use` makes on
  first use is there from the start.
- The two threads of the session pool are a transition system whose steps are smaller than the
  critical sections: taking the lock, pushing, releasing it and erasing are separate steps, and
  which packet comes next or which session has timed out is left open.
- A start sequence number of 0 means "not set" to the original, so results about
  reassembly are for streams with a nonzero start that do not wrap around.
- Methods named `Run`, `RunInNet`, `RunInTwoNets`, `ExecuteAll`, `Drain`, `Rebuild`, `DecodeInPieces`, `DecodeRest`,
  `DecodeUnpadded` and `DigestOf` are not part of the original. They stand for any caller and state
  what any sequence of calls amounts to.

Where the code and what one would expect of it differ, the code is modelled and the difference is
stated:

- A content length or chunk size that does not fit 64 bits is not always refused
  (`HttpNumbers.WrapAround`, `HttpNumbers.SizeWrapsAround`); the value is right exactly below 2^64-1
  (`HttpNumbers.ContentLengthExact`, `HttpNumbers.ChunkSizeExact`).
- The upper half of the table of hexadecimal digits is zero, so bytes from 128 on count as the
  digit 0 in a chunk size (`HttpNumbers.HighByte`).
- Keeping a second network can leave the trie out of order, with a stale copy of its first answer
  (`A50.SecondOnOneSide`) or with answers that part in the wrong bit (`A50.SecondWithFewerBits`); the
  exact condition is `A50.KeepableExactly` for any trie and `A50.TogetherExactly` for two networks.
- Values with an absent optional record that contains a required string or vector have no key
  although they are well typed (`CompSpec.FieldsSize`, `CompHash.AbsentWithoutKey`).
- Taking data out of a reassembly buffer before any has arrived makes every later attempt fail
  (`TcpSegBuf.SegBuf.DumpUnusedData`, `TcpSegBuf.DumpedTooEarly`).
- A segment from before the start of a stream that reaches past its end makes the buffer longer
  before it is refused (`TcpSegBuf.InsertedPastEnd`).
- Creating a session reads the length of the list of closed sessions without the lock
  (`SessionPool.ClosedUnderLock`, `SessionPool.CreateBesidePop`).
- A posted session stays in the table of active sessions until it is erased, when it may already
  have been deleted; the entry is not used in between (`SessionPool.OnePlace`).
- A space does not survive URL coding (`Url.RoundTrip`).

## Model

| member | source | states |
|---|---|---|
| `Frames.HeaderRoundTrip` | src/netmonitor/platform/src/ChunkedIO.cc:324-346 | the length field written for a frame, partial flag included, is read back as its length and flag |
| `Frames.HeadOfStream` | src/netmonitor/platform/src/ChunkedIO.cc:324-345 | any beginning of a stream of frames shows a complete frame at its head exactly when the first frame is all there, and that frame is the one shown |
| `Frames.FullBufferHasFrame` | src/netmonitor/platform/src/ChunkedIO.cc:464-567 | a full receive buffer that begins at a frame boundary holds a complete frame, so the reader cannot stall |
| `Frames.GlueSplitAll` | src/netmonitor/platform/src/ChunkedIO.cc:133-180 | splitting any chunks into frames and gluing the frames gives the same chunks and leaves nothing over |
| `Frames.GluePrefix` | src/netmonitor/platform/src/ChunkedIO.cc:365-462 | what comes out of the first frames of a stream is a prefix of what comes out of all of them |
| `Frames.GluedPrefixOfAccepted` | src/netmonitor/platform/src/ChunkedIO.cc:365-462 | chunks glued from a prefix of the frames of accepted chunks are a prefix of those chunks |
| `Frames.WirePrefix` | src/netmonitor/platform/src/ChunkedIO.cc:217-240 | frames whose bytes begin another stream of frames are its first frames |
| `Frames.OneReading` | src/netmonitor/platform/src/ChunkedIO.cc:217-240 | the bytes of some chunks can be cut into frames in one way only, and those frames glue to these chunks |
| `ChunkedIO.Pipe.TryWrite` | src/netmonitor/platform/src/ChunkedIO.cc:242-283 | a write takes any nonempty prefix of the bytes or none |
| `ChunkedIO.Pipe.TryRead` | src/netmonitor/platform/src/ChunkedIO.cc:505-552 | a read gives any nonempty prefix of what is in flight, nothing yet, or the end of the stream |
| `ChunkedIO.ChunkedIOFd.constructor` | src/netmonitor/platform/src/ChunkedIO.cc:86-121 | a new endpoint has sent, framed and delivered nothing |
| `ChunkedIO.ChunkedIOFd.FlushWriteBuffer` | src/netmonitor/platform/src/ChunkedIO.cc:242-283 | flushing neither loses nor reorders a byte, and leaves bytes behind only if the kernel refused a write |
| `ChunkedIO.ChunkedIOFd.PutIntoWriteBuffer` | src/netmonitor/platform/src/ChunkedIO.cc:217-240 | a frame goes into the buffer exactly if it fits, and then its header and bytes follow all earlier bytes |
| `ChunkedIO.ChunkedIOFd.MovePending` | src/netmonitor/platform/src/ChunkedIO.cc:292-322 | the head of the queue moves into the buffer, always if the buffer is empty; the count of pending chunks stays the length of the queue |
| `ChunkedIO.ChunkedIOFd.Flush` | src/netmonitor/platform/src/ChunkedIO.cc:292-322 | each pass moves a pending frame or returns; at the end nothing is held back unless the kernel refused a write |
| `ChunkedIO.ChunkedIOFd.WriteChunk` | src/netmonitor/platform/src/ChunkedIO.cc:182-215 | the frame is next in the stream, in the buffer or in the queue |
| `ChunkedIO.ChunkedIOFd.WriteOversized` | src/netmonitor/platform/src/ChunkedIO.cc:161-177 | an oversized chunk becomes exactly its frames, all but the last marked partial |
| `ChunkedIO.ChunkedIOFd.Write` | src/netmonitor/platform/src/ChunkedIO.cc:133-180 | a chunk is accepted exactly if the queue is not over its limit; an accepted chunk is added to the stream whole, a refused one changes nothing |
| `ChunkedIO.ChunkedIOFd.ExtractChunk` | src/netmonitor/platform/src/ChunkedIO.cc:347-363 | a frame comes out exactly if a complete one is at the head, and it is the next frame of the sender |
| `ChunkedIO.ChunkedIOFd.Absorb` | src/netmonitor/platform/src/ChunkedIO.cc:505-536 | bytes read go behind the bytes in the buffer |
| `ChunkedIO.ChunkedIOFd.FillBuffer` | src/netmonitor/platform/src/ChunkedIO.cc:484-552 | reading stops only at a full buffer, at a refusal or at the end of the stream, and loses no byte |
| `ChunkedIO.ChunkedIOFd.ReadChunk` | src/netmonitor/platform/src/ChunkedIO.cc:464-567 | the next frame of the sender, or a reason: no more bytes for now, or the end of a drained stream |
| `ChunkedIO.ChunkedIOFd.Assemble` | src/netmonitor/platform/src/ChunkedIO.cc:365-462 | a partial frame is held, any other completes a chunk |
| `ChunkedIO.ChunkedIOFd.Receive` | src/netmonitor/platform/src/ChunkedIO.cc:384-462 | at most one chunk comes out, the next one; failure means the stream has ended and nothing is left |
| `ChunkedIO.ChunkedIOFd.Read` | src/netmonitor/platform/src/ChunkedIO.cc:384-462 | the same, with the flush of the own output that reading includes |
| `Link.FlowFeeds` | src/netmonitor/platform/src/ChunkedIO.cc:464-567 | the receiver always looks at the start of the first frame it has not extracted |
| `Link.FlowSafe` | src/netmonitor/platform/src/ChunkedIO.cc:133-567 | delivered chunks are a prefix of the accepted chunks, byte for byte |
| `Link.FlowDrained` | src/netmonitor/platform/src/ChunkedIO.cc:133-567 | once nothing is buffered or in flight, delivered equals accepted and no partial chunk is left |
| `Link.Step` | src/netmonitor/platform/src/ChunkedIO.cc:133-567 | every operation of either end keeps both directions in order, says what it returned, and a write is taken exactly if the queue is not over its limit |
| `Link.Run` | src/netmonitor/platform/src/ChunkedIO.cc:133-567 | for every interleaving of writes, flushes, reads and hang-ups of two endpoints, with any short reads and writes: every operation before a hang-up is performed, the chunks the reads of one side returned are a prefix of those for which the writes of the other returned true, and all of them once drained |
| `PrefixTable.MakeOutputPrefix` | src/netmonitor/platform/src/Anon.cc:243-257 | the bits before the swivel are those of the neighbour's output |
| `PrefixTable.MakeOutputDiffers` | src/netmonitor/platform/src/Anon.cc:243-257 | for any random number, the new output first differs from the neighbour's in exactly the swivel bit |
| `PrefixTable.ThreeWords` | src/netmonitor/platform/src/Anon.cc:259-297 | an output that agrees with the nearest neighbour agrees with every address further away |
| `PrefixTable.ExtendPreserves` | src/netmonitor/platform/src/Anon.cc:259-297 | adding an address with an output made from its nearest neighbour keeps every pair of answers apart in exactly the bit in which the addresses part |
| `PrefixTable.PreservingInjective` | src/netmonitor/platform/src/Anon.cc:189-201 | different addresses have different answers |
| `PrefixTable.NetKeepsPrefix` | src/netmonitor/platform/src/Anon.cc:155-187 | if the net keeps its first bits, so does every address in the net |
| `A50.ChildrenPartAtSwivel` | src/netmonitor/platform/src/Anon.cc:326-331 | the two addresses at a node's children first differ in the branch bit that separates all addresses below them |
| `A50.Peering.AfterOk` | src/netmonitor/platform/src/Anon.cc:259-297 | splitting a node, with its copy one level down and the parent rewritten, leaves a well-formed trie with one more address |
| `A50.SplitHere` | src/netmonitor/platform/src/Anon.cc:317-335 | where the walk stops, all addresses below part from the new one together and the node's address is a nearest neighbour in the whole trie |
| `A50.GoDown` | src/netmonitor/platform/src/Anon.cc:337-341 | going down to the child chosen by the branch bit keeps what the search has established, and the branch bit has increased |
| `A50.SingleLeafOk` | src/netmonitor/platform/src/Anon.cc:306-314 | a root alone is a well-formed trie |
| `A50.Anonymizer.constructor` | src/netmonitor/platform/src/Anon.cc:141-153 | an empty trie, the two special nodes apart from everything |
| `A50.Anonymizer.NewNodeBlock` | src/netmonitor/platform/src/Anon.cc:203-221 | a block gives one node and a free list of the 1023 others, none of them in use |
| `A50.Anonymizer.NewNode` | src/netmonitor/platform/src/Anon.cc:223-235 | the node handed out is not in the trie and no longer free |
| `A50.Anonymizer.MakePeer` | src/netmonitor/platform/src/Anon.cc:259-297 | the new address is in the trie with an output that keeps all pairs of answers right; no other answer changes |
| `A50.Anonymizer.Advance` | src/netmonitor/platform/src/Anon.cc:316-343 | one step down, with a strictly larger branch bit, or a place to split |
| `A50.Anonymizer.Search` | src/netmonitor/platform/src/Anon.cc:316-343 | the walk terminates at a node that holds the address; at most this one address is added |
| `A50.Anonymizer.FindNode` | src/netmonitor/platform/src/Anon.cc:299-347 | the answer is in the table, every earlier answer is still what it was, and another node has a copy of the address exactly if the trie before says so |
| `KeptNets.SettledExactly` | src/netmonitor/platform/src/Anon.cc:178-184 | whatever the random bits, the answer to a network leaves the answer to another address where the two addresses part, if and only if they part within the bits kept and the other answer still has those of its own address |
| `KeptNets.AllSettledExactly` | src/netmonitor/platform/src/Anon.cc:178-184 | the same towards a whole table |
| `KeptNets.RewriteExactly` | src/netmonitor/platform/src/Anon.cc:172-184 | writing over an answer keeps all pairs of answers right if and only if the new one agrees with all others |
| `A50.Anonymizer.PreservePrefix` | src/netmonitor/platform/src/Anon.cc:155-187 | refused once lookups have begun; otherwise the first bits of the net are kept, the rest is the random word, and no other answer changes; the trie is in order afterwards if and only if the new answer agrees with the others and, where searching for the net leaves more than one node with it, is the one it replaces |
| `A50.KeepableExactly` | src/netmonitor/platform/src/Anon.cc:155-187 | a condition on the trie before the call: whatever the random word, it stays in order if and only if every other address parts from the net within the bits kept and has these bits in its answer, and no second node has or gets a copy of the net |
| `A50.TogetherExactly` | src/netmonitor/platform/src/Anon.cc:155-187 | after a first net a second one can be kept whatever the random words if and only if it is the same, or the two part within the bits kept of both and the second has a 0 there |
| `A50.SecondOnOneSide` | src/netmonitor/platform/src/Anon.cc:155-187 | 10.0.0.0/8 and then 192.0.0.0/8 leave a stale copy |
| `A50.SecondWithFewerBits` | src/netmonitor/platform/src/Anon.cc:155-187 | 10.128.0.0/9 and then 10.0.0.0/8 give two answers that part in the wrong bit |
| `A50.OverwriteOk` | src/netmonitor/platform/src/Anon.cc:172-184 | overwriting the answer at one node keeps the trie well formed if and only if every node with a copy of that address has the new answer |
| `A50.PeerCopied` | src/netmonitor/platform/src/Anon.cc:259-297 | a new leaf has a copy in its parent if and only if it has a 1 in the branch bit |
| `A50.Anonymizer.LookUp` | src/netmonitor/platform/src/Anon.cc:189-201 | a lookup answers as the table says and the table only grows |
| `A50.Anonymizer.Anonymize` | src/netmonitor/platform/src/Anon.cc:55-67 | the remembered answer is the trie's answer, however the trie has been restructured since |
| `A50.Anonymizer.Run` | src/netmonitor/platform/src/Anon.cc:155-347 | in any run with any random numbers, any two answers to addresses other than 0 and 0xFFFFFFFF first differ in exactly the bit in which the addresses first differ |
| `A50.Anonymizer.RunInNet` | src/netmonitor/platform/src/Anon.cc:155-347 | after one initial PreservePrefix of a nonzero net, every address in the net keeps the net's bits in any run |
| `A50.Anonymizer.RunInTwoNets` | src/netmonitor/platform/src/Anon.cc:155-347 | after two nets that go together every address in either keeps the bits of its net in any run |
| `PrefixMd5.Anonymize` | src/netmonitor/platform/src/Anon.cc:107-131 | the loop computes the 32 rounds |
| `PrefixMd5.RoundsBit` | src/netmonitor/platform/src/Anon.cc:107-131 | each bit is flipped by the hash of exactly the input bits before it |
| `PrefixMd5.PreservesFirstDiff` | src/netmonitor/platform/src/Anon.cc:107-131 | for any hash function two outputs first differ in exactly the bit in which the inputs first differ |
| `PrefixMd5.Bijection` | src/netmonitor/platform/src/Anon.cc:107-131 | for any hash function the mapping has a two-sided inverse |
| `HttpUrls.UrlForms` | src/capture-hpc/capture-client/http_parser.c:419-565 | a request target is let through if and only if it is a path, a star, or letters, a colon, two slashes, an authority without two at signs in a row and a path or query, all printable |
| `HttpUrls.TargetForms` | src/capture-hpc/capture-client/http_parser.c:973-1044 | the same for any method, CONNECT taking an authority |
| `HttpUrls.ReadUrl` | src/capture-hpc/capture-client/http_parser.c:973-1044 | a target is delivered byte for byte, or refused, exactly as these forms say |
| `HttpStep.StepStart` | src/capture-hpc/capture-client/http_parser.c:642-710 | one byte at the start of a message keeps the parser's invariant and its marks |
| `HttpStep.StepMethod` | src/capture-hpc/capture-client/http_parser.c:907-971 | the same; the method index never passes the name's terminator |
| `HttpStep.StepName` | src/capture-hpc/capture-client/http_parser.c:712-730 | the same for the letters of HTTP |
| `HttpStep.StepMajor` | src/capture-hpc/capture-client/http_parser.c:732-765 | the same for the major version |
| `HttpStep.StepMinor` | src/capture-hpc/capture-client/http_parser.c:767-799 | the same for the minor version |
| `HttpStep.StepLine` | src/capture-hpc/capture-client/http_parser.c:801-864 | the same for the status line and the ends of the first line |
| `HttpStep.StepUrl` | src/capture-hpc/capture-client/http_parser.c:973-1044 | the same for the URL |
| `HttpStep.StepField` | src/capture-hpc/capture-client/http_parser.c:1168-1346 | the same for field names; the header states the source calls unknown do not occur |
| `HttpStep.StepValueStart` | src/capture-hpc/capture-client/http_parser.c:1348-1413 | the same for the start of a value |
| `HttpStep.StepValue` | src/capture-hpc/capture-client/http_parser.c:1415-1510 | the same for values; the header states asserted away do not occur |
| `HttpStep.StepLineEnd` | src/capture-hpc/capture-client/http_parser.c:1512-1545 | the same for the end of a header line |
| `HttpStep.StepHeadersEnd` | src/capture-hpc/capture-client/http_parser.c:1547-1593 | the same for the end of the headers |
| `HttpStep.StepHeadersDone` | src/capture-hpc/capture-client/http_parser.c:1595-1636 | the same for the choice of the body |
| `HttpStep.StepBody` | src/capture-hpc/capture-client/http_parser.c:1638-1684 | the same for bodies; content_length is neither 0 nor 2^64-1 in a body |
| `HttpStep.StepChunkHead` | src/capture-hpc/capture-client/http_parser.c:1686-1764 | the same for the line of a chunk's size; nread is 1 at its start and the message is chunked |
| `HttpStep.StepChunkData` | src/capture-hpc/capture-client/http_parser.c:1766-1802 | the same for a chunk's data |
| `HttpStep.Step` | src/capture-hpc/capture-client/http_parser.c:641-1808 | every state has a case, and every case keeps the invariant behind the parser's own assertions; looking at a byte again lowers a rank |
| `HttpStep.StepInBody` | src/capture-hpc/capture-client/http_parser.c:1638-1787 | only the body states depend on how many bytes the buffer still has |
| `HttpSpec.FeedConcat` | src/capture-hpc/capture-client/http_parser.c:629-640 | the byte machine fed a stream in two parts is the byte machine fed the stream |
| `HttpSpec.FeedStopped` | src/capture-hpc/capture-client/http_parser.c:581-584 | after an error further input changes nothing; the model also ends a run at a hand-over, where the source leaves it to the caller to stop |
| `HttpSpec.FeedBody` | src/capture-hpc/capture-client/http_parser.c:1638-1787 | reading some of a body byte by byte delivers these bytes and counts them off |
| `HttpSpec.BodyAtOnce` | src/capture-hpc/capture-client/http_parser.c:1638-1787 | skipping a body in bulk has the effect of reading it byte by byte |
| `HttpSpec.Advance` | src/capture-hpc/capture-client/http_parser.c:629-1808 | one execution of the switch in the buffered loop, bulk or not, is where the byte machine is after the bytes it took |
| `HttpParser.AtMostOneMark` | src/capture-hpc/capture-client/http_parser.c:1821-1824 | at most one mark is set when the buffer ends |
| `HttpParser.CallbacksAccount` | src/capture-hpc/capture-client/http_parser.c:79-112 | marks and data callbacks account for every byte: pending and new bytes are called out now or pending afterwards |
| `HttpParser.StepReports` | src/capture-hpc/capture-client/http_parser.c:56-112 | with notifications included, nothing is reported twice, out of order or not at all |
| `HttpParser.LeftoverSaid` | src/capture-hpc/capture-client/http_parser.c:1826-1829 | the four leftover callbacks report exactly what is behind the mark |
| `HttpParser.Connection.Execute` | src/capture-hpc/capture-client/http_parser.c:567-1839 | fields are those of the byte machine on the same bytes, also after an error; without an error the reports are too; the count returned is the whole buffer, the place of the byte that was refused, or the place after the byte that ended in a hand-over; at the end of input it reports, ignores or fails as the state demands |
| `HttpParser.Connection.ExecuteBytes` | src/capture-hpc/capture-client/http_parser.c:604-1839 | the loop with marks, bulk skipping and reexecution refines the byte machine |
| `HttpParser.Connection.ReadOne` | src/capture-hpc/capture-client/http_parser.c:629-1808 | one pass of the loop, reexecution included, keeps the refinement |
| `HttpParser.Connection.EndOfInput` | src/capture-hpc/capture-client/http_parser.c:586-601 | an end of input completes a body that runs up to it, is harmless between messages, and is an error elsewhere |
| `HttpParser.Connection.ExecuteAll` | src/capture-hpc/capture-client/http_parser.c:567-1839 | a stream fed in any nonempty pieces leaves the same fields as the whole stream and, without an error, the same notifications and the same URL, header and body bytes |
| `HttpTally.BookBalanced` | src/capture-hpc/capture-client/http_parser.c:1547-1802 | every execution of the switch keeps delivered bytes, announced lengths and the remaining length in balance |
| `HttpTally.ByteBalanced` | src/capture-hpc/capture-client/http_parser.c:1547-1802 | every byte keeps delivered and announced lengths in balance, and a completed message is the last thing it reports |
| `HttpTally.BodiesAddUp` | src/capture-hpc/capture-client/http_parser.c:1595-1802 | on every stream, at every message_complete among the reports, the body bytes reported since the last headers_complete are exactly as many as the content length or the chunk sizes announced since |
| `HttpNumbers.AccumulateExact` | src/capture-hpc/capture-client/http_parser.c:1452-1462 | the overflow test passes a digit with the right value exactly if the value is below 2^64-1 |
| `HttpNumbers.ContentLengthExact` | src/capture-hpc/capture-client/http_parser.c:1387-1464 | content_length is the written decimal number if and only if that number is below 2^64-1 |
| `HttpNumbers.WrapAround` | src/capture-hpc/capture-client/http_parser.c:1452-1462 | not every number that is too large is refused: 3 followed by 19 zeroes is accepted as 11553255926290448384 |
| `HttpNumbers.ChunkSizeExact` | src/capture-hpc/capture-client/http_parser.c:1686-1737 | a chunk size is read as the number it spells in hexadecimal digits if and only if that number is below 2^64-1; anything else that gets through has a byte from 128 on in it |
| `HttpNumbers.HighByte` | src/capture-hpc/capture-client/http_parser.c:1686-1737 | such bytes do get through: 0x31 0x80 is read as 16 |
| `HttpNumbers.SizeWrapsAround` | src/capture-hpc/capture-client/http_parser.c:1725-1735 | a size that is too large can wrap around: 12 and 15 zeroes are accepted as 2 and 15 zeroes |
| `HttpNumbers.Looks` | src/capture-hpc/capture-client/http_parser.c:640-640 | a byte is looked at once for every rank at most, four times in all |
| `HttpBodies.ReadChunk` | src/capture-hpc/capture-client/http_parser.c:1686-1802 | a chunk written with any spelling of its size and any extension delivers exactly its data |
| `HttpBodies.ChunkedBody` | src/capture-hpc/capture-client/http_parser.c:1686-1802 | a chunked body as section 3.6.1 of RFC 2616 writes it is delivered as its chunks put together, then the message is complete |
| `HttpBodies.IdentityBody` | src/capture-hpc/capture-client/http_parser.c:1638-1684 | a body of the announced length is delivered whole, then the message is complete |
| `HttpHeaders.ReadName` | src/capture-hpc/capture-client/http_parser.c:1168-1346 | a field name is delivered as written and classified by its letters regardless of case |
| `HttpHeaders.KnownNames` | src/capture-hpc/capture-client/http_parser.c:1218-1324 | after the bytes of a name the parser is set for Content-Length, Transfer-Encoding, Connection or Upgrade if and only if that name, in any case, is what was written |
| `HttpFields.ChunkedIsRecognised` | src/capture-hpc/capture-client/http_parser.c:1378-1533 | a Transfer-Encoding makes a message chunked if and only if its value is "chunked", in any case, with nothing but spaces after it |
| `HttpFields.ReadOther` | src/capture-hpc/capture-client/http_parser.c:1168-1545 | any field but the deciding ones is delivered as written, spaces before the value left off, and changes nothing that decides the body |
| `HttpFields.ReadOthers` | src/capture-hpc/capture-client/http_parser.c:1168-1545 | the same for any list of such fields, in order |
| `HttpFields.ReadLengthHeaders` | src/capture-hpc/capture-client/http_parser.c:1168-1636 | headers with one Content-Length among any other fields are delivered whole and lead to a body of exactly that length, or complete the message if it is 0 |
| `HttpFields.ReadPlainHeaders` | src/capture-hpc/capture-client/http_parser.c:1168-1636 | headers without a field that decides the body are delivered whole; they complete the message exactly if it does not need the end of the connection |
| `HttpFields.ReadChunkedHeaders` | src/capture-hpc/capture-client/http_parser.c:1168-1636 | headers with one chunked Transfer-Encoding among any other fields are delivered whole and lead to chunks |
| `HttpLines.ReadMethod` | src/capture-hpc/capture-client/http_parser.c:866-971 | every method's own name is taken for that method, through all guesses on the way |
| `HttpUrls.ReadTarget` | src/capture-hpc/capture-client/http_parser.c:973-1044 | every such target, and the space after it, is accepted and delivered as written |
| `HttpLines.RequestLine` | src/capture-hpc/capture-client/http_parser.c:866-1166 | a request line as section 5.1 of RFC 2616 writes it, with any method and any target let through, begins a message, sets method and version, and delivers its target as written |
| `HttpLines.StatusLine` | src/capture-hpc/capture-client/http_parser.c:689-864 | a status line as section 6.1 of RFC 2616 writes it begins a message and sets version and status to the numbers written |
| `HttpMessages.RequestWithBody` | src/capture-hpc/capture-client/http_parser.c:866-1684 | a request with a Content-Length among any other fields and a body of that length is reported from message_begin to message_complete with exactly its target, fields, values and body |
| `HttpMessages.RequestInChunks` | src/capture-hpc/capture-client/http_parser.c:866-1802 | the same for a request in chunks |
| `HttpMessages.ResponseWithBody` | src/capture-hpc/capture-client/http_parser.c:689-1684 | the same for a response with a Content-Length |
| `HttpMessages.ResponseInChunks` | src/capture-hpc/capture-client/http_parser.c:689-1802 | the same for a response in chunks |
| `HttpMessages.RequestWithoutBody` | src/capture-hpc/capture-client/http_parser.c:866-1636 | a request with none of the deciding fields is reported complete right after its headers |
| `HttpMessages.RequestWithEmptyBody` | src/capture-hpc/capture-client/http_parser.c:866-1636 | so is a request with a Content-Length of 0 |
| `HttpMessages.ResponseWithEmptyBody` | src/capture-hpc/capture-client/http_parser.c:689-1636 | so is a response with a Content-Length of 0 |
| `HttpMessages.ResponseUpToEnd` | src/capture-hpc/capture-client/http_parser.c:689-1684 | a response with none of the deciding fields is complete after its headers if its code is 1xx, 204 or 304, and otherwise everything after them is its body |
| `CompTypes.ImageRoundTrip` | src/netmonitor/platform/src/CompHash.cc:92-146 | a value of fixed size is read back from its bytes |
| `CompSpec.EmitFieldsOk` | src/netmonitor/platform/src/CompHash.cc:146-172 | writing a record reaches the end exactly if every tag matches and every required field is there |
| `CompSpec.EmitOk` | src/netmonitor/platform/src/CompHash.cc:68-278 | the same for any value |
| `CompSpec.SizeGrows` | src/netmonitor/platform/src/CompHash.cc:384-549 | a computed size is never smaller than the size before |
| `CompSpec.FieldWithin` | src/netmonitor/platform/src/CompHash.cc:384-549 | what is written for a field, absent or padded or cut short by an error, stays within a nonzero size computed for it |
| `CompSpec.FieldsWithin` | src/netmonitor/platform/src/CompHash.cc:48-58 | a nonzero size of the types alone bounds the key of every list of values; a nonzero size of the values bounds their key |
| `CompSpec.FieldsSize` | src/netmonitor/platform/src/CompHash.cc:551-575 | well-typed values have a size if and only if no optional record is absent whose type has a required string or vector |
| `CompSpec.AbsentFieldsSize` | src/netmonitor/platform/src/CompHash.cc:551-575 | types alone have a size if and only if they have no string and no vector |
| `CompRecover.ValueReadBack` | src/netmonitor/platform/src/CompHash.cc:657-944 | a value is read back from where it was written, at any alignment |
| `CompRecover.KeyRecovers` | src/netmonitor/platform/src/CompHash.cc:636-655 | the key of any well-typed values is read back as these values, to its last byte and without the over-run check |
| `CompRecover.KeysIdentify` | src/netmonitor/platform/src/CompHash.cc:282-334 | two lists of values have the same key if and only if they are the same |
| `CompRecover.SingletonRecovers` | src/netmonitor/platform/src/CompHash.cc:336-382 | a single value that is not a record has a key exactly if its tag matches, and is read back from it |
| `CompHash.AlignAndPad` | src/netmonitor/platform/src/CompHash.cc:602-615 | the loop pads with zeroes up to the next multiple and no further |
| `CompHash.SingleValHash` | src/netmonitor/platform/src/CompHash.cc:68-278 | what is written is a function of type, value and offset, nothing else of the buffer changes, and the result is null exactly where writing stopped |
| `CompHash.HashFields` | src/netmonitor/platform/src/CompHash.cc:146-172 | the same for the fields of a record |
| `CompHash.HashElems` | src/netmonitor/platform/src/CompHash.cc:206-231 | the same for the size, indices, flags and elements of a vector |
| `CompHash.SizedFieldsMatch` | src/netmonitor/platform/src/CompHash.cc:384-575 | computing a size has checked every tag, so that writing need not |
| `CompHash.CompositeHash.constructor` | src/netmonitor/platform/src/CompHash.cc:10-60 | a buffer is kept exactly if there is more than a single bare value and the types alone have a size |
| `CompHash.CompositeHash.ComputeHash` | src/netmonitor/platform/src/CompHash.cc:282-334 | there is a key if and only if the values are well typed and can be measured, a single value that is not a record having its own, and it depends on nothing but types and values |
| `CompHash.CompositeHash.ComputeSingletonHash` | src/netmonitor/platform/src/CompHash.cc:336-382 | the key of a single value is its bare bytes, if there is one value and its tag matches |
| `CompHash.AbsentWithoutKey` | src/netmonitor/platform/src/CompHash.cc:384-575 | a record whose optional record with a required string is absent is well typed and has no key |
| `Nfa.KeptSuffices` | src/netmonitor/platform/src/DFA.cc:314-357 | states that only have epsilon transitions and do not accept neither move nor accept |
| `Nfa.EpsilonClosure` | src/netmonitor/platform/src/NFA.cc:77-122 | the worklist finds exactly the states that read or accept among those epsilon transitions lead to |
| `Nfa.SortedInsert` | src/netmonitor/platform/src/List.cc:90-115 | the list stays sorted and gains one element |
| `Nfa.SameList` | src/netmonitor/platform/src/DFA.cc:314-357 | a sorted list is determined by its set of states |
| `Nfa.ClosureOf` | src/netmonitor/platform/src/NFA.cc:314-343 | the list is sorted and holds exactly the states that matter of the epsilon closure of the set |
| `Nfa.SymFollowSet` | src/netmonitor/platform/src/DFA.cc:121-182 | the list holds exactly the states some state of the set moves to, for single symbols, classes and negated classes |
| `Nfa.SimulateNext` | src/netmonitor/platform/src/DFA.cc:79-110 | the states that matter are enough to find the next set of the simulation and whether it is empty |
| `DfaTag.TagInjective` | src/netmonitor/platform/src/DFA.cc:314-342 | different lists of states have different tags |
| `DfaTag.TagFits` | src/netmonitor/platform/src/DFA.cc:317-320 | the tag and its terminator fit the buffer of 11 characters a state |
| `DfaTag.WriteTag` | src/netmonitor/platform/src/DFA.cc:317-342 | the loop writes the tag of the states that read or accept |
| `Dfa.Machine.constructor` | src/netmonitor/platform/src/DFA.cc:396-420 | the start state stands for the epsilon closure of the first NFA state |
| `Dfa.Machine.StateSetToDfaState` | src/netmonitor/platform/src/DFA.cc:464-493 | a state is found exactly if one was made for a list with the same states that read or accept, and made otherwise; it stands for the list and the cache stays right |
| `Dfa.Machine.OnePerSet` | src/netmonitor/platform/src/DFA.cc:314-357 | no two cached states with sorted lists stand for the same set |
| `EquivClasses.EquivClass.constructor` | src/netmonitor/platform/src/EquivClass.cc:7-33 | all symbols are in one class |
| `EquivClasses.EquivClass.UniqueChar` | src/netmonitor/platform/src/EquivClass.cc:164-177 | unlinking a symbol in both directions refines the partition by that symbol alone |
| `EquivSpec.Walk.Next` | src/netmonitor/platform/src/EquivClass.cc:107-146 | taking a class apart link by link keeps both new chains doubly linked in order, their ends open |
| `EquivSpec.Walk.Finish` | src/netmonitor/platform/src/EquivClass.cc:148-154 | closing the two ends leaves every symbol linked to its neighbours in its new class, all other classes untouched |
| `EquivClasses.EquivClass.Find` | src/netmonitor/platform/src/EquivClass.cc:109-137 | the search from where the last one ended finds a symbol exactly if it is in the character class |
| `EquivClasses.EquivClass.SplitBlock` | src/netmonitor/platform/src/EquivClass.cc:100-154 | one turn of the loop splits the class of one symbol along the character class and flags the symbols it has dealt with |
| `EquivClasses.EquivClass.CclUse` | src/netmonitor/platform/src/EquivClass.cc:85-161 | afterwards two symbols are told apart if and only if they were before or just one of them is in the character class |
| `EquivSpec.ClassNumbers` | src/netmonitor/platform/src/EquivClass.cc:65-83 | the numbers and the representatives tell classes apart exactly, in the order of the representatives |
| `EquivClasses.EquivClass.BuildEcs` | src/netmonitor/platform/src/EquivClass.cc:65-83 | every symbol gets the least member of its class as its representative and the number of classes that begin before that |
| `EquivClasses.EquivClass.ConvertCcl` | src/netmonitor/platform/src/EquivClass.cc:44-63 | the converted class is sorted, and contains the class of a symbol exactly for the symbols of the original if and only if that is made up of whole classes |
| `Dfa.Machine.SymPartition` | src/netmonitor/platform/src/DFA.cc:46-77 | the representative of a symbol is the first one that no state of the list tells apart from it |
| `Dfa.Machine.ComputeXtion` | src/netmonitor/platform/src/DFA.cc:79-110 | a transition is computed once for all symbols that are not told apart |
| `Dfa.Machine.NextState` | src/netmonitor/platform/src/DFA.cc:87-101 | a computed transition leads to the state of the closure, or nowhere exactly if nothing moves |
| `Dfa.Machine.Xtion` | src/netmonitor/platform/src/DFA.h:161-167 | a transition, computed now, before or for an equivalent symbol, is null exactly if no NFA state moves, and otherwise leads to the state of the closure |
| `Dfa.Machine.Walk` | src/netmonitor/platform/src/DFA.cc:79-110 | after any word, whatever was computed before, the state stands for the simulated set, null exactly if that is empty, and its accept set is that of the simulation |
| `Matcher.SimulateConverted` | src/netmonitor/platform/src/RE.cc:107-131 | running the automaton over classes on the classes of a word is running the automaton over characters on the word |
| `Matcher.ToClasses` | src/netmonitor/platform/src/RE.cc:120-128 | after one refinement for every label the converted automaton moves on the class of a character exactly if the original moves on the character |
| `Matcher.SpecificMatcher.Compile` | src/netmonitor/platform/src/RE.cc:107-131 | the machine made stands for the automaton over characters |
| `Matcher.SpecificMatcher.MatchAll` | src/netmonitor/platform/src/RE.cc:206-229 | a text matches exactly if the automaton over characters accepts beginning, text and end; an empty pattern matches the empty text only |
| `Matcher.SpecificMatcher.Match` | src/netmonitor/platform/src/RE.cc:232-262 | the result is the least number of characters, one at least, after which the automaton accepts, else the whole text if it accepts at the end, else 0 |
| `Matcher.SpecificMatcher.LongestMatch` | src/netmonitor/platform/src/RE.cc:345-382 | the result is the whole length if the automaton accepts at the end, else the greatest number of characters after which it accepts, else -1 |
| `TcpId.SameIsEquivalence` | src/killerfinder/src/CTcpSessionId.hpp:34-48 | the direction-blind equality is an equivalence and the hash respects it |
| `TcpId.SameHash` | src/killerfinder/src/CTcpSessionId.cpp:22-25 | equal identities have equal hashes |
| `TcpId.DirectionIsRight` | src/killerfinder/src/CTcpSession.hpp:84-90 | a packet goes to the server exactly if it has the session's own identity |
| `TcpSegBuf.Reassembles` | src/killerfinder/src/CTcpSession.cpp:27-38 | segments of a stream that leave no gap rebuild it in any order and with any repetitions |
| `TcpSegBuf.SegBuf.InsertData` | src/killerfinder/src/CTcpSession.cpp:27-38 | any segment at any time changes the fields as 32-bit arithmetic has it or is an exception; one that fits is laid over the buffer at its place, the gap before it zeroed; one from before the start that does not reach past the end is an exception and changes nothing; one that does reach past the end is an exception that has made the buffer grow with zeros, or, before there is any data and if it ends before the start, is laid behind zeros that wrap around |
| `TcpSegBuf.InsertedPastEnd` | src/killerfinder/src/CTcpSession.cpp:27-38 | what insertion computes for a segment from before the start that reaches past the end |
| `TcpSegBuf.InsertedInPlace` | src/killerfinder/src/CTcpSession.cpp:27-38 | what insertion computes for a segment that fits is the segment laid over the buffer |
| `TcpSegBuf.SegBuf.DumpUnusedData` | src/killerfinder/src/CTcpSession.cpp:40-45 | the rest after the used position, or an exception exactly if something was taken out before there was any data |
| `TcpSegBuf.DumpedTooEarly` | src/killerfinder/src/CTcpSession.cpp:40-45 | a stream taken from before its first byte has come never hands that byte out |
| `TcpSegBuf.SegBuf.SetStartSeq` | src/killerfinder/src/CTcpSession.cpp:23-25 | only the start changes, and when the buffer is still consistent afterwards |
| `TcpSegBuf.SegBuf.SetUsedPos` | src/killerfinder/src/CTcpSession.cpp:52-54 | only the used position changes, modulo 2^32, and when the buffer is still consistent afterwards |
| `TcpSegBuf.Drain` | src/killerfinder/src/CTcpSession.cpp:27-54 | for in-order arrival with retransmissions the buffer holds all that has arrived, what is taken out is a prefix of it, all of it after a final take, and so in the end the stream, every byte once |
| `TcpSegBuf.Rebuild` | src/killerfinder/src/CTcpSession.cpp:27-38 | the object rebuilds the stream from segments in any order |
| `TcpSession.StateTells` | src/killerfinder/src/CTcpSession.cpp:108-248 | after any packets the session is closed if and only if, since the last SYN, there was an RST, a FIN after the other side's FIN, or payload from a side after its own FIN; a side is finished exactly if it has sent a FIN |
| `TcpSession.Session.constructor` | src/killerfinder/src/CPacketHandler.cpp:38-54 | a new session is in the handshake with an empty, used-up buffer after the SYN |
| `TcpSession.Session.UpdateMe` | src/killerfinder/src/CTcpSession.cpp:108-184 | for any packet the state is that of the packets so far unless there was an exception, and payload goes into its own direction only |
| `TcpSession.Session.FinishMe` | src/killerfinder/src/CTcpSession.cpp:204-248 | RST and FIN move the state as the packets' history demands |
| `SessionPool.EitherDirection` | src/killerfinder/src/CTcpSessionPool.cpp:40-46 | packets of both directions find the same entry and there is no other |
| `SessionPool.InvKept` | src/killerfinder/src/CTcpSessionPool.cpp:27-105 | no step of either thread, lock and erase apart, breaks the invariant |
| `SessionPool.TouchesOwn` | src/killerfinder/src/CPacketHandler.cpp:29-93 | the capture thread touches only sessions it has not posted, the decode thread only the one it has popped, neither a deleted one |
| `SessionPool.ClosedUnderLock` | src/killerfinder/src/CTcpSessionPool.cpp:27-110 | a thread that looks at the list of closed sessions holds the lock, if and only if it does not do so to print its length when a session is created |
| `SessionPool.NeverBothAtClosed` | src/killerfinder/src/CTcpSessionPool.cpp:27-110 | both threads are at that list at once only while a session is being created |
| `SessionPool.CreateBesidePop` | src/killerfinder/src/CTcpSessionPool.cpp:27-67 | which can happen at the first packet |
| `SessionPool.OnePlace` | src/killerfinder/src/CTcpSessionPool.cpp:58-105 | every session is in exactly one of table, list, decoder and deleted, but for the entry between push and erase |
| `SessionPool.OnlyForward` | src/killerfinder/src/CTxnDecodeThread.cpp:60-87 | no step takes a session back |
| `SessionPool.NeverAfterPosting` | src/killerfinder/src/CPacketHandler.cpp:29-93 | in every run of both threads the capture thread never touches a session after posting it and nobody after its deletion |
| `Base64Spec.UniteSextets` | src/netmonitor/platform/src/Base64.cc:33-40 | the four sextets of a group put together are its three bytes |
| `Base64Spec.FeedEncoded` | src/netmonitor/platform/src/Base64.cc:110-198 | decoding an encoding puts out exactly what was encoded, for any alphabet |
| `Base64.EncodeInto` | src/netmonitor/platform/src/Base64.cc:8-42 | the buffer holds the encoding, or as many of its groups as there is room for |
| `Base64.DefaultIsAlphabet` | src/capture-hpc/capture-client/CaptureGlobal.cpp:54-96 | the 64 characters of the fixed alphabet differ from each other and from the padding |
| `Base64.EncodeClient` | src/capture-hpc/capture-client/CaptureGlobal.cpp:54-96 | the client's encoder gives the encoding with that alphabet |
| `Base64Decoder.InitTable` | src/netmonitor/platform/src/Base64.cc:45-83 | the table is the inverse of the alphabet, 0 for padding and -1 elsewhere |
| `Base64Decoder.Converter.FlushGroup` | src/netmonitor/platform/src/Base64.cc:139-176 | a complete group is put out exactly if it fits, nothing after padding |
| `Base64Decoder.Converter.Decode` | src/netmonitor/platform/src/Base64.cc:110-198 | whatever was taken and put out before, taken and put out stay in step with decoding without limits; it stops early only if a group does not fit, and never in a buffer of three bytes for four characters |
| `Base64Decoder.Converter.Done` | src/netmonitor/platform/src/Base64.cc:200-216 | an incomplete group is completed with padding, in step with decoding without limits however little room there is; with three bytes of room it is put out |
| `Base64Decoder.Converter.DecodeRest` | src/netmonitor/platform/src/Base64.cc:110-198 | calls repeated with three bytes of room take everything |
| `Base64Decoder.DecodeInPieces` | src/netmonitor/platform/src/Base64.cc:110-198 | an encoding cut into any pieces and decoded into buffers of any sizes yields what was encoded |
| `Base64Decoder.DecodeUnpadded` | src/netmonitor/platform/src/Base64.cc:110-216 | the same with trailing padding left off, which Done makes up for |
| `Sha1Spec.PaddedLength` | src/capture-hpc/capture-client/sha1.cpp:326-371 | padding brings a message to a whole number of blocks |
| `Sha1.Context.ProcessMessageBlock` | src/capture-hpc/capture-client/sha1.cpp:207-301 | the schedule and the four loops compute the compression of FIPS PUB 180-1, section 7 |
| `Sha1.Context.Input` | src/capture-hpc/capture-client/sha1.cpp:143-185 | the message grows by the input unless it is over or reaches 2^64 bits, which is exactly when the context is corrupted |
| `Sha1.Context.CountBits` | src/capture-hpc/capture-client/sha1.cpp:163-176 | the two length words are the number of bits, and corruption is exactly its overflow |
| `Sha1.Context.PadMessage` | src/capture-hpc/capture-client/sha1.cpp:326-371 | one or two padded blocks make the digest that of the message |
| `Sha1.Context.Result` | src/capture-hpc/capture-client/sha1.cpp:104-119 | the digest is that of the message, and asking again does not change it |
| `Sha1.DigestOf` | src/capture-hpc/capture-client/sha1.cpp:71-371 | however a message under 2^64 bits is divided, the result is the FIPS PUB 180-1 digest of the whole |
| `Url.RoundTrip` | src/capture-hpc/capture-client/Url.cpp:71-144 | decoding an encoded string of 16-bit units gives the string with spaces turned into plus signs |
| `Url.UnitBack` | src/capture-hpc/capture-client/Url.cpp:80-103 | one unit comes back through one, two or three bytes, whatever was pending |
| `Url.Encode` | src/capture-hpc/capture-client/Url.cpp:71-106 | the loop encodes unit by unit |
| `Url.Decode` | src/capture-hpc/capture-client/Url.cpp:108-144 | the loop decodes as the byte machine does, percent signs at the end included |

## Left out

- `ChunkedIOSSL` and `CompressedChunkedIO`, which rest on OpenSSL and zlib.
- `ChunkedIOFd`: interrupted system calls, pure mode, `Clear`, errors of the descriptor other than its end, the check of the peer process and the clock behind `OptionalFlush`.
- A50.Anonymizer.PreservePrefix: is stated for fewer than 32 bits, because with 32 the original shifts a 32-bit word by its whole width, which C leaves undefined.
- A50.Anonymizer.RunInTwoNets: further networks have no method of their own; `A50.Anonymizer.Run` applies after any of them for which `A50.KeepableExactly` holds.
- A50: running out of memory.
- The sequential and the random MD5 anonymizers, which promise nothing about prefixes.
- HTTP: callbacks that fail or pause the parser, an application that asks to skip the body, error messages, `http_parser_parse_url` and `http_parse_host`.
- HTTP: which misspelled method names get through; a wrong third letter does, as in the source.
- HTTP: folded header lines, lines that end in a bare line feed, Upgrade fields, several fields that decide the body, trailers after chunks and HTTP/0.9 requests are covered by the refinement and the tally, not by a theorem about their written form.
- HTTP: header values other than that of Content-Length and Transfer-Encoding are followed but not compared with a grammar.
- Composite keys: tables, lists and subnets, record types without fields inside other types, sizes beyond 32-bit integers.
- CompHash.CompositeHash.ComputeHash: a single index of vector type is left out, because the original stops with an internal error there.
- Recovering values from bytes that no value wrote: the model gives no result where the source would read outside the key.
- Automata: parsing a pattern into an NFA, rule-set matching with `RE_Match_State`, cache statistics, and the memo of `EpsilonClosure`, which returns the same list.
- TcpSegBuf.Reassembles: is about streams that do not wrap around; `TcpSegBuf.SegBuf.InsertData` says what becomes of any other segment.
- TCP: packet slicing below the session, plugins, blocking, mail and HTTP extraction from the buffers.
- SessionPool.InvKept: the pool is a transition system on values, so the reuse of a freed object's memory and the limit of eleven timeouts a scan are not modelled.
- Base64: error reporting, and the client's decoder, which ignores padding.
- SHA-1 file and string helpers; URL attributes other than the text.
- Drivers, sockets, configuration, scripts, debugger and event glue.
