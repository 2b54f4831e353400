# Verified models of the smart relayer

smart-relayer accepts Redis connections from local programs and relays their commands: to one Redis server with
pipelining and asynchronous answers (`redis/radix`), to a Redis cluster (`redis/cluster`, on top of the client in
`redis/radix.improved`), or into a key-value store (`custom/redis2kvstore`). This project models the parts of it that
keep state, print and parse, and proves what they promise.

| file | what it models |
|---|---|
| `Words.dfy`, `Varint.dfy` | Go's integer conversions; base-128 varints |
| `HmsetWire.dfy`, `HmsetCodec.dfy`, `HmsetGuide.dfy`, `HmsetMessages.dfy` | the hand-rolled protobuf codec: the meaning of its bytes, the code that sizes, fills and decodes buffers, and both against the Protocol Buffers encoding guide |
| `KvStore.dfy` | hashes held in memory, handed to the store and answered from either |
| `Decimal.dfy`, `Resp.dfy`, `RespIO.dfy`, `Request.dfy` | the RESP printer and parser, the streams under them, and the flattening of command arguments |
| `Relayer.dfy`, `RelayerHistory.dfy`, `RelayerClient.dfy` | the pipelining relayer as a state machine over runs, the fate of every request read off the events of a run, and the client object whose methods take those steps |
| `ClusterHandler.dfy` | one connection of the cluster relayer: two threads, a counter and a channel |
| `Crc16.dfy`, `Routing.dfy` | slot hashing and routing |
| `Pools.dfy`, `Cluster.dfy`, `ClusterReset.dfy`, `ClusterRuns.dfy`, `ClusterTopology.dfy`, `ClusterCmd.dfy` | connection pools, the topology table and its reset, every interleaving of the closures that change it, the same closures in place, and one caller's `Cmd` |
| `Pipeline.dfy`, `Scan.dfy` | client-side pipelining; SCAN iteration over one node and over a cluster |

`dafny verify dfyconfig.toml` checks everything.

Concurrent parts are state machines. One step is what the source does under one lock, in one closure run by `spin`, in one
pool operation, or between two touches of a shared counter or channel; claims about runs hold for every sequence of enabled
steps. Dial results, read and write failures, server answers and scheduling are inputs of the steps.

Where the code and what one would expect of it part, the model follows the code, and a lemma says exactly when the two agree:

- An `EXPIRE` marks a hash as sent and nothing clears the mark, so fields set afterwards are never stored
  (`KvStore.LostField`, `KvStore.FinalContentsHanded`).
- `HGET` answers the first value set for a field, `HGETALL` the last (`KvStore.HGetAgreesExactly`).
- The byte count returned by `writeTo` leaves out map values (`RespIO.CountExactly`).
- After the peer closes, the relayer resends without selecting the database again (`Relayer.ResendExactly`; a run:
  `Relayer.ResendMisleads`).
- A `SELECT` that the server rejects still changes the relayer's idea of the database (`Relayer.SelectExactly`; a run:
  `Relayer.RejectedSelectMisleads`).
- Purging a queue that holds the placeholder of an internal `SELECT` behind the entry the listener has in its hand
  dereferences nil (`Relayer.PurgeCrashesExactly`; a run: `Relayer.PurgeCanCrash`).
- A read that fails on behalf of a placeholder is ignored, and the reply that comes late goes to the next request
  (`Relayer.StepAligned`; a run: `Relayer.ReplyGoesAstray`).
- The cluster handler never gives back the count of a message that is not an array
  (`ClusterHandler.PendingAtRestExactly`; a run: `ClusterHandler.StrayIsNeverGivenBack`).
- A key that is the empty string is not routed by its slot (`Routing.RelayedRouting`).
- In a reset, a node that cannot be dialed ends the pass over the slot groups silently, because the error is assigned to a
  shadowing variable (`ClusterReset.TableCompleteExactly`); a reply with an unreadable group makes it forget the pools it
  had just opened (`ClusterReset.RegroupTidyExactly`, `ClusterRuns.StepTidyExactly`; a run: `ClusterRuns.LostPool`).

## Model

| member | source | states |
|---|---|---|
| `Varint.ReadOrIsRead` | custom/redis2kvstore/hmset.pb.go:300-313 | the loop as written, which ORs seven bits in at a time, and the sum used everywhere else agree on every input |
| `Varint.OrIsSum` | custom/redis2kvstore/hmset.pb.go:309 | OR-ing in bits that all lie above a number adds them |
| `Varint.ReadFromBound` | custom/redis2kvstore/hmset.pb.go:300-313 | decoding uses one to ten bytes of the input and yields a 64-bit value |
| `Varint.ReadLocal` | custom/redis2kvstore/hmset.pb.go:300-313 | decoding depends only on the bytes it uses |
| `Varint.EncodeIsShortest` | custom/redis2kvstore/hmset.pb.go:227-235 | a value below 128^n is written in at most n bytes, so re-encoding never lengthens |
| `Varint.ReadEncode` | custom/redis2kvstore/hmset.pb.go:227-235 | decoding undoes encoding for every 64-bit value, whatever bytes follow |
| `HmsetWire.SkipLocal` | custom/redis2kvstore/hmset.pb.go:536-634 | a successful skip is decided by the bytes it skips, through nested groups |
| `HmsetWire.SkipGroupLocal` | custom/redis2kvstore/hmset.pb.go:595-623 | the same for the members of a group |
| `HmsetWire.NextLocal` | custom/redis2kvstore/hmset.pb.go:297-420 | one turn of the decoding loop depends only on the bytes it consumes |
| `HmsetWire.DecodeFieldConcat` | custom/redis2kvstore/hmset.pb.go:425-535 | decoding a concatenation is decoding the parts one after the other into the same field: last value wins, unknown bytes append |
| `HmsetWire.DecodeHmsetConcat` | custom/redis2kvstore/hmset.pb.go:294-424 | the same for the message, whose fields append |
| `HmsetWire.UnknownItemAlone` | custom/redis2kvstore/hmset.pb.go:403-416 | the raw bytes kept for an unknown field are again one whole unknown field |
| `HmsetWire.FieldRoundTrip` | custom/redis2kvstore/hmset.pb.go:204-225 | a field whose unknown bytes are whole unknown records survives marshalling and unmarshalling |
| `HmsetWire.HmsetRoundTrip` | custom/redis2kvstore/hmset.pb.go:155-192 | unmarshalling the marshalled form of a well-formed message into an empty one gives it back |
| `HmsetWire.DecodedField` | custom/redis2kvstore/hmset.pb.go:425-535 | whatever bytes a field is decoded from, the result is well formed and no longer when marshalled |
| `HmsetWire.DecodedHmset` | custom/redis2kvstore/hmset.pb.go:294-424 | the same for the message |
| `HmsetWire.AcceptedRoundTrip` | custom/redis2kvstore/hmset.pb.go:294-424 | for every byte string accepted, marshalling the result and unmarshalling again gives the same message, unknown fields included and in order, in no more bytes |
| `HmsetWire.RoundTripExactly` | custom/redis2kvstore/hmset.pb.go:155-192 | a message survives the round trip if and only if its unknown bytes are whole unknown records |
| `HmsetGuide.SkipsRecord` | custom/redis2kvstore/hmset.pb.go:536-634 | skipping a record of any wire type, nested groups included, goes exactly to its end, whatever follows |
| `HmsetGuide.SkipsMembers` | custom/redis2kvstore/hmset.pb.go:595-623 | the loop over a group's members ends exactly after its end tag |
| `HmsetMessages.DecodesFieldParts` | custom/redis2kvstore/hmset.pb.go:425-535 | a field written by the guide, its parts in any order and number, decodes to its last name, its last value and its other records byte for byte |
| `HmsetMessages.DecodesParts` | custom/redis2kvstore/hmset.pb.go:294-424 | a message written by the guide decodes to its last key, its fields in order, its last Sent value and its other records byte for byte |
| `HmsetMessages.ExtraThenKey` | custom/redis2kvstore/hmset.pb.go:403-416 | a record of an unknown field of any type is kept whole and the key after it is read |
| `HmsetMessages.UnknownThenKey` | custom/redis2kvstore/hmset.pb.go:571-573 | a concrete input with an unknown fixed64 field |
| `HmsetMessages.MarshalsParts` | custom/redis2kvstore/hmset.pb.go:155-192 | what is marshalled is the guide's encoding of the key if not empty, the fields in order, and Sent if set |
| `HmsetMessages.RefusedTags` | custom/redis2kvstore/hmset.pb.go:313-330 | which one-byte tags are refused, and with which error |
| `HmsetMessages.ShortPayload` | custom/redis2kvstore/hmset.pb.go:333-357 | a key said to be longer than what is left is refused |
| `HmsetMessages.EndlessTag` | custom/redis2kvstore/hmset.pb.go:300-313 | ten continuation bytes overflow, fewer are an unexpected end |
| `HmsetMessages.NegativeLength` | custom/redis2kvstore/hmset.pb.go:333-360 | a length of 2^63 or more is refused as negative |
| `HmsetMessages.ThreeHundred` | custom/redis2kvstore/hmset.pb.go:227-235 | the bytes of the varint 300 |
| `HmsetCodec.EncodeVarint` | custom/redis2kvstore/hmset.pb.go:227-235 | stores exactly the bytes of the varint, each index once and in order, in bounds |
| `HmsetCodec.Sov` | custom/redis2kvstore/hmset.pb.go:281-290 | the length of the varint |
| `HmsetCodec.FieldSize` | custom/redis2kvstore/hmset.pb.go:261-279 | the length of the field's marshalled form |
| `HmsetCodec.MarshalFieldTo` | custom/redis2kvstore/hmset.pb.go:204-225 | stores the marshalled field into its slice, each index once and in order, nothing else |
| `HmsetCodec.StoreFields` | custom/redis2kvstore/hmset.pb.go:166-177 | stores all embedded fields with tags and lengths, each index once |
| `HmsetCodec.HmsetMessage.Size` | custom/redis2kvstore/hmset.pb.go:236-259 | the length of the marshalled form |
| `HmsetCodec.HmsetMessage.MarshalTo` | custom/redis2kvstore/hmset.pb.go:155-192 | on a buffer of Size() bytes or more, writes every index of the marshalled form once and in order, never out of bounds, and returns exactly Size() |
| `HmsetCodec.HmsetMessage.Marshal` | custom/redis2kvstore/hmset.pb.go:145-153 | a fresh buffer that holds exactly the marshalled form |
| `HmsetCodec.ReadVarint` | custom/redis2kvstore/hmset.pb.go:300-313 | the loop over an array, OR-ing bits in, computes the varint at an index, or its error |
| `HmsetCodec.SkipHmset` | custom/redis2kvstore/hmset.pb.go:536-634 | the recursive skipper terminates and returns the count, the error or the panic that the byte-level definition gives, 64-bit wrap-around included |
| `HmsetCodec.NextItem` | custom/redis2kvstore/hmset.pb.go:297-330 | one loop turn: tag, checks, length, slice or skip, with the source's errors |
| `HmsetCodec.FieldMessage.Unmarshal` | custom/redis2kvstore/hmset.pb.go:425-535 | the object ends as decoding the bytes into its old value does, also on errors |
| `HmsetCodec.HmsetMessage.Unmarshal` | custom/redis2kvstore/hmset.pb.go:294-424 | the same for the message with its nested fields |
| `HmsetCodec.Transfer` | custom/redis2kvstore/hmset.pb.go:145-153 | what one message object marshals, an empty one unmarshals to an equal message |
| `KvStore.MemoryAgreesWithStore` | custom/redis2kvstore/hmsetExt.go:65-102 | for every hash, cloning, marshalling and unmarshalling succeeds and leaves the map that HGETALL answers unchanged |
| `KvStore.HGetAgrees` | custom/redis2kvstore/hmsetExt.go:65-85 | HGET and HGETALL agree on every name when names are distinct |
| `KvStore.HGetAgreesExactly` | custom/redis2kvstore/hmsetExt.go:65-85 | with repeated names they agree if and only if the first and the last value set are equal |
| `KvStore.EveryKeyHanded` | custom/redis2kvstore/main.go:181-193 | every key set on a connection has been handed to send by the time it closes |
| `KvStore.FinalContentsHanded` | custom/redis2kvstore/main.go:233-253 | a key's final contents are handed over if and only if it was not written again after an accepted EXPIRE |
| `KvStore.LostField` | custom/redis2kvstore/main.go:181-193 | a run in which a field is never handed over |
| `KvStore.HGetAllOverRun` | custom/redis2kvstore/main.go:220-276 | after any run, HGETALL of a written key answers the last-write-wins map of everything written to it, and so does the stored form |
| `KvStore.PairsAt` | custom/redis2kvstore/hmsetExt.go:51-63 | the k-th pair of arguments is a name and then its value |
| `KvStore.HGetAllAnswersLast` | custom/redis2kvstore/main.go:254-268 | after any run HGETALL answers, for a field, the argument that followed its name the last time it was set |
| `KvStore.HGetAnswersFirst` | custom/redis2kvstore/main.go:277-291 | after any run HGET answers the argument that followed the field's name the first time it was set |
| `KvStore.NeverSetNeverAnswered` | custom/redis2kvstore/main.go:277-294 | a field that was never set is not answered from memory |
| `KvStore.RepliesExactly` | custom/redis2kvstore/main.go:220-300 | which commands are told KO, bad command or OK, and when the store is asked |
| `KvStore.NameThenValue` | custom/redis2kvstore/hmsetExt.go:55-61 | HMSET h name bob, then what HGETALL and HGET answer |
| `KvStore.RunTracks` | custom/redis2kvstore/main.go:220-253 | over any run the pending hash of a key is exactly what was written to it, in order |
| `KvStore.ProcessItems` | custom/redis2kvstore/hmsetExt.go:51-63 | appends one field per pair of arguments, in order |
| `KvStore.GetAllAsRedis` | custom/redis2kvstore/hmsetExt.go:65-76 | the last-write-wins map |
| `KvStore.GetOneAsRedis` | custom/redis2kvstore/hmsetExt.go:78-85 | the first value of the name, or not found |
| `KvStore.CloneHmset` | custom/redis2kvstore/hmsetExt.go:87-102 | key, flag and fields copied, unknown bytes left behind |
| `KvStore.CloneKeeps` | custom/redis2kvstore/hmsetExt.go:87-102 | cloning a hash without unknown bytes changes nothing |
| `KvStore.Connection.Handle` | custom/redis2kvstore/main.go:208-300 | one command changes the pending map and hands hashes over as the step function says |
| `KvStore.Connection.Flush` | custom/redis2kvstore/main.go:182-193 | every unsent hash is handed over and the map ends empty, in whatever order the map is visited |
| `Decimal.ParsePrint` | redis/radix.improved/redis/resp.go:859-875 | parsing undoes printing for every 64-bit integer |
| `Decimal.ReadsAndRefuses` | redis/radix.improved/redis/resp.go:213-222 | signs and leading zeros are read, anything but digits after the sign is refused |
| `Decimal.TooManyDigits` | redis/radix.improved/redis/resp.go:213-222 | digits of 2^63 or more are refused |
| `Resp.ReadEnc` | redis/radix.improved/redis/resp.go:175-288 | parsing undoes printing for every well-formed tree, whatever follows it |
| `Resp.ReadWrite` | redis/radix.improved/redis/resp.go:304-332 | reading what WriteTo prints gives the tree back, nested simple strings having become bulk strings |
| `Resp.ReadStreamOfWrites` | redis/radix.improved/redis/resp.go:175-288 | any list of well-formed trees printed one after another is read back in order with no bytes left over |
| `Resp.AcceptedIsWellFormed` | redis/radix.improved/redis/resp.go:175-288 | whatever the parser accepts, the printer can carry |
| `Resp.RelayedMessage` | redis/radix.improved/redis/resp.go:304-332 | a message parsed, printed and parsed again is the same up to nested simple strings |
| `Resp.NegativeLengthIsNil` | redis/radix.improved/redis/resp.go:225-277 | a negative length of a bulk string or an array is read as nil |
| `Resp.DeclaredTooLarge` | redis/radix.improved/redis/resp.go:225-277 | a declared bulk string panics if and only if it is beyond Go's limit, and so does an array beyond it |
| `Resp.OnTheWire` | redis/radix.improved/redis/resp.go:829-885 | the exact bytes of one value of each kind |
| `Resp.Refusals` | redis/radix.improved/redis/resp.go:175-245 | one input for each way of refusing |
| `Request.InlineVal` | redis/radix.improved/redis/resp.go:705-827 | printing a value inline with strings forced prints exactly its leaves, and flattenedLength counts exactly those |
| `Request.RequestIsArray` | redis/radix.improved/redis/client.go:178-213 | the array header equals the number of bulk strings that follow |
| `Request.RequestParses` | redis/radix.improved/redis/client.go:178-213 | parsing what writeRequest sends, whatever follows, yields the command followed by its flattened arguments |
| `Request.LeavesOnTheWire` | redis/radix.improved/redis/resp.go:705-745 | the exact bytes of a bool, an integer and a nil, forced to strings or not |
| `Request.GetOnTheWire` | redis/radix.improved/redis/client.go:178-213 | the exact bytes of GET k |
| `Request.InlineAgreesWithFlattened` | redis/radix.improved/redis/resp.go:134-138 | for nil-free, map-free values the inline encoding agrees byte for byte with NewRespFlattenedStrings if and only if every embedded Resp is a string |
| `Request.WriteInjective` | redis/radix.improved/redis/resp.go:304-332 | trees that print alike are equal up to nested simple strings |
| `Request.EncNorm` | redis/radix.improved/redis/resp.go:705-827 | printing does not tell a tree from its normal form |
| `RespIO.CountExactly` | redis/radix.improved/redis/resp.go:705-827 | the count returned never exceeds the bytes written, and equals them if and only if no map value prints anything |
| `RespIO.MapFreeCount` | redis/radix.improved/redis/resp.go:705-827 | for map-free values the count is exact |
| `RespIO.WriteTo` | redis/radix.improved/redis/resp.go:705-827 | appends exactly the encoding of the value to the sink and returns the count |
| `RespIO.WriteResp` | redis/radix.improved/redis/resp.go:705-827 | the same for a Resp tree |
| `RespIO.WriteElems` | redis/radix.improved/redis/resp.go:770-791 | the loop over a slice |
| `RespIO.WriteEntries` | redis/radix.improved/redis/resp.go:793-821 | the loop over a map, whose value counts are dropped |
| `RespIO.WriteRequests` | redis/radix.improved/redis/client.go:178-213 | the requests' bytes, in order |
| `RespIO.RespReader.ReadFull` | redis/radix.improved/redis/resp.go:225-264 | the payload is the next bytes of the stream however the reads are split |
| `RespIO.RespReader.Read` | redis/radix.improved/redis/resp.go:167-194 | result, error or panic as the byte-level parser gives, a declared size beyond Go's limit included, and exactly the parsed bytes consumed |
| `RespIO.RespReader.ReadElements` | redis/radix.improved/redis/resp.go:266-288 | the loop over array elements |
| `RespIO.Exchange` | redis/radix.improved/redis/resp.go:157-194 | any list of well-formed trees written is read back in order under any splitting of reads |
| `Crc16.TabIsEight` | redis/radix.improved/cluster/crc16.go:5-38 | each of the 256 table entries is eight turns of the shift register |
| `Crc16.TableStepIsFeed` | redis/radix.improved/cluster/crc16.go:45-52 | one table lookup is feeding the byte's eight bits, most significant first |
| `Crc16.FeedIsDivision` | redis/radix.improved/cluster/crc16.go:5-52 | the shift register computes the remainder of polynomial long division |
| `Crc16.CRC16` | redis/radix.improved/cluster/crc16.go:45-52 | the loop computes the remainder of message * x^16 on division by x^16 + x^12 + x^5 + 1 |
| `Crc16.CrcIsRemainder` | redis/radix.improved/cluster/crc16.go:45-52 | the same for the value function, for every byte string |
| `Crc16.CrcExactly` | redis/radix.improved/cluster/crc16.go:45-52 | the CRC is the only word whose coefficients are that remainder |
| `Routing.Slot` | redis/radix.improved/cluster/crc16.go:56-63 | every slot is below 16384 |
| `Routing.SlotExactly` | redis/radix.improved/cluster/crc16.go:56-63 | the slot is the CRC of the hashed part modulo 16384 |
| `Routing.FooSlot` | redis/radix.improved/cluster/crc16.go:56-63 | the slot of "foo" is 12182 |
| `Routing.UntaggedKeyHashesWhole` | redis/radix.improved/cluster/crc16.go:56-63 | a key without a tag, or with an empty one, is hashed whole |
| `Routing.TaggedKeyHashesTag` | redis/radix.improved/cluster/crc16.go:56-63 | a key prefix{tag}suffix hashes its non-empty tag alone |
| `Routing.SameTagSameSlot` | redis/radix.improved/cluster/crc16.go:56-63 | keys that share a non-empty hash tag share a slot |
| `Routing.RelayedRouting` | redis/cluster/handler.go:129-136 | a relayed command appears on the wire as itself and its arguments, and goes to the slot address of its first argument if and only if that argument is not empty or the mapping of slot 0 is |
| `Routing.RelayedKey` | redis/radix.improved/redis/client.go:225-251 | the key of a relayed command is its first argument |
| `Relayer.SameEffect` | redis/radix/client.go:220-291 | in every run whose SELECTs the server obeys and whose resends are in database 0, on every connection, the server does what the written requests do in their tagged databases, and the client's database is the server's |
| `Relayer.StepInSync` | redis/radix/client.go:220-291 | every step keeps that agreement |
| `Relayer.PartialEffects` | redis/radix/client.go:220-272 | if the server executed only part of what was written, it did the first part of those effects |
| `Relayer.ElisionIsRedundant` | redis/radix/client.go:225-229 | sending an elided SELECT would change neither the server's database nor any effect |
| `Relayer.ResendExactly` | redis/radix/client.go:250-257 | the resend keeps the relayer in step with the server if and only if the request is tagged with database 0 |
| `Relayer.SelectExactly` | redis/radix/client.go:220-272 | a write of a SELECT ends in step with the server if and only if it is elided, or fails, or the server accepts the database the relayer assumes afterwards, or rejects the command while already there |
| `Relayer.RejectedSelectMisleads` | redis/radix/client.go:225-229 | a run from the start in which the server executes an operation in a database it was not tagged with |
| `Relayer.ResendMisleads` | redis/radix/client.go:250-257 | such a run in which the server obeys every SELECT, but the operation is resent |
| `Relayer.StepAligned` | redis/radix/client.go:171-205 | a step keeps the outstanding entries matched with the unanswered commands if and only if it is not a read that fails for a placeholder |
| `Relayer.RepliesReachTheirCause` | redis/radix/client.go:125-218 | in every run without a crash in which no read fails for a placeholder, what the listener holds and has queued matches, entry for entry, the commands written and not yet answered, and every server reply went to the request that caused it |
| `Relayer.ReplyGoesAstray` | redis/radix/client.go:176-180 | a run in which a read fails for a placeholder and the late reply is handed to another request |
| `Relayer.PurgeCrashesExactly` | redis/radix/client.go:207-218 | while replies match, disconnecting crashes if and only if an internal SELECT behind the command being read for is unanswered |
| `Relayer.StepConserves` | redis/radix/client.go:125-272 | every step conserves replies given plus replies owed, the listeners of dropped connections included |
| `Relayer.ExactlyOneReply` | redis/radix/main.go:160-213 | in every run that has not crashed each request has at most one reply, and exactly one once nothing owes it one; an elided SELECT owes none |
| `Relayer.PurgeCanCrash` | redis/radix/client.go:207-218 | a run, with operations in two databases outstanding, after which a disconnect dereferences nil |
| `RelayerHistory.EveryRequestHasOneFate` | redis/radix/client.go:125-272 | in every run without a crash: requests not yet taken wait in the channel in order of arrival; of those taken, exactly the ones neither elided nor refused are on the connections there were, in that order; a refused one that somebody waits for was answered KO |
| `RelayerHistory.RunTracks` | redis/radix/main.go:160-212 | requests are taken in order of arrival, each tagged with the last database its local connection selected, 0 if none |
| `RelayerHistory.RepliesMeanWhatTheySay` | redis/radix/main.go:181-211 | an immediate OK goes to asynchronous commands only, a refusal to malformed ones, a send error to ones not sent, KO and server replies to ones sent that somebody waits for |
| `RelayerHistory.FailedReadDrops` | redis/radix/client.go:182-193 | a read that fails for a request drops whatever connection there is |
| `RelayerClient.PlainSelectIsHonest` | lib/req.go:43-49 | SELECT n in any letter case is read alike by relayer and server |
| `RelayerClient.NewRequestExactly` | lib/req.go:24-54 | a message is a command if and only if it is a list that starts with a string, and that string in upper case names it |
| `RelayerClient.AnyCase` | lib/req.go:43 | three spellings of SELECT |
| `RelayerClient.BuildAsync` | redis/radix/main.go:135-146 | the asynchronous table holds exactly the built-in names and the configured ones in upper case, the latter answered OK even if built in; SELECT is always in it |
| `RelayerClient.BuiltIn` | redis/radix/main.go:52-66 | which commands are answered OK and which true without configuration |
| `RelayerClient.Client.PurgeRequests` | redis/radix/client.go:207-218 | every waiting request is refused and the queue ends empty, or the loop meets a placeholder and crashes |
| `RelayerClient.Client.DisconnectNow` | redis/radix/client.go:310-321 | takes the disconnect step |
| `RelayerClient.Client.ConnectNow` | redis/radix/client.go:89-122 | takes the connect step |
| `RelayerClient.Client.SendRequest` | redis/radix/client.go:239-272 | takes the second half of the write step, with its retry |
| `RelayerClient.Client.Write` | redis/radix/client.go:143-168 | one turn of the request listener is the write step; the object keeps the ledger, the equal databases and the matched queue as that step does |
| `RelayerClient.Client.ChangeDB` | redis/radix/client.go:230-237 | the internal SELECT is on the wire, its placeholder queued, the database assumed |
| `RelayerClient.Client.Receive` | redis/radix/client.go:176 | the listener takes the next entry into its hand |
| `RelayerClient.Client.Listen` | redis/radix/client.go:177-203 | the read for that entry is the reply step |
| `RelayerClient.Client.ListenLate` | redis/radix/client.go:177-203 | the last read of a listener whose connection was dropped, and what its failure drops |
| `RelayerClient.Client.Drop` | redis/radix/client.go:161-165 | the idle timer takes the disconnect step |
| `RelayerClient.Client.Handle` | redis/radix/main.go:181-211 | one turn of a local connection's loop is the arrival step: tag, fast response, send |
| `ClusterHandler.PendingCoversInFlight` | redis/cluster/handler.go:52-103 | in every interleaving pending is, in 32 bits, the number of commands queued and in progress plus the messages dropped without decrement, and that number itself if and only if it is below 2^31 |
| `ClusterHandler.PendingAtRestExactly` | redis/cluster/handler.go:105-127 | at rest pending is the number of messages that were not arrays and went through the channel, so it is back at zero if and only if there was none |
| `ClusterHandler.StrayIsNeverGivenBack` | redis/cluster/handler.go:121-127 | a run that ends at rest with pending at one |
| `ClusterHandler.NeverDirectAgain` | redis/cluster/handler.go:89-102 | after one message was dropped no later command is sent directly |
| `ClusterHandler.ArrivalOrder` | redis/cluster/handler.go:52-149 | while few messages were dropped, commands reach the backend in arrival order, so a command that runs sees everything the connection sent before it, background writes included |
| `ClusterHandler.ExactlyOneReply` | redis/cluster/handler.go:52-149 | each command gets at most one reply, and exactly one once both threads are idle and the channel is empty |
| `ClusterHandler.ArraysNeverDropped` | redis/cluster/handler.go:121-127 | a client that sends only arrays never has a message dropped without decrement |
| `ClusterHandler.AlwaysDrains` | redis/cluster/handler.go:105-109 | however the threads are scheduled, with a full channel or after the client hung up, they stop after a bounded number of steps and only when everything is drained |
| `ClusterHandler.StepCounted` | redis/cluster/handler.go:80-103 | every step keeps the counter equal to what it counts |
| `ClusterHandler.StepAlone` | redis/cluster/handler.go:89-102 | a direct call never overlaps a command in flight |
| `ClusterHandler.ConnHandler.Process` | redis/cluster/handler.go:52-103 | process up to the point where it touches the counter or the backend is the arrival step, and the object keeps what the theorems about runs rest on |
| `ClusterHandler.ConnHandler.HandlerMoves` | redis/cluster/handler.go:80-102 | the handler's later steps: count, send on the channel, or call and answer |
| `ClusterHandler.ConnHandler.WorkerMoves` | redis/cluster/handler.go:105-149 | the worker's steps: receive, call, answer, count down |
| `Pools.GetGood` | redis/radix.improved/pool/pool.go:90-99 | Get hands out the longest idle connection if there is any, else a new one exactly when the pool is live and its node can be dialed; it is open, healthy and of that node, and no other connection changes |
| `Pools.PutGood` | redis/radix.improved/pool/pool.go:104-120 | after Put the connection is last in this live pool, exactly when it is healthy and there is room, or closed; plain and cluster Put agree |
| `Pools.EmptyGood` | redis/radix.improved/cluster/pool.go:40-48 | emptying pools never emptied before keeps every pool and connection accounted for |
| `Cluster.LookupInv` | redis/radix.improved/cluster/cluster.go:271-291 | the closure hands out a pool of the wanted node when it is known or can be dialed, and crashes if and only if there is no pool at all |
| `Cluster.PutLookupInv` | redis/radix.improved/cluster/cluster.go:295-305 | the lookup half of Put names a pool of the connection's own node or closes the connection |
| `Cluster.PutDoneInv` | redis/radix.improved/cluster/pool.go:31-38 | the second half ends with the connection idle or closed, even if the pool was emptied in between |
| `Cluster.BreakInv` | redis/radix.improved/redis/client.go:166-176 | a critical error closes the connection and disturbs nothing else |
| `Cluster.StartInv` | redis/radix.improved/cluster/cluster.go:176-212 | a start round that can dial leaves one pool with one connection under its address, any other changes nothing; the invariant is kept |
| `Cluster.CloseTableInv` | redis/radix.improved/cluster/cluster.go:754-768 | closing empties exactly the pools in the table, none of which was emptied before |
| `Cluster.AdoptInv` | redis/radix.improved/cluster/cluster.go:433-443 | swapping the table empties only pools that leave it, so none twice and none that stays |
| `ClusterReset.ResetInv` | redis/radix.improved/cluster/cluster.go:361-453 | whatever the node answers and whichever nodes are down, a reset keeps the invariant and its connection ends idle in its live pool or closed |
| `ClusterReset.ResetMeaning` | redis/radix.improved/cluster/cluster.go:361-453 | when every new node can be dialed, the table's addresses are exactly the listed ones and each slot maps to the last listed group that covers it, others unchanged |
| `ClusterReset.TwoGroups` | redis/radix.improved/cluster/cluster.go:361-453 | the table and every slot after a concrete answer of two groups |
| `ClusterReset.ResetStops` | redis/radix.improved/cluster/cluster.go:386-443 | what a reset returns and leaves in the table and the slots when its pass stops at a group: an error with the slots before it changed, a crash, or a silent stop |
| `ClusterReset.NoAnswerChangesNothing` | redis/radix.improved/cluster/cluster.go:375-380 | an answer that is no list, or an empty one, is an error that changes neither table nor slots |
| `ClusterReset.FailedAskCloses` | redis/radix.improved/redis/client.go:166-176 | a read error during a reset closes the connection it was asked on |
| `ClusterReset.AddressSplits` | redis/radix.improved/cluster/cluster.go:411-415 | an address read up to its first colon is the ip, and what follows reads back as the port |
| `ClusterReset.SameAddressExactly` | redis/radix.improved/cluster/cluster.go:411-415 | two groups have one address if and only if they name one ip and port, whatever their ranges |
| `ClusterReset.BlankIsSelf` | redis/radix.improved/cluster/cluster.go:408-412 | a blank ip is the node that was asked |
| `ClusterReset.InRangeExactly` | redis/radix.improved/cluster/cluster.go:416-418 | the indexing stays in bounds if and only if every slot the group names is one of the 16384 |
| `ClusterReset.ResetMovesPools` | redis/radix.improved/cluster/cluster.go:419-443 | each pool that left the table was emptied exactly once and no other was; kept addresses keep their pool; at most one pool is opened per new address |
| `ClusterReset.TableCompleteExactly` | redis/radix.improved/cluster/cluster.go:421-427 | the table holds exactly the listed addresses if and only if each had a pool or can be dialed |
| `ClusterReset.RegroupTidyExactly` | redis/radix.improved/cluster/cluster.go:386-406 | no live pool is left out of the table if and only if the answer does not name a node without a pool ahead of the group where the pass ends unreadably |
| `ClusterReset.LosesExactly` | redis/radix.improved/cluster/cluster.go:386-431 | the pass ends in an error after opening a pool if and only if a group cannot be read, the pass gets past every group before it, and one of those names a node without a pool |
| `ClusterReset.FullPass` | redis/radix.improved/cluster/cluster.go:386-431 | a pass over well-formed groups with reachable nodes sees every one of them |
| `ClusterRuns.GetEveryMeaning` | redis/radix.improved/cluster/cluster.go:716-740 | one open connection per known node, all different and each of its own node; or none, everything taken having been put back |
| `ClusterRuns.StepInv` | redis/radix.improved/cluster/cluster.go:256-305 | every step keeps the invariant and leaves other callers' connections alone |
| `ClusterRuns.PoolsInEveryRun` | redis/radix.improved/cluster/cluster.go:176-453 | in every run the pool under an address dials it and has not been emptied, and no pool was emptied twice |
| `ClusterRuns.ConnectionsInEveryRun` | redis/radix.improved/pool/pool.go:88-153 | in every run each connection is idle once in one live pool of its own node, or held and in no pool, or abandoned and closed |
| `ClusterRuns.StepTidyExactly` | redis/radix.improved/cluster/cluster.go:386-453 | a reset with such an answer is the only step after which a live pool is in no table |
| `ClusterRuns.LostPool` | redis/radix.improved/cluster/cluster.go:386-406 | a run from the start that loses a pool |
| `ClusterTopology.Topology.EmptyPool` | redis/radix.improved/pool/pool.go:137-153 | the drain loop closes every connection idle in the pool and nothing else |
| `ClusterTopology.Topology.FillSlots` | redis/radix.improved/cluster/cluster.go:416-418 | exactly the slots of the range get the address |
| `ClusterTopology.Topology.DropMissing` | redis/radix.improved/cluster/cluster.go:433-439 | empties exactly the pools that are not kept, in any order |
| `ClusterTopology.Topology.Regrouped` | redis/radix.improved/cluster/cluster.go:386-443 | the loop over slot groups and the swap, in place, give the specified table, mapping and pools |
| `ClusterTopology.Topology.ResetInner` | redis/radix.improved/cluster/cluster.go:361-453 | the whole reset in place, with its borrowed connection |
| `ClusterTopology.Topology.StartRound` | redis/radix.improved/cluster/cluster.go:181-212 | one round of starting |
| `ClusterTopology.Topology.CloseAll` | redis/radix.improved/cluster/cluster.go:757-761 | every pool emptied and the table empty |
| `ClusterCmd.AtMostTwoTries` | redis/radix.improved/cluster/cluster.go:612-684 | the redirection protocol tries the command at most twice and ASKING at most once, on an ASK redirection only; a redirection is never the caller's answer |
| `ClusterCmd.Session.Others` | redis/radix.improved/cluster/cluster.go:256-266 | any number of steps of everybody else leaves this caller's connections untouched |
| `ClusterCmd.Session.Send` | redis/radix.improved/redis/client.go:93-100 | the caller still answers for the connection after a command; an error has marked and closed it |
| `ClusterCmd.Session.Put` | redis/radix.improved/cluster/cluster.go:295-305 | the connection ends idle in a live pool or closed and is no longer this caller's, whatever happens between lookup and put |
| `ClusterCmd.Session.Move` | redis/radix.improved/cluster/cluster.go:256-266 | every change of the shared state is one recorded step of the cluster client |
| `ClusterCmd.Session.LookFor` | redis/radix.improved/cluster/cluster.go:271-288 | the closure hands over the pool of the node that the key's slot is mapped to in the state it runs in, unless that node is unknown and cannot be dialed |
| `ClusterCmd.Session.TakeFrom` | redis/radix.improved/cluster/cluster.go:290 | one new connection of that pool's node, or none |
| `ClusterCmd.Session.GetConn` | redis/radix.improved/cluster/cluster.go:271-291 | the caller holds exactly one connection more, not one it held already, to the node that the key's slot was mapped to when the closure looked, or to a marked substitute for a node unknown then |
| `ClusterCmd.Session.Reset` | redis/radix.improved/cluster/cluster.go:322-359 | nothing when closed or throttled, an error when no node is known, otherwise exactly a reset through a known node with its outcome; the caller's connections untouched |
| `ClusterCmd.Session.Follow` | redis/radix.improved/cluster/cluster.go:648-678 | a redirection is followed after exactly one call of Reset |
| `ClusterCmd.Session.ClientCmd` | redis/radix.improved/cluster/cluster.go:612-684 | follows the redirection protocol, resets exactly when it is redirected the first time, and on return the caller no longer holds any connection the call was given or obtained |
| `ClusterCmd.Session.Cmd` | redis/radix.improved/cluster/cluster.go:482-502 | among any steps of others: the first try goes to the node of the key's slot as mapped when the closure looked, or to a marked substitute; at most two tries; no connection held when it returns |
| `Pipeline.KthResponseAnswersKthRequest` | redis/radix.improved/redis/client.go:93-135 | for every interleaving, the k-th response since the last clear answers the k-th request appended since then, none twice |
| `Pipeline.EmptyExactly` | redis/radix.improved/redis/client.go:110-119 | a response fails if and only if nothing appended is unanswered |
| `Pipeline.Client.WriteRequest` | redis/radix.improved/redis/client.go:178-213 | requests reach the server in order, each with its reply on the wire |
| `Pipeline.Client.PipeAppend` | redis/radix.improved/redis/client.go:104-106 | queued behind the earlier ones |
| `Pipeline.Client.PipeResp` | redis/radix.improved/redis/client.go:110-135 | the server's reply to the oldest unanswered request; no unread reply remains |
| `Pipeline.Client.Command` | redis/radix.improved/redis/client.go:93-100 | the reply to this very command, whatever the pipeline holds |
| `Pipeline.Client.PipeClear` | redis/radix.improved/redis/client.go:142-151 | pipeline emptied, both counts returned |
| `Scan.WholeIsEverythingListed` | redis/radix.improved/util/scan.go:29-84 | a scan yields the non-empty keys of all replies up to the one that ends it, in order, each request carrying the cursor of the reply before it |
| `Scan.ScanSingle` | redis/radix.improved/util/scan.go:63-84 | keys, error and requests of the whole scan |
| `Scan.SingleScanner.HasNext` | redis/radix.improved/util/scan.go:233-253 | true if and only if a key remains; nothing to come is lost or asked for twice |
| `Scan.SingleScanner.Next` | redis/radix.improved/util/scan.go:255-261 | the next key to come, and only that |
| `Scan.Drive` | redis/radix.improved/util/scan.go:233-265 | driving HasNext and Next gives the keys, error and requests of scanSingle for every trace of replies |
| `Scan.ClusterScanner.HasNext` | redis/radix.improved/util/scan.go:276-310 | true if and only if some node has a key left; a node that is done or failed has its connection put back |
| `Scan.ClusterScanner.Err` | redis/radix.improved/util/scan.go:316-324 | every borrowed connection has been put back exactly once, also when iteration was abandoned |
| `Scan.DriveCluster` | redis/radix.improved/util/scan.go:276-324 | the nodes' scans one after the other up to the first failure, every connection put back once and in order |
| `Scan.InTurnConcatenates` | redis/radix.improved/util/scan.go:292-309 | when no node fails, the cluster's keys are the concatenation of the nodes' keys |
| `Scan.InTurnStops` | redis/radix.improved/util/scan.go:292-309 | the first node that fails ends the scan: its keys so far are the last, its error is the answer |
| `Scan.NonEmptyKeeps` | redis/radix.improved/util/scan.go:74-78 | every key but the empty one is kept, as often as it came |

## Left out

- Relayer.SameEffect: holds of runs without a crash in which the server obeys every `SELECT` as it is read and resends are in database 0; `Relayer.SelectExactly` and `Relayer.ResendExactly` say what happens otherwise.
- Relayer.RepliesReachTheirCause: holds of runs without a crash in which no read fails for a placeholder; `Relayer.StepAligned` says that such a read always breaks it.
- Relayer.ExactlyOneReply: says nothing after a crash.
- ClusterHandler.ArrivalOrder: needs fewer than 2^32 - 1026 dropped messages on one connection, since each leaves the 32-bit counter one too high; `ClusterHandler.ArraysNeverDropped` says that a client that sends arrays has none.
- Pipeline.Client.PipeResp: the connection is healthy; what a read or write error does to a connection is in `ClusterCmd.Session.Send`.
- RespIO.WriteTo: the writer takes every write; network errors while printing, and reuse of the scratch buffer, are not modelled.
- ClusterCmd.Session.Cmd: a caller that waits for ever because `Close` stopped the closures, or whose process crashed, does not return and is not described; a redirection text that cannot be split into slot and address is not modelled.
- Sizes that Go accepts but memory does not hold; the buffer pool for bulk strings, which is off by default.
- Nil and empty byte slices are one value, and a message's fields are held by value: there are no nil entries in `Fields` and no aliasing between messages.
- Pools and connections are records in a store named by their index, not heap objects; a connection seen from two places is one index.
- Step atomicity: races inside one `Put`, `Empty`, `Get` or `write` are not modelled; a whole `write` of the relayer is one step, except that the listener may take a placeholder while the request behind it is being sent; its request and reply channels have no capacity limit; a reconnect that fails inside the EOF retry is treated as a failed write.
- Two requests from one local connection in smart mode may be answered out of order by design: reply order across requests is not claimed.
- An array with no elements makes `First` index out of range; the model of the handlers starts from commands that have a first word.
- Upper-casing of command names beyond ASCII.
- Compression and decompression, floats and `fmt.Sprint` of exotic Go types, object and buffer pooling, timeouts, timers and reconnect delays, name lookup, throttling other than as a skipped reset.
- `faultyMonitor`: its health check returns early without putting its connection back when `CLUSTER INFO` is answered with an error; it is not part of the step relation.
- The reading of `CLUSTER SLOTS` and `SCAN` replies from RESP trees: groups and scan parts start out already read, unreadable or too short. Of a SCAN request only the cursor is modelled, not MATCH and COUNT.
- `scanCluster` and `Scan`, which the source marks as deprecated.
- The store side of the key-value relayer (HTTP requests, expiry times, compression), the other relayers (`redis/fs`, `redis/fh`, `redis/kinesis`, `redis/rsqs`, HTTP), listeners, signal handling and the relayer's own connection pool.
