# Verified core of a WhatsApp client

A Dafny model of the parts of this client whose correctness is hard to see from the code, with proofs. The project checks with `dafny verify dfyconfig.toml`.

- **Reporting tokens** (`Varint`, `ReportingToken`, `ReportingTokenProofs`, `ReportingTokenMeaning`, `ReportingTokenLoop`, `ReportingTokenTable`). The extractor reads protobuf wire bytes (sections "Base 128 Varints" and "Message Structure" of the Protocol Buffers Encoding document), keeps whitelisted fields, rewrites nested messages, sorts and concatenates. The loop is proved to compute `Extract`; `Extract` is proved to give, for every message, what `ReportingTokenMeaning.ExtractFields` says on fields as the encoding lays them out, to be idempotent at every depth, never to grow its input, and to depend on nothing but the kept fields in their order.
- **Media** (`Cbc`, `Media`). Streaming decryption with a carried tail, for every way the reader cuts the stream, returns `p` exactly when the stream is the upload of `p`. The last loop of the source never moves its previous block on; `FrozenExact` says exactly when that is chained decryption, and the tail invariant says why it is here.
- **Frames and the encrypted socket** (`Framing`, `NoiseSocket`). Frames are independent of chunking, and plaintexts sent by successful jobs come out at the peer in order, across the 32-bit counter wrap. With failed jobs in between, `DeliveredExactly` says which frames the peer can still open: a failed job uses up a counter value, so the peer is out of step after it.
- **Retries** (`Retry`, `RetryRace`, `RetryHistory`). The retry protocol of one message as interleaved atomic steps: bounds on receipts and resends, mutual exclusion, termination, and exactly when a key can resend twice in one connection.
- **Saver** (`PersistenceManager`), **request waiters** (`Request`): two concurrent protocols as interleaved atomic steps. For these and the retries the state is also told as a history of events (`Histories`).
- **Sender-key distribution** (`GroupSend`, `GroupSendRuns`), stated device by device over every run, and the **LID/PN cache** (`LidPn`).

Cryptographic primitives, clocks, randomness, stores, transports and device resolution are parameters: function values with the stated laws (`Cbc.Sound`, `NoiseSocket.Sound`, `NoiseSocket.Authenticating`; `Cbc.LawfulSuite` and `NoiseSocket.LawfulKey` show that they can be met), or inputs that say how an outside call went (`Fault`, `Conditions`, `Event`).

Some promises fail in the code as it stands. Each has its exact condition, and where it takes a run to see it, a lemma with that run:

- A device recorded as having the sender key may not have it. `GroupSend.TruthfulForExactly` and `GroupSendRuns.RunTruthfulForExactly` give the branches that do this, `GroupSendRuns.WrongExactly` says for every run when it is so, and `GroupSendRuns.StaysForgotten` that only a forced send, a retry after a lost key or a mark ends it. Each branch has a run:
  - `src/send.rs:150-152` says that an empty record leads to a full distribution, but `prepare_group_stanza` distributes to nobody when it is given no target list and is not forced (`warp_core/src/send.rs:1050-1166`), and `src/send.rs:260-284` then records every device: `GroupSendRuns.NewcomerForgotten`.
  - Devices without a pre-key bundle, or for which encryption fails, are skipped (`warp_core/src/send.rs:485-493`, `609-616`) and recorded all the same: `GroupSendRuns.SkippedForgotten`.
  - The record is written before the stanza is sent (`src/send.rs:249-284`, `428`): `GroupSendRuns.UnsentForgotten`.
  - A missing key is made anew (`warp_core/src/send.rs:1291-1316`) without clearing the record: `GroupSendRuns.AwayForgotten`, and with preparation failing afterwards `GroupSendRuns.FailedRemakeForgotten`.
  - A failed clear of the record is only logged (`src/send.rs:299-306`): `GroupSendRuns.UnclearedForgotten`.
- A forget mark is used up by the next send even when that send fails (`src/send.rs:131-136`, `293-345`), so the device that asked is not served: `GroupSend.MarkHonoured`, `GroupSendRuns.MarkForgotten`.
- The dedupe cache allows one resend per key and connection, unless a clear falls between a handler's dedupe insert and its resend while the key has a rival: `RetryRace.SecondResendExactly`, `RetryRace.OneResendPerKey`, with a run from the start in `RetryRace.ClearAllowsSecondResend`.
- `InternalChannelClosed` is reachable when a caller chooses an id that is in use: `Request.SharedIdCloses`, `Request.ClosedExactly`, `Request.ClosedOnlyIfShared`.
- The send path uses the address of the receive path "to ensure consistent lock keys" (`src/client/lid_pn.rs:131-132`), unless the cache holds a newer entry for the phone: `LidPn.SendMatchesReceive`, `LidPn.NewerEntryOverrules`.
- A modification is lost when its write fails, as the flag is already cleared (`src/store/persistence_manager.rs:82-91`), until the next modification: `PersistenceManager.FailureStrands`, `PersistenceManager.FailedWriteLosesIt`, `PersistenceManager.StrandedStays`, `PersistenceManager.NextModificationRescues`.

## Model

| member | source | states |
|---|---|---|
| Varint.DecodeVarint | warp_core/src/reporting_token.rs:315-330 | the byte loop gives exactly the decoded value and length, or nothing after ten continued bytes or a cut-off input |
| Varint.EncodeVarintToBuf | warp_core/src/reporting_token.rs:338-353 | the caller's ten-byte buffer holds the encoding in its first n bytes and is unchanged after them |
| Varint.RoundTrip | warp_core/src/reporting_token.rs:315-353 | every 64-bit value decodes from its encoding followed by anything, and takes at most ten bytes |
| Varint.EncodeMinimal | warp_core/src/reporting_token.rs:315-353 | re-encoding a decoded value takes no more bytes than were read, also for overlong encodings |
| Varint.EncodeMonotone | warp_core/src/reporting_token.rs:338-353 | larger values never have shorter encodings |
| Varint.DecodeLocal | warp_core/src/reporting_token.rs:315-330 | decoding depends only on the bytes it consumes |
| Varint.Contribution | warp_core/src/reporting_token.rs:320 | the shift loses nothing before the tenth byte, and all but one bit there |
| Varint.DecodeMeaning | warp_core/src/reporting_token.rs:315-330 | a varint of at most ten bytes decodes to its base-128 value, first byte least significant; of a tenth byte one bit counts |
| Varint.DecodeNoneExactly | warp_core/src/reporting_token.rs:315-330 | nothing decodes exactly when no byte without continuation bit is among the first ten |
| Varint.EncodeMeaning | warp_core/src/reporting_token.rs:338-353 | the encoding is one varint with the value and has no needless last byte |
| ReportingTokenLoop.ReadField | warp_core/src/reporting_token.rs:384-434 | reads one field: malformed varint or wire type, cut-off field, or tag, bytes and value |
| ReportingTokenLoop.KeepField | warp_core/src/reporting_token.rs:397-477 | copies the field, rewrites its nested message under the entry's own whitelist, or drops it |
| ReportingTokenLoop.CollectFields | warp_core/src/reporting_token.rs:381-485 | the position loop ends and keeps exactly the fields of the longest complete prefix, in order |
| ReportingTokenLoop.ExtractReportingTokenContent | warp_core/src/reporting_token.rs:376-499 | the whole extraction, recursive on strictly shorter slices, computes `Extract` |
| ReportingTokenProofs.Split | warp_core/src/reporting_token.rs:384-485 | every input is complete fields followed by nothing, a cut-off field or malformed bytes |
| ReportingTokenProofs.ExtractMeaning | warp_core/src/reporting_token.rs:376-499 | for any such split and any number-ordered, order-keeping arrangement of the kept items: none exactly when malformed or nothing kept, else their contents |
| ReportingTokenProofs.SortIs | warp_core/src/reporting_token.rs:491 | the sort gives the one ordered sequence that keeps the order of equal numbers |
| ReportingTokenProofs.SortProperties | warp_core/src/reporting_token.rs:491 | the sort gives an ordered permutation |
| ReportingTokenProofs.ExtractSize | warp_core/src/reporting_token.rs:426-498 | extracted content is non-empty and never longer than its input, at every depth |
| ReportingTokenProofs.NextLocal | warp_core/src/reporting_token.rs:385-434 | reading a field depends only on the bytes of that field |
| ReportingTokenProofs.NextNest | warp_core/src/reporting_token.rs:445-454 | a rewritten field reads back as the same tag around the nested content |
| ReportingTokenProofs.ExtractIdempotent | warp_core/src/reporting_token.rs:436-498 | extracting extracted content changes nothing, through nested and message fields |
| ReportingTokenProofs.ExtractSeesKeptOnly | warp_core/src/reporting_token.rs:384-498 | two inputs with the same whitelisted fields per number, in order, have the same result, whatever follows |
| ReportingTokenProofs.SwapFields | warp_core/src/reporting_token.rs:491 | neighbouring fields with different numbers may be swapped |
| ReportingTokenProofs.InsertUnlisted | warp_core/src/reporting_token.rs:398-436 | a complete field that is not whitelisted may be inserted between any two fields |
| ReportingTokenMeaning.ExtractFields | warp_core/src/reporting_token.rs:376-499 | a message of fields with tags, sizes and wire types written out, and any tail: a plain listed field gives its own bytes, a nested one its extraction under tag and new length, an unlisted one nothing, in order of number and then of input; no result if the tail is no field or nothing is given |
| ReportingTokenMeaning.SplitFields | warp_core/src/reporting_token.rs:381-485 | every input is such a message |
| ReportingTokenMeaning.OrderFields | warp_core/src/reporting_token.rs:491 | its contributing fields can be put in that order |
| ReportingTokenMeaning.NextWire | warp_core/src/reporting_token.rs:384-434 | varint, eight-byte, four-byte and length-delimited fields are read as such, whatever follows |
| ReportingTokenMeaning.WireOf | warp_core/src/reporting_token.rs:384-434 | every complete field is one of these four |
| ReportingTokenMeaning.TailMeaning | warp_core/src/reporting_token.rs:385-481 | which bytes are no field and which are the beginning of one |
| ReportingTokenMeaning.KeptMeaning | warp_core/src/reporting_token.rs:397-477 | what one field contributes, on its tag, value and whitelist entry |
| ReportingTokenMeaning.LookupMeaning | warp_core/src/reporting_token.rs:398 | the first entry with the number counts |
| ReportingTokenMeaning.ExtractOne | warp_core/src/reporting_token.rs:376-499 | a message of one field gives that field's contribution |
| ReportingTokenMeaning.ExtractPlain | warp_core/src/reporting_token.rs:470-473 | a listed field without subfields is kept as it is |
| ReportingTokenTable.WrapperTransparent | warp_core/src/reporting_token.rs:90-242 | with the real table, extracting a wrapped message gives the wrapped extraction of the message |
| ReportingTokenTable.ConversationKept | warp_core/src/reporting_token.rs:214 | a plain text message of any length is kept as it is |
| Cbc.UnpadExact | warp_core/src/download.rs:248-261 | on whole blocks, unpadding gives p exactly on the padding of p |
| Cbc.PadMeaning | warp_core/src/download.rs:248-261 | padding is one to sixteen bytes that each say how many they are, to a whole block |
| Cbc.XorBlockMeaning | warp_core/src/download.rs:210-212 | blocks are combined bit by bit |
| Cbc.EncryptMeaning | warp_core/libsignal/src/crypto/aes_cbc.rs:28-93 | each ciphertext block seals its plaintext block combined with the ciphertext block before, the vector for the first |
| Cbc.DecryptMeaning | warp_core/src/download.rs:205-217 | each plaintext block is the opened block combined with the ciphertext block before |
| Cbc.DecryptEncrypt | warp_core/libsignal/src/crypto/aes_cbc.rs:28-93 | chained decryption undoes chained encryption |
| Cbc.EncryptDecrypt | warp_core/libsignal/src/crypto/aes_cbc.rs:28-93 | chained encryption undoes chained decryption |
| Cbc.DecryptSplit | warp_core/src/download.rs:203-218 | decryption may stop at any block boundary and resume from the block before it |
| Cbc.FrozenExact | warp_core/src/download.rs:235-244 | keeping one previous block for all blocks is chained decryption exactly when every block but the last equals it |
| Media.EncryptMedia | warp_core/src/upload.rs:14-58 | the upload is the padded, chained ciphertext with its ten-byte MAC; both hashes are of what they say |
| Media.KeysMeaning | warp_core/src/download.rs:268-284 | vector, cipher key and MAC key are the first eighty expanded bytes in this order |
| Media.AppInfoMeaning | warp_core/src/download.rs:28-40 | the names keys are expanded under |
| Media.AppInfoDistinct | warp_core/src/download.rs:28-40 | they differ for different types, except that stickers are images |
| Media.UploadMeaning | warp_core/src/upload.rs:14-58 | the upload in terms of the expanded key alone: ciphertext, then ten bytes of the MAC over vector and ciphertext |
| Media.VerifyExact | warp_core/src/download.rs:294-324 | one-shot decryption gives p exactly on the upload of p |
| Media.VerifyErrors | warp_core/src/download.rs:294-324 | which error: ten bytes or fewer, not authentic, or authentic and no upload |
| Media.DecryptBlocks | warp_core/src/download.rs:205-217 | the block loop decrypts and carries the last ciphertext block |
| Media.DecryptFinal | warp_core/src/download.rs:235-244 | the final loop combines every block with the same previous block |
| Media.Absorb | warp_core/src/download.rs:192-221 | one read keeps the decrypted and hashed prefix and a tail of at most 41 bytes |
| Media.FinishMeaning | warp_core/src/download.rs:223-244 | a tail of acceptable size is exactly one block and the MAC, so the frozen block is right |
| Media.Finish | warp_core/src/download.rs:223-264 | size, MAC and padding checks give the result the whole stream has |
| Media.DecryptStream | warp_core/src/download.rs:163-265 | for every list of reads, the result of the whole stream; a failed read before its end is an error |
| Media.StreamAgrees | warp_core/src/download.rs:163-324 | streaming and one-shot decryption accept the same inputs with the same plaintext |
| Media.StreamExact | warp_core/src/download.rs:163-265 | streaming decryption gives p exactly on the upload of p |
| Media.StreamErrors | warp_core/src/download.rs:223-264 | which error: a size no upload has, not authentic, or authentic and no upload |
| Media.StreamOfMeaning | warp_core/src/download.rs:186-200 | the stream is what was read up to the first empty read, and nothing if a read fails before |
| Media.RoundTrip | warp_core/src/upload.rs:65-74 | encrypt, cut into reads in any way, decrypt both ways: the plaintext |
| Framing.EncodeFrameInto | warp_core/src/framing.rs:9-40 | refuses 2^24 bytes and more, else the buffer is header, three length bytes, payload |
| Framing.FrameMeaning | warp_core/src/framing.rs:9-40 | a frame is three length bytes, most significant first, and the payload |
| Framing.FrameDecoder.Feed | warp_core/src/framing.rs:64-66 | appends to the buffer |
| Framing.FrameDecoder.DecodeFrame | warp_core/src/framing.rs:68-94 | takes one whole frame or leaves the buffer; the oversize branch cannot be taken |
| Framing.ParseWire | warp_core/src/framing.rs:9-94 | the wire bytes of any payloads parse to those payloads and whatever follows |
| Framing.ParseLossless | warp_core/src/framing.rs:64-94 | any byte stream is the wire bytes of its frames followed by less than a frame |
| Framing.ChunkingIrrelevant | warp_core/src/framing.rs:64-94 | feeding and draining chunk by chunk gives the frames of the whole stream |
| Framing.ParsePrefix | warp_core/src/framing.rs:68-94 | a prefix of the wire bytes gives exactly the complete payloads and keeps the unfinished bytes |
| Framing.AfterEachChunk | src/client.rs:531-540 | the same at any moment of reading in any chunks |
| NoiseSocket.IvInjective | warp_core/src/handshake/utils.rs:37-41 | different counters give different nonces |
| NoiseSocket.IvMeaning | warp_core/src/handshake/utils.rs:37-41 | eight zero bytes and the counter in four, most significant first |
| NoiseSocket.Sender.EncryptInline | src/socket/noise_socket.rs:103-131 | the buffer shuffle leaves the sealed frame in one buffer and nothing in the other; framing cannot fail here |
| NoiseSocket.Sender.ProcessSendJob | src/socket/noise_socket.rs:92-174 | counter advances whatever happens; both branches hand over the same frame; buffers and error kind per outcome |
| NoiseSocket.SentExactly | src/socket/noise_socket.rs:92-174 | a job is sent exactly when it meets no fault and fits a frame, and then both buffers come back empty |
| NoiseSocket.FailedMeaning | src/socket/noise_socket.rs:103-170 | for each fault the error kind and what is left in each buffer |
| NoiseSocket.WireMeaning | src/socket/noise_socket.rs:110-168 | a sent job puts one frame on the wire, its plaintext sealed under the job's counter |
| NoiseSocket.Sender.Run | src/socket/noise_socket.rs:67-89 | job i uses the counter after i increments whatever happened to earlier jobs, and reaches the wire exactly when it succeeds |
| NoiseSocket.NoncesDistinct | src/socket/noise_socket.rs:99-100 | within 2^32 consecutive jobs no two share a nonce |
| NoiseSocket.Receiver.DecryptFrame | src/socket/noise_socket.rs:205-211 | opens under the read counter and advances it, opened or not |
| NoiseSocket.Receiver.Drain | src/client.rs:538-541 | every whole frame is opened in order and the loop ends |
| NoiseSocket.Receiver.ReadChunks | src/client.rs:531-541 | reading any chunks opens the frames of the whole stream under successive counters |
| NoiseSocket.AdvanceIsSum | src/socket/noise_socket.rs:206 | n wrapping increments are addition modulo 2^32 |
| NoiseSocket.EndToEnd | src/socket/noise_socket.rs:67-211 | successful jobs, any chunking, counters started together: the plaintexts, in order, nothing left over |
| NoiseSocket.DeliveredExactly | src/socket/noise_socket.rs:99-211 | any jobs, failed ones included: one frame per success, opened to its plaintext exactly when the failures before it are a multiple of 2^32, else refused |
| NoiseSocket.Session | src/socket/noise_socket.rs:67-211 | both for the sender, decoder and receiver objects put together, for any jobs |
| Retry.RetryCounts.IncrementRetryCount | src/message.rs:106-138 | the cache entry goes 1, 2, ... and stays at 5 |
| Retry.RetryCounts.FailRepeatedly | src/message.rs:106-138 | any number of failures gives out exactly 1 to 5 |
| Retry.RunInv | src/retry.rs:69-139 | the protocol invariant holds along every interleaving |
| Retry.RetriesBounded | src/retry.rs:69-139 | n devices: at most 5n receipts, 4n resends, and no more resends in all than dedupe keys times connections |
| Retry.CountsEmittedOnce | src/message.rs:162-219 | each device emits counts 1 to at most 5, each once, in order |
| Retry.OneHandlerAtATime | src/retry.rs:113-126 | at most one handler is between reserving the message and releasing it |
| Retry.ResendsPerKey | src/retry.rs:85-111 | two resends of one key in one connection need a cache clear during one of the handlers |
| RetryRace.SecondResendExactly | src/retry.rs:85-126 | in every reachable state, a clear can be followed by two resends of a key in the new connection if and only if the message can still be resent, a handler of the key is between dedupe insert and resend, and another handler, a waiting receipt or a device that can still ask is there |
| RetryRace.TwoResends | src/client.rs:505 | the continuation with the two resends, from every such state |
| RetryRace.ReopenedBy | src/retry.rs:85-126 | two resends of a key in one connection, in any run, trace back to such a state at the clear that began it |
| RetryRace.OneResendPerKey | src/retry.rs:85-126 | every run whose clears find no such state resends each key at most once per connection |
| RetryRace.LookBack | src/retry.rs:69-139 | a receipt that is resent was before at work, waiting below the limit, or not emitted with the device's counter below it; at work if admitted in an earlier connection |
| RetryRace.LostForGood | src/retry.rs:113-139 | once the message is neither cached nor taken nothing is resent any more |
| RetryRace.ClearAllowsSecondResend | src/client.rs:505 | a run from the start with two resends of one key in one connection |
| Retry.RunsTerminate | src/retry.rs:69-139 | without connection losses every run has at most 5n(n + 7) + n events |
| RetryHistory.HistoryMeaning | src/retry.rs:85-152 | in every run: the message is cached unless taken and not put back, the mark is set while a reservation is unreleased, a key is deduplicated if checked since the last clear, counters and copies are counts of events |
| RetryHistory.HandlersFollow | src/retry.rs:69-139 | what each check does to a receipt, told on the events so far |
| RetryHistory.ReceiptsFollow | src/message.rs:106-138 | a device may emit a receipt while it has a copy and has emitted fewer than five, and what it then emits |
| PersistenceManager.NothingLost | src/store/persistence_manager.rs:68-114 | in every interleaving the latest completed modification is on disk, in the saver's hands, about to be read, or flagged, exactly unless a write has failed with the flag clear and the flag was not set since |
| PersistenceManager.SavesGoForward | src/store/persistence_manager.rs:81-95 | saved versions never go backwards |
| PersistenceManager.NeverWaitsForTimer | src/store/persistence_manager.rs:75-105 | a saver waiting with work to do, and no failed write, has a stored notification |
| PersistenceManager.FlagsMeaning | src/store/persistence_manager.rs:68-114 | in every run: stored notification, flag, waking, copy and versions as a history of events |
| PersistenceManager.SettlesDown | src/store/persistence_manager.rs:97-110 | without new notifications the saver is woken by one at most once and then has none stored |
| PersistenceManager.CatchesUp | src/store/persistence_manager.rs:97-110 | once modifications stop, any five saver steps, timer included, write the latest one out |
| PersistenceManager.CatchUp | src/store/persistence_manager.rs:97-110 | such steps exist without the timer |
| PersistenceManager.FailureStrands | src/store/persistence_manager.rs:82-91 | a failed write strands what it carried exactly when the flag was not set again |
| PersistenceManager.StrandedExactly | src/store/persistence_manager.rs:82-110 | in every reachable state, outside a modification, the latest one is beyond the saver's reach exactly when a failed write has lost it |
| PersistenceManager.FailedWriteLosesIt | src/store/persistence_manager.rs:68-95 | a run from the start in which that happens |
| PersistenceManager.StrandedStays | src/store/persistence_manager.rs:97-110 | no saver step, timer included, brings a stranded modification to disk |
| PersistenceManager.NextModificationRescues | src/store/persistence_manager.rs:68-95 | from any reachable state outside a modification, one more modification and successful saver steps bring the device to disk |
| Request.RequestUtils.GenerateRequestId | warp_core/src/request.rs:110-119 | the id is the prefix and the decimal count; the counter wraps at 2^64 |
| Request.IdInjective | warp_core/src/request.rs:110-119 | different counts give different ids |
| Text.DecimalMeaning | warp_core/src/request.rs:110-119 | counts are written in decimal digits without leading zero |
| Request.AnsweredByOwnId | src/request.rs:164-179 | only a stanza with its own id answers a request, whatever the ids |
| Request.FinishedLeavesNoWaiter | src/request.rs:138-157 | a finished request has no waiter, whatever the ids |
| Request.FinishesOnce | src/request.rs:125-158 | an outcome never changes |
| Request.OutcomeExactly | src/request.rs:125-158 | in every run, a send error exactly when the send failed, a timeout exactly when the time elapsed, an answer only with a whole stanza that came in |
| Request.AnswerNotLost | src/request.rs:147-150 | a request answered while it waits ends with that answer, whatever happens then |
| Request.ClosedExactly | src/request.rs:132-154 | in every reachable state, whatever the ids, an unanswered request's channel closes exactly when another request with its id is registered or one with its id cleans up |
| Request.ClosedOnlyIfShared | src/request.rs:125-158 | only a request that shares its id with another ever ends with a closed channel |
| Request.SharedIdCloses | src/request.rs:126-133 | a run in which a chosen id closes another request's channel |
| Request.ResponsesArrive | src/client.rs:1121-1134 | in every reachable state, whatever the ids, a response reaches the unanswered request with its id and no other |
| Request.OthersIgnored | src/request.rs:164-179 | a response with an id that no unanswered request has changes none |
| Request.FreshNeverCloses | src/request.rs:125-158 | with ids that are fresh when chosen no channel closes |
| Request.ChannelNeverCloses | src/request.rs:125-158 | with generated ids, up to 2^64 requests, every interleaving: no closed channel |
| GroupSend.GroupSender.NewDevices | src/send.rs:168-175 | the devices that are not recorded |
| GroupSend.GroupSender.MergeMarks | src/send.rs:198-216 | adds the marks that parse, each once |
| GroupSend.GroupSender.SelectTargets | src/send.rs:131-219 | a target list exactly when not forced, record readable and not empty, devices resolved; its contents; marks used up |
| GroupSend.GroupSender.SendGroupMessage | src/send.rs:105-346 | record, marks and devices with the key after a send, on every path: skipped devices, a key made anew, preparation failing before or after that, retry, stanza not sent |
| GroupSend.CarriedExactly | src/send.rs:118-219 | whom a stanza carries the key for, on the inputs: forced or without a key everyone taking part, else the unrecorded and the marked that parse, else nobody |
| GroupSend.ForcedGives | src/send.rs:118-141 | a forced send, or one without a key, reaches everyone it can |
| GroupSend.RetryGives | src/send.rs:293-346 | the retry after a lost key reaches everyone it can and nobody else has the key then; the record is as the clear left it |
| GroupSend.RecordedExactly | src/send.rs:249-285 | who is recorded after a prepared stanza, on the inputs |
| GroupSend.ReachedExactly | warp_core/src/send.rs:1167-1316 | who has the key after a prepared stanza, a lost key that is given out being a new one |
| GroupSend.TruthfulForExactly | src/send.rs:249-306 | for each device and any state: a send keeps the record truthful exactly when it takes no branch that records the device unserved or leaves the record of a lost key; it makes it truthful again exactly when it brings the key or empties the record |
| GroupSend.TruthfulExactly | src/send.rs:249-306 | the first half for all devices together |
| GroupSendRuns.RunTruthfulForExactly | src/send.rs:105-346 | the record is truthful about a device throughout a run exactly when no send of the run takes such a branch for that device, whatever happens to others |
| GroupSendRuns.RunTruthfulExactly | src/send.rs:105-346 | the same for all devices together |
| GroupSendRuns.RecordedHistory | src/send.rs:249-306 | in every run, a device is recorded exactly when an earlier prepared send recorded it and no clear was written since |
| GroupSendRuns.ReachedHistory | warp_core/src/send.rs:1049-1316 | in every run, a device has the current key exactly when an earlier send brought it and the key was not replaced since |
| GroupSendRuns.WrongExactly | src/send.rs:105-346 | in every run, the record is wrong about a device exactly when the first holds and the second does not |
| GroupSend.ServedExactly | warp_core/src/send.rs:1049-1203 | from any state, a prepared stanza leaves every current device with the key, marked ones anew, exactly when nobody needs it, or nobody in need is skipped, it is sent, and the send is forced or is selective and passes over no recorded device without the key |
| GroupSend.MarkHonoured | src/send.rs:131-219 | a send uses up the marks it reads, and brings the marked device the key exactly when it goes out, does not skip it, and is selective with a mark that parses or a new device, or is a full distribution to a group with it |
| GroupSend.UnreadMarksStay | src/send.rs:131-136 | marks that cannot be read stay |
| GroupSendRuns.LeftOutOnlyIfServed | src/send.rs:138-219 | after any run that does not mislead about it, a device is left out of any stanza only if it has the key and is not marked, takes no part, is skipped, or the send lists nobody or keeps to new devices although the key was remade |
| GroupSendRuns.LeftOutOnlyIfRecorded | src/send.rs:138-219 | after every run, a device is left out of any stanza only if it takes no part, is skipped, nobody is listed, or it has not asked and an earlier prepared send recorded it with no clear since |
| GroupSend.RecordCovers | src/send.rs:249-306 | after any send its current devices are all recorded exactly when they were before and the record is not emptied, or a stanza was prepared and its record written, or there are none |
| GroupSendRuns.CoversAtEachSend | src/send.rs:249-306 | the same at every send of every run |
| GroupSendRuns.CoveredUntilCleared | src/send.rs:138-306 | in every run, the devices of a send whose record is written stay recorded until a clear is written, and a selective send to them meanwhile lists none but the marked |
| GroupSendRuns.CalmRunsServe | src/send.rs:105-306 | undisturbed runs that start without a key never mislead, and every send leaves every current device with the key, marked ones anew, and recorded |
| GroupSendRuns.StaysForgotten | src/send.rs:138-346 | a device recorded without the key and without a mark stays so throughout a run exactly when the run has no forced send that reaches it, no lost-key retry that reaches it or clears the record, and no mark for it, whatever else happens |
| GroupSendRuns.NewcomerForgotten | warp_core/src/send.rs:1050-1166 | after the key is lost and remade, a newcomer is recorded without the key |
| GroupSendRuns.SkippedForgotten | warp_core/src/send.rs:485-493 | a skipped device is recorded without the key |
| GroupSendRuns.UnsentForgotten | src/send.rs:249-284 | a device is recorded for a stanza that is not sent |
| GroupSendRuns.AwayForgotten | warp_core/src/send.rs:1291-1316 | a device that is away while the key is made anew stays recorded |
| GroupSendRuns.FailedRemakeForgotten | warp_core/src/send.rs:1167-1203 | the key is made anew, preparing fails, and the old record stays |
| GroupSendRuns.UnclearedForgotten | src/send.rs:293-306 | the key is lost and the record is not cleared |
| GroupSendRuns.MarkForgotten | src/send.rs:131-136 | a run in which a mark is used up by a failing send and the next send carries nothing |
| LidPn.LidPnCache.Add | src/lid_pn_cache.rs:83-109 | both maps are those of the adds so far and this one |
| LidPn.LidPnCache.WarmUp | src/lid_pn_cache.rs:115-128 | the same for a list |
| LidPn.LidPnCache.Clear | src/lid_pn_cache.rs:131-140 | both maps are empty |
| LidPn.LidPnCache.GetCurrentLid | src/lid_pn_cache.rs:53-56 | the LID of the newest add for the phone |
| LidPn.LidPnCache.GetPhoneNumber | src/lid_pn_cache.rs:61-64 | the phone of the latest add for the LID |
| LidPn.NewestIs | src/lid_pn_cache.rs:83-109 | the phone's entry has the greatest timestamp, the last among equals |
| LidPn.LatestIs | src/lid_pn_cache.rs:96-100 | the LID's entry is the last one added |
| LidPn.CrossMaps | src/lid_pn_cache.rs:83-109 | the phone of a LID's entry has an entry at least as recent |
| LidPn.LidRoundTrip | src/lid_pn_cache.rs:50-64 | phone to LID and back is the phone when no LID is added for two phones |
| LidPn.LidPnCache.ResolveEncryptionJid | src/client/lid_pn.rs:136-167 | the send address of the target |
| LidPn.LidPnCache.ReceiveEncryptionJid | src/message.rs:247-344 | the receive address and the mapping learned |
| LidPn.LidPnCache.ResolveLidMappings | src/client/lid_pn.rs:101-128 | the session address of every JID, in order |
| LidPn.SendMatchesReceive | src/client/lid_pn.rs:130-167 | after a message, sending to its sender uses the Signal address it was decrypted under exactly when no newer entry overrules the mapping it carries |
| LidPn.NewerEntryOverrules | src/lid_pn_cache.rs:83-109 | a cache with a newer entry for which they differ |
| LidPn.AgreeWithClock | src/message.rs:247-344 | with timestamps that do not decrease the two always agree |
| LidPn.PnFollowsLid | src/message.rs:253-277 | after a LID message the phone resolves to that LID exactly when no newer entry overrules it, and then to the session of the message exactly when the device is the same |
| LidPn.SessionMatchesSend | src/client/lid_pn.rs:101-128 | the session resolver names the session of the send path, always, although it drops agent and integrator |
| LidPn.SessionMatchesReceive | src/client/lid_pn.rs:101-128 | so it names the session of the receive path exactly when no newer entry overrules the mapping |
| LidPn.SameButUser | warp_core/src/types/jid.rs:15-42 | Signal addresses on LIDs that may differ in the user are equal exactly when the users are |
| LidPn.SameButDevice | warp_core/src/types/jid.rs:15-42 | and those that may differ in the device exactly when the devices are |
| LidPn.AddressMeaning | warp_core/src/types/jid.rs:15-42 | user, device unless it is 0, and server, phones being on c.us |
| LidPn.PhoneApartFromLids | warp_core/src/types/jid.rs:36-39 | an unmapped phone shares its session with no LID |

## Left out

- Overflow of `value_start + len` in `warp_core/src/reporting_token.rs:429`, which the source does not check: the sum is mathematical, so a length that would overflow counts as a cut-off field.
- Varint.DecodeVarint: the 64-bit or is written as addition, because the bits combined are disjoint; overflowing bits of the tenth byte are dropped as in the source.
- Key derivation, AES, AES-GCM, HMAC and SHA-256 themselves: any functions with the stated lengths and inverses.
- Retry.RunInv: the retry handlers, like the saver and the request table, are modelled on values as interleaved atomic steps, so the async runtime, locks as objects and aliasing are not captured.
- Retry.RetriesBounded: no cache eviction by age or size and no duplicated receipts; session, base-key and key-bundle handling in the handler after the message is taken are not modelled.
- GroupSend.GroupSender.SendGroupMessage: which devices are skipped, lost keys and failing calls are inputs, not derived from sessions and stores; address conversion between phone numbers and LIDs in a full distribution is the identity, the device resolutions within one send agree, and sends to one group do not overlap.
- LidPn.LidPnCache.Add: adds are sequential; the timestamp check and the write of the source are separate lock sections. Storage of mappings and device-registry migration are not modelled.
- NoiseSocket.Sender.Run: a transport that reports a failed send is taken to have put no bytes on the wire; `DeliveredExactly` rests on the same assumption.
- NoiseSocket.Receiver.ReadChunks: node parsing, early exit on an expected disconnect and the first frame's header on the peer's side.
- Building request nodes and parsing error responses: only ids and waiters matter to the protocol.
- Token key derivation and the HMAC over extracted content, message padding, pairing codes, JID parsing and printing: only easy members.
- HTTP server, bot, storage back ends, transports, app-state sync, Signal ratchets.
