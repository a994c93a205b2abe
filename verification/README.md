# Verified model of an end-to-end encrypted chat node

This project models the chat node in five layers that stack on one another and proves
what they promise together:

- **Wire formats** (`ByteStrings`, `MessageCodec`, `Envelopes`): big-endian, length-prefixed
  encoders that fill a precomputed buffer, and decoders that read with offsets and length checks.
- **Secure channel** (`SecureChannel`, `Handshake`): two cipher states with counter nonces.
  Encrypting and writing are separate steps by any number of senders; writes may fail; the network
  drops, repeats, reorders and forges. The cipher is ideal: a body sealed under a session key
  exists only if it was encrypted, which is what nonce uniqueness (section 3.1 of RFC 5116) buys.
- **Message store** (`ChatStore`): encrypted rows, an expiring plaintext cache, a search index
  and a file table.
- **Node** (`ChatNode`, `Client`, `Authorship`, `AcceptGate`, `Rejection`, `FileTransfers`,
  `SharedTransfers`, `StoredFiles`, `Panics`, `Outbox`): frame dispatch, the acceptance gate,
  authorship, file reassembly, admin requests, connection handling and the outbox, as events over
  one state.
- **Rate limiter** (`RateLimiter`): the token bucket of a session.

`EndToEnd`, `Delivery`, `QueuedFiles`, `Mailing`, `Provenance`, `GateRate` and `NodeSearch` compose the
layers. Operations are functions of the state with theorems about every run; the classes
`MsgLimiter`, `Session`, `MessageStore`, `OutboxStore` and `ChatClient` hold the same state in fields
that their methods update, and each method is proved to compute its function or its effect. `ChatClient` owns a `MessageStore` and sessions with a `MsgLimiter` each.

A Go panic is the outcome `Panicked`, `Panicking` or `Crashed`. Panics in an HTTP request, and
therefore on an inbound session, are recovered by the server: the step keeps what was done so far,
the read loop's clean-up runs and the run goes on. A panic on a session that we dialled, or in a
console loop, ends the process and the run.

## Findings

These properties hold only under a condition; each has a counterexample and the exact condition.

- Rejecting a peer lasts if and only if no handshake of the peer is in flight and its only
  live session is the registered one (`RejectionLastsIff`). A read loop's clean-up deletes by key
  (client/handlers.go:178), so a late clean-up can unregister a newer session, which a rejection
  then does not close (`LateCleanUpDefeatsRejection`).
- Nonces are unique if and only if at most 2^64 frames are encrypted (`NonceUniqueness`). Every run
  of at most N encryptions per side delivers intact prefixes if and only if N < 2^64 (`SafeUpToIff`);
  at 2^64 a replay is accepted (`ReplayAcceptedAfterWrap`).
- Queued signals are sent exactly once, and never after the admin removed them, if and only if every
  send of the run finds its entry in the table and no earlier delete of that entry failed
  (`EverySignalAccountedFor`). Flushes of one peer that do not overlap, while nothing they hold is
  removed and deletes succeed, meet this (`SerialIsPresent`); overlapping flushes send twice
  (`OverlapSendsTwice`), a single flush sends what the admin removed after its listing
  (`RemovedIsSent`), and a failed delete makes the next flush repeat (`FailedDeleteRepeats`).
- If every send finds its entry so, then over any sessions each queued signal is accepted at most once,
  and exactly once if and only if the session it was sent on was in step (`AcceptedOnceIff`).
- Sends to a peer follow creation time in every such serial run if and only if the wall clock does
  not step back between two signals queued for that peer (`OrderIff`).
- Signals that a flush sent and removed reach the peer if and only if everything encrypted before
  them on the session was written, in nonce order; otherwise none does (`FlushArrivesIff`). A failed
  write has used up its nonce and stops its direction for good (`LostFrameBlocks`).
- A file whose failed chunks are queued arrives complete if and only if no chunk was sent after a
  failed one, otherwise the transfer stays open for good; it arrives unaltered if and only if, besides,
  the flush lists the queued bytes in order (`QueuedFileIff`), which entries of one second do not
  promise (`TiesReorder`).
- The first file stored for a transfer is its opener's, whatever other sessions send, if and only if no
  chunk and no metadata of another session comes before the opener's last part (`OwnBytesIff`).
  Transfers are found by identifier alone (client/client.go:452-454, 631-645), so a session that was
  never accepted can fill one (`StrangerFillsTransfer`), and metadata of another accepted session
  resets it without any foreign chunk (`MetadataSpoils`). A stored file keeps its bytes until a
  transfer closes into it, a message with it is deleted or a picture takes its place (`FileStays`).
- A session becomes accepted if and only if the admin accepts its peer, or the peer's own
  `peer_accepted` signal is handled, while it is the registered session (`GateOpensIff`,
  `RecordOpensIff`). A peer that merely connected can therefore accept itself
  (`StrangerAcceptsItself`; client/client.go:573-588).

A session's frames change stored messages at most as often as its limiter had tokens plus whole
intervals (`ChangesAreBounded`). The bound is one of sessions, not of peers: a peer that reconnects
gets a full limiter each time (`ReconnectingIsUnlimited`; client/session.go:109-121). The index lists
a message under its sender's name until it is edited; a peer's edit of its own message lists it under
our name (`EditIsNamedOwn`; client/client.go:743). An info request panics when our own name
or picture does not fit its length field, even before acceptance (`InfoRequestEndsSession`). A picture
in an info response is stored before acceptance too (`PictureReplaces`). The repository's README calls
`key_exchange` a ratchet step; the code derives keys once per session, and the model follows the code.

## Model

| member | source | states |
|---|---|---|
| ByteStrings.FromBEOfBE | message/message.go:31-41 | a number that fits `k` bytes is read back from its `k`-byte big-endian form |
| ByteStrings.BEOfFromBE | message/message.go:256-264 | any `k` bytes are the big-endian form of the number read from them, so length and time fields have one encoding |
| ByteStrings.CopyAt | message/message.go:125-150 | copying a field at the offset keeps what was written before it and appends exactly the field |
| ByteStrings.PutPrefixed | message/message.go:129-133 | a length field and its bytes are appended to what was written before |
| MessageCodec.EncodeAttachment | message/message.go:125-150 | writes exactly the attachment's format at the offset; panics exactly on an over-long name, MIME type or data or a negative size |
| MessageCodec.Encode | message/message.go:193-242 | the precomputed buffer is filled to its last byte with the format; panics exactly on a message with a field outside its limits |
| MessageCodec.EncodedSizeIsLength | message/message.go:121-123 | the sizes added up beforehand are the length of what the attachments encode to |
| MessageCodec.DecodeAttachments | message/message.go:287-295 | a successful loop yields the counted number of attachments, consumes at least 32 bytes for each and stays within the input |
| MessageCodec.ToMessage | message/message.go:244-298 | the decoder with early returns, moving offset and loop computes `DecodeMessage` on every byte string, never reading out of bounds |
| MessageCodec.DecodeAttachmentIff | message/message.go:152-191 | an attachment is decoded at an offset iff it fits and its encoding lies there; the next offset is right behind it |
| MessageCodec.DecodeMessageIff | message/message.go:244-298 | decoding returns `m` after `n` bytes iff `m` is encodable and the first `n` bytes are its encoding: the format is canonical and self-delimiting |
| MessageCodec.RoundTrip | message/message.go:193-298 | every encodable message decodes back to itself, whatever bytes follow |
| MessageCodec.StrictPrefixRejected | message/message.go:248-293 | every strict prefix of an encoding is rejected with an error, not a panic |
| MessageCodec.DecodeMessagePanics | message/message.go:43-48 | decoding panics iff a time field, or a size field behind complete attachments, that it reaches holds at least 2^63 |
| Envelopes.NewSignal | signal/signal.go:53-79 | fills the buffer with marker, type, key, identifier and content; fails exactly on an over-long type or content |
| Envelopes.ParseSignalIff | signal/signal.go:81-109 | a signal is parsed iff it fits and its bytes start the input |
| Envelopes.SignalRoundTrip | signal/signal.go:53-109 | a signal parses back, whatever follows it |
| Envelopes.SignalPrefixRejected | signal/signal.go:82-107 | every strict prefix of a signal is rejected |
| Envelopes.KindOfTypeName | signal/signal.go:17-27 | the nine type names are distinct, so each name leads to its own handler |
| Envelopes.EncodeFileMeta | client/client.go:65-82 | fills the buffer with the metadata format; panics exactly on an over-long name or MIME type or a negative size |
| Envelopes.DecodeFileMetaIff | client/client.go:84-109 | metadata is decoded iff it fits and its bytes start the input |
| Envelopes.DecodeFileMetaPanics | client/client.go:52-57 | decoding panics iff a size of at least 2^63 lies behind a complete name |
| Envelopes.FileMetaPrefixRejected | client/client.go:84-109 | every strict prefix of encoded metadata is rejected without a panic |
| Envelopes.EncodeInfoResponse | client/client.go:151-165 | fills the buffer with the info format; panics exactly on an over-long name or picture |
| Envelopes.DecodeInfoIff | client/client.go:167-189 | an info response is decoded iff it fits and its bytes start the input |
| Envelopes.InfoPrefixRejected | client/client.go:167-189 | every strict prefix of an encoded info response is rejected |
| Envelopes.EncodeKeyExchange | client/session.go:33-51 | fills the buffer with both keys, name and signature; panics exactly on an over-long name or signature |
| Envelopes.DecodeKeyExchangeIff | client/session.go:53-80 | a key exchange is decoded iff it fits and its bytes start the input |
| Envelopes.KeyExchangePrefixRejected | client/session.go:53-80 | every strict prefix of an encoded key exchange is rejected |
| RateLimiter.MsgLimiter.constructor | client/ratelimit.go:16-23 | a new limiter is full and starts counting at its creation |
| RateLimiter.MsgLimiter.TryAllow | client/ratelimit.go:25-51 | the in-place update is one `Allow` step on the bucket; a zero limit panics and changes nothing |
| RateLimiter.RefillClosedForm | client/ratelimit.go:32-44 | a refill gives min(limit, tokens + whole intervals), moves the mark by whole intervals and never past the present |
| RateLimiter.RefillComposes | client/ratelimit.go:37-44 | refilling at two times is refilling once at the later one |
| RateLimiter.RefillAllClosedForm | client/ratelimit.go:29-44 | however often the bucket is observed, only the last observation matters |
| RateLimiter.AllowedBound | client/ratelimit.go:25-51 | from any state, allowed calls are at most the tokens plus the whole intervals elapsed, and tokens stay in 0..limit |
| RateLimiter.FreshBound | client/ratelimit.go:16-51 | a fresh limiter allows at most limit + floor(elapsed / interval) calls in any run |
| RateLimiter.FirstWindowBound | client/ratelimit.go:32-35 | within the first window at most 3 * limit - 1 calls are allowed despite the truncated interval, and at most 2 * limit if the limit divides the window |
| RateLimiter.FirstWindowBoundIsTight | client/ratelimit.go:32-51 | every limit reaches that bound, with window 2 * limit - 1: a burst, then a call each nanosecond |
| RateLimiter.AllowIff | client/ratelimit.go:32-50 | a call is allowed iff a token is left or a whole interval has passed; it takes one token after the refill, and a denied call changes nothing |
| RateLimiter.DenialLosesNothing | client/ratelimit.go:46-50 | what a later refill gives does not depend on denied calls before it |
| RateLimiter.NextTokenComes | client/ratelimit.go:37-50 | from an empty bucket, after any denied calls, the first call a whole interval after the mark is allowed |
| RateLimiter.FrequentCallsReachBound | client/ratelimit.go:25-51 | a burst and then calls that skip no interval are allowed exactly limit + floor(elapsed / interval) times, for every limit and window: the upper bound is reached |
| RateLimiter.AllAllowedIff | client/ratelimit.go:25-51 | a limiter allows every call of a run iff the number of allowed calls is the number of calls |
| RateLimiter.NegativeLimitDeniesAll | client/ratelimit.go:46-50 | a negative limit never allows a call |
| SecureChannel.Session.InstallKeys | client/session.go:181-198 | installs both directions' keys by role and resets both nonces |
| SecureChannel.Session.DoEncrypt | client/session.go:263-285 | seals under the current nonce and advances it modulo 2^64; fails without a key |
| SecureChannel.Session.DoDecrypt | client/session.go:287-323 | accepts exactly a body sealed under its key and its expected nonce, and advances only then |
| SecureChannel.Session.Send | client/session.go:325-344 | the nonce is used up whether or not the write succeeds |
| SecureChannel.Session.CloseConn | client/session.go:374-390 | drops both keys, so nothing encrypts or decrypts afterwards |
| SecureChannel.DecryptSealed | client/session.go:305-322 | a genuine frame is accepted exactly at its own nonce |
| SecureChannel.ChannelSafety | client/session.go:263-344 | in every run, below 2^64 encryptions, what a side accepted is exactly what its peer encrypted under nonces 0 .. nonce - 1, in order, all of it written |
| SecureChannel.AcceptedWasEncrypted | client/session.go:287-323 | however many frames were sent, an accepted plaintext was encrypted by the peer |
| SecureChannel.NonceUniqueness | client/session.go:270-272 | in every run no nonce repeats under one key iff at most 2^64 frames were encrypted |
| SecureChannel.ReplayAcceptedAfterWrap | client/session.go:305-320 | after 2^64 delivered frames a replay of the first one is accepted |
| SecureChannel.SafeUpToIff | client/session.go:270-272 | every run of at most N encryptions per side delivers intact prefixes iff N < 2^64 |
| SecureChannel.LostFrameBlocks | client/session.go:305-307 | a frame that is neither written nor held for writing keeps the peer's nonce at most at its own for the rest of every run |
| SecureChannel.FailedWriteLoses | client/session.go:340-342 | a failed write is such a loss |
| SecureChannel.FifoReceives | client/session.go:287-323 | on a FIFO wire the receiver accepts the first `Progress(w)` plaintexts for written nonces `w` |
| SecureChannel.ProgressIsLongestRun | client/session.go:298-307 | that number is the longest run 0 .. n - 1 embedded in the written nonces |
| SecureChannel.FifoDeliversAllIff | client/session.go:287-344 | everything is accepted iff every frame was written, in nonce order |
| SecureChannel.GapStops | client/session.go:325-344 | of plaintexts sent one after the other, a receiver in step accepts exactly those before the first failed write; one that is behind accepts none |
| Handshake.HandshakeAgrees | client/session.go:200-249 | two honest parties finish, learn each other's identity and name, and hold mirrored cipher states with different keys per direction |
| Handshake.FinishAuthenticates | client/session.go:167-249 | whatever bytes arrive, a finished handshake shares its keys with an offer that the named identity signed itself, and mirrors it |
| Handshake.FinishIff | client/session.go:167-249 | a handshake finishes iff the key exchange read names an identity other than zero and our own, its signature verifies and the key agreement succeeds |
| Handshake.HelloIsRead | client/session.go:141-165 | a signal of any other type is refused; otherwise its fields are read, and the envelope's sender replaces the identity unless it is zero |
| Handshake.HelloNames | client/session.go:123-139 | our own hello is a key exchange that names our identity in the envelope and inside |
| Handshake.ReflectionRefused | client/session.go:172-174 | our own offer sent back to us does not finish a handshake |
| ChatStore.BuildSearchText | message/message.go:300-310 | content and non-empty attachment names joined by spaces |
| ChatStore.SearchTextHolds | message/message.go:300-310 | the indexed text starts with the content, holds every non-empty attachment name behind a space at its place, and nothing else |
| ChatStore.MessageStore.PutWithID | store/chats.go:27-39 | replaces the row and drops its cache entry, or changes nothing on failure |
| ChatStore.MessageStore.Put | message/message.go:329-344 | encodes before a missing identifier is drawn, writes row, index and cache, as `PutStep` |
| ChatStore.MessageStore.LoadPlain | message/message.go:317-327 | cache first, then the row under our secret, which fills the cache |
| ChatStore.MessageStore.Get | message/message.go:346-357 | decodes the plaintext and puts the requested identifier into it |
| ChatStore.MessageStore.Update | message/message.go:359-374 | keeps the stored creation time, stamps the update time, writes only an existing row |
| ChatStore.MessageStore.Delete | message/message.go:376-388 | removes the attachments' files that can be deleted, then row, index entry and cache entry |
| ChatStore.MessageStore.Search | message/message.go:69-92 | reads the messages of the identifiers the index query returned, in order |
| ChatStore.MessageStore.StoreAttachments | message/message.go:50-67 | moves data to the file table in order, clears it in place, stops at the first failing write |
| ChatStore.StoredDataReadable | message/message.go:50-67 | stored attachment data can be read under the identifier left in the attachment |
| ChatStore.StoredFormIs | message/message.go:50-67 | what is left of a stored attachment: its data is cleared, its size is the data's length, its identifier the one of the file |
| ChatStore.StoredDataGoes | message/message.go:376-388 | data stored by `StoreAttachments` and put in a message can be read until that message is deleted, and not afterwards unless its file is kept |
| ChatStore.GetReadsMap | message/message.go:346-357 | on a valid store `Get` returns the abstract map's message or fails, never panics, and changes only the cache |
| ChatStore.UpdateRefines | message/message.go:359-374 | `Update` is the map update with the old creation time; panics exactly if the new message is not encodable |
| ChatStore.DeleteTakes | message/message.go:376-388 | by attachment index: after a delete the file of each attachment of the stored message is kept or gone, every other file stays with its bytes, index entry and row go where their writes succeed |
| ChatStore.StoreRefinesMap | message/message.go:312-388 | any sequence of Put, Get, Update, Delete and expiry, with failing writes, gives the replies and contents of a plain map, and every cached plaintext is its row's |
| ChatStore.IndexRun | store/chats.go:113-128 | with index writes succeeding, after any run index identifiers equal stored ones and show each message's recipient, search text and last sender name |
| ChatStore.SearchRefines | store/chats.go:130-155 | Search returns exactly the first `limit` matching stored messages in identifier order and skips none |
| ChatStore.SearchReturnsFirst | store/chats.go:130-155 | after any run the result is min(limit, matches) stored messages for a positive limit and otherwise all, each matching by sender name, recipient or text, ascending in the bytes of their identifiers, and every match left out comes after all of them |
| ChatStore.PutIsFound | message/message.go:329-344 | a message just stored is found by its sender's name, its recipient or its text |
| ChatStore.DamagedRow | message/message.go:346-388 | a row under another secret, or cut short, is not read and does not panic; a delete takes it but no file, an update replaces it |
| Client.ChatClient.HandleFileChunk | client/client.go:622-647 | the in-place update, with the store object underneath, is `HandleChunk` |
| Client.ChatClient.Finalize | client/client.go:649-668 | stores a non-empty buffer in the store object and closes the transfer even if the write fails |
| Client.ChatClient.Dispatch | client/client.go:420-591 | the switch over signal types, working on the store and session objects, is `HandleSignal`: same panics, and the same state when it panics |
| Client.ChatClient.Handle | client/client.go:670-701 | the gate, the session's limiter object and the dispatch are `HandleDecrypted` |
| Client.ChatClient.VerifyAndUpdate | client/client.go:737-747 | edits, through the store object, only the content of a message of this author |
| Client.ChatClient.VerifyAndDelete | client/client.go:727-735 | deletes, through the store object, only a message of this author |
| Client.ChatClient.ReadLoop | client/handlers.go:175-206 | frames that do not decrypt are skipped, the others are handled in order, and the clean-up runs at the end or after a panic: the loop is a run of exactly the accepted frames and its clean-up, and ends the process only on a dialled session |
| Client.DeliveriesCarry | client/handlers.go:193-204 | the handled frames carry exactly the plaintexts the channel accepted |
| Client.ChatClient.HandleWS | client/handlers.go:28-154 | an inbound connection from its status check to the end of its read loop, creating session and limiter objects, is a run of the event system and never ends the process |
| Authorship.StepChanges | client/client.go:420-473 | every step of the node, recovered panics included, changes the stored messages exactly as read off the event: a write by its sender, an edit, a removal, or nothing |
| Authorship.ChangeIsAuthorised | client/client.go:716-747 | edits and removals come from the message's author, and a write carries the key of its writer |
| Authorship.AuthorIsLastWriter | client/client.go:432-434 | in every run each stored message's author is whoever last wrote its identifier by Message signal or local send |
| Authorship.EditsKeepTheRest | message/message.go:360-363 | however often a message is edited, only content and update time change |
| Authorship.OthersCannotTouch | client/client.go:721-723 | in every run in which its author sends no frame or request on messages and it is not rewritten, a message stays unchanged, whatever connects, expires or is administered |
| Authorship.LocalUpdateChanges | client/api.go:307-330 | a local edit changes only our own message, and only with non-empty content |
| Authorship.LocalDeleteChanges | client/api.go:348-358 | a local delete removes only our own message |
| AcceptGate.MessagesNeedAcceptance | client/client.go:681-696 | a frame changes stored messages only on a live, accepted session and with the limiter's consent |
| AcceptGate.TransfersNeedAcceptance | client/client.go:442-454 | a step opens or resets a transfer only by metadata that passed the gate; other open transfers only grow |
| AcceptGate.OpenTransfersWereGated | client/client.go:452-454 | in every run each open transfer was opened by metadata that passed the gate |
| AcceptGate.FilesNeedAcceptance | client/client.go:697-699 | an ungated chunk changes the file table only if metadata for its identifier passed the gate before |
| AcceptGate.FilesChangeBy | client/client.go:523-559 | a frame changes the file table only by a chunk of an open transfer, a handled delete by the author, or a picture of a known peer, which needs no acceptance |
| AcceptGate.GateOpensIff | client/client.go:573-588 | an existing session becomes accepted iff the admin accepts its peer or the peer's acceptance is handled, while it is the registered one |
| AcceptGate.RecordOpensIff | client/peer.go:110-121 | a peer's record becomes accepted iff the admin accepts it, we dial it for the first time, or its own acceptance is handled |
| AcceptGate.NewSessionStatus | client/peer.go:99-188 | sessions begin exactly by a successful handshake and by dialling another key without one; the new session is the registered one, with a full limiter and the status of the peer: the recorded one, or pending for an unknown peer |
| AcceptGate.FinishRegisters | client/handlers.go:118-135 | a finished inbound handshake adds one session with the status its peer had when it was let in; a failed one adds none |
| AcceptGate.DialRegisters | client/peer.go:105-135 | dialling an unknown peer records it as accepted and starts a pending session, dialling a known one starts a session with its record; an existing session is kept |
| AcceptGate.NewConnectStatus | client/handlers.go:60-84 | a handshake starts exactly when another peer connects that is not rejected and has no session; it carries the recorded status, and an unknown peer is recorded as pending |
| AcceptGate.GatedTypesDoNothing | client/client.go:681-689 | before acceptance, a signal of any type but the four info and acceptance types changes nothing at all |
| AcceptGate.AcceptanceHasSource | client/client.go:573-588 | in every run from a node without peers, an accepted session belongs to a peer vouched for by an admin accept, a first dial or a handled `peer_accepted` frame of its own |
| AcceptGate.StrangerAcceptsItself | client/client.go:681-684 | a run in which a stranger that connected accepts itself, with no admin accept and no dial |
| Rejection.RejectionLastsIff | client/api.go:579-593 | after rejecting a known peer, every run without a later accept or dial leaves it without a live session iff the node was settled about it |
| Rejection.RefusedFramesDoNothing | client/handlers.go:74-78 | in such runs frames on the peer's sessions change nothing |
| Rejection.LateCleanUpDefeatsRejection | client/handlers.go:177-183 | a run that ends with a rejected peer holding a live, accepted session |
| Rejection.DisconnectCloses | client/api.go:119-135 | disconnecting closes and unregisters the peer's registered session and touches no record and no other session |
| Rejection.DisconnectedMayReturn | client/handlers.go:61-135 | a disconnected peer that connects again gets a live session with the status it had |
| Rejection.RejectedMayNotReturn | client/handlers.go:74-78 | a rejected peer's next connect starts no handshake |
| FileTransfers.SendFile | client/client.go:283-325 | metadata first, then one chunk per non-empty read; failed chunks are queued in order; stops at a failing queue write, reports a failing read, panics exactly on metadata that does not fit |
| FileTransfers.ChunksSplit | client/client.go:305-311 | sent and queued chunks together are exactly the file's chunks, none dropped, altered or doubled |
| FileTransfers.AllChunksSent | client/client.go:298-317 | without failures every chunk is sent, in order |
| FileTransfers.TransfersOkRun | client/client.go:640-646 | after every run each open transfer has received equal to its buffer length, and below the declared size once data arrived |
| FileTransfers.TransferOutcome | client/client.go:622-668 | whatever chunks arrive from whatever sessions: at most one finalization, with exactly the data up to the chunk that reaches the declared size; later chunks are dropped |
| FileTransfers.PartialTransfer | client/client.go:631-645 | before the declared size is reached, any interleaving leaves the transfer open with exactly the data so far |
| FileTransfers.CompleteTransfer | client/client.go:644-655 | chunks adding up to the declared size finalize the transfer exactly once with exactly their bytes, whatever is interleaved |
| FileTransfers.UntouchedTransfer | client/client.go:298-317 | a transfer without chunks, as of a zero-length file, never closes |
| FileTransfers.MetaFrameOpens | client/client.go:442-454 | the sender's metadata frame, admitted, opens a fresh transfer with its metadata |
| FileTransfers.ChunkFrameCarries | client/client.go:301-304 | a chunk frame is never taken for a signal and carries its data to its transfer |
| FileTransfers.FinalizeStoresAttachment | client/client.go:656-663 | finalizing is storing the single attachment built from the transfer |
| FileTransfers.FileTransferDelivers | client/client.go:622-668 | from the sender's metadata frame to the last chunk, through any other events: finalized on the last chunk, not before, and the stored file is exactly the bytes sent |
| SharedTransfers.OwnBytesIff | client/client.go:442-454 | the first file stored is the opener's, whatever others put into their chunks and metadata, iff nothing of another session comes before the opener's last part |
| SharedTransfers.RunFollowsItems | client/client.go:622-668 | every run, with chunks of any session and admitted metadata for the identifier as its items, finalizes exactly the files those items say |
| SharedTransfers.OpenersFileInRun | client/client.go:631-645 | in a run, with items marked by the keys of their sessions: undisturbed, the opener's parts are the first file finalized |
| SharedTransfers.StrangerFillsTransfer | client/client.go:697-699 | one chunk from a session that is not accepted finishes another peer's transfer with its own bytes |
| SharedTransfers.MetadataSpoils | client/client.go:452-454 | a run without foreign chunks in which metadata of another accepted session leaves only the opener's last part as the file |
| StoredFiles.FileStays | store/files.go:24-34 | over every run a stored file keeps its bytes unless a transfer closes into it, its author deletes a message with it, or a picture takes its place |
| StoredFiles.ClosingOverwrites | client/client.go:656-663 | a transfer that closes overwrites the file under its identifier |
| StoredFiles.PictureReplaces | client/client.go:523-559 | a known peer's picture, even before acceptance, is stored under the drawn identifier and remembered, its earlier picture goes unless kept, every other file stays |
| Panics.FramePanicsIff | client/client.go:670-701 | for every valid node: a frame panics iff it asks a limiter with limit zero, or the signal it hands over overflows a 64-bit field, edits its author's message before 1970, or requests our name and picture when they do not fit |
| Panics.FrameCrashesIff | client/peer.go:147-164 | a frame ends the process iff it panics on a session that we dialled |
| Panics.PanicClosesSession | client/handlers.go:175-184 | a panic on an inbound session closes that session and changes no message, file, transfer, peer record or other session |
| Panics.InfoRequestEndsSession | client/client.go:492-516 | before acceptance an info request ends an inbound session iff our name, as last set, or our picture does not fit |
| Panics.CrashesIff | client/client.go:263-282 | the events that end the process: a panicking frame on a dialled session, and an over-long message from the console |
| Outbox.OutboxStore.Put | store/outbox.go:31-47 | adds a fresh entry with the current second and no retries, or nothing if the insert fails |
| Outbox.OutboxStore.Flush | client/client.go:361-388 | over the session object: the frames written carry a prefix of the listing under consecutive nonces; row by row, sent entries whose delete succeeds go, only the first failure has its retry count increased by one if its update succeeds, all other entries stay |
| Outbox.NothingIsLost | client/client.go:379-387 | in every run, however flushes and removals overlap, each queued signal is in the table, sent or removed, and unaltered but for its retry count |
| Outbox.RetriesAreFailures | store/outbox.go:118-124 | in every run an entry's retry count is the number of its failed sends whose update succeeded |
| Outbox.OnceEachIff | client/client.go:379-387 | in every run, however flushes and removals overlap and whichever deletes fail, nothing is sent twice or after its removal iff every send finds its entry in the table and no earlier delete of it failed |
| Outbox.EverySignalAccountedFor | client/client.go:327-388 | from the empty outbox each queued signal is waiting, removed, or sent exactly once, iff every send finds its entry waiting |
| Outbox.SerialIsPresent | client/client.go:361-388 | runs whose flushes of one peer do not overlap, that remove nothing a flush holds and whose deletes succeed meet that condition |
| Outbox.OrderIff | store/outbox.go:39-52 | every serial run with given queue times for a peer sends to it in creation order iff the times do not step back |
| Outbox.OverlapSendsTwice | client/client.go:361-388 | two overlapping flushes send one signal twice |
| Outbox.RemovedIsSent | client/api.go:431-443 | a single flush sends a signal that the admin removed after its listing |
| Outbox.FailedDeleteRepeats | client/client.go:384-386 | after a failed delete the next flush sends the signal again |
| Outbox.ClockStepBreaksOrder | store/outbox.go:39-52 | for any times that step back there is a serial run that sends two signals out of creation order |
| EndToEnd.SendMessageToPeer | client/client.go:335-359 | stores the message; writes its signal only if the session registered under the target is accepted, and otherwise writes nothing and the outbox holds one more entry for the target, unless the insert fails; reports a failing write, insert or over-long payload |
| EndToEnd.MessageThenAccept | client/client.go:350-388 | a message to a peer not accepted yet waits; after the admin's accept a flush over any listing writes it exactly once, unless an earlier write of the flush fails, when it stays queued |
| EndToEnd.MessageArrives | client/client.go:420-436 | a message frame that the limiter of an accepted session admits, by a token or a refill, stores exactly the message sent and changes nothing else but that limiter |
| EndToEnd.AcceptedPeerIsHeard | client/handlers.go:69-131 | an accepted peer without a session that connects, or that we dial, has its first message stored |
| EndToEnd.MessageDelivered | client/client.go:335-359 | encrypted, decrypted, admitted and stored, a message is read back by its identifier with every field as sent and the sender's key as author |
| EndToEnd.ConversationDelivered | client/client.go:670-696 | from any nonce in step, over a loss-free wire, a sequence of messages of any length whose frames the limiter admits is decrypted in order, and the last message of every identifier is read back as sent |
| GateRate.LimiterInRun | client/client.go:691-696 | in every run a session's limiter is asked once for each signal while the session is accepted, by nothing else, and admits what the bucket allows |
| GateRate.ChangesAreBounded | client/ratelimit.go:25-51 | in every run a session's frames change stored messages at most as often as it had tokens plus whole intervals elapsed |
| GateRate.ReconnectingIsUnlimited | client/session.go:109-121 | an accepted peer that reconnects for each message has any number of messages stored at one instant, whatever the limit |
| NodeSearch.NamesStep | client/client.go:420-473 | every step of the node keeps the index in agreement with the messages: a write lists its sender's name, an edit lists our own, a removal drops the entry |
| NodeSearch.SearchInRun | store/chats.go:130-155 | after any run of the node a search finds exactly the matching messages by those names, recipients and texts, or the first of them |
| NodeSearch.PeerIsNamed | client/client.go:431-434 | an admitted message of a peer is listed under the peer's display name |
| NodeSearch.EditIsNamedOwn | client/client.go:737-747 | a peer's edit of its own message is listed under our name |
| NodeSearch.SenderIsNamed | client/client.go:335-339 | our own message is listed under the name we had last set |
| Provenance.StoredWasEncrypted | client/client.go:420-473 | in every run of a node and the channels of its sessions over a dropping, repeating, reordering, forging network: a stored message is our own, or the peer with its author's key encrypted it and its present content |
| Delivery.FlushArrivesIff | client/client.go:379-387 | signals that a flush sent and removed arrive iff everything before them was written in nonce order; otherwise none of them does |
| Delivery.SignalArrivesIff | client/session.go:287-344 | under any interleaving of senders the k-th signal arrives iff the nonces 0 .. k were written in that order |
| Delivery.ArrivingIsFileIff | client/client.go:305-311 | chunks before the first failure and the queued ones together are the file iff no chunk was sent after a failed one; otherwise they are shorter |
| Delivery.InterruptedTransfer | client/client.go:622-668 | through any other events, the receiver of an interrupted file finalizes it unaltered iff no chunk was sent after a failed one; otherwise the transfer stays open with what arrived |
| Delivery.InterruptedFile | client/client.go:283-325 | the same from the sender's frames, spelled out: a session with failed sends, anything in between such as clean-up and reconnect, and a later session that flushes the queued chunks in order |
| QueuedFiles.QueuedFileIff | client/client.go:361-388 | with the outbox table in between, any listing of it and any other events around the chunks: a file is finalized iff no chunk was sent after a failed one, and is the sender's iff the listing keeps the queued bytes in order, as it does without ties |
| QueuedFiles.TiesReorder | store/outbox.go:49-52 | two chunks queued in one second may be listed either way, and the file ends up reversed |
| Mailing.AcceptedOnceIff | client/client.go:361-388 | if every send finds its entry waiting: over sessions that come and go, other senders and failed writes, each queued signal is accepted at most once, and exactly once iff the session it was sent on was in step |
| Mailing.ArrivedIff | client/session.go:287-344 | a sent signal is accepted, unaltered, iff everything up to it was written in nonce order |
| Delivery.FileDelivered | client/client.go:283-325 | from any nonce in step, over a loss-free session, the frames of a file are decrypted in order and leave exactly its bytes in the receiver's file table |

## Left out

- Cryptographic primitives (AES-GCM, Ed25519, X25519, SHA-256): ideal bodies and keys, or parameters of the handshake.
- SQLite itself: tables are maps, `LIKE` is a parameter, rows come in the order a query promises, and reads never fail; only writes may.
- Cache timing: expiry is an event that drops any entries; the three accesses of `loadPlain` are one step.
- Data races inside one frame, connect or admin request: each is one step; a read loop's clean-up and the two halves of a connect are separate steps.
- The key in the connect URL: peers dial with their own key (client/peer.go:77), so it equals the handshake key.
- A restart after the process ended: the run stops there.
- Profiles and nicknames beyond our own name, the names that info responses set, peer addresses and last-seen times; our own profile picture is what the file table returns when it is read.
- Failing writes to the peer table: records and the pictures named in them are always updated.
- Table columns `created_at` of messages and files, and the outbox's metadata columns.
- Overflow of Go's 64-bit `int` in the limiter after some 292 years, and slice lengths above 2^63.
- WebSockets, TLS, HTTP routing, deadlines, pings, stdin loops, logging, key files, flags and the UI.
- Dialling, accepting, rejecting and disconnecting as in-place updates: they are functions of the node, because as methods they would only repeat those functions.
- SecureChannel.Session.CloseConn: drops the keys in one step; it does not model that the source zeroes key bytes which a concurrent `encrypt` may still hold.
- ChatStore.MessageStore.Search: takes the identifiers of the index query as an argument, because the database orders and limits them.
- Client.ChatClient.ReadLoop: no event of another session or the admin falls between its frames; such interleavings are runs of `ChatNode`.
- Client.ChatClient.HandleWS: like `ReadLoop`, without events in between.
- Outbox.OutboxStore.Flush: takes the listing as an argument and has no interference; interleaved flushes are the events of the same module.
- EndToEnd.MessageThenAccept: nothing else happens between the message, the accept and the flush.
- Delivery.InterruptedFile: the flushed chunks come one after the other in queue order; every other order and interleaving is in `QueuedFileIff`.
- SharedTransfers.OwnBytesIff: a file of exactly 2^63 - 1 bytes, for which no longer one can be announced; no Go slice holds it together with its frame.
