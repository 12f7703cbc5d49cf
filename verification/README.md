# The chat system's protocols, modelled and proved

A Dafny model of the parts of this repository whose correctness is an argument over whole runs:
the sender-key protocol of group rooms, encrypted file streams and the file vault, the hub's
membership and access control, and a few smaller algorithms with a history. `dafny verify
dfyconfig.toml` checks all of it.

The model takes the form of the code. Where the Go code changes objects step by step there is a
class whose methods do the same to the same fields, and whose contracts tie each new state to a
function on the abstract value. The theorems are about those functions and about runs of them.

| module | what it models |
|---|---|
| `Prelude` | machine integers, optional values |
| `Ratchets` | the symmetric ratchet: `Chain` is its abstract value (seed, next step, steps already handed out), `Ratchet` the object, including the key memory that `initialKey` and `chainKey` first share |
| `SenderKeys` | one chain per nick on the heap; `myChain` and the own nick's entry are one object |
| `IdentityPins` | trust on first use: pins, disputes, blocked sending |
| `Slices` | a Go slice as a window of a shared backing array |
| `ChatProtocol`, `ChatClient` | one member's reaction to `EPOCH`, `SENDER_KEY`, chats and writes, as functions and as the client object |
| `GroupRuns` | runs of many honest members over a hub that drops, delays, repeats, reorders, and rewrites the claimed sender and step |
| `Adoptions` | what holds from one adoption of a seed to the next |
| `Secrecy`, `Rotation` | who can read what in a group's run, and that rotation locks a removed client out |
| `Delivery` | from the seed to the screen: what opens, what waits, what is held back |
| `Wire`, `Frames` | byte streams, length-prefixed frames, handshake replies |
| `FileStream`, `FileTheorems`, `FileTampering` | chunked encryption of a file, its reader, round trips, tampering |
| `Vault`, `VaultTheorems` | upload and download over the chat session |
| `Hub`, `HubRuns`, `Membership`, `HubServer`, `HubVault` | admission, approval, blocking, grants, kicks, restarts, the epochs they send: as functions, over all runs, as objects, and together with the vault |
| `RateLimit`, `ProofOfWork`, `DiskQueues` | the window limiter, the handshake puzzle, the queue file |

That a kicked client does not decrypt new traffic once members have rotated (docs/THREAT_MODEL.md:39) is
`Rotation.RotationLocksOut`; `Secrecy.RemovedReadsOnlyOldSeeds` has the exact condition, and
`Membership.MembershipChangesRotate` says when the hub tells the members to rotate.

Assumptions, all visible in the statements that use them:

* Ratchet keys are symbolic. A key is raw bytes or an HMAC tag, and tags are equal only if key and
  label are; so message keys and chain keys never collide.
* A chat ciphertext opens under the key it was sealed with and under no other. In `GroupRuns` the
  hub cannot seal, and new seeds are 32 bytes that were never a seed before.
* File encryption is a parameter (`FileStream.Suite`). `Lawful` says that it opens what it sealed and adds 28
  bytes; the tampering theorem assumes in addition that nothing is forged (`NoneForged`).
* Hash, JSON and protobuf codecs, nonces and random tokens are parameters as well.

Where code and documentation disagree, the model follows the code:

* README.md:21 and docs/ARCHITECTURE.md:24 promise 20 messages per second. The window is fixed, not sliding, so 39 are
  possible within one second (`RateLimit.BoundIsReached`), and never more (`RateLimit.RateBound`).
  `RateLimit.LimitKeptExactlyWhen` says from which times on 20 is kept.
* README.md:18 says the first member stays admin across hub restarts. Its key is remembered as an
  admin's but, after automatic approval, is not whitelisted; on a hub restarted without automatic
  approval it has to wait like anyone else (`HubRuns.FirstAdminHasToWait`). `HubRuns.ReturnsAfterRestart`
  says exactly who is let in again.
* docs/THREAT_MODEL.md:53 and 67 say the vault token is issued once at hub start and lives in the ACL
  file. That holds once the file server is up (`HubRuns.TokenOfNormalStartIsSaved`). The hub accepts
  connections without waiting for it, and goes on if it finds no free port; then an epoch bump makes
  the token and does not save it (`HubRuns.FirstTokenIsLost`). `HubRuns.RestartKeepsToken` says exactly when a
  restart keeps it.
* internal/client/core.go:1153-1160: a stale message in the waiting queue can use up the key of a good one
  (`Adoptions.StaleMessageSpendsKey`); `Adoptions.FlushIsComplete` says exactly when none is lost.
* internal/client/core.go:737-755: a download that misses chunks in the middle still reports success
  (`VaultTheorems.LossIsSilent`, again with the exact condition; `VaultTheorems.LossCouldBeSeen`: the
  announced number would show it).

## Model

| member | source | states |
|---|---|---|
| `Ratchets.Kdf` | internal/crypto/ratchet.go:34-44 | the message key and the next chain key derived from one chain key are never the same key |
| `Ratchets.ChainKeysInjective` | internal/crypto/ratchet.go:34-44 | a chain key determines its seed and its position: chains of different seeds never meet, and none loops |
| `Ratchets.MessageKeysInjective` | internal/crypto/ratchet.go:34-44 | a message key determines its seed and its step |
| `Ratchets.NoStepTwice` | internal/crypto/ratchet.go:51-99 | over any calls of `Next` and `GetMessageKey` together no step's key is handed out twice nor one spent before; each key given is one more spent step; a call moves the chain by at most 101 |
| `Ratchets.NoKeyTwice` | internal/crypto/ratchet.go:51-99 | the keys given by any two calls in one ratchet's life differ as keys |
| `Ratchets.Conservation` | internal/crypto/ratchet.go:51-99 | after any calls, chain advances = keys handed out + skipped keys still cached |
| `Ratchets.SentInOrder` | internal/crypto/ratchet.go:51-62 | the sender's keys are those of consecutive steps, whatever is received in between |
| `Ratchets.ReceivedAllGranted` | internal/crypto/ratchet.go:65-99 | from any two states of one seed's chains: a schedule can be followed iff every request is answered with the right key and none precedes its sending |
| `Ratchets.TwoPartyAgreement` | internal/crypto/sender.go:47-89 | after adopting the exported seed, on any interleaving without requests ahead of sending: every receive gets the key the sender used for that step if and only if no step is asked for twice or from more than 100 ahead |
| `Ratchets.CacheHolds` | internal/crypto/ratchet.go:65-99 | the skipped-key cache has exactly the unspent steps behind the chain, each with its own key |
| `Ratchets.CacheSpends` | internal/crypto/ratchet.go:65-99 | handing out a step removes that entry and no other |
| `Ratchets.Ratchet.constructor` | internal/crypto/ratchet.go:22-31 | a new ratchet stands for the unused chain of its seed, with both key references into one buffer |
| `Ratchets.Ratchet.GetInitialKey` | internal/crypto/ratchet.go:47-49 | always the seed, however far the chain key has moved, although both began as one buffer |
| `Ratchets.Ratchet.Next` | internal/crypto/ratchet.go:51-62 | hands out the next step's number and key and spends that step |
| `Ratchets.Ratchet.GetMessageKey` | internal/crypto/ratchet.go:65-99 | succeeds iff the step is unspent and at most 100 ahead, then with that step's key and with everything skipped cached; a refusal changes nothing |
| `SenderKeys.SenderState.DistinctRatchets` | internal/crypto/sender.go:8-28 | in a valid state no two nicks share a ratchet object, and only the own nick's entry can be `myChain` |
| `SenderKeys.SenderState.constructor` | internal/crypto/sender.go:17-28 | `myChain` and the own entry are one object iff the seed is not empty |
| `SenderKeys.SenderState.ResetEpoch` | internal/crypto/sender.go:36-45 | all peers are gone and the own chain is new; with an empty seed the old own chain stays but leaves the table |
| `SenderKeys.SenderState.AdoptPeer` | internal/crypto/sender.go:47-51 | one entry becomes a new chain at step 0; all others stay; the aliasing survives iff the nick is another's |
| `SenderKeys.SenderState.ExportMySeed` | internal/crypto/sender.go:53-62 | the seed the current own chain was made of, at whatever step that chain is |
| `SenderKeys.SenderState.NextSend` | internal/crypto/sender.go:64-72 | the own chain's next step and key; by its frame no peer's ratchet moves |
| `SenderKeys.SenderState.Recv` | internal/crypto/sender.go:81-89 | answers from the named chain as that chain grants; by its frame no other ratchet moves |
| `IdentityPins.PinsAreOfHistory` | internal/client/identity_store.go:59-92 | for every history, the pin of a nick is the key of its latest effective trust, else the file's, else its first check's; in dispute is the key of its latest check since, where that differs; all read off the history |
| `IdentityPins.TrustSettles` | internal/client/identity_store.go:59-92 | trusting the key in dispute pins it, and seeing it again is no dispute |
| `IdentityPins.ReopeningKeepsPins` | internal/client/identity_store.go:26-43 | closing and opening again after any history keeps every pin and forgets every dispute |
| `IdentityPins.BlockedIffDisputed` | internal/client/identity_store.go:46-50 | sending chats and private messages is blocked iff some nick's latest check since its last effective trust contradicts its pin |
| `IdentityPins.PinsChangeOnlyByTrust` | internal/client/identity_store.go:59-92 | a pin never disappears and differs after a history only if an effective trust of that nick is in it |
| `IdentityPins.IdentityStore.constructor` | internal/client/identity_store.go:16-31 | pins come from the file, disputes start empty |
| `IdentityPins.IdentityStore.HasMismatch` | internal/client/identity_store.go:46-50 | whether any nick is in dispute |
| `IdentityPins.IdentityStore.Trust` | internal/client/identity_store.go:59-71 | takes the given or else the disputed key, pins and saves it and ends the dispute; without one it changes neither memory nor file |
| `IdentityPins.IdentityStore.Check` | internal/client/identity_store.go:73-92 | pins and saves an unknown nick, records or clears a dispute for a known one, and tells which |
| `ChatProtocol.Push` | internal/client/core.go:1122-1133 | the newest message is always kept and the queue never exceeds 65 |
| `ChatProtocol.FilterKeepsAll` | internal/client/core.go:1135-1147 | splitting the queue by sender loses and invents nothing, and each part has only what belongs there |
| `ChatProtocol.FilterSnoc` | internal/client/core.go:1135-1147 | both parts of the split keep the order of arrival |
| `ChatClient.QueuePending` | internal/client/core.go:1122-1133 | the slice, outgrowing its array or not, holds the queue with the message added and the oldest dropped beyond the limit |
| `ChatClient.TakePending` | internal/client/core.go:1135-1147 | compacting in place over the array being read yields exactly the other senders' messages, in order, and hands back exactly the sender's, in order |
| `ChatClient.Client.constructor` | internal/client/core.go:134-311 | a client starts in epoch 1 with its own chain only and nothing waiting |
| `ChatClient.Client.PublishSenderKey` | internal/client/core.go:1166-1179 | offers the current own chain's seed |
| `ChatClient.Client.FlushPending` | internal/client/core.go:1135-1164 | on the heap: the sender's messages are tried in order of arrival against that sender's chain alone, the ones that open are shown, the queue keeps the rest; without a chain they are dropped |
| `ChatClient.Client.OnEpoch` | internal/client/core.go:387-402 | a new own chain, no peers, what waits stays, the seed on offer is the new one |
| `ChatClient.Client.OnSenderKey` | internal/client/core.go:403-410 | adopts the seed at step 0 and then tries what waited for it; a seed that does not decode, or the own one, changes nothing |
| `ChatClient.Client.OnMessage` | internal/client/core.go:411-428 | shown as opened, failed, waiting or unchanged, just as the sender's chain answers; waits and offers the own seed iff no key was given |
| `ChatClient.Client.Write` | internal/client/core.go:1060-1108 | a chat or private message is held back iff an identity is in dispute; a text spends the own chain's next step at the moment of writing, everything else leaves the chain alone |
| `GroupRuns.OpenedIsAuthentic` | internal/client/core.go:414-420 | if a sealed text opens under a peer's chain, that peer sealed it at the claimed step |
| `GroupRuns.StepKeeps` | internal/client/core.go:387-428 | every step of a run (joins, leaves, epochs, stale or repeated seeds, late writes, flushes) keeps the invariant |
| `GroupRuns.GroupAuthenticity` | internal/client/core.go:387-428 | in every run, whatever a member is shown as decrypted was sealed, as that text, by the sender and at the step the message claims |
| `GroupRuns.NoKeyReuse` | internal/client/core.go:1075-1086 | in every run, over all members and epochs, no two texts are sealed under one key |
| `GroupRuns.PendingBounded` | internal/client/core.go:1122-1133 | in every run no member holds back more than 65 messages |
| `Secrecy.MessageKeyDerivable` | internal/crypto/ratchet.go:34-44 | by any derivations whatsoever, a message key can be computed from a set of seeds iff its own seed is among them |
| `Secrecy.HeardIsOwned` | internal/client/core.go:403-410 | all a connection is ever told are seeds that members made |
| `Secrecy.ReadersAreHearers` | internal/client/core.go:403-428 | in every run, the key of a sealed text can be computed by exactly those who had its seed |
| `Secrecy.AbsentHearsNothing` | internal/server/core.go:511-534 | whoever is gone and does not join again hears of no further seed |
| `Secrecy.RemovedReadsOnlyOldSeeds` | internal/server/core.go:511-534 | a removed client can compute the key of what is sealed later iff it had the seed before it was gone; of nothing sealed under a seed made since |
| `Rotation.OwnSeedIsLatest` | internal/client/core.go:396-399 | in every run, whoever is connected seals under the seed of its latest join or epoch, read off the steps |
| `Rotation.EpochCountsEpochs` | internal/crypto/sender.go:36-45 | in every run, the epoch number counts the epochs since the member joined, modulo 2^64 |
| `Rotation.NoStepSkipped` | internal/crypto/sender.go:64-72 | in every run, each step a member's chain has passed sealed a text of that member; with `NoKeyReuse`, exactly one |
| `Rotation.RotationLocksOut` | internal/client/core.go:387-402 | a client is removed, everyone left then has an epoch: of all that is sealed from then on it can compute no key from all the seeds it ever had |
| `Adoptions.FlushOnceEach` | internal/client/core.go:1148-1163 | a flush opens each message under its own step's key and spends every step it opens |
| `Adoptions.InputsOnceEach` | internal/client/core.go:387-428 | until a peer's seed comes again, over any chats, other seeds with their flushes, epochs and own writes: the messages of that peer that open all have different, previously unspent steps, and none opens without a chain |
| `Adoptions.NoReplay` | internal/client/core.go:387-428 | from one adoption on, flush included, until that peer's seed comes again, no ciphertext and no step of the peer opens twice, whatever else happens |
| `Adoptions.ReplayAfterReadoption` | internal/crypto/sender.go:47-51 | across adoptions that does not hold: a message opens again iff the seed adopted is the one it was sealed under and the new chain, after what waited was tried, grants its step |
| `Adoptions.OpensExactlyWhenGranted` | internal/client/core.go:411-428 | a message sealed under the adopted seed opens iff its step is unspent and in the window; otherwise it waits |
| `Adoptions.WrongKeyNeverOpens` | internal/client/core.go:414-428 | a text sealed under another seed (a wrong epoch) or at another step never opens, neither on arrival nor from the queue |
| `Adoptions.FlushIsComplete` | internal/client/core.go:1148-1163 | all that waits opens, in order, if and only if each message was sealed under the adopted seed at an unspent step of its own in reach |
| `Adoptions.StaleMessageSpendsKey` | internal/client/core.go:1153-1160 | one stale message ahead of a good one of the same step makes the good one vanish |
| `Delivery.ChatOutcome` | internal/client/core.go:411-428 | what becomes of a chat in terms of how it was sealed: passed on, waiting with the own seed offered, opened, or failed; in the last two cases its step is spent |
| `Delivery.NewestWait` | internal/client/core.go:1122-1133 | however many messages have to wait, the newest 65 do, in order of arrival |
| `Delivery.SeedTakesItsOwn` | internal/client/core.go:1135-1147 | a peer's seed takes that peer's messages out of the queue and leaves every other sender's, in order |
| `Delivery.KeepsWaiting` | internal/client/core.go:387-428 | a waiting message goes on waiting over other peers' seeds, epochs, own writes and as many chats as the queue has room for |
| `Delivery.EarlyChatIsDelivered` | internal/client/core.go:403-428 | a chat that comes before the seed it was sealed under opens when that seed comes, before all others of its sender, after anything but that sender's seeds and up to 64 more chats |
| `Delivery.TextsOpenInOrder` | internal/client/core.go:1075-1086 | while receiver and sender stand at the same step, every text written is shown as that text, in order |
| `Delivery.EpochThenTexts` | internal/client/core.go:387-410 | an epoch makes the member offer one thing, which goes out as its new seed under its own nick; whoever gets it is shown every text written from then on |
| `Delivery.DisputeHoldsBack` | internal/client/core.go:1060-1068 | for every history of checks and trusts: chats and private messages are held back, and spend nothing, exactly while a peer's key is in dispute; all else goes out |
| `Wire.Uint32RoundTrip` | internal/protocol/protocol.go:126-154 | a length written big-endian is read back |
| `Wire.NetworkOrder` | internal/protocol/protocol.go:126-154 | lengths and indices go out most significant byte first |
| `Frames.SendFrame` | internal/protocol/protocol.go:126-138 | writes exactly one frame, or nothing if the payload is too large |
| `Frames.ReadFrame` | internal/protocol/protocol.go:140-154 | the first frame's payload or the right error, with the rest of the stream left as it is |
| `Frames.FramesRoundTrip` | internal/protocol/protocol.go:126-154 | any frames sent are read back in order, and what follows them is untouched |
| `Frames.FramesUnique` | internal/protocol/protocol.go:126-154 | a stream starts with the frames of at most one payload sequence of a given length |
| `Frames.TruncatedFrameFails` | internal/protocol/protocol.go:140-154 | no proper prefix of a frame yields a payload; the reported end is a clean one only before a frame or right behind its header |
| `Frames.OversizedFrameRefused` | internal/protocol/protocol.go:140-154 | a frame that announces more than the limit is refused before any of it is read |
| `Frames.ErrorRepliesUnderstood` | internal/protocol/protocol.go:71-91 | an error reply is understood iff its reason is not empty, and never as an acceptance |
| `Frames.AcceptancesUnderstood` | internal/protocol/protocol.go:58-64 | an acceptance is understood as what it says iff it says anything that is marshalled, and never as an error |
| `Frames.RepliesDisjoint` | internal/protocol/protocol.go:58-83 | no frame is both an acceptance and an error |
| `FileStream.ChunkAADInjective` | internal/crypto/chunk.go:40-45 | the associated data determines file and index |
| `FileStream.ContentKeysDiffer` | internal/crypto/chunk.go:24-30 | with tokens of one length, different tokens or files share a content key only through a hash collision |
| `FileStream.CutShape` | internal/crypto/stream.go:11-40 | ceil(length / 64 KiB) chunks, full but for the last, none empty, that join to the file |
| `FileStream.EncryptReaderTo` | internal/crypto/stream.go:11-40 | through one reused buffer and a wrapping 32-bit index, appends exactly the file's encoding |
| `FileStream.ReadRecord` | internal/crypto/stream.go:45-60 | one record, the terminator, or the error, and the exact rest |
| `FileStream.DecryptReaderTo` | internal/crypto/stream.go:42-69 | output, unread rest and error of decoding, for every input |
| `FileTheorems.ParseInvertsRecords` | internal/server/core.go:956-971 | any reader of the format recovers the records written, under any limit they fit, and goes on behind them |
| `FileTheorems.HeadersUnambiguous` | internal/crypto/stream.go:11-69 | every record fits both readers' limits and none begins like the terminator |
| `FileTheorems.StreamRoundTrip` | internal/crypto/stream.go:11-69 | decryption inverts encryption for every file and consumes exactly what was written |
| `FileTheorems.UnterminatedStream` | internal/crypto/stream.go:42-69 | without the terminator all of the file is written and then reading fails |
| `FileTheorems.OneParserTwoProducers` | internal/server/core.go:918-972 | the vault's reader finds the same records in both producers' output, which differ by the terminator alone |
| `FileTampering.CommonIsLongest` | internal/crypto/stream.go:42-69 | the prefix the tampering theorem speaks of is the longest common one |
| `FileTampering.OpensOnlyInPlace` | internal/crypto/chunk.go:18-21 | unforged, only the i-th ciphertext opens as chunk i |
| `FileTampering.DecodeWritesOpened` | internal/crypto/stream.go:42-69 | decoding writes what the records in front of the input open to, up to the first that does not |
| `FileTampering.TamperedStreamYieldsPrefix` | internal/crypto/stream.go:42-69 | on any input without forged records, exactly the chunks before the first missing or misplaced record are written: a chunk-aligned prefix of the file |
| `FileTampering.TamperedStreamReported` | internal/crypto/stream.go:42-69 | on any such input success is reported iff every record is in its place and the terminator follows; a record out of place is reported as not opening, and anything else wrong as what it is |
| `FileTampering.TruncatedStreamFails` | internal/crypto/stream.go:42-69 | a stream cut short anywhere is a read error, after exactly the chunks whose records are complete |
| `FileTampering.LongRecordRefused` | internal/crypto/stream.go:50-57 | a record that announces more than the limit is refused before any of it is read |
| `FileTampering.ShortRecordFails` | internal/crypto/chunk.go:59-69 | a record too short for a nonce fails whatever the key |
| `Vault.UnsignedIndex` | internal/client/core.go:686-691 | the signed message index, cast back, is the chunk index used in sealing, even past 2^31 |
| `Vault.UploadMux` | internal/client/core.go:659-708 | refuses beyond 100 MiB; otherwise the messages carry the stream encoder's chunks under the same indices, then the final message |
| `Vault.Directory.HandleFilePut` | internal/server/core.go:905-937 | index 0 starts the file over, others append; negative indices, undecodable content and names of directories change nothing |
| `Vault.Directory.HandleFileGet` | internal/server/core.go:939-979 | one numbered message per stored record, then the final message with their number; only the final one for the name of a directory |
| `Vault.DownloadMux` | internal/client/core.go:710-757 | what is written and which error is returned, for every sequence of messages |
| `VaultTheorems.FilesIndependent` | internal/server/core.go:905-937 | what is stored under a name depends on that name's messages alone |
| `VaultTheorems.UploadStores` | internal/server/core.go:914-936 | an upload replaces the file by its records, or leaves it alone if it has none |
| `VaultTheorems.JunkIsIgnored` | internal/server/core.go:905-917 | final messages, undecodable content and names that are no file's change nothing, wherever they come |
| `VaultTheorems.OnlyFilesAreStored` | internal/server/core.go:905-910 | nothing is ever stored but under a file's name |
| `VaultTheorems.VaultRoundTrip` | internal/client/core.go:659-757 | after any traffic and interleaved with other files, an upload of a non-empty file is downloaded byte for byte with nothing of earlier uploads left |
| `VaultTheorems.EmptyUploadStoresNothing` | internal/server/core.go:914-917 | uploading an empty file leaves the vault as it was |
| `VaultTheorems.FirstUploadCanBeFetched` | internal/server/core.go:914-951 | a file uploaded to an unused name is there to be fetched iff it is not empty |
| `VaultTheorems.LossIsSilent` | internal/client/core.go:737-755 | whichever chunk messages are lost, the download succeeds with the chunks that arrived; it is the file iff none was lost |
| `VaultTheorems.FetchAnnouncesCount` | internal/server/core.go:973-978 | a fetch ends with one final message that announces the number of chunk messages before it |
| `VaultTheorems.LossCouldBeSeen` | internal/server/core.go:973-978 | fewer chunk messages come than are announced iff one was lost |
| `VaultTheorems.TamperedDownload` | internal/client/core.go:737-755 | for any messages in which nothing is forged: the chunks that the genuine messages in front name are written, and success is reported iff a final message follows them; a chunk of another index, another file or a changed one is an error |
| `VaultTheorems.StoredFileIsUnterminated` | internal/server/core.go:933-936 | decrypting a stored file as a stream writes all of it and then fails |
| `HubRuns.AdmitKeepsNames` | internal/server/core.go:377-486 | admission, renaming of returning users included, keeps names owned |
| `HubRuns.ApproveKeepsNames` | internal/server/core.go:71-102 | so does approval, which may overwrite a whitelist entry |
| `HubRuns.NamesAlwaysOwned` | internal/server/core.go:71-126 | in every run from an injective stored whitelist: it stays injective, connections of one nick have one key, and no one carries a nick whitelisted to another key |
| `HubRuns.TokenStable` | internal/server/core.go:889-903 | the vault token, once made, never changes; not over restarts either if it was saved |
| `HubRuns.TokenOfNormalStartIsSaved` | internal/server/core.go:880-884 | from a start at which the file server came up: in every run, restarts included, the token is in the file and never changes |
| `HubRuns.TokenSavedAfter` | internal/server/core.go:889-903 | after an event the token is saved iff the event does not make it unsaved (an admission, a member's leave) and it was saved before or the event saves or reads the file |
| `HubRuns.TokenSavedExactlyWhen` | internal/server/persist.go:47-65 | over any run: the token is in the file iff since memory and file last came together no event made a token without saving it |
| `HubRuns.RestartKeepsToken` | internal/server/persist.go:21-45 | hence, from any start: a restart keeps the token iff that condition on the events holds |
| `HubRuns.FirstTokenIsLost` | internal/server/core.go:463-478 | a concrete run that fails it: the first member is admitted before, or without, the file server, and a restart loses the token |
| `HubRuns.BanSticks` | internal/server/core.go:104-126 | a ban holds over any run and restart until someone of that identity is approved: nobody of that identity gets in or on the waiting list |
| `HubRuns.ApprovalListsKey` | internal/server/core.go:463-478 | an approved newcomer's key is whitelisted afterwards iff it was before, or it is no stored admin and finds another member; it is a stored admin iff it was before or finds none |
| `HubRuns.ReturnsAfterRestart` | internal/server/core.go:377-486 | an approved newcomer is let in again after a restart iff the hub then approves automatically, or its key was whitelisted before, or it was no stored admin and found another member |
| `HubRuns.FirstAdminHasToWait` | internal/server/core.go:463-478 | a concrete run after which the first member, stored as admin, is not let in |
| `HubRuns.CountIsOne` | internal/server/manager.go:87-97 | counting one whitelisted client means that this client is the only one |
| `HubRuns.NewAdminIsSole` | internal/server/core.go:76-78 | whoever is let in as an admin had an admin's key before or is the only member |
| `HubRuns.EventAddsAdmin` | internal/server/core.go:71-126 | an event adds at most one admin key: of the one admitted, approved or granted |
| `HubRuns.StepKeepsJustified` | internal/server/commands.go:95-107 | every event keeps all admins justified |
| `HubRuns.AdminsAlwaysJustified` | internal/server/core.go:76-96 | in every run each admin connection and each admin key, in memory or file, goes back by a finite chain of grants to a stored admin, a sole member, or the operator |
| `Membership.BlockBans` | internal/server/core.go:104-115 | a block bans the identity and strikes the key off both lists, in memory and in the file; that identity is refused from then on |
| `Membership.BlockedStaysOut` | internal/server/core.go:104-126 | after a block, over any events and restarts, nobody of that identity gets in or on the waiting list until a connection of it is approved |
| `Membership.GrantMakesAdmin` | internal/server/commands.go:95-107 | a grant makes that connection an admin and no other; an admin's grant is stored, the operator's is not |
| `Membership.GrantLasts` | internal/server/persist.go:75-90 | an admin's grant holds over any events and restarts until a connection of that key is blocked: the key stays a stored admin's and is an admin again whenever it is let in |
| `Membership.ApprovalLists` | internal/server/core.go:71-96 | an approval makes a member, lists its key for its nick and lifts a ban of its identity, in memory and in the file |
| `Membership.ApprovalMakesAdmin` | internal/server/core.go:76-95 | it makes an admin of exactly those who were one, are stored as one or are then the only member, and stores that |
| `Membership.ApprovalLasts` | internal/server/core.go:377-410 | over any events and restarts until a connection of that key is blocked, the key is let in at once, unless the nick is another's or in use or the identity banned |
| `Membership.OnlyAdminsCommand` | internal/server/commands.go:95-140 | commands of anyone but a connected, whitelisted admin change nothing and tell nobody |
| `Membership.AdmittedAs` | internal/server/core.go:412-478 | how a newcomer is entered: under its listed nick if it has one, as a member iff approved, as an admin iff stored as one or the only member; nobody else changes |
| `Membership.MembersExactly` | internal/server/core.go:377-534 | in every run, a connection is a member iff it was let in and since then was not removed, no restart came and nobody who has to wait took its address |
| `Membership.RemovedStaysGone` | internal/server/core.go:511-534 | a removed connection is gone, all others stay, and its address is empty until someone is admitted there |
| `Membership.MembershipChangesRotate` | internal/server/core.go:889-903 | whenever an event changes who the members are, an EPOCH with the vault token goes to exactly the members after it, but for a restart, a stale removal, or someone waiting who takes a member's address |
| `HubVault.VaultSurvivesMembership` | internal/server/core.go:889-903 | a file uploaded under one membership is downloaded byte for byte under any later one |
| `HubServer.ClientManager.AddClient` | internal/server/manager.go:38-42 | the client is filed under its address, replacing whoever was there |
| `HubServer.ClientManager.RemoveClient` | internal/server/manager.go:44-52 | that address is gone and all others stay |
| `HubServer.ClientManager.GetClientByNickname` | internal/server/manager.go:60-69 | a connected client of that nick, none iff the nick is not in use |
| `HubServer.ClientManager.WhitelistedCount` | internal/server/manager.go:87-97 | how many connected clients are whitelisted |
| `HubServer.ClientManager.Members` | internal/server/core.go:1006-1012 | a broadcast to members reaches exactly the whitelisted connections |
| `HubServer.CopyMap` | internal/server/persist.go:67-73 | an equal map |
| `HubServer.Server.constructor` | internal/server/core.go:128-170 | a start, and equally a restart after any state that left this file |
| `HubServer.Server.LoadACL` | internal/server/persist.go:21-45 | memory is what the file says, or empty lists without one |
| `HubServer.Server.SaveACL` | internal/server/persist.go:47-65 | the file holds all lists and the token as they are |
| `HubServer.Server.RememberAdmin` | internal/server/persist.go:75-83 | one more stored admin, in memory and file |
| `HubServer.Server.IsStoredAdmin` | internal/server/persist.go:85-90 | whether the key is a stored admin's |
| `HubServer.Server.BumpEpoch` | internal/server/core.go:889-903 | a token only if there was none, nothing saved, and an EPOCH with the token to every member |
| `HubServer.Server.RotateVaultToken` | internal/server/core.go:981-992 | a token only if there was none, and then saved |
| `HubServer.Server.Lookup` | internal/server/core.go:377-395 | whichever order the map is walked in: owned iff another key has the nick, otherwise whether and for which nick the key is listed |
| `HubServer.Server.Connect` | internal/server/core.go:412-436 | the newcomer's record is in place and no other connection changed |
| `HubServer.Server.Admit` | internal/server/core.go:377-486 | the reply, the whole new state and the EPOCH sent, of one admission |
| `HubServer.Server.ApproveClient` | internal/server/core.go:71-102 | the whole new state: connection, lists, token, file; and an EPOCH to every member, the new one included |
| `HubServer.Server.BlockClient` | internal/server/core.go:104-126 | the lists at once; connections are untouched |
| `HubServer.Server.RemoveClient` | internal/server/core.go:511-534 | the address is gone, even if another client has it by now; an EPOCH to those left iff the removed client was whitelisted |
| `HubServer.Server.OperatorGrant` | internal/server/tui/app.go:396-406 | admin for the connection, not stored |
| `HubServer.Server.HandleOp` | internal/server/commands.go:95-107 | nothing unless the acting client is an admin and the nick in use; then the target is an admin, stored |
| `HubServer.Server.HandleApprove` | internal/server/commands.go:109-118 | the same guard before approval |
| `HubServer.Server.HandleBlock` | internal/server/commands.go:120-129 | the same guard before blocking |
| `HubServer.Server.HandleKick` | internal/server/commands.go:131-140 | the same guard before removal |
| `RateLimit.Limiter.AllowMessage` | internal/server/core.go:995-1004 | the decision and the new window, at every time |
| `RateLimit.AcceptedSinceStart` | internal/server/core.go:995-1004 | within j window lengths of a window's start: what it has left and j - 1 full windows |
| `RateLimit.RateBound` | internal/server/core.go:995-1004 | for every non-decreasing call times, any k >= 1 window lengths see fewer than 20(k + 1) acceptances |
| `RateLimit.BoundIsReached` | internal/server/core.go:995-1004 | call times with 39 acceptances in one window length: the bound is sharp |
| `RateLimit.LimitKeptExactlyWhen` | internal/server/core.go:995-1004 | from a given time on, no schedule gets more than 20 messages through within one window length iff a message then opens a new window, or the current window is used up, or it started no earlier |
| `RateLimit.CountedSinceStart` | internal/server/core.go:995-1004 | the counter, up to the limit, is covered by acceptances since the window's start |
| `RateLimit.RefusalJustified` | internal/server/core.go:995-1004 | every refusal comes after 20 acceptances within the last window length |
| `ProofOfWork.SmallIffLeadingZeros` | internal/crypto/pow.go:31-39 | a number of n bits is below 2^(n-d) iff its first d bits are zero |
| `ProofOfWork.ValueOfBits` | internal/crypto/pow.go:31-39 | the big-endian value of a byte string is that of its bits |
| `ProofOfWork.TargetTestIsLeadingZeros` | internal/crypto/pow.go:31-39 | for all difficulties up to 256, negative ones asking for nothing, the target test holds iff that many leading bits of the hash are zero |
| `ProofOfWork.VerifyPoW` | internal/crypto/pow.go:31-39 | accepts iff the hash of data and nonce has that many leading zero bits |
| `ProofOfWork.ComputePoW` | internal/crypto/pow.go:14-28 | if any nonce solves the puzzle, the search ends, with the least one |
| `ProofOfWork.BigEndianInjective` | internal/crypto/pow.go:41-45 | different nonces are hashed as different strings |
| `ProofOfWork.BigEndianValue` | internal/crypto/pow.go:41-45 | a nonce is hashed as eight bytes, most significant first |
| `DiskQueues.SplitLines` | internal/client/queue.go:75-88 | the cursor loop yields the lines, an unterminated last one included unless empty |
| `DiskQueues.LinesOfJoin` | internal/client/queue.go:75-88 | splitting inverts the newline-terminated join of any newline-free lines |
| `DiskQueues.JoinOfLines` | internal/client/queue.go:75-88 | joining inverts splitting up to the newline an unterminated last line gains |
| `DiskQueues.ParseLines` | internal/client/queue.go:60-72 | the messages of the lines that parse, in order |
| `DiskQueues.DiskQueue.Enqueue` | internal/client/queue.go:25-43 | one more line at the end, or nothing if the message cannot be encoded |
| `DiskQueues.DiskQueue.Drain` | internal/client/queue.go:45-73 | everything parseable in order, and the file is gone |
| `DiskQueues.QueueRoundTrip` | internal/client/queue.go:25-73 | whatever is enqueued on an empty queue, the next drain returns, all of it and in order |
| `DiskQueues.CorruptLineIsSkipped` | internal/client/queue.go:59-71 | a corrupt line costs itself and no other |

## Left out

- Ratchets.Ratchet.GetMessageKey: required to stay more than 100 steps below 2^32 - 1; past that the 32-bit counter wraps and step numbers repeat.
- Ratchets.Ratchet.Next: required to stay below step 2^32 - 1, for the same reason.
- SenderKeys.SenderState.Recv: carries the same bound on the step as the ratchet it asks, as do the client's methods.
- GroupRuns.GroupAuthenticity: chains count without bound there, so a single epoch of more than 2^32 texts by one member is not covered; the hub's relaying of who sent a message is not trusted, but members are honest about their own nick.
- ChatClient.Client.FlushPending: never for the own nick, as the client never adopts its own seed; carries the bound on the step.
- ChatClient.Client.OnSenderKey: a member's own seed coming back is handed to the screen like any other message; that is not modelled.
- ChatClient.Client.constructor: only the sender-key part of connecting; dialling and the handshake are not modelled, and an empty first seed cannot occur.
- ChatClient.Client.Write: how a private message is sealed for its addressee; here its body goes out as it is.
- ChatClient.Client.OnMessage: carries the same bound on the step as the ratchet it asks.
- FileStream.ChunkAADInjective: the associated data is built as a value, not by filling a buffer.
- Vault.UploadMux: messages come out as a sequence; the detour over the disk queue when the channel is full can reorder them and is not modelled, nor are directories and I/O errors.
- Vault.Directory.HandleFilePut: file names are taken as base names, writes to disk succeed, and the vault's removal of old files is not modelled.
- Vault.Directory.HandleFileGet: every message is delivered; a full channel drops messages, which `VaultTheorems.LossIsSilent` covers.
- Vault.DownloadMux: the two-minute deadline appears only as running out of messages.
- VaultTheorems.VaultRoundTrip: delivery is lossless and in order; both ends drop messages when a channel is full, `VaultTheorems.LossIsSilent` says what that does on the way down.
- HubServer.Server.Admit: starts after version, proof of work, signature and nickname checks have passed, and takes the checks and the entry into the table as one step although the code does them in separate critical sections.
- HubServer.Server.BlockClient: the delayed close of a blocked connection is a later removal, at any time in a run.
- HubServer.Server.BumpEpoch: the EPOCH messages are an output; a full channel may drop one, which to its member is a later or missing epoch in `GroupRuns`.
- HubServer.Server.SaveACL: writing the file succeeds, and the file is read back as it was written.
- ProofOfWork.VerifyPoW: difficulties up to 256; beyond that the shift that makes the target has a negative width.
- ProofOfWork.ComputePoW: if no 64-bit nonce solves the puzzle the search wraps and never ends; nothing is stated for that case.
- IdentityPins.IdentityStore.Check: writing the pin file succeeds, and so do the file operations of `DiskQueues.DiskQueue.Drain`.
- Key slices live in a memory per ratchet, so sharing a slice between two ratchets is not captured; the code copies seeds before sharing could arise.
- Concurrency below one handled message, admission or command.
- `HasPeer`: a look-up in the table of chains that only tests call.
- `flushQueue` after a failed send, which loses the rest of the queue.
- Private messages, user lists, announcements, message history.
- The HTTP vault and peer-to-peer transfer, Tor and SOCKS, zip, auto-sync.
- Terminal interfaces, clipboard, logging, system monitor.
- `rooms.Registry`, `MemoryManager`, `EncryptedStore`, version comparison, invites: simple members on their own.
- The inner workings of AES-GCM, X25519, Ed25519, HKDF, SHA-256, base64, JSON and protobuf.
