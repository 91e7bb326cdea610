# Coordination, keys, roll-ups, limits and logs of kopiv2, verified

This project models the parts of `kopiv2` whose correctness is more than a matter of reading one
function, and proves what they promise. `dafny verify dfyconfig.toml` checks all of it, with Dafny
4.11. Code that changes state step by step is a class with the same fields and loops, each method
proved against a function or a predicate on values; the promises are lemmas about those, over every
input, every run or every reachable state.

| module | models |
|---|---|
| `RedisLease` | the Redis lease lock at the granularity of single store commands, for any number of clients |
| `Leader`, `Election` | one campaigner; any number of them over the store, with clocks and delays |
| `MemoryLocker` | the in-process FIFO lock: a state machine, and the class that implements it |
| `StreamCipher`, `Cipher` | the chunked stream format over an ideal AEAD; the loops that write and read it |
| `ProtectorNames`, `KeyFile`, `KeyLifecycle`, `KeyStore` | how protectors are named; the key-file framing and wrapping; boots, losses and restores of an installation; the file operations |
| `Clock`, `Rollup`, `RollupReads`, `Query`, `Dashboard` | buckets and slots; the incremental roll-up; the heat map and anomaly totals read from it; the dashboard |
| `SlidingWindow`, `CacheStores` | the rate limiter in its two forms; the stores that hold it |
| `DnsNames`, `MdnsPacket` | DNS names on the wire, by RFC 1035, sections 3.1 and 4.1.4; mDNS responses |
| `Reliability` | camera outages, against a second-by-second count |
| `LogNames`, `LogRotation` | names of log files and which file a line goes to |
| `Bytes`, `Results` | shared definitions |

## What the models assume

- **Store.** Redis runs one command at a time, expires keys by its own clock, and every client's
  command may be delayed or lost. A lease is asked for twice, by SetNX and by Expire, and the two times
  may differ (`Ttl`): the client library, which is not part of the repository, sends the one in
  milliseconds and the other cut down to whole seconds (`ClientTtl`). `RedisLease` needs one timing
  assumption, that a release's Del lands before the lease its Get saw can have run out;
  `StaleDelBreaksExclusion` shows that without it exclusion fails. In `Election` a command is answered or
  given up within `cmd`, the next one that confirms a lease is sent within `gap` of the last, so `gap` is
  at least `cmd`, and resigning takes `leave`; any command may fail, and one given up on may still land.
- **Cryptography.** `seal` is any function that adds a 16-byte tag, and opening succeeds on what was
  sealed and nothing else. The file id decides the sub-key, and distinct files have distinct ids.
  Wrapping a key is a table of what was wrapped.
- **Key files.** Any look, read, write, copy, rename or removal may fail (`Luck`). `KeyContinuity` assumes
  four things: that no start overlooks a key there is, by a file not seen or a marker not read
  (`Overlooks`); that no copy of an escrow stops after exactly 32 bytes; that a key file is not lost
  before its marker is written; and that nothing but this installation's key is ever wrapped, so that
  no escrow of another installation opens here. Each has a lemma on what happens without it.
- **Databases.** A query answers pages of any size of at least one row, in a fixed order, and any
  operation may fail, with or without effect, wherever the source handles an error.
- **Clocks** run forward where a lemma says so. Calls into the operating system, randomness and the
  environment are parameters.

## What turned out otherwise than documented

- `domain/notification/baseline.go:98-109` shifts its occurrences to local time twice. Its slots agree
  with the chart's, for an hourly chart, exactly when the offset's whole hours make up whole weeks
  (`BaselineHourSlots`), and for a daily one exactly when its whole days do (`BaselineDaySlots`): so an
  hourly chart is right for offsets of less than an hour east of Greenwich, a daily one for every
  offset that is not negative.
- `infra/logging/logger.go:197-200` says that files are read oldest to newest. They are sorted by name:
  `ReadingOrder` gives the exact condition, by the extension and the number of files of each day. For
  an extension that goes on with a letter it is that no day has a second file (`UsualReadingOrder`),
  and for every extension a day of eleven files is out of order.
- `infra/logging/logger.go:372-388`: raising the size cap between restarts breaks the order of a day's
  lines (`RaisedCapReorders`, and from one megabyte to two `TwoMegabytesReorder`); `RestartAppends`
  says exactly when a restart is safe. The cap itself is kept whatever the restarts as long as lines are
  no longer than a megabyte (`ConfiguredCapKept`), and the default limit of a message is 8192 bytes. Only
  a line longer than the caps' unit can leave a day in which a later line goes to a file that has reached
  the raised cap (`RaisedCapUnsteps`); `RestartKeepsCap` says exactly when.
- `infra/cache/memory.go:123-124` cuts the call's time and the cutoff to milliseconds. With call times
  of nanoseconds an interval of the window's length can therefore hold more allowed calls than the
  limit, for every limit and window; `LimitHoldsShort` says by how much shorter an interval must be,
  `LimitHoldsExactly` that a clock of whole milliseconds suffices.
- By the same cut a window of less than a millisecond may be over before the millisecond is: a call late in
  its millisecond is then not even in its own window, though it reports a count of one (`CountsAreExact`).
- `domain/notification/reliability.go:106-109`: a repeated offline event forgets the outage so far
  (`RepeatedOfflineForgets`), and a repeated recovery charges it twice (`RepeatedRecoveryOvercharges`);
  `DowntimeIsCount` is the exact account for every stream.
- The same repeated event counts as another incident; `IncidentsAreOutages` says when the incidents are the
  outages.
- `infra/cache/redis.go:173-175` cuts a window to whole milliseconds, so the providers agree for
  whole-millisecond windows and for no others (`ProviderEquivalence`).
- `infra/atrest/startup.go:48-58` takes a marker that cannot be read or parsed for none. With the key
  file lost, the start after that does mint a new key (`UnreadMarkerForgets`), although
  `infra/atrest/startup.go:103-104` says that it never does; `UnreadMarkerBreaksContinuity` is such a
  history, and `OverlookingMints` says exactly when a start mints a second key.
- `infra/atrest/keystore.go:80-83` takes a key file that cannot be looked at for absent: it is then
  reported as created (`UnseenKeyIsCreated`), or overwritten by a recovery and removed if that fails
  (`UnseenKeyIsRemoved`).
- `infra/atrest/startup.go:143-164` compares the restored key with nothing: an escrow of another
  installation, with its passphrase, replaces the key (`ForeignEscrowReplacesKey`). A restore keeps the
  key exactly if the escrow opens to it (`RestoreKeepsKeyExactly`), and so does a recovery
  (`RecoveryKeepsKeyExactly`).
- `infra/coordination/redis.go:312-334` renews with Expire, which the client library sends in whole
  seconds. A lease is kept whole exactly if it is of whole seconds or of less than one (`WholeSeconds`);
  otherwise the first renewal can cut it short (`WholeLeaseKept`).
- `infra/atrest/startup.go:77-87` goes on when the marker cannot be written; a key file lost in that
  state is silently replaced by a new key (`LossBeforeMarkerForgets`).
- `infra/atrest/protector.go:51-69` takes any 32 bytes for a bare key, so an escrow copied in part may
  be taken for one (`ShortCopyBecomesKey`, `PartOfEscrow`). The protector name in a framed key file is
  trimmed, lower-cased and given defaults like a configured one (`infra/atrest/protector.go:96-100`), so
  that a frame named "FILE", "Auto" or nothing at all is opened as a bare key; `BareNames` says exactly
  which names are. Such a file counts as the configured protector's own and is not written anew
  (`LoadSettles`).
- `infra/coordination/memory.go:161-172` does not delete a queue whose last waiter gives up
  (`GivingUpLeavesIdle`); every other queue nobody needs is deleted (`NoIdleQueues`).
- `infra/discovery/mdns.go:167-175` cuts a label's length to a byte; `DnsNames.RoundTrip` shows that
  exactly labels of 1 to 63 bytes survive.
- `infra/coordination/leader.go:162-175` still reports leadership while the release is under way, for
  up to its own five seconds, so the bound on dual leadership is longer then.

## Model

| member | source | states |
|---|---|---|
| RedisLease.KeyInvStep | infra/coordination/redis.go:141-165 | whatever command any client runs, the stored key names a past holder and a lease no longer than the longer of the two times |
| RedisLease.LateExpireNeverShortens | infra/coordination/redis.go:312-334 | a renewal that lands late, on whoever's lease it finds, leaves the owner; it never brings the expiry forward, in any reachable state, if and only if Expire's time is at least SetNX's |
| RedisLease.LeaseKept | infra/coordination/redis.go:292-334 | over any run a live lease keeps its owner until its expiry, or a renewal's length from now if that is earlier, unless the owner's own Del lands |
| RedisLease.LeaseExclusion | infra/coordination/redis.go:141-165 | from a renewal landing on one's own key the key keeps the token for a renewal's length, and from a successful SetNX for the shorter of the two times, in every interleaving of any number of clients' commands |
| RedisLease.NoSecondGrant | infra/coordination/redis.go:141-165 | during that time nobody else is granted the lock |
| RedisLease.DeadHolderExpires | infra/coordination/redis.go:138-140 | once renewals stop a holder's lease is over after the longer of the two times, whatever clients do in the meantime |
| RedisLease.StaleHolderStops | infra/coordination/redis.go:312-334 | a holder that has lost its lease stops renewing: no more of its Expire commands land than were on their way |
| RedisLease.WholeLeaseKept | infra/coordination/redis.go:312-334 | over all runs the first holder keeps the key for the whole of its lease if and only if Expire's time is at least SetNX's |
| RedisLease.WholeSeconds | infra/coordination/redis.go:328-328 | with Expire cut down to whole seconds that is so exactly for leases of whole seconds or of less than one |
| RedisLease.StaleDelBreaksExclusion | infra/coordination/redis.go:292-310 | a run in which a release delayed past its lease deletes its successor's lease and two clients own the lock: the timing assumption is needed |
| RedisLease.TimeForward | infra/coordination/redis.go:312-334 | the store's clock never runs back over a run, so a lease once over stays over |
| Leader.Leader.Set | infra/coordination/leader.go:178-188 | the flag changes and a callback is started exactly when the value is new, so callbacks are started alternately |
| Leader.Leader.Attempt | infra/coordination/leader.go:127-158 | a valid lock is kept; otherwise the outcome of TryLock decides what is held, the announcement of a lost lease is started before that of a new one, and held agrees with the flag afterwards |
| Leader.Leader.Resign | infra/coordination/leader.go:162-175 | the lock is released and the leadership ended, announced only if there was one |
| Election.InvStep | infra/coordination/leader.go:127-175 | every step of every campaigner and of the store, failing and late commands included, keeps flags, tokens, grants and beliefs consistent |
| Election.NewBelief | infra/coordination/redis.go:274-290 | an instance comes to believe it owns the key only by a command that found or made it so |
| Election.LeaderOwnedRecently | infra/coordination/leader.go:127-158 | in every run an instance that reports leadership owned the key no longer ago than gap + cmd, or gap + leave while it resigns |
| Election.DualLeadersAreRecent | infra/coordination/leader.go:127-158 | when two instances lead at once the later grant is no older than that |
| Election.SameLockWhileLeading | infra/coordination/leader.go:126-158 | over an unbroken leadership an instance keeps one lock |
| Election.DualLeadershipBounded | infra/coordination/leader.go:126-188 | in any run, whatever commands fail or land late, no two instances lead together for longer than gap + cmd, or gap + leave if at the end one of them is resigning |
| Election.LockHeldIffLeading | infra/coordination/leader.go:126-188 | between attempts a lock is held exactly when the instance says it leads |
| Election.AttemptAsLeader | infra/coordination/leader.go:126-158 | whoever steps in between, an attempt ends as Leader.Attempt does on the answers the store gave: with the lock held if the Get found it to be its own, else the one the SetNX found free, or none; and the instance leads if and only if it has one |
| Election.LeadershipWon | infra/coordination/leader.go:144-157 | in every state of a run in which the key is free, an instance without a lock can attempt, and its attempt ends with it leading and owning the key |
| Election.LeadershipKept | infra/coordination/leader.go:131-134 | in every state of a run in which a leader owns the key its next attempt leaves it leading with the same lock |
| Election.HandOver | infra/coordination/leader.go:160-175 | a leader that owns the key and resigns frees it at once, and whichever instance tries next leads, with no time passing |
| Election.FailsClosed | infra/coordination/leader.go:144-151 | a leader that cannot reach the store is a follower without a lock after its attempt |
| Election.ResignLeavesKey | infra/coordination/redis.go:292-310 | a resigning leader whose Get fails or finds the key not its own is gone and has not touched the key |
| Election.StoreIsLease | infra/coordination/leader.go:126-175 | refinement: at every point of every run the store has gone through a run of RedisLease, so everything proved there holds here |
| Election.DeadLeaderReplaced | infra/coordination/redis.go:138-140 | when no instance leads or is trying, the key is free after the longer of the two times, and whoever tries then leads |
| MemoryLocker.InvStep | infra/coordination/memory.go:44-142 | every step keeps queues and clients in agreement |
| MemoryLocker.OneValidHandle | infra/coordination/memory.go:185-212 | in every reachable state a resource has at most one valid handle, valid until its own Release |
| MemoryLocker.WaitersAreTheWaiting | infra/coordination/memory.go:152-172 | a call is waiting if and only if it is in its queue, once; deleting a queue loses nobody |
| MemoryLocker.GrantsFollowTickets | infra/coordination/memory.go:44-102 | over any run grants come in the order of joining, whatever time-outs and TryLock calls come between |
| MemoryLocker.GrantsAreTurns | infra/coordination/memory.go:58-68 | over any run the grants are exactly the turns that ended with the waiting call holding its resource, in order |
| MemoryLocker.HeadCanAcquire | infra/coordination/memory.go:44-102 | a free resource with waiters: the longest waiter's next turn takes it |
| MemoryLocker.PollGrantsOldest | infra/coordination/memory.go:58-68 | a turn that is granted is that of the oldest waiter |
| MemoryLocker.NoIdleQueues | infra/coordination/memory.go:197-212 | as long as no call gives up, a queue with neither owner nor waiters is deleted |
| MemoryLocker.GivingUpLeavesIdle | infra/coordination/memory.go:161-172 | the last waiter of a free resource that gives up leaves its queue behind |
| MemoryLocker.MemoryLocker.Enqueue | infra/coordination/memory.go:44-53 | joining a queue is the state machine's step, and nothing else changes |
| MemoryLocker.MemoryLocker.Poll | infra/coordination/memory.go:58-82 | a waiter's turn is the state machine's step |
| MemoryLocker.MemoryLocker.RemoveWaiter | infra/coordination/memory.go:161-172 | giving up removes that waiter alone |
| MemoryLocker.MemoryLocker.TryLock | infra/coordination/memory.go:110-142 | TryLock takes a free resource past its waiters, or leaves no trace |
| MemoryLocker.MemoryLocker.HandleIsValid | infra/coordination/memory.go:185-195 | a handle is valid exactly while its token owns the resource |
| MemoryLocker.MemoryLocker.Release | infra/coordination/memory.go:197-212 | the first release frees the resource if the handle still owns it; a second does nothing |
| StreamCipher.NonceReuse | infra/atrest/cipher.go:141-145 | the chunk nonces of one stream are pairwise distinct if and only if it has at most 2^64 chunks |
| StreamCipher.AadTellsLast | infra/atrest/cipher.go:147-154 | the additional data tells position and finality apart |
| StreamCipher.AadIsOwn | infra/atrest/cipher.go:147-154 | below 2^64 chunks, equal additional data means equal position and finality |
| StreamCipher.ChunkLayout | infra/atrest/cipher.go:141-154 | nonce and additional data carry the position in eight bytes, behind four zero bytes and before the byte that tells finality |
| StreamCipher.CiphertextLength | infra/atrest/cipher.go:157-193 | the size is the header, the plaintext and a 16-byte tag for each chunk, of which there is one more than whole chunks of plaintext |
| StreamCipher.RoundTrip | infra/atrest/cipher.go:157-241 | decrypting an encrypted plaintext of any length gives it back |
| StreamCipher.OpensOnlyOwnChunk | infra/atrest/cipher.go:214-240 | what opens at position i under a file's key is that file's chunk i, with its own finality |
| StreamCipher.Integrity | infra/atrest/cipher.go:197-241 | for every input: what is written is a prefix of the plaintext sealed under the file id it names, and success means exactly that file's ciphertext |
| StreamCipher.CutOff | infra/atrest/cipher.go:197-241 | of every proper part of a ciphertext exactly the whole chunks are written and the stream fails, as truncated if less than a tag is left |
| StreamCipher.UnknownKeyOpensNothing | infra/atrest/cipher.go:197-241 | under a key nothing was sealed with, nothing is written and the stream fails |
| Cipher.Cipher.EncryptStream | infra/atrest/cipher.go:157-193 | the buffered loop writes the format's bytes and adds its chunks to what was sealed |
| Cipher.Cipher.DecryptStream | infra/atrest/cipher.go:197-241 | on any input the loop writes what the format says and reports the same outcome |
| Cipher.Reader.ReadFull | infra/atrest/cipher.go:175-180 | the buffer is filled as far as the input goes, and the input advances by as much |
| KeyFile.DecodeEncode | infra/atrest/protector.go:40-69 | the framing round-trips if and only if the name fits its length byte and the frame is not 32 bytes long |
| KeyFile.DecodesExactly | infra/atrest/protector.go:51-69 | nothing is read as a frame but what the framing makes of a name and a blob, and nothing as bare but 32 bytes |
| KeyFile.UnwrapWrap | infra/atrest/protector.go:171-230 | every protector unwraps what it wrapped, through its blob layout |
| KeyFile.UnwrapsOnlyWrapped | infra/atrest/protector.go:198-230 | a protector other than "file" opens nothing it did not wrap |
| KeyFile.PassphraseOpensExactly | infra/atrest/protector.go:198-230 | a passphrase opens a blob to a key if and only if the blob lays out the parameters, salt, nonce and ciphertext of something wrapped under it to that key |
| ProtectorNames.PlainIsNormal | infra/atrest/protector.go:96-100 | names in small letters are read as they are |
| ProtectorNames.LettersAreSmall | infra/atrest/protector.go:96-100 | names are lower-cased letter by letter, the two capitals outside ASCII that have a small ASCII letter included |
| ProtectorNames.SpacesTrimmed | infra/atrest/protector.go:96-100 | any white space before and behind a name is trimmed, in characters of one to three bytes |
| KeyLifecycle.CreatedExactly | infra/atrest/startup.go:105-136 | a boot reports a key as created if and only if it sees neither key file nor marker, recovers nothing and its load succeeds; the key is a new one where no key file was there to load |
| KeyLifecycle.GateIsExact | infra/atrest/startup.go:105-136 | with a marker and no key file in sight a boot asks for recovery, under the marker's id, if and only if no recovery succeeds and the marker is read; asking without trying changes nothing |
| KeyLifecycle.KeyIdRemembered | infra/atrest/startup.go:75-87 | the key id a boot reports is the one its marker keeps, and the one a later gate asks for and a later start reports |
| KeyLifecycle.BootKeepsKey | infra/atrest/startup.go:105-136 | once a key leads the disk, every boot that overlooks nothing and opens opens that key, and key file or marker still stand |
| KeyLifecycle.OverlookingMints | infra/atrest/startup.go:105-136 | a boot that opens, over a disk that leads to a key, opens another key if and only if it sees no key file and no marker and recovers nothing, or loses sight of the recovery file |
| KeyLifecycle.UnreadMarkerForgets | infra/atrest/startup.go:48-58 | a marker that stands but is not read does not keep the next start from minting another key |
| KeyLifecycle.UnseenKeyIsCreated | infra/atrest/keystore.go:80-83 | a key file that is not seen, with no marker, is loaded but reported as created |
| KeyLifecycle.UnseenKeyIsRemoved | infra/atrest/keystore.go:43-83 | one that is not seen twice is overwritten by a recovery, and gone if that does not open |
| KeyLifecycle.LoadKeepsKey | infra/atrest/keystore.go:92-144 | loading, with a migration between protectors, keeps the key |
| KeyLifecycle.LoadSettles | infra/atrest/keystore.go:85-144 | after every load that succeeds the key file opens to the same key through the configured protector itself, no bare key is left under another protector, a rewritten file is bare or framed under the protector's own name, and a second load changes nothing |
| KeyLifecycle.AskedIsGiven | infra/atrest/protector.go:92-108 | a load never ends with another protector than the one asked for, "auto" and no name asking for the machine's own where there is one |
| KeyLifecycle.ProtectorBuilds | infra/atrest/protector.go:92-108 | a protector can be built if and only if it is "file", "passphrase" with a passphrase, the machine's own, or left to the machine |
| KeyLifecycle.LoadSucceedsExactly | infra/atrest/keystore.go:92-162 | a load succeeds if and only if the protector can be built and a new key file can be written, or the old one can be read, opens, and is the protector's own or can be rewritten; one that fails changes nothing |
| KeyLifecycle.RecoverKeepsKey | infra/atrest/keystore.go:43-77 | a recovery, complete or failed half-way, installs no other key, given that only this one was ever wrapped |
| KeyLifecycle.RecoveryKeepsKeyExactly | infra/atrest/keystore.go:43-77 | whatever was wrapped, a recovery opens a given key if and only if the escrow at the recovery path opens to it |
| KeyLifecycle.FailedRecovery | infra/atrest/keystore.go:43-77 | a failed recovery leaves recovery file and marker as they are, and a key file if and only if the copy stopped half-way or the copied escrow could not be removed |
| KeyLifecycle.RestoreKeepsKey | infra/atrest/startup.go:143-164 | a restore installs the leading key or changes nothing, whatever bytes it is given, as long as only this key was ever wrapped |
| KeyLifecycle.RestoreKeepsKeyExactly | infra/atrest/startup.go:143-164 | whatever was wrapped, the boot after a restore opens a given key if and only if the offered escrow opens to it |
| KeyLifecycle.ForeignEscrowReplacesKey | infra/atrest/startup.go:143-164 | an escrow of another installation, with its passphrase, replaces the key: the assumption on wraps is needed |
| KeyLifecycle.EscrowRestores | infra/atrest/keystore.go:235-248 | an exported escrow and its passphrase bring the key back on any host and under any protector |
| KeyLifecycle.EscrowRecovers | infra/atrest/keystore.go:32-77 | an exported escrow at the recovery path brings the key back at the next start with its passphrase, and once renamed is not taken a second time: the gate asks |
| KeyLifecycle.UnusableFileRefused | infra/atrest/keystore.go:92-144 | a key file that opens to nothing is refused, not replaced |
| KeyLifecycle.InvStep | infra/atrest/startup.go:105-164 | every boot that overlooks nothing, restore, export, placement and loss under the stated assumptions keeps the disk safe for the leading key |
| KeyLifecycle.KeyContinuity | infra/atrest/startup.go:105-164 | over every history from a fresh host that meets the four assumptions all successful starts open the same key |
| KeyLifecycle.LossBeforeMarkerForgets | infra/atrest/startup.go:77-87 | where a key file is lost and no marker stands the next start mints a new key: the assumption on losses is needed |
| KeyLifecycle.UnreadMarkerBreaksContinuity | infra/atrest/startup.go:48-58 | a start, the loss of the key file, and a start that cannot read the marker open two keys: the assumption on reads is needed |
| KeyLifecycle.ShortCopyBecomesKey | infra/atrest/keystore.go:43-77 | a recovery copy cut at 32 bytes becomes the master key: the assumption on copies is needed |
| KeyLifecycle.PartOfEscrow | infra/atrest/protector.go:51-69 | a part of an escrow reads as a bare key if and only if it has 32 bytes |
| KeyLifecycle.BareNames | infra/atrest/keystore.go:114-128 | a framed file of 32 bytes of data opens as a bare key, on a host without a platform protector, if and only if its name is read as "file", "auto" or nothing |
| KeyLifecycle.BareNameExamples | infra/atrest/protector.go:96-100 | "FILE", " file ", "Auto" and no name are such names, "passphrase" is none |
| KeyStore.Host.WriteKeyFile | infra/atrest/keystore.go:164-187 | the key file is replaced as a whole or not at all |
| KeyStore.Host.LoadOrCreateWithConfig | infra/atrest/keystore.go:92-144 | the file operations have the effect and outcome of the lifecycle's step |
| KeyStore.Host.LoadOrCreateWithRecovery | infra/atrest/keystore.go:43-77 | likewise for the recovery, with what a failed one leaves behind |
| KeyStore.Host.OpenForStartup | infra/atrest/startup.go:105-136 | likewise for the boot, with every look and read that may fail, and with it what the boot promises about any disk |
| KeyStore.Host.RestoreFromEscrow | infra/atrest/startup.go:143-164 | likewise for the restore |
| KeyStore.Host.ExportEscrow | infra/atrest/keystore.go:235-248 | likewise for the export |
| Clock.OccurrenceFloors | domain/notification/baseline.go:132-135 | the key is the start of the local bucket, also before 1970 and for negative offsets |
| Clock.OccurrenceSlot | domain/notification/anomaly.go:75-86 | AnomalyScan's slots are those of the local hour for every offset |
| Clock.SlotsNumber | domain/notification/baseline.go:139-145 | a slot is the number of the local hour of the week from Sunday on, or of the local day |
| Clock.BaselineHourSlots | domain/notification/baseline.go:98-109 | Baseline's hourly slots agree with the chart's if and only if the offset's whole hours make up whole weeks |
| Clock.BaselineDaySlots | domain/notification/baseline.go:98-109 | Baseline's daily slots agree with the chart's if and only if the offset's whole days make up whole weeks |
| Rollup.AgreesExactly | domain/notification/rollup.go:135-223 | with no failed attempt every bucket's count is the number of rows the cursor has passed with that key |
| Rollup.PageDone | domain/notification/rollup.go:142-168 | a completed page keeps the agreement, whatever the order of its buckets |
| Rollup.PageSpoiled | domain/notification/rollup.go:180-223 | an attempt that stops anywhere leaves no bucket too low and none too high by more than that page |
| Rollup.OverlapDoubles | domain/notification/rollup.go:36-47 | two sweepers folding the same page double-count exactly that page |
| Rollup.RecordedLater | domain/notification/rollup.go:135-176 | a notification recorded after the cursor leaves the agreement as it is |
| Rollup.BucketIsHour | domain/notification/rollup.go:229-255 | a bucket begins on the hour its time is in, for times before 1970 on the next one |
| Rollup.RollupMaintainer.Flush | domain/notification/rollup.go:180-223 | deltas are applied in any order, stopping at the first failure: some full, at most one open, the rest untouched |
| Rollup.RollupMaintainer.Deltas | domain/notification/rollup.go:153-160 | the loop over a page counts each bucket's rows and ends with the page's highest id |
| Rollup.RollupMaintainer.FoldPage | domain/notification/rollup.go:153-168 | a page is folded and passed, or spoils at most itself |
| Rollup.RollupMaintainer.Sweep | domain/notification/rollup.go:135-176 | a finished sweep has covered the table and spoiled nothing; a sweep with nothing to do changes nothing; one that stops spoils at most one page, the one behind the cursor |
| RollupReads.SweptIsConsistent | domain/notification/rollup.go:135-176 | after a finished sweep without failures the rows are consistent with the whole table |
| RollupReads.SumIsCount | domain/notification/heatmap.go:55-87 | over a consistent roll-up summing rows is counting notifications, for every selection of keys |
| RollupReads.RowIsCount | domain/notification/rollup.go:225-255 | each row of a swept roll-up counts the notifications of its hour, camera, rule, label, source, category and severity, with the defaults for texts not given |
| RollupReads.ReadHeatmap | domain/notification/heatmap.go:35-88 | each cell is its slot's sum over the rows read, cells are distinct and complete, Total is their sum, Max the busiest; all rows are read unless the row limit stops it |
| RollupReads.HeatmapCellIsRawCount | domain/notification/heatmap.go:55-87 | over whole-hour windows and offsets the sum of a slot's rows is the number of notifications made in that local weekday and hour |
| RollupReads.HeatmapTotalIsRawCount | domain/notification/heatmap.go:55-87 | the sum of the rows in the window is the number of notifications in it, for every offset |
| RollupReads.HeatmapIsRawCount | domain/notification/heatmap.go:55-87 | the heat map that ReadHeatmap returns, within the row limit, has the number of notifications for its total and in each cell, and a cell for every slot that has any |
| RollupReads.WholeHourOffsets | domain/notification/heatmap.go:62-68 | no notification is read in a wrong slot if and only if the offset is a whole number of hours |
| RollupReads.HourTotals | domain/notification/anomaly.go:53-74 | the nested maps hold each camera's total for every local hour |
| RollupReads.HourTotalIsRawCount | domain/notification/anomaly.go:53-86 | the sum of a camera's rows for a local hour is its number of notifications made in that hour |
| RollupReads.HourTotalsAreRawCounts | domain/notification/anomaly.go:53-86 | the maps that HourTotals returns, within the row limit, hold these numbers for every camera and local hour |
| Query.GetPage | domain/notification/stats.go:188-201 | a query's page: some of the rows left, at least one if there are any, and the reported total |
| Dashboard.FetchWindow | domain/notification/stats.go:178-204 | for any page sizes the rows of the window, oldest first, all of them unless the row limit is reached |
| Dashboard.OldestAreRead | domain/notification/stats.go:178-204 | a fetch that stops at the row limit leaves out the newest rows |
| Dashboard.OneBucket | domain/notification/stats.go:107-115 | a time of the window is in exactly one bucket of the series if and only if it is not the window's end beginning a bucket |
| Dashboard.Seed | domain/notification/stats.go:107-115 | the axis: adjoining buckets from the window's first on, all beginning before its end and together reaching it |
| Dashboard.TallyMore | domain/notification/stats.go:126-140 | a tally holds each key's count and adds up to the rows selected, after every row |
| Dashboard.Tally | domain/notification/stats.go:117-162 | the loop over the rows gives the board those rows call for: totals, tallies, severities and series |
| Dashboard.Stats | domain/notification/stats.go:70-174 | the board shows the rows fetched for both windows |
| Dashboard.BoardSays | domain/notification/stats.go:70-174 | within the row limit, in terms of the arguments: the totals count the rows from beginning to end and those of the equally long window before, every tally and severity counts its kind with the defaults for kinds not given, and the buckets begin at local multiples of their length, follow one another over the window, and count the rows made in them |
| Dashboard.NothingLost | domain/notification/stats.go:107-162 | of the board that Stats returns, within the row limit, the totals are the table's, categories, severities and bands each add up to Total, and the series misses exactly the rows at the window's end when a bucket begins there |
| SlidingWindow.SameRun | infra/cache/redis.go:165-212 | for whole-millisecond windows the script answers every history as the memory provider does, with times rounded up to the millisecond |
| SlidingWindow.ProviderEquivalence | infra/cache/redis.go:251-282 | over all histories of calls and deletes with a forward millisecond clock the two providers decide the same if and only if the window is a whole number of milliseconds |
| SlidingWindow.NoncesGrow | infra/cache/redis.go:176-176 | members are never reused, so ZADD never replaces an entry |
| SlidingWindow.LimitHolds | infra/cache/memory.go:118-176 | no window cut off at a whole millisecond, as the code cuts it, contains more than limit allowed calls |
| SlidingWindow.LimitHoldsExactly | infra/cache/memory.go:118-176 | if call times are whole milliseconds, no interval (t - window, t] contains more than limit allowed calls, for every window |
| SlidingWindow.LimitHoldsShort | infra/cache/memory.go:118-176 | over all histories of nanosecond times an interval shorter than the window by some time contains at most limit allowed calls if and only if that time is at least 999999 nanoseconds |
| SlidingWindow.OneTooMany | infra/cache/memory.go:123-124 | the calls that exceed the limit in a longer interval: limit of them late in the first millisecond, and one a window after its beginning |
| SlidingWindow.AsGoodAsFullHistory | infra/cache/memory.go:118-176 | a call is allowed if and only if a limiter that kept every allowed call would allow it |
| SlidingWindow.RetryIsExact | infra/cache/memory.go:150-161 | after a denial every call before now + RetryAfter is denied and the one at that instant is allowed |
| SlidingWindow.ReportIsExact | infra/cache/memory.go:150-176 | for windows of a millisecond or more the count, what remains and the reset reported are those of the allowed calls in the window, the reset to the instant at which one of them leaves it |
| SlidingWindow.CountsAreExact | infra/cache/memory.go:123-146 | the count reported is right for every history if and only if the window is a millisecond or more |
| SlidingWindow.NoLimit | infra/cache/memory.go:119-121 | without a limit or a window every call of every history is allowed and nothing is remembered |
| SlidingWindow.NeverNegative | infra/cache/memory.go:150-170 | whatever clock and limit do, what remains and the waits reported are never negative, and exact where positive |
| SlidingWindow.InsertSorts | infra/cache/redis.go:265-268 | the sorted set stays sorted by score, whatever is added |
| SlidingWindow.ScriptForgets | infra/cache/redis.go:251-282 | for a window of less than a millisecond the script deletes the key at once, so it never denies a call |
| CacheStores.MemoryStore.FilterInPlace | infra/cache/memory.go:130-140 | the survivors are moved to the front of the same buffer, in order |
| CacheStores.MemoryStore.AllowSlidingWindow | infra/cache/memory.go:118-176 | the store answers by the key's window and slides it, leaving all other keys alone |
| CacheStores.MemoryStore.Delete | infra/cache/memory.go:68-80 | a deleted key's window is empty, all others are kept |
| CacheStores.RedisStore.AllowSlidingWindow | infra/cache/redis.go:165-212 | the script's commands have the effect and the answer of the key's step |
| DnsNames.EncodeDnsName | infra/discovery/mdns.go:167-175 | the loop writes each label behind its length and ends with a zero byte |
| DnsNames.ParseDnsName | infra/discovery/mdns.go:179-218 | on every byte string and offset it ends, stays in bounds and answers the walk along labels and pointers |
| DnsNames.WalkAdvances | infra/discovery/mdns.go:179-218 | from an offset in the message success means offset < next <= length |
| DnsNames.WalkLayout | infra/discovery/mdns.go:193-203 | labels followed by a pointer to an earlier name decode to the joined name, through any chain, with next just past the first pointer |
| DnsNames.RoundTrip | infra/discovery/mdns.go:167-218 | an encoded name, embedded anywhere, parses back with the offset just past it if and only if all its labels have 1 to 63 bytes |
| DnsNames.ReadsBack | infra/discovery/mdns.go:167-218 | what is read back is the name as it was written but for a final dot, with or without which it is encoded the same |
| DnsNames.CutLabel | infra/discovery/mdns.go:171-171 | a label whose length was cut to a byte makes another name, whatever follows |
| MdnsPacket.RecordsInBounds | infra/discovery/mdns.go:247-267 | records lie in the packet and each begins after the one before ends |
| MdnsPacket.PacketOnlyAdds | infra/discovery/mdns.go:269-328 | any packet only adds: known instances stay, at the address first heard, with the keys they had |
| MdnsPacket.RecordsOfLaid | infra/discovery/mdns.go:245-267 | the records of an encoded response are the resources it was made of, in order, at their places |
| MdnsPacket.PacketOfLaid | infra/discovery/mdns.go:221-267 | a whole response, header, questions and the resources of all three sections, is read back as exactly those resources, at their places |
| MdnsPacket.ServiceLearned | infra/discovery/mdns.go:289-305 | an encoded service record sets its instance's port and host, keeps its texts and first address, and leaves all other instances alone |
| MdnsPacket.InstanceLearned | infra/discovery/mdns.go:277-285 | an encoded pointer record announces the instance it points to, keeping whatever is known of it, and touches no other |
| MdnsPacket.TextLearned | infra/discovery/mdns.go:307-328 | an encoded text record adds its pairs to those of its instance, whose port and host stay, and touches no other |
| MdnsPacket.AddressLearned | infra/discovery/mdns.go:269-275 | an address record of four bytes gives the host's address under its name with and without a dot; any other length is passed over |
| MdnsPacket.StringsRead | infra/discovery/mdns.go:311-324 | encoded key-value strings read back in order, a later one replacing an earlier whose key is the same in lower case |
| MdnsPacket.Discovery.ReadTxt | infra/discovery/mdns.go:311-324 | the strings of a TXT record are taken up to the first that is cut off |
| MdnsPacket.Discovery.ReadRecord | infra/discovery/mdns.go:247-267 | a record is read in bounds and the cursor advances, or parsing stops |
| MdnsPacket.Discovery.ParsePacket | infra/discovery/mdns.go:221-330 | any packet is read in bounds and adds exactly its well-formed records |
| Reliability.Reduce | domain/notification/reliability.go:94-154 | the fold over the events gives the downtime, the number of offline reports, the state and the last event of the stream |
| Reliability.DowntimeIsCount | domain/notification/reliability.go:101-137 | for every ordered stream the downtime is the number of offline seconds in [from, to), plus what recoveries were charged in excess, less what repeated offline events forgot |
| Reliability.IncidentsAreOutages | domain/notification/reliability.go:106-109 | incidents are the offline reports; they are as many as the outages that begin in the window if and only if no outage is reported twice |
| Reliability.FaithfulIncidents | domain/notification/reliability.go:106-124 | a faithful stream has one incident for each outage that begins in the window |
| Reliability.FaithfulIsExact | domain/notification/reliability.go:101-137 | for alternating streams with absent or exact durations the downtime is that number, hence between 0 and the window |
| Reliability.RepeatedOfflineForgets | domain/notification/reliability.go:106-109 | an offline event during an outage loses exactly the seconds since the last one |
| Reliability.RepeatedRecoveryOvercharges | domain/notification/reliability.go:110-124 | a recovery reported twice charges twice the window |
| Reliability.RecoveryCharges | domain/notification/reliability.go:110-124 | a recovery adds the seconds of the window in the downtime it reports, or else those since the offline event it answers, or none |
| Reliability.FaithfulScore | domain/notification/reliability.go:139-153 | the percentage is the share of seconds up, and the camera is currently offline if and only if it is at the window's end |
| LogNames.DayParses | infra/logging/logger.go:526-530 | a text parses to a date if and only if it is that date as printed |
| LogNames.DatesAreDays | infra/logging/logger.go:526-530 | the dates are all the days of the Gregorian years 0 to 9999, each once and in order |
| LogNames.NameParsesBack | infra/logging/logger.go:454-463 | every generated name reads back as its own day |
| LogNames.NamesAreUnique | infra/logging/logger.go:454-463 | different days or sequence numbers have different names |
| LogNames.ParsesExactly | infra/logging/logger.go:505-531 | a long enough name is read as a date's if and only if it is that date's name with or without a run of digits |
| LogNames.RetentionIsExact | infra/logging/logger.go:465-531 | printer, globs and parser are in step: what retention takes for a day's log is what is named after that day |
| LogNames.EveryFileIsRetained | infra/logging/logger.go:444-463 | every file the logger writes is found and dated by retention |
| LogNames.DaysInOrder | infra/logging/logger.go:454-463 | files of different days sort by their days, whatever their numbers |
| LogNames.DayOrder | infra/logging/logger.go:465-495 | a day's files sort in the order of writing if and only if there is one, or no more than ten under an extension that sorts before the numbers |
| LogNames.ReadingOrder | infra/logging/logger.go:197-200 | the files on disk are read in the order of writing if and only if that is so of every day |
| LogNames.UsualReadingOrder | infra/logging/logger.go:197-200 | for an extension that goes on with a letter: if and only if no day has a second file |
| LogNames.FirstFileIsReadLast | infra/logging/logger.go:197-208 | then a day's first file comes after all its later ones |
| LogRotation.OrderKept | infra/logging/logger.go:370-420 | if at every restart all files of the day but the last have reached the new cap, files 0 to k of the day read in turn are its lines in the order of writing, in any order of days |
| LogRotation.NeverRaisedIsSealed | infra/logging/logger.go:381-438 | caps that are never raised meet that condition, for every day |
| LogRotation.CapKept | infra/logging/logger.go:342-358 | if at every restart with a cap each day's files that have reached it come first, no file ever exceeds the cap by more than one line |
| LogRotation.UncappedOneFile | infra/logging/logger.go:82-90 | a configured size that is not positive means no cap: all lines of a day are in its first file |
| LogRotation.ConfiguredCapKept | infra/logging/logger.go:82-90 | for caps of whole megabytes and lines of at most one that condition always holds, and so no file ever exceeds the cap by more than one line, however caps are changed |
| LogRotation.NeverRaisedIsStepped | infra/logging/logger.go:381-438 | caps that are never raised keep the cap as well |
| LogRotation.RestartKeepsCap | infra/logging/logger.go:376-391 | after a restart with a cap no later line of a day goes to a file that has reached it if and only if the day meets that condition |
| LogRotation.RaisedCapUnsteps | infra/logging/logger.go:376-391 | a run with a raised cap after which the condition fails |
| LogRotation.RestartAppends | infra/logging/logger.go:381-438 | after a restart with any cap the next line goes behind the day's lines if and only if every file but the last has reached that cap |
| LogRotation.RaisedCapReorders | infra/logging/logger.go:381-391 | a file filled under the lower cap that has room under the higher one takes the next line, past the lines of the file behind it |
| LogRotation.TwoMegabytesReorder | infra/logging/logger.go:82-88 | for instance from one megabyte to two, after 1024 lines of 1023 bytes |
| LogRotation.FileLogger.HighestSeqForDay | infra/logging/logger.go:425-438 | the loop ends on any directory and finds the first file that is absent or below the cap |
| LogRotation.FileLogger.EnsureActiveFile | infra/logging/logger.go:370-391 | the open file stays, or the day's target is opened with its size on disk |
| LogRotation.FileLogger.WriteEntry | infra/logging/logger.go:329-360 | a line is appended to the active file of its day, and only there |

## Left out

- Lock in `infra/coordination/redis.go`: its queue of waiters. The blind LPops at lines 99 and 207 are not atomic with the reads before them, so neither FIFO nor the survival of a live waiter is claimed; a granted Lock is the same SetNX as TryLock's.
- RedisLease is a state machine over values, not a class: its subject is the interleaving of commands of many processes.
- Retries inside the Redis client, TLS, connection pools and the health ping.
- Election: server restarts and failover of the store; the bounds are stated with the time resigning takes, whatever the client library makes of its five seconds.
- The cryptographic primitives (AES-GCM, HKDF, Argon2, DPAPI, systemd-creds). Argon2's parameters from a key file are not checked by the source; what the primitive does with zero is not modelled.
- resolvePassphrase: the passphrase is a parameter, already resolved and trimmed.
- Destroy, VerifyEscrow and Fingerprint; temporary files left behind by a failed write; file permissions.
- Errors of the reader and the writer under EncryptStream and DecryptStream.
- Rollup: ids are assumed to be recorded in increasing order, and the key of a notification is a function of its fields; the JSON in its metadata is not parsed.
- robustBand and the findings of AnomalyScan (floating point), the rest of Baseline, ManualScan, and Tally, which stops at a short page.
- Dashboard.Stats: blanks around categories and severities are taken as trimmed; sources, cameras, labels, unread rows and the sorting of the tallies are left out as more of the same. Buckets are found by position, where the source keeps one pointer in the series and one in the index.
- Reliability.Reduce: the paging and grouping by camera in CameraReliability, its sorting, and the JSON of an event. Uptime is a real number, where the source rounds.
- SlidingWindow: the Redis server's clock is the caller's, to the millisecond, and the script runs as one step.
- The other operations of the cache stores; eviction by the cache library.
- MdnsPacket: what lower-casing makes of a key is a parameter, addresses are kept as bytes, and the socket loop and MergeDevices are left out.
- LogNames: the undated file of an earlier version, which sorts behind the dated ones; the directory part of a path, and names with `*`, `?`, `[` or a backslash, which mean something in a glob: a configured name with a bracket would not match itself.
- LogRotation: failing writes, deletions by retention, and the width of int64.
- 64-bit wrap-around elsewhere than in the chunk counter.
