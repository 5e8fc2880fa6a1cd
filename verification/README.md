# MUSGoS, verified

A Dafny model of MUSGoS, a Go server for the Shockwave Multiuser protocol, with proofs about six of its
parts. `dafny verify dfyconfig.toml` checks the whole project.

- **The wire.** Lingo values, MUS messages, the frames cut out of a byte stream, and the cipher
  (`Bytes`, `Lingo`, `LingoRoundTrip`, `LingoCodec`, `LingoMedia`, `Message`, `Framing`, `Cipher`).
- **Operation locks.** The gate lock of one process and the Redis lease over it as transition systems in
  which any number of threads and processes interleave; the locks offered to scripts as an interpreter
  over script trees (`MemoryLock`, `LeaseLock`, `ScriptLocks`).
- **Sessions.** The connection pool, the session store, logon, movies and groups
  (`ConnPool`, `SessionStore`, `Logon`, `Sessions`, `Movies`).
- **Migrations.** Savepoints nested in the runner's transaction, and the runner (`Migrations`,
  `MigrationRunner`).
- **Queries.** The statement builder and the rewriting of its placeholders (`Rebind`, `QueryBuilder`,
  `QueryReader`, `SqlQuery`).
- **Time.** The token bucket, the cache with expiry, and its two clients (`RateLimiter`, `TtlCache`,
  `CacheClients`).

Objects that the server updates in place are classes whose methods are proved against functions of the old
state; the properties are then proved of those functions. Clocks, randomness, database answers and connection
failures are parameters. Times are integers or reals, integers are unbounded, and the widths that matter
(16 and 32 bit fields, int64 counters, the cipher's words) are written out.

Some properties hold of the code only under a condition. Each has an input that breaks it and a lemma that
gives the exact condition:

- A Media-free value comes back from the wire unchanged, whatever surrounds it, if and only if no non-empty
  property list lies inside another value. A container extracts every child twice, and a property list
  appends without resetting, so a nested one comes back with its pairs doubled (`LingoRoundTrip.RoundTrip`,
  `LingoRoundTrip.NestedPropListDoubles`). Of all values the server can print, with no Media tag behind them,
  exactly those come back that besides hold no Media (`LingoMedia.RoundTripOfAll`,
  `LingoMedia.MediaBeforeMediaTag`).
- Rewriting `?` as `$n` keeps a statement's meaning if and only if no `$` or `?` outside a literal stands
  directly before a digit (`Rebind.RebindKeepsMeaning`, `Rebind.DigitAfterPlaceholder`). The builders always
  meet the condition.
- `Register` keeps the pool's two maps inverse if and only if neither the id nor the connection belongs to
  something else, and `Unregister` if and only if the connection is known or no client has the empty id
  (`ConnPool.RegisterInverse`, `ConnPool.UnregisterInverse`, broken by `ConnPool.TakenIdBreaks` and
  `ConnPool.UnknownConnectionBreaks`).
- In every interleaving ids have one owner if and only if connections have distinct addresses and no id that
  a client may log on with is an address. Modes "none" and "open" accept any id, so a client can log on with
  the address a peer is about to connect from (`Sessions.OneOwnerIffApart`, `Sessions.BorrowedAddressBreaks`).
  Sessions agree with the pool if and only if, besides, no address is empty once anyone can log on
  (`Sessions.SessionsAgreeIff`, `Sessions.EmptyAddressDisagrees`).
- Group membership lies inside movie membership in every run over a set of movie ids if and only if no id
  and a colon begin a movie room, or another id and a colon (`Movies.NestedIffSeparate`,
  `Movies.AmbiguousIds`). Colon-free ids other than "movie" meet the condition.
- Ban answers are recent if and only if no other client of the shared cache writes under the ban prefix, and
  tokens validate exactly as issued if and only if no other client puts entries under a token
  (`CacheClients.BansRecentIffUnwritten`, `CacheClients.TokensRightIffUnforged`). Scripts share this cache and
  nothing keeps them from those keys.

- A second migration run after success is empty, for every list of migrations whose Ups run given
  statements, if and only if none of those statements drops a tracker row
  (`MigrationRunner.SettlesIffKeeping`, `MigrationRunner.ForgottenMigrationRunsAgain`). A stopped run is
  resumed where it stopped, and composes with the run that finishes, if and only if none of them changes the
  tracker (`MigrationRunner.ResumesIffLeaving`, `MigrationRunner.ComposesIffLeaving`,
  `MigrationRunner.ChangedRowBreaks`).
- One issue of a token lets two concurrent validations through only if the second fetches the token before
  the first has erased it, and then it can (`CacheClients.TwiceOnlyIfOverlapping`,
  `CacheClients.RaceAuthorizesTwice`).

Two of the breaking inputs do not arise in the server: it splits a remote address before it handles the
connection (`internal/adapters/inbound/tcp_server.go:128`), so no address is empty, and it unregisters only
connections it registered.

The comment on `RebindDollar` does not mention placeholders before digits; the model follows the code.

## Model

| member | source | states |
|---|---|---|
| `Bytes.Get32Put32` | internal/domain/types/lingo/l_string.go:20-52 | a 32-bit big-endian length read back where it was written is the length |
| `Bytes.GetI32PutI32` | internal/domain/types/smus/mus_message.go:107-126 | the same for signed 32-bit fields, through two's complement |
| `Bytes.BigEndian` | internal/domain/types/lingo/l_string.go:20-52 | a 32-bit length is written high byte first |
| `Lingo.FromRawShaped` | internal/domain/types/lingo/l_value.go:68-113 | parsing is total on all bytes and offsets, and at every depth of what it yields a property list has as many properties as values |
| `Lingo.PairsShaped` | internal/domain/types/lingo/l_prop_list.go:70-110 | however the input is cut, the pair loop leaves properties and values in step |
| `LingoRoundTrip.PrintedSize` | internal/domain/types/lingo/l_list.go:19-63 | every printed value has at least two bytes, so the list count bound never rejects printed data |
| `LingoRoundTrip.WireForm` | internal/domain/types/lingo/l_value.go:9-23 | the wire form of every value, byte by byte: its type tag, its width or its length, its padding |
| `LingoRoundTrip.ExtractPrinted` | internal/domain/types/lingo/l_value.go:68-113 | extraction from printed bytes consumes exactly the printed length after the tag and yields the value absorbed into the object's former state |
| `LingoRoundTrip.ListPrinted` | internal/domain/types/lingo/l_list.go:19-63 | a printed list reads back as its elements, each read twice, replacing what the object held |
| `LingoRoundTrip.PropListPrinted` | internal/domain/types/lingo/l_prop_list.go:70-144 | a printed property list reads back appended to what the object held |
| `LingoRoundTrip.RectPrinted` | internal/domain/types/lingo/l_rect.go:26-57 | a printed rectangle reads back with all four fields, each read twice |
| `LingoRoundTrip.PointPrinted` | internal/domain/types/lingo/l_point.go:22-46 | a printed point reads back with both fields |
| `LingoRoundTrip.TextPrinted` | internal/domain/types/lingo/l_string.go:20-52 | length-prefixed text reads back, its even padding consumed |
| `LingoRoundTrip.TextScalarPrinted` | internal/domain/types/lingo/l_symbol.go:19-53 | strings and symbols with padding, pictures without |
| `LingoRoundTrip.ParsePrinted` | internal/domain/types/lingo/l_value.go:68-113 | with any bytes before and after, parsing printed bytes yields the value read once at the root and twice below it, and consumes exactly its length |
| `LingoRoundTrip.RoundTrip` | internal/domain/types/lingo/l_prop_list.go:70-144 | the value comes back unchanged if and only if no non-empty property list lies strictly inside it |
| `LingoRoundTrip.NestedPropListDoubles` | internal/domain/types/lingo/l_prop_list.go:104-105 | a concrete list holding a property list comes back with the pair twice |
| `LingoRoundTrip.MediaIsLost` | internal/domain/types/lingo/l_media.go:3-17 | media prints no bytes: alone it reads back as void, a list of one reads back empty, and in a longer list the bytes are those of the list without it |
| `LingoMedia.MediaChildIsLost` | internal/domain/types/lingo/l_media.go:3-17 | where a value that holds a Media at any depth was printed, and no Media tag follows, neither of the two extractions yields it |
| `LingoMedia.PassIsSpoiled` | internal/domain/types/lingo/l_prop_list.go:70-110 | a pass over the pairs of a property list that holds a Media yields Media-free values up to that pair and never the pair itself |
| `LingoMedia.RoundTripOfAll` | internal/domain/types/lingo/l_value.go:44-113 | every printable value, if no Media tag follows it, comes back if and only if it holds no Media and no non-empty property list lies strictly inside it |
| `LingoMedia.MediaBeforeMediaTag` | internal/domain/types/lingo/l_media.go:3-17 | before a Media tag an empty Media does read back |
| `LingoCodec.FromRawBytes` | internal/domain/types/lingo/l_value.go:68-113 | the parser as run is the specified parser |
| `LingoCodec.ExtractList` | internal/domain/types/lingo/l_list.go:19-51 | the cursor-moving loop with its count bound is the specified list parser |
| `LingoCodec.ExtractPropList` | internal/domain/types/lingo/l_prop_list.go:70-110 | the appending loop with its two early exits is the specified one |
| `LingoCodec.ExtractRect` | internal/domain/types/lingo/l_rect.go:26-38 | the four-field loop, stopped short or not |
| `LingoCodec.ExtractPoint` | internal/domain/types/lingo/l_point.go:22-36 | two fields in place, the second possibly missing |
| `LingoCodec.GetBytes` | internal/domain/types/lingo/l_prop_list.go:129-144 | the printers, leaves and loops, produce the specified bytes |
| `Message.ExtractMUSMsgHeaderStringList` | internal/domain/types/smus/mus_msg_header_string_list.go:14-48 | the bounded extract loop is the specified list reader, errors included |
| `Message.WriteBytes` | internal/domain/types/smus/mus_msg_header_string_list.go:50-55 | the writer's loop produces count and strings |
| `Message.StringPrinted` | internal/domain/types/smus/mus_msg_header_string.go:14-44 | a written header string reads back with its length, padding consumed |
| `Message.StringListPrinted` | internal/domain/types/smus/mus_msg_header_string_list.go:14-55 | a written list reads back whole; the count bound never rejects it |
| `Message.ParsePacket` | internal/domain/types/smus/mus_message.go:32-126 | every header field is recovered and the content bytes too; under a cipher a Logon's value is parsed from the decryption of those bytes, any other message's from the bytes themselves |
| `Message.PacketFields` | internal/domain/types/smus/mus_message.go:107-126 | where each field stands in a packet, from the header bytes and the size to the content |
| `Message.LogonDecrypted` | internal/domain/types/smus/mus_message.go:91-104 | a Logon whose content was encrypted under a cipher that the server's undoes gives its value back if and only if the value is in the domain of the Lingo round trip |
| `Message.EncryptedPacketParsed` | internal/domain/types/smus/mus_message.go:37-48 | a packet encrypted as a whole parses like the packet, so that a Logon's content is decrypted twice |
| `Message.HeaderlessIsRefused` | internal/domain/types/smus/mus_message.go:37-48 | bytes without the header are refused unless a cipher gives them one |
| `Message.TruncatedIsRefused` | internal/domain/types/smus/mus_message.go:32-61 | a packet cut short is refused, wherever it is cut |
| `Message.SizeIsChecked` | internal/domain/types/smus/mus_message.go:50-61 | a plain packet's size is refused if and only if it is negative or announces more than there is |
| `Message.BoundRefusesUnreadable` | internal/domain/types/smus/mus_msg_header_string_list.go:14-48 | the bound on the recipient count refuses exactly the counts whose length fields alone would overrun the packet, and no list that could be read |
| `Message.ParsePrinted` | internal/domain/types/smus/mus_message.go:32-126 | a sent message is recovered field by field, its content exactly when in the domain of the Lingo round trip |
| `Framing.NextFrameExtends` | internal/adapters/inbound/tcp_server.go:23-42 | a decision once taken on a buffer is not changed by later bytes |
| `Framing.DrainAppend` | internal/adapters/inbound/tcp_server.go:217-240 | draining a stream is draining a prefix and going on from its leftover |
| `Framing.DrainResumes` | internal/adapters/inbound/tcp_server.go:217-240 | any split of the reads may be cut anywhere and resumed |
| `Framing.FramesReassemble` | internal/adapters/inbound/tcp_server.go:23-42 | the frames and the leftover are the stream, in order, nothing lost or added |
| `Framing.EveryFrameIsWhole` | internal/adapters/inbound/tcp_server.go:23-42 | every frame handed on has the header, the length it announces, and no more than the maximum |
| `Framing.StreamEnds` | internal/adapters/inbound/tcp_server.go:23-42 | the stream ends in less than a header, in less than the frame announced, or, dropped, in bytes that cannot begin a frame |
| `Framing.HandleConnection` | internal/adapters/inbound/tcp_server.go:154-304 | frames, error point and leftover depend on the bytes and not on how they were split into reads; the leftover stays below the maximum frame size |
| `Framing.DrainPrinted` | internal/adapters/inbound/tcp_server.go:217-240 | concatenated sent messages drain to exactly those messages |
| `Framing.MessagesDelivered` | internal/adapters/inbound/tcp_server.go:217-240 | for any messages and any split of their bytes, exactly those messages arrive in order and parsing recovers each |
| `Cipher.FeistelInverse` | internal/adapters/outbound/blowfish.go:364-423 | the rounds run with the key words reversed undo themselves, for any boxes |
| `Cipher.DirectionsAreInverse` | internal/adapters/outbound/blowfish.go:372-423 | the two directions of the block operation are mutual inverses on every block |
| `Cipher.BlockCipherIsBlowfish` | internal/adapters/outbound/blowfish.go:364-423 | the block operation is Blowfish as published: with a non-zero flag its encryption, with the flag zero, which the server calls encryption, its decryption |
| `Cipher.CryptogramTwice` | internal/adapters/outbound/blowfish.go:430-500 | applying the stream twice gives the input back |
| `Cipher.CryptogramPrefix` | internal/adapters/outbound/blowfish.go:450-500 | encrypting a prefix gives the prefix of the encryption |
| `Cipher.CryptogramIsOutputFeedback` | internal/adapters/outbound/blowfish.go:450-500 | byte i is the input byte combined with byte i of the fed-back blocks from zero: output feedback mode, section 6.4 of NIST SP 800-38A |
| `Cipher.OctetsInOrder` | internal/adapters/outbound/blowfish.go:450-500 | a block's octets are taken first word and high octet first |
| `Cipher.KeyStreamIsDecryption` | internal/adapters/outbound/blowfish.go:450-500 | the key stream feeds Blowfish decryption back: each block is the published encryption of the next |
| `Cipher.Blowfish.DoCrypto` | internal/adapters/outbound/blowfish.go:372-423 | the loop over the P array in either order is the specified block operation |
| `Cipher.Blowfish.SetKey` | internal/adapters/outbound/blowfish.go:321-362 | afterwards every pair of key words and of substitutions is the encryption of the pair before it under the tables as they stood, from the zero block, with the key mixed in first |
| `Cipher.ScheduleIsScheduled` | internal/adapters/outbound/blowfish.go:321-362 | the schedule by its words: key word i first takes in octets 4i to 4i + 3 of the whole key repeated, cut or not, and then both tables are chained encryptions |
| `Cipher.ScheduledIsUnique` | internal/adapters/outbound/blowfish.go:321-362 | no other tables fit that description |
| `Cipher.Blowfish.MungeData` | internal/adapters/outbound/blowfish.go:450-500 | the byte loop combines the input with the key stream from the block the state stands for, and leaves the first word of the block reached and the offset in it |
| `Cipher.Blowfish.Encrypt` | internal/adapters/outbound/blowfish.go:430-438 | output is a function of the tables and the input alone |
| `Cipher.Blowfish.Decrypt` | internal/adapters/outbound/blowfish.go:440-448 | the same function, so it undoes Encrypt |
| `Cipher.TurnedIsFeedback` | internal/adapters/outbound/blowfish.go:450-500 | after whole blocks the block reached is the fed-back one |
| `Cipher.KeyedAfterHistory` | internal/adapters/outbound/blowfish.go:309-362 | made, keyed, and after any history of calls, what the cipher makes of a message is a function of the initial tables, the key and the message, and the message comes back |
| `Cipher.KeyedTwice` | internal/adapters/outbound/blowfish.go:321-362 | keying works on the tables in place, so keying again schedules the schedule |
| `Cipher.EncryptAfterHistory` | internal/adapters/outbound/blowfish.go:425-448 | after any sequence of earlier calls the tables are the same, and decrypting what was encrypted gives the message |
| `MemoryLock.StepKeepsInv` | internal/adapters/outbound/memory_cache_lock.go:16-57 | every step of every thread keeps token plus holder at one, the user count right, and all users of a key on the object in the map |
| `MemoryLock.RunKeepsInv` | internal/adapters/outbound/memory_cache_lock.go:16-57 | so does every run |
| `MemoryLock.EveryRunIsExclusive` | internal/adapters/outbound/memory_cache_lock.go:16-57 | no interleaving of acquirers, cancellations and repeated releases gives a key two holders |
| `MemoryLock.GateNeverSticks` | internal/adapters/outbound/memory_cache_lock.go:40-57 | whoever calls a holder's release closure starts its body, whose send never blocks; a waiter can go on exactly when there is no holder |
| `MemoryLock.EveryHandleSendsOnce` | internal/adapters/outbound/memory_cache_lock.go:46-50 | however often and by whomever a release closure is called, it gives the token back once |
| `MemoryLock.EntryGoesWithLastUser` | internal/adapters/outbound/memory_cache_lock.go:32-39 | the map entry disappears exactly with its last user |
| `MemoryLock.EveryoneCanLeave` | internal/adapters/outbound/memory_cache_lock.go:32-57 | from every reachable state each goroutine can leave by its own steps, a waiter by giving up; token and reference are then back and no one else is affected |
| `MemoryLock.ReleaseHandsOver` | internal/adapters/outbound/memory_cache_lock.go:40-57 | when a holder releases, any waiter of the key can take it next |
| `MemoryLock.CancelledOnlyLeaves` | internal/adapters/outbound/memory_cache_lock.go:41-43 | a waiter whose context ended never takes the lock and can always drop its reference |
| `LeaseLock.StepKeepsInv` | internal/adapters/outbound/redis_cache_lock.go:29-120 | every step keeps each operation seated in its process's gate and tokens unique |
| `LeaseLock.OneOperationPerProcess` | internal/adapters/outbound/redis_cache_lock.go:29-78 | in every run a process has at most one operation past its gate, lapsed lease or not |
| `LeaseLock.LeaseIsOnlyItsOwners` | internal/adapters/outbound/redis_cache_lock.go:15-23 | no renewal, release or acquisition by anyone else changes a live lease |
| `LeaseLock.ReleasedKeyIsTaken` | internal/adapters/outbound/redis_cache_lock.go:15-18 | once the owner's release has landed the key stays free, and the next operation to try takes it for thirty seconds |
| `LeaseLock.LostIffEverLost` | internal/adapters/outbound/redis_cache_lock.go:81-105 | an operation's context is cancelled if and only if one of its renewals found the lease gone, failed or was not answered in time |
| `LeaseLock.TicksEveryTenSeconds` | internal/adapters/outbound/redis_cache_lock.go:87-101 | renewals are due every ten seconds from the grant's reply on, whenever they are handled |
| `LeaseLock.RenewalProlongs` | internal/adapters/outbound/redis_cache_lock.go:20-23 | a renewal that is due, sent, run and answered prolongs the lease to thirty seconds from then |
| `LeaseLock.EveryOperationCanEnd` | internal/adapters/outbound/redis_cache_lock.go:29-120 | from every reachable state each operation can end by its own steps; its own lease is then off the key, another's as it was, and its process's lock free of it |
| `LeaseLock.OneHolderWithoutExpiry` | internal/adapters/outbound/redis_cache_lock.go:29-120 | if no lease expires while held, there is one holder across all processes |
| `LeaseLock.LapsedLeaseHasTwoHolders` | internal/adapters/outbound/redis_cache_lock.go:29-120 | a run in which a lease lapses while held and two processes hold |
| `LeaseLock.RunningOwnsLiveLease` | internal/adapters/outbound/redis_cache_lock.go:51-120 | with a 30 s lease, 10 s renewals answered within 5 s and a first reply within 15 s, an operation not cancelled owns a live lease at every moment, and is the only one |
| `ScriptLocks.ScopeIsStill` | internal/adapters/outbound/lua_cache_module.go:13-72 | inside a scoped callback no command of any depth changes the held set |
| `ScriptLocks.WithLockRestores` | internal/adapters/outbound/lua_cache_module.go:13-72 | the held set after withLock is the one before it, whether the callback succeeds or fails, and a lease it took is released |
| `ScriptLocks.OutcomesObserved` | internal/adapters/outbound/lua_cache_module.go:13-72 | what a script observes, from the set of held keys alone: lock adds its key unless refused, withLock runs its callback with the key held and no new lock possible inside |
| `ScriptLocks.ExecAllAccounted` | internal/adapters/outbound/lua_cache_module.go:13-72 | at every point of every script each lease acquired is held or released, once, and the context is built from exactly the held leases in the order they were acquired |
| `ScriptLocks.CacheModule.ReleaseAll` | internal/adapters/outbound/lua_cache_module.go:199-207 | the final closure releases exactly what is still held |
| `ScriptLocks.Execute` | internal/adapters/outbound/lua_cache_module.go:11-208 | after execution, however it ends, every lease acquired has been released exactly once |
| `ConnPool.OneOwnerPerId` | internal/adapters/inbound/conn_pool.go:24-83 | inverse maps mean no two connections share an id |
| `ConnPool.RegisterInverse` | internal/adapters/inbound/conn_pool.go:24-30 | registering keeps the maps inverse if and only if neither the id nor the connection belongs to something else |
| `ConnPool.UnregisterInverse` | internal/adapters/inbound/conn_pool.go:32-40 | unregistering keeps them inverse if and only if the connection is known or no client has the empty id |
| `ConnPool.TakenIdBreaks` | internal/adapters/inbound/conn_pool.go:24-30 | a connection that registers under an id another was remapped to breaks them |
| `ConnPool.UnknownConnectionBreaks` | internal/adapters/inbound/conn_pool.go:32-40 | removing a connection that was never registered drops a client with the empty id |
| `ConnPool.RemapInverse` | internal/adapters/inbound/conn_pool.go:69-83 | remapping always keeps them inverse and moves exactly that connection |
| `ConnPool.ConnectionPool.RemapClientID` | internal/adapters/inbound/conn_pool.go:69-83 | the method is the specified remap and reports a taken or unknown id |
| `ConnPool.ConnectionPool.UnregisterConn` | internal/adapters/inbound/conn_pool.go:32-40 | the method is the specified removal and gives back the id |
| `SessionStore.JoinAgrees` | internal/adapters/outbound/memory_session_store.go:166-181 | the two room indexes stay one relation without empty rooms, grown by exactly one pair |
| `SessionStore.LeaveAgrees` | internal/adapters/outbound/memory_session_store.go:183-198 | the same, shrunk by exactly one pair |
| `SessionStore.LeaveAllAgrees` | internal/adapters/outbound/memory_session_store.go:230-247 | the same, without any pair of that client |
| `SessionStore.MemorySessionStore.LeaveAllRooms` | internal/adapters/outbound/memory_session_store.go:230-247 | the loop over the client's rooms removes it from all of them |
| `SessionStore.MemorySessionStore.UnregisterConnection` | internal/adapters/outbound/memory_session_store.go:44-64 | connection, attributes and room memberships go together |
| `SessionStore.MemorySessionStore.JoinRoom` | internal/adapters/outbound/memory_session_store.go:166-181 | the method is the specified join and keeps the indexes agreeing |
| `SessionStore.MemorySessionStore.LeaveRoom` | internal/adapters/outbound/memory_session_store.go:183-198 | the method is the specified leave and keeps the indexes agreeing |
| `Logon.AcceptedIffAdmitted` | internal/domain/services/logon_service.go:113-226 | a request passes the branches of its mode if and only if it meets that mode's admission rule, with that id and level |
| `Logon.RefusalCodes` | internal/domain/services/logon_service.go:113-226 | each refusal code for exactly one reason; an accepted request keeps its movie, a refused one the id it claims |
| `Logon.LogonService.Logon` | internal/domain/services/logon_service.go:113-202 | outcome, pool and store after a logon; a refusal changes neither; the token is presented to the token store exactly in token mode with credentials, and nothing else touches it |
| `Logon.LogonService.Decide` | internal/domain/services/logon_service.go:113-226 | the switch over the modes is the specified decision; a presented token is spent whether or not it passes |
| `Logon.LogonService.EstablishSession` | internal/domain/services/logon_service.go:231-271 | the session moves to the new id, keeping its address, or nothing changes, with or without a connection writer |
| `Sessions.EveryInterleavingHasOneOwner` | internal/domain/services/logon_service.go:231-271 | with addresses distinct and apart from user ids, in every interleaving of the substeps of connects, logons and teardowns the pool's maps are inverse and ids have one owner |
| `Sessions.OneOwnerIffApart` | internal/adapters/inbound/tcp_server.go:174-199 | that is so in every interleaving if and only if addresses are distinct and no user id is an address |
| `Sessions.BorrowedAddressBreaks` | internal/adapters/inbound/tcp_server.go:174-174 | a client that logs on with a peer's address loses the entry when the peer connects |
| `Sessions.RefusedLogonChangesNothing` | internal/domain/services/logon_service.go:231-271 | in every interleaving no step of a logon that ends refused, from its start to its refusal, changes pool or store |
| `Sessions.LogonAlone` | internal/domain/services/logon_service.go:231-271 | a logon whose substeps are not interrupted does what it does in one step: it moves connection and session over when the id is free and changes nothing when it is not |
| `Sessions.ConnectionAlone` | internal/adapters/inbound/tcp_server.go:174-199 | so do connecting and disconnecting |
| `Sessions.SessionsAlwaysAgree` | internal/adapters/inbound/tcp_server.go:174-199 | over atomic connects, logons, re-logons and teardowns, sessions are the pool's ids, each with its own connection's address and the level of its last successful logon |
| `Sessions.SessionsAgreeIff` | internal/domain/services/logon_service.go:231-271 | that is so in every history if and only if addresses are distinct, apart from user ids and, once anyone can log on, not empty |
| `Sessions.EmptyAddressDisagrees` | internal/domain/services/logon_service.go:257-262 | a connection without an address that logs on twice gets its user id for an address |
| `Sessions.StampsWereAdmitted` | internal/domain/services/logon_service.go:113-271 | in every history every level stamped on a session was granted to that connection, under its present id, by a request the mode in force admits |
| `Sessions.RefusedIffTaken` | internal/domain/services/logon_service.go:231-271 | in every such state an id is free for a connection if and only if no other connection owns it |
| `Movies.GroupRoomsCollide` | internal/adapters/inbound/mus/group.go:59-61 | two movie ids share a group room if and only if one id and a colon begin the other and a colon |
| `Movies.NestedIffSeparate` | internal/adapters/inbound/mus/movie.go:76-161 | every serialized run over a set of movie ids keeps the indexes agreeing and groups inside movies if and only if no id and a colon begin a movie room or another id and a colon |
| `Movies.OneJoinBreaks` | internal/adapters/inbound/mus/movie.go:76-113 | for ids that are not so, one join is enough to break it |
| `Movies.ColonFreeIdsAreSeparate` | internal/adapters/inbound/mus/movie.go:72-74 | colon-free ids other than "movie" are separate |
| `Movies.GroupRoomIsMovieRoom` | internal/adapters/inbound/mus/movie.go:72-74 | a colon-free id's group room is a movie room only for the id "movie" |
| `Movies.StrayMembership` | internal/adapters/inbound/mus/movie.go:76-113 | for which pairs of ids joining one makes the user a member of a group of the other, exactly |
| `Movies.AmbiguousIds` | internal/adapters/inbound/mus/movie.go:76-113 | joining "movie" enters a movie that does not exist; joining "a:b" enters a group of "a" |
| `Movies.JoinMovieEffect` | internal/adapters/inbound/mus/movie.go:76-113 | among separate ids, joining adds the movie and its @AllUsers group for that user and no other membership |
| `Movies.JoinGroupKeepsInv` | internal/adapters/inbound/mus/system_service_group.go:18-30 | group joins, refused ones that still register the group included, keep groups inside movies and add exactly that membership, for members of the movie |
| `Movies.LeaveAllGroupsKeepsInv` | internal/adapters/inbound/mus/group.go:134-150 | the user leaves every group of that movie and nothing else |
| `Movies.LeaveMovieLeavesAll` | internal/adapters/inbound/mus/movie.go:115-161 | afterwards, found or not, the user is in no room of that movie, every other membership stands, and the movie lives on exactly while it has members |
| `Movies.AttributesAfter` | internal/adapters/outbound/memory_session_store.go:44-164 | what each event does to a user's connection and attributes, exactly |
| `Movies.RunKeepsAttributes` | internal/adapters/inbound/mus/movie.go:115-161 | no run of joins and departures changes any other attribute of a connected user, its level among them |
| `Movies.GoneFromAllRooms` | internal/adapters/outbound/memory_session_store.go:230-247 | timers and teardown take the user out of every room and no one else out of any |
| `Movies.EveryRunIsNested` | internal/adapters/inbound/mus/movie.go:76-161 | in particular over colon-free ids other than "movie": members of a group are members of its movie, which exists and has the group registered; the indexes agree |
| `Movies.MovieManager.Join` | internal/adapters/inbound/mus/movie.go:76-113 | the method is the specified join |
| `Movies.MovieManager.Leave` | internal/adapters/inbound/mus/movie.go:115-161 | the loop over the registered groups is the specified departure; an unknown movie is an error |
| `Movies.MovieManager.HandleGroupJoin` | internal/adapters/inbound/mus/system_service_group.go:18-30 | succeeds exactly for members of an existing movie |
| `Movies.MovieManager.LeaveGroups` | internal/adapters/inbound/mus/group.go:134-150 | the loop over rooms with the movie's prefix is the specified departure |
| `Migrations.RawSqlIsAtomic` | internal/adapters/outbound/sql_migration.go:13-36 | a raw-SQL call takes effect whole or leaves data, savepoints and the blocked flag as they were |
| `Migrations.EveryRunIsWellNamed` | internal/adapters/outbound/sql_query_builder.go:52-63 | savepoint names stay unique and ordered in every run |
| `Migrations.RollbackUndoesScope` | internal/adapters/outbound/sql_query_builder.go:89-99 | whatever a nested transaction does, its Rollback restores the enclosing transaction to what it was at Begin |
| `Migrations.CommitKeepsScope` | internal/adapters/outbound/sql_query_builder.go:80-87 | its Commit keeps its writes and drops its savepoints, unless a failed statement blocks it |
| `Migrations.FinalizedOnce` | internal/adapters/outbound/sql_query_builder.go:80-99 | once a nested transaction is finalized, a later Commit or Rollback of it changes nothing, whatever comes between |
| `Migrations.FailureBlocks` | internal/adapters/outbound/sql_migration.go:13-36 | under the Postgres rule a failed statement blocks everything after it up to a rollback; without the rule it leaves no trace |
| `Migrations.StepsShifted` | internal/adapters/outbound/sql_query_builder.go:52-63 | the value of the global savepoint counter has no influence |
| `MigrationRunner.AttemptMarks` | internal/domain/services/migration_runner.go:118-126 | of rows its statements leave alone, a migration that lands adds exactly its own, absent before |
| `MigrationRunner.PlainMigrationLands` | internal/domain/services/migration_runner.go:118-126 | a migration whose statements all succeed lands: they take effect in order, with the tracker row |
| `MigrationRunner.FailureStopsMigration` | internal/domain/services/migration_runner.go:75-104 | under the Postgres rule a migration that goes on after a failed statement without rolling back never lands |
| `MigrationRunner.LongestPrefix` | internal/domain/services/migration_runner.go:52-64 | once a prefix does not land, no longer one does |
| `MigrationRunner.SecondRunIsEmpty` | internal/domain/services/migration_runner.go:37-65 | after a run in which all landed, nothing is pending, provided no statement drops a registered migration's row |
| `MigrationRunner.ForgottenMigrationRunsAgain` | internal/domain/services/migration_runner.go:37-65 | a migration whose row a later Up deletes is pending again |
| `MigrationRunner.NextRunResumes` | internal/domain/services/migration_runner.go:37-65 | after a run that stopped, exactly the rest is pending, in order, provided no statement touches a registered migration's row |
| `MigrationRunner.RunsCompose` | internal/domain/services/migration_runner.go:37-65 | under the same proviso a stopped run and one that finishes do together what one fault-free run does |
| `MigrationRunner.SettlesIffKeeping` | internal/domain/services/migration_runner.go:37-65 | for all lists of migrations whose Ups run statements of a given set, a second run after success is empty if and only if no statement of the set drops a tracker row |
| `MigrationRunner.ResumesIffLeaving` | internal/domain/services/migration_runner.go:37-65 | a stopped run is always resumed exactly where it stopped if and only if no statement of the set changes the tracker |
| `MigrationRunner.ComposesIffLeaving` | internal/domain/services/migration_runner.go:37-65 | a stopped run and one that finishes always do what one fault-free run does if and only if no statement of the set changes the tracker |
| `MigrationRunner.ChangedRowBreaks` | internal/domain/services/migration_runner.go:37-65 | a statement that changes a row breaks both on a list of two migrations, and one that drops it the empty second run as well |
| `MigrationRunner.SortIsUnique` | internal/domain/services/migration_runner.go:23-35 | distinct names leave one order only, so neither registration order nor an unstable sort matters |
| `MigrationRunner.SortSorts` | internal/domain/services/migration_runner.go:23-35 | the runner's list is the registered one in name order |
| `MigrationRunner.LessIsLexicographic` | internal/domain/services/migration_runner.go:26-28 | one name comes before another if and only if it is a proper prefix of it or has the smaller character where they first differ |
| `MigrationRunner.NumberedInOrder` | internal/domain/services/migration_runner.go:26-28 | names that begin with numbers padded to one width come in the order of the numbers |
| `MigrationRunner.RunnerOrder` | internal/domain/services/migration_runner.go:23-35 | in the runner's list the smaller name comes first, whatever the registration order |
| `MigrationRunner.MigrationTx.ExecuteMigrationSQL` | internal/adapters/outbound/sql_migration.go:13-36 | the method is the specified call and succeeds exactly when all its statements do |
| `MigrationRunner.MigrationTx.OpenSavepoint` | internal/adapters/outbound/sql_query_builder.go:53-59 | the method is the specified Begin; it fails in a blocked transaction |
| `MigrationRunner.MigrationTx.CommitSavepoint` | internal/adapters/outbound/sql_query_builder.go:80-87 | releases once, succeeding exactly when the savepoint is open and the transaction not blocked; a finalized savepoint is left alone |
| `MigrationRunner.MigrationTx.RollbackSavepoint` | internal/adapters/outbound/sql_query_builder.go:89-99 | rolls back and releases once, succeeding exactly when the savepoint is open; a finalized savepoint is left alone |
| `MigrationRunner.MigrationTx.CommitTx` | internal/adapters/outbound/sql_db.go:89-90 | publishes the transaction's content, once |
| `MigrationRunner.MigrationTx.RollbackTx` | internal/adapters/outbound/sql_db.go:89-90 | ends the transaction without publishing, once |
| `MigrationRunner.Runner.Inside` | internal/domain/services/migration_runner.go:95-104 | the transaction is finalized inside exactly when the commit was reached |
| `MigrationRunner.Runner.Apply` | internal/domain/services/migration_runner.go:75-104 | a migration lands whole with its row or the committed content is untouched, whether Up fails, panics, or begin, mark or commit fails; on every path a begun transaction is asked to end, and ends, exactly once |
| `MigrationRunner.Runner.RunPending` | internal/domain/services/migration_runner.go:37-65 | the committed content is the in-order application of the longest prefix of the pending migrations that lands, and exactly its names are reported; as many transactions ended as began |
| `Rebind.NumberItoa` | internal/adapters/outbound/sql_dialect.go:71-74 | a written decimal number reads back as itself |
| `Rebind.NumberedParam` | internal/adapters/outbound/sql_dialect.go:71-74 | `$k` is read as argument k if and only if no digit follows |
| `Rebind.RebindKeepsMeaning` | internal/adapters/outbound/sql_dialect.go:58-80 | the rewritten text read by number equals the original read by position, if and only if no `$` or `?` outside a literal stands directly before a digit |
| `Rebind.DigitAfterPlaceholder` | internal/adapters/outbound/sql_dialect.go:58-80 | `?5` is a statement whose meaning changes |
| `Rebind.RebindDollar` | internal/adapters/outbound/sql_dialect.go:58-80 | the loop is the specified rewriting, with the same exact condition |
| `QueryBuilder.SafeMeansMeant` | internal/adapters/outbound/sql_query_builder.go:148-232 | one placeholder per value, each where its value is meant, and the condition of the rewriting holds |
| `QueryBuilder.BuiltMeansMeant` | internal/adapters/outbound/sql_query_builder.go:148-232 | a built statement executes as meant both by position and, rewritten, by number |
| `QueryBuilder.WhereSafe` | internal/adapters/outbound/sql_query_builder.go:290-308 | conditions on valid columns contain nothing the rewriting could trip over |
| `QueryBuilder.IdentifierGrammar` | internal/adapters/outbound/sql_db.go:16-16 | identifiers letter by letter: a letter or an underscore, then letters, underscores and digits |
| `QueryReader.ConditionsAdd` | internal/adapters/outbound/sql_query_builder.go:128-146 | each condition added to a query adds its clause, with the sign and value given, after those already there |
| `QueryReader.PlainWritten` | internal/adapters/outbound/sql_query_builder.go:218-308 | read back by the words and signs of SQL, the statement names the table and exactly the conditions given |
| `QueryReader.UpdateWritten` | internal/adapters/outbound/sql_query_builder.go:169-194 | the same for an update, with its assignments in order |
| `QueryReader.IncrementWritten` | internal/adapters/outbound/sql_query_builder.go:196-216 | the same for an increment of one column by the delta |
| `QueryReader.InsertWritten` | internal/adapters/outbound/sql_query_builder.go:148-167 | the same for an insert, columns and values in step |
| `SqlQuery.BuildWhere` | internal/adapters/outbound/sql_query_builder.go:290-308 | text and values of the conditions in step, nil compared as IS NULL without a value; the first invalid column is the error |
| `SqlQuery.Insert` | internal/adapters/outbound/sql_query_builder.go:148-167 | for any order of the data, the statement executes as meant under both dialects, reading back as that table, those columns and those values, or the first invalid name is the error |
| `SqlQuery.Update` | internal/adapters/outbound/sql_query_builder.go:169-194 | the same, data before conditions |
| `SqlQuery.Increment` | internal/adapters/outbound/sql_query_builder.go:196-216 | the same, the delta before the conditions |
| `SqlQuery.Plain` | internal/adapters/outbound/sql_query_builder.go:218-288 | the same for delete, first, get and count |
| `RateLimiter.TokensConserved` | internal/adapters/inbound/rate_limiter.go:44-69 | tokens spent and tokens left never exceed capacity plus refill |
| `RateLimiter.RateBound` | internal/adapters/inbound/rate_limiter.go:44-69 | in any run and any interval a client is let through at most capacity plus rate times length |
| `RateLimiter.AcceptedIffWithinBound` | internal/adapters/inbound/rate_limiter.go:44-69 | a request is let through if and only if no window ending with it would then exceed capacity plus refill: the limiter refuses nothing the bound allows |
| `RateLimiter.BurstAccepted` | internal/adapters/inbound/rate_limiter.go:44-69 | of a new client's requests at one instant exactly the first maxRequests are let through |
| `RateLimiter.SpacedNeverRefused` | internal/adapters/inbound/rate_limiter.go:44-69 | requests far enough apart to refill one token are never refused |
| `RateLimiter.CleanupIsInvisible` | internal/adapters/inbound/rate_limiter.go:77-96 | whatever cleanup is interleaved, every decision is that of a limiter that never deletes |
| `RateLimiter.PassIsChecks` | internal/adapters/inbound/rate_limiter.go:86-94 | a pass is its checks in any order of the map |
| `RateLimiter.OnlyPartialKept` | internal/adapters/inbound/rate_limiter.go:86-94 | exactly the clients below their capacity keep their buckets |
| `RateLimiter.Limiter.Allow` | internal/adapters/inbound/rate_limiter.go:44-69 | the method is the specified step and decision |
| `RateLimiter.Limiter.Cleanup` | internal/adapters/inbound/rate_limiter.go:86-94 | the loop removes exactly the full buckets |
| `TtlCache.SweepingIsInvisible` | internal/adapters/outbound/memory_cache.go:42-111 | under a monotone clock every answer is that of a cache that never sweeps |
| `TtlCache.SweptEveryThousand` | internal/adapters/outbound/memory_cache.go:56-84 | every thousandth write leaves nothing expired behind |
| `TtlCache.PutIsRead` | internal/adapters/outbound/memory_cache.go:42-131 | a key whose last write is a Set reads as the value set for as long as its time to live says, in every run |
| `TtlCache.DeleteIsRead` | internal/adapters/outbound/memory_cache.go:113-131 | a deleted key has no value and counts from one |
| `TtlCache.PutThenIncrement` | internal/adapters/outbound/memory_cache.go:86-111 | a counter goes on from the number set, is refused at the largest one and on anything else |
| `TtlCache.CounterEnds` | internal/adapters/outbound/memory_cache.go:86-111 | a counter set with a time to live ends with it, however often it is incremented before |
| `TtlCache.MembersAreThoseAdded` | internal/adapters/outbound/memory_cache.go:113-194 | in every run a set holds exactly the members added and neither removed nor deleted since |
| `TtlCache.SetAnswers` | internal/adapters/outbound/memory_cache.go:86-194 | and the set operations answer accordingly; a key that holds a set does not count |
| `TtlCache.ParseFormatted` | internal/adapters/outbound/memory_cache.go:99-108 | a formatted int64 parses back |
| `TtlCache.CountsUp` | internal/adapters/outbound/memory_cache.go:86-111 | while the entry lives the next increment answers one more and keeps the expiry |
| `TtlCache.AddedOnce` | internal/adapters/outbound/memory_cache.go:138-167 | an added member is there, a second addition reports so, and removing it undoes the first |
| `TtlCache.NoEmptySets` | internal/adapters/outbound/memory_cache.go:154-167 | no run leaves an empty set behind |
| `TtlCache.MemoryCache.Write` | internal/adapters/outbound/memory_cache.go:56-76 | the method is the specified write, sweeping every thousandth time |
| `TtlCache.MemoryCache.Sweep` | internal/adapters/outbound/memory_cache.go:78-84 | the loop removes exactly the expired entries |
| `TtlCache.MemoryCache.Bump` | internal/adapters/outbound/memory_cache.go:86-111 | the method is the specified increment with its three errors |
| `TtlCache.MemoryCache.Read` | internal/adapters/outbound/memory_cache.go:42-54 | an entry is seen exactly while it lives |
| `TtlCache.MemoryCache.AddOnce` | internal/adapters/outbound/memory_cache.go:138-152 | the member is in the set afterwards, and new exactly when reported so |
| `CacheClients.BanAnswersAreRecent` | internal/adapters/inbound/ban_checker.go:18-43 | for an address whose entry no other client writes, every answer is one the database gave for it and that was stored at most thirty seconds earlier |
| `CacheClients.BanIsRemembered` | internal/adapters/inbound/ban_checker.go:18-43 | for thirty seconds after a database answer was stored, further checks of that address repeat it |
| `CacheClients.BansRecentIffUnwritten` | internal/adapters/inbound/ban_checker.go:18-43 | that is so for all addresses, whatever operations other clients of the cache perform, if and only if none of them writes under the ban prefix |
| `CacheClients.ForeignBanBreaks` | internal/adapters/outbound/lua_cache_module.go:87-92 | any single write there by another client decides a check against the database |
| `CacheClients.ForgedVerdictNeverExpires` | internal/adapters/outbound/lua_cache_module.go:87-92 | after one Put without expiry a banned address passes a thousand seconds later |
| `CacheClients.BanChecker.IsIPBanned` | internal/adapters/inbound/ban_checker.go:18-43 | the method is the specified check over the shared cache, reading and writing at their own times |
| `CacheClients.CacheHoldsOutstanding` | internal/adapters/outbound/cache_token_store.go:48-93 | at every point of every run the cache shows exactly the tokens last issued and neither presented nor deleted since, within their time |
| `CacheClients.KeysApart` | internal/adapters/outbound/cache_token_store.go:48-93 | the keys of bans and of tokens never coincide |
| `CacheClients.ValidatesIffOutstanding` | internal/adapters/outbound/cache_token_store.go:69-93 | a token under which no other client puts an entry validates if and only if it was issued, neither presented nor deleted since, and is within its time to live, and gives its payload back |
| `CacheClients.TokensRightIffUnforged` | internal/adapters/outbound/cache_token_store.go:69-93 | that is so for all tokens, whatever operations other clients perform, if and only if none of them is a Put under a token |
| `CacheClients.ForgeryBreaks` | internal/adapters/outbound/lua_cache_module.go:87-92 | any single such Put makes some validation wrong |
| `CacheClients.AtMostOnce` | internal/adapters/outbound/cache_token_store.go:69-93 | between two successes of one token lies another issue of it |
| `CacheClients.TwiceOnlyIfOverlapping` | internal/adapters/outbound/cache_token_store.go:75-82 | with get and delete as separate steps, two validations pass on one issue only if the second gets before the first has deleted |
| `CacheClients.RaceAuthorizesTwice` | internal/adapters/outbound/cache_token_store.go:75-82 | the run in which both do |
| `CacheClients.CacheTokenStore.ValidateToken` | internal/adapters/outbound/cache_token_store.go:69-93 | the method is the specified get, delete and decode |

## Left out

- Sockets, goroutine scheduling, HTTP, UDP, metrics, console, logging, mail, configuration and wiring.
- The Redis and RabbitMQ queues and the Redis session store. Redis is reduced to get, set-if-absent, compare-and-delete and compare-and-expire for the lease.
- The script engine, the Lua conversion, JSON, bcrypt, UUIDs and random numbers. Password hashes are an opaque predicate, tokens and payload encodings are parameters.
- The JSON storage codec, schema DDL text, row scanning, script path containment and the sandbox loader.
- Lingo values are modelled by the value an object holds, passed in and returned by extraction; aliasing between Lingo objects is not captured.
- LingoCodec.ExtractFromBytes: leaves without children are read by their specification function, because those branches have no loop.
- LingoRoundTrip.RoundTrip: does not cover media values, which LingoMedia.RoundTripOfAll does, nor points and rectangles with missing fields, which the server cannot print.
- Composing whole-packet encryption with framing: framing checks the plain header first.
- Framing.HandleConnection: leaves out rate-limited frames, write errors and the handler's reply; it is about the bytes read.
- Cipher: the contents of the P and S tables are arbitrary, so no published test vectors follow.
- ConnPool: the per-connection write mutex, writing and closing sockets.
- Sessions.EveryInterleavingHasOneOwner: assumes that connections have distinct addresses and that no id a client may log on with is an address, which modes "none" and "open" do not enforce; Sessions.OneOwnerIffApart proves the assumption necessary.
- Sessions.SessionsAlwaysAgree: assumes besides that no address is empty once anyone can log on, proved necessary by Sessions.SessionsAgreeIff; claims agreement for atomic steps only, because teardown touches pool and store separately; the pool's own facts hold under any interleaving.
- Movies.NestedIffSeparate: is about serialized runs; JoinMovie releases the manager's lock before it joins the room. Group attributes are left out.
- MigrationRunner.Runner.Apply: covers the transactional path; the two-step path for adapters without transactions is not modelled.
- MigrationRunner.SecondRunIsEmpty: requires that no statement drops a registered migration's row; MigrationRunner.SettlesIffKeeping gives the exact condition.
- MigrationRunner.NextRunResumes: requires that no statement touches a registered migration's row; MigrationRunner.ResumesIffLeaving gives the exact condition.
- MigrationRunner.RunsCompose: requires the same; MigrationRunner.ComposesIffLeaving gives the exact condition.
- MigrationRunner.AttemptMarks: requires of its one migration that it leaves the rows in question alone.
- Migrations: a statement is a function of the content, so transaction control inside raw SQL is left out.
- Rebind.RebindKeepsMeaning: the reading by number knows single-quoted literals and `$digits`, not dollar quoting, quoted identifiers or comments. Text is a sequence of characters, so invalid UTF-8 is left out.
- RateLimiter: real arithmetic instead of floating point; `Remove` is left out.
- TtlCache: `Close` and the caller's copies of byte slices are left out.
- CacheClients.BanAnswersAreRecent: requires that no other client writes that address's entry, which the code does not enforce; CacheClients.BansRecentIffUnwritten proves it necessary. The thirty seconds count from the moment the answer was stored, not from the database query before it.
- CacheClients.ValidatesIffOutstanding: requires that no other client puts an entry under that token, proved necessary by CacheClients.TokensRightIffUnforged, and that payloads are written as JSON objects are: read back as themselves and never as numbers.
- CacheClients.AtMostOnce: is about serialized runs; CacheClients.TwiceOnlyIfOverlapping and CacheClients.RaceAuthorizesTwice are about concurrent ones. A ban checker without a database or without a cache is left out.
