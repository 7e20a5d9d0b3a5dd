# adbshare: a verified model of its protocols and state

adbshare moves files between a Linux host and an Android phone. A proxy on the phone answers a small binary RPC; a
FUSE layer, a daemon and a GUI on the host use it; pairing and the ADB transport bring the connection up. This project
models the parts whose correctness depends on many steps taken together and proves what they promise, for every
input, every run and every reachable state.

`dafny verify dfyconfig.toml` checks the whole project. Each file is one component.

| file | component |
|---|---|
| ProxyProtocol.dfy | the RPC client: callers, pool and semaphore, writer and reader tasks, device, as one interleaving system |
| Framing.dfy | length-prefixed frames on both ends, the device's request loop, the size caps |
| DirPages.dfy | the stat record, directory pages, the device's page builder, the host's paging loop |
| InodeMaps.dfy, InodeLocks.dfy | the FUSE layer's two inode tables, and the threads that share them under two locks |
| DirCache.dfy, DirCacheHistory.dfy | the directory-listing cache, and its runs against the history of the device |
| WideScalars.dfy, SpakeExchange.dfy | 256-bit scalar arithmetic and the SPAKE2 exchange of the pairing protocol |
| AdbStream.dfy, AdbMux.dfy | one ADB stream, and the connection that multiplexes many |
| TreePull.dfy, DeleteTree.dfy | the daemon's folder pull and recursive delete |
| DevicePaths.dfy | paths as they go to the device, and what a closing "/" or "/." does |
| Installs.dfy, BatchRunner.dfy | the daemon's single-install state machine and its bounded batch runner |
| DnsNames.dfy | DNS names with compression pointers |
| PngText.dfy | thumbnail metadata in PNG `tEXt` chunks |
| Bytes.dfy, Groups.dfy, Paths.dfy | byte layouts, commutative groups, paths |

How the outside enters the model:

- Concurrent code is a step system. A state, an `Enabled` predicate and an `Apply` function give the atomic steps the
  source takes between its awaits and locks; theorems quantify over every finite run. Time-outs, failures, cancelled
  callers and expiry are steps that may happen at any time, so no clock is modelled.
- Fields written only for a specification are history and no guard reads them: the request ids and the log of the
  proxy system, the counters of the cache and the multiplexer, the ghost sets of the install daemon.
- SHA-512, point compression, wide reduction and CRC-32 are function parameters, the curve is an arbitrary commutative
  group, `String::from_utf8` is a predicate parameter. `SpakeExchange.Sound` says all that is used about the curve.
- The device behind a tree walk, a listing or a delete is a file tree with operations that may fail. Behind a delete it
  also resolves links in paths, at most 40 of them in one path, and refuses paths of more than 4095 bytes.
- `String::from_utf8_lossy` on a listed name is a function parameter from bytes to bytes. Of it is used that what it
  gives decodes to itself and that a name stays a name.
- Paths are sequences of components, or, where their spelling matters, bytes; file names, keywords and messages are
  bytes.

## Where the code and its documentation differ

The model follows the code in each case.

- `ORDER` in crates/adb-pairing/src/spake2.rs is meant to be the group order but two of its bytes differ from L in
  section 5.1 of RFC 8032. `WideScalars.AdjustmentModuloRfcOrder` shows what that means: the adjusted password scalar
  is congruent to its input modulo L exactly when nothing had to be adjusted. Two sides of this code still agree. With
  a peer that uses L they do so exactly when nothing had to be adjusted (`SpakeExchange.RfcPeerIff`).
- A comment in `listdir` says the page offset counts what the device counts. The device skips by entries seen, the host
  advances by entries received. A directory with entries whose `lstat` fails can therefore repeat entries
  (`DirPages.LastEntryTwice`). `DirPages.ExactlyOnceIff` says when it does not.
- A comment on `LISTDIR_PAGE` says a bigger request is served as a full page. The device does not cap the number asked
  for; `DirPages.FullPageFits` is about the page the host asks for.
- `rename` treats a failed `stat` of its source as "not a directory". `DirCacheHistory.RenameCoverageIff` shows the
  cached listings that this leaves stale.
- `rename` onto a place with tracked paths strictly below it leaves an inode bound to a path that belongs to another
  inode (`InodeMaps.RenameInverseIff`, `InodeMaps.ClobberUnbindsTheLiveInode`).
- A mutating callback whose proxy call fails drops no listing even if the device carried the operation out.
  `DirCacheHistory.StaleAfterFailure` is a run that ends so, `CachedUntilFirstFailure` says what is shown then.
- An empty WRTE payload reads as the end of the stream (`AdbStream.EndSeenIff`).
- `write_name` and `read_name` carry labels of up to 191 bytes, not only the 63 of RFC 1035 (`DnsNames.ReadUndoesWriteIff`).
- `png_with_text` does not check keywords for NUL, and such a keyword is never read back (`PngText.ReadBackIff`). It
  appends behind stray bytes at the end of a file, where the reader misses the first text (`PngText.StrayBytesLoseTheFirst`).
- `delete_recursive` fails on a directory named through a link that lies inside it (`DeleteTree.ThroughItself`), and on
  one with a name that is not UTF-8 somewhere below it (`DeleteTree.UndecodableName`).
- `delete` checks the components of a path but passes it on as it came. With a "/" or "/." behind a link, the device
  follows the link: what it leads to is emptied, and then the delete fails (`DeleteTree.BehindClosingSlash`,
  `DeleteTree.TargetEmptied`). The link may lead to "/", which `delete` means to refuse.
- The folder pull enqueues a file twice when paging lists it twice (`TreePull.FileTwice`), and a file whose name is not
  UTF-8 under a path that is not its own (`TreePull.OtherPath`). It reports neither, nor entries that cannot be stat-ed.

## Model

| member | source | states |
|---|---|---|
| ProxyProtocol.EveryReplyIsItsOwn | crates/adb-proxy/src/client.rs:254-397 | In every run of callers, pool, writers, readers and device, with time-outs, failures and cancelled calls, a call that returns data, an error status or "empty frame" read them off the frame the device wrote for that very request: data exactly behind a zero byte, the status byte and its text otherwise, nothing from an empty frame; and every pooled connection is idle |
| ProxyProtocol.EveryOutcomeHasItsCause | crates/adb-proxy/src/client.rs:254-313 | In every run a call that comes by its outcome took the reply that was waiting for it, or met the closed, poisoned or exited end, the oversized request, the time-out or the failed dial that its outcome names |
| ProxyProtocol.OutcomeStands | crates/adb-proxy/src/client.rs:254-397 | Once a call has its outcome nothing changes it but dropping the call, and its operation and arguments never change |
| ProxyProtocol.HealthyReturns | crates/adb-proxy/src/client.rs:359-397 | A connection that is neither closed nor poisoned goes back into the pool, a flagged one is given up, and the permit comes back |
| ProxyProtocol.NothingVanishes | crates/adb-proxy/src/client.rs:146-203 | On a connection messages move on in order: a call adds its own request or takes the oldest reply, the device answers the oldest request, only a breaking writer loses a frame |
| ProxyProtocol.ServedOnce | crates/adb-proxy/src/client.rs:254-313 | A request is queued once on one connection and answered at most once: what the device answered to a call is never replaced later in a run |
| ProxyProtocol.PoolBounds | crates/adb-proxy/src/client.rs:345-397 | In every run pooled plus lent connections stay within `max_conns`, lent ones within the permits out, so the length guard of `release` never turns a healthy connection away, and the request lock is never contended |
| ProxyProtocol.SharedConnectionMixesReplies | crates/adb-proxy/src/client.rs:254-301 | Why exclusive lending is needed: two calls sharing a connection, both past the closed/poisoned check, can run so that the second is handed the first one's reply |
| ProxyProtocol.InitInv | crates/adb-proxy/src/client.rs:345-357 | The pool as `connect` leaves it satisfies the invariant |
| ProxyProtocol.RequestStepLocal | crates/adb-proxy/src/client.rs:254-313 | Each step of a request keeps what its connection promises in each phase and yields only answers logged for this request |
| ProxyProtocol.ConnStepLocal | crates/adb-proxy/src/client.rs:146-203 | Each step of a writer, a reader or the device keeps at most one message in flight, never clears a flag and never disturbs an idle connection |
| ProxyProtocol.ConnStepForHolder | crates/adb-proxy/src/client.rs:146-203 | Whatever writer, reader and device do, a reply on its way to a call is the logged answer to that call's own request |
| ProxyProtocol.PoolStepCounted | crates/adb-proxy/src/client.rs:359-397 | Acquiring, dialling, releasing and dropping a call keep the semaphore equal to the permits not held and the pool within its size |
| ProxyProtocol.MoveKeepsSentOnce | crates/adb-proxy/src/client.rs:254-313 | No step of a call puts a request in flight twice or after it was answered |
| ProxyProtocol.NextKeepsInv | crates/adb-proxy/src/client.rs:136-397 | Every enabled step of every party keeps the invariant: exclusive lending, one message in flight, answers matched to requests, counts exact |
| ProxyProtocol.RunKeepsInv | crates/adb-proxy/src/client.rs:136-397 | The invariant holds in every state of every run |
| Framing.Fill | crates/adb-proxy/src/client.rs:166-198 | Reading until enough bytes are buffered loses and reorders none and stops short only at the end of the stream |
| Framing.HostReader | crates/adb-proxy/src/client.rs:161-203 | For every way of cutting the stream into reads, the host's reader emits the frames of the whole stream and ends as parsing it at once would |
| Framing.HandleConnection | crates/adbshare-proxy-device/src/main.rs:177-274 | For every way of cutting the stream and every point of failure, the device serves exactly the requests in it, in order, up to the first whose dispatch task or reply fails, writes one framed answer each, and one more only for an oversized frame |
| Framing.ParseEncoded | crates/adb-proxy/src/client.rs:272-276 | A frame within the cap parses back whatever follows it, and one over the cap is refused |
| Framing.ParseAll | crates/adbshare-proxy-device/src/main.rs:177-241 | A stream of frames within the cap parses back to those frames |
| Framing.PrefixMonotone | crates/adb-proxy/src/client.rs:161-203 | More bytes only add frames: what was emitted for a prefix of a stream stands |
| Framing.ParseUpToCap | crates/adb-proxy/src/client.rs:161-203 | A stream of replies of any size reads as those before the first one over the cap |
| Framing.ServeAll | crates/adbshare-proxy-device/src/main.rs:177-274 | However the requests sent are cut, the device serves exactly them, in order, and writes the answers framed |
| Framing.TakeReplies | crates/adb-proxy/src/client.rs:161-203 | However the framed answers are cut, the host's reader emits them up to the first one over its cap |
| Framing.EndToEnd | crates/adb-proxy/src/client.rs:161-203 | However both directions cut what is put into them, the device serves exactly the requests sent and the host receives, in order, what `dispatch` answers to each, up to the first answer over its cap |
| Framing.HostAcceptsIff | crates/adb-proxy/src/client.rs:57-71 | The host takes a reply frame exactly when it has at most 8 MiB plus the status byte |
| Framing.DeviceAcceptsIff | crates/adbshare-proxy-device/src/main.rs:188-225 | The device takes a request exactly when the host's own size check lets it out |
| Framing.ReadReplyFits | crates/adbshare-proxy-device/src/main.rs:308-343 | No reply to a read outgrows the host's cap |
| Framing.ReadAnswers | crates/adbshare-proxy-device/src/main.rs:308-343 | A read of up to 8 MiB is answered with the bytes read behind a zero, or an error; a longer one is refused |
| Framing.RequestSpelled | crates/adb-proxy/src/client.rs:272-276 | A request on the wire is its opcode, the length of its arguments in four little-endian bytes, and they |
| Framing.ReplySpelled | crates/adbshare-proxy-device/src/main.rs:262-274 | A reply on the wire is its length in four little-endian bytes, and it |
| Framing.OversizedRefused | crates/adbshare-proxy-device/src/main.rs:188-225 | A request over the limit is answered with status 8, behind all other answers, and the end of the stream with nothing |
| StatCodec.RoundTrip | crates/adb-proxy/src/ops.rs:132-166 | Decoding a stat record undoes encoding it, negative times and trailing bytes included |
| StatCodec.FieldsSpelled | crates/adbshare-proxy-device/src/main.rs:1004-1017 | Which of the 60 bytes hold which field, little-endian, times in two's complement |
| DirPages.ParseDirEntries | crates/adb-proxy/src/client.rs:902-936 | The index loop computes the recursive parse of the entries and refuses a count that does not match |
| DirPages.ParseDirPage | crates/adb-proxy/src/client.rs:894-900 | A page is its count followed by that many entries; anything else is refused |
| DirPages.PageRoundTrip | crates/adb-proxy/src/client.rs:894-936 | Every page parses back to the entries written |
| DirPages.WrongCountRefused | crates/adb-proxy/src/client.rs:902-936 | A page whose count is not the number of its entries is refused |
| DirPages.EntrySpelled | crates/adbshare-proxy-device/src/main.rs:1074-1076 | An entry is the length of its name in four little-endian bytes, the name and the stat record |
| DirPages.PageSpelled | crates/adbshare-proxy-device/src/main.rs:1083-1086 | A page is the number of its entries in four little-endian bytes, and they, in order |
| DirPages.NoDotsOne | crates/adbshare-proxy-device/src/main.rs:1053-1055 | Of one raw entry everything but "." and ".." is counted |
| DirPages.NoDotsConcat | crates/adbshare-proxy-device/src/main.rs:1045-1062 | Of many, what is counted of each, in order |
| DirPages.CutPageRefused | crates/adb-proxy/src/client.rs:894-936 | Every proper prefix of a page is refused |
| DirPages.FullPageFits | crates/adb-proxy/src/client.rs:57-71 | A page of 16,384 entries with names of up to 255 bytes fits the host's frame cap |
| DirPages.DoListdir | crates/adbshare-proxy-device/src/main.rs:1030-1087 | The device's page is the encoding of the first `max` stat-able entries after skipping `offset` entries of any kind |
| DirPages.ListEntries | crates/adbshare-proxy-device/src/main.rs:1044-1081 | The loop on seen and emitted builds that page, however entries are encoded |
| DirPages.ListdirReplyFits | crates/adbshare-proxy-device/src/main.rs:412-440 | The reply to the page the host asks for, for any directory with names of up to 255 bytes, gets through the host's frame cap |
| DirPages.ListdirPage | crates/adb-proxy/src/client.rs:503-517 | A page fetched and parsed is the page the device built |
| DirPages.Listdir | crates/adb-proxy/src/client.rs:485-501 | The paging loop terminates and returns the pages up to the first short one, for every directory |
| DirPages.FullPageCoversItsWindow | crates/adbshare-proxy-device/src/main.rs:1030-1087 | A full page holds everything stat-able among the next 16,384 entries |
| DirPages.AtLeastOnce | crates/adb-proxy/src/client.rs:485-501 | Paging loses no stat-able entry and invents none, whatever fails |
| DirPages.ExactlyOnceIff | crates/adb-proxy/src/client.rs:485-501 | Paging yields each stat-able entry once, in order, exactly when no `lstat` fails in the window of a full page |
| DirPages.NoFailureExactlyOnce | crates/adb-proxy/src/client.rs:485-501 | That is so whenever no `lstat` fails |
| DirPages.LastEntryTwice | crates/adb-proxy/src/client.rs:491-496 | Where it fails: in a directory one entry longer than a page whose first entry cannot be stat-ed, the last entry comes twice |
| InodeMaps.Tables.constructor | crates/adbfs/src/filesystem.rs:325-340 | A new filesystem tracks "/" as ROOT and hands out numbers from 100 |
| InodeMaps.Tables.InoFor | crates/adbfs/src/filesystem.rs:401-410 | A tracked path keeps its number and nothing changes; a new one gets the counter's number, and every other entry of both tables stays |
| InodeMaps.Tables.ForgetIno | crates/adbfs/src/filesystem.rs:380-399 | Exactly the inode and its path go; the root and unknown numbers are ignored |
| InodeMaps.Tables.Rename | crates/adbfs/src/filesystem.rs:1087-1119 | The take-out and put-back loops amount to one simultaneous relocation of both tables |
| InodeMaps.InoForExactly | crates/adbfs/src/filesystem.rs:401-410 | The same as laws of the tables: what a lookup changes and what it leaves, entry by entry |
| InodeMaps.ForgetExactly | crates/adbfs/src/filesystem.rs:380-399 | What forgetting changes and what it leaves, entry by entry |
| InodeMaps.InoForKeeps | crates/adbfs/src/filesystem.rs:401-410 | `ino_for` keeps agreement, the root binding, freshness and, where it held, full inversion |
| InodeMaps.ForgetKeeps | crates/adbfs/src/filesystem.rs:380-399 | `forget_ino` keeps the same |
| InodeMaps.RenameKeeps | crates/adbfs/src/filesystem.rs:1087-1119 | Every rename keeps path-to-inode agreeing with inode-to-path, the root bound and numbers fresh |
| InodeMaps.RenameInverseIff | crates/adbfs/src/filesystem.rs:1087-1119 | A rename keeps the tables full inverses exactly when no moved path lands on a tracked path that stays |
| InodeMaps.NothingUnderDestination | crates/adbfs/src/filesystem.rs:1087-1119 | That is so when nothing tracked lies strictly under the destination, and always for a plain file |
| InodeMaps.RenameIsPrefixSubstitution | crates/adbfs/src/filesystem.rs:1087-1119 | Every inode at or under the source keeps its number and moves to the destination plus the same relative path, the overwritten inode is dropped, all else stays |
| InodeMaps.RenameKeepsNumbersIff | crates/adbfs/src/filesystem.rs:1087-1119 | No inode at or under the source is lost exactly when the destination is not a tracked path among them |
| InodeMaps.ClobberUnbindsTheLiveInode | crates/adbfs/src/filesystem.rs:380-410 | After a clobbering rename, forgetting the stale inode unbinds the live one and the next lookup gives the path a second number |
| InodeMaps.ClobberedKeepsBoth | crates/adbfs/src/filesystem.rs:1087-1119 | A path that is landed on keeps its old inode in one table and has its new one in the other |
| InodeMaps.ClobberExample | crates/adbfs/src/filesystem.rs:1087-1119 | It happens: two lookups from the start, then a rename onto an untracked directory, lose the inverse |
| InodeLocks.RunKeepsGood | crates/adbfs/src/filesystem.rs:380-410 | In every interleaving one thread at most is inside the outer lock and the tables are right once its half-done binding is made up |
| InodeLocks.TablesAgreeWheneverUnlocked | crates/adbfs/src/filesystem.rs:380-410 | In every run, whenever `path_to_ino` is unlocked the tables agree and "/" is ROOT; no number is ever issued twice |
| InodeLocks.TablesInverseWheneverUnlocked | crates/adbfs/src/filesystem.rs:1087-1119 | In every run whose renames clobber nothing the tables are full inverses whenever `path_to_ino` is unlocked |
| InodeLocks.SamePathSameNumber | crates/adbfs/src/filesystem.rs:401-410 | In every interleaving two lookups of one path with no forget or rename between their returns give the same number |
| InodeLocks.LookupReturnsItsPath | crates/adbfs/src/filesystem.rs:401-410 | A lookup returns the number bound to the path it was called with, and that number resolves to the path |
| InodeLocks.TakesEffectAsCalled | crates/adbfs/src/filesystem.rs:380-399 | A forget or rename that takes effect is one that was called, with its own arguments, and does what it does alone; no other step but a lookup's changes the tables |
| InodeLocks.NoDeadlock | crates/adbfs/src/filesystem.rs:1087-1119 | In every reachable state with a callback under way, some callback can take a step |
| DirCache.DirListings.constructor | crates/adbfs/src/cache.rs:106-112 | The cache starts empty with room for at least one listing |
| DirCache.DirListings.Get | crates/adbfs/src/cache.rs:115-123 | A live listing is returned; an expired one is removed from map and order |
| DirCache.DirListings.Put | crates/adbfs/src/cache.rs:131-149 | A put with an outdated epoch changes nothing; otherwise it stores the listing at the back and keeps map, order and capacity consistent |
| DirCache.DirListings.Evict | crates/adbfs/src/cache.rs:131-149 | The eviction loop removes exactly the oldest listings beyond what leaves room for one |
| DirCache.DirListings.Invalidate | crates/adbfs/src/cache.rs:152-156 | Removes one listing and bumps the epoch, whether or not it was cached |
| DirCache.DirListings.InvalidatePrefix | crates/adbfs/src/cache.rs:159-175 | Removes exactly the listings at or under the prefix and bumps the epoch |
| DirCache.RemoveFirst | crates/adbfs/src/cache.rs:131-149 | Dropping the first position of a path drops every one, because the order has no duplicates |
| DirCache.PutKeepsWellFormed | crates/adbfs/src/cache.rs:131-149 | Every put keeps `order` a duplicate-free list of the map's keys within capacity |
| DirCache.RemovedKeepsWellFormed | crates/adbfs/src/cache.rs:152-182 | So does every removal |
| DirCache.PutEvictsOnlyTheOldest | crates/adbfs/src/cache.rs:131-149 | A put onto a full cache evicts exactly the oldest listing, a re-put none, and the new one is last in line |
| DirCache.PutExactly | crates/adbfs/src/cache.rs:131-149 | A put under an outdated epoch changes nothing; any other leaves the order of the rest and puts its directory last, without the oldest if the cache was full |
| DirCache.InvalidatedExactly | crates/adbfs/src/cache.rs:152-171 | Exactly the directory, or all at or under it, go, the others keep their listing, and the epoch moves on by one |
| DirCache.WithoutConcat | crates/adbfs/src/cache.rs:159-171 | Taking directories out of the order leaves the rest in order |
| DirCacheHistory.UncoveredListingKept | crates/adbfs/src/filesystem.rs:346-373 | A directory that an operation's invalidations do not cover lists the same before and after it |
| DirCacheHistory.RenameCoverageIff | crates/adbfs/src/filesystem.rs:361-373 | The invalidations of a rename cover every listing it changes exactly when a directory was recognised as one |
| DirCacheHistory.CoversIff | crates/adbfs/src/filesystem.rs:1087-1140 | Which listings each callback drops, and no others: the parent's, the removed directory's own, and for a renamed directory all at or under both names |
| DirCacheHistory.LogTells | crates/adbfs/src/filesystem.rs:1087-1140 | In every run the history lists the mutations the device carried out, in order, and says of each whether its callback replied or failed |
| DirCacheHistory.AcceptedPutIsRecent | crates/adbfs/src/cache.rs:126-149 | A put the epoch check accepts stores a listing that no invalidation covering it has passed by since it was taken |
| DirCacheHistory.SameEpoch | crates/adbfs/src/cache.rs:126-149 | The 64-bit epochs of two moments are equal exactly when a multiple of 2^64 invalidations lies between them |
| DirCacheHistory.PageExtends | crates/adbfs/src/filesystem.rs:625-642 | A further page, taken at any later time, extends the front of the listing if that has not changed meanwhile |
| DirCacheHistory.StepKeepsInv | crates/adbfs/src/filesystem.rs:625-642 | Every step of every page-by-page reader and every mutating callback keeps the invariant |
| DirCacheHistory.CachedAfterEveryReply | crates/adbfs/src/cache.rs:99-183 | In every run the fetch of a cached listing began after every covering mutation whose callback has replied |
| DirCacheHistory.CachedShows | crates/adbfs/src/filesystem.rs:625-642 | In every run a cached listing is the device's listing at every moment up to the first covering mutation since its first page |
| DirCacheHistory.CoveringIsOpenOrFailed | crates/adbfs/src/cache.rs:126-175 | A covering mutation since the epoch was read has not dropped the entry only because its callback is open or failed |
| DirCacheHistory.CachedUntilFirstFailure | crates/adbfs/src/filesystem.rs:346-373 | With no covering callback open, a cached listing is the one just before the first failed covering mutation, or the current one |
| DirCacheHistory.CachedIsCurrent | crates/adbfs/src/filesystem.rs:625-642 | In every run a cached listing is what the device would answer now, if every covering mutation since its first page has replied and directories renamed since were recognised |
| DirCacheHistory.StaleAfterFailure | crates/adbfs/src/filesystem.rs:958-978 | A run that ends with a stale listing: an unlink the device carried out and the proxy reported as failed |
| DirCacheHistory.CacheBounded | crates/adbfs/src/cache.rs:83-183 | In every run the order lists the map's keys once each and never outgrows the capacity |
| WideScalars.OrderSpelled | crates/adb-pairing/src/spake2.rs:37-40 | The 32 bytes of `ORDER` as the number they spell |
| WideScalars.AddWide | crates/adb-pairing/src/spake2.rs:76-83 | The in-place carry loop is addition modulo 2^256 |
| WideScalars.LeftShift3 | crates/adb-pairing/src/spake2.rs:65-72 | The in-place shift loop is multiplication by 8 modulo 2^256 |
| WideScalars.ThreeRounds | crates/adb-pairing/src/spake2.rs:133-143 | Three rounds of conditional addition never outgrow 256 bits and add the one multiple of `ORDER` below eight that clears the low bits |
| WideScalars.AdjustPasswordScalar | crates/adb-pairing/src/spake2.rs:133-143 | The loop computes that adjusted scalar in place, for every reduced input |
| WideScalars.AdjustmentLaws | crates/adb-pairing/src/spake2.rs:121-143 | The adjusted scalar is divisible by 8, congruent to its input modulo `ORDER`, and nothing overflows for inputs below 2^253 |
| WideScalars.AdjustmentModuloRfcOrder | crates/adb-pairing/src/spake2.rs:37-40 | Modulo L of RFC 8032 the adjusted scalar is congruent to its input exactly when the low three bits were clear already |
| WideScalars.MulWide | crates/adb-pairing/src/spake2.rs:50-62 | The double-and-add ladder is exact integer scalar multiplication in any commutative group |
| SpakeExchange.Spake2.constructor | crates/adb-pairing/src/spake2.rs:114-155 | A new party holds the names of its role, the password hash and the adjusted password scalar |
| SpakeExchange.Spake2.GenerateMsg | crates/adb-pairing/src/spake2.rs:158-183 | The message is the ephemeral multiple of the base plus the password multiple of the own mask, M for Alice and N for Bob |
| SpakeExchange.Spake2.ProcessMsg | crates/adb-pairing/src/spake2.rs:186-222 | On success the key is the hash of client name, server name, Alice's message, Bob's message, the compressed shared point and the password hash, for either role; it fails exactly before `generate_msg` and on a bad point |
| SpakeExchange.HashTranscript | crates/adb-pairing/src/spake2.rs:202-221 | Six length-prefixed updates hash the transcript of the six fields |
| SpakeExchange.Unmasked | crates/adb-pairing/src/spake2.rs:186-200 | Taking the mask off the peer's message leaves the product of both ephemeral scalars times the base |
| SpakeExchange.PeerScalarIff | crates/adb-pairing/src/spake2.rs:186-200 | Against a peer with any password scalar, this side gets the product of the ephemerals exactly when both scalars, times its private one, are the same multiple of the peer's mask |
| SpakeExchange.RfcPeerIff | crates/adb-pairing/src/spake2.rs:186-200 | Against a peer that reduces by the order of RFC 8032, on a mask of that order up to a small-order part that tells scalars apart, it does exactly when the low three bits of the password scalar were clear |
| SpakeExchange.Agreement | crates/adb-pairing/src/spake2.rs:114-222 | For every password and every randomness both parties hash the same transcript and return the same key |
| SpakeExchange.Exchange | crates/adb-pairing/src/spake2.rs:233-241 | Two parties run against each other both succeed with the same 64 bytes |
| SpakeExchange.SmallOrderIsInvisible | crates/adb-pairing/src/spake2.rs:169-199 | A point of order dividing 8 added to a mask or to the peer's point leaves message and shared point unchanged |
| SpakeExchange.TranscriptInjective | crates/adb-pairing/src/spake2.rs:202-221 | Equal transcripts have equal fields |
| SpakeExchange.DifferentPasswordsDiffer | crates/adb-pairing/src/spake2.rs:244-253 | Parties whose passwords hash differently never feed the hash the same bytes |
| SpakeExchange.HashInputsDiffer | crates/adb-pairing/src/spake2.rs:202-222 | Runs of one role with different messages, shared points or password hashes never feed the hash the same bytes |
| SpakeExchange.SidesAgreeOnlyIf | crates/adb-pairing/src/spake2.rs:202-222 | The two sides feed it the same bytes only if each got what the other sent and both have the same point and password hash |
| SpakeExchange.TranscriptSpelled | crates/adb-pairing/src/spake2.rs:244-253 | Each field stands behind its length in eight little-endian bytes |
| SpakeExchange.MasksSpelled | crates/adb-pairing/src/spake2.rs:25-37 | Which of the two masks is M and which is N |
| AdbStream.PollKeepsBytes | crates/adb-device/src/connection.rs:62-95 | No poll loses, repeats or reorders a byte, for every buffer size |
| AdbStream.EndSeenIff | crates/adb-device/src/connection.rs:62-95 | A reader with room sees the end exactly when the channel is closed and drained or the next payload is empty |
| AdbStream.PollDelivers | crates/adb-device/src/connection.rs:62-95 | A reader with room waits exactly when nothing is there and more can come; otherwise it gets as much of the remainder or next chunk as fits, and the rest is saved |
| AdbStream.Stream.PollRead | crates/adb-device/src/connection.rs:62-95 | A poll takes from the saved remainder first, then from the channel, and saves what does not fit |
| AdbStream.Stream.PollWrite | crates/adb-device/src/connection.rs:97-144 | A write takes a non-empty prefix of at most one payload and queues exactly that, waits when the queue is full and fails when the writer is gone |
| AdbStream.Stream.WriteAll | crates/adb-device/src/connection.rs:97-129 | A whole buffer goes out as frames within the limit that concatenate to it |
| AdbMux.StepKeepsInv | crates/adb-device/src/connection.rs:212-371 | Every step of opens, reader, writer, owners, shutdowns and drops keeps every stream's bytes and acknowledgements |
| AdbMux.StreamsAreFaithful | crates/adb-device/src/connection.rs:296-328 | In every run bytes read, saved remainder and queued chunks are the accepted payloads in order, and the count of OKAYs lags them by at most one and never leads |
| AdbMux.OkaysAnswerWrites | crates/adb-device/src/connection.rs:296-328 | In every run a stream has accepted the first payloads the device wrote for it, and the OKAYs put into the writer's queue carry its number and the remote numbers of those payloads, in order, all but at most the last |
| AdbMux.CloseAnswersWrite | crates/adb-device/src/connection.rs:309-318 | The CLSE for a payload nobody takes names its stream and the remote number that payload came with |
| AdbMux.WriterTakesAll | crates/adb-device/src/connection.rs:345-370 | The writer takes exactly the frames queued by the steps of the run, in order |
| AdbMux.PendingIff | crates/adb-device/src/connection.rs:257-295 | An open is waited for exactly from its registration to the first OKAY, failure, CLSE, abort or end of the reader |
| AdbMux.RegisteredIff | crates/adb-device/src/connection.rs:296-318 | A stream is in the reader's table exactly from its registration to the step that takes it out |
| AdbMux.OwnedIff | crates/adb-device/src/connection.rs:415-450 | Its owner has given it up exactly if the open was aborted or the stream dropped |
| AdbMux.ClosedIff | crates/adb-device/src/connection.rs:235-295 | The device has closed or accepted it exactly if it sent a CLSE or an OKAY |
| AdbMux.LiveIff | crates/adb-device/src/connection.rs:62-95 | Its channel has hung up exactly if its last sender went |
| AdbMux.NoEarlyDataIsDropped | crates/adb-device/src/connection.rs:393-459 | For a device that writes only after its OKAY, a stream its owner still holds and neither side has ended has lost nothing the device sent |
| AdbMux.NumbersAreFresh | crates/adb-device/src/connection.rs:393-407 | A new stream's number was never used before |
| AdbMux.RegisteredBeforeOpen | crates/adb-device/src/connection.rs:393-420 | In every run an OPEN waiting to be sent comes after the step that registered its stream, and none for that number was queued before |
| AdbMux.OpensAreForStreams | crates/adb-device/src/connection.rs:393-420 | In every run each queued OPEN is for a stream that exists |
| DevicePaths.ChildAsked | crates/adb-daemon/src/main.rs:1999-2001 | A child's path names the child of what its parent's path names, whatever slashes or "." that ended in |
| DevicePaths.ChildPathSpelled | crates/adb-daemon/src/main.rs:1999-2001 | One slash before the name, however many the parent ends in |
| DevicePaths.RemoteFromChild | crates/adb-daemon/src/main.rs:1999-2001 | Joining names one after another to a child's path is joining them all to its parent's |
| DevicePaths.UnderRoot | crates/adb-daemon/src/main.rs:2608-2611 | "/n", "/n/" and "/n/." have the same components and differ in how they end |
| TreePull.VisitEntry | crates/adb-daemon/src/main.rs:2400-2426 | One entry moves into the queue or onto the stack without changing the total of files, errors and folders to come, unless its folder cannot be made |
| TreePull.VisitEntries | crates/adb-daemon/src/main.rs:2400-2426 | So do all entries of a folder, until the file cap is hit or a folder cannot be made |
| TreePull.PopFolder | crates/adb-daemon/src/main.rs:2391-2426 | One turn of the stack loop takes one folder off what is left to visit and accounts for it as listed, too deep or blocked |
| TreePull.Walk | crates/adb-daemon/src/main.rs:2391-2428 | The stack loop terminates and what it enqueued and reported adds up to what the stack promised |
| TreePull.EnqueueTreePull | crates/adb-daemon/src/main.rs:2384-2428 | For whatever listings the device gives: however it ends, also half-way, at most 10,000 files are enqueued and nothing the listings do not show as a file; without a cap or failure exactly the files of the recursive enumeration, with one error per folder left out; it fails only on a folder that cannot be listed or made |
| TreePull.TypesHandled | crates/adb-proxy/src/ops.rs:101-112 | With any permission bits, mode 0o120000 is skipped, 0o040000 descended into and 0o100000 enqueued |
| TreePull.DepthCap | crates/adb-daemon/src/main.rs:2030-2033 | A folder 32 levels down is left out with an error, one above is not |
| TreePull.FindsFolder | crates/adb-daemon/src/main.rs:2391-2426 | When in every folder failing `lstat`s fall on the last page and names decode to themselves, the enumeration of what the listings show finds the folder's own stat-able files, all of them unless a folder is too deep |
| TreePull.FindsEntries | crates/adb-proxy/src/client.rs:485-501 | The same for the entries of one folder |
| TreePull.Located | crates/adb-daemon/src/main.rs:1999-2001 | Every file of a folder is pulled to a path below the folder's, through the entry it was found in |
| TreePull.OnceEach | crates/adb-daemon/src/main.rs:2384-2428 | Each stat-able file of a folder is counted once |
| TreePull.WholeFolderOnce | crates/adb-daemon/src/main.rs:2384-2428 | Under the same condition a walk that ends without an error has enqueued each stat-able file of the folder exactly once and nothing else |
| TreePull.FileTwice | crates/adb-daemon/src/main.rs:2396-2424 | A folder of 16,385 entries, the first not stat-able, links in between, a file at the end: that file is enqueued twice and no error reported |
| TreePull.OtherPath | crates/adb-proxy/src/client.rs:913-920 | A file whose name does not decode to itself is enqueued under a path that is not its own |
| DeleteTree.Delete | crates/adb-daemon/src/main.rs:2605-2620 | Refuses a path without components or with ".." and changes nothing then; for any other, spelled in any way, does what `delete_recursive` does to it |
| DeleteTree.DeleteRecursive | crates/adb-daemon/src/main.rs:2044-2060 | On a device that follows links: success removes exactly the subtree at the node the path names and nothing a link points to; any failure changes nothing outside the subtree `lstat` sees; without failing operations it succeeds exactly when that node exists, nothing below it is deeper than 64 levels, too long to name or undecodable, it does not resolve through its own subtree, and it is neither a link with "/" behind it nor anything with "." behind it, in which cases what is seen is emptied |
| DeleteTree.Device.DoListdir | crates/adbshare-proxy-device/src/main.rs:1030-1072 | `opendir` follows the last component too; the names are those of the entries that can be stat-ed, decoded, possibly more than once |
| DeleteTree.PagesAreListed | crates/adb-proxy/src/client.rs:485-501 | What the paging loop returns for a directory, decoded, is such a listing, and names each entry once if all can be stat-ed and told by name |
| DeleteTree.SeenIsOpened | crates/adb-daemon/src/main.rs:2048-2055 | However the path ends, the directory `lstat` sees is the one that is listed |
| DeleteTree.DirectoryOpensInPlace | crates/adb-daemon/src/main.rs:2048-2055 | A directory is opened where it is placed: no link is left to follow |
| DeleteTree.WalkShrinks | crates/adb-daemon/src/main.rs:2055-2058 | Deleting nodes never makes a path resolve elsewhere |
| DeleteTree.WalkKeeps | crates/adb-daemon/src/main.rs:2055-2058 | A path whose resolution goes through no deleted node resolves as before |
| DeleteTree.KidPlaced | crates/adb-daemon/src/main.rs:2056-2057 | Every path the recursion asks for is placed below the directory it came from |
| DeleteTree.KidApart | crates/adb-daemon/src/main.rs:2056-2057 | A child's path still resolves after its siblings are gone, if the directory does not resolve through its own subtree |
| DeleteTree.NextKid | crates/adb-daemon/src/main.rs:2055-2057 | Each call of the recursion starts where it should: placed below the directory, its own name, and deletable if the directory can be cleared; a name listed twice finds nothing |
| DeleteTree.KidFits | crates/adbshare-proxy-device/src/main.rs:1030-1072 | A child's paths are short enough if its directory's are |
| DeleteTree.ListedByOwnName | crates/adb-daemon/src/main.rs:2055-2059 | If a directory ends up empty, every entry of it was listed by its own name |
| DeleteTree.StillPlaced | crates/adb-daemon/src/main.rs:2059 | Emptying a directory that is apart leaves its path where it was, so the closing `rmdir` finds it |
| DeleteTree.OnlyTopLeft | crates/adb-daemon/src/main.rs:2055-2059 | With nothing left below it, removing the directory itself completes the pruning |
| DeleteTree.ShallowIff | crates/adb-daemon/src/main.rs:2044-2047 | Deleting reaches exactly 64 levels below the path asked for |
| DeleteTree.LeafIsWholeSubtree | crates/adb-daemon/src/main.rs:2049-2054 | A file or link is its whole subtree, so unlinking it is enough |
| DeleteTree.BehindLink | crates/adb-daemon/src/main.rs:2044-2060 | A delete behind a link, such as under /sdcard, removes what the link leads to and not the link |
| DeleteTree.BehindClosingSlash | crates/adb-daemon/src/main.rs:2605-2618 | "/l/" and "/l/." name what the link l leads to, where "/l" names the link, and it cannot be removed under that path |
| DeleteTree.TargetEmptied | crates/adb-daemon/src/main.rs:2605-2618 | "/l/" with /l leading to /t: /t is emptied, and it and the link stay |
| DeleteTree.UndecodableName | crates/adb-proxy/src/client.rs:913-920 | A directory with an entry whose name does not decode to itself cannot be deleted |
| DeleteTree.ThroughItself | crates/adb-daemon/src/main.rs:2055-2059 | A directory named through a link inside itself is not apart under that name and is under its own |
| BatchRunner.ApplyAll | crates/adb-daemon/src/packages.rs:228-270 | For every completion order, dying tasks included, each request is started once, at most eight run at a time, and the i-th result describes request i or is the placeholder |
| BatchRunner.Join | crates/adb-daemon/src/packages.rs:245-249 | A task that ends fills its own slot only |
| Installs.Prune | crates/adb-daemon/src/main.rs:1442-1458 | Pruning keeps every running install and the 25 newest finished ones |
| Installs.Sorted | crates/adb-daemon/src/main.rs:1453-1453 | The ids in strictly increasing order, none lost and none added |
| Installs.Daemon.StartInstall | crates/adb-daemon/src/main.rs:2708-2745 | An install starts exactly when none is running, with an id never used |
| Installs.Daemon.UpdateInstall | crates/adb-daemon/src/main.rs:1577-1582 | Progress changes one install; a pruned id is ignored |
| Installs.Daemon.Finish | crates/adb-daemon/src/main.rs:1601-1623 | Marks the install if it is still there, frees the slot and prunes, whoever calls it |
| Installs.Daemon.End | crates/adb-daemon/src/main.rs:1601-1623 | The pipeline's install stays on record as done or failed, with 100 percent or what it had, and no other install changes |
| Installs.Daemon.Perform | crates/adb-daemon/src/main.rs:1648-1809 | From one wait to the next, for every answer: the install shows the stage reached, or it has ended, the slot is released once, and it shows success exactly when the copy or push and `pm install` succeeded; every wait brings the end nearer |
| Installs.Daemon.Resume | crates/adb-daemon/src/main.rs:1629-1645 | A pipeline releases the slot when it ends, exactly once, and not before, and ends as the answers it heard say |
| Installs.Run | crates/adb-daemon/src/main.rs:1577-1645 | In every interleaving of starts, pipeline steps and size polls the unfinished installs are one while the slot is taken and none otherwise, ids strictly increase, and an install has released the slot once if its pipeline has ended and never before; every install on record that has ended shows success exactly when the answers that came for it after its start say so |
| Installs.PolledShows | crates/adb-daemon/src/main.rs:1690-1710 | A poll shows the bytes done and the whole percentage of a known total, at most 100, and touches nothing else |
| DnsNames.ReadNameDepth | crates/adb-pairing/src/mdns.rs:61-106 | The label loop and the pointer recursion compute the reference reading of the name, error by error, for every message |
| DnsNames.ReadName | crates/adb-pairing/src/mdns.rs:57-59 | Reading terminates on every message and on success advances the offset within it |
| DnsNames.WriteName | crates/adb-pairing/src/mdns.rs:46-55 | Non-empty labels, each behind its length byte, and a closing zero |
| DnsNames.AppendSuffix | crates/adb-pairing/src/mdns.rs:89-97 | The string put together around a pointer is the join of all labels |
| DnsNames.CyclesAreRefused | crates/adb-pairing/src/mdns.rs:61-66 | Offsets that only ever lead to one another are refused with the pointer limit, however the cycle runs |
| DnsNames.MorePointersSameName | crates/adb-pairing/src/mdns.rs:61-66 | The pointer limit only cuts off: it never changes a name that is read |
| DnsNames.LabelsThenRest | crates/adb-pairing/src/mdns.rs:99-103 | Labels written anywhere read back as themselves followed by whatever name comes next |
| DnsNames.LabelsReadAreWritable | crates/adb-pairing/src/mdns.rs:76-103 | Every label that can be read has 1 to 191 bytes |
| DnsNames.ReadBackIff | crates/adb-pairing/src/mdns.rs:46-106 | Labels on the wire anywhere in a message read back exactly when each has 1 to 191 bytes |
| DnsNames.ReadUndoesWriteIff | crates/adb-pairing/src/mdns.rs:46-106 | What `write_name` wrote among any other bytes reads back as the non-empty labels of the name exactly when each has at most 191 bytes |
| DnsNames.NameReadsBack | crates/adb-pairing/src/mdns.rs:46-106 | A dotted name without empty or oversized labels reads back as itself |
| DnsNames.CompressedName | crates/adb-pairing/src/mdns.rs:76-98 | Section 4.1.4 of RFC 1035: labels and the two bytes of a pointer to t, anywhere in a message, read as the labels followed by the name at t and end behind the pointer |
| DnsNames.WhenItFails | crates/adb-pairing/src/mdns.rs:69-101 | Which bytes at the start of a name make it fail, with which error |
| DnsNames.SplitAtDots | crates/adb-pairing/src/mdns.rs:47-47 | Labels are what stands between the dots |
| DnsNames.TwoLabelsWritten | crates/adb-pairing/src/mdns.rs:46-55 | A name of two labels is written as each behind its length |
| DnsNames.LongLabelLost | crates/adb-pairing/src/mdns.rs:51-51 | A label of 256 bytes is written with length byte 0 and reads as the end of the name |
| PngText.HeaderSpells | crates/adb-gui/src/thumbnails.rs:219-231 | Every file is whole chunks without image data followed by image data, a truncated chunk or fewer than eight bytes |
| PngText.HeaderUnique | crates/adb-gui/src/thumbnails.rs:219-231 | And in one way only |
| PngText.PngWithText | crates/adb-gui/src/thumbnails.rs:213-257 | The output is the input with the chunks of the accepted entries between header chunks and image data, every original byte kept in place; a file without the signature is returned as it is |
| PngText.FindInsertion | crates/adb-gui/src/thumbnails.rs:221-231 | The search stops at the end of the header chunks, or at the end of a file with stray bytes |
| PngText.AppendTexts | crates/adb-gui/src/thumbnails.rs:235-254 | The accepted entries are appended as encoded chunks, in order |
| PngText.TextSpelled | crates/adb-gui/src/thumbnails.rs:235-254 | Of one entry nothing is written for a keyword of no or more than 79 bytes or a value with a NUL; else a `tEXt` chunk of keyword, NUL and value, with its CRC over type and data |
| PngText.TextsConcat | crates/adb-gui/src/thumbnails.rs:235-254 | Of many, what is written for each, in order |
| PngText.ChunkSpelled | crates/adb-gui/src/thumbnails.rs:250-253 | A chunk is its length in four big-endian bytes, its type, its data and its CRC |
| PngText.ImageDataStops | crates/adb-gui/src/thumbnails.rs:223-231 | The header ends at the first chunk of type IDAT |
| PngText.PngText | crates/adb-gui/src/thumbnails.rs:261-276 | For any bytes at all, the answer is the verdict of the first readable `tEXt` chunk that has the keyword or lacks a NUL |
| PngText.SplicedReads | crates/adb-gui/src/thumbnails.rs:204-257 | The chunks read from the output are the original ones in order with the texts between header and image data |
| PngText.JudgeWritten | crates/adb-gui/src/thumbnails.rs:267-272 | A written chunk answers for its keyword up to the first NUL, with exactly its value |
| PngText.JudgeText | crates/adb-gui/src/thumbnails.rs:266-271 | A text answers for the keyword before its first NUL with what follows, if that is UTF-8 |
| PngText.JudgeOthers | crates/adb-gui/src/thumbnails.rs:266-271 | Other chunks say nothing, and a text without a NUL ends the search |
| PngText.NulNeverFound | crates/adb-gui/src/thumbnails.rs:267-272 | A keyword with a NUL in it is found in no bytes at all |
| PngText.ReadBackIff | crates/adb-gui/src/thumbnails.rs:213-276 | A spliced value is read back exactly when its keyword has no NUL and no header chunk answers first with something else |
| PngText.OthersUnchanged | crates/adb-gui/src/thumbnails.rs:213-276 | Every keyword not written reads as it did before, in files with stray trailing bytes too |
| PngText.ReadFromInside | crates/adb-gui/src/thumbnails.rs:261-276 | Wherever inside written texts reading starts, it falls in step only with a later one |
| PngText.InStepAgain | crates/adb-gui/src/thumbnails.rs:261-276 | In such a file the reader falls in step with the text that starts where the length spelled by the stray bytes points to, and reads all texts from there |
| PngText.StrayBytesLoseTheFirst | crates/adb-gui/src/thumbnails.rs:221-231 | In every file with one to seven stray bytes behind its last chunk, the first written text is not found unless a header chunk already had it |

## Left out

- The GUI, theming, icons, dialogs and D-Bus surface: no hard state of their own.
- Sockets, TLS, USB, libc calls and `adb` subprocesses: they appear as steps that may fail, or as parameters.
- AES-GCM, HKDF, RSA, MD5 and curve arithmetic: uninterpreted, or an abstract group.
- The transfer job queue: the folder pull's jobs are the pairs it submits.
- Push and copy tree walks: the same stack walk as the folder pull, with the roles of the two sides exchanged.
- mDNS record parsing and resolution beyond names: network-driven and loosely checked.
- `StatCache`: the directory cache without order and epoch.
- `cached` and `generate` of the thumbnail cache: file access around the two PNG functions.
- Small codecs such as the pairing header, the ADB message header and base64: easy members only.
- Clocks: every time-out and expiry may happen at any time, which includes when the clocks would have it happen.
- Error texts and the classification of errors by text.
- Panics: a pipeline or task that panics ends without the promises made for one that returns, except in `BatchRunner`, where it is a task that dies.
- DirPages.Listdir: the directory does not change between pages, offsets stay below 2^32, and names stay bytes; what decoding them does is in `TreePull` and `DeleteTree`.
- DirCacheHistory.CachedIsCurrent: every entry of a listed directory is taken to be stat-able; the size and times of a directory shown in its parent's listing are not modelled, and `write` is taken to know the path it writes to.
- DirCacheHistory.CachedUntilFirstFailure: says nothing of an entry whose pages were taken before and after a failed covering mutation, which need not be the listing of any one moment.
- DeleteTree.DeleteRecursive: link targets are written out from "/", and nothing else changes the tree during the delete. A path has no NUL, which D-Bus strings cannot have.
- InodeMaps.Tables.InoFor: the inode counter is unbounded, so its 64-bit wrap-around is not modelled.
- AdbMux.NumbersAreFresh: the stream counter is unbounded, so its 32-bit wrap-around is not modelled.
- Installs.Daemon.StartInstall: the id counter is unbounded, and the checks made before the state lock is taken are not modelled.
- Installs.Daemon.Perform: which failure is reported with which code and text is not modelled. `perform_install` returns no error, so the branch of `run_install_pipeline` for one is left out.
- DnsNames.ReadName: labels stay bytes; the lossy UTF-8 conversion of each is not modelled.
- PngText.ReadBackIff: asks that chunk lengths fit in four bytes and that no stray bytes follow the last chunk; files with stray bytes are the subject of the next line.
- PngText.StrayBytesLoseTheFirst: asks that the texts together stay below 64 KiB and their keywords have no NUL. From 65,793 bytes on the NUL behind a keyword and three bytes of the value can spell a length that fits. Which later text is found depends on the value of the stray bytes (`PngText.InStepAgain`).
- PngText.OthersUnchanged: asks the same of the texts for files with stray bytes.
- TreePull.EnqueueTreePull: the answer to a listing depends on the path only, so the device tree does not change during the walk; the checks of `check_tree_path` before it are not modelled.
- TreePull.WholeFolderOnce: one direction only, since a repeated entry does no harm when it is a link.
- SpakeExchange.Spake2.GenerateMsg: the randomness is a parameter, and a failure to read it is not modelled.
