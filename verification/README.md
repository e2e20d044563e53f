# A verified model of a BitTorrent client's bookkeeping

This project models the parts of a BitTorrent client that have to agree with each other across
many peers, callbacks and released locks, and proves in Dafny that they do. `dafny verify
dfyconfig.toml` checks all of it.

The program's own `panic`s are part of the model. A step returns `Outcome`, which is `Done` with the
new state or `Panic`, and the theorems show which panics no run can reach. Where the source updates
objects step by step, there is a class with loops beside the step functions, and each of its methods
is proved to do what the step function says; the theorems over whole runs are about the step
functions.

| files | what they model |
|---|---|
| `RequestScheduler`, `RequestUpdates`, `SchedulerRuns`, `UpdateEffects`, `StealFairness`, `WriteBufferLimit`, `PeerConns`, `OrderedBitmap` | requests to peers: one ownership map, each peer's requests, cancelled requests and expected chunks; filling up, stealing, the write buffer |
| `RequestOffers`, `TorrentRuns` | where the candidates for requests come from; pieces and requests together |
| `PieceLifecycle`, `PieceRuns`, `PieceRecords`, `PieceTables`, `FileRanges` | the cached set of wanted pieces under file, piece and reader priorities, completion changes and hashing |
| `ChunkWrites` | received chunks that are written while the lock is released |
| `Availability`, `AvailabilityTables` | how many peers have a piece, counted incrementally |
| `Pex`, `PexRuns`, `PexLogs` | peer exchange: deltas cut from a growing log for readers at different positions |
| `Decimals`, `KeyOrder`, `Bencode`, `BencodeRoundTrips`, `BencodeCodecs` | the bencode writer, the reader of generic values and the scanner of raw values |
| `Segments`, `MMapSpan` | locating an extent in a list of segments; many buffers read and written as one |
| `AllocLimiter`, `Limiters` | reservations of a shared limit, with their mutexes as explicit steps |
| `StreamSync` | finding the synchronisation pattern of an encrypted handshake |
| `ChunkGeometry`, `Readers`, `Bitmaps`, `ByteAccounting`, `FileBytes`, `Division` | request indices, offsets and pieces with 32-bit wrap-around; what can be read; byte totals |
| `PieceOrder`, `PiecePicking` | the order of pieces, its tree, and the walk that picks from it |

`Common` and `Division` hold what the others share.

## What the program promises and does not keep

Each of these has a lemma with a concrete failing case and a lemma that says exactly when the
promise holds.

- When the info arrives, `onSetInfo` counts a peer that has claimed as many pieces as there are as one
  that has all of them, even if some of its claims are out of range. The counters then count it for
  pieces it lacks (`Availability.UnsoundExample`, `Availability.SetInfoKeepsIff`).
- `peerSentHaveNone` after everything was claimed leaves the peer among those with all pieces, so that
  every piece is reported one peer too many (`Availability.HaveNoneExample`,
  `Availability.HaveNoneAvailability`, `Availability.HaveNoneKeepsIff`).
- The guard at the start of `fillWriteBuffer` has an empty body, so an update may start with a fuller
  buffer than its arithmetic allows for. Up to 16396 buffered bytes no update panics
  (`RequestUpdates.UpdateKeeps`); for every larger number a run from the empty torrent leads to a peer
  whose update does (`WriteBufferLimit.FullerBufferPanics`).
- An address that reconnects while its drop is held back is logged as added twice, and the drop that is
  logged later takes it away from all readers although it is connected (`PexRuns.ReconnectLoses`,
  `PexRuns.ConnectKeepsIff`).
- The number of chunks of a piece is wrong when the rounding up wraps around
  (`ChunkGeometry.NumChunksExample`, `ChunkGeometry.NumChunksRightIff`).
- With more than 2^32 chunks two chunks share an index, and from 2^32 chunks on the number of chunks is
  wrong (`ChunkGeometry.WrappedLayout`, `ChunkGeometry.RoundTripIff`, `ChunkGeometry.PartitionIff`).
- The cardinality of a bitmap range is wrong for a range that ends at zero, unless nothing is set, and
  for a range that ends beyond 2^32, unless no bit is set from the number its end wraps to upwards
  (`Bitmaps.CardinalityExamples`, `Bitmaps.CardinalityRightIff`). The index after the last piece does
  lie beyond 2^32 in some torrents whose chunks all have an index. Dirty chunks are then overlooked, and
  the bytes left are wrong (`ByteAccounting.OverlookedExample`, `ByteAccounting.DirtyCountRightIff`,
  `ByteAccounting.DirtyBytesRightIff`, `ByteAccounting.BytesLeft`).
- With exactly 2^32 chunks, the end of the last piece wraps around, and none of its chunks is ever asked for
  (`RequestOffers.NeverOffered`, `RequestOffers.UndirtiedExact`, `RequestOffers.OfferedIff`).
- `Scan` stops at an empty segment where the extent starts if the callback does, as those of the file
  storage do when the file is missing. `Locate` never gets there (`Segments.LocateIsNotScan`,
  `Segments.LocateIsScan`). They also disagree on empty extents behind the end
  (`Segments.LocateEmptyFails`, `Segments.LocateEmpty`).

## Model

| member | source | states |
|---|---|---|
| `RequestScheduler.InvMeaning` | peerconn.go:652-708 | what the invariant says: a request is owned by a peer if and only if it is among that peer's requests, requests and cancelled requests are disjoint, and enough chunks are expected for both |
| `RequestScheduler.DeleteRequestDoes` | peerconn.go:1712-1730 | deleting a request that is there also removes its owner and answers true; no ownership panic; otherwise nothing changes |
| `RequestScheduler.CancelDoes` | peerconn.go:688-708 | cancelling an owned request never meets the double-cancel or missing-request panic, whatever the peer implementation answers; the request moves to the cancelled ones exactly if an answer to the cancel is due |
| `RequestScheduler.DecExpectedDoes` | peerconn.go:1375-1384 | one expected chunk less, and the panic on an unexpected chunk is unreachable when there was one |
| `RequestScheduler.RejectDoes` | peerconn.go:1362-1373 | a reject removes the request or the cancelled request, and one expected chunk; it is refused if there was neither |
| `RequestScheduler.SettleDoes` | peerconn.go:1495-1527 | a received chunk settles the request or the cancelled request it answers |
| `RequestScheduler.CancelRequestKeeps` | torrent.go:2507-2522 | cancelling whoever owns a request leaves it without owner and keeps the invariant |
| `RequestScheduler.ReceiveKeeps` | peerconn.go:1475-1565 | receiving a chunk, from any peer, keeps the invariant, reaches none of the panics, and leaves the request without an owner if the chunk was wanted |
| `RequestScheduler.DeleteAllKeeps` | peerconn.go:1732-1749 | deleting all requests of a peer one by one leaves it with none, and the assertions in between hold |
| `RequestScheduler.ChokeKeeps` | peerconn.go:1242-1257 | a choke keeps the invariant, with and without the fast extension |
| `RequestScheduler.UnchokeKeeps` | peerconn.go:1258-1292 | an unchoke keeps the invariant |
| `RequestScheduler.DropKeeps` | torrent.go:1486-1508 | dropping a connection deletes its requests and keeps the invariant for all others |
| `RequestScheduler.CloseWebseedKeeps` | webseed-peer.go:144-154 | closing a webseed cancels all its requests, whichever answers are due, and keeps the invariant |
| `RequestUpdates.RequestKeeps` | peerconn.go:611-686 | a request for a candidate nobody owns that passes the checks on its chunk and its piece meets no panic and keeps the invariant |
| `RequestUpdates.TakeKeeps` | requesting.go:282-310 | a round of the loop, stealing or not, keeps the invariant and never leaves the write buffer full |
| `RequestUpdates.FillKeeps` | requesting.go:281-314 | whatever order the heap pops the candidates in, the loop ends without a panic, keeps the invariant and leaves the write buffer below high water; `UpdateEffects.FillMoves` says how far it goes |
| `RequestUpdates.CandidatesAre` | requesting.go:185-246 | the candidates are exactly the offers that are not cancelled, that the peer may be asked for while it chokes, and that are rare enough for a baseline peer, in the order they were offered |
| `RequestUpdates.UpdateKeeps` | requesting.go:248-325 | an update whose offers pass the checks and that starts with at most 16396 buffered bytes reaches no panic, keeps the invariant, and stays below high water; `UpdateEffects.UpdateLeaves` says what it leaves behind |
| `SchedulerRuns.StepKeeps` | peerconn.go:1242-1345 | every step of any peer keeps the invariant and does not panic |
| `SchedulerRuns.RunKeeps` | peerconn.go:652-708 | over every interleaving of requests, cancels, rejects, chokes, chunks, steals and drops of any number of peers the invariant holds and no panic is reached, if the offers of every update pass the checks |
| `SchedulerRuns.RunFromEmpty` | peerconn.go:652-708 | the same from the start: at most one owner per request, in every reachable state |
| `UpdateEffects.HasRoomIff` | peerconn.go:521-524 | another request is allowed if there is none, or if those outstanding and cancelled are fewer than the peer allows, than twice the peak, and than 963 |
| `UpdateEffects.RequestPanicsIff` | peerconn.go:611-686 | a request panics if and only if a check on its chunk, its piece or the connection fails, it is cancelled, the peer chokes without allowing it, or a limit is reached |
| `UpdateEffects.CancelEffect` | peerconn.go:688-708 | a cancel moves the request to the cancelled ones exactly if an answer is due, takes one off the peak, costs 17 bytes, and makes a peer that has nothing left due for an update |
| `UpdateEffects.CancelRequestEffect` | torrent.go:2507-2522 | whoever owns the request loses it, awaits the answer exactly if one is due, and nobody else changes |
| `UpdateEffects.StealsIff` | requesting.go:289-302 | a request is taken from its owner if and only if that peer has at least two more, or one more and got its last useful chunk no later |
| `UpdateEffects.FillMoves` | requesting.go:281-314 | the loop stops only when there is no room or every candidate was asked for or left with an owner that would be spared at the end, too; what other peers lose this peer asked for, and each chunk asked for is expected once more |
| `UpdateEffects.UpdateLeaves` | requesting.go:248-325 | after an update the requests are within the limit of the peer, twice the peak and 963, or none or a single one; a limit is reached or every candidate was served; the interest, the bytes written, the new peak and the expected chunks; a closed peer, or one without a reason, changes nothing |
| `UpdateEffects.RejectEffect` | peerconn.go:1362-1373 | when a reject is valid, what it takes off the peak, and when the peer is then due for an update |
| `UpdateEffects.SettleEffect` | peerconn.go:1495-1527 | when a chunk was asked for, that the peak stays, and when the peer is then due for an update |
| `UpdateEffects.WakeAllEffect` | peerconn.go:1743-1747 | exactly the listed peers without requests become due |
| `UpdateEffects.UnchokeEffect` | peerconn.go:1258-1292 | a peer that choked becomes due if some piece may now be asked for and it has nothing left |
| `UpdateEffects.StepNotices` | peerconn.go:688-708 | whatever step any peer takes, a listed peer that loses its last request or awaited cancel is due for an update |
| `UpdateEffects.StepFlags` | peerconn.go:1242-1345 | whatever step is taken, whether a peer is listed, open, choking or interesting, what it allows and when it was last useful change by its own steps only, and as these say; a reason to update stays until the peer updates |
| `UpdateEffects.RunAwake` | peerconn.go:1362-1373 | over every run, a peer with something outstanding, or due for an update, has something outstanding or is due until it updates or is no longer listed |
| `RequestOffers.UndirtiedExact` | torrent.go:2554-2566 | the chunks iterated for a piece are exactly its clean chunks, except that there are none for the last piece of a torrent with 2^32 chunks |
| `RequestOffers.NeverOffered` | torrent.go:2554-2566 | such a torrent, of usual sizes, with 1024 chunks in its last piece |
| `RequestOffers.OfferPasses` | requesting.go:185-246 | every offer is for a clean chunk of a wanted piece that the order yields and the peer has, and passes all checks |
| `RequestOffers.AllOffersPass` | peerconn.go:611-633 | where the cache of wanted pieces is right, no offer is for a chunk that does not exist, a piece the peer lacks, or one that is being hashed or queued for it |
| `RequestOffers.OfferedIff` | requesting.go:202-242 | a clean chunk of a piece that the walk yields and the peer has is offered if and only if it is not in the last piece of a torrent with 2^32 chunks; `RequestOffers.EveryChunkOffered` says so for every wanted piece of the order |
| `RequestOffers.IgnoredIff` | request-strategy-impls.go:47-56 | a wanted piece is ignored if and only if its clean chunks and those its count overlooks add up to nothing in 32 bits |
| `RequestOffers.IgnoredMeaning` | request-strategy-impls.go:47-56 | where none is overlooked, it is ignored if and only if every chunk of it is dirty |
| `RequestOffers.EveryChunkOffered` | requesting.go:202-242 | from the order to the offers: every clean chunk of a wanted piece that the peer has is offered |
| `RequestOffers.OfferIs` | requesting.go:202-242 | an offer names its chunk, the availability of its piece, and whether the peer has that piece and it is being hashed or queued for it |
| `TorrentRuns.RunKeeps` | peerconn.go:611-686 | over every mix of piece, hashing, reader and peer steps in which each update takes its candidates from the pieces as they are, no panic is reached, those of the request checks included |
| `TorrentRuns.RunFromFresh` | peerconn.go:611-686 | the same from a torrent without peers |
| `StealFairness.StealDoes` | requesting.go:289-302 | a steal moves exactly one request from its owner to the stealer, and the owner awaits an answer to the cancel exactly if one is due |
| `StealFairness.LoadsAddUp` | requesting.go:289-302 | the loads of all peers add up to the number of owned requests |
| `StealFairness.StealIsFair` | requesting.go:289-302 | after a steal the stealer has at most one more than the victim; the total is preserved; the sum of squares does not grow, and shrinks unless the victim had exactly one more |
| `WriteBufferLimit.FullerBufferPanics` | requesting.go:273-325 | for every number of buffered bytes above 16396 a run from the empty torrent leads to a peer with that many, whose update, with offers that pass the checks, panics |
| `PeerConns.Torrent.CancelRequest` | torrent.go:2507-2522 | the method does what `CancelRequest` says |
| `PeerConns.Peer.DeleteRequest` | peerconn.go:1712-1730 | the method does what `DeleteRequest` says |
| `PeerConns.Peer.DecExpectedChunkReceive` | peerconn.go:1375-1384 | the method does what `DecExpected` says |
| `PeerConns.Peer.Cancel` | peerconn.go:688-708 | the method does what `Cancel` says |
| `PeerConns.Peer.RemoteRejectedRequest` | peerconn.go:1362-1373 | the method does what `Reject` says |
| `PeerConns.Peer.ReceiveChunk` | peerconn.go:1475-1565 | the method does what `Receive` says |
| `PeerConns.Peer.DeleteAllRequests` | peerconn.go:1732-1749 | the loops over a snapshot of the requests and over the peers do what `DeleteAll` says |
| `PeerConns.Peer.Choked` | peerconn.go:1242-1257 | the method does what `Choke` says |
| `PeerConns.Peer.Drop` | torrent.go:1486-1508 | the method does what `Drop` says |
| `PeerConns.Peer.CloseWebseed` | webseed-peer.go:144-154 | the method, with its loop of cancels, does what `CloseWebseed` says |
| `PeerConns.Peer.Request` | peerconn.go:611-686 | the method does what `Request` says, its checks included |
| `PeerConns.Peer.GetDesiredRequestState` | requesting.go:185-246 | the loop collects exactly the candidates, in order, and says whether the peer is interesting |
| `PeerConns.Peer.Fill` | requesting.go:281-310 | the fill-and-steal loop does what `Fill` says, without a panic; `UpdateEffects.FillMoves` is about `Fill` |
| `PeerConns.Peer.ApplyRequestState` | requesting.go:273-325 | the method does what `Update` says; `UpdateEffects.UpdateLeaves` is about `Update` |
| `OrderedBitmap.UnlinkKeeps` | ordered-bitmap.go:52-59 | unlinking a list element keeps the list linked and in insertion order |
| `OrderedBitmap.OrderedBitmap.Add` | ordered-bitmap.go:33-38 | a new value goes to the end of the order; bitmap, list and element map agree |
| `OrderedBitmap.OrderedBitmap.CheckedRemove` | ordered-bitmap.go:52-59 | removing answers whether the value was there, keeps the order of the rest, and keeps the three structures in agreement |
| `OrderedBitmap.OrderedBitmap.GetCardinality` | ordered-bitmap.go:25-27 | the bitmap has as many values as the list |
| `FileRanges.InitFiles` | t.go:210-225 | the file table is laid out without gaps, in order |
| `FileRanges.PieceFirstFileIndex` | torrent.go:411-418 | the loop finds the first file that ends after the piece starts, or 0 |
| `FileRanges.PieceEndFileIndex` | torrent.go:422-429 | the loop finds the first file that ends at or after the end of the piece, plus one |
| `FileRanges.PieceFilesExact` | torrent.go:393-407 | the files of a piece are exactly those that overlap it, and empty ones inside it |
| `FileRanges.FilePiecesExact` | file.go:166-179 | the pieces refreshed for a file are exactly the pieces that look at that file |
| `FileRanges.TrailingFileUnused` | file.go:166-179 | a file at the very end that holds no data is looked at by no piece |
| `PieceLifecycle.PendingMeaning` | torrent.go:1218-1237 | nothing wanted is complete, queued, being hashed or being marked |
| `PieceLifecycle.WantedMeaning` | piece.go:205-227 | a piece is in the cache if and only if a file that reaches into it, a reader whose range has it, or the user asks for it, and it is neither complete nor queued, hashed or marked |
| `PieceLifecycle.SetFilePriorityKeeps` | file.go:148-155 | a file's priority change, refreshing only its own pieces, leaves the cache exact |
| `PieceLifecycle.DownloadPiecesKeeps` | t.go:185-191 | raising the priority of a range keeps the cache exact |
| `PieceLifecycle.CancelPiecesKeeps` | t.go:199-208 | dropping the priority of a range keeps the cache exact |
| `PieceRuns.DownloadPiecesDoes` | t.go:185-191 | exactly the pieces of the range get at least normal priority, and nothing but the cache changes besides |
| `PieceRuns.CancelPiecesDoes` | t.go:199-208 | exactly the pieces of the range lose their priority, and nothing but the cache changes besides |
| `PieceRuns.PosChangedKeeps` | reader.go:290-299 | moving a reader refreshes one range or two, and these are enough |
| `PieceRuns.AddReaderKeeps` | t.go:161-169 | a new reader keeps the cache exact |
| `PieceRuns.DeleteReaderKeeps` | t.go:171-174 | a reader that goes keeps the cache exact |
| `PieceRuns.UpdateCompletionKeeps` | torrent.go:1352-1376 | reading a piece's completion keeps the cache exact |
| `PieceRuns.QueueCheckKeeps` | torrent.go:2265-2274 | queueing a check, and starting hashers, keeps the cache exact and at most two hashers |
| `PieceRuns.TryCreateMoreHashersKeeps` | torrent.go:2161-2195 | hashers are started for queued pieces as long as there are any, and at most two at a time |
| `PieceRuns.HashDoneKeeps` | torrent.go:2005-2114 | when a hash is done the cache is exact, also in the window in which a passed piece is marked with the lock released |
| `PieceRuns.MarkDoneKeeps` | torrent.go:2050-2114 | when the marking is done the cache is exact again; `PieceRecords.MarkRecords` says what is recorded |
| `PieceRuns.HasherCounts` | torrent.go:2220-2247 | a hasher that is due to report is counted, so the count cannot go below zero |
| `PieceRuns.QueuedIsDue` | torrent.go:2265-2274 | a piece whose check is queued waits for it or is being hashed |
| `PieceRuns.ChecksStay` | torrent.go:2161-2274 | whatever step is taken, a check that is due stays due until the hasher of that piece reports |
| `PieceRuns.RunKeeps` | torrent.go:1218-1237 | over every mix of priority, reader, completion and hashing steps the cache is exact whenever the lock is free, at most two hashers run, and no wanted piece is queued or being hashed |
| `PieceRecords.HashRecords` | torrent.go:2005-2114 | a failed hash records what the storage then reports for its piece, a passed one or one in a closed torrent records nothing, and no other piece changes |
| `PieceRecords.MarkRecords` | torrent.go:2050-2114 | a hasher back from marking records what the storage reports for its piece unless the torrent is closed, and no other piece changes |
| `PieceRecords.StepRecords` | torrent.go:1352-1376 | whatever step is taken, the record of a piece changes only by a report on it, and then to what is reported |
| `PieceRecords.RunRecords` | torrent.go:1352-1376 | after every run a piece is complete if and only if the last report on it says so |
| `PieceRecords.StepMarks` | torrent.go:2005-2114 | whatever step is taken, a piece is being marked from a passed hash until its hasher is back, and hashed from the time it leaves the queue until the report |
| `PieceRecords.RunBusy` | torrent.go:2161-2247 | over every run, while a hasher could be started no queued piece waits for one, unless it is itself still being marked |
| `PieceRecords.StepWishes` | t.go:161-208 | whatever step is taken, priorities, files and readers become what the user or the reader asked for, and change by nothing else |
| `PieceRecords.PosChangedSets` | reader.go:290-299 | moving a reader sets its range, and changes nothing but the cache and the pieces read |
| `PieceRecords.PriorityIsHighest` | piece.go:205-227 | the priority of a piece is the highest among its files, five if it is being read, three if it is about to be, and its own |
| `PieceRuns.FreshInv` | torrent.go:473-501 | a torrent that has just got its info satisfies the invariant |
| `PieceTables.PieceTable.UncachedPriority` | piece.go:205-227 | the loop over the files computes the highest priority among files, readers and the piece itself, or none if it is complete or under check |
| `PieceTables.PieceTable.UpdatePiecePriority` | torrent.go:1218-1237 | the method does what `UpdatePriority` says |
| `PieceTables.PieceTable.ReaderPosChanged` | torrent.go:1166-1188 | the method does what `ReaderPosChanged` says |
| `PieceTables.PieceTable.UpdateReaderPieces` | torrent.go:1418-1427 | the loop over the readers computes exactly the pieces read now and ahead |
| `PieceTables.PieceTable.UpdatePieceCompletion` | torrent.go:1352-1376 | the method does what `UpdateCompletion` says |
| `PieceTables.PieceTable.TryCreateMorePieceHashers` | torrent.go:2161-2183 | the loop does what `TryCreateMoreHashers` says |
| `PieceTables.PieceTable.QueuePieceCheck` | torrent.go:2265-2274 | the method does what `QueueCheck` says |
| `PieceTables.PieceTable.PieceHashed` | torrent.go:2005-2048 | the part of the report before the lock is released does what `HashDone` says |
| `PieceTables.PieceTable.PieceMarked` | torrent.go:2056-2114 | the part after it does what `MarkDone` says; `PieceRecords.MarkRecords` and `PieceRecords.StepMarks` are about `MarkDone` |
| `ChunkWrites.BeginKeeps` | peerconn.go:1552-1559 | starting to write a wanted chunk counts one more write in flight, and from then on the chunk counts as there; `ChunkWrites.StepReceives` says what becomes of the others |
| `ChunkWrites.EndKeeps` | peerconn.go:1581-1602 | the end of a write, failed or not, counts one less and cannot fail its assertion; it queues a piece if and only if nothing is being written to it and all its chunks are dirty, and then all of them have been written since they were last marked dirty; a failed write makes the chunk wanted again |
| `ChunkWrites.AllDirtyMeans` | piece.go:243-245 | as many dirty chunks as chunks means that every chunk is dirty |
| `ChunkWrites.FreshInv` | torrent.go:393-407 | before anything is received the invariant holds, for any number of chunks per piece |
| `ChunkWrites.RunKeeps` | peerconn.go:1552-1602 | both, over every interleaving of receivers, failing writes and pieces being pended again |
| `ChunkWrites.StepReceives` | peerconn.go:1552-1602 | after any step a chunk counts as there if and only if the step received it or completed its piece, or it was there and its own write did not fail, its piece was not pended and did not cease to be complete |
| `ChunkWrites.StepLeaves` | peerconn.go:1581-1602 | only a hasher takes a piece off the queue, and only the storage says what is complete |
| `ChunkWrites.StepWrites` | peerconn.go:1581-1602 | a chunk counts as written from a successful end of its write until it is received anew |
| `ChunkWrites.ReceivedStays` | peerconn.go:1552-1602 | over every run a received chunk stays received until one of those happens to it |
| `ChunkWrites.ChunkTable.ReceiveChunk` | peerconn.go:1532-1559 | the part before the lock is released does what `Begin` says; `ChunkWrites.StepReceives` is about `Begin` |
| `ChunkWrites.ChunkTable.FinishChunk` | peerconn.go:1581-1602 | the part after it does what `End` says |
| `ChunkWrites.ChunkTable.PendAllChunkSpecs` | torrent.go:965-969 | all chunks of the piece become clean, no others |
| `Availability.AvailabilityIsRight` | piece.go:255-257 | the availability of a piece is the number of open peers that have it |
| `Availability.HaveKeeps` | peerconn.go:803-820 | a have message keeps the counters right, refuses exactly the indices out of range, and the peer then has the piece |
| `Availability.BitfieldKeeps` | peerconn.go:822-877 | a bitfield keeps the counters right, and the peer then has exactly the pieces sent |
| `Availability.HaveAllKeeps` | peerconn.go:879-894 | a peer that has everything is counted once for each piece, and nothing changes about the others |
| `Availability.RemoveDoes` | torrent.go:1486-1508 | exactly closed connections can be removed, and nothing else changes |
| `Availability.HaveNoneKeepsIff` | peerconn.go:901-909 | a have-none leaves the peer without pieces, and keeps the invariant if and only if it had not claimed everything |
| `Availability.HaveNoneAvailability` | peerconn.go:901-909 | after a have-none the availability of every piece is the number of peers that have it, and one more if the peer had claimed everything |
| `Availability.HaveNoneExample` | peerconn.go:901-909 | a lone peer that claims everything and takes it back still counts |
| `Availability.CloseKeeps` | peerconn.go:434-448 | closing takes the peer out of all counts, without the panic on a counter that is zero |
| `Availability.RemoveKeeps` | torrent.go:1486-1508 | removing a closed peer does not meet the panic about a peer with all pieces that is left |
| `Availability.SetInfoKeepsIff` | torrent.go:473-501 | when the info arrives the counters come out right if and only if every listed peer's claims are sound |
| `Availability.UnsoundExample` | torrent.go:183-194 | a peer that claims pieces 0 and 5 of two is counted for piece 1 |
| `Availability.RunKeeps` | torrent.go:183-215 | over every run the counters are right, no panic is reached, and all counters are zero once all peers are closed |
| `AvailabilityTables.Counters.DecEach` | peerconn.go:881-886 | the loop takes one off the counter of each of the pieces, in any order |
| `AvailabilityTables.Counters.SentHave` | peerconn.go:803-820 | the method does what `Have` says |
| `AvailabilityTables.Counters.SentBitfield` | peerconn.go:822-877 | the method, with its loop over the changed bits, does what `Bitfield` says |
| `AvailabilityTables.Counters.HasAllPieces` | peerconn.go:879-894 | the method does what `HaveAll` says |
| `AvailabilityTables.Counters.SentHaveNone` | peerconn.go:901-909 | the method does what `HaveNone` says |
| `AvailabilityTables.Counters.CloseConn` | peerconn.go:434-448 | the method does what `Close` says |
| `AvailabilityTables.Counters.SelectivePieceAvailability` | torrent.go:183-194 | the loop counts the listed peers outside the set of those with all pieces that have the piece |
| `AvailabilityTables.Counters.OnSetInfo` | torrent.go:473-501 | the loops do what `SetInfo` says |
| `Pex.AppendKeeps` | pex.go:57-135 | lists and keys of a message stay in agreement, each address once, added and dropped disjoint |
| `Pex.AppendDelta` | pex.go:57-135 | a message says how to get from one set of live addresses to another, and taking in a fitting event moves the second |
| `Pex.AppendFlags` | pex.go:57-135 | flags stay next to their addresses: each is the one given when the address was last added |
| `Pex.CutSmall` | pex.go:224-240 | a message stops at 50 added or 50 dropped, and not before, unless the log ends |
| `Pex.GenmsgRight` | pex.go:224-240 | for every alternating log and every position: the message takes a receiver from what was live at the position to what was live where it ends; it is empty only if nothing is left to tell; at most 50 added and 50 dropped |
| `PexRuns.ConnectKeepsIff` | pex.go:189-203 | a new connection keeps the log alternating and true to the connections if and only if its address is not one whose drop is held back, or this call logs the drop |
| `PexRuns.DisconnectKeeps` | pex.go:205-219 | a disconnection always does, held back or not |
| `PexRuns.ToldRight` | pexconn.go:61-68 | after a message the receiver holds what was live at its new position; without a message it holds all that is connected or held back, and its place stays |
| `PexRuns.ReconnectLoses` | pex.go:189-219 | for every address: connected, dropped and connected again, it is connected, but the log says it is not |
| `PexRuns.ConnectLogs` | pex.go:189-203 | a connection is logged, after the drops held back if it is at least the 25th |
| `PexRuns.DisconnectLogs` | pex.go:205-219 | a drop is held back if fewer than 25 connections are left and fewer than 25 drops are held back already, and logged otherwise |
| `PexRuns.RunFromFresh` | pex.go:181-240 | however connections, disconnections and messages to any number of readers interleave, every reader holds exactly what was live at the last event it was told about |
| `PexLogs.MsgFactory.Add` | pex.go:57-95 | the method does what `Add` says |
| `PexLogs.MsgFactory.Drop` | pex.go:99-135 | the method does what `Drop` says |
| `PexLogs.PexLog.Append` | pex.go:181-187 | a node is linked at the tail of the list, and taken into the first message |
| `PexLogs.PexLog.Add` | pex.go:189-203 | the method does what `Connect` says |
| `PexLogs.PexLog.Drop` | pex.go:205-219 | the method does what `Disconnect` says |
| `PexLogs.PexLog.Genmsg` | pex.go:224-240 | following the links does what `Genmsg` says, and the node returned is the one at the position |
| `PexLogs.PexConn.Genmsg` | pexconn.go:61-68 | the place moves on only with a message |
| `Decimals.NumeralsAreCanonical` | bencode/decode.go:180-192 | the check and the parser accept exactly the numerals that the writer prints, as the number they print |
| `KeyOrder.IncreasingUnique` | bencode/encode.go:161-167 | there is one increasing list of a set of keys |
| `KeyOrder.LessIff` | bencode/encode.go:161-163 | the order of keys is the byte-wise one: at the first difference the smaller byte, or the end, comes first |
| `KeyOrder.SortKeys` | bencode/encode.go:161-163 | the keys of a map in increasing order |
| `Bencode.ScanAgrees` | bencode/decode.go:480-528 | what the reader of values accepts, at any nesting, the raw scanner accepts too, to the same end |
| `BencodeRoundTrips.ParseEncoded` | bencode/decode.go:611-733 | reading the encoding of any tree of integers, strings, lists and dictionaries gives the tree, and leaves what follows |
| `BencodeRoundTrips.ParsedIsEncoded` | bencode/decode.go:611-733 | whatever is accepted is, byte for byte, the encoding of the value returned |
| `BencodeRoundTrips.AcceptedIffEncoded` | bencode/decode.go:611-733 | an input is accepted in full as a value if and only if it is the value's encoding and the strings are within the limit |
| `BencodeRoundTrips.EncodeInjective` | bencode/encode.go:103-210 | no two values have the same encoding |
| `BencodeRoundTrips.ScalarExamples` | bencode/encode_test.go:37-57 | the encodings of two integers and two strings, byte for byte |
| `BencodeRoundTrips.ListExample` | bencode/encode.go:201-209 | the encoding of a list, byte for byte |
| `BencodeRoundTrips.DictExample` | bencode/encode.go:149-163 | the encoding of a dictionary given in the wrong order, byte for byte |
| `BencodeCodecs.Encoder.WriteString` | bencode/encode.go:58-64 | writing in pieces through the scratch buffer writes the string |
| `BencodeCodecs.Encoder.ReflectValue` | bencode/encode.go:103-210 | the recursive writer appends exactly the encoding |
| `BencodeCodecs.Decoder.ReadUntil` | bencode/decode.go:94-102 | the loop moves the bytes before the separator to the buffer |
| `BencodeCodecs.Decoder.ParseStringLength` | bencode/decode.go:194-211 | the length is accepted exactly if it is canonical and within the limit |
| `BencodeCodecs.Decoder.ParseValueInterface` | bencode/decode.go:611-689 | the recursive reader gives what `Parse` says, leaves the rest unread, empties its buffer and adds to the offset exactly what it read |
| `BencodeCodecs.Decoder.ParseDictInterface` | bencode/decode.go:691-723 | the loop over entries, checking the order of keys, does what `ParseEntries` says |
| `BencodeCodecs.Decoder.ReadOneValue` | bencode/decode.go:480-528 | the scanner appends to its buffer exactly the bytes of the value and adds their number to the offset; at an end letter it changes nothing |
| `Segments.ScanLoop` | segments/segments.go:30-55 | the loop makes the calls that `Scan` says, until the callback stops it |
| `Segments.NewIndex` | segments/index.go:7-14 | each entry is the extent of its segment in the concatenation |
| `Segments.Search` | segments/index.go:33-36 | binary search finds the first segment that ends after the offset |
| `Segments.LocateLoop` | segments/index.go:32-45 | the method does what `Locate` says |
| `Segments.LocateIsScan` | segments/index.go:32-45 | for extents of positive length `Locate` and `Scan` give the same answer and the same calls, except for leading calls on empty segments, if and only if the callback stops at none of these; otherwise `Scan` succeeds with only empty calls |
| `Segments.LocateIsNotScan` | segments/index.go:32-45 | an empty segment, and a callback that stops there, for which they differ |
| `Segments.LocateEmpty` | segments/index.go:32-45 | for an empty extent `Scan` succeeds, and `Locate` if and only if something lies behind its start |
| `Segments.LocateEmptyFails` | segments/index.go:32-45 | an empty extent at the end, for which they differ |
| `Segments.LocateTiles` | segments/segments.go:30-55 | the calls cover the extent, clipped to the total, in order and without a gap, and the answer says whether it was clipped |
| `MMapSpan.WriteIsFlat` | mmap_span/mmap_span.go:78-103 | writing through the index updates the concatenation, as far as it goes, and the byte counts always agree |
| `MMapSpan.ReadIsFlat` | mmap_span/mmap_span.go:63-92 | reading through the index gives the slice of the concatenation, as far as it goes |
| `MMapSpan.MMapSpan.InitIndex` | mmap_span/mmap_span.go:50-61 | the index is that of the buffers |
| `MMapSpan.MMapSpan.WriteAt` | mmap_span/mmap_span.go:94-103 | in place, over all buffers: the new concatenation, the number of bytes, and whether it was short |
| `MMapSpan.MMapSpan.ReadAt` | mmap_span/mmap_span.go:63-72 | the argument gets the slice, the rest of it and the buffers stay |
| `AllocLimiter.HeadUnlocked` | internal/alloclim/l.go:44-61 | the reservation that is to be granted is locked by no releaser |
| `AllocLimiter.StepKeeps` | internal/alloclim/l.go:27-74 | every step keeps the space conserved, never negative, and no reservation granted and cancelled |
| `AllocLimiter.RunKeeps` | internal/alloclim/r.go:23-74 | over every interleaving; and what was granted, cancelled or returned stays so |
| `AllocLimiter.ReturnedOnce` | internal/alloclim/r.go:23-36 | no reservation gives its space back twice |
| `AllocLimiter.ReleasePanicsIff` | internal/alloclim/r.go:23-36 | a release panics exactly for a reservation that still waits |
| `AllocLimiter.ReserveDoes` | internal/alloclim/l.go:27-42 | a reservation is granted at once if and only if it fits, and goes to the end of the queue otherwise |
| `AllocLimiter.CancelAnswers` | internal/alloclim/r.go:40-50 | a cancel answers false exactly if the reservation was granted, and changes nothing then; otherwise the reservation is cancelled |
| `AllocLimiter.DropDoes` | internal/alloclim/r.go:53-65 | a drop releases what is granted and cancels what is not |
| `AllocLimiter.ReleaseDoes` | internal/alloclim/r.go:23-36 | a granted reservation is released, a cancelled one is left alone |
| `AllocLimiter.NeverGranted` | internal/alloclim/r.go:40-74 | over every run, what was cancelled or dropped while it waited is never granted |
| `AllocLimiter.SpaceComesBack` | internal/alloclim/r.go:23-36 | over every run that comes to rest, what was released or dropped once granted holds no space any more |
| `AllocLimiter.FirstComeFirstServed` | internal/alloclim/l.go:44-61 | over every run, nobody in the queue is granted before one ahead of it is granted or cancelled |
| `AllocLimiter.QuietMeans` | internal/alloclim/l.go:44-61 | with no wake pending the queue is empty or its head is alive and does not fit; with nothing held, its head does not fit at all |
| `AllocLimiter.SomeStep` | internal/alloclim/l.go:44-74 | unless all is quiet some step can be taken: no deadlock |
| `AllocLimiter.ComesToRest` | internal/alloclim/l.go:44-74 | the steps that go on by themselves always come to an end |
| `AllocLimiter.DrainKeeps` | internal/alloclim/l.go:44-61 | the wake loop is made of those steps and leaves only a head that has to wait |
| `Limiters.Limiter.Reserve` | internal/alloclim/l.go:27-42 | the method does what `Reserve` says |
| `Limiters.Limiter.DoWakesLocked` | internal/alloclim/l.go:44-61 | the loop does what `Drain` says |
| `Limiters.Limiter.AddValue` | internal/alloclim/l.go:69-74 | space comes back and is handed out |
| `Limiters.Limiter.Release` | internal/alloclim/r.go:23-36 | a release that nobody comes between: nothing if cancelled or released before, otherwise the space is handed out |
| `Limiters.Limiter.Cancel` | internal/alloclim/r.go:40-50 | the method does what `Cancel` says and answers what it answers; `AllocLimiter.CancelAnswers` is about `Cancel` |
| `Limiters.Limiter.Drop` | internal/alloclim/r.go:53-65 | a release if granted, a cancellation otherwise; `AllocLimiter.DropDoes` is about `Drop` |
| `StreamSync.SuffixMatchLen` | mse/mse.go:325-342 | the longest prefix of the pattern that ends the window |
| `StreamSync.SkipsNone` | mse/mse.go:346-363 | reading on from the longest match skips no occurrence, for patterns that overlap themselves |
| `StreamSync.ReadUntil` | mse/mse.go:346-363 | it succeeds if and only if the pattern occurs, and then has read exactly to the end of its first occurrence |
| `ChunkGeometry.NumChunksRightIff` | torrent.go:950-952 | the number of chunks of a piece is right if and only if the sum that is divided does not wrap around |
| `ChunkGeometry.NumChunksExample` | torrent.go:950-952 | a piece that comes out as having no chunks |
| `ChunkGeometry.ConvertibleIff` | torrent.go:954-956 | for sizes of 32 bits the number of chunks per piece, by which the conversions divide, is positive if and only if the sum of the sizes, less one, does not wrap around |
| `ChunkGeometry.NumChunksIs` | torrent.go:958-963 | the number of chunks of the torrent is right if and only if it is below 2^32 |
| `ChunkGeometry.IndexRoundTrip` | torrent.go:2487-2497 | the index of the request of a chunk's index is that index, if and only if it is below 2^32 |
| `ChunkGeometry.RequestRoundTrip` | torrent.go:2487-2497 | the request of the index of a chunk's request is that request |
| `ChunkGeometry.RoundTripIff` | torrent.go:2487-2497 | that is so for all chunks if and only if there are at most 2^32 of them |
| `ChunkGeometry.WrappedLayout` | torrent.go:2487-2497 | a torrent of usual sizes and one chunk too many: the last chunk has the index of the first |
| `ChunkGeometry.RequestsPartition` | torrent.go:958-983 | the requests of all chunks lie one after the other from the start to the end of the data, none empty |
| `ChunkGeometry.PartitionIff` | torrent.go:958-983 | those below the computed number of chunks do so if and only if there are fewer than 2^32 chunks |
| `ChunkGeometry.OffsetRequestIs` | misc.go:57-78 | the request for an offset is that of a chunk that contains it |
| `ChunkGeometry.OffsetRequestRightIff` | misc.go:57-78 | it contains the offset if and only if the number of the piece is below 2^32 |
| `ChunkGeometry.ContainingUnique` | misc.go:57-86 | only one chunk contains an offset |
| `Readers.Available` | reader.go:98-121 | the number of bytes that can be read without a gap, at most the maximum |
| `Readers.ReadableIff` | reader.go:98-121 | a byte can be read if and only if its piece is complete, or the reader is responsive and the chunk is there |
| `Readers.UnreadableOutside` | reader.go:98-121 | nothing can be read outside of the data |
| `Readers.RegionExact` | torrent.go:1252-1269 | exactly the pieces that have a byte in the region |
| `Readers.ReaderWants` | reader.go:124-145 | a reader that reads wants the piece at its position, one that does not wants none, and never a piece that does not exist |
| `Readers.ReaderWantsExactly` | reader.go:124-145 | while it reads, exactly the pieces with a byte from its position to the end of its readahead, at least one byte, within its window |
| `Bitmaps.UnsetExact` | undirtied-chunks-iter.go:7-23 | the numbers of the range that are not set, each once and increasing |
| `Bitmaps.IterUnsetInRange` | undirtied-chunks-iter.go:7-23 | the nested loops call back for exactly these, also when the number before the start wraps around |
| `Bitmaps.CardinalityRightIff` | roaring.go:10-16 | the difference of two ranks is the number of set bits of the range that is meant, if and only if nothing is set or it does not end at zero, and it ends at most at 2^32 or no bit is set from the number its end wraps to upwards |
| `Bitmaps.CardinalityExamples` | roaring.go:10-16 | a range that ends at zero and one that ends beyond 2^32, both counted wrong |
| `Bitmaps.UnsetCount` | roaring.go:10-16 | set and unset numbers make up the range |
| `ByteAccounting.DirtyCountRightIff` | piece.go:76-81 | the dirty chunks of a piece are counted right if and only if the next piece would start at most at 2^32, or no chunk from the index that wraps to upwards is dirty |
| `ByteAccounting.DirtyBytesRightIff` | piece.go:132-145 | the dirty bytes counted with the short last chunk are the lengths of the dirty chunks added up, less those of the chunks overlooked; they are right if and only if these add up to nothing in 32 bits |
| `ByteAccounting.OverlookedExample` | piece.go:76-145 | a torrent in which a dirty chunk of the last piece is not counted |
| `ByteAccounting.PieceLeftIff` | torrent.go:837-844 | the length of an incomplete piece less its dirty bytes is the number of its bytes still to be fetched, under the same condition and no other |
| `ByteAccounting.BytesLeft` | torrent.go:837-844 | the bytes left are the bytes of the data still to be fetched, one by one, if and only if the last piece is complete or counted right |
| `FileBytes.FileBytesLeft` | file.go:58-86 | the fast form counts exactly the bytes of the file in incomplete pieces, also for empty files |
| `PieceOrder.BeforeTotal` | request-strategy/order.go:24-42 | the comparison is total and strict |
| `PieceOrder.BeforeTransitive` | request-strategy/order.go:24-42 | and transitive |
| `PieceOrder.ScanOrder` | request-strategy/order.go:24-42 | a scan meets higher priorities first, among equals the partial pieces, among these the rarer ones, then the smaller indices, then the smaller info hashes |
| `PieceOrder.AddDoes` | request-strategy/piece-request-order.go:43-49 | adding works exactly for new keys; the tree never overwrites and still holds every key with its state, in order |
| `PieceOrder.UpdateDoes` | request-strategy/piece-request-order.go:51-65 | updating works exactly for known keys; the tree finds the old item and does not overwrite |
| `PieceOrder.DeleteDoes` | request-strategy/piece-request-order.go:74-77 | deleting works exactly for known keys |
| `PieceOrder.PieceRequestOrder.AddItem` | request-strategy/piece-request-order.go:43-49 | the method does what `Add` says |
| `PieceOrder.PieceRequestOrder.UpdateItem` | request-strategy/piece-request-order.go:51-65 | the method does what `Update` says |
| `PieceOrder.PieceRequestOrder.DeleteItem` | request-strategy/piece-request-order.go:74-77 | the method does what `Delete` says |
| `PiecePicking.GetRequestablePieces` | request-strategy/order.go:47-90 | what the walk emits is in order, not ignored and within the limit on unverified bytes, and of what it reaches nothing else is left out than what is ignored or overflows at its turn |
| `PiecePicking.PicksRight` | request-strategy/order.go:75-88 | a reached piece is emitted if and only if it is not ignored and does not overflow the limit on unverified bytes at its turn |
| `PiecePicking.ReachedRight` | request-strategy/order.go:68-74 | the reached pieces fit in the storage together, and the first one not reached does not fit with them |
| `PiecePicking.MarkedOrdered` | request-strategy/order.go:58-90 | what is emitted comes in order |
| `PiecePicking.EmittedWithin` | request-strategy/order.go:80-86 | what is emitted stays within the limit on unverified bytes |
| `PiecePicking.UnlimitedEmits` | request-strategy/order.go:47-90 | without limits exactly the pieces of the order that are not ignored are emitted |

## Left out

- Sockets, uTP, WebRTC, DHT, trackers, HTTP webseeds, FUSE and the commands: input and output over other libraries.
- The goroutines of webseed peers: only that the answer of a cancel is arbitrary is modelled.
- The order of the request heap: candidates are popped in an arbitrary order, as the comparison reads state that changes meanwhile.
- Timers, clocks, rates and logging. Updates on a timer are switched off by a constant in the source.
- `AllowedFast` messages: the source does not record them, so no piece is allowed fast; the tests for it are modelled.
- The upload side: requests by peers and their reservations.
- Availability.RunKeeps: messages come from open connections, and the two exact conditions on a have-none and on the arrival of the info are assumed step by step; webseeds, and connections dropped while the info is being set, are not part of it.
- PexRuns.RunFromFresh: connections are assumed to have distinct addresses while they last, and address strings to tell compact addresses apart; wiping the log when the torrent closes is not modelled.
- ChunkWrites.RunKeeps: indices do not wrap around, so the dirty chunks of a piece are counted right (`ByteAccounting.DirtyCountRightIff` says when they are); that a hasher waits for pending writes is not modelled; completion may change at any time.
- AllocLimiter.RunKeeps: sizes and the maximum are not negative; waiting with a context is not modelled.
- BencodeCodecs.Encoder.ReflectValue: integers, byte strings, lists and string-keyed maps; structs, tags, pointers and custom marshalers are not modelled. Sorting is by selection, as the library's algorithm does not matter here.
- BencodeCodecs.Decoder.ParseValueInterface: what is left in the buffer after an error is not modelled.
- MMapSpan.MMapSpan.ReadAt: the argument is not one of the buffers, offsets are not negative, and unmapping is not modelled.
- ChunkGeometry.RoundTripIff: for piece lengths and chunk sizes whose sum, less one, is below 2^32; beyond that there are no chunks per piece to divide by (`ChunkGeometry.ConvertibleIff`).
- Readers.Available: for at most 2^32 pieces, as a request names its piece with 32 bits (`ChunkGeometry.OffsetRequestRightIff`).
- RequestOffers.EveryChunkOffered: without a storage capacity and a limit on unverified bytes (`PiecePicking.PicksRight` and `PiecePicking.ReachedRight` say what these leave out), and where no dirty chunk of the piece is overlooked and its indices do not wrap around (`RequestOffers.IgnoredIff` and `RequestOffers.OfferedIff` say what happens otherwise).
- UpdateEffects.UpdateLeaves: for a write buffer of at most 16396 bytes at the start, as a fuller one may panic (`WriteBufferLimit.FullerBufferPanics`).
- RequestOffers.AllOffersPass: for at most 2^32 chunks, as beyond that an index does not tell which chunk is dirty (`ChunkGeometry.RoundTripIff`).
- ByteAccounting.BytesLeft: for at most 2^32 chunks, for the same reason; complete pieces beyond the last one are not considered.
- PieceOrder.Btree: the tree is an increasing sequence; balancing is left to the library.
- Readers.RegionExact: the piece length is positive.
- Roaring bitmaps are sets; RC4, SHA-1, Diffie-Hellman and the rest of the handshake are left out.
- The peer wire codec, address lists, connection ranking and piece length selection: easier than what is here.
