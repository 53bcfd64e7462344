# A Dafny model of a name service cache daemon, disk tools, an SMBIOS reader and a template compiler

The repository carries unscd, a single-threaded cache daemon for name service
queries (`src/nscd/nscd-0.54.c`), and around it tools that copy and wipe disks,
read the SMBIOS table and compile templates. This project models their hard
parts and proves what they are for.

## The daemon

`NscdModel.dfy` has the state as a value and one specification function for
each C function that changes it. `NscdInvariant.dfy` says what holds between
any two steps: the four phases of a client, one owner for every future cache
slot, distinct keys and buffers, reference counts that are counts, descriptors
that are neither leaked nor shared, a history of what workers answered, the
counters, and the condition under which the daemon may sleep. `NscdClose`,
`NscdSweep`, `NscdServe`, `NscdReply`, `NscdTransfer`, `NscdRequest`,
`NscdEvents`, `NscdAccept` and `NscdCompact` prove that each step keeps it,
`NscdRun` that every run does, and `NscdTheorems` what that means for users of
the daemon. `NscdProgress`, `NscdReading` and `NscdEffects` say what each step
comes to for a client, of the states before and after it and not of the
functions in between; `NscdClock` and `NscdTiming` put ageing, time-outs and the
sleep of poll() in true time; `NscdLiveness` follows one client through whole
runs until it is served. `NscdDaemon.dfy` is the program itself, a class
whose arrays and counters are updated in place; each method is proved to change
the abstract value as its specification function says, and `EveryRunIsSafe`
that every step of every run meets what the methods require. `NscdExact.dfy`
says which runs those are where workers may reply anything, and `NscdVerdict.dfy`
what the checks of `handle_client()` let through. `NscdFills.dfy` has runs in
which workers fail.
`NscdLayout.dfy` and `NscdMarshal.dfy` are the workers' replies, `NscdPipes.dfy`
partial reads and writes, `NscdEndToEnd.dfy` the way from a worker's lookup to
what its client reads, `NscdEnv.dfy` the list of ids handed on through the
environment.

How the C program is rendered:

- Entry i of `pfd[]` and `cinfo[]` is entry i of `table`, and client i - 2 of the
  model. A request buffer holds the octets received, so its length is `bytecnt`.
- A response block carries an identifier that is never used again, and so does
  a descriptor; "freed" and "closed" mean gone from the map.
- A cache pointer with its tag bits is `Empty`, `Done` (a completed entry) or
  `Future` (a request buffer, marked shared or not).
- `poll()`, `accept()`, `read()`, `write()`, the output of a worker, the caller's
  uid and whether watched files changed are inputs of a round. A worker's output
  is all it wrote before it closed its end; a read error on its pipe counts as no
  output, which the code refuses alike.
- `answers`, `served` and `failedFills` are history that no step reads.

What is assumed of the kernel (`NscdEvents.PollOk`, `NscdRun.PollFits`): POLLIN
and POLLOUT are reported only where asked for, a worker's pipe shows POLLIN or
POLLHUP only, POLLIN on it means a whole valid reply, and no waiter is reported
in the very poll that reports its owner's worker when it comes before the owner
in the table. The last two are not met by every kernel and worker:

- A worker that dies in the middle of a reply too big for its pipe has shown
  POLLIN, and the jump to `write_out` passes over the test of `resptr`. That is
  exact: `AnswerSafeIff` says so of one turn, `RoundSafeIff` and `RunSafeIff` of
  rounds and runs in which any reply may come, and `BadReplyIsUnsafe` gives, for
  every configuration, query and bad reply, a run of two polls that goes wrong.
- `close_client()` leaves `cache_pp` set, and the wake-up loop then reopens the
  closed entry of a waiter. The exact condition is the one for a single reply:
  `ReplyKeepsInvariantIff` (the guard a caller could test: no closed entry of the
  table has the slot's address). For a whole round `NoRace` is sufficient only,
  because after a failed reply compaction can happen to overwrite just the entry
  that was reopened, and no theorem says which rounds those are.
  `RaceBreaksInvariant` gives, for every configuration, query
  and good reply, a run of three polls that goes wrong, with nothing amiss in
  them but that one hang-up.

Other places where the code and its comments part:

- `cached_cnt` counts the slots given back after a worker failed as occupied for
  ever, modulo 2^32. `SleepsForEverIff` is exact about the consequence, and
  `AsleepOnEntry` gives the run.
- `HOST_NOT_FOUND` and the error of `getaddrinfo()` are stored in replies of
  which only eight octets are sent, so clients read error 0 (`HostErrorLost`,
  `AddrErrorLost`).

## The disk tools

`DiskCopy.dfy` is the two-pass copier over arrays of sectors, with reads and
writes that may fail at any time and linked lists of what was missed
(`BlockList.dfy`). `main()` cuts the range to the smaller drive, and a starting
LBA below 2^63 and a chunk size above 0 are taken for granted (the loop does not
end for 0). The promise of the copier holds exactly for ranges longer than a
chunk whose remainder fits 16 bits (`ExactlyWhenFits`). A range no longer than a
chunk goes wrong in two ways: with a chunk of LBAs before it on the disk, that
chunk is overwritten as well, LBAs `start - count` to `start - 1` of the target
(`ChunkBefore` and the contract of `DoCopy`); nearer to the start of the disk,
the copy is reported done with nothing copied.

`AtaTrim.dfy` and `ScsiUnmap.dfy` cut a range into the payloads of
`TrimBlocks.dfy`; `WipeDrive.dfy` puts chunk loops around them. Counts and chunk
sizes given as negative numbers are not modelled. The SCSI loop would not end for
a maximum of 0 unmapped LBAs, but a drive is taken to support trimming only with
another one (`src/libdrive/scsi.c:522-525`), and `trim()` asks for that first.

## SMBIOS and templates

`Smbios.dfy` walks the table of structures of DSP0134, sections 6.1.2 and 6.1.3,
and finds their strings. Because the loop runs while `i <= count`, a table with
more structures than announced is read one structure too far and then refused.

`JinjaOutput.dfy` is `visit_Output`. Generated code is a sequence of lines with
their indentation, and an interpreter of those lines gives it its meaning; as
the comment in the source has it, constants are known only in frames that are
not volatile, and what `as_const()` tells is the value at run time.

## Model

| member | source | states |
|---|---|---|
| `NscdRun.EveryRunKeepsInvariant` | src/nscd/nscd-0.54.c:1837-2093 | after any number of rounds of the main loop, whatever poll(), accept(), the sockets and the workers give within PollFits, the invariant of NscdInvariant holds and the table has no closed entry |
| `NscdRun.RoundInv` | src/nscd/nscd-0.54.c:1846-2092 | one round keeps it: accepting, every turn over the descriptors, ageing, time-outs, compaction |
| `NscdRun.InitIdle` | src/nscd/nscd-0.54.c:2579-2593 | it holds when the loop is entered |
| `NscdTheorems.NoLeakNoDangling` | src/nscd/nscd-0.54.c:787-818 | in every reachable state refcount + 1 is the number of cache slots plus the number of open clients that hold the block; every pointer that may be followed leads to an allocated block, and every allocated block has a holder |
| `NscdTheorems.RefcountFits` | src/nscd/nscd-0.54.c:1676-1678 | the 8-bit count stays below 254, so the "rolled over" exit is never taken |
| `NscdTheorems.OneSlotPerBlock` | src/nscd/nscd-0.54.c:1238-1308 | a block is in one cache slot at most |
| `NscdTheorems.RightAnswers` | src/nscd/nscd-0.54.c:1958-1970 | every client served in any run got, octet by octet, the reply a worker gave to exactly its (type, key length, key), zero-extended where nothing was found, with the version for the size word |
| `NscdTheorems.RightSoFar` | src/nscd/nscd-0.54.c:1940-1973 | a client still being written to has got a prefix of such a reply |
| `NscdTheorems.NobodyForgotten` | src/nscd/nscd-0.54.c:1688-1701 | a client that waits for another's worker waits at a slot that is marked shared and has an owner asking for the same thing |
| `NscdTheorems.OneOwnerEach` | src/nscd/nscd-0.54.c:1305-1307 | every future slot has exactly one open owner waiting on a worker |
| `NscdTheorems.FutureNeverAged` | src/nscd/nscd-0.54.c:1321-1322 | no sweep touches a future slot |
| `NscdTheorems.SleepsForEverIff` | src/nscd/nscd-0.54.c:1850-1854 | the infinite poll with something in the cache happens exactly if 2^32 divides the occupied slots plus the failed fills; with fewer than that, never |
| `NscdFills.AnyNumberOfFills` | src/nscd/nscd-0.54.c:1275-1277 | failed fills come in any number: for every configuration, query and n there is a reachable state with n of them |
| `NscdFills.AsleepOnEntry` | src/nscd/nscd-0.54.c:1803-1806 | so for every configuration, query and good reply there is a reachable state with a completed entry in which the daemon is ready to sleep for ever |
| `NscdTheorems.AgeingResumes` | src/nscd/nscd-0.54.c:1834 | with the interval at INT_MAX and a completed entry in the cache a worker is outstanding, and its result resets the interval |
| `NscdTheorems.LookupRefinesMap` | src/nscd/nscd-0.54.c:1246-1307 | lookup_in_cache() on a finite map from requests to entries: the pointer is to an entry for the key exactly if the key is in the map, which is then as before; NULL exactly if it is not and the line is full and all ages in it are zero; else a pending entry is added, for nothing where the slot was empty, or at the price of one completed entry, an oldest of a full line |
| `NscdTheorems.LookupCounts` | src/nscd/nscd-0.54.c:1246-1251 | every lookup is counted as an access, and as a hit exactly if the key is in the map; both counts are halved before bit 31 |
| `NscdTheorems.MapAt` | src/nscd/nscd-0.54.c:1259-1273 | a slot is what the map has for the slot's request |
| `NscdTheorems.MapAbsent` | src/nscd/nscd-0.54.c:1259-1273 | the map lacks a request exactly if no slot is for it |
| `NscdTheorems.EvictionRefines` | src/nscd/nscd-0.54.c:1301-1303 | an eviction removes its own request from the map and no other |
| `NscdTheorems.ReserveRefines` | src/nscd/nscd-0.54.c:1305-1307 | a reservation adds its own request, pending, and no other |
| `NscdReply.ReplyKeepsInvariantIff` | src/nscd/nscd-0.54.c:1811-1818 | handling a worker's result keeps the invariant if and only if no closed entry still has the address of the shared slot |
| `NscdReply.StaleWaiterReopens` | src/nscd/nscd-0.54.c:1718-1720 | with such an entry a closed client is opened again while cnt_closed still counts it |
| `NscdRace.RaceBreaksInvariant` | src/nscd/nscd-0.54.c:787-818 | for every configuration, query and good reply there is a run of three polls after which the invariant fails: two that fit, and one in which a waiter hangs up before its owner's reply and each client is reported as a kernel can |
| `NscdRace.ReaderLost` | src/nscd/nscd-0.54.c:2062-2090 | after it nobody is in the table, and the cached block counts a reader for ever |
| `NscdReply.NoLostWakeUp` | src/nscd/nscd-0.54.c:1801-1833 | one result, good or bad, moves the owner and every open client waiting at its slot to writing, and nobody else |
| `NscdReply.WakeSetOk` | src/nscd/nscd-0.54.c:1811-1818 | the clients woken are open and all ask for the same thing |
| `NscdReply.DeliverInv` | src/nscd/nscd-0.54.c:1735-1835 | handling a worker's result keeps the invariant when no closed entry waits for it |
| `NscdReply.DeliverRefs` | src/nscd/nscd-0.54.c:1801-1833 | the reference count given to a new block is the number of its holders less one |
| `NscdClose.CloseInv` | src/nscd/nscd-0.54.c:787-818 | close_client() keeps the invariant for a client without a worker of its own |
| `NscdClose.FreedWithLastHolder` | src/nscd/nscd-0.54.c:1217-1236 | a close frees the client's block exactly if neither a slot nor another open client has it |
| `NscdServe.ScanDecides` | src/nscd/nscd-0.54.c:1258-1273 | the eight slots of one line decide whether a request is anywhere in the cache |
| `NscdServe.ServeKeeps` | src/nscd/nscd-0.54.c:1664-1711 | hit, shared wait, reservation, eviction and "fake entry" each keep tables, counts and descriptors right |
| `NscdRequest.ServeInv` | src/nscd/nscd-0.54.c:1643-1711 | a complete query keeps the invariant, also just after a flush of its own service |
| `NscdRequest.NoAnswerAfterFlush` | src/nscd/nscd-0.54.c:1660-1664 | after that flush the query cannot be answered from the cache, so a worker is or becomes outstanding |
| `NscdRequest.HandleClientInv` | src/nscd/nscd-0.54.c:1564-1712 | whatever is received, handle_client() keeps the invariant, and says "ready" only with an answer in hand |
| `NscdRequest.ReadRequestInv` | src/nscd/nscd-0.54.c:2020-2040 | so does reading from a client |
| `NscdRequest.SweepInv` | src/nscd/nscd-0.54.c:1310-1348 | age_cache() for all services keeps the invariant |
| `NscdSweep.SweptInterval` | src/nscd/nscd-0.54.c:1317-1340 | the interval after a sweep is the least time left to any entry, or INT_MAX |
| `NscdTransfer.WriteOutInv` | src/nscd/nscd-0.54.c:1940-1973 | a write of any length, its failure and the end of an answer keep the invariant |
| `NscdProgress.WriteOutcome` | src/nscd/nscd-0.54.c:1940-1973 | a write that takes some but not all octets leaves the client open on its descriptor with exactly those octets more sent; one that takes the rest serves and closes it; one that takes none closes it unserved; nobody else is touched |
| `NscdProgress.WriteStops` | src/nscd/nscd-0.54.c:1945-1957 | a write that would block changes nothing; one that fails closes the client unserved |
| `NscdLiveness.EveryWriterIsServed` | src/nscd/nscd-0.54.c:1925-2060 | in every fitting run a client that is being written to, is reported writable and takes at least one octet in each round, within 100 ms of when it was last waited for, has its whole answer on its own descriptor after as many rounds as octets were left, unless root shuts the daemon down |
| `NscdLiveness.RoundGetsOn` | src/nscd/nscd-0.54.c:1925-2092 | one such round serves it or gets it on, through everybody else's turns, ageing, time-outs and the move to another table entry |
| `NscdLiveness.TurnsKeep` | src/nscd/nscd-0.54.c:1925-2041 | no turn takes back what was served, or changes the key, the reply or the time stamp of a block, or uses the identifier of a freed one again |
| `NscdEvents.OwnerTurn` | src/nscd/nscd-0.54.c:1976-2010 | a turn on a worker's descriptor keeps the invariant and disturbs only those it wakes |
| `NscdEvents.ClientTurn` | src/nscd/nscd-0.54.c:1931-2041 | a turn on a client's descriptor keeps the invariant and disturbs nobody else |
| `NscdAccept.BufferAvailable` | src/nscd/nscd-0.54.c:766-778 | while the table has room an idle buffer is found, so the "no free bufs" exit is never taken |
| `NscdAccept.AcceptInv` | src/nscd/nscd-0.54.c:1894-1924 | a new connection keeps the invariant, and the table never passes its size though both listeners fire |
| `NscdCompact.CompactionIsStableFilter` | src/nscd/nscd-0.54.c:2062-2085 | with min_closed and cnt_closed right, the short cut and the shifting loop both leave exactly the open clients |
| `NscdCompact.OldIndexIncreases` | src/nscd/nscd-0.54.c:2071-2082 | in their old order |
| `NscdCompact.OpenClientStays` | src/nscd/nscd-0.54.c:2071-2082 | and every open client is among them |
| `NscdCompact.CoalesceInv` | src/nscd/nscd-0.54.c:2062-2091 | compaction keeps the invariant across all tables and leaves no closed entry |
| `NscdClock.AgeIsElapsed` | src/nscd/nscd-0.54.c:754-764 | below 2^32 - 255 ms cache_age() is the true time elapsed plus 0 to 255, across any wrap |
| `NscdClock.SweepIsTruthful` | src/nscd/nscd-0.54.c:1328-1335 | in true time and type by type: a completed entry that survives a sweep is younger than pttl of its service if it was found, than nttl if it was not, and one that is removed is at most 255 ms short of that |
| `NscdClock.IntervalIsLeastTimeLeft` | src/nscd/nscd-0.54.c:1336-1340 | aging_interval_ms is INT_MAX with nothing left to age, or else the least that any remaining entry still has of its lifetime, again by type and by found or not |
| `NscdClock.FlushIsExact` | src/nscd/nscd-0.54.c:1324-1327 | age_cache(1, srv) removes exactly the completed entries whose type belongs to that service |
| `NscdClock.FlushAllIsExact` | src/nscd/nscd-0.54.c:1325-1327 | age_cache(1, -1) removes all completed entries and no future one |
| `NscdDaemon.Daemon.constructor` | src/nscd/nscd-0.54.c:2579-2593 | sets up the state the loop starts from |
| `NscdDaemon.Daemon.MainLoop` | src/nscd/nscd-0.54.c:1846-2092 | the loop over arrays updated in place goes through the states of Run; with EveryRunIsSafe, no index leaves its table, no freed block is touched |
| `NscdDaemon.Daemon.Round` | src/nscd/nscd-0.54.c:1878-2092 | one round of it |
| `NscdDaemon.Daemon.CloseClient` | src/nscd/nscd-0.54.c:787-818 | changes tables, blocks and counters as CloseClient of the model |
| `NscdDaemon.Daemon.AllocBufNo` | src/nscd/nscd-0.54.c:766-778 | takes the first idle buffer going round, and goes on after it |
| `NscdDaemon.Daemon.FreeRefcountedUreq` | src/nscd/nscd-0.54.c:1217-1236 | takes one reference off, or frees |
| `NscdDaemon.Daemon.LookupInCache` | src/nscd/nscd-0.54.c:1238-1308 | both loops over the line and what follows compute Lookup |
| `NscdDaemon.Daemon.FindInLine` | src/nscd/nscd-0.54.c:1258-1273 | finds the request's slot, or the first empty one |
| `NscdDaemon.Daemon.OldestInLine` | src/nscd/nscd-0.54.c:1282-1290 | finds a first slot of greatest age |
| `NscdDaemon.Daemon.CountAccess` | src/nscd/nscd-0.54.c:1246-1251 | counts accesses, halving both counters before bit 31 |
| `NscdDaemon.Daemon.AgeCache` | src/nscd/nscd-0.54.c:1310-1348 | the sweep over all slots computes AgeCache of the model |
| `NscdDaemon.Daemon.HandleClient` | src/nscd/nscd-0.54.c:1564-1712 | every branch from version check to worker start |
| `NscdDaemon.Daemon.PrepareForWriteout` | src/nscd/nscd-0.54.c:1714-1730 | what it sets in the table entry |
| `NscdDaemon.Daemon.HandleWorkerResponse` | src/nscd/nscd-0.54.c:1735-1835 | reading, closing, slot, wake-ups, count and clock come to HandleWorkerResponse of the model |
| `NscdDaemon.ReadReply` | src/nscd/nscd-0.54.c:1752-1793 | for any splitting of the pipe's octets: what is accepted and what is kept |
| `NscdDaemon.Daemon.WakeWaiters` | src/nscd/nscd-0.54.c:1811-1819 | the wake-up loop rouses exactly the entries with the slot's address and counts them |
| `NscdDaemon.Daemon.SendRest` | src/nscd/nscd-0.54.c:1941-1946 | any partial write sends the next octets of the answer with the version in front, and the block is as before afterwards: the size word is back |
| `NscdDaemon.Daemon.WriteOut` | src/nscd/nscd-0.54.c:1940-1974 | partial, complete and failed writes |
| `NscdDaemon.Daemon.ReadRequest` | src/nscd/nscd-0.54.c:2020-2040 | what is read goes to the end of the buffer, and no further |
| `NscdDaemon.Daemon.HandleEvent` | src/nscd/nscd-0.54.c:1925-2041 | the dispatch on revents |
| `NscdDaemon.Daemon.Accept` | src/nscd/nscd-0.54.c:1899-1923 | table entry, buffer, and the stop at a full table |
| `NscdDaemon.Daemon.AgeIfDue` | src/nscd/nscd-0.54.c:2044-2048 | the ageing test in 32-bit arithmetic; RoundEnds says what it is in true time |
| `NscdDaemon.Daemon.Timeouts` | src/nscd/nscd-0.54.c:2050-2060 | the loop over the entries; TimesOutExactly says which it closes |
| `NscdDaemon.Daemon.ShiftDown` | src/nscd/nscd-0.54.c:2071-2082 | the nested loops, with their termination |
| `NscdDaemon.Daemon.Coalesce` | src/nscd/nscd-0.54.c:2062-2091 | short cut and loop both compute Coalesced |
| `NscdDaemon.Daemon.PollTimeoutMs` | src/nscd/nscd-0.54.c:1850-1854 | which timeout poll() gets; WakesInTime says what for |
| `NscdDaemon.EveryRunIsSafe` | src/nscd/nscd-0.54.c:1837-2093 | every step of every run within PollFits meets what the methods require: indices in range, blocks allocated, a buffer to be had |
| `NscdDaemon.AnswerSafeIff` | src/nscd/nscd-0.54.c:1979-1984 | a turn on a worker's pipe that shows POLLIN is safe if and only if what comes out is a valid reply; otherwise the jump past the test of resptr follows a null pointer |
| `NscdExact.RoundSafeIff` | src/nscd/nscd-0.54.c:1878-2092 | with any replies at all, a round is safe if and only if every reply it reads on POLLIN is valid, and then it keeps the invariant |
| `NscdExact.RunSafeIff` | src/nscd/nscd-0.54.c:1837-2093 | the same for every run: it goes without fault if and only if no worker's pipe shows POLLIN without a valid reply |
| `NscdExact.BadReplyIsUnsafe` | src/nscd/nscd-0.54.c:1935-1942 | for every configuration, query and bad reply there is a run of two polls, such as a kernel can give, that goes wrong |
| `NscdVerdict.QueryIff` | src/nscd/nscd-0.54.c:1578-1658 | a request is looked up exactly if version, length and terminating zero are right, its type is one of the ten that are looked up and the service of that type is enabled; that service is flushed first exactly if its files are watched and have changed |
| `NscdVerdict.QueryFlushes` | src/nscd/nscd-0.54.c:1643-1664 | when a query is looked up after a flush, no completed entry of its service is left, and every other slot is as it was |
| `NscdVerdict.RootOnly` | src/nscd/nscd-0.54.c:1610-1641 | shutdown and the flush of everything are for root alone, by a whole request of that type, the latter with a terminated key |
| `NscdVerdict.PrefixVerdict` | src/nscd/nscd-0.54.c:1578-1599 | however the octets are cut into reads, the daemon reads on exactly until it has what the header asks for, or a bad header, and only closes on more |
| `NscdReading.PiecesLikeWhole` | src/nscd/nscd-0.54.c:2020-2040 | in however many reads a request comes, the daemon ends up in the very state it would be in had it come in one |
| `NscdReading.ReadStops` | src/nscd/nscd-0.54.c:2021-2033 | EAGAIN changes nothing; an error and the end of the stream close the client |
| `NscdEffects.InvalidateEmpties` | src/nscd/nscd-0.54.c:1632-1641 | INVALIDATE from root empties every completed slot, leaves every future one, closes its client and nobody else |
| `NscdEffects.OtherRequests` | src/nscd/nscd-0.54.c:1578-1631 | an incomplete request changes nothing, SHUTDOWN from root only makes the daemon exit, and whatever is not in order closes its client unserved with the cache as it was |
| `NscdEffects.QueryOutcome` | src/nscd/nscd-0.54.c:1664-1711 | a query gets the reply the map of the cache has for it; or waits, without a new worker, where the map has a pending entry; or, where it has none, a worker is fed the request, with a slot set aside unless the line has no room |
| `NscdEffects.HitServedAtOnce` | src/nscd/nscd-0.54.c:2034-2039 | a query whose answer is in the cache is served in the very turn its last octets are read, if the socket takes the answer |
| `NscdEffects.ResultInMap` | src/nscd/nscd-0.54.c:1763-1833 | a worker's good reply turns the pending entry of the map for its request into that reply, stamped with the time; a bad one takes the entry out; no other entry changes |
| `NscdEffects.WokenHasReply` | src/nscd/nscd-0.54.c:1713-1730 | everybody woken by a result has that reply to write from the start, and its 100 ms begin anew |
| `NscdEffects.WholeOrNotAtAll` | src/nscd/nscd-0.54.c:1755-1801 | a reply that found something is kept octet by octet, and any proper prefix of it is refused |
| `NscdEffects.ReplyServedAtOnce` | src/nscd/nscd-0.54.c:1979-1984 | a good reply is written to the client it was asked for in the very same turn, if the socket takes it |
| `NscdEffects.OtherTurns` | src/nscd/nscd-0.54.c:1927-2016 | without an event nothing happens; on POLLHUP, POLLERR or an odd mixture of bits, and where no answer came, the client is closed unserved |
| `NscdEffects.BothListeners` | src/nscd/nscd-0.54.c:1882-1923 | of the connections on the two listeners as many are taken as the table has room for, each with an empty buffer and its full time |
| `NscdTiming.TimesOutExactly` | src/nscd/nscd-0.54.c:2050-2060 | in true time: an open client is closed by the time-out loop exactly if it is the client that is waited for, for more than 100 ms; all others are left as they were |
| `NscdTiming.RoundEnds` | src/nscd/nscd-0.54.c:2044-2091 | what every round ends with, in true time: the cache is aged by lifetimes exactly if the interval is over since the last sweep, and the clients that stay, in their order, are those open and not timed out |
| `NscdTiming.WakesInTime` | src/nscd/nscd-0.54.c:1850-1854 | a poll that sleeps to its end is followed by a sweep if the table has room, and by the close of every client that is waited for if it is full |
| `NscdTiming.HalfTheShortest` | src/nscd/nscd-0.54.c:1839-1844 | the first interval is half the shortest lifetime of a "not found", made odd |
| `NscdDaemon.Serve` | src/nscd/nscd-0.54.c:1837-2093 | a daemon started and run through any fitting polls is in a reachable state that meets the invariant |
| `NscdPipes.Stream.FullRead` | src/nscd/nscd-0.54.c:363-379 | for any splitting, all of len octets, or all there are, or -1 where the stream breaks before |
| `NscdPipes.Stream.FullWrite` | src/nscd/nscd-0.54.c:403-418 | for any partial writes, all of the octets in order; -1 exactly if a write fails, after the octets before |
| `NscdLayout.PasswdRoundTrip` | src/nscd/nscd-0.54.c:876-933 | any passwd entry reads back from what the client is sent |
| `NscdLayout.GroupRoundTrip` | src/nscd/nscd-0.54.c:935-1010 | any group entry, with any number of members |
| `NscdLayout.HostentRoundTrip` | src/nscd/nscd-0.54.c:1012-1095 | any host entry, with any aliases and addresses and the padded name |
| `NscdLayout.AddrInfoRoundTrip` | src/nscd/nscd-0.54.c:1098-1180 | any list of addresses, with or without a canonical name |
| `NscdLayout.PasswdOffsets` | src/nscd/nscd-0.54.c:876-891 | field by field: each word of the header and the five strings are at the offsets of the C struct |
| `NscdLayout.GroupOffsets` | src/nscd/nscd-0.54.c:935-946 | the same for the header of a group and the lengths of its members |
| `NscdLayout.HostentOffsets` | src/nscd/nscd-0.54.c:1012-1025 | the same for the header of a host, with the padded length of its name |
| `NscdLayout.AddrInfoOffsets` | src/nscd/nscd-0.54.c:1098-1108 | the same for the header of an address list |
| `NscdLayout.PasswdNotFound` | src/nscd/nscd-0.54.c:910-915 | "not found" reads as that |
| `NscdLayout.GroupNotFound` | src/nscd/nscd-0.54.c:975-980 | "not found" reads as that |
| `NscdLayout.HostErrorLost` | src/nscd/nscd-0.54.c:1055-1059 | the HOST_NOT_FOUND that marshal_hostent() stores never reaches the client, which reads error 0 |
| `NscdLayout.AddrErrorLost` | src/nscd/nscd-0.54.c:1145-1149 | nor does the error of getaddrinfo() |
| `NscdLayout.ErrorIsLost` | src/nscd/nscd-0.54.c:1510-1513 | of a reply that found nothing every word after the second reads as zero |
| `NscdLayout.ReplySurvives` | src/nscd/nscd-0.54.c:1510-1518 | a reply that found something passes the daemon whole but for its first word |
| `NscdMarshal.MarshalPasswd` | src/nscd/nscd-0.54.c:893-933 | the write pass fills exactly the block of the size pass with the documented layout |
| `NscdMarshal.MarshalGroup` | src/nscd/nscd-0.54.c:958-1010 | the same, through the size, length and member loops |
| `NscdMarshal.MarshalHostent` | src/nscd/nscd-0.54.c:1027-1095 | the same, with the gap after the name left zero |
| `NscdMarshal.MarshalAddrInfo` | src/nscd/nscd-0.54.c:1110-1180 | the same, with two cursors |
| `NscdMarshal.PutAddrs` | src/nscd/nscd-0.54.c:1154-1169 | the address cursor and the family cursor write side by side and never overlap |
| `NscdMarshal.SendReply` | src/nscd/nscd-0.54.c:1510-1518 | what goes down the pipe: eight octets or all, and less only where a write fails |
| `NscdEndToEnd.ServedSees` | src/nscd/nscd-0.54.c:1958-1970 | in every reachable state a client whose request workers always answer with one reply got that reply as seen on the wire |
| `NscdEndToEnd.ServedReadsPasswd` | src/nscd/nscd-0.54.c:1490-1497 | so the client reads the very entry the worker looked up |
| `NscdEndToEnd.ServedReadsGroup` | src/nscd/nscd-0.54.c:1498-1503 | the same for groups |
| `NscdEndToEnd.ServedReadsHostent` | src/nscd/nscd-0.54.c:1476-1489 | the same for hosts |
| `NscdEndToEnd.ServedReadsAddrInfo` | src/nscd/nscd-0.54.c:1504-1505 | the same for address lists |
| `NscdEnv.EnvRoundTrip` | src/nscd/nscd-0.54.c:2343-2410 | parsing what was printed gives the same ids, in order and number, for every non-empty list |
| `NscdEnv.EnvUToUidAndGids` | src/nscd/nscd-0.54.c:2343-2372 | for any string: one cell per comma and one more is room enough for what the loop stores; the result is what the string says, or the error |
| `NscdEnv.UserToEnvU` | src/nscd/nscd-0.54.c:2397-2409 | the text and its NUL fit the computed block, and the last comma gives way to the NUL |
| `NscdEnv.NoCommaRead` | src/nscd/nscd-0.54.c:2362 | strtoul() with blanks, sign and 0x never passes a comma |
| `DiskCopy.DoCopy` | src/libdrive/diskcopy.c:121-292 | for any failures in either pass and any range whose plan stays below 2^64, rc 0 means every LBA attempted is equal on both drives or reported, and no other is written; if the range fits, those are its own LBAs; rc is an error exactly if a write failed; reported are exactly the LBAs whose own read failed after the first pass, all of them from chunks that could not be read in it; a range shorter than a chunk at the start of the disk is reported copied with nothing copied |
| `DiskCopy.ExactlyWhenFits` | src/libdrive/diskcopy.c:156-191 | the first pass goes for exactly [start, end) if and only if start + count < end and the remainder's size fits 16 bits |
| `DiskCopy.ChunkBefore` | src/libdrive/diskcopy.c:190-199 | a range no longer than a chunk, with a whole chunk before it on the disk: the plan is that chunk and the range |
| `DiskCopy.TailLength` | src/libdrive/diskcopy.c:190-191 | how long the remainder is, and that it goes back over one whole chunk |
| `DiskCopy.Copy` | src/libdrive/diskcopy.c:47-59 | the COPY macro: copied, listed exactly if the read failed, broken off exactly if the write did |
| `DiskCopy.WholeChunks` | src/libdrive/diskcopy.c:156-177 | the chunk loop tries every LBA up to where it ends |
| `DiskCopy.Retry` | src/libdrive/diskcopy.c:222-249 | the second pass settles every LBA that was listed, and lists no other; a write error ends one range but stays the result |
| `DiskCopy.Report` | src/libdrive/diskcopy.c:275-287 | the report is exactly the LBAs that failed |
| `BlockList.List.Add` | src/libdrive/diskcopy.c:73-100 | appends to the linked list |
| `BlockList.List.Clean` | src/libdrive/diskcopy.c:102-119 | leaves the list empty |
| `AtaTrim.Trim` | src/libdrive/ata.c:922-982 | the 512-octet blocks issued, stale entries and all, name exactly the LBAs of the chunks; it fails exactly if the drive refused one, and sends none after that |
| `AtaTrim.ExactIffAddressable` | src/libdrive/ata.c:946-976 | which are exactly [start, start + length) if and only if the last entry begins below 2^48 |
| `AtaTrim.FillBlock` | src/libdrive/ata.c:951-976 | 63 entries at most, and each loop ends |
| `AtaTrim.Issue` | src/libdrive/ata.c:978-979 | an entry left from an earlier block only repeats a range already issued |
| `TrimBlocks.EntryBack` | src/libdrive/ata.c:955-963 | an entry reads back as its 48-bit LBA and 16-bit count |
| `ScsiUnmap.Trim` | src/libdrive/scsi.c:1132-1209 | the commands issued tile [start, start + length): each has right header lengths and a count from 1 to the drive's maximum; it fails exactly if the drive refused one |
| `ScsiUnmap.TilesCover` | src/libdrive/scsi.c:1161-1207 | so they cover exactly that range |
| `ScsiUnmap.TilesDisjoint` | src/libdrive/scsi.c:1161-1207 | and no LBA is in two of them |
| `ScsiUnmap.WellFormed` | src/libdrive/scsi.c:1169-1201 | a parameter list reads back as its lengths, LBA and count |
| `WipeDrive.DoTrimWipe` | src/libdrive/wipedrive.c:165-220 | for any chunk size, through either kind of drive: the LBAs named are exactly those of the range; it fails only if the drive refuses a command or takes none |
| `WipeDrive.DoSCSIWipe` | src/libdrive/wipedrive.c:307-384 | for any chunk size above 0, success means that every LBA from start to the end of the disk is written if count is 0, and every LBA of [start, start + count) otherwise, and none outside but past the end of the disk after a refused last write; the writes follow each other, and any other refusal is an error |
| `WipeDrive.ConsecutiveCovers` | src/libdrive/wipedrive.c:325-362 | such writes cover exactly what lies between |
| `Smbios.DmiTable` | src/libhardware/dmi_decode.c:1493-1571 | for any octets and whatever lies behind them, the loops compute the walk |
| `Smbios.CountedTable` | src/libhardware/dmi_decode.c:1519-1563 | on the encoding of any structures the walk visits them once and in order, at most one more than announced, and succeeds exactly if there are as many as announced |
| `Smbios.UncountedTable` | src/libhardware/dmi_decode.c:1534-1535 | without a count it visits those before the end-of-table structure, and nothing after that matters |
| `Smbios.ShortHeader` | src/libhardware/dmi_decode.c:1525-1529 | a header shorter than four octets ends the walk with an error after the structures before it |
| `Smbios.VisitedHolds` | src/libhardware/dmi_decode.c:1521-1540 | each header handed on points at its structure |
| `Smbios.StringsEndBack` | src/libhardware/dmi_decode.c:1542-1550 | the search for two zeros ends at the end of the strings and not before, also with no strings |
| `Smbios.DmiString` | src/libhardware/dmi_decode.c:577-596 | string k of a structure for 1 to n, "ERR" beyond n, "Not Specified" for 0 |
| `JinjaOutput.CodeMeansText` | src/libconfig/jinja2/compiler.py:1221-1364 | for all children, frames and run-time settings the generated code puts out the children's text in order, or nothing where a parent template is to speak; it is refused by Python exactly if a guard is left without a body |
| `JinjaOutput.EmittedRuns` | src/libconfig/jinja2/compiler.py:1279-1361 | yield, append, extend and %-format all mean the text of the merged body |
| `JinjaOutput.BodyKeeps` | src/libconfig/jinja2/compiler.py:1250-1277 | merging constants keeps the text and leaves no two runs of constants side by side |
| `JinjaOutput.DoubledBack` | src/libconfig/jinja2/compiler.py:1329 | doubled percent signs are undone by the formatting |
| `JinjaOutput.FormatRun` | src/libconfig/jinja2/compiler.py:1325-1332 | the format string takes exactly its arguments |
| `JinjaOutput.FormatHasArguments` | src/libconfig/jinja2/compiler.py:1325-1332 | and there is at least one of them |
| `JinjaOutput.Generator.VisitOutput` | src/libconfig/jinja2/compiler.py:1221-1364 | the loops emit the code of the specification after what was there, and leave the indentation as it was |
| `JinjaOutput.Generator.BuildBody` | src/libconfig/jinja2/compiler.py:1250-1277 | the loop over the children |
| `JinjaOutput.Generator.EmitEach` | src/libconfig/jinja2/compiler.py:1279-1321 | yields, or one append or extend |
| `JinjaOutput.Generator.EmitFormat` | src/libconfig/jinja2/compiler.py:1323-1361 | the %-format |

## Left out

- NscdRun.EveryRunKeepsInvariant: assumes that no waiter before its owner is reported in the poll that reports the owner's worker, because the code reopens such a waiter, and that replies read on POLLIN are valid; ReplyKeepsInvariantIff, RaceBreaksInvariant and the module NscdExact are about the runs left out.
- NscdDaemon.Daemon.HandleEvent: what the program does once it has followed the null pointer that a bad reply on POLLIN leaves at its `write_out` label; RunSafeIff says exactly when it gets there.
- NscdDaemon.EveryRunIsSafe: the same two assumptions as EveryRunKeepsInvariant; RunSafeIff is exact about replies.
- NscdMarshal.MarshalHostent: sizes whose 32-bit sum wraps, from 4 GB on, are not modelled; the same holds for the other encoders, and the round trips are for replies the daemon accepts, up to 256 MB.
- AtaTrim.Trim: commands of other kinds and the drive's own answer are not modelled; a command either succeeds or fails.
- DiskCopy.DoCopy: a chunk size of 0, for which the loop does not end, and starting LBAs from 2^63 on are not modelled; where the remainder is cut to 0 LBAs the model transfers nothing, though a drive may take a count of 0 for 65536.
- ScsiUnmap.Trim: a maximum of 0 unmapped LBAs, with which no drive counts as supporting the command, and ranges past 2^64 are not modelled.
- WipeDrive.DoTrimWipe: ranges an ATA drive cannot address in 48 bits and negative numbers are not modelled.
- NscdPipes.Stream.FullWrite: assumes that a write moves at least one octet, as the loop does not end otherwise.
- Descriptors and blocks get numbers that are never used again, so confusion between an old and a new holder of one number is not modelled.
- Sockets, fork and exec, signals, credentials, logging, options and the configuration file of the daemon: their results are inputs.
- The comparison of file status in `check_files()`: only whether it finds a change.
- Running out of memory, and the exits of `xmalloc()` and `poll()` on errors.
- `obtain_initgroups()`: its reply is a size, a count and the ids.
- Lookups in the user, group and host databases: their results are inputs of the encoders.
- Progress reports, estimates and timers of the disk tools, and the byte layout of command blocks.
- `dmi_decode()`: the headers handed to it are the result of the walk.
- The finalize hook, debug line numbers and the rest of the template compiler.
