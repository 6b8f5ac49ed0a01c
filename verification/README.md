# VEY in Dafny

A Dafny model of the parts of VEY where correctness rests on more than one function:
two request-coalescing cache actors, a shutdown protocol, a retry queue, and a set of
codecs and arithmetic kernels.

- **Resolver runtime** (`ResolverRecord.dfy`, `ResolverAutomaton.dfy`, `ResolverRuntime.dfy`,
  `DelayQueue.dfy`, `Bags.dfy`). `FamilyRuntime` is the actor for one address family, with the
  cache, the waiting lists, the stale store and the expiry queue as fields. Its reference is an
  automaton per domain with five phases (idle, cached, stale, refreshing, pending). Every handler
  keeps `Valid()`, which says that the maps, counters, replies and driver queries are what the
  automaton reaches on the events handled so far; theorems over all event sequences are proved on
  the automaton and carried back to the maps.
- **IP location service** (`IpNetwork.dfy`, `GeoLocate.dfy`, `IpLocateCache.dfy`,
  `IpLocateQuery.dfy`, `IpLocateSystem.dfy`). Addresses are bit strings and networks are their
  prefixes. Both actors are classes whose methods are tied to functions on plain values;
  `IpLocateSystem` composes the same functions into an interleaved system with its two channels.
- **QAT shutdown** (`QatShutdown.dfy`). Atomic steps of submitters, completions, the owner and the
  poll loop, over all interleavings.
- **Fluentd retry queue** (`FluentdScripts.dfy`, `FluentdLedger.dfy`, `FluentdRetry.dfy`). Connects,
  writes, peer behaviour and arrivals are arbitrary scripts. `FluentdScripts` says what a script
  does; `IoThread` is proved to do it, with a ghost ledger for the order of messages.
- **Codecs and arithmetic** (`Basics.dfy`, `Leb128.dfy`, `Tlv.dfy`, `Journal.dfy`, `EcdsaScalar.dfy`,
  `LocalDeps.dfy`). LEB128 (section 7.6 of DWARF Version 5), the tag-length-value walker, the
  systemd Journal Native Protocol, the digest-to-scalar reduction (sections 2.3.2 and 2.3.4 of
  RFC 6979), and the dependency search of the release script.

The clock, the network, random numbers, external libraries' number formatting and the outcome of
each I/O call are parameters.

Where a natural claim is false of the code, the model keeps the code and gives the exact condition:

- The poller is *not* always "gone, or a permit exists or is pending" once the stop is requested
  with nothing in flight. `QatShutdown.ClaimIff` says at which places of the poll loop that holds;
  `QatShutdown.NoLostWakeup` and `QatShutdown.ShutdownCompletes` are what does hold everywhere.
- The expiry TTL is *not* monotone in the upstream TTL for every pair of bounds:
  `ResolverRecords.TtlMonotoneIff`. Both driver configurations raise the maximum to the minimum, so
  only a direct call of the constructor meets unordered bounds.
- A journal record is *not* always read back: the identifier and the code position are written
  without looking for newlines. `Journal.FramingIff` is the exact condition.
- The QAT signing path does *not* always sign the number of RFC 6979:
  `EcdsaScalar.QatAgreesIff`.
- The fluentd counter of passed messages is *not* the number of messages written: it leaves out
  those written out of the retry queue. `FluentdScripts.PassedIff` says for which scripts the two
  agree, and `FluentdScripts.PassedFalls` is a run where they do not.
- The branch of the failed-response handler that hands the stale answer to waiters never has
  anybody to serve (`ResolverRuntimes.FamilyRuntime.KeepStale`), and the branch of the cache update
  that inserts a new timer for an occupied entry is never taken
  (`ResolverRuntimes.FamilyRuntime.StoreRecord`).

## Model

| member | source | states |
|---|---|---|
| `ResolverRecords.Resolved` | lib/vey-resolver/src/record.rs:81-107 | a successful record carries its domain, addresses and creation time; it expires and vanishes the given numbers of seconds later, for all bounds, or never where that leaves the clock's range; it never vanishes before it expires |
| `ResolverRecords.Empty` | lib/vey-resolver/src/record.rs:109-119 | an empty answer is acceptable, expires after its TTL in seconds and, without a vanish time, can never turn stale |
| `ResolverRecords.Failed` | lib/vey-resolver/src/record.rs:121-131 | a failure carries its error, expires after its TTL in seconds, can never turn stale, and is acceptable exactly for "not found" |
| `ResolverRecords.TimedOut` | lib/vey-resolver/src/record.rs:77-79 | a timeout is never acceptable |
| `ResolverRecords.VanishNotBeforeExpire` | lib/vey-resolver/src/record.rs:89-97 | the vanish TTL for all bounds; it is never below the expire TTL, with the exact cases in which they coincide |
| `ResolverRecords.TtlIsClamp` | lib/vey-resolver/src/record.rs:89-97 | with ordered bounds the expire TTL is the TTL minus the minimum, clamped between the bounds |
| `ResolverRecords.TtlWhenUnordered` | lib/vey-resolver/src/record.rs:89-97 | with unordered bounds the expire TTL is the minimum, and drops to the maximum above their sum |
| `ResolverRecords.TtlMonotoneIff` | lib/vey-resolver/src/record.rs:89-97 | a longer TTL never shortens the cache time, if and only if the bounds are ordered or their sum reaches the largest 32-bit TTL |
| `ResolverAutomaton.RunProjects` | lib/vey-resolver/src/runtime.rs:134-164 | over every run, a domain's phase depends only on the events about that domain and on cleaning |
| `ResolverAutomaton.RunWellFormed` | lib/vey-resolver/src/runtime.rs:197-210 | over every run, records are filed under their own domain, and what is served stale is a successful answer |
| `ResolverAutomaton.StaleSurvivesIff` | lib/vey-resolver/src/runtime.rs:138-150 | after any event the same record is still served stale, if and only if the event is neither an acceptable response for the domain nor a cleaning at or past its time; another failure answers nobody |
| `ResolverAutomaton.AnswerIsServed` | lib/vey-resolver/src/runtime.rs:161-163 | after a response with a lifetime, through any other events, each request gets that record at once and no query is made, until it expires or is replaced |
| `ResolverAutomaton.StaleIsServed` | lib/vey-resolver/src/runtime.rs:236-247 | through any events that do not end it, each request is answered at once with the stale record, and the driver is asked only when no refresh is under way |
| `ResolverAutomaton.ExpiryLaw` | lib/vey-resolver/src/runtime.rs:197-210 | an expired answer turns stale exactly if it may outlive its expiry and is forgotten otherwise, without a reply or a query |
| `ResolverAutomaton.UnkeptLaw` | lib/vey-resolver/src/runtime.rs:151-163 | a record without a lifetime leaves nothing behind but an answer that is still live |
| `ResolverAutomaton.NewestGetsQuery` | lib/vey-resolver/src/runtime.rs:152-159 | the newest waiter is told first and as the one queried for, the others after it in the order of their requests and as served from the cache |
| `ResolverAutomaton.WaitersInOrder` | lib/vey-resolver/src/runtime.rs:248-254 | over every run, a waiting list holds the senders that asked since some moment, in the order of their requests, with no response since |
| `ResolverAutomaton.WaitersGetTheAnswer` | lib/vey-resolver/src/runtime.rs:152-160 | everybody on a waiting list is sent the very record that ends the wait |
| `ResolverAutomaton.ConservationOf` | lib/vey-resolver/src/runtime.rs:227-262 | over every run, for each sender: requests made = replies received + times waiting |
| `ResolverAutomaton.Conservation` | lib/vey-resolver/src/runtime.rs:134-164 | over every run, the requesters are exactly those answered plus those waiting, as multisets |
| `ResolverAutomaton.ExactlyOnce` | lib/vey-resolver/src/runtime.rs:227-262 | a sender used once has one reply and waits nowhere, or no reply and waits once on exactly one list |
| `ResolverAutomaton.CounterLaw` | lib/vey-resolver/src/stats.rs:61-87 | total requests = cache-sourced + stale-sourced + query-sourced replies + waiters |
| `ResolverAutomaton.QueryRepliesPerResponse` | lib/vey-resolver/src/runtime.rs:152-160 | there is one query-sourced reply per response that found somebody waiting, and no other |
| `ResolverAutomaton.ResponsesNeverServeStale` | lib/vey-resolver/src/runtime.rs:138-147 | no response ever produces a stale-sourced reply |
| `ResolverAutomaton.SingleFlightAt` | lib/vey-resolver/src/runtime.rs:229-262 | with a driver that answers each query at most once, queries for a domain exceed its answers by one while it is in flight and by none otherwise |
| `ResolverAutomaton.SingleFlight` | lib/vey-resolver/src/runtime.rs:229-262 | the domains in flight are exactly the unanswered queries, each once |
| `ResolverRuntimes.LocalChange` | lib/vey-resolver/src/runtime.rs:134-164 | changing the maps at one domain preserves the cross-map exclusion and moves only that domain's phase |
| `ResolverRuntimes.IndexedPut` | lib/vey-resolver/src/runtime.rs:103-132 | storing an entry with its timer keeps entries and timers one to one with equal deadlines |
| `ResolverRuntimes.IndexedPop` | lib/vey-resolver/src/runtime.rs:374-379 | a timer that fires belongs to exactly one entry, and only that entry is left without one |
| `ResolverRuntimes.ExpireRefines` | lib/vey-resolver/src/runtime.rs:197-210 | the expiry's change to the maps is the automaton's expiry step |
| `ResolverRuntimes.RequestRefines` | lib/vey-resolver/src/runtime.rs:229-262 | each branch of a request is the automaton's request step, counters included |
| `ResolverRuntimes.StaleResponseRefines` | lib/vey-resolver/src/runtime.rs:138-147 | closing the waiting list of a domain that serves stale is the automaton's step, with nobody to answer |
| `ResolverRuntimes.ResponseRefines` | lib/vey-resolver/src/runtime.rs:148-164 | replacing the stale answer and the waiting list by a record is the automaton's response step |
| `ResolverRuntimes.CleanRefines` | lib/vey-resolver/src/runtime.rs:331-335 | filtering the stale store is the automaton's cleaning of every domain at once |
| `ResolverRuntimes.CountersConserve` | lib/vey-resolver/src/stats.rs:61-87 | in every reachable runtime: total = cached + trashed + query replies + all pending waiters, and requesters = answered + waiting |
| `ResolverRuntimes.DoingIsInFlight` | lib/vey-resolver/src/runtime.rs:239-262 | the keys of the waiting lists are exactly the outstanding driver queries, so driver queries = responses + waiting lists |
| `ResolverRuntimes.TrashIsSuccessful` | lib/vey-resolver/src/runtime.rs:197-210 | every record in the stale store is a successful answer for its own key that vanishes no earlier than it expires |
| `ResolverRuntimes.FamilyRuntime.UpdateCache` | lib/vey-resolver/src/runtime.rs:103-132 | the entry is replaced and its timer moved, or inserted under a fresh key; no other entry or timer changes |
| `ResolverRuntimes.FamilyRuntime.StoreRecord` | lib/vey-resolver/src/runtime.rs:161-163 | given the index, the key that is reset is always live, and the index is kept |
| `ResolverRuntimes.FamilyRuntime.AnswerWaiters` | lib/vey-resolver/src/runtime.rs:152-160 | the newest waiter gets the query-sourced reply, the others cache-sourced ones in order, and these are counted |
| `ResolverRuntimes.FamilyRuntime.HandleRsp` | lib/vey-resolver/src/runtime.rs:134-164 | one response is one automaton step, and all invariants are kept |
| `ResolverRuntimes.FamilyRuntime.KeepStale` | lib/vey-resolver/src/runtime.rs:138-147 | the stale fan-out delivers to nobody and leaves cache and stale store as they were |
| `ResolverRuntimes.FamilyRuntime.AcceptRecord` | lib/vey-resolver/src/runtime.rs:148-164 | any other response is one automaton step, and all invariants are kept |
| `ResolverRuntimes.FamilyRuntime.HandleExpired` | lib/vey-resolver/src/runtime.rs:197-210 | after its timer was taken out, one expiry is one automaton step and restores the index |
| `ResolverRuntimes.FamilyRuntime.HandleReq` | lib/vey-resolver/src/runtime.rs:229-262 | one request is one automaton step, leaves the cache alone and keeps all invariants |
| `ResolverRuntimes.FamilyRuntime.CleanTrash` | lib/vey-resolver/src/runtime.rs:331-335 | one cleaning is one automaton step; nothing past its time remains in the stale store |
| `ResolverRuntimes.FamilyRuntime.StartPoll` | lib/vey-resolver/src/runtime.rs:337-342 | a poll goes on exactly if there is a driver or one can be started, and then cleans; otherwise nothing at all changes |
| `ResolverRuntimes.FamilyRuntime.ExpireOne` | lib/vey-resolver/src/runtime.rs:373-381 | a due timer is handled, or every cached answer is still live; live entries are not touched |
| `ResolverRuntimes.FamilyRuntime.DrainExpired` | lib/vey-resolver/src/runtime.rs:372-382 | the drain ends, handles expiries only, and leaves exactly live answers untouched in the cache |
| `ResolverRuntimes.FamilyRuntime.ServeBatch` | lib/vey-resolver/src/runtime.rs:398-409 | requests are handled in order up to the batch size, and each cache reply among them is live at the drain's time |
| `ResolverRuntimes.FamilyRuntime.Turn` | lib/vey-resolver/src/runtime.rs:361-409 | a turn handles all responses, then expiries, then a batch of requests; every cache reply sent after the expiries is live, and the counters balance |
| `IpNetworks.Nested` | lib/vey-ip-locate/src/cache.rs:81-88 | two networks around one address are nested, and equal if their masks are |
| `IpNetworks.LongestMatch` | lib/vey-ip-locate/src/cache.rs:81-84 | the lookup finds an entry around the address with the longest mask, whenever there is one |
| `IpNetworks.LongestMatchIs` | lib/vey-ip-locate/src/cache.rs:81-84 | the lookup is determined by the set of entries around the address |
| `IpNetworks.StoredLookup` | lib/vey-ip-locate/src/cache.rs:78-96 | storing a network for a queried address: that address finds it; outside it nothing changes; inside it an old match survives exactly if it is longer and leaves the queried address out |
| `IpNetworks.StoredUnqueried` | lib/vey-ip-locate/src/cache.rs:90-96 | a network stored without a queried address wins exactly for the addresses it contains that had no longer match |
| `IpNetworks.LocateContains` | vey-iploc/src/geoip.rs:37-60 | the network built from both databases contains the address and is the most specific of either; there is none exactly if neither knows the address |
| `GeoLocate.LocationBuilder.AddNetwork` | lib/vey-geoip-types/src/location.rs:24-34 | the longer mask is kept, the first one on a tie |
| `GeoLocate.LocationBuilder.LookupCountry` | vey-iploc/src/geoip.rs:37-45 | the most specific country entry fills the network, country and continent, and nothing else |
| `GeoLocate.LocationBuilder.LookupAsn` | vey-iploc/src/geoip.rs:47-60 | the most specific AS entry fills the network, number and the ISP texts it has, and nothing else |
| `GeoLocate.LocationBuilder.Build` | lib/vey-geoip-types/src/location.rs:56-72 | a location exactly if there is a network; the continent falls back to the country's |
| `GeoLocate.Answer` | vey-iploc/src/serve/query.rs:49-54 | a server's answer always passes the client's containment check, is missing exactly if no database entry contains the address, and carries the texts and numbers of each database's own most specific entry |
| `IpLocateCache.ResponseKeepsSane` | lib/vey-ip-locate/src/cache.rs:56-108 | whatever comes back, a location is only ever sent to a waiter whose address its network contains |
| `IpLocateCache.RequestKeepsSane` | lib/vey-ip-locate/src/cache.rs:117-135 | the same for answers out of the cache; waiters stand on their own address's list, which is never empty |
| `IpLocateCache.WaiterIsTold` | lib/vey-ip-locate/src/cache.rs:57-107 | each waiter is sent the location if it contains the address; after an empty answer, the location of the most specific entry around the address; and is dropped exactly for a location elsewhere or when there is no such entry |
| `IpLocateCache.ListsAfter` | lib/vey-ip-locate/src/cache.rs:64-107 | a response closes the list of its address and touches no other |
| `IpLocateCache.TableAfter` | lib/vey-ip-locate/src/cache.rs:57-96 | the table afterwards, entry by entry: unchanged by an empty or misplaced answer, otherwise the new entry instead of the longer ones around the queried address |
| `IpLocateCache.FreshIsServed` | lib/vey-ip-locate/src/cache.rs:118-123 | while the most specific entry is valid, a request is answered with it and causes no query |
| `IpLocateCache.OthersWait` | lib/vey-ip-locate/src/cache.rs:118-133 | with an expired entry or none, nothing is sent, the request joins its list, and only the first waiter causes a query |
| `IpLocateCache.AnswerStaysIff` | lib/vey-ip-locate/src/cache.rs:56-96 | an entry goes on answering an address after an event, if and only if the event stores no longer network around the address, no other value for the entry, and no shorter network queried from inside it |
| `IpLocateCache.AnswerIsServed` | lib/vey-ip-locate/src/cache.rs:117-123 | through any events that do not displace it, an accepted location answers requests in its network at once and without a query until it expires, except where a longer entry survived |
| `IpLocateCache.NotifiedVerdict` | lib/vey-ip-locate/src/cache.rs:70-107 | each waiter of the answered address is told exactly once, in order |
| `IpLocateCache.ResponseBalance` | lib/vey-ip-locate/src/cache.rs:56-108 | a response moves waiters to told ones and loses none |
| `IpLocateCache.RequestBalance` | lib/vey-ip-locate/src/cache.rs:117-135 | a request adds exactly one told or waiting request |
| `IpLocateCache.CacheRuntime.EvictLonger` | lib/vey-ip-locate/src/cache.rs:78-89 | the loop ends and has removed exactly the longer networks around the queried address |
| `IpLocateCache.CacheRuntime.HandleRsp` | lib/vey-ip-locate/src/cache.rs:56-108 | table, waiting lists and notices afterwards, for accepted, misplaced and empty responses |
| `IpLocateCache.CacheRuntime.HandleReq` | lib/vey-ip-locate/src/cache.rs:117-135 | a fresh match is sent, otherwise the request waits; a query goes out exactly for the first waiter |
| `IpLocateQuery.ReleaseKeeps` | lib/vey-ip-locate/src/handle.rs:95-108 | an answered address and its timer go together, so the two tables stay one to one |
| `IpLocateQuery.FireKeeps` | lib/vey-ip-locate/src/handle.rs:87-108 | a timer that fired releases its own address and nothing else |
| `IpLocateQuery.AdmitKeeps` | lib/vey-ip-locate/src/query.rs:101-108 | a new query gets one timer; one that cannot be encoded leaves no trace |
| `IpLocateQuery.WrittenIs` | lib/vey-ip-locate/src/query.rs:167-179 | the addresses with an outcome are those at the places of the queue that had it, each once and in order |
| `IpLocateQuery.ReleaseAllIs` | lib/vey-ip-locate/src/handle.rs:95-108 | releasing addresses takes away them and their timers, and nothing else |
| `IpLocateQuery.WritesAccounted` | lib/vey-ip-locate/src/query.rs:167-179 | the writes that succeed are sent, those that fail are reported, and only these addresses are given up |
| `IpLocateQuery.QueryRuntime.Expiry` | lib/vey-ip-locate/src/lib.rs:51-71 | the instant that many seconds later, or now when that leaves the clock's range |
| `IpLocateQuery.QueryRuntime.CappedTtl` | lib/vey-ip-locate/src/query.rs:118-120 | the smaller of the server's TTL, or else the default, and the configured maximum |
| `IpLocateQuery.QueryRuntime.SendRspData` | lib/vey-ip-locate/src/handle.rs:95-108 | the timer removed is always live; exactly one report goes out |
| `IpLocateQuery.QueryRuntime.ShouldSendRawQuery` | lib/vey-ip-locate/src/handle.rs:110-119 | a query is sent exactly if none is outstanding for the address, and then under a fresh timer |
| `IpLocateQuery.QueryRuntime.HandleReq` | lib/vey-ip-locate/src/query.rs:101-108 | an address that is new and encodes becomes outstanding under a timer and is queued for sending; one that does not encode is reported at once; one already outstanding changes nothing |
| `IpLocateQuery.QueryRuntime.HandleRsp` | lib/vey-ip-locate/src/query.rs:110-135 | any datagram, solicited or not, yields one report and at most one release; garbage yields nothing |
| `IpLocateQuery.QueryRuntime.FlushWrites` | lib/vey-ip-locate/src/query.rs:167-179 | the queue is worked off in order until the socket blocks; datagrams taken are sent, failed ones reported |
| `IpLocateQuery.QueryRuntime.TimeoutOne` | lib/vey-ip-locate/src/query.rs:182-189 | one due timer releases and reports its address, or nothing is due |
| `IpLocateQuery.QueryRuntime.DrainTimeouts` | lib/vey-ip-locate/src/query.rs:181-190 | exactly the addresses whose timer is due are released, with one report each |
| `IpLocateSystem.StepCovers` | lib/vey-ip-locate/src/query.rs:91-190 | an address that is queued, outstanding or reported stays so until the cache actor takes the report on it |
| `IpLocateSystem.NoWaiterStranded` | lib/vey-ip-locate/src/cache.rs:56-135 | over every interleaving, each address with waiters is in the query channel, outstanding with a timer, or reported; and every location ever sent contains its requester |
| `IpLocateSystem.QuietMeansServed` | lib/vey-ip-locate/src/cache.rs:97-107 | with empty channels and nothing outstanding, nobody waits |
| `IpLocateSystem.OutstandingIsAsked` | lib/vey-ip-locate/src/query.rs:101-179 | over every interleaving, an outstanding address is in the write queue or its datagram has been sent since it was taken on |
| `IpLocateSystem.SentSinceIs` | lib/vey-ip-locate/src/query.rs:168-174 | that is: a datagram for it stands in the log with no later admission |
| `IpLocateSystem.RequestsConserved` | lib/vey-ip-locate/src/cache.rs:56-135 | over every interleaving, each request was told once or is waiting once |
| `IpLocateSystem.InternalStepsEnd` | lib/vey-ip-locate/src/query.rs:167-196 | without new requests and datagrams the actors come to rest, in whatever order they step |
| `IpLocateSystem.WaitingMeansWork` | lib/vey-ip-locate/src/handle.rs:87-119 | while somebody waits, an actor can take a step of its own |
| `IpLocateSystem.RestMeansServed` | lib/vey-ip-locate/src/cache.rs:56-135 | whatever the actors do on their own, in whatever order, when they can do no more nobody waits |
| `IpLocateSystem.Settles` | lib/vey-ip-locate/src/cache.rs:56-135 | from every reachable state there is such a run to one where nobody waits |
| `QatShutdown.StepKeepsInv` | lib/vey-qat/src/runtime.rs:63-83 | every atomic step of every party keeps the protocol's invariant |
| `QatShutdown.NoLostWakeup` | lib/vey-qat/src/runtime.rs:286-320 | over every interleaving: the poller exits on its own only when stopped with nothing in flight, and once that is so it is gone, awake or will be woken |
| `QatShutdown.ClaimIff` | lib/vey-qat/src/runtime.rs:296-319 | "gone, or a permit exists or is pending" holds at a place of the poll loop in all runs, if and only if that place is not between the wake-up and the exit check |
| `QatShutdown.QuietIsStable` | lib/vey-qat/src/runtime.rs:210-238 | nothing revives a stopped session without operations |
| `QatShutdown.QuietStepsEnd` | lib/vey-qat/src/runtime.rs:73-82 | each step such a session can take brings it closer to the end |
| `QatShutdown.QuietHasAStep` | lib/vey-qat/src/runtime.rs:296-319 | and until the poller is gone there is a step that is not a failure |
| `QatShutdown.ShutdownCompletes` | lib/vey-qat/src/runtime.rs:286-320 | under every schedule the poller is gone after a bounded number of steps, by the exit check unless the event descriptor fails |
| `FluentdLedgers.Partition` | lib/vey-fluentd/src/lib.rs:115-209 | every received message is written, queued or dropped, and only one of these |
| `FluentdLedgers.ArriveSound` | lib/vey-fluentd/src/lib.rs:201-202 | a new message at the end keeps the order of arrival |
| `FluentdLedgers.WriteSound` | lib/vey-fluentd/src/lib.rs:143-150 | writing the oldest queued message keeps written-then-queued in order of arrival |
| `FluentdLedgers.DropSound` | lib/vey-fluentd/src/lib.rs:203-205 | dropping the oldest queued message keeps the order |
| `FluentdScripts.WaitsIs` | lib/vey-fluentd/src/lib.rs:115-133 | without a connection the queue ends up with the newest messages it can hold, and the others are dropped and counted |
| `FluentdScripts.AttemptAdds` | lib/vey-fluentd/src/lib.rs:135-199 | an attempt receives what arrives, writes the front of the queue and then the live messages that succeed, and passes and sizes only the latter |
| `FluentdScripts.AttemptLeaves` | lib/vey-fluentd/src/lib.rs:143-209 | what is queued afterwards; the drop counter grows only by overflow, by a write that times out, or by a failed write with no room to keep the message |
| `FluentdScripts.WireFramed` | lib/vey-fluentd/src/lib.rs:135-199 | a connection carries whole messages, then at most the beginning of one that was queued or arrived |
| `FluentdScripts.TailIs` | lib/vey-fluentd/src/lib.rs:143-183 | the trailing bytes are what was sent of the first message whose write failed or timed out, and none otherwise |
| `FluentdScripts.StatusIff` | lib/vey-fluentd/src/lib.rs:92-110 | an attempt ends the thread if and only if it found the channel closed without a connection, or wrote the whole queue and met the closed channel before any other trouble; failed or timed-out writes, failed flushes and anything from the peer lead to another attempt |
| `FluentdScripts.RunAdds` | lib/vey-fluentd/src/lib.rs:78-113 | over any attempts, what is written is what the connections carry whole, one after the other; what is received is what arrives; the drops add up |
| `FluentdScripts.PassedIff` | lib/vey-fluentd/src/lib.rs:169-172 | the passed counter grows by the number of messages written, if and only if no new connection finds a queued message and succeeds in writing it |
| `FluentdScripts.PassedFalls` | lib/vey-fluentd/src/lib.rs:143-150 | a run in which a message is written and not passed |
| `FluentdRetry.CountersExact` | lib/vey-fluentd/src/lib.rs:115-209 | the drop counter is the number of messages dropped; received = written + queued + dropped; the queue is within its limit |
| `FluentdRetry.IoThread.PushToRetry` | lib/vey-fluentd/src/lib.rs:201-209 | the queue stays within its limit by giving up its oldest message, which is counted and returned |
| `FluentdRetry.IoThread.RunWithoutConnection` | lib/vey-fluentd/src/lib.rs:115-133 | the script's arrivals are queued in order, and the drops of this period are told |
| `FluentdRetry.IoThread.ResendOne` | lib/vey-fluentd/src/lib.rs:143-160 | the oldest message is written and gone, back in front after an error, or dropped and counted after a timeout |
| `FluentdRetry.IoThread.ResendQueue` | lib/vey-fluentd/src/lib.rs:143-161 | exactly the messages before the first failed write are written, in order; queue, counters, status and bytes follow from the script |
| `FluentdRetry.IoThread.SendOne` | lib/vey-fluentd/src/lib.rs:167-183 | a live message is passed and counted, queued after an error, or dropped after a timeout |
| `FluentdRetry.IoThread.SendLive` | lib/vey-fluentd/src/lib.rs:163-198 | events are handled up to and including the first that ends the connection; state, status and bytes are those of these events |
| `FluentdRetry.IoThread.RunWithConnection` | lib/vey-fluentd/src/lib.rs:135-199 | first the queue, then the live events, and these only if the queue was emptied; state, counters, status and bytes are those of the script |
| `FluentdRetry.IoThread.RunToEnd` | lib/vey-fluentd/src/lib.rs:78-113 | attempts go on exactly as long as the scripts call for another one; state, counters and the bytes of every connection are those of the scripts, in order of arrival; passed equals written exactly when nothing was resent |
| `Leb128.Decode` | lib/vey-codec/src/leb128.rs:36-75 | value and length, overflow, no end within five bytes, or too little data, each exactly when the bytes say so |
| `Leb128.DecodesUnique` | lib/vey-codec/src/leb128.rs:36-75 | the bytes determine the answer |
| `Leb128.DecodesIsFinal` | lib/vey-codec/src/leb128.rs:52-74 | every answer but "need more data" is unchanged by bytes that follow |
| `Leb128.Encoder.EncodeU32` | lib/vey-codec/src/leb128.rs:84-97 | the buffer starts with the encoding, which takes at most five bytes |
| `Leb128.EncodeEnds` | lib/vey-codec/src/leb128.rs:84-97 | an encoding ends at its last byte and has the value it encodes |
| `Leb128.StandardExample` | lib/vey-codec/src/leb128.rs:84-97 | the bytes of 2, 127, 128 and 12857 as the standard gives them |
| `Leb128.RoundTrip` | lib/vey-codec/src/leb128.rs:36-97 | for every 32-bit value and any bytes behind it, decoding gives back the value and the length |
| `Leb128.EncodeIsShortest` | lib/vey-codec/src/leb128.rs:84-97 | no accepted encoding of a value is shorter |
| `Tlv.ParseTlv` | lib/vey-codec/src/tlv.rs:18-42 | the items delivered are the leading items of the input, none skipped or read twice, up to the end, a truncation or a refusal |
| `Tlv.ItemShape` | lib/vey-codec/src/tlv.rs:61-67 | tag, big-endian length and value are read back from an encoded item, with what follows it |
| `Tlv.WalksUnique` | lib/vey-codec/src/tlv.rs:18-42 | input and consumer determine the outcome and the items |
| `Tlv.SucceedsIff` | lib/vey-codec/src/tlv.rs:18-42 | with a consumer that takes everything, success if and only if the input is a non-empty concatenation of items, and then just those are delivered |
| `Tlv.EncodeInjective` | lib/vey-codec/src/tlv.rs:27-37 | a complete input has only one reading |
| `Journal.SanitizedKey` | lib/vey-journal/src/format.rs:223-237 | a key is refused exactly if it is empty, longer than 64 bytes or does not begin with a letter; otherwise every character is mapped |
| `Journal.SanitizedIdempotent` | lib/vey-journal/src/format.rs:223-237 | a sanitized key is accepted again and unchanged |
| `Journal.KeyIsPlain` | lib/vey-journal/src/format.rs:228-236 | no sanitized key contains an equals sign or a newline |
| `Journal.FieldChar` | lib/vey-journal/src/format.rs:230-234 | capitals, digits and underscores stay, small letters become capitals, anything else an underscore |
| `Journal.Utf8Inverse` | lib/vey-journal/src/format.rs:173 | an encoded character is read back by its leading byte and continuation bytes |
| `Journal.PriorityIs` | lib/vey-journal/src/format.rs:23-32 | the levels as syslog severities 2 to 7 |
| `Journal.TextIs` | lib/vey-journal/src/format.rs:161-187 | the text of each kind of value, "true" and "false" included |
| `Journal.ExpectedIs` | lib/vey-journal/src/format.rs:49-63 | a record's own fields by name, value and place around those of its pairs |
| `Journal.FieldsAre` | lib/vey-journal/src/format.rs:52-53 | exactly the pairs with an acceptable key and a value are written, in order, under the sanitized key and with their text |
| `Journal.Forms` | lib/vey-journal/src/format.rs:84-108 | the two forms of a field, byte by byte |
| `Journal.ReadBack` | lib/vey-journal/src/format.rs:84-108 | a reader of the protocol recovers any list of fields, newlines in values included, and goes on right behind it |
| `Journal.ReadOneLine` | lib/vey-journal/src/format.rs:84-89 | a line is read back as its key and value |
| `Journal.ReadMultiLine` | lib/vey-journal/src/format.rs:98-108 | a length-prefixed field is read back for every value |
| `Journal.Formatter.EmitSanitizedOneLine` | lib/vey-journal/src/format.rs:84-89 | one line is appended |
| `Journal.Formatter.EmitOneLine` | lib/vey-journal/src/format.rs:91-96 | any value is written as one line under the sanitized key, or nothing if the key is refused |
| `Journal.Formatter.EmitMultiLine` | lib/vey-journal/src/format.rs:98-108 | any value is written behind its length under the sanitized key, or nothing if the key is refused |
| `Journal.Formatter.EmitStr` | lib/vey-journal/src/format.rs:181-187 | any text is written as the field it stands for |
| `Journal.Formatter.Emit` | lib/vey-journal/src/format.rs:161-187 | any value is written as the one field it stands for, or not at all |
| `Journal.FormatSlog` | lib/vey-journal/src/format.rs:45-66 | the datagram: priority, identifier, fields, position and message, in this order |
| `Journal.BrokenLine` | lib/vey-journal/src/format.rs:84-89 | a line whose value has a newline is never read back as written |
| `Journal.FramingIff` | lib/vey-journal/src/format.rs:45-66 | the reader recovers exactly the sanitized keys and original values, if and only if identifier and code position have no newline |
| `EcdsaScalar.ShiftIsFloor` | lib/vey-crypto-mb/src/ecdsa.rs:191-195 | the right shift is the floor of the division by the power of two |
| `EcdsaScalar.BitLengthIs` | lib/vey-crypto-mb/src/ecdsa.rs:181-185 | the bit length of an order is the position of its leading one |
| `EcdsaScalar.ModIs` | lib/vey-crypto-mb/src/ecdsa.rs:196-199 | the reduction leaves the remainder of the division by the order |
| `EcdsaScalar.BitsOfOctets` | lib/vey-crypto-mb/src/ecdsa.rs:190 | bytes and their bits spell the same number |
| `EcdsaScalar.LeftmostBits` | lib/vey-crypto-mb/src/ecdsa.rs:186-195 | the leftmost bits of a digest are any leading bytes that hold them, shifted |
| `EcdsaScalar.TwelveBits` | lib/vey-crypto-mb/src/ecdsa.rs:186-195 | twelve bits of two bytes are the three leading hexadecimal digits |
| `EcdsaScalar.DigestReductionIsBits2Int` | lib/vey-crypto-mb/src/ecdsa.rs:180-200 | for every digest and order, the result is bits2int of RFC 6979 modulo the order |
| `EcdsaScalar.PreparedMessageInRange` | lib/vey-crypto-mb/src/ecdsa.rs:56-77 | a prepared message spells that number, lies strictly between zero and the order, and is refused for a fitting order only when the number is zero |
| `EcdsaScalar.OctetsInverse` | lib/vey-crypto-mb/src/ecdsa.rs:202-206 | the fixed-width bytes of a number that fits spell it |
| `EcdsaScalar.FillMessage` | lib/vey-qat/src/ecdsa.rs:128-133 | the buffer holds the leading bytes of the digest, or the digest behind zeros |
| `EcdsaScalar.QatAgreesIff` | lib/vey-qat/src/ecdsa.rs:128-133 | for any field length, the QAT message is congruent to bits2int for all digests of a length, if and only if field and order have the same number of bits, or the whole digest fits into both, or the group is trivial |
| `EcdsaScalar.SameBitsOfCurve` | lib/vey-qat/src/ecdsa.rs:73-80 | for a field with the bytes of the order: an order of whole bytes, or a digest shorter than the field |
| `LocalDeps.ParseForms` | scripts/release/list_local_deps.py:17-21 | each form of a dependency string gives its name and, if present, its version |
| `LocalDeps.DirectIs` | scripts/release/list_local_deps.py:11-21 | a node's direct dependencies are those of every package with its name and, if it has one, its version |
| `LocalDeps.Search.GetDirectDependencies` | scripts/release/list_local_deps.py:8-23 | the direct dependencies of all packages that match name and version |
| `LocalDeps.Search.FindRecursiveDependencies` | scripts/release/list_local_deps.py:26-32 | the search ends on cyclic inputs, adds only what the node reaches, and follows up everything it adds |
| `LocalDeps.Search.FindMatchingCrates` | scripts/release/list_local_deps.py:46-51 | all package names that begin with the component's name |
| `LocalDeps.AllDependencies` | scripts/release/list_local_deps.py:65-67 | exactly the nodes reachable in one or more steps from the component's crates |

## Left out

- The AAAA half of the resolver runtime: it is a second instance of `FamilyRuntime` with the same handlers.
- Resolver commands, memory gauges and the error-kind counters; 64-bit counters are unbounded here.
- The resolver drivers and their protocols: a driver is an environment that delivers records. Poll wake-ups, the millisecond granularity of delay queues and clock readings between two timers of one drain are not modelled; a drain uses one time.
- `ResolverRuntimes.FamilyRuntime.HandleReq`: requires a driver, as the poll loop starts one before any request is handled; the original treats its absence as unreachable.
- Delay queues and the prefix table are external crates: the first is a map from keys to deadlines and items that gives up any due item, the second a map from networks to values whose lookup is the longest stored prefix.
- IpLocateSystem: a timer may fire at any time, and a datagram may carry anything; msgpack encoding, socket polling, the receive-error backoff and closing channels are not modelled.
- QatShutdown: sequentially consistent memory; foreign calls, DMA buffers, the process-wide start gate and the draining done when the shared state is destroyed are not modelled.
- FluentdRetry: the connection handshake, timeouts as durations, and the message format; a message is counted as received when the thread takes it off the channel, and each event is atomic, so no message is in hand between two events.
- Leb128: bits are combined by addition, which is the same for groups that do not overlap.
- Tlv: the one instance with a one-byte tag and a two-byte length; the trait's other possible sizes are not modelled.
- Journal: integers and floats are given as newline-free text made by external libraries, values serialized as JSON are strings, and the code position is given as text instead of being assembled.
- EcdsaScalar: curve arithmetic, ephemeral keys, signature encoding and the batch signer; allocation failures of the big-number library.
- LocalDeps: reading the lock file, and printing which of the dependencies are local.
- Everything else in the repository (proxies, TLS interception, certificate agent, FTP, Redis, sockets, histograms, configuration, daemon and command-line code): I/O and plumbing, or members with nothing hard to state.
