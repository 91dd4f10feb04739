# SentinelDNS: a verified model of its DHCP server and DNS engine

This Dafny project models the stateful core of SentinelDNS and proves what it is for.

* **DHCP server.** `DhcpPool`, `DhcpLeases`, `DhcpReservations`, `DhcpStorage` and `DhcpServer` hold the objects of the
  original, updated in place. `LeaseBook` and `DhcpProtocol` say on values what they do: the two lease indexes, the
  shared lease objects and the pool together are one table from clients to bindings, and one datagram is one step on
  that table and the stored rows. `DhcpDatagrams` says from datagram to datagram, by the numbers of RFC 2132, which
  message is answered how and changes what; `DhcpInputs` ties the inputs of a run to the objects. `DhcpSafety`,
  `DhcpRuns`, `DhcpHandover` and `DhcpTenure` prove safety over whole runs and how long leases last, `DhcpPriority` the
  priorities of address selection, `DhcpMirror` when storage mirrors memory; `DhcpScenarios` shows short runs in which
  the server gives less than one might expect. `DhcpOptions`, `DhcpPacket`, `DhcpReplies` and `ClientIds` are the wire
  and text formats.
* **DNS engine.** `DnsNames` is the decompressor of section 4.1.4 of RFC 1035 without any limits; `DnsParser` is the
  parser's loop, proved sound and complete against it, and `DnsCompression` what compressed questions mean. `DnsCache`
  is the cache object and `DnsCacheHistory` its working-set property over histories; `DnsFilters`, `DnsResolver` and
  `DnsResolverRuns` are the pipeline and its conservation and safety laws; `DnsMetrics` is the sliding window;
  `DnsQueryLog` is the ring and its pruned file, `DnsQueryLogRuns` what restarts give back over whole runs, and
  `DnsResolverLog` what the resolver leaves in the log.

An operation that raises in the original returns an error value here, and its contract says what the state is then.
Every reading of a clock is an argument; where one operation reads the clock several times there is one argument for
each reading, in order, and they do not decrease. IPv4 addresses are 32-bit numbers. Bit masks and shifts of the
original are written as the numeric field they select. Time is a real number. The conversions of the Python library that
the parser uses (decoding a label, lower-casing a name) are parameters, and results about ASCII names assume of them
only what holds for ASCII. The DNS message library is a parameter too, assumed to answer with a whole header that
carries the response code it was asked for (for `DnsResolverRuns.ErrorsAnswerTheirQueries` also that its reply repeats
the identifier and sets the response bit). What an upstream server sends back is a parameter of each query. The parser's
check for labels over 63 bytes has no counterpart because its branch cannot be reached.

Where the code and what it says about itself differ, the model follows the code:

* Asking for a given address releases the client's other live lease before the new address is looked at, so a request
  that fails can cost the client its lease (`LeaseBook.FailedRequestLosesLiveLease` says exactly when). The message
  handlers never reach that case.
* Dynamic allocation does not purge lapsed leases, so a pool can be exhausted by them
  (`DhcpScenarios.LapsedLeaseExhaustsPool`).
* An offer advertises the full lease time also for a live lease, which it does not renew (`DhcpTenure.OfferedTerm` says
  exactly when the lease is that long, `DhcpScenarios.RepeatedOfferIsShort` shows one that is not); an acknowledgement
  always stands for the full time (`DhcpTenure.WholeLeaseTime`).
* The row of a lapsed lease stays in storage, so granting its address to another client is refused by the unique
  column after the lease was made in memory (`DhcpScenarios.StaleRowRefusesGrant`;
  `DhcpPriority.MessageRefusedExactly` and `DhcpMirror.RefusalNeedsLapse` say when).
* A snapshot of the metrics lists up to 61 blocked counts, one more than the history size, and the 61st can belong to an
  older second (`DnsMetrics.OldestSlotExactly` says exactly when).
* The cache is consulted before the filters, so a domain blocked after its answer was stored is still answered for up
  to 300 seconds (`DnsResolverRuns.NewRuleNotAppliedToCache`; `BlockedExactly` says when a query is refused).
* With timestamps that the caller gives, a restart can put a record in another place, bring back one that the ring had
  dropped, and lose a fresh one because a later record was dated far ahead and pruned it from the file
  (`DnsQueryLogRuns.LateRecordMoves`, `DroppedRecordReturns`, `FarRecordCosts`; `RestartKeepsOrderExactly` says exactly
  when none of this happens).
* A query for the root of the name space is answered and counted but cannot be logged
  (`DnsResolverLog.RootQueryUnlogged`; `DnsResolverRuns.OnlyBlankNamesUnlogged` says which queries cannot).
* The option encoder writes options whose code means padding or end, and they do not read back
  (`DhcpOptions.ParseUndoesEncode`).
* A hardware address of one octet and a one-octet client identifier name the same client
  (`DhcpScenarios.SameNameExactly`, `TwoDevicesOneName`).

## Model

| member | source | states |
|---|---|---|
| DnsNames.ExpansionUnique | dns_engine/parser.py:182-196 | A compressed name has at most one expansion, so "the" decoded name is well defined. |
| DnsNames.CycleNeverEnds | dns_engine/parser.py:326-336 | A pointer walk that returns to an offset has no finite expansion at all, with any limits. |
| DnsNames.PointerExactly | dns_engine/parser.py:291-294 | Two octets are a pointer to an offset exactly when, as a 16-bit field, they are 0xC000 plus that offset. |
| DnsParser.ReadDomain | dns_engine/parser.py:172-372 | Terminates on every byte string with the measure (pointers left of 32, octets left of 255), never reads outside the packet; on acceptance the name is that of the unbounded decompressor, lower-cased and dot-joined, and the offset is just after the first pointer or the terminating zero; each refusal means what it says, in particular the loop refusal means that the walk never ends. |
| DnsParser.ExplainedIsUnreadable | dns_engine/parser.py:207-369 | Completeness: a refused name has no expansion within 32 pointers and 255 octets with decodable labels, so every such name is accepted. |
| DnsParser.ReadableLabels | dns_engine/parser.py:239-251 | An accepted name has at most 127 labels of 1 to 63 octets, and written out it has exactly the octets that were counted. |
| DnsParser.AcceptedNameFits | dns_engine/parser.py:351-369 | An accepted ASCII name has 1 to 253 characters. |
| DnsParser.ParsesToOne | dns_engine/parser.py:374-455 | The octets of a packet determine the query read from them. |
| DnsParser.Parse | dns_engine/parser.py:374-455 | Succeeds exactly when the packet holds a query, with that query as the result; a failing header check is reported as the first one that fails. |
| DnsParser.HeaderErrorByFields | dns_engine/parser.py:103-149 | By the fields of the flags word: a response, an opcode, reserved bits and a question count other than one are refused in this order; the other flag bits and the code never matter. |
| DnsParser.ExpansionPreservesMeaning | dns_engine/parser.py:172-455 | Replacing a compressed question name by its labels written out, and dropping what follows the question, changes nothing in what the packet parses to, nor whether it parses. |
| DnsCompression.CompressedQuestion | dns_engine/parser.py:172-455 | A question whose name is labels followed by a pointer to further labels parses to the query for all the labels, with the type and class after the pointer; it is refused exactly when the name is beyond the limits or header or class are unsupported. |
| DnsCompression.CompressionChangesNothing | dns_engine/parser.py:172-455 | Within the limits such a packet parses to the same queries as the question with the name written out. |
| DnsParser.ParseUndoesBuild | tests/test_parser.py:9-44 | Parsing undoes the query builder up to lower-casing; a built query is refused exactly when the name exceeds 253 characters or flags or class are unsupported. |
| DhcpOptions.ParseOptions | dhcp/options.py:94-162 | The loop over the offset yields the options, or the error, of the recursive reading. |
| DhcpOptions.ParsesExactlyDescribed | dhcp/options.py:94-162 | A field parses to a list of options exactly when it is padding and those options in order, followed by nothing or by END and anything. |
| DhcpOptions.EncodeOptions | dhcp/options.py:165-200 | The octets of all options in order, then END when asked for. |
| DhcpOptions.ParseUndoesEncode | dhcp/options.py:81-200 | Parsing undoes encoding, whatever follows END, exactly when no option has code 0 or 255. |
| DhcpOptions.ReencodeIsStable | dhcp/options.py:94-200 | Encoding a parsed list and parsing it again gives the same list, for every field that parses. |
| DhcpOptions.PaddingIsIgnored | dhcp/options.py:125-131 | Padding between options and octets after END never change the result. |
| DhcpOptions.GetOption | dhcp/options.py:203-235 | The first option with the code, or none when no option has it. |
| DhcpOptions.ValueOfFirst | dhcp/options.py:203-235 | The recursive lookup gives the value of the first option with the code, and nothing exactly when there is none. |
| DhcpOptions.AddressInOrder | dhcp/server.py:1127-1180 | An address option is four octets in network order, and an error when it has another length. |
| DhcpPacket.FromBytes | dhcp/packet.py:220-309 | Accepts exactly the datagrams of at least 240 octets with the magic cookie, and what it returns passes the packet's own checks. |
| DhcpPacket.AcceptedExactly | dhcp/packet.py:221-309 | The four octets of the cookie are 99, 130, 83 and 99 at offset 236. |
| DhcpPacket.FieldsByPosition | dhcp/packet.py:240-309 | Each header field of an accepted datagram, by its offset and in network order. |
| DhcpPacket.ReadUndoesWrite | dhcp/packet.py:221-358 | Reading a written packet gives the packet back, for every valid packet. |
| DhcpPacket.WriteUndoesRead | dhcp/packet.py:221-358 | Writing a packet that was read gives the same octets, for every accepted datagram. |
| ClientIds.HexIsInjective | dhcp/server.py:1118-1122 | Different client identifier options give different client names. |
| ClientIds.HexDigits | dhcp/server.py:1118-1122 | The digits at 2i and 2i+1 of the hexadecimal form are those of octet i. |
| ClientIds.MacDigits | dhcp/packet.py:361-374 | The digits at 3i and 3i+1 of the colon notation are those of octet i, with a colon after each octet but the last. |
| ClientIds.MacIsInjective | dhcp/packet.py:361-374 | Two hardware addresses have the same colon notation exactly when they are the same octets. |
| ClientIds.MacMeetsHex | dhcp/server.py:1102-1124 | A hardware address and an identifier option give the same client name exactly when they are the same octets and at most one of them. |
| ClientIds.NormalizeTwice | dhcp/reservation.py:66-127 | Normalizing a client identifier twice is normalizing it once. |
| ClientIds.NotationsAgree | dhcp/reservation.py:73-123 | Every notation of one six-octet hardware address has the same normal form. |
| ClientIds.NormalOfOther | dhcp/reservation.py:88-127 | An identifier that is no hardware address keeps everything but outer white space and upper case. |
| ClientIds.SameNormalForm | dhcp/reservation.py:66-127 | Two identifiers have the same normal form exactly when they differ in outer white space and letter case only, or spell the same hardware address. |
| ClientIds.GroupedPairs | dhcp/reservation.py:113-123 | The normal form of a hardware address has its digits in pairs and in order, with a colon after each pair but the last. |
| ClientIds.StripParts | dhcp/lease_manager.py:102-123 | Trimming takes white space off both ends and nothing else. |
| DhcpPool.LowestFree | dhcp/pool.py:180-221 | The least address of the range that is not taken; none exactly when all are. |
| DhcpPool.DHCPAddressPool.Allocate | dhcp/pool.py:180-221 | Hands out the least available address and marks only it; fails exactly when none is available and then changes nothing. |
| DhcpPool.DHCPAddressPool.AllocateSpecific | dhcp/pool.py:223-259 | Succeeds exactly when the address is available; each refusal changes nothing. |
| DhcpPool.DHCPAddressPool.Reserve | dhcp/pool.py:109-136 | Withholds an address of the range that is not in use; allocated and reserved addresses stay disjoint. |
| DhcpPool.DHCPAddressPool.Release | dhcp/pool.py:261-285 | Frees exactly the address and reports whether it was in use. |
| DhcpPool.DHCPAddressPool.AvailableCount | dhcp/pool.py:287-306 | The count is the number of available addresses; the subtraction never has to be clamped. |
| DhcpPool.DHCPAddressPool.AvailableAddresses | dhcp/pool.py:354-388 | Lists the available addresses, each once, in increasing order, as many as the count says. |
| DhcpLeases.DHCPLeaseManager.StateIsSound | dhcp/lease_manager.py:66-517 | Whenever the manager is valid, no two clients share an address, all leases lie in the pool off the reserved addresses, and the pool has allocated exactly the leased addresses. |
| DhcpLeases.DHCPLeaseManager.GetByClient | dhcp/lease_manager.py:145-176 | Removes the client's lease from both indexes and the pool when it has lapsed, and returns the filed live one otherwise. |
| DhcpLeases.DHCPLeaseManager.GetByIp | dhcp/lease_manager.py:178-211 | The same by address; a lease is returned exactly when some client holds the address. |
| DhcpLeases.DHCPLeaseManager.Create | dhcp/lease_manager.py:213-264 | Over the two indexes, the shared objects and the pool it does what `LeaseBook.Created` does to one table, on failing paths too, and leaves the indexes inverse to each other. |
| DhcpLeases.DHCPLeaseManager.CreateSpecific | dhcp/lease_manager.py:266-339 | The same for a given address, including renewal, release of another lease and every refusal. |
| DhcpLeases.DHCPLeaseManager.Renew | dhcp/lease_manager.py:341-389 | Rewrites the times of the client's lease object in place and of no other client's; a lapsed lease is removed instead. |
| DhcpLeases.DHCPLeaseManager.Release | dhcp/lease_manager.py:391-420 | Takes exactly the client's lease out of both indexes and the pool, and reports whether there was one. |
| DhcpLeases.DHCPLeaseManager.ExpireLeases | dhcp/lease_manager.py:422-449 | Removes exactly the leases that have lapsed when each is looked at and returns how many. |
| DhcpLeases.DHCPLeaseManager.Clear | dhcp/lease_manager.py:499-517 | Leaves no lease and no allocated address. |
| LeaseBook.CreatedAtKeepsSound | dhcp/lease_manager.py:266-339 | Binding a given address keeps addresses unique and in the pool; other clients lose only lapsed leases. |
| LeaseBook.CreatedKeepsSound | dhcp/lease_manager.py:213-264 | So does dynamic creation. |
| LeaseBook.FailedRequestLosesLiveLease | dhcp/lease_manager.py:291-331 | A failed request for a given address removes a live lease exactly when the client held one on another address; all else that goes has lapsed. |
| LeaseBook.FailedRequestExample | dhcp/lease_manager.py:304-317 | A concrete client that loses its lease this way. |
| DhcpReservations.DHCPReservationManager.Add | dhcp/reservation.py:161-236 | Files a reservation under both indexes or refuses it without change; the indexes stay inverse. |
| DhcpReservations.DHCPReservationManager.Update | dhcp/reservation.py:238-306 | Moves the client's reservation: its old address is free, the new one is its own, no other client's is touched. |
| DhcpReservations.DHCPReservationManager.RemoveByClient | dhcp/reservation.py:357-388 | Removes the client's reservation from both indexes. |
| DhcpReservations.DHCPReservationManager.RemoveByIp | dhcp/reservation.py:390-421 | Removes the reservation of an address from both indexes. |
| DhcpReservations.HostnameExactly | dhcp/reservation.py:183-196 | A host name is kept, trimmed, exactly when it has a character other than white space. |
| DhcpStorage.DHCPLeaseStorage.Save | dhcp/storage.py:166-239 | Inserts or replaces the client's row, or leaves the table as it was exactly when another client's row has the address. |
| DhcpStorage.DHCPLeaseStorage.Delete | dhcp/storage.py:396-442 | Removes the client's row and reports whether there was one. |
| DhcpStorage.SavedKeepsUnique | database/models/dhcp_lease.py:33-45 | A write that is not refused keeps the address column unique. |
| DhcpServer.DHCPServer.ObtainLease | dhcp/server.py:823-967 | Does to pool, lease manager and store exactly what `DhcpProtocol.Obtain` does to the state. |
| DhcpServer.DHCPServer.HandlePacket | dhcp/server.py:385-817 | One datagram does to the objects, and answers, exactly what one protocol step does on values, on every raising path as well. |
| DhcpInputs.Serve | dhcp/lease_manager.py:422-517 | Datagrams, sweeps, withheld and returned addresses, and clearing do to the objects exactly what the inputs of a run do to the state. |
| DhcpDatagrams.MessageByNumber | dhcp/server.py:385-482 | Which message a datagram is, by the value of option 53: 1 discover, 3 request, 4 decline, 7 release, 8 inform, all else ignored or refused; the address asked for is option 50 and the server option 54. |
| DhcpDatagrams.ReplyByNumber | dhcp/server.py:385-817 | In option 53 of datagrams: a reply 2 answers a 1, a reply 6 answers a 3, a reply 5 answers a 3 or an 8, and there are no others; lease options stand in exactly the offers and the acknowledgements of requests. |
| DhcpDatagrams.ChangeByNumber | dhcp/server.py:385-817 | Only datagrams of types 1, 3, 4 and 7 change anything, and of the state only leases and rows. |
| DhcpDatagrams.DeclineByNumber | dhcp/server.py:662-710 | A datagram of type 4 takes lease and row of its live client when option 50 is missing or names its address; otherwise at most the client's lapsed lease goes. Without a name for the client, or with a malformed option 50, it is an error without effect. |
| DhcpDatagrams.ReleaseByNumber | dhcp/server.py:716-789 | A datagram of type 7 takes exactly the lease and row of its sender, without an answer. |
| DhcpDatagrams.InformByNumber | dhcp/server.py:795-817 | A datagram of type 8 is always answered 5, without lease options, and changes nothing. |
| DhcpDatagrams.OtherServerByNumber | dhcp/server.py:546-600 | A request whose option 54 names another server has no answer and no effect. |
| DhcpDatagrams.OthersByNumber | dhcp/server.py:385-494 | Unreadable datagrams, those without option 53 and those of any other type have no answer and no effect. |
| DhcpDatagrams.SameAddressExactly | dhcp/server.py:1102-1124 | Two packets without option 61 name the same client exactly when their lengths, at most 16, and that many octets of their hardware addresses agree. |
| DhcpDatagrams.SameOptionExactly | dhcp/server.py:1102-1124 | Two packets with option 61 name the same client exactly when they have the same octets in it. |
| DhcpSafety.DispatchGood | dhcp/server.py:496-946 | Every message keeps the leases sound and takes an address from a client only when that client releases or declines it or its lease has lapsed. |
| DhcpSafety.GrantNamesHeldAddress | dhcp/server.py:535-656 | An answer with a lease names the address the asking client now holds. |
| DhcpSafety.EveryReplyReadsBack | dhcp/server.py:973-1095 | Every reply of every handler parses back with both codecs to the request packet with op 2, the decided address, the server's address and exactly the option list built, with the three lease timers decodable exactly when it carries a lease. |
| DhcpReplies.ReplyReadsBack | dhcp/server.py:973-1095 | The same for the response builder alone. |
| DhcpReplies.ReplyOptionValues | dhcp/server.py:991-1089 | A client looking up the message type, server identifier, subnet mask, router, DNS server or lease timers finds the configured value, and nothing where none is configured or the reply carries no lease. |
| DhcpReplies.TimersAreOrdered | dhcp/server.py:1057-1089 | T1 < T2 < lease time exactly when the lease time is at least 3. |
| DhcpReplies.TimersExactly | dhcp/server.py:1057-1089 | From two seconds on T1 is half of the lease time and T2 seven eighths, rounded down; below that both are one second. |
| DhcpReplies.UnpackableExactly | dhcp/server.py:1057-1095 | A reply cannot be built exactly when it carries a lease time that does not fit 32 bits. |
| DhcpRuns.RunKeepsSound | dhcp/server.py:385-946 | In every run of datagrams, sweeps and administration the leases stay sound. |
| DhcpRuns.NoDoubleGrant | dhcp/server.py:496-946 | Over all runs of datagrams, sweeps, administration, clearings and restarts: between a reply granting an address to one client and a later one granting it to another, the first client released or declined the lease, the clock reached the end that lease then had, or all leases were forgotten. |
| DhcpHandover.HandoverNeedsOwnMessage | dhcp/storage.py:166-239 | Over all such runs, restarts included: between those two replies the first client itself released or declined the address or had another one stored; that its lease lapsed or was forgotten is not enough. |
| DhcpHandover.GrantStores | dhcp/server.py:948-967 | A reply with a lease leaves its address in the row of the asking client and found it in no other row. |
| DhcpTenure.DispatchTerms | dhcp/lease_manager.py:213-389 | Whatever the message, each lease is either as it was or starts while the message is handled and lasts exactly the configured time. |
| DhcpTenure.RunTerms | dhcp/lease_manager.py:213-389 | In every run from the empty state all leases last exactly the configured time. |
| DhcpTenure.WholeLeaseTime | dhcp/server.py:546-656 | Over all runs: once an address is acknowledged to a client, no reply grants it to another until that client gives it up, the whole advertised lease time has passed since the request arrived, or all leases are forgotten. |
| DhcpTenure.OfferedTerm | dhcp/server.py:496-542 | The lease behind an offer lasts the advertised time exactly when the client had no live lease, or one that lasts that long. |
| DhcpTenure.GivingUpFrees | dhcp/server.py:662-789 | A message other than a discover or request takes a live lease exactly when its client releases it, or declines it without naming another address; lease and row go together, nobody else's are touched, and the address is then free for every other client. |
| DhcpPriority.ObtainChooses | dhcp/server.py:823-946 | The client ends up with exactly the address of the priorities (live lease, reservation or nothing, requested address when free, least free address), and is told there is none exactly when none is chosen. |
| DhcpPriority.NothingLostWithoutLease | dhcp/server.py:878-940 | A client that gets no lease has taken nothing from anyone: only lapsed leases have gone. |
| DhcpPriority.ObtainStores | dhcp/server.py:948-967 | A lease that is handed out has been stored as it is in memory; a refused write changes no row. |
| DhcpPriority.RefusedExactly | dhcp/server.py:878-967 | Obtaining a lease is refused by the store exactly when the row of another client has, before the call, the address that the priorities choose. |
| DhcpPriority.DiscoverAnswered | dhcp/server.py:496-542 | What a discover is answered, by who holds what before the call: an offer of the chosen address, nothing when none is chosen, a storage error exactly when another client's row has the chosen address. |
| DhcpPriority.RequestAnswered | dhcp/server.py:546-656 | The same for a request: a live lease is renewed if it is still live and the lease time allows it, otherwise the priorities choose; a NAK exactly when nothing is chosen. |
| DhcpPriority.MessageRefusedExactly | dhcp/storage.py:189-239 | Which messages of any kind fail in storage: exactly discovers and requests to this server for which another client's row has the address chosen. |
| DhcpScenarios.LapsedLeaseExhaustsPool | dhcp/server.py:917-931 | From the empty state: after a discover and the end of its lease, another client that names no address gets nothing from a pool of one address. |
| DhcpScenarios.StaleRowRefusesGrant | dhcp/server.py:891-906 | From the empty state: after a discover and the end of its lease, another client that names the address is refused in storage although memory has given it the lease. |
| DhcpScenarios.RepeatedOfferIsShort | dhcp/server.py:496-542 | From the empty state: a discover repeated during the lease is offered a lease that ends before the time the offer advertises. |
| DhcpScenarios.SameNameExactly | dhcp/server.py:1102-1124 | A packet without the identifier option and one with it name the same client exactly when the option is the first packet's hardware address and a single octet. |
| DhcpScenarios.TwoDevicesOneName | dhcp/server.py:1102-1124 | Two packets of different devices that name the same client. |
| DhcpMirror.RunMirrors | dhcp/server.py:546-967 | In every run from the empty state in which no lease lapses or is forgotten, stored rows equal leases in every field and no write is refused. |
| DhcpMirror.RefusalNeedsLapse | dhcp/storage.py:166-239 | A refused write in any run from the empty state implies that a lease had lapsed or been forgotten by then. |
| DnsCache.DNSCache.Find | dns_engine/cache.py:37-68 | A live entry is returned, counted and moved to the newest place; a lapsed one is removed; each miss is counted. |
| DnsCache.DNSCache.Put | dns_engine/cache.py:70-99 | The domain becomes the newest and the oldest are popped until 10000 remain; an empty response changes nothing. |
| DnsCache.DNSCache.RemoveExpired | dns_engine/cache.py:111-136 | Removes exactly the lapsed entries, keeps the order of the rest, and returns how many went. |
| DnsCache.StoreConsistent | dns_engine/cache.py:70-99 | Order and entries stay in step, the size stays within its bound, and what was just stored is there. |
| DnsCacheHistory.HitReturnsLastStored | dns_engine/cache.py:37-136 | Over all histories: a hit returns the last non-empty response stored for the domain since the last clearing, less than 300 seconds after it was stored. |
| DnsCacheHistory.WorkingSet | dns_engine/cache.py:37-136 | Over all histories: an unexpired stored domain misses only if at least 10000 distinct other domains were stored or hit since its own last store or hit. |
| DnsFilters.FilterManager.Evaluate | dns_engine/filters/manager.py:132-140 | Allowed exactly when no enabled filter blocks; otherwise the first enabled blocking filter is named. |
| DnsFilters.FilterManager.SetEnabled | dns_engine/filters/manager.py:142-148 | Switches a known filter and refuses an unknown name without change. |
| DnsResolver.DNSResolver.Resolve | dns_engine/resolver.py:470-857 | One query changes cache, counters and log, and answers, exactly as one step on values does. |
| DnsResolverRuns.RunConserves | dns_engine/resolver.py:470-857 | Over all runs: queries = parse failures + hits + misses, misses = blocked + allowed, allowed = upstream successes + failures, and the five response-code counters sum to the responses returned. |
| DnsResolverRuns.NodeTallied | dns_engine/metrics.py:253-492 | Over all runs each counter is the number of queries that ended that way, and the cache's own hits and misses are those of the metrics. |
| DnsResolverRuns.RunCodes | dns_engine/metrics.py:445-492 | Over all runs each of the five response-code counters is the number of responses returned with its code. |
| DnsResolverRuns.ResponsesExplained | dns_engine/resolver.py:470-857 | Over all runs: error answers carry codes 1, 3 and 2; every other answer is, octet for octet, what an upstream server sent to this query or to an earlier one for the same domain, repeating the identifier of the query it was sent to; a query fails exactly when nothing usable came back. |
| DnsResolverRuns.ErrorsAnswerTheirQueries | dns_engine/response.py:55-202 | Over all runs every error answer repeats its packet's identifier when there is one and is marked as a response; it is the library's reply with code 1, 3 or 2 for a packet of 12 octets when the library gives one, and otherwise a bare header with that code. |
| DnsResolverRuns.HitWasAllowed | dns_engine/resolver.py:566-609 | Over all runs with rules changing at will: a cached answer repeats an upstream answer stored less than 300 seconds ago for that domain while the rules allowed it. |
| DnsResolverRuns.BlockedStaysBlocked | dns_engine/resolver.py:566-692 | While the rules stay the same a query ends blocked exactly when its domain is blocked: never from the cache, never upstream. |
| DnsResolverRuns.BlockedExactly | dns_engine/resolver.py:566-692 | With rules changing at will, a query that parses is refused exactly when the rules in force block its domain and no live answer for it is in the cache. |
| DnsResolverRuns.NewRuleNotAppliedToCache | dns_engine/resolver.py:566-609 | In a run of two queries for one domain that is allowed at first and blocked then, the second is answered from the cache for 300 seconds and refused after that. |
| DnsResolverRuns.OnlyBlankNamesUnlogged | dns_engine/query_log.py:573-629 | A parsed query with an ASCII name is refused by the log exactly when its trimmed name has no character other than a dot. |
| DnsResolverLog.RingIsTrail | dns_engine/query_log.py:545-713 | Over all runs with ASCII names: the ring holds the records of the last queries whose trimmed name has a character other than a dot, as many as it has room for, in order and each with its query's outcome, whether or not the file could be written. |
| DnsResolverLog.AuditSays | dns_engine/resolver.py:470-857 | The record of a query names its domain in lower case without outer white space and trailing dots, and says BLOCKED or ALLOWED, HIT or MISS, and SUCCESS, FAILED or NOT_USED, as the query ended. |
| DnsResolverLog.CountersMatchTrail | dns_engine/resolver.py:470-857 | Over all runs: hits, blocked queries, upstream failures and successes counted by the metrics are the records that tell of that outcome plus the unlogged queries that ended that way. |
| DnsResolverLog.OutcomeReadable | dns_engine/resolver.py:470-857 | How a parsed query ended can be read from the three status fields of its record. |
| DnsResolverLog.RootQueryUnlogged | dns_engine/query_log.py:573-588 | A query for the root is parsed, answered and counted and leaves no record. |
| DnsMetrics.DNSMetrics.RotateBucket | dns_engine/metrics.py:205-247 | Closes one bucket for each elapsed second, at most 60, in both histories. |
| DnsMetrics.DNSMetrics.RecordQuery | dns_engine/metrics.py:253-274 | Adds one event to the counted stream and keeps the buckets the run of that stream, even when the clock runs backwards. |
| DnsMetrics.DNSMetrics.TakeSnapshot | dns_engine/metrics.py:541-681 | Lengths are at most 60 and 61 and no list sums to more than its total; while the clock does not run backwards every listed query count is the number of queries in its second, and so are the newest 60 blocked counts. |
| DnsMetrics.WindowCountsEvents | dns_engine/metrics.py:205-312 | For all event streams and gaps, the lazily rotated ring agrees with counting timestamps in the newest 60 slots, has min(60, age) closed buckets, and never sums to more than the total. |
| DnsMetrics.OldestSlotExactly | dns_engine/metrics.py:226-245 | The 61st slot is right exactly when at most 60 seconds had passed or nothing was in the last bucket. |
| DnsMetrics.OldestSlotCanBeStale | dns_engine/metrics.py:226-247 | A concrete stream whose 61st slot is wrong. |
| DnsQueryLog.DNSQueryLog.Record | dns_engine/query_log.py:545-713 | Refuses exactly the invalid records, by the first check that fails and without change, a blank name being one without a character other than a dot; otherwise the ring gains the entry and loses its oldest, and the file gains it and loses its stale records, as far as writing gets. |
| DnsQueryLog.LoggedNameIsName | dns_engine/query_log.py:573-583 | The logged name is the trimmed name in lower case up to its trailing dots, and ends in none. |
| DnsQueryLog.NameableExactly | dns_engine/query_log.py:573-588 | Something is left to log exactly when the trimmed name has a character other than a dot. |
| DnsQueryLog.DNSQueryLog.CleanupAndLoad | dns_engine/query_log.py:243-332 | The newest of the file's fresh records in time order become the ring; the file becomes those records unless rewriting it fails. |
| DnsQueryLog.DNSQueryLog.Recent | dns_engine/query_log.py:719-754 | The newest entries, newest first, as many as asked for within 1 and the capacity. |
| DnsQueryLog.SortIsSorted | dns_engine/query_log.py:318-320 | Reloading sorts the records by time and loses none. |
| DnsQueryLog.RestartKeepsRing | dns_engine/query_log.py:243-332 | Of a log in step with its file, reloading at a later time gives exactly the ring without its entries older than 24 hours, in the same order, and ring and file stay in step, whether or not the file could be pruned. |
| DnsQueryLogRuns.RunReloads | dns_engine/query_log.py:243-332 | In every run of additions, clearings and restarts with a clock that does not run backwards, whatever appends, prunings, rewrites and removals of the file fail: a restart gives the newest of the fresh records that reached the file since it was last removed. |
| DnsQueryLogRuns.RunRestart | dns_engine/query_log.py:243-332 | In every such run in which appends and removals of the file succeed, a restart gives the ring without its entries older than 24 hours, in the same order, whether or not pruning and rewriting succeed. |
| DnsQueryLogRuns.RestartKeepsOrderExactly | dns_engine/query_log.py:318-328 | For every run of additions to an empty log with timestamps given by the caller in any order, a restart gives the fresh part of the ring exactly when no record that is fresh in the ring is gone from the file (its append failed, or a later pruning write was dated more than 24 hours after it), no fresh record had been pushed out of a ring that has room for it again, and every fresh record in the ring is at least as recent as the fresh ones before it. The only-if half is for runs in which a record whose append failed has no equal. |
| DnsQueryLogRuns.EqualRecordStandsIn | dns_engine/query_log.py:318-328 | Three records given to an empty log, the last an equal of the first and its append failing: the ring comes back although its last record is gone, which is why the only-if half needs that. |
| DnsQueryLogRuns.LoadedIsBuilt | dns_engine/query_log.py:318-332 | A log that has just been loaded is one to which its records were added without pruning, so the runs above also cover logs that start from a file. |
| DnsQueryLogRuns.FileIsSurvivors | dns_engine/query_log.py:406-516 | After any such run the file holds exactly the records that were appended and that no later pruning write was dated more than 24 hours after, in order. |
| DnsQueryLogRuns.PastRecordsSurvive | dns_engine/query_log.py:448-516 | When no record is dated after the restart, no fresh record whose append succeeded is gone. |
| DnsQueryLogRuns.FarRecordCosts | dns_engine/query_log.py:448-516 | Two records given to an empty log, the second dated more than 24 hours ahead: both are fresh in the ring, and a restart has only the second. |
| DnsQueryLogRuns.LateRecordMoves | dns_engine/query_log.py:318-328 | Two records given to an empty log with the later time first change places at the next restart. |
| DnsQueryLogRuns.DroppedRecordReturns | dns_engine/query_log.py:318-328 | A record that a full ring had dropped for one that is stale is back in the ring after a restart. |

## Left out

- Sockets, threads, locks, printing and logging: every operation is one sequential step.
- The upstream transports and `replace_upstream`: a query carries what the upstream server would send back, and the
  model keeps the validation of length and identifier.
- Textual IPv4 addresses and their parsing errors: addresses are numbers, so two spellings of one address are the same.
- DnsParser.ReadDomain: the decoding of labels and the lower-casing of names are parameters, not the tables of UTF-8 and
  Unicode.
- DnsParser.ParseUndoesBuild: the query builder of the tests also accepts names with empty parts or parts of more than 63
  octets, for which no round trip is promised; what such packets parse to is covered by `DnsParser.Parse` only.
- ClientIds.NormalizeTwice: letter case and white space are those of ASCII; the wider Unicode classes of the original
  are not modelled.
- DhcpStorage.DHCPLeaseStorage.Save: failures of the database other than the unique address column are not modelled, nor
  are column widths.
- DhcpStorage.DHCPLeaseStorage.Delete: a failing delete is not modelled; it would leave the row of a released client.
- DhcpMirror.RunMirrors: times are exact here; the database keeps them as datetimes rounded to microseconds, so start and
  end of a stored row equal those in memory up to that rounding.
- DhcpRuns.NoDoubleGrant: clients are told apart by the name the server computes for them, as in the original; two devices
  with the same name are one client.
- Static reservations are not withheld from dynamic allocation and declined addresses are not quarantined: the code does
  neither, and nothing of the kind is claimed.
- DnsResolver.DNSResolver.Resolve: latency figures and security events are not modelled.  A cached answer is keyed by the
  domain alone, as in the code; its type and identifier are not claimed to match the new query.
- DnsMetrics.DNSMetrics.TakeSnapshot: latency figures, the query rate and the list of security events are not modelled.
- DnsFilters.FilterManager.SetEnabled: the copy of the switch that is kept with a custom filter's definition and saved to
  its file is not modelled.
- DnsQueryLog.DNSQueryLog.Record: rounding of the latency, non-finite numbers and a write cut short inside a line are not
  modelled; the file is a list of records and undecodable lines, not JSON text.
- DnsQueryLog.DNSQueryLog.CleanupAndLoad: a file that exists but cannot be read is not modelled.
- Custom filters, their files and the block lists: a filter is a name and a predicate on the domain.
- Storage queries other than save and delete, and loading stored leases at start, which the server does not do.
