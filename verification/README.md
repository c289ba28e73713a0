# A model of the resolver's protocol core

This project models the parts of the resolver that keep state or turn octets into values and
back, and proves what they promise:

- the DNS-SD registry with its browse subscriptions and automatic renaming (`DnsSd*.dfy`);
- the JSON printer and recursive-descent parser (`Json*.dfy`);
- EDNS: OPT records spliced in and out of packets, the per-server feature state, and the retry
  loop against an arbitrary server (`Wire*.dfy`, `Edns*.dfy`);
- the sharded answer cache with eviction, and the coalescing of concurrent fetches
  (`NameHash.dfy`, `Cache*.dfy`, `SingleFlight.dfy`);
- multicast DNS: two packet walkers, the response encoder, the record cache, the probe machine and
  conflict detection (`Mdns*.dfy`);
- the name codec of the NSS module (`Nss*.dfy`).

`Bytes.dfy`, `Order.dfy`, `Text.dfy` and `LabelNames.dfy` hold what these share: octets, sorting,
UTF-8 and decimal text, and names as lists of labels.

An entity the program changes in place is a class here, and a loop is a loop; each such method is
proved equal to a function of the old state, and the properties are lemmas about those functions.
Where the program follows a promise only in part, there is a lemma with a concrete input that shows
the failure and one that says exactly when the promise holds:

- Taking an OPT record out of a query gives back the query exactly when every name still reads
  after the additional count went up by one. `read_name` follows pointers into the header, so
  a name may depend on that count (`EdnsRoundTrip.PrepareThenUnprepare`,
  `EdnsRoundTrip.HeaderPointerDoesNotUnprepare`).
- Taking an OPT record out of the middle of a response moves the octets behind it, and names there
  may read as others. They are read from the same octets exactly when no pointer leads to the
  record or behind it (`EdnsClient.ClientGetsOthers`, `EdnsMisread.OwnerChanges`). The condition is
  about octets, not names: other octets may spell the same name (`EdnsMisread.OwnerStaysByChance`).
- The verified feature level may exceed the possible one (`EdnsFeatures.VerifiedBound`,
  `EdnsFeatures.VerifiedMayExceedPossible`).
- Registry keys that differ may share an owner name (`DnsSdOwners.OwnersAgree`,
  `DnsSdOwners.SharedOwner`).
- `len` of the answer cache counts evicted entries until the next flush (`CacheCount.LenExact`,
  `CacheCount.LenOvercounts`).
- The 255 octet check on cache owners leaves out the root octet (`CacheKeys.OwnerIsName`,
  `CacheKeys.LongOwnerAccepted`).
- `is_empty` of the mDNS cache may be false with no record left (`MdnsCacheSize.AgreementStep`,
  `MdnsCacheSize.RunDisagrees`, `MdnsCacheSize.EmptyYetNotEmpty`).
- The mDNS decoder follows forward pointers the validator refuses (`MdnsNames.WalkersAgree`,
  `MdnsIngress.ValidatesExactly`, `MdnsNames.DecoderIsLaxer`).
- A faithful answer to a query for a name with a trailing dot is refused
  (`NssResponses.EchoAccepted`, `NssResponses.TrailingDotRefused`).
- A question for another name may be accepted, if a label of it holds a dot or a NUL
  (`NssQuestions.AcceptedQuestion`, `NssQuestions.OtherQuestionsAccepted`).

Time is an unbounded integer. `dafny verify dfyconfig.toml` checks the project.

## Model

| member | source | states |
|---|---|---|
| DnsSdReplay.SubscriberSeesRegistry | src/dnssd_full.rs:508-659 | after every run, replaying all updates ever queued for a live subscription, taken and pending in order, never adds a present id or removes an absent one and ends with exactly the registrations its filter matches |
| DnsSdReplay.RunKeeps | src/dnssd_full.rs:446-659 | in every reachable state `keys` is the exact inverse of `registrations`, queues exist exactly for live subscriptions, ids in use were issued, and every log is exact |
| DnsSdReplay.RegisterKeeps | src/dnssd_full.rs:509-521 | registering, accepted or refused, keeps the registry invariant |
| DnsSdReplay.UpdateKeeps | src/dnssd_full.rs:545-567 | an update, even one that changes the key, keeps the invariant: a removal and an addition under one id |
| DnsSdReplay.UnregisterKeeps | src/dnssd_full.rs:569-578 | unregistering keeps the invariant and drops exactly that id |
| DnsSdReplay.SubscribeKeeps | src/dnssd_full.rs:584-603 | a new subscription starts with updates that replay to what it may see |
| DnsSdReplay.UnsubscribeKeeps | src/dnssd_full.rs:605-608 | the other subscriptions keep exact logs |
| DnsSdReplay.TakenLog | src/dnssd_full.rs:610-615 | taking moves updates and loses or reorders none |
| DnsSdReplay.RemoveInterfaceKeeps | src/dnssd_full.rs:624-634 | afterwards exactly the registrations of other interfaces remain, and the invariant holds |
| DnsSdReplay.RenamingKeeps | src/dnssd_full.rs:523-543 | registering under an automatic name keeps the invariant |
| DnsSdRegistry.Registrar.Register | src/dnssd_full.rs:509-521 | the mutable registry becomes the specified one; a failure changes nothing |
| DnsSdRegistry.Registrar.RegisterWithAutomaticRename | src/dnssd_full.rs:523-543 | the loop over ordinals does what the specification says; a failure changes nothing |
| DnsSdRegistry.Registrar.Update | src/dnssd_full.rs:545-567 | the new state is the specified one; a failure changes nothing |
| DnsSdRegistry.Registrar.Unregister | src/dnssd_full.rs:569-578 | the new state and the returned registration are the specified ones |
| DnsSdRegistry.Registrar.Subscribe | src/dnssd_full.rs:584-603 | a fresh id whose queue announces the matching registrations by ascending id |
| DnsSdRegistry.Registrar.Unsubscribe | src/dnssd_full.rs:605-608 | the subscription and its queue are gone, nothing else |
| DnsSdRegistry.Registrar.TakeUpdates | src/dnssd_full.rs:610-615 | returns the queue and leaves it empty |
| DnsSdRegistry.Registrar.RemoveInterface | src/dnssd_full.rs:624-634 | unregisters the ids of the interface in ascending order |
| DnsSdRegistry.Registrar.NotifyAll | src/dnssd_full.rs:636-658 | every matching subscription gets the update at the end of its queue, no other |
| DnsSdRegistry.CheckRegistration | src/dnssd_full.rs:237-258 | the checks in source order find the same first error as the specification |
| DnsSdRegistry.CheckTxt | src/dnssd_full.rs:349-363 | the loop accepts exactly items of at most 255 octets that take at most 1300 with their length octets, with the first error otherwise |
| DnsSd.TxtExact | src/dnssd_full.rs:349-363 | accepted are exactly items of at most 255 octets that take at most 1300 with their length octets |
| DnsSdRegistry.RenameInstance | src/dnssd_full.rs:661-677 | the truncation loop yields the specified name |
| DnsSdRename.RenameFromChooses | src/dnssd_full.rs:523-543 | the smallest ordinal whose name is free is taken; a duplicate is reported exactly when none is |
| DnsSdRename.RenameSucceeds | src/dnssd_full.rs:523-543 | every valid registration gets a name while fewer than 9998 keys exist |
| DnsSdRename.RenamedFits | src/dnssd_full.rs:661-677 | a renamed instance has 1 to 63 octets for every base and ordinal |
| DnsSdRename.RenamedDistinct | src/dnssd_full.rs:661-677 | names with equal octets have equal ordinals, truncated or not |
| DnsSdRename.RenamedStaysUtf8 | src/dnssd_full.rs:661-677 | truncation never splits a UTF-8 character |
| DnsSdOwners.EncodeLabels | src/dnssd_full.rs:417-433 | the lower-case wire name, refused exactly for an empty, long or zero-holding label or above 255 octets |
| DnsSdOwners.InstanceOwner | src/dnssd_full.rs:264-271 | the wire name of instance, service, protocol and domain labels |
| DnsSdOwners.OwnersAgree | src/dnssd_full.rs:264-271 | two owners are equal exactly when instance, service type and domain agree label by label up to case |
| DnsSdOwners.SharedOwner | src/dnssd_full.rs:446-463 | two different keys with one owner |
| JsonRoundTrip.RoundTrip | src/json.rs:78-154 | parsing the printed form of any value gives the value back, for nested arrays and objects, every Unicode scalar and every 128-bit number |
| JsonRoundTrip.PrintInjective | src/json.rs:78-108 | different values print differently |
| JsonRoundTrip.PrintedValue | src/json.rs:184-206 | a printed value parses back wherever it stands, up to its own end |
| JsonRoundTrip.PrintedString | src/json.rs:110-129 | every string reads back from its escaped form |
| JsonRoundTrip.PrintedNumber | src/json.rs:318-343 | every number reads back from its decimal form |
| JsonRoundTrip.PrintedMembers | src/json.rs:367-397 | the members of an object with ascending keys read back in order |
| JsonRoundTrip.AcceptedValue | src/json.rs:184-397 | whatever is accepted has numbers of 128 bits and objects with ascending distinct keys |
| JsonRoundTrip.Reparse | src/json.rs:145-154 | printing what was parsed and parsing again changes nothing |
| JsonGrammar.ParseValue | src/json.rs:184-206 | an accepted value consumes at least one octet and stays in the input |
| JsonGrammar.StringLiteral | src/json.rs:217-252 | an accepted string consumes input and stays in it |
| JsonParser.Parse | src/json.rs:145-154 | the parser object accepts what the grammar does, and every printed value |
| JsonParser.Parser.ParseValue | src/json.rs:184-206 | moves the offset and returns or fails as the grammar says |
| JsonParser.Parser.ParseString | src/json.rs:217-252 | moves the offset and returns or fails as the grammar says |
| JsonParser.Parser.ParseEscape | src/json.rs:254-272 | the escape letters, and no others |
| JsonParser.Parser.ParseUnicodeEscape | src/json.rs:274-292 | one scalar, or a surrogate pair joined to one |
| JsonParser.Parser.ParseHexQuad | src/json.rs:294-316 | the number four hexadecimal digits denote |
| JsonParser.Parser.ParseNumber | src/json.rs:318-343 | no leading zero, fraction or exponent, and 128 bits |
| JsonParser.Parser.ParseArray | src/json.rs:345-365 | the items in order |
| JsonParser.Parser.ParseObject | src/json.rs:367-397 | the members by key, a repeated key refused |
| JsonParser.Parser.SkipWhitespace | src/json.rs:178-182 | the offset of the next octet that is no space |
| JsonParser.Parser.Literal | src/json.rs:208-215 | the offset moves behind the literal exactly when it is there |
| JsonParser.ToJson | src/json.rs:72-76 | the printed form, which parses back |
| JsonParser.Writer.WriteJson | src/json.rs:78-108 | appends exactly the printed form |
| JsonParser.Writer.WriteString | src/json.rs:110-129 | appends the quoted, escaped string |
| Text.DecodeEncoded | src/json.rs:217-252 | the UTF-8 octets of a scalar decode to it |
| Text.EncodeDecoded | src/json.rs:217-252 | what decodes as a scalar is its UTF-8 encoding |
| EdnsFeatures.RunKeeps | src/edns.rs:69-168 | in every run with one best level: a bad OPT means UDP, under three failures are kept above UDP, a degraded server has a deadline, and the grace period is 5 min times 2^k up to 6 h after k recoveries |
| EdnsFeatures.DegradedServerRecovers | src/edns.rs:70-93 | a server below its best level returns to it exactly from its deadline on, and is left alone before |
| EdnsFeatures.VerifiedBound | src/edns.rs:70-119 | an operation keeps the verified level at most the possible one exactly when it reports no success above it and asks with no best level below |
| EdnsFeatures.VerifiedMayExceedPossible | src/edns.rs:111-119 | a run after which the verified level is higher |
| EdnsFeatures.ApplySound | src/edns.rs:69-168 | each operation keeps what holds whatever best levels are passed |
| EdnsFeatures.ApplyRecoverable | src/edns.rs:70-163 | each operation keeps a deadline for a degraded server |
| EdnsFeatures.ApplyGrace | src/edns.rs:70-168 | a recovery doubles the grace period up to the limit, a reset starts it over, nothing else touches it |
| EdnsFeatures.ServerFeatureState.PossibleLevelNow | src/edns.rs:70-93 | fields and answer as specified |
| EdnsFeatures.ServerFeatureState.Succeeded | src/edns.rs:111-119 | fields as specified |
| EdnsFeatures.ServerFeatureState.Failed | src/edns.rs:121-137 | fields and the lower level after the third failure as specified |
| EdnsFeatures.ServerFeatureState.SawBadOpt | src/edns.rs:139-145 | fields and answer as specified |
| EdnsFeatures.ServerFeatureState.SawDoOff | src/edns.rs:147-152 | fields and answer as specified |
| EdnsFeatures.ServerFeatureState.Downgrade | src/edns.rs:154-163 | fields as specified |
| EdnsRoundTrip.PrepareThenUnprepare | src/edns.rs:219-266 | for every query without OPT and TSIG that can be prepared: preparing for plain UDP afterwards gives back its octets exactly when its names still read, and fails otherwise |
| EdnsRoundTrip.UncountedUnprepares | src/edns.rs:219-266 | no failure for queries none of whose names looks at the additional count |
| EdnsRoundTrip.HeaderPointerDoesNotUnprepare | src/edns.rs:219-266 | a query for which it fails |
| EdnsRoundTrip.PrepareTwice | src/edns.rs:219-283 | under the same condition preparing twice equals preparing once and the payload size, DO flag and options are recovered; otherwise both fail |
| EdnsRoundTrip.PrepareFits | src/edns.rs:219-266 | preparing succeeds exactly within the size and count limits |
| EdnsRoundTrip.ClientGetsPlainResponse | src/edns.rs:292-312 | with the OPT record last, a client without OPT gets the octets before it, with SERVFAIL exactly when the extended code is not zero |
| EdnsClient.ClientGetsOthers | src/edns.rs:292-312 | with the OPT record anywhere: what the client gets is valid exactly when the other names still read; then it holds the other records in order with type, class, TTL and RDATA octets; the names are read from the same octets exactly when none follows a pointer to the OPT record or behind it or looks at a header octet that changes, and then they are the same names |
| EdnsClient.ClientGetsCut | src/edns.rs:292-312 | the client gets the response without the octets of the OPT record, one additional record less and SERVFAIL exactly for an extended code; only the size limit can fail |
| EdnsClient.ScanParts | src/edns.rs:331-369 | a packet that scans with an OPT record has exactly one, behind the answer and authority records |
| EdnsClient.OthersLeft | src/edns.rs:477-486 | what is left parses exactly when the names still read, with the other records in order |
| EdnsClient.SameIffSteady | src/edns.rs:477-486 | the names are read from the same octets exactly when they are steady |
| EdnsClient.SteadyKeepsOwners | src/edns.rs:477-486 | steady names stay the names they were |
| EdnsMisread.OwnerChanges | src/edns.rs:292-312 | a response in which stripping the OPT record turns the owner `a.` into the root, and which still parses |
| EdnsMisread.OwnerStaysByChance | src/edns.rs:292-312 | a response in which an owner is read from other octets and still reads the same |
| EdnsCut.ReadingIff | src/wire/codec.rs:52-126 | with octets cut out of a packet, a name is read from the same octets exactly when it looks at none that is cut out or changes and follows no pointer to the cut or behind it |
| EdnsCut.SteadyReads | src/wire/codec.rs:52-126 | such a name reads the same and ends where its end moved |
| EdnsStrip.RecordMoves | src/wire/codec.rs:168-191 | a record beside the cut reads again exactly when its owner does, with the same fields |
| EdnsRoundTrip.OptionsRoundTrip | src/edns.rs:371-429 | every encodable option list parses back |
| EdnsRoundTrip.EncodedOptReads | src/edns.rs:397-429 | an encoded OPT record reads back with all its fields |
| EdnsRoundTrip.AppendedScans | src/edns.rs:331-369 | a packet with an appended OPT record scans, to that record, exactly when its names still read |
| EdnsRoundTrip.RemovesAppended | src/edns.rs:456-486 | removing the appended record restores the packet |
| EdnsScan.Scan | src/edns.rs:331-369 | the scanning loop computes the specified layout or error |
| EdnsScan.ReadOptions | src/edns.rs:371-395 | the loop computes the specified options or error |
| EdnsScan.BuildOpt | src/edns.rs:397-429 | the encoding loop yields a record that reads back as the one encoded |
| EdnsExchangeSafety.ExchangeSafe | src/resolver_edns.rs:21-328 | whatever server, network and concurrent exchanges do: one attempt of the budget per round, each sending the query prepared at its level; at most two feature and two transport retries; a forced level binds all later attempts; an accepted response was handed over in the last round; with validation required no round lowers the possible level or forces one down, and an accepted answer to a managed DO query has an OPT of version 0 with DO and no missing root signature |
| EdnsExchangeSafety.RoundSafe | src/resolver_edns.rs:37-326 | one round: what it sends, which retries it may ask for, and that the possible levels it saw and left do not drop with validation required |
| EdnsExchangeSafety.ChosenSafe | src/resolver_edns.rs:45-66 | the forced level if there is one, else the possible level, which does not drop with validation required |
| EdnsExchangeSafety.TransmittedSafe | src/resolver_edns.rs:70-187 | what goes on was delivered; retries stay within their limits; with validation required the state is left alone |
| EdnsExchangeSafety.OptCheckedSafe | src/resolver_edns.rs:204-258 | with validation required a response passes only with OPT version 0 and, at the DO level, DO, and the state is left alone |
| EdnsExchangeSafety.RrsigCheckedSafe | src/resolver_edns.rs:260-279 | passes only if no root signature is missing |
| EdnsExchangeSafety.JudgedSafe | src/resolver_edns.rs:189-326 | what is accepted is the response received, and proves DNSSEC where that is required; forced levels never exceed the level used |
| EdnsExchangeSafety.AppendConsistent | src/resolver_edns.rs:34-310 | a retry keeps counters, limits and forced levels in line with the log |
| EdnsExchangeSafety.AppendFinished | src/resolver_edns.rs:34-326 | so does the last attempt |
| EdnsExchangeLoop.RunExchange | src/resolver_edns.rs:21-328 | the loop on the server and the budget ends exactly as the specified exchange, so all of `ExchangeSafe` holds of it |
| EdnsExchangeLoop.RunRound | src/resolver_edns.rs:37-326 | one pass leaves server, budget, attempt and decision as specified |
| EdnsExchangeLoop.Server.ChooseLevel | src/resolver_edns.rs:45-66 | level and state as specified |
| EdnsExchangeLoop.Server.Transmit | src/resolver_edns.rs:70-187 | decision, delivered response and state as specified |
| EdnsExchangeLoop.Server.TransmitUdp | src/resolver_edns.rs:88-128 | a datagram is taken, asked for again over TCP, or downgraded for, as specified |
| EdnsExchangeLoop.Server.CheckOpt | src/resolver_edns.rs:204-258 | decision and recorded downgrade as specified |
| EdnsExchangeLoop.Server.CheckRootRrsig | src/resolver_edns.rs:260-279 | decision, remembered omission and downgrade as specified |
| EdnsExchangeLoop.Server.Check | src/resolver_edns.rs:204-279 | the OPT check, then the signature check, as specified |
| EdnsExchangeLoop.JudgeRcode | src/resolver_edns.rs:281-310 | which response codes are taken as they are, asked for again or looked at further |
| EdnsExchangeLoop.Server.Credit | src/resolver_edns.rs:312-325 | the recorded downgrade and success as specified |
| EdnsExchangeLoop.Server.Grade | src/resolver_edns.rs:281-326 | response code and credit as specified |
| EdnsExchangeLoop.Server.Judge | src/resolver_edns.rs:189-326 | decision and state as specified |
| EdnsExchangeLoop.Server.Send | src/resolver_edns.rs:70-326 | decision and state as specified |
| EdnsExchangeLoop.Budget.BeginAttempt | src/resolver_prelude.rs:61-71 | an attempt starts, and is counted, exactly when fewer than 24 were made and time is left |
| Wire.ReadNameInPlace | src/wire/codec.rs:52-126 | the loop over labels and pointers computes the specified name, end or error |
| WireScan.ValidatePacket | src/wire/packet.rs:2-20 | the section loops find the same first error as the specification |
| WireScan.MissingRootRrsig | src/wire/dnssec.rs:7-51 | the record loop computes the specified verdict or error |
| WireSignatures.RootSigned | src/wire/dnssec.rs:7-51 | no signature is missing exactly when every type that root records of the answer and authority sections need signed is covered by some root signature |
| CacheShards.Run | src/cache_x.rs:141-217 | for every sequence of operations the sharded cache gives the replies of one flat map under the same evictions; evictions follow the policy per shard, no shard exceeds max(1, limit), and `len` is the entries plus those evicted since the last flush |
| CacheCount.LenExact | src/cache_x.rs:314-319 | `len` is the number of entries exactly when no insertion since the last flush met a shard that was at its limit and not empty |
| CacheCount.LenOvercounts | src/cache_x.rs:314-319 | two insertions after which `len` is 2 with one entry |
| CacheShards.TypesShareShard | src/cache_x.rs:163-166 | all types of one owner and class share a shard |
| CacheShards.GlobalCache.Insert | src/cache_x.rs:187-217 | the flat map loses what made room and gains the entry; counters and entries drift apart by what was evicted |
| CacheShards.GlobalCache.Find | src/cache_x.rs:168-185 | the lookup of the flat map: fresh, stale or miss |
| CacheShards.GlobalCache.Flush | src/cache_x.rs:306-312 | nothing remains and the counters are zero |
| CacheShards.GlobalCache.Len | src/cache_x.rs:314-319 | the sum of the counters, never below the number of entries |
| CacheShards.GlobalCache.Snapshot | src/cache_x.rs:321-343 | each servable entry once, sorted by owner, class, type and generation |
| CacheShards.SnapshotUnique | src/cache_x.rs:321-343 | a snapshot depends on the flat map alone, not on shards or iteration order |
| CacheShards.FlatInsert | src/cache_x.rs:187-217 | changing one shard changes the flat map in that key and the evicted ones only |
| CacheShards.InsertSound | src/cache_x.rs:187-217 | an insertion keeps every key in its shard, the limit, the counters and distinct generations |
| CacheShards.InsertAccounts | src/cache_x.rs:204-216 | the counter sum minus the entries grows by the number evicted |
| Cache.Evict | src/cache_x.rs:382-405 | exactly min(budget, size) entries go; a servable one only when no dead one is left, and then the lowest generations |
| Cache.DropDead | src/cache_x.rs:382-393 | up to the budget of dead entries go, and all of them if fewer |
| Cache.OldestDropped | src/cache_x.rs:394-405 | dropping a prefix of the sorted generations drops the oldest |
| NameHash.DnsNameHash | src/cache_x.rs:37-71 | the hashing loop computes the specified hash |
| NameHash.HashIgnoresCase | src/cache_x.rs:37-71 | names that differ only in case hash alike |
| CacheKeys.OwnerToWireLower | src/cache_x.rs:408-426 | the lower-case wire name, accepted exactly for labels of 1 to 63 octets that take at most 255 with their length octets |
| CacheKeys.OwnerIsName | src/cache_x.rs:408-426 | an accepted owner is a legal name exactly when its labels take at most 254 |
| CacheKeys.LongOwnerAccepted | src/cache_x.rs:408-426 | an accepted owner of 256 octets |
| LabelNames.WireAgrees | src/cache_x.rs:408-426 | wire names are equal exactly when the label lists are, up to case |
| SingleFlight.OneLeaderPerKey | src/cache_x.rs:243-294 | under every interleaving a key has at most one registered leader |
| SingleFlight.FollowersShareOutcome | src/cache_x.rs:243-294 | a follower ends with exactly the outcome of the leader it joined and is never dropped, though the flight is removed before the send |
| SingleFlight.NoFlightRemains | src/cache_x.rs:243-294 | once all callers have finished no flight is left |
| SingleFlight.NeverStuck | src/cache_x.rs:220-294 | while a caller is unfinished some step is enabled |
| SingleFlight.RunsAreShort | src/cache_x.rs:220-294 | every run has at most five steps for each caller |
| SingleFlight.StepKeeps | src/cache_x.rs:243-294 | each atomic step keeps the protocol invariant |
| MdnsNames.CanonicalExact | src/mdns_full.rs:360-400 | exactly uncompressed names of at most 255 octets have a canonical form: themselves in lower case |
| MdnsNames.WalkersAgree | src/mdns_full.rs:257-306 | `skip_name` accepts a name exactly when `decode_name` does and every pointer on the way leads backward; both then end at the same offset, with a canonical name |
| MdnsNames.DecoderIsLaxer | src/mdns_responder.rs:1010-1052 | a name only the decoder accepts, for a pointer forward |
| MdnsNames.WireNameDecodes | src/mdns_responder.rs:1010-1052 | an uncompressed name decodes anywhere to its lower-case form |
| MdnsMessages.ValidatedParses | src/mdns_responder.rs:650-719 | after validation parsing can fail only on RDATA |
| MdnsIngress.ValidatesExactly | src/mdns_full.rs:221-255 | validation succeeds exactly when all sections parse up to RDATA and no question or owner name follows a pointer forward |
| MdnsIngress.ParsedValidates | src/mdns_responder.rs:650-719 | a packet that parses passes validation exactly when its section names point backward |
| MdnsIngress.WireNameSkips | src/mdns_full.rs:257-306 | an uncompressed name passes the validator, which stops behind it |
| MdnsIngress.ResponseValidates | src/mdns_responder.rs:848-873 | every response the responder builds passes validation |
| MdnsMessages.ResponseReadsBack | src/mdns_responder.rs:848-903 | a response parses back to its id, questions and records in order, the TTL capped at 10 exactly in legacy mode |
| MdnsMessages.FlushBitOnWire | src/mdns_responder.rs:875-903 | the flush bit is on the wire exactly when the record has it and the response is not a legacy one |
| MdnsMessages.PlainRdataExpands | src/mdns_responder.rs:1054-1078 | RDATA with canonical names expands to itself |
| MdnsWalkers.CanonicalWireName | src/mdns_full.rs:360-400 | the loop computes the specified form or error |
| MdnsWalkers.Skip | src/mdns_full.rs:257-306 | the loop computes the specified end or error |
| MdnsWalkers.Validate | src/mdns_full.rs:221-255 | the section loops find the specified error |
| MdnsWalkers.Decode | src/mdns_responder.rs:1010-1052 | the loop computes the specified name and end or error |
| MdnsWalkers.Parse | src/mdns_responder.rs:650-719 | the loops compute the specified message or error |
| MdnsWalkers.BuildResponse | src/mdns_responder.rs:848-873 | the packet built parses back to what went in |
| MdnsCache.RunAgrees | src/mdns_full.rs:423-491 | over every time-ordered run each lookup returns the records of a specification that never purges, no RDATA twice |
| MdnsCache.InsertKeeps | src/mdns_full.rs:424-470 | an insertion keeps cache and specification in agreement on every key |
| MdnsCache.LookupKeeps | src/mdns_full.rs:472-482 | a lookup returns the live records of the specification, and purging keeps agreement |
| MdnsCache.RemoveInterfaceKeeps | src/mdns_full.rs:484-487 | removing an interface keeps agreement |
| MdnsCache.FlushRule | src/mdns_full.rs:447-457 | after a cache-flush insertion every other record was received under a second before or has at most a second left |
| MdnsCache.GoodbyeRule | src/mdns_full.rs:435-443 | after a goodbye the record has at most a second left and the others are untouched |
| MdnsCache.EmptyListIff | src/mdns_full.rs:432-443 | an insertion leaves an empty list exactly when it is a goodbye and nothing live was there |
| MdnsCacheSize.AgreementStep | src/mdns_full.rs:424-499 | from any state, `is_empty` and `len` disagree after an operation exactly when it leaves only empty lists: a goodbye or lookup with nothing live and all other lists empty (for a lookup: some other list), or an interface removal that leaves only empty lists |
| MdnsCacheSize.AgreementReturns | src/mdns_full.rs:424-499 | a disagreement ends exactly with an insertion that is no goodbye, a lookup of the only key, the removal of the only interface, or a flush |
| MdnsCacheSize.RunDisagrees | src/mdns_full.rs:424-499 | after a time-ordered run they disagree exactly when some list was left empty by a goodbye and not looked up or dropped since, and no list holds a record |
| MdnsCacheSize.EmptyYetNotEmpty | src/mdns_full.rs:497-499 | one goodbye after which they disagree |
| MdnsCache.Cache.Len | src/mdns_full.rs:493-495 | the number of records in all lists, zero exactly when no list holds one |
| MdnsCache.Cache.IsEmpty | src/mdns_full.rs:497-499 | whether there is no list |
| MdnsCache.Cache.Add | src/mdns_full.rs:424-470 | the map becomes the specified one |
| MdnsCache.Cache.Find | src/mdns_full.rs:472-482 | the map and the result become the specified ones |
| MdnsCache.Cache.DropInterface | src/mdns_full.rs:484-487 | exactly the keys of other interfaces remain |
| MdnsCache.Cache.Drive | src/mdns_full.rs:423-491 | a run on the object is a run of the model |
| MdnsProbe.RunKeeps | src/mdns_full.rs:581-622 | whatever the poll times and restarts: since the last start three probes, then two announcements, then only `Established`, a quarter of a second after each probe and a second between announcements, each answer as the schedule says |
| MdnsProbe.EstablishedAfterAll | src/mdns_full.rs:591-635 | established exactly after all five messages, at least 1.75 s after the start; never more than three probes and two announcements |
| MdnsProbe.PromptPollsEstablish | src/mdns_full.rs:591-618 | polls that leave the prescribed gaps establish the name |
| MdnsProbe.PollKeeps | src/mdns_full.rs:591-618 | each poll answers what the schedule says and keeps it |
| MdnsProbe.Probe.Ask | src/mdns_full.rs:591-618 | fields and answer as specified |
| MdnsProbe.Probe.RestartAfterConflict | src/mdns_full.rs:620-622 | the state of a fresh machine |
| MdnsProbe.Drive | src/mdns_full.rs:581-622 | the answers of the object over a run, waits aside, are the messages in order |
| MdnsConflict.TieBreakDecides | src/mdns_full.rs:644-654 | equal exactly for equal multisets; otherwise one side wins and the other loses |
| MdnsConflict.TieBreakIgnoresOrder | src/mdns_full.rs:644-654 | the order of the records on either side does not matter |
| MdnsConflict.DetectConflict | src/mdns_responder.rs:721-760 | the loop over address types computes the specified verdict |
| MdnsConflict.ConflictOutsideProbing | src/mdns_responder.rs:721-760 | established or on a response: a conflict exactly when the records of some address type differ as multisets |
| MdnsConflict.ProbersDecide | src/mdns_responder.rs:721-768 | of two probing hosts never both see a conflict, and one does exactly when the records of some address type differ |
| MdnsConflict.OneProberRenames | src/mdns_responder.rs:477-491 | the same for two hosts that validate and parse each other's probe packets: one renames exactly when they probe in one family with different addresses |
| MdnsConflict.ProbeReadsBack | src/mdns_responder.rs:477-491 | a probe parses to its question and the host's records as authorities |
| MdnsConflict.ProbeValidates | src/mdns_responder.rs:477-491 | a probe passes the validation its receiver runs before parsing it |
| MdnsConflict.HostData | src/mdns_responder.rs:905-955 | a host's records of its family's type are its addresses, of the other type none |
| NssNames.EncodeExact | nss/nss_resolve_shm.c:129-169 | accepted are exactly the root and labels of 1 to 63 octets with at most one trailing dot whose wire form fits 255 octets and the buffer |
| NssNames.EncodeName | nss/nss_resolve_shm.c:129-169 | writes that wire form into the buffer and nothing outside it |
| NssResponses.EncodedExpands | nss/nss_dns_stub.c:251-320 | the encoding of a name, anywhere in a packet, expands to the name in lower case without its trailing dot and ends right behind |
| NssResponses.EncodingsAgree | nss/nss_resolve_shm.c:129-169 | two names have one encoding exactly when equal up to case and one trailing dot |
| NssResponses.ExpandedFits | nss/nss_dns_stub.c:251-320 | an expanded name is not empty, fits the buffer with its NUL, and ends in the packet behind its start |
| NssResponses.ExpandName | nss/nss_dns_stub.c:251-320 | the loop writes the specified name and NUL, or fails where the specification does; it ends by jumps left and octets left |
| NssResponses.BuildQuery | nss/nss_dns_stub.c:169-200 | header, encoded name, type and class in the buffer, or failure, as specified |
| NssResponses.ValidateResponse | nss/nss_dns_stub.c:322-341 | the check as specified, on the C string in the buffer |
| NssResponses.EchoAccepted | nss/nss_dns_stub.c:322-341 | an echoed question passes exactly for the root and names without a trailing dot |
| NssResponses.TrailingDotRefused | nss/nss_dns_stub.c:322-341 | a faithful echo that is refused |
| NssQuestions.AcceptsExactly | nss/nss_dns_stub.c:322-341 | accepted is exactly a fitting header, type and class with a question whose labels, joined by dots and cut at the first NUL, equal the name up to case |
| NssQuestions.AcceptedQuestion | nss/nss_dns_stub.c:322-341 | an accepted question has the labels of the name exactly when none of its own holds a dot or a NUL |
| NssQuestions.OtherQuestionsAccepted | nss/nss_dns_stub.c:322-341 | questions for another name that are accepted |

## Left out

- Sockets, netlink, TLS sessions, D-Bus, signals and thread scheduling: they are calls into the system.
- `src/transport.rs` and `src/tls.rs`: the transport and TLS capability of a server, and everything the network returns, are chosen freely in every round of the exchange.
- DNSSEC cryptography (`ffi/dnssec.c`, `src/dnssec.rs`) and the signatures themselves; `RootRrsigMissing` looks at types only.
- The other name walkers (`ffi/beast_wire.c`, `ffi/iouring_dns.c`, `src/hyper_resolver.rs`, `src/mdns_runtime.rs`): near copies of the modelled ones, easy members.
- `src/cache.rs`, configuration parsing, `resolv.conf` publishing, policy arithmetic and command-line handling.
- The responder's socket loop, interface scan, answer selection and known-answer suppression; `label` and `rename` of the host name are represented by the name a host probes for.
- DNS-SD record sets (`records`, `goodbye_records`) and the parsers of service types, domains and host names: registrations hold their parsed parts.
- The shared-memory reader of `nss/nss_resolve_shm.c`, and the answer loops of `nss/nss_dns_stub.c` behind the question check.
- Error message texts; which error it is, and where in a JSON text, is modelled.
- Presentation text of wire names; only the canonical octets are modelled.
- Cancellation of callers that wait for a fetch, and the atomic counters of cache statistics other than hits, misses and stale hits.
- Iteration order of hash maps is left open: eviction of dead entries and snapshots hold for every order.
- DnsSdReplay.RunKeeps: for runs of fewer than 2^64 operations, because the id counters wrap at 2^64.
- CacheShards.Run: the generation counter is unbounded; the 64-bit counter of the source is not wrapped.
- CacheShards.GlobalCache.Insert: one call at a time; the interleaving of callers within a shard lock is not modelled.
- EdnsExchangeSafety.ExchangeSafe: concurrent exchanges may change the server's feature state before the level is chosen and before the packet is sent, only in ways this exchange itself keeps to.
- EdnsExchangeLoop.Server.Transmit: records in the transport state, pooled sockets and fallback of TLS are part of what the round observes.
- MdnsConflict.OneProberRenames: for hosts with fewer than 65536 records each, because the count field holds 16 bits; of the receiving host's ingress checks only `validate_sections` is modelled, not those on hop limit, source and opcode.
- NssNames.EncodeName: the null-pointer tests of the C function have no counterpart.
