# The gateway's ownership registry, modelled and proved

The gateway keeps all its state in one redis server: who owns each DNS zone, who holds each
subdomain, which records every name has, which TCP proxy serves each domain, and which reservations
it has provisioned. This project models that state and the code that changes it, and proves what the
gateway promises about it.

## How the model is built

- `Keyspace` is redis as a value: one key space of strings and hashes. A hash without fields does not
  exist, as in redis. `Redis.Server` is the server as an object; every command is atomic, any command
  may fail, and a command that fails has no effect. The server records the store after every command
  (`trace`) and how often it failed (`faults`).
- `Records`, `RecordCodec` and `Zones` are the record container: its laws as values, its JSON form as a
  value tree, and the object that is changed in place.
- `Domains` is validation and the split of a name into the slot (label, zone) it occupies.
- `DnsSpec` says for each DNS operation what a fault-free run leaves (`After`) and which stores can be
  found after any command of a run that fails or stops anywhere (`Visits`). `DnsManager.Mgr` is the
  manager as it works, command by command with the deferred rollback, proved against both.
- `Registry` is the plain registry: three tables over well-formed domains, the shape that validation
  guarantees and that a zone inherits even where validation would refuse it as an IP address. `Layout`
  says what every key of a well laid out store holds, `Refinement` maps a store to its registry and shows
  that every operation commutes with the map, and every partial run moves the registry only as
  `Registry.Visits` allows.
- `Proxies`, `Base64`, `ReservationCache`, `CacheManager`, `Counters` and `Identities` are the other
  managers and the small checks around them.
- `Subdomains` and `Delegations` are what pairs of operations, failed ones and given-up zones come to.
- `JsonText` writes and reads the text of the ownership record; `Published` says what other programs find
  in redis, and what each operation answers to whom.
- `Gateway` puts all operations on one store and proves the theorems about whole runs: sequences of
  operations, each of which may have failed or been interrupted between two commands.

Operations are sequential; nothing is claimed about two callers at once. `AddSubdomain`'s deferred
rollback sees the error of the function's own variable: the reads and the write after the reservation
assign it, so both trigger the rollback, and a failed reservation registers none.

Where comments and code disagree the code is modelled: removing a delegation deletes the key `domain`,
which never exists, so the zone's records outlive it (`Subdomains.GivingUpKeepsRecords`,
`Delegations.GivenUpZoneHasRecords`, `Delegations.DelegationIsForever`); what the comment intends is
`Subdomains.IntendedGiveUpEmptiesZone`.

## Model

| member | source | states |
|---|---|---|
| Domains.SplitRebuilds | dns/coredns.go:439-445 | with three labels or more, label, dot and zone rebuild the name and the label has no dot; below that the label is empty and the zone is the name |
| Domains.SplitCollision | dns/coredns.go:439-445 | two different strings have one slot exactly when one is the other, of two labels, after a leading dot |
| Domains.ValidExactly | dns/coredns.go:462-485 | a domain passes validation exactly when it has two labels or more, each of them fits, all but the dots is at most 255 long and it is no IP address |
| Domains.SlotsAreDistinct | dns/coredns.go:439-485 | on well-formed domains, so on all validated ones, the slot determines the domain |
| Domains.ZoneIsWellFormed | dns/coredns.go:439-485 | the zone of a well-formed domain is one itself |
| Domains.ZoneIsValidIff | dns/coredns.go:439-485 | the zone of a validated domain passes validation itself exactly when it is no IP address |
| Domains.AddressAsZone | dns/coredns.go:439-485 | where it does not: any label in front of an address of ordinary length is validated, the address is not |
| Domains.LabelSlot | dns/coredns.go:383-404 | every label in front of a well-formed zone is the slot of a well-formed domain of its own; for the label of the ownership record the two share one slot |
| Domains.LabelledIsValidIff | dns/coredns.go:462-485 | which labels make a validated domain in front of a validated zone: one to 63 letters, digits, dashes and underscores with no dash first, and the whole neither too long nor an address |
| Domains.OctetExactly | dns/coredns.go:462-465 | a printed number is a part of an address exactly up to 255 |
| Records.RemoveAfterAdd | dns/dns_zone.go:71-103 | removing a record just added is removing it from what was there before, and leaves none equal to it |
| Records.RemoveIsIdentityIff | dns/dns_zone.go:80-103 | removing changes nothing exactly when the type is missing, or its list is not empty and lacks the record |
| Records.RemoveAllIsMinus | dns/coredns.go:343-346 | removing addresses one by one takes away exactly the set they form and drops the types it empties; order and repetition do not matter |
| Records.AddAllLists | dns/coredns.go:286-289 | adding addresses appends, type by type, the records of that type in order |
| Records.AddedAddresses | dns/coredns.go:286-289 | an IPv4 address becomes an A record and an IPv6 address an AAAA record, for an hour, each under its own type; an addition adds just these |
| Records.RemovedAddresses | dns/coredns.go:343-346 | a removal takes just these |
| Records.RemoveAllAfterAddAll | dns/coredns.go:286-346 | what was added to an empty container is all removed exactly when every added address is among the removed ones |
| Records.AddAllKeepsTyping | dns/dns_zone.go:71-77 | adding keeps every record under its own type and no list empty |
| RecordCodec.RecordRoundTripIff | dns/dns_zone.go:127-158 | a record survives encoding and decoding under a type tag exactly when it is filed there properly |
| RecordCodec.RoundTripIff | dns/dns_zone.go:117-161 | decoding an encoded container gives it back without its empty lists exactly when every record is filed under its own type |
| RecordCodec.RoundTrip | dns/dns_zone.go:117-161 | with no empty list the round trip is the identity |
| RecordCodec.DecodedIsWellFiled | dns/dns_zone.go:127-158 | whatever decodes has each record under its own type and no empty list |
| RecordCodec.DecodesExactly | dns/dns_zone.go:122-158 | a container decodes exactly when each type has a list, or null, of records that all decode |
| RecordCodec.FieldsRead | dns/dns_zone.go:21-57 | the fields a record is read from, type by type |
| RecordCodec.ZeroValues | dns/dns_zone.go:17-52 | missing and null fields, null records and null lists decode to zero values |
| Zones.Zone.Add | dns/dns_zone.go:71-77 | the record goes to the end of its type's list and nothing else changes |
| Zones.Zone.Remove | dns/dns_zone.go:80-103 | every equal record goes, the type with its last one, and nothing else changes |
| Zones.Compact | dns/dns_zone.go:90-95 | the loop that writes into the buffer it reads leaves the order-preserving filter in front |
| Zones.Zone.IsEmpty | dns/dns_zone.go:107-114 | true exactly when no type has a record |
| Zones.Zone.UnmarshalJSON | dns/dns_zone.go:117-161 | fails exactly when the document does not decode; otherwise appends the decoded lists, whatever order the types are visited in |
| Redis.Server.HSet | dns/coredns.go:126-127 | sets one field, or fails without effect |
| Redis.Server.HDel | dns/coredns.go:184-186 | deletes one field, or fails without effect |
| DnsSpec.AfterIsVisited | dns/coredns.go:229-437 | the fault-free outcome of every operation is one of the stores it may leave |
| DnsManager.Mgr.GetZoneOwner | dns/coredns.go:97-115 | the decoded owner, none for a missing field, or an error |
| DnsManager.Mgr.GetZoneRecords | dns/coredns.go:130-152 | the decoded records of a slot, none for a missing one, or an error |
| DnsManager.Mgr.AddSubdomain | dns/coredns.go:229-296 | success or no fault is the specified outcome; after an error, what is left is what was found, or, only if the checks had passed, the reservation gone, or still there if the rollback failed too; the store left and every store on the way are ones the specification lists |
| DnsManager.Mgr.RemoveSubdomain | dns/coredns.go:299-358 | success or no fault is the specified outcome; an error leaves the store or, only if the checks had passed, the slot alone deleted; the store left and every store on the way are listed |
| DnsManager.Mgr.AddDomainDelegate | dns/coredns.go:361-381 | success or no fault is the specified outcome; an error leaves the store or, only if it was not refused, the zone claimed; the store left and every store on the way are listed |
| DnsManager.Mgr.SetZoneOwnerTXTRecord | dns/coredns.go:383-405 | replaces the ownership slot by one text record |
| DnsManager.Mgr.RemoveDomainDelegate | dns/coredns.go:408-437 | success or no fault is the specified outcome; the store left, after any fault, and every store on the way are listed, so a refused call changes nothing |
| DnsManager.Mgr.Cleanup | dns/coredns.go:32-45 | without faults the clean store; with faults, reported or not, some blank fields of zone hashes gone and nothing else; a failed listing changes nothing |
| DnsManager.Mgr.CleanUp | dns/coredns.go:47-71 | only blank fields of the one hash go, and without faults all of them |
| DnsManager.Mgr.ListCorednsZones | dns/coredns.go:73-95 | compacting the listed keys in place leaves exactly the keys with a final dot that hold a hash, each once |
| Cleaning.CleanIsIdempotent | dns/coredns.go:32-71 | a second cleanup changes nothing |
| Cleaning.CleanExactly | dns/coredns.go:32-71 | a field goes exactly when its hash has a key with a final dot and its own text is empty or `{}` |
| Subdomains.CleanupKeepsReads | dns/coredns.go:32-95 | no read of any slot can tell whether a cleanup ran, whole or in part; keys without the dot or holding strings are untouched |
| Subdomains.CleanSlotsHoldRecords | dns/coredns.go:47-71 | every slot left by a cleanup holds at least one record |
| Layout.NoDomainIsAKey | dns/coredns.go:431-433 | no key of a well laid out store is a well-formed domain, so deleting a domain as a key hits nothing |
| Layout.ReadsSucceed | dns/coredns.go:97-225 | on a well laid out store no read fails, and records read have the promised types and lifetimes |
| Layout.AddressesFit | dns/coredns.go:286-289 | adding addresses keeps a slot to A and AAAA records of an hour, text only in the ownership slot |
| Layout.RemovalFits | dns/coredns.go:343-346 | removing addresses keeps it so |
| Layout.SlotNamesMatchDomains | dns/coredns.go:439-485 | a name and a well-formed zone are the slot of a well-formed domain exactly when the name is a label, or empty with a zone of two labels |
| Refinement.SlotsApart | dns/coredns.go:130-189 | different well-formed domains occupy different slots, ownership slots included |
| Refinement.SlotWriteAbs | dns/coredns.go:154-189 | a write to one slot changes the records of one domain and nothing else in the registry |
| Refinement.ReserveAbs | dns/coredns.go:191-201 | storing a holder changes one row of the registry |
| Refinement.ReleaseAbs | dns/coredns.go:218-225 | deleting a holder clears one row |
| Refinement.ClaimAbs | dns/coredns.go:117-128 | storing a zone's owner changes one row |
| Refinement.GiveUpAbs | dns/coredns.go:425-436 | removing a delegation clears the zone's owner and nothing else |
| Refinement.AnnounceRefines | dns/coredns.go:375-405 | a delegation sets the zone's owner and the records of its ownership domain |
| Refinement.CleanReads | dns/coredns.go:47-71 | a partial cleanup is invisible to every read of records |
| Refinement.VisitsRefine | dns/coredns.go:229-437 | wherever an operation stops and whatever fails, the store stays well laid out and its registry is one the abstract operation may leave |
| Refinement.AfterCommutes | dns/coredns.go:229-437 | without faults every operation commutes with the abstraction, errors included |
| Registry.RemovalRows | dns/coredns.go:314-357 | an abstract removal: exactly the given addresses go, and the holder exactly when that empties the records |
| Registry.ReservationKept | dns/coredns.go:251-332 | no step but the listed kinds, of its holder or of the zone's owner, touches a reservation in an owned zone, or its records |
| Registry.TextStays | dns/coredns.go:286-405 | no partial step of any operation takes the text records of a domain away |
| Registry.CoverKept | dns/coredns.go:268-357 | records in a gateway's zone keep a holder through every partial step |
| Registry.StuckForever | dns/coredns.go:257-341 | a reservation without records survives every partial step but the gateway giving up the zone |
| Registry.OwnershipKept | dns/coredns.go:371-436 | a zone's owner changes only when that owner gives it up |
| Subdomains.AddThenRemoveRestoresIff | dns/coredns.go:229-358 | in a zone of the gateway or of the user, adding a fresh subdomain and removing addresses restores the whole store exactly when some address was added and all of them are removed |
| Published.AdditionAnswers | dns/coredns.go:229-266 | who may add to a subdomain, and which error everybody else gets |
| Published.RemovalAnswers | dns/coredns.go:299-332 | who may remove from a subdomain: its holder, and anybody where it has none or its zone has no owner |
| Published.DelegationAnswers | dns/coredns.go:361-420 | who may delegate a zone or give it up: its owner, and anybody where it has none |
| Published.AdditionExactly | dns/coredns.go:229-296 | after an addition the user holds the subdomain, and what is read from its slot is what was there and an A or AAAA record, for an hour, for each address; nothing else changes |
| Published.RemovalTakes | dns/coredns.go:334-358 | a removal in an owned zone takes just the records of its addresses |
| Published.AdditionInRedis | dns/coredns.go:154-201 | the keys, fields and documents an addition leaves: the user under the domain, and each address, with its lifetime, in the list of its type under the label in the hash of the zone; in an empty slot no other |
| Published.DelegationPublishes | dns/coredns.go:383-405 | what is read from the ownership slot after a delegation is one text record of ten minutes, whose text reads back by field name as the gateway and the owner, whatever their characters |
| Published.DelegationInRedis | dns/coredns.go:117-128 | the keys, fields and documents a delegation leaves: the owner under the zone, and the text record in the hash of the zone |
| Published.FinalDotIsIgnored | dns/coredns.go:97-144 | owner and records of a zone are read the same under its name with the final dot |
| JsonText.TwoFieldsRead | dns/coredns.go:388-398 | two fields written are two fields read, escapes undone, whatever their texts |
| JsonText.BodyIsClean | dns/coredns.go:398 | no control character and none of the characters the encoder escapes for HTML is written as it is |
| Subdomains.RemovalExactly | dns/coredns.go:299-358 | a successful removal in terms of reads: records minus the set of addresses, holder gone exactly when that emptied them; in an unowned zone only the holder goes |
| Subdomains.RollbackRestoresIff | dns/coredns.go:273-279 | deleting the reservation restores the store exactly when none was stored before |
| Subdomains.FailedAddIsAtomic | dns/coredns.go:242-293 | after any addition that reports an error, with whatever faults, no records and no other reservation differ; a refused one changes nothing; nor does one whose rollback worked where no reservation was stored, as always in a gateway's zone |
| Subdomains.GivingUpKeepsRecords | dns/coredns.go:408-437 | removing a delegation changes only the zone's owner; all records stay readable |
| Subdomains.RecordsGoneIff | dns/coredns.go:430-433 | the zone's records are gone after its removal exactly when there were none before |
| Delegations.GivenUpZoneHasRecords | dns/coredns.go:361-437 | from the empty store, a delegation and its removal both succeed and leave the ownership record in a zone of nobody |
| Delegations.DelegationIsForever | dns/coredns.go:361-437 | once a delegation has succeeded, its zone's records hash never goes, through every run of any operations: the ownership slot always holds a text record |
| Delegations.NextOwnerInherits | dns/coredns.go:361-437 | a removal and a second user's delegation leave every holder and all records of the first, the ownership record excepted |
| Delegations.InheritedSubdomain | dns/coredns.go:299-437 | this is reachable: the new owner finds the former owner's subdomain reserved, with its records, and may not remove it |
| Delegations.FailedAdditionUncovers | dns/coredns.go:251-293 | in a delegated zone one failed second addition whose rollback works drops the holder and keeps the records, which anybody can then remove |
| Delegations.HolderCanBeLost | dns/coredns.go:251-293 | this is reachable, for every label of every delegated zone |
| Subdomains.IntendedGiveUpEmptiesZone | dns/coredns.go:430-436 | with the records key in place of the domain the zone would be emptied and nothing else changed |
| Gateway.StepRefines | dns/coredns.go:229-437 | a step of any manager keeps the layout; proxy and cache steps leave the registry alone |
| Gateway.ReachableIsWellLaid | dns/coredns.go:117-225 | every store reachable from the empty one is well laid out |
| Gateway.ReservationIsExclusive | dns/coredns.go:251-332 | through every run without such a step a reservation in an owned zone, the gateway's or a delegated one, keeps its holder and its records |
| Gateway.OthersCannotTouch | dns/coredns.go:251-332 | so through every run of operations by users other than the holder and the zone's owner |
| Gateway.RecordsAreCovered | dns/coredns.go:268-357 | through every run, after every command, each domain with records in a gateway's zone has a holder, the ownership slot excepted |
| Gateway.CoveredAgrees | dns/coredns.go:97-225 | this cover, read from redis, is the one the abstract registry has |
| Gateway.FirstClaimCovers | dns/coredns.go:361-381 | a claim by the gateway that changes anything, finished or stopped between its two writes, establishes the cover exactly when every slot of the zone was covered before |
| Gateway.AnyLabelCanBeReserved | dns/coredns.go:229-296 | such reservations are reachable: in a zone the gateway or the user has claimed, the user can take every label that makes a validated domain, but the ownership label; with no address, in a gateway's zone, the reservation is stuck at once |
| Gateway.StuckReservation | dns/coredns.go:257-341 | through every run such a reservation stays, all additions are refused and the holder's removal does nothing |
| Gateway.StuckMeans | dns/coredns.go:257-341 | a reservation without records refuses every addition, and its holder's removal changes nothing |
| Gateway.ZoneStaysOwned | dns/coredns.go:371-436 | through every run a zone keeps its owner until that owner gives it up |
| Gateway.DnsStepLeavesOthers | dns/coredns.go:141-143 | DNS steps leave proxy keys and the cache untouched, a proxy key that ends in a dot included |
| Base64.RoundTrip | proxy/tcp_router.go:157-169 | decoding an encoding gives the bytes back, for all three paddings |
| Base64.SymbolsOfTheStandard | proxy/tcp_router.go:157-159 | the symbols are those of table 1 of RFC 4648, in order |
| Base64.BitsInOrder | proxy/tcp_router.go:157-159 | four characters stand for the 24 bits of three bytes, most significant first |
| Base64.LineBreaksDoNotMatter | proxy/tcp_router.go:169 | the decoder does not see line breaks |
| Proxies.ValkyrieRoundTrip | proxy/tcp_router.go:146-175 | decoding an encoded service gives it back for every key and service |
| Proxies.AdditionOwns | proxy/tcp_router.go:60-128 | an allowed addition hands the domain to its user: from then on it is free for that user only |
| Proxies.AdditionStores | proxy/tcp_router.go:70-118 | an allowed addition stores the service asked for, field by field: address and both ports, or the secret, and the user |
| Proxies.StoredDocument | proxy/tcp_router.go:146-162 | the document stored has the key it is stored under, and the service in base 64 |
| Proxies.AllowedExactly | proxy/tcp_router.go:37-55 | anybody may change a domain where nothing is stored, else just the user of what is stored; what cannot be read stays |
| Proxies.RemovalFrees | proxy/tcp_router.go:89-144 | an allowed removal leaves nothing under the key, and everything else |
| Proxies.ServiceKept | proxy/tcp_router.go:37-144 | an operation of another user, or on another domain, leaves a service as it is |
| Proxies.AddThenRemove | proxy/tcp_router.go:60-144 | the same user's removal after an addition to a free domain restores the store; any other user's is refused |
| Proxies.DistinctDomainsCommute | proxy/tcp_router.go:33-144 | operations on different domains commute, errors included |
| Proxies.Mgr.CanUseDomain | proxy/tcp_router.go:37-55 | free or owned by the user, read through the encoded value |
| Proxies.Mgr.AddProxy | proxy/tcp_router.go:60-86 | success or no fault is the specified outcome, an error leaves the store as it was |
| Proxies.Mgr.RemoveProxy | proxy/tcp_router.go:89-102 | the same for removal |
| Proxies.Mgr.AddReverseProxy | proxy/tcp_router.go:105-128 | the same for a reverse proxy |
| Proxies.Mgr.RemoveReverseProxy | proxy/tcp_router.go:131-144 | the same for its removal |
| Gateway.ServiceStaysOwned | proxy/tcp_router.go:33-144 | through every run of the gateway a service is changed only by its own user |
| ReservationCache.ClearCounts | cache/cache.go:62-87 | clearing leaves the counts of the other kinds and none of the cleared ones |
| ReservationCache.LookupExactly | cache/cache.go:179-207 | what is found under an id: the cached reservation, field by field but for its source, exactly when its version is 1.0.0 or before |
| ReservationCache.PutThenLookup | cache/cache.go:90-207 | a reservation that was cached is found as it was, but for its source, and the others as before |
| ReservationCache.DropThenLookup | cache/cache.go:112-207 | a reservation that was dropped is not found, and the others as before |
| ReservationCache.ClearKeepsAgreement | cmd/tfgateway/main.go:205-208 | clearing kinds that are not counted keeps counters and cache in agreement |
| ReservationCache.PutKeepsAgreement | cache/cache.go:90-109 | caching a new reservation and counting it keeps the agreement |
| ReservationCache.DropKeepsAgreement | cache/cache.go:112-121 | dropping a reservation and counting it off keeps the agreement |
| ReservationCache.SyncFromZero | cmd/tfgateway/main.go:137-141 | a sync from zero counters establishes the agreement |
| ReservationCache.ReportedWorkloads | counters.go:26-33 | where they agree, the reported workloads are the cached counts modulo 65536 |
| CacheManager.Cache.Get | cache/cache.go:179-207 | the cached reservation of a known schema, marked as cached, or an error |
| CacheManager.Cache.Sync | cache/cache.go:37-59 | moves every counter by the number of cached reservations of its kind, in whatever order they are listed |
| CacheManager.Cache.ClearByType | cache/cache.go:62-87 | leaves exactly the reservations outside the kinds; a failed run leaves those and some of the others |
| CacheManager.Cache.GetExpired | cache/cache.go:125-151 | the expired reservations, one for each id that has one, in some order of the ids |
| CacheManager.ExpiredListed | cache/cache.go:125-151 | such a list has every expired reservation as often as it is cached, and nothing else |
| CacheManager.ExpiredExactly | cache/cache.go:125-151 | a cached reservation is listed exactly when it has expired, as it was cached but for its source |
| Counters.Counters.CurrentWorkloads | counters.go:26-33 | the four counters, each narrowed to 16 bits |
| Counters.Counters.Increment | counters.go:43-57 | one more, modulo the word, on the counter of the kind, and no other |
| Counters.Counters.Decrement | counters.go:60-74 | one fewer, modulo the word, on the counter of the kind, and no other |
| Counters.IncrementThenDecrement | counters.go:43-74 | counting a workload and taking it away restores every counter, wrap-around included |
| Counters.LowBits | counters.go:26-33 | narrowing a wrapped count gives the low 16 bits of the true count |
| Identities.PrintedIDInjective | provision.go:210 | different pairs of integers print to different ids, negative ones included |
| Identities.PrintedIDReads | provision.go:210 | a printed id reads back, at one dash only, as the id and then the workload |
| Identities.PrintedUserReads | provision.go:211 | a printed user reads back as its number |
| Identities.SharedIDIff | provision.go:210-226 | exactly when two workloads get one reservation id |
| Identities.SecretNamesOneUser | reserse_proxy.go:21-35 | no secret passes validation for two different printed users |
| Identities.ValidateExactly | reserse_proxy.go:21-35 | what passes is a domain, and a secret made of the user, a colon and any text; a missing domain is reported before a missing secret |

## Left out

- Redis connections, pooling and the parsing of its address: only the commands' effects are modelled.
- Concurrent callers: a check and the write it guards are separate commands, and the engine that calls the managers is elsewhere.
- JSON text: except for the ownership record's text, documents are value trees, so letter case of field names, escapes and duplicate fields do not appear; in a well laid out store no document is read as plain text or the reverse, and such a read is an error here.
- Proxies.ValkyrieRoundTrip: the JSON text of a service is a parameter; of it only that decoding undoes encoding is assumed.
- Domains.IsDNSName: the library is not part of this repository; its expression, its length limit and its refusal of IP addresses are written out here, and an address is four decimal parts up to 255, leading zeros allowed, as Go 1.14 parses them.
- Domains.WellFormed: tables and layout range over this shape, which every validated domain and every zone of one has; so theorems about all domains cover some names that validation refuses.
- `net.IP`: an address is its family and its text; an address that did not parse is a V6 with the text that prints for it.
- Zones.Zone: a slice is a value, except in the loop of `Remove`, so spare capacity and sharing between slices do not appear.
- DnsSpec.RecordsKey: the source panics on an empty zone name; validated domains never lead there.
- The types of reservations, the expiry rule and the 64-bit counters come from other repositories: kinds are an enumeration, expiry is a parameter, counters wrap around.
- The cache's locks and its `Exists`, `NetworkExists` and `Close`: nothing to state about one caller.
- The reservation cache on the file system, which the program does not use.
- WireGuard peers, address derivation, decryption, the explorer, feedback, uptime and the command line.
- The converters of payloads and the wrappers that hand them to the managers: plumbing.
- CoreDNS, the TCP router and everything archived.
