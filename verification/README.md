# FocusGuard, verified

A Dafny model of the core of FocusGuard, a network-wide distraction blocker: the DNS
codec and resolver cache, the locked focus session with its policy, persistence and
sinkhole, the rule index and the domain normalizer, the flow table and the packet
monitor, and the newline framing of the event streams. `dafny verify dfyconfig.toml`
checks all of it.

How the files hang together:

- `Sequences`, `Text`, `Wrappers`: splitting, joining, stripping, character classes, results.
- `DnsNames`, `DnsMessage`, `DnsRoundTrip`: names with compression pointers, messages, and
  what survives serializing and parsing.
- `DnsResolver`, `DnsServer`: the TTL cache over whole histories, and the reply to a query.
- `Normalizer`, `Sinkhole`, `Bypass`: canonical domains, the reversed-label index, and the
  classifiers of VPN, DoH and service names.
- `Registry`: the shipped tables, written label by label, and that the sinkhole enforces them.
- `TimeGuard`, `Session`, `Policy`, `PolicyEngine`: durations and end times, the session, the
  commands as functions of the whole engine state, and the engine as objects that implement them.
- `PolicyRuns`, `PolicyEffects`: theorems over all runs, and what each command achieves.
- `Flows`, `FlowTable`, `PacketParser`, `Monitor`: flow keys and eviction, conservation and what
  flows count, frame parsing, and the interleavings of the monitor's critical sections.
- `Framing`: the streaming loop of the client.

Objects that the program updates in place are classes here (`DNSResolver`, `DomainSinkhole`,
`SessionManager`, `StateManager`, `PolicyEngine`, `PacketFlow`, `FlowTracker`,
`PacketMonitorEngine`); each method is proved against a function of the old state, and the
theorems are about those functions. Exceptions are results, clock readings are parameters,
one per reading, and may go backwards unless a lemma says otherwise.

What the proofs showed about the code, where it differs from what its documentation suggests:

- A name survives the wire exactly if its labels have 1 to 191 lower-case ASCII characters.
  Labels of 64 to 191 characters, which the RFC forbids, do survive; the root name and labels
  from 192 on do not (`DnsRoundTrip.NameRoundTrip`). A message with a root name survives only if
  everything from there on is zeros (`DnsRoundTrip.MessageRoundTrip`), so a response with an OPT
  record is not what the cache gives back (`DnsResolver.HitIsStoredMessage`).
- The label expression of the normalizer accepts a final newline, so "a.com\n" is valid but not
  a fixpoint (`Normalizer.NormalizeFixpoint`). Normalizing can even return such a domain, for input
  with characters that the IDNA encoder deletes, and then it is not idempotent
  (`Normalizer.NormalizeIdempotent`, `Normalizer.SoftHyphenLeavesNewline`).
- A link without scheme that has a path and carries another link, such as
  `youtube.com/redirect?q=https://example.com`, is refused (`Normalizer.LinkInPathIsRefused`); and of
  `https://a.com@b.com` the user `a.com` is kept, not the host (`Normalizer.UrlNormalizes`).
- The addresses in the DoH table are classified but never blocked; every other tidy, non-essential
  name that is classified is (`Registry.ShippedEndpointsAreBlocked`).
- Removing a domain leaves its companions behind (`PolicyRuns.RemoveAfterAdd`).
- A streamed line that is JSON but no object ends the stream (`Framing.Stream`).
- The sinkhole enforces in every reachable state exactly what is on disk, which is more than the
  configuration when a guard has noticed an expiry and nothing has been saved since
  (`PolicyRuns.ExecKeepsCoherence`); a restart with the clock set back then locks the session
  again (`PolicyRuns.UnsavedExpiryRelocks`).
- The guard of the mutations reads the clock twice and can pass while the session stays locked,
  exactly if the clock is set back in between (`Session.PassesWhileLocked`).
- An ISO end time in the past is reported as unparseable, because the error about the past is
  caught by the handler around it (focusguard/core/time_guard.py:94-98).
- Without an Ethernet header, IPv6 datagrams are never parsed (`PacketParser.BareIpv6IsDropped`).

## Model

| member | source | states |
|---|---|---|
| DnsNames.ReadName | focusguard/dns/protocol.py:146-186 | the loop terminates on every byte string and returns exactly the declarative reading of the name at the offset |
| DnsNames.PointerReads | focusguard/dns/protocol.py:158-171 | a compression pointer, told by its two bytes alone: the name is the one at the 14-bit offset, and ends behind the two bytes |
| DnsNames.NameAtExact | focusguard/dns/protocol.py:146-186 | a name and an end are returned if and only if a finite, well-formed written form with these labels and this end stands at the offset |
| DnsNames.LoopExact | focusguard/dns/protocol.py:163-164 | "loop detected" is raised exactly when the bytes spell no finite form, malformed ones included |
| DnsNames.FormUnique | focusguard/dns/protocol.py:152-182 | the bytes at an offset spell at most one form |
| DnsNames.EndIsLocal | focusguard/dns/protocol.py:167-184 | the end of a name depends only on the bytes up to its first pointer |
| DnsNames.NameAtBounds | focusguard/dns/protocol.py:146-186 | a name that is read uses at least one byte and ends inside the packet |
| DnsMessage.Parse | focusguard/dns/protocol.py:89-143 | terminates and reads in range on every byte string; the result is the header and the four sections read one behind the other, or an error |
| DnsMessage.ReadRecord | focusguard/dns/protocol.py:189-199 | one record: name, type, class, TTL and as many RDATA bytes as announced |
| DnsMessage.ReadQuestions | focusguard/dns/protocol.py:119-126 | the question loop reads the announced number of questions in order, or fails like the first bad one |
| DnsMessage.ReadRecords | focusguard/dns/protocol.py:128-141 | each record loop reads the announced number of records in order, or fails like the first bad one |
| DnsMessage.ParsedSize | focusguard/dns/protocol.py:89-199 | a packet that parses has at least 12 bytes, 5 per question and 11 per record, however names are compressed |
| DnsMessage.ToBytes | focusguard/dns/protocol.py:201-238 | serializing succeeds exactly for messages whose fields, counts and labels fit the wire, and yields header and sections in order |
| DnsMessage.EncodeName | focusguard/dns/protocol.py:42-46 | a name is written label by label, and refused exactly if a label is not ASCII or longer than 255 |
| DnsMessage.EncodeQuestion | focusguard/dns/protocol.py:40-48 | when a question can be written, and its bytes |
| DnsMessage.EncodeRecord | focusguard/dns/protocol.py:59-69 | when a record can be written, and its bytes |
| DnsMessage.EncodeRecords | focusguard/dns/protocol.py:229-236 | the records of a section are written one behind the other |
| DnsRoundTrip.NameRoundTrip | focusguard/dns/protocol.py:42-46 | in any surroundings, a written name reads back as itself and ends right behind it if and only if it is canonical: no outer dots, labels of 1 to 191 lower-case ASCII characters |
| DnsRoundTrip.ReadBackIsCanonical | focusguard/dns/protocol.py:152-186 | even if the end is wrong, only a canonical name or the root ever reads back as itself |
| DnsRoundTrip.CompressedName | focusguard/dns/protocol.py:152-186 | labels followed by a pointer read as those labels in front of the name at the offset |
| DnsRoundTrip.CompressionIsInvisible | focusguard/dns/protocol.py:152-186 | a canonical name whose last labels are replaced by a pointer to where they are written reads as the same name |
| DnsRoundTrip.HeaderRoundTrip | focusguard/dns/protocol.py:96-103 | the flag word gives the header fields back if and only if each fits its bits |
| DnsRoundTrip.FieldsUnpack | focusguard/dns/protocol.py:203-212 | shifting and masking the joined flag word returns each of the eight fields |
| DnsRoundTrip.HeaderLayout | focusguard/dns/protocol.py:93-117 | the parsed header by its twelve bytes: id, each flag at its bit, and the sizes of the sections |
| DnsRoundTrip.QuestionLayout | focusguard/dns/protocol.py:119-126 | a question by its bytes: name, two bytes of type, two of class |
| DnsRoundTrip.RecordLayout | focusguard/dns/protocol.py:189-199 | a record by its bytes: name, type, class, four bytes of lifetime, length and data |
| DnsRoundTrip.ItemsInOrder | focusguard/dns/protocol.py:119-143 | questions, answers, authorities and additional records lie behind the header in this order, each where the one before ended |
| DnsRoundTrip.QuestionsReadAsItems | focusguard/dns/protocol.py:119-126 | the question loop reads given questions exactly if they are read one by one, each where the one before ended |
| DnsRoundTrip.RecordsReadAsItems | focusguard/dns/protocol.py:128-141 | the same for a record loop |
| DnsRoundTrip.CanonicalItemRead | focusguard/dns/protocol.py:189-199 | a written question or record with a canonical name reads back as itself and to the byte |
| DnsRoundTrip.RootItemRead | focusguard/dns/protocol.py:61-66 | one with the root name reads back as itself only if all its bytes are zeros, and then leaves the parser one byte behind |
| DnsRoundTrip.ItemsRoundTrip | focusguard/dns/protocol.py:119-141 | written questions and records read back exactly if their names are canonical up to some item, from which on there are only all-zero root items |
| DnsRoundTrip.RoundTrips | focusguard/dns/protocol.py:89-143 | parsing undoes serializing for every message with in-range flags and canonical names |
| DnsRoundTrip.MessageRoundTrip | focusguard/dns/protocol.py:201-238 | for every serializable message, parsing undoes serializing exactly if the flags are in range and the items survive in this sense |
| DnsRoundTrip.TypedRoundTrip | focusguard/dns/protocol.py:201-238 | for messages without type 0: exactly if the flags are in range and every name is canonical, so no message with an OPT record survives |
| DnsRoundTrip.ParsedReencodes | focusguard/dns/protocol.py:89-143 | a parsed message can be serialized under any 16-bit id and parses back to itself exactly if its items survive; without type 0, exactly if its names are canonical |
| DnsRoundTrip.RootNameIsShifted | focusguard/dns/protocol.py:61-66 | the exception: a root question comes back with its type shifted by a byte |
| DnsRoundTrip.LongLabelLoops | focusguard/dns/protocol.py:159-171 | the exception: a label of 192 bytes is written but read as a compression pointer |
| DnsResolver.DNSResolver.GetCachedResponse | focusguard/dns/resolver.py:48-65 | the answer and the cache after a lookup, with the deletion of an expired entry |
| DnsResolver.DNSResolver.StoreCache | focusguard/dns/resolver.py:67-87 | a response is cached if it parses and has answers, for max(10, min(smallest TTL, 3600)) seconds |
| DnsResolver.DNSResolver.Resolve | focusguard/dns/resolver.py:89-118 | cache first, then the first usable upstream reply, else a SERVFAIL; what is cached |
| DnsResolver.MinTtl | focusguard/dns/resolver.py:78 | the least TTL of the answers: attained, and below all others |
| DnsResolver.LifetimeExact | focusguard/dns/resolver.py:67-87 | a response is cacheable exactly if it parses and has answers, and lives between 10 and 3600 seconds, and between these as long as its shortest-lived answer |
| DnsResolver.FirstReplyOf | focusguard/dns/resolver.py:100-113 | the reply used is that of the first upstream that neither failed nor said nothing |
| DnsResolver.NoReplyExact | focusguard/dns/resolver.py:115-118 | there is none exactly if all upstreams failed or said nothing |
| DnsResolver.CacheRefinesHistory | focusguard/dns/resolver.py:42-87 | after any run of stores and lookups under a monotonic clock a lookup answers exactly what the history promises: the latest cacheable response to the same name, in any case, and type, while it is younger than its lifetime |
| DnsResolver.HitWasStored | focusguard/dns/resolver.py:42-65 | nothing is ever answered that was not stored for the same name and the same type |
| DnsResolver.LookupIgnoresCase | focusguard/dns/resolver.py:42-46 | the case of the name makes no difference |
| DnsResolver.LookupsAreUnobservable | focusguard/dns/resolver.py:56-65 | lookups and their lazy deletions cannot be observed by later lookups |
| DnsResolver.HitIsStoredMessage | focusguard/dns/resolver.py:58-62 | a fresh entry is answered with the stored message, only its id replaced, exactly if its items survive being written again; without type 0, exactly if its names are canonical |
| DnsResolver.ClockSetBackLosesEntry | focusguard/dns/resolver.py:63-64 | the monotonic clock is needed: set back, it exposes a deletion |
| Normalizer.NormalizeDomain | focusguard/core/normalizer.py:168-208 | the steps of the normalizer, error cases included |
| Normalizer.ValidateDomain | focusguard/core/normalizer.py:211-236 | the loop accepts exactly the valid domains |
| Normalizer.NormalizedIsValid | focusguard/core/normalizer.py:200-208 | every result is a valid domain; only for input that is not ASCII can it end in a newline |
| Normalizer.NormalizeFixpoint | focusguard/core/normalizer.py:168-208 | a valid domain normalizes to itself if and only if it does not end in a newline |
| Normalizer.NormalizeIdempotent | focusguard/core/normalizer.py:168-208 | normalizing twice is normalizing once exactly if the encoded text does not end in a newline, as it never does for ASCII input |
| Normalizer.NormalizedAgain | focusguard/core/normalizer.py:168-208 | what normalizing makes of any valid domain: a final newline goes, and if that leaves a number as the last label the domain is refused |
| Normalizer.NewlineIsValidButCut | focusguard/core/normalizer.py:149 | the exception: the label expression ends in `$` and accepts a final newline |
| Normalizer.SoftHyphenLeavesNewline | focusguard/core/normalizer.py:195-205 | the exception: a newline and a soft hyphen behind a domain pass both strips, and an encoder that deletes soft hyphens leaves the newline |
| Normalizer.DecoratedHostNormalizes | focusguard/core/normalizer.py:171-195 | which inputs made of a wildcard prefix, a domain and a path, port, query, fragment or user info mark normalize to the domain: all without "://" behind it; with one, those with '?', '#' or '@' in front, and those with ':' unless the domain can be a URL scheme |
| Normalizer.LinkInPathIsRefused | focusguard/core/normalizer.py:178-183 | a path with a "://" in it makes ASCII input fail |
| Normalizer.RedirectLinkIsRefused | focusguard/core/normalizer.py:178-183 | for one, `youtube.com/redirect?q=https://example.com` is refused |
| Normalizer.UrlNormalizes | focusguard/core/normalizer.py:178-195 | of a URL the first name behind "://" is kept, which is the host, or the user if an '@' follows |
| Normalizer.PathIsKept | focusguard/core/normalizer.py:178-183 | of a URL without network location the path is kept, without query and fragment, and without parameters if the scheme has them |
| Normalizer.CutParamsExact | focusguard/core/normalizer.py:178-183 | parameters are all from the first semicolon of the last path segment on |
| Normalizer.PaddingDoesNotMatter | focusguard/core/normalizer.py:171 | neither does white space around it |
| Normalizer.CaseDoesNotMatter | focusguard/core/normalizer.py:171 | neither does its case |
| Sinkhole.DomainSinkhole.constructor | focusguard/dns/sinkhole.py:40-49 | a new sinkhole holds the bootstrap rules |
| Sinkhole.DomainSinkhole.AddRule | focusguard/dns/sinkhole.py:58-63 | the key of a domain that normalizes is added, any other domain is dropped |
| Sinkhole.DomainSinkhole.SetBlockedDomains | focusguard/dns/sinkhole.py:65-74 | the blocked keys are replaced by those of the bootstrap list and the given domains; nothing else changes |
| Sinkhole.DomainSinkhole.SetAllowedDomains | focusguard/dns/sinkhole.py:76-85 | the allowed keys are replaced by those of the essential and the given domains; nothing else changes |
| Sinkhole.DomainSinkhole.FindsPrefix | focusguard/dns/sinkhole.py:87-99 | true exactly if some non-empty prefix of the key is in the set |
| Sinkhole.DomainSinkhole.IsBlocked | focusguard/dns/sinkhole.py:101-127 | decision and reason, in both modes |
| Sinkhole.PrefixIsUnder | focusguard/dns/sinkhole.py:51-56 | a reversed-label prefix test is the string test `q == d or q.endswith("." + d)` |
| Sinkhole.DecisionIsScan | focusguard/dns/sinkhole.py:101-127 | the fast index equals the slow scan, in both modes and for every query |
| Sinkhole.BlocklistIsScan | focusguard/dns/sinkhole.py:123-127 | the same for the rules that setting the blocked domains leaves |
| Sinkhole.BlockedExactly | focusguard/dns/sinkhole.py:65-127 | blocked are exactly the non-essential names under an active domain and, if DoH is to be blocked, under a bootstrap domain |
| Sinkhole.WritingDoesNotMatter | focusguard/dns/sinkhole.py:101-127 | neither the case of a query nor dots and blanks around it change the decision |
| Sinkhole.ReasonIsScan | focusguard/dns/sinkhole.py:101-127 | the reason given, told by the slow scan, in both modes |
| Sinkhole.NumericNamesAreNeverListed | focusguard/core/normalizer.py:224-226 | no ASCII rule covers a name whose last label is a number |
| Sinkhole.NumericIsCovered | focusguard/core/normalizer.py:224-226 | a rule covers such a name only if the encoder left a newline behind that number |
| Bypass.GetAllDomains | focusguard/network/bypass.py:127-139 | the union of all endpoints of a table |
| Bypass.GetAllDomainsForServices | focusguard/core/services.py:471-478 | the union of the domains of the services that exist |
| Bypass.GetServiceExact | focusguard/core/services.py:422-444 | a service is found exactly if the text, in any case and with blanks around it, is its identifier or stands for it as an alias |
| Bypass.ClassifiersIgnoreWriting | focusguard/network/bypass.py:141-160 | the classifiers of bypass names, services and service texts see neither case nor white space around the text |
| Bypass.MatchesExactly | focusguard/core/services.py:453-468 | a service matches exactly its domains and all names below them, a starred domain standing for the one behind the star |
| Bypass.FirstServiceExact | focusguard/core/services.py:453-468 | a domain is attributed to no service exactly if no service lists it |
| Bypass.FirstServiceIs | focusguard/core/services.py:453-468 | and else to the first one that does |
| Bypass.FirstProviderExact | focusguard/network/bypass.py:147-158 | a provider is named exactly if the name lies under one of the table's endpoints |
| Bypass.FirstProviderIs | focusguard/network/bypass.py:147-158 | the provider named is the first one with a matching endpoint |
| Bypass.IdentifyExact | focusguard/network/bypass.py:141-160 | a DoH bypass is reported exactly under a DoH endpoint, a VPN bypass exactly under a VPN endpoint otherwise, and nothing elsewhere |
| Bypass.ClassifiedIsUnderEndpoint | focusguard/network/bypass.py:141-160 | whatever kind is reported, the name lies under an endpoint of that kind |
| Bypass.ClassifiedIsBlocked | focusguard/network/bypass.py:141-160 | a tidy, non-essential name attributed to a class in force is blocked exactly if its last label is not a number, for sound tables and ASCII rules |
| Bypass.NumericNamesAreNotBlocked | focusguard/network/bypass.py:73-90 | names whose last label is a number, as those under the IP literals of the DoH table, are never blocked by ASCII rules |
| Bypass.ServiceIsBlocked | focusguard/core/services.py:453-468 | every tidy, non-essential name that matches an active service of sound tables is blocked |
| Bypass.EntryIsListed | focusguard/core/services.py:453-468 | every entry of a sound service is covered by the service's own rules, also one the normalizer drops |
| Registry.ShippedIsSound | focusguard/core/services.py:49-419 | in the shipped service, VPN and DoH tables every entry is a rule of its own or, with an inner star, lies under a companion of its service; the addresses of the DoH table alone end in numbers |
| Registry.EntryIsOrdinary | focusguard/core/normalizer.py:211-236 | every entry of the shipped tables that is written by its labels is a valid domain and normalizes to itself |
| Registry.ShippedEndpointsAreBlocked | focusguard/network/bypass.py:19-105 | with the shipped tables, in every state a new installation can reach: a tidy, non-essential name attributed to a VPN or DoH provider is blocked exactly if its last label is not a number |
| Registry.ShippedServicesAreBlocked | focusguard/core/services.py:453-478 | and while a session is locked, every tidy, non-essential name that matches one of its services is blocked |
| TimeGuard.DurationExact | focusguard/core/time_guard.py:42-73 | a duration is accepted, with n as its seconds, exactly if n is positive and the text writes it: decimal minutes, or hours, minutes and seconds in this order, each with its unit and each optional |
| TimeGuard.ValueExact | focusguard/core/time_guard.py:42-73 | the number read from digits is the one whose decimal notation they are |
| TimeGuard.TimeOfDayExact | focusguard/core/time_guard.py:100-125 | a time of day is read exactly from "HH:MM" and "HH:MM:SS" with numerals in range, and is theirs |
| TimeGuard.UntilExact | focusguard/core/time_guard.py:76-125 | an end time is accepted exactly if it is a future ISO date, or else a time of day, and then is the first instant at which the local clock shows it |
| TimeGuard.UntilIsNextOccurrence | focusguard/core/time_guard.py:100-121 | under a fixed offset HH:MM is the one instant of the next 24 hours at which the local clock shows it |
| TimeGuard.UntilIsLater | focusguard/core/time_guard.py:76-125 | every accepted end time lies in the future, if the clock does not run backwards in the call |
| Session.SessionManager.CheckExpiration | focusguard/core/session.py:92-115 | the new state and the answer of an expiry check, with the rollback case |
| Session.SessionManager.ReleaseExpired | focusguard/core/session.py:117-119 | the session is reset |
| Session.SessionManager.AssertNotLocked | focusguard/core/session.py:121-131 | the guard with its two clock readings |
| Session.SessionManager.StartSession | focusguard/core/session.py:58-90 | a start is refused exactly while time remains |
| Session.PassesWhileLocked | focusguard/core/session.py:121-131 | exactly when the guard lets a caller pass although the session stays locked: the second reading fell back before the expiry or the creation |
| Session.GuardIsSound | focusguard/core/session.py:121-131 | with readings that do not decrease, the guard raises or leaves a state that is not locked |
| PolicyEngine.StateManager.Save | focusguard/storage/state.py:114-127 | the file is replaced by the data |
| PolicyEngine.StateManager.Load | focusguard/storage/state.py:129-174 | the saved data, or the defaults, which are saved |
| PolicyEngine.PolicyEngine.constructor | focusguard/core/policy.py:37-69 | start-up and recovery of a locked session |
| PolicyEngine.PolicyEngine.RecoverSession | focusguard/core/policy.py:59-67 | a locked session that has expired is released and saved, any other is kept |
| PolicyEngine.PolicyEngine.ActiveBlockedDomains | focusguard/core/policy.py:71-93 | the union of permanent, service, VPN, DoH and session domains |
| PolicyEngine.PolicyEngine.RefreshSinkhole | focusguard/core/policy.py:95-98 | the sinkhole enforces the active domains; nothing else changes |
| PolicyEngine.PolicyEngine.SaveState | focusguard/core/policy.py:100-106 | configuration and session are on disk; nothing else changes |
| PolicyEngine.PolicyEngine.AddPermanentDomain | focusguard/core/policy.py:108-129 | new state and answer, for all error cases |
| PolicyEngine.PolicyEngine.RemovePermanentDomain | focusguard/core/policy.py:131-146 | new state and answer, for all error cases |
| PolicyEngine.PolicyEngine.BlockPermanentService | focusguard/core/policy.py:148-165 | new state and answer, for all error cases |
| PolicyEngine.PolicyEngine.UnblockPermanentService | focusguard/core/policy.py:167-182 | new state and answer, for all error cases |
| PolicyEngine.PolicyEngine.Scope | focusguard/core/policy.py:247-274 | domains and services of a new session: the valid custom ones with companions, or else the permanent ones |
| PolicyEngine.PolicyEngine.StartFocusSession | focusguard/core/policy.py:224-296 | new state and answer, for all error cases |
| PolicyEngine.PolicyEngine.StopFocusSession | focusguard/core/policy.py:298-304 | stopping is refused while locked, and otherwise does no more than the guard |
| PolicyEngine.PolicyEngine.TickOnce | focusguard/core/policy.py:306-319 | a tick releases an expired session, refreshes and saves, or does nothing |
| PolicyEngine.HandleRequest | focusguard/service/ipc_server.py:78-193 | each mutating action does exactly what its command does to the engine |
| PolicyRuns.ExecKeepsCoherence | focusguard/core/policy.py:95-106 | after every command, accepted or refused, the configuration is on disk and the sinkhole enforces exactly what is on disk |
| PolicyEffects.RefusedExactly | focusguard/core/session.py:121-131 | a guarded command is refused exactly while time is left of a locked session, with the time left, and then changes nothing |
| PolicyEffects.RuleReplies | focusguard/core/policy.py:108-182 | exactly when each command on the permanent rules succeeds, and that one that fails does no more than the guard |
| PolicyEffects.BlockDoes | focusguard/core/policy.py:148-165 | after an accepted block the service is listed, last if it is new, nothing else in the configuration differs, and all of it is on disk |
| PolicyEffects.BlockedServiceIsBlocked | focusguard/core/policy.py:148-165 | and every tidy, non-essential name that matches the service is blocked, for sound tables |
| PolicyEffects.UnblockDoes | focusguard/core/policy.py:167-182 | after an accepted unblock the first occurrence of the service is gone, everything else is as it was, and all of it is on disk |
| PolicyEffects.UnblockUndoesBlock | focusguard/core/policy.py:148-182 | blocking and unblocking a service restores configuration and rules exactly if it was not blocked before |
| PolicyEffects.StartReply | focusguard/core/policy.py:224-296 | exactly when a start fails for want of an end or of anything to cover, is refused, or is accepted; unless accepted it changes nothing |
| PolicyEffects.StartLocks | focusguard/core/policy.py:224-296 | an accepted start locks from now until the time asked for, covers exactly what is in scope, is saved, and leaves the configuration |
| PolicyEffects.AskedDuration | focusguard/core/policy.py:239-241 | a duration text that lasts n seconds asks for an expiry n million microseconds from now and a length of n |
| PolicyEffects.ScopeExact | focusguard/core/policy.py:247-274 | the domains of a new session: those of the requested services, the requested domains that normalize and their companions if wanted, or else the permanent ones |
| PolicyEffects.ScopeServicesExact | focusguard/core/policy.py:247-274 | its services: those requested that exist, or else the permanent ones |
| PolicyEffects.CompanionsExact | focusguard/core/normalizer.py:239-248 | the companions of a domain are those of its platform, with or without "www." |
| PolicyEffects.RequestedDomainIsBlocked | focusguard/core/policy.py:257-269 | once started, the session blocks every non-essential name under a requested domain and, if wanted, under its companions |
| PolicyEffects.RequestedServiceIsBlocked | focusguard/core/policy.py:250-256 | and every tidy, non-essential name that matches a requested service, for sound tables |
| PolicyEffects.TickExact | focusguard/core/policy.py:306-319 | a tick releases exactly a locked session whose expiry has come and whose creation is not in the future, to the permanent rules, saved; otherwise it changes nothing |
| PolicyEffects.AllowlistDecision | focusguard/dns/sinkhole.py:101-127 | in allowlist mode exactly the essential names and those under an allowed domain are not blocked |
| PolicyRuns.ReachableRules | focusguard/core/policy.py:71-98 | in every reachable state: locked, the rules are those of configuration and session; not locked, they contain those of the configuration |
| PolicyRuns.LockHolds | focusguard/core/policy.py:108-182 | a command that reads the clock before the expiry changes nothing of a locked engine, and is refused unless it is a tick or a restart |
| PolicyRuns.LockSafety | focusguard/core/policy.py:224-319 | no run of commands, ticks and restarts with readings before the expiry, forwards or backwards, changes anything in memory or on disk |
| PolicyRuns.LockEndsLate | focusguard/core/session.py:92-131 | whatever run changes a locked engine contains a reading at or after the expiry |
| PolicyRuns.RestartExact | focusguard/core/policy.py:49-69 | the whole state after a restart at any time: as saved, except that a locked session is released if its expiry has come and its creation is not in the future |
| PolicyRuns.RestartWhileLocked | focusguard/core/policy.py:59-69 | a locked session survives a restart before its expiry with every decision, and is replaced by the permanent rules after it |
| PolicyRuns.UnsavedExpiryRelocks | focusguard/core/policy.py:298-304 | an expiry noticed by a guard is not saved: with the clock set back, a restart locks the session again |
| PolicyRuns.GuardedEffect | focusguard/core/policy.py:108-182 | a guarded command does no more than its guard, or saves all it did |
| PolicyRuns.ExpiryIsLater | focusguard/core/policy.py:235-245 | every started session expires after its creation |
| PolicyRuns.RunKeepsOrder | focusguard/core/policy.py:224-296 | in every run with steady clocks inside the calls, sessions in memory and on disk expire after their creation |
| PolicyRuns.ReleaseExact | focusguard/core/policy.py:306-319 | a tick that releases leaves exactly the permanent rules |
| PolicyRuns.TickRestoresPolicy | focusguard/core/policy.py:280-319 | start, any run without another start, releasing tick: the configuration is the one before the start, and every name is decided by its permanent rules |
| PolicyRuns.SessionServiceIsBlocked | focusguard/core/policy.py:87-91 | while locked, every tidy, non-essential name that matches a covered service of sound tables is blocked |
| PolicyRuns.ClassifiedIsEnforced | focusguard/core/policy.py:79-85 | an engine that holds ASCII domains blocks a VPN or DoH name whose class is switched on exactly if its last label is not a number |
| PolicyRuns.RunKeepsAscii | focusguard/core/policy.py:108-129 | whatever is typed, every run keeps all domains ASCII, in memory and on disk |
| PolicyRuns.RunKeepsSwitches | focusguard/core/policy.py:71-98 | no run touches the mode or the VPN and DoH switches |
| PolicyRuns.ClassifiedIsAlwaysEnforced | focusguard/core/policy.py:71-98 | hence, for sound tables, in every state a new installation can reach every tidy, non-essential VPN or DoH name is blocked exactly if its last label is not a number |
| PolicyRuns.CoherentDecision | focusguard/core/policy.py:71-98 | the decision of an engine told by its lists and tables alone |
| PolicyRuns.AddedDomainIsBlocked | focusguard/core/policy.py:108-129 | after adding a domain, every non-essential name under it is blocked, unless the domain is a number but for a newline |
| PolicyRuns.RemoveAfterAdd | focusguard/core/policy.py:131-146 | removing a domain just added removes it, and leaves behind exactly those of its companions that were not listed before |
| PolicyRuns.RemoveUndoesAdd | focusguard/core/policy.py:131-146 | so it undoes the addition exactly if the domain was new and its companions were not |
| DnsServer.HandleQuery | focusguard/dns/server.py:82-180 | the decision path: FORMERR, SERVFAIL, sinkhole or resolver, and what is cached |
| DnsServer.SinkReplyExact | focusguard/dns/protocol.py:240-273 | a blocked query is answered, instead of dropped by an exception, exactly if its question names are ASCII |
| DnsServer.SinkReplyParses | focusguard/dns/protocol.py:240-273 | the sinkhole's reply can be written and reads back as itself |
| DnsServer.BlockedQueryEndToEnd | focusguard/dns/server.py:170-177 | whatever cache and upstreams hold, the bytes sent for a blocked query parse to its id and questions, no error, one all-zero A or AAAA record of TTL 300, nothing for other types |
| DnsServer.PermittedFromCache | focusguard/dns/server.py:179-180 | a permitted query with a fresh entry for its name and type gets the stored message under its own id, and asks no upstream |
| DnsServer.PermittedFromUpstream | focusguard/dns/server.py:179-180 | without one it gets the bytes of the first upstream that says anything, unchanged, and they are cached for their lifetime under its name and type if they have answers |
| DnsServer.PermittedWithoutAnswer | focusguard/dns/server.py:179-180 | without a reply either it gets a SERVFAIL under its id, and nothing is cached |
| DnsServer.UnusableQuery | focusguard/dns/server.py:82-95 | bytes that do not parse get a format error under the id in their first two bytes, or nothing if they have fewer; a query without questions gets a failure; nothing is cached |
| DnsServer.ErrorReplyParses | focusguard/dns/server.py:82-95 | error replies are always sent and read back as themselves |
| Flows.KeysEqualExactly | focusguard/network/flows.py:70-80 | two packets share a key exactly if protocols and unordered endpoint pairs agree |
| Flows.NewFlowKey | focusguard/network/flows.py:119-142 | a new flow sits under the canonical key of its own endpoints, whichever side is the client |
| Flows.FirstWordExact | focusguard/network/flows.py:102-107 | the protocol of a flow is the first word of the packet's, whatever stands behind it |
| FlowTable.NewFlowSides | focusguard/network/flows.py:119-142 | the client of a new flow is the sender if it is private or sends what looks like a request, and else the receiver; nothing is counted yet |
| FlowTable.FirstPacketDoesNotMatter | focusguard/network/flows.py:119-142 | between a private and a public address either side may be seen first, unless the public one seems to send a request |
| Flows.PacketFlow.Count | focusguard/network/flows.py:146-164 | a packet is counted in its direction, and moves the TCP state |
| FlowTable.FlowCounts | focusguard/network/flows.py:144-164 | after any packets a flow has counted those of its client, and their bytes, as going out, and all others as coming in |
| FlowTable.FlowStays | focusguard/network/flows.py:144-164 | endpoints, protocol and beginning never change, and the last packet is when it was last seen |
| FlowTable.TcpStateIsLast | focusguard/network/flows.py:156-164 | the TCP state is that of the last packet with FIN, RST or an opening SYN |
| FlowTable.TcpStateStays | focusguard/network/flows.py:156-164 | and without such a packet stays as it was |
| Flows.FlowTracker.PruneStale | focusguard/network/flows.py:168-176 | exactly the flows idle beyond the timeout go |
| Flows.FlowTracker.PruneOldest | focusguard/network/flows.py:178-185 | a tenth of the flows goes, at least one: those a stable sort by age puts first, among equally old ones those inserted first |
| Flows.DroppedIsUnique | focusguard/network/flows.py:182-185 | their number determines which flows these are |
| Flows.FlowTracker.RecordPacket | focusguard/network/flows.py:96-166 | prune if due, make room if full, then insert or update exactly the packet's flow, in the dictionary's order; untracked and malformed packets change nothing |
| FlowTable.RecordingKeepsKeyed | focusguard/network/flows.py:107-142 | every stored flow stays under the key of its own endpoints |
| FlowTable.RecordingBound | focusguard/network/flows.py:115-117 | the table stays within its capacity if and only if the capacity is at least one |
| FlowTable.EvictionIsJustified | focusguard/network/flows.py:110-117 | a flow leaves only for being stale when pruning is due, or for being no younger than any that stays when room is needed; no other flow changes |
| FlowTable.RecordingConserves | focusguard/network/flows.py:96-166 | packets and bytes after recording and those evicted are those before and the packet |
| PacketParser.ParsedIsTrackable | focusguard/network/packets.py:106-161 | any frame that parses, on any bytes, has two endpoints, a protocol and its full length |
| PacketParser.Ipv4FrameParses | focusguard/network/packets.py:164-210 | a written IPv4 frame is read with source and destination in their places, the options skipped, and the transport parsed from what it carries |
| PacketParser.Ipv6FrameParses | focusguard/network/packets.py:212-252 | the same for IPv6 |
| PacketParser.ArpFrameParses | focusguard/network/packets.py:254-283 | and for ARP, whose requests and replies are told apart |
| PacketParser.PortsRead | focusguard/network/packets.py:289-317 | TCP and UDP ports are read in their order, and TCP flags from their byte |
| PacketParser.PortsExactly | focusguard/network/packets.py:285-335 | exactly complete TCP and UDP headers have ports |
| PacketParser.EchoExactly | focusguard/network/packets.py:319-335 | exactly ICMP types 0 and 8 and ICMPv6 types 128 and 129 are reported as echo |
| PacketParser.FlagsRead | focusguard/network/packets.py:294-309 | each of the six flags is recovered from its bit |
| PacketParser.DottedQuadUnique | focusguard/network/packets.py:338-340 | different IPv4 addresses are written differently |
| PacketParser.MalformedExactly | focusguard/network/packets.py:106-161 | which Ethernet frames are malformed: those too short for their headers, and IPv4 frames with another version |
| PacketParser.DirectionExact | focusguard/network/packets.py:77-97 | which packets the appliance sends, which leave, which stay in the private network and which only pass through |
| PacketParser.AnswersAreMirrored | focusguard/network/packets.py:77-97 | an answer goes the other way, exactly unless both addresses belong to the appliance |
| PacketParser.BareIpv6IsDropped | focusguard/network/packets.py:142-146 | without an Ethernet header an IPv6 datagram is never parsed |
| Monitor.TrafficIsConserved | focusguard/network/monitor.py:291-344 | over every interleaving of the critical sections of all threads: live, evicted and untracked traffic equals counted and in-flight traffic, protocols add up to packets, directions to bytes; table and buffer stay bounded |
| Monitor.StepBalances | focusguard/network/monitor.py:326-344 | each critical section keeps the books balanced |
| Monitor.BufferHoldsLatest | focusguard/network/monitor.py:326-328 | over every interleaving the rolling buffer holds the latest packets accounted for, in the order of accounting |
| Monitor.PacketMonitorEngine.ProcessRawFrame | focusguard/network/monitor.py:291-349 | an unparseable frame changes only the id sequence; any other is recorded and counted once |
| Monitor.PacketMonitorEngine.AccountFor | focusguard/network/monitor.py:327-344 | counters and rolling buffer after a packet |
| Monitor.FrameProtocol | focusguard/network/monitor.py:332-339 | a frame raises the counter of the protocol number it carries |
| Monitor.InboundExactly | focusguard/network/monitor.py:341-344 | inbound is what goes to a local address, or from a public to a private one, and does not come from a local address |
| Monitor.AddPacketExactly | focusguard/network/monitor.py:327-344 | one packet raises its own protocol's counter by one and its own direction's by its length, and no other |
| Monitor.PacketMonitorEngine.IngestDnsEvent | focusguard/network/monitor.py:188-244 | a DNS event becomes a packet of 64 bytes, recorded and counted |
| Monitor.EventCounted | focusguard/network/monitor.py:229-241 | a DNS event counts 64 bytes of outbound traffic, and as UDP or else as TCP |
| Monitor.EventsShareFlow | focusguard/network/monitor.py:188-244 | two DNS events between the same endpoints share a flow exactly if their ids agree modulo 10000 |
| Monitor.EventFlowHasClient | focusguard/network/monitor.py:188-244 | the one who asks is the client of the flow, if it is private or asks at a well-known port |
| Framing.Stream | focusguard/cli/client.py:117-135 | whatever the chunks, the events of the complete lines, in order, before the first line that raises; without one the buffer ends with the unfinished line |
| Framing.ReceivedExactly | focusguard/cli/client.py:117-122 | a stream is received as it was sent, up to the first empty chunk |
| Framing.DrainBuffer | focusguard/cli/client.py:124-135 | the complete lines are taken out of the buffer until none is left or one raises, as JSON that is no object does |
| Framing.EventsConcat | focusguard/cli/client.py:124-135 | the events of lines are those of each line in turn, as long as none raises |
| Framing.BrokenStays | focusguard/cli/client.py:127-135 | once a line raises, nothing received later changes what was yielded |
| Framing.LinesConcat | focusguard/cli/client.py:123-125 | cutting a stream anywhere does not change its lines |
| Framing.SentLinesArrive | focusguard/cli/client.py:153-171 | lines sent with a newline each arrive as they were, and a partial one does not |

## Left out

- Sockets, asyncio, listeners, upstream querying and timeouts: an upstream reply is any byte string or a failure.
- HMAC, secret files, JSON, fsync, rename and corrupt-file backup: the state file is one typed value replaced atomically; `load` of a file that `save` did not write is not modelled.
- PolicyEngine.PolicyEngine.constructor: requires that a locked session on disk has its timestamps, as every saved one has; the source raises at start-up otherwise.
- IDNA encoding: any function that maps valid domains to themselves and returns or refuses ASCII text as it is. Case and white space are those of ASCII.
- Normalizer.UrlNormalizes: `urlparse` is modelled by its split into scheme, network location and path, parameters included; bracketed hosts and network locations with look-alikes of "/?#@:", which make it raise, and control characters inside a URL, which it drops, are not.
- Display names, categories and descriptions of the tables: not modelled beyond the names. The names of a DoH provider stand before its addresses; their order does not matter.
- Session names kept as sets: the program keeps session domains and services as sorted lists without duplicates, and hands the sinkhole a sorted list; only membership matters there.
- Instants: microseconds as unbounded integers; the overflow of very long durations in `datetime` is not modelled. The cache and the flow table use reals for the monotonic and the wall clock.
- Flow identifiers, policy tags, device names, hex previews and packet timestamps: display data.
- The simulated capture loop: only its accounting is modelled, as a third source of packets.
- PacketParser.ParsedIsTrackable: the text of IPv6 addresses and the test for private addresses are any functions, the former never empty.
- Framing.Stream: what a line decodes to is any function with an event, nothing or an exception as its result; the single-response read of `send_command` is not modelled.
- RDATA is opaque: names compressed inside it keep their bytes and may lose their meaning after a cache hit.
- `evaluate_domain`: it tests a pair for truth (focusguard/core/policy.py:215-216) and so never answers that a name is allowed; the sinkhole's own decision is used instead.
- `get_status`, `get_summary`, the log store, the event bus and the device tracker: reporting.
- Gateway, firewall and kernel settings: only the guard on disabling the gateway is modelled.
