# Verified model of the aidot VPN control plane

A Dafny 4.11 model of the server side of the VPN control plane, and proofs about it. Three chains and a few
self-contained protocols are covered.

**Policy to packet.** `Net` and `Order` hold prefixes and sorting. `Controller` models how a device's policy becomes
the phone's routes and the gateway's peer entry; `Firewall` is the compiled nftables ruleset as data with a first-match
evaluator, and `FirewallRender` the loops that emit it. `FirewallMeaning` proves what the compiled chains mean,
`FirewallIsolation` that peers do not affect each other, `PolicyChain` that admin policy, phone and gateway agree.
`Syncer` is the gateway's poll-and-apply loop over a kernel whose commands may fail and whose peer table moves an
allowed-IP from owner to owner.

**Device lifecycle.** `EnrollmentTables` and `Enrollment` are the enrolment protocol, interleaved at SQL-statement
granularity. `Devices` and `Lifecycle` are Register, RotateKey and Revoke over the device and key tables, with the
address allocators in `Allocator` and `Allocator6`. `Revocation` joins this chain to the first: what one complete sync
after a revocation leaves on the gateway.

**Records and wires.** `CanonicalJson`, `JsonScan` and `Float64` are the canonical encoder, `HashChain` a hash chain over
any texts, and `AuditEntry` and `AuditChain` the audit log that joins them; `RelayCodec` and `RelayHub` the packet
relay; `PeerSync` the conditional peer sync of the data plane; `Ids` the UUIDv7 generator; `Resolver` the hostname
resolver. `Bytes` and `Seqs` hold shared facts about byte strings and sequences.

Code that updates state is a class or a method with loops, proved against specification functions; the lemmas are about
those functions. What an operation is for is stated a second time in columns: over table columns, packet fields and bytes
alone, without the function that specifies the operation. Go map iteration order, command failures, clocks and random bytes are arbitrary: chosen by `:|` or
`*`, or taken as parameters.

## What the proofs found

- `RotateKey` looks at the device before its transaction. A revocation that commits in between leaves a revoked device
  with an active key (`Lifecycle.ALateRotationCanReviveAKey`); nothing else can, and the condition is exact
  (`Lifecycle.OnlyALateRotationRevivesAKey`). While the device is deleted neither it nor that key is listed to the
  gateway (`Revocation.DeletedIsUnlisted`).
- A device's second registration activates it whatever the attestation gate said
  (`Lifecycle.ActiveExactlyWhen`).
- Creating an enrolment request is two statements, so two creations can leave two pending requests for one install
  (`Enrollment.TwoCreationsCanBothStayPending`); the insert is the only step that can
  (`Enrollment.OnlyTheInsertCanBreakOnePending`).
- The audit verifier never reads the `prev_hash` column, although the package comment says a mismatch there is how
  tampering shows (`AuditChain.PrevHashIsNeverRead`). Rows are protected through the recomputed hash all the same:
  as long as the last hash is known from elsewhere, an edit of any kind goes unnoticed exactly when no row changed in a
  way the verifier can tell (`AuditChain.TamperingShows`, `AuditChain.SameRowInColumns`); without it, removed rows go
  unnoticed exactly when they are the end of the log (`AuditChain.RemovalShows`).
- Canonical encoding decodes numbers to 64-bit floats first, so a detail of 2^53 + 1 can be changed to 2^53 without a
  trace (`AuditEntry.LargeIntegersCollapse`); up to 2^53 nothing is lost (`AuditEntry.SameEventIsEqual`).
- The relay computes its header bound in 16 bits and the gateway in full integers; the two parsers differ exactly on
  the messages of `RelayCodec.BoundWraps`, where the relay goes on to an out-of-range slice. No frame either side
  builds is such a message (`RelayCodec.FrameRoundTrip`).
- The version token of the peer sync hashes peer records without separators. It determines the peer list exactly when
  the records have one shape, or one shape that ends in its IPv4 part and one that ends in its IPv6 part
  (`PeerSync.TokensTellExactly`, `PeerSync.ReadableSets`), and the records that registration and rotation write are of
  that kind (`PeerSync.RegisteredReadable`). For any other pair of shapes two different lists share a token under every
  hash (`PeerSync.MixedShapesCollide`).
- The gateway skips nft when the hash of the rendered ruleset is the remembered one. An nft that takes effect but
  reports failure is not remembered, so when the list before it comes back the skip leaves its ruleset in place
  (`Syncer.ALateNftOutlivesItsList`). Nothing else can, and the condition is exact (`Syncer.Agent.ApplyRules`); the next
  nft that succeeds heals it.
- Identifiers are in order until the millisecond stamp outgrows 48 bits; `Ids.OrderExactly` gives the order of any two.
- The resolver prunes in whole seconds, so a grace with a part-second is cut short; `Resolver.GraceGrantedInFull` says
  exactly which are not.
- A token at the very instant it expires is reported active but cannot be redeemed
  (`EnrollmentTables.ActiveMeansRedeemable`).

## Assumptions

- One SQL statement is atomic, and so is one transaction body and one audit append. `nft -f` applies a script wholly or
  not at all; a failing `nft` or `wg` command may or may not have taken effect.
- Peers have distinct public keys and device ids and pairwise disjoint tunnel addresses. `Revocation.PeerListIsSound`
  proves this of every list made from tables the lifecycle can reach.
- Address pools are given by their masked network address. The WireGuard interface is `wg0` where NAT is concerned,
  and virtual, real and NAT addresses are IPv4.
- In the conditional peer sync, keys are distinct and the shapes of the records are told apart as above.
- Enrolment: application and database read one clock; secrets that were neither delivered nor shown on the console are
  not guessed; and one redemption admits at most one registration, because the consuming check runs once per request
  that registers.
- Hash functions are arbitrary functions: where equality of hashes is used, the conclusion is "or these two different
  inputs hash alike", naming the inputs. The gateway's rules hash alone is taken as one-to-one.

## Model

| member | source | states |
|---|---|---|
| FirewallRender.RenderScript | server/internal/gateway/nftables.go:106-220 | the builder loops emit exactly the ruleset specification, filter chains over the sorted copy and NAT chains in list order |
| FirewallRender.RenderFilter | server/internal/gateway/nftables.go:125-178 | the input and forward chains: fixed lines, every peer's block in device order, the final drop |
| FirewallRender.WritePeerRules | server/internal/gateway/nftables.go:229-313 | one peer's block: its rules in order, the covered drop layer, then its CIDRs, or denials when unbound |
| FirewallRender.WriteRules | server/internal/gateway/nftables.go:256-279 | the L4 rule lines in order, with exactly the accepted destinations collected as covered |
| FirewallRender.WriteDrops | server/internal/gateway/nftables.go:280-292 | one drop line per source for every covered prefix |
| FirewallRender.WriteCidrs | server/internal/gateway/nftables.go:293-312 | accept lines for the CIDRs that parse and are not covered |
| FirewallRender.RenderPrerouting | server/internal/gateway/nftables.go:190-201 | the DNAT lines of every peer that has an IPv4 address |
| FirewallRender.RenderPostrouting | server/internal/gateway/nftables.go:206-214 | the masquerade lines of every peer that has an IPv4 address |
| FirewallMeaning.PeerLinesMeaning | server/internal/gateway/nftables.go:229-313 | first match over a peer's block is that peer's policy for packets it owns, and says nothing about others |
| FirewallMeaning.CoveredCidrsAreMoot | server/internal/gateway/nftables.go:293-312 | skipping covered CIDRs changes no verdict |
| FirewallMeaning.ForwardMeaning | server/internal/gateway/nftables.go:145-178 | the whole forward chain as a function of interface, conntrack state and the owning peer's policy |
| FirewallMeaning.InputAppliesSamePolicy | server/internal/gateway/nftables.go:125-143 | services on the gateway are filtered by the same policy; other interfaces are untouched |
| FirewallMeaning.DenyOverrides | server/internal/policies/rules.go:57-78 | over denials-first rules, first match accepts exactly when some accept and no denial applies |
| FirewallMeaning.RuleL4 | server/internal/gateway/nftables.go:365-393 | what a rule's protocol and ports match: an inclusive tcp or udp range, any port for 0-0, icmp over IPv4 only, icmpv6, otherwise any protocol |
| FirewallMeaning.ChainsAreWellFormed | server/internal/gateway/nftables.go:106-178 | every line names one address family at both ends, and the interface defaults to wg0 |
| FirewallMeaning.BlocksInDeviceOrder | server/internal/gateway/nftables.go:120-124 | the peers' blocks come in the order of device ids, each once |
| FirewallMeaning.AcceptsExactlyThePolicy | server/internal/gateway/nftables.go:145-167 | a non-invalid tunnel packet passes exactly when the owner of its source is bound, not denied, and allowed by a rule or by a CIDR outside every covered prefix |
| FirewallIsolation.DnatMeaning | server/internal/gateway/nftables.go:192-201 | a packet's rewrite is its sender's own first matching one |
| FirewallIsolation.MasqMeaning | server/internal/gateway/nftables.go:206-214 | a packet is masqueraded exactly when its sender's NAT CIDRs hold its destination |
| FirewallIsolation.PeerIsolation | server/internal/gateway/nftables.go:131-143 | adding, removing or editing other peers changes no verdict or rewrite for a device |
| FirewallIsolation.OrderIndependence | server/internal/gateway/nftables.go:131-214 | permuting the peers gives the same filter chains and the same NAT outcome for every packet |
| Controller.DedupKeepsOneOfEach | server/internal/policies/policies.go:552-566 | the specification of deduplication has the same elements, each once |
| Controller.DedupInPlace | server/internal/policies/policies.go:552-566 | the in-place loop leaves exactly that list at the front of the array |
| Controller.DnsFor | server/internal/httpapi/handlers.go:847-873 | parseable resolvers are added as host routes, each once, after the allowed list |
| Controller.WireRule | server/internal/httpapi/nodeapi.go:365-393 | a lone port bound stands for both on the wire, and rules without ports are sent with none |
| Controller.EffectiveRules | server/internal/policies/rules.go:88-125 | the rows that parse, in query order, normalised for the wire |
| Controller.VirtualHostTable.Add | server/internal/policies/policies.go:782-819 | a virtual host is stored exactly when its virtual address is from 10.79.0.0 to 10.79.255.255 and its real one is not |
| PolicyChain.ControllerRulesDenyFirst | server/internal/policies/rules.go:57-78 | the query's order puts every denial before every accept in what is sent |
| PolicyChain.AnswerOrder | server/internal/policies/rules.go:57-78 | in every answer drops come before rejects and rejects before accepts, and of one action the longer prefixes first |
| PolicyChain.RuleQueryHasAnswer | server/internal/policies/rules.go:57-78 | the rule query always has an answer |
| PolicyChain.RowDstInColumns | server/internal/policies/rules.go:98-118 | a row is sent exactly when its bytes are an address and its length fits, by its network address |
| PolicyChain.BoundIffJudged | server/internal/policies/policies.go:674-689 | a peer is marked policy-bound exactly when a policy row judges its device |
| PolicyChain.WireRuleMeansRow | server/internal/httpapi/nodeapi.go:365-393 | port normalisation and the renderer's L4 match together mean the stored row |
| PolicyChain.EffectivePolicyIsTheJudge | server/internal/policies/policies.go:225-241 | the policy looked up is the row of the device's own id, or without one of its undeleted same-tenant group's, when that row is enabled, undeleted and of the tenant |
| PolicyChain.PhoneRoutesAreThePolicy | server/internal/policies/policies.go:485-549 | the phone's routes hold exactly the addresses of the policy's CIDRs, hostnames, virtual hosts and resolvers |
| PolicyChain.PhoneRoutesAreTidy | server/internal/policies/policies.go:533-566 | the phone's list has no entry twice and spells every CIDR by its network address |
| PolicyChain.PhoneAndGatewayAgree | server/internal/httpapi/nodeapi.go:286-343 | every address a governed phone without L4 rules may route is accepted by the gateway after rewriting |
| PolicyChain.OneDnatPassSuffices | server/internal/policies/policies.go:794-802 | rewritten addresses leave the virtual range, so a second pass would change nothing |
| PolicyChain.ActionByRows | server/internal/policies/rules.go:57-125 | the compiled drop, reject or accept rules apply to a packet exactly when a stored row with that action, about the device, applies |
| PolicyChain.CoveredByRows | server/internal/policies/rules.go:57-125 | the destinations accept rules cover are those stored accept rows about the device name |
| PolicyChain.RankedVerdict | server/internal/policies/rules.go:57-78 | first match over the controller's order is: any drop wins, then any reject, then any accept |
| PolicyChain.CidrsByPolicy | server/internal/httpapi/nodeapi.go:286-343 | the gateway's CIDRs hold exactly what the policy names and the real addresses of its virtual hosts |
| PolicyChain.ControllerPolicyIsEnforced | server/internal/httpapi/nodeapi.go:217-363 | end to end from the stored tables: a tunnel packet is accepted exactly when its source is an address of a listed device and the policy row judging that device permits it, rejected exactly when that row rejects it, and dropped otherwise |
| PolicyChain.DevicePolicyIsEnforced | server/internal/httpapi/nodeapi.go:217-363 | the same for one device that owns the source |
| PolicyChain.OwnPolicyWins | server/internal/policies/policies.go:225-241 | a device with a policy of its own is judged by that row alone whatever its group has, and dropped when the row is missing, disabled, deleted or another tenant's |
| PolicyChain.GroupPolicyOtherwise | server/internal/policies/policies.go:225-241 | a device without one is judged by its live group's policy, and dropped without that |
| PolicyChain.DnatByTables | server/internal/gateway/nftables.go:185-201 | what a device's IPv4 address sends to a virtual address of the judging policy goes to the first real address for it; nothing else changes |
| PolicyChain.MasqueradedByTables | server/internal/gateway/nftables.go:206-214 | a packet is masqueraded exactly when the policy judging its sender asks for it and names the destination |
| PolicyChain.RedirectedPolicyIsEnforced | server/internal/gateway/nftables.go:185-201 | the same with virtual hosts: the tables are asked about the packet the policy redirects to |
| Syncer.WantContents | server/internal/gateway/sync.go:307-340 | the desired table holds exactly the usable peers with their own addresses and keys |
| Syncer.WantIsTheList | server/internal/gateway/sync.go:307-340 | in columns: an entry for every peer with a key and an address and no other, with its own pre-shared key, reached at exactly its own addresses |
| Syncer.WantIsDisjoint | server/internal/gateway/sync.go:307-340 | desired peers never share an allowed-IP |
| Syncer.SetKeepsSettled | server/internal/gateway/sync.go:363-396 | setting one wanted peer disturbs no other settled one, although it may take addresses from unwanted ones |
| Syncer.NewOnesMet | server/internal/gateway/sync.go:180-245 | every entry a cycle added to the log of `wg set` calls is wanted and met that cycle's ruleset |
| Syncer.Kernel.WgSet | server/internal/gateway/sync.go:363-396 | assigning an allowed-IP takes it from any other peer; a failing call may still have done so |
| Syncer.Agent.Ready | server/internal/gateway/sync.go:118-126 | ready implies a complete cycle finished, to the second, within the given age |
| Syncer.Agent.ApplyRules | server/internal/gateway/sync.go:273-303 | success means the installed ruleset is the rendering of the fetched peers exactly when no nft that reported failure took effect since the last one that succeeded, the hash skip included |
| Syncer.ALateNftOutlivesItsList | server/internal/gateway/sync.go:280-303 | a list, another whose nft takes effect but fails, and the first again: the second ruleset stays from then on |
| Syncer.Agent.SetWanted | server/internal/gateway/sync.go:363-396 | in any map order, every wanted peer ends as wanted; nothing is set when the table already agrees |
| Syncer.Agent.RemoveUnwanted | server/internal/gateway/sync.go:397-408 | in any map order, every unwanted peer of the snapshot is removed |
| Syncer.Agent.ApplyPeers | server/internal/gateway/sync.go:307-420 | success makes the kernel table the list's, from any table and any caches: every listed peer reached at exactly its own addresses, and no other peer; for a table already there no `wg set` command is given at all |
| Syncer.Agent.SyncOnce | server/internal/gateway/sync.go:180-245 | one cycle: ruleset before peers, nothing on a failed fetch or a list already in place, and on success the table is that of the list and so is the ruleset, exactly unless a failed nft took effect |
| Syncer.Agent.SyncAgain | server/internal/gateway/sync.go:180-245 | after a complete cycle, any number of further cycles with the same list or a failed poll give no nft or wg command that changes anything, and the ruleset stays |
| Syncer.Agent.Run | server/internal/gateway/sync.go:154-177 | over any run with any failures, every peer added in a cycle is wanted by the list of that cycle, and met the ruleset rendered from it exactly when no failed nft had put another there |
| EnrollmentTables.ActiveMeansRedeemable | server/internal/devices/enrollment_token.go:59-70 | a token shown as active is redeemable except at the very instant of expiry; the other words say why it is not |
| EnrollmentTables.Service.CreateEnrollmentRequest | server/internal/devices/enrollment_request.go:85-154 | refused without the password, a public key or an install id of 1 to 36 characters; otherwise, taken as one step, creation leaves exactly the new request pending for its install |
| EnrollmentTables.Service.MarkApprovedWithGrant | server/internal/devices/enrollment_request.go:231-249 | approves and parks the grant exactly when the request is still pending and unexpired |
| EnrollmentTables.Service.RejectEnrollmentRequest | server/internal/devices/enrollment_request.go:305-318 | rejects exactly a pending request |
| EnrollmentTables.Service.TakeGrant | server/internal/devices/enrollment_request.go:256-277 | hands out the parked grant and clears it |
| EnrollmentTables.Service.CheckEnrollmentToken | server/internal/devices/enrollment_token.go:228-255 | accepts exactly usable tokens and counts a use only when consuming |
| EnrollmentTables.Service.RevokeEnrollmentToken | server/internal/devices/enrollment_token.go:204-218 | revokes exactly an unrevoked token, changes no other, and leaves the token redeemable at no time |
| EnrollmentTables.Service.RequireEnrollmentGrant | server/internal/httpapi/middleware.go:108-155 | admits exactly usable grants and spends one only on the registration path |
| Enrollment.StepKeeps | server/internal/httpapi/enrollment_request.go:309-362 | every single statement of approvers, pollers, phones and console keeps the protocol invariant |
| Enrollment.RunKeeps | server/internal/httpapi/enrollment_request.go:218-362 | so does every interleaving |
| Enrollment.OneRequestOneRegistration | server/internal/devices/enrollment_token.go:228-294 | per request at most one grant is delivered and at most one token minted for it is ever redeemed, in under fifteen minutes from creation |
| Enrollment.LosingTokensStayInside | server/internal/httpapi/enrollment_request.go:309-362 | a token minted by a losing approver is never delivered and never redeemed |
| Enrollment.DecisionIsFinal | server/internal/devices/enrollment_request.go:231-318 | a request leaves the pending state at most once and keeps the grant it was given |
| Enrollment.RevocationStops | server/internal/devices/enrollment_token.go:204-218 | revoking a stored token changes that token alone, and no later step of any run redeems it |
| Enrollment.ConsoleTokenAdmits | server/internal/devices/enrollment_token.go:85-140 | a console token is stored as asked for and can be redeemed until it expires |
| Enrollment.RejectionDecides | server/internal/devices/enrollment_request.go:305-318 | rejecting decides a pending request and touches no other |
| Enrollment.UndisturbedEnrolment | server/internal/httpapi/enrollment_request.go:218-362 | from a pending request, one approver and the phone undisturbed: the grant is delivered, passes the challenge, registers the phone once and is then used up |
| Enrollment.TwoCreationsCanBothStayPending | server/internal/devices/enrollment_request.go:136-152 | interleaved, the two statements of creation leave two pending requests for one install |
| Enrollment.OnlyTheInsertCanBreakOnePending | server/internal/devices/enrollment_request.go:136-152 | one-pending-per-install breaks exactly when the insert finds another pending request there |
| Enrollment.UndisturbedCreationKeepsOnePending | server/internal/devices/enrollment_request.go:136-152 | with nothing in between, creation keeps one pending request per install |
| Allocator.AllocateIPv4 | server/internal/devices/ipalloc.go:33-88 | the counter loop returns the lowest free host address, or says which of family, width or exhaustion stopped it |
| Allocator.Search4IsLowest | server/internal/devices/ipalloc.go:66-87 | the lowest free offset, or none exactly when all are in use |
| Allocator.MaskedPoolDoesNotWrap | server/internal/devices/ipalloc.go:68-77 | in a masked pool the 32-bit sums do not wrap and the bound is the broadcast offset |
| Allocator.Pick4FromMaskedPool | server/internal/devices/ipalloc.go:33-88 | the address is in the pool, off the network, gateway and broadcast addresses, free and lowest; exhaustion exactly when none is |
| Allocator6.AddLow | server/internal/devices/ipalloc.go:127-140 | the byte-carry loop is addition modulo 2^64 on the low eight bytes and leaves the high ones |
| Allocator6.AllocateIPv6 | server/internal/devices/ipalloc.go:93-150 | the walk returns the lowest free candidate in the pool or exhaustion, within one candidate past the used addresses |
| Allocator6.ContainmentFailsPastTheEnd | server/internal/devices/ipalloc.go:127-149 | the containment check fails exactly past the pool's end |
| Allocator6.Search6IsLowest | server/internal/devices/ipalloc.go:127-149 | the lowest free offset in the pool, or none exactly when all are in use |
| Allocator6.Pick6FromMaskedPool | server/internal/devices/ipalloc.go:93-150 | the address is in the pool, free and lowest; exhaustion exactly when no offset of the pool is free |
| Devices.Service.Register | server/internal/devices/service.go:112-332 | the registration transaction: a new device, or a known install reactivated without policy, with one fresh key, or nothing at all |
| Devices.Service.RotateKey | server/internal/devices/service.go:336-411 | the rotation transaction: old keys revoked, a new key on the same addresses, or nothing at all |
| Devices.Service.RevokeDevice | server/internal/devices/service.go:426-464 | the revocation transaction: all keys revoked and the device soft-deleted |
| Devices.Service.RevokeKeysOf | server/internal/devices/repo.go:304-311 | exactly the device's keys become revoked |
| Devices.Service.FindActiveKey | server/internal/devices/repo.go:315-325 | the newest unrevoked key of the device, if any |
| Lifecycle.EveryRunKeeps | server/internal/devices/service.go:134-447 | over every run: one active key per device, distinct active addresses in both families, all inside their pools |
| Lifecycle.FromTheStart | server/internal/devices/service.go:134-447 | the same of every run from empty tables |
| Lifecycle.RotationKeepsAddresses | server/internal/devices/service.go:336-391 | rotation keeps the addresses, changes the key and touches no other device |
| Lifecycle.RegistersNew | server/internal/devices/service.go:134-289 | a first registration goes through exactly when no gate refuses, the key is new and addresses are left, and leaves one device row, active only if it attested, and one key row on the lowest free addresses |
| Lifecycle.RegistersAgain | server/internal/devices/service.go:134-289 | a registration of a known install does under the same condition, and leaves the row active, without policy, its keys revoked but the new one |
| Lifecycle.RotatesInPlace | server/internal/devices/service.go:336-391 | a rotation changes key rows only: the old ones revoked, one new one on the same addresses |
| Lifecycle.RotatesAfresh | server/internal/devices/service.go:336-391 | without an active key, on the lowest free addresses |
| Lifecycle.RevokesInColumns | server/internal/devices/service.go:426-447 | a revocation marks the row of a live device, revokes all its keys and changes nothing else |
| Lifecycle.ReRegistrationClearsPolicy | server/internal/devices/service.go:134-289 | a re-registered device is active, without direct policy, with the one new key |
| Lifecycle.RotationGoesThrough | server/internal/devices/service.go:336-391 | a rotation commits exactly when the key is new and the device holds an address or its pools have one left |
| Lifecycle.RegistersForInstall | server/internal/devices/service.go:134-160 | a registration is for the device with this user's install, or for a fresh id when none has it |
| Lifecycle.ActiveExactlyWhen | server/internal/devices/service.go:134-289 | over every run, a live device is active exactly when its first registration attested or it registered again |
| Lifecycle.KeysGrow | server/internal/devices/repo.go:273-311 | over every run, key rows are only added and a revoked one stays revoked |
| Lifecycle.OnlyALateRotationRevivesAKey | server/internal/devices/service.go:336-391 | a revoked device gets an active key exactly when a rotation that looked before the revocation commits after it with a new key and an address to be had |
| Lifecycle.PromptRotationsKeepRevokedKeyless | server/internal/devices/service.go:336-447 | when nothing comes between a rotation's look and its commit, revoked devices have no active key |
| Lifecycle.ALateRotationCanReviveAKey | server/internal/devices/service.go:336-447 | a concrete run in which a revoked device ends with an active key |
| Revocation.AnswerNodePeers | server/internal/httpapi/nodeapi.go:217-363 | the list is an entry for every unrevoked key row of an undeleted, active, admitted device, with the row's key, addresses and pre-shared key, and nothing else |
| Revocation.ListInColumns | server/internal/httpapi/nodeapi.go:217-262 | the same of the specification |
| Revocation.UnattestedIsUnlisted | server/internal/httpapi/nodeapi.go:226-230 | over every run, a device whose one registration did not attest is never listed |
| Revocation.ListIsEnforced | server/internal/httpapi/nodeapi.go:217-363 | from key rows to packets: the ruleset of the list accepts a tunnel packet exactly when an unrevoked key of an active device has its source and the policy tables permit it |
| Revocation.SyncList | server/internal/gateway/sync.go:180-245 | after a complete sync of any reachable tables the kernel has the listed peers alone, and its ruleset accepts exactly what the tables let through unless a failed nft left another |
| Revocation.PeerListIsSound | server/internal/httpapi/nodeapi.go:220-249 | every list made from reachable tables has distinct keys, distinct devices and disjoint addresses |
| Revocation.RevokedIsUnlisted | server/internal/devices/service.go:426-447 | whatever commits after a revocation, no key the device had is listed; and unless it registered again, neither it nor any key it has by then |
| Revocation.DeletedIsUnlisted | server/internal/httpapi/nodeapi.go:220-249 | of any reachable tables: while a device is deleted, the list names neither it nor any key it ever had, a revived one included |
| Revocation.SyncAfterRevocation | server/internal/gateway/sync.go:180-245 | after a revocation and any transactions of any devices, the next complete sync leaves no WireGuard peer for the keys the device had; and unless it registered again, none for any key it has by then and, unless a failed nft left other rules, no packet accepted on its behalf |
| CanonicalJson.EscapeRoundTrip | server/internal/audit/audit.go:356-359 | a written character is read back, with what follows it |
| CanonicalJson.EscapeForms | server/internal/audit/audit.go:356-359 | which characters have a short escape, which a hexadecimal one, and which stand for themselves |
| CanonicalJson.QuotedIsHarmless | server/internal/audit/audit.go:356-359 | no quoted text carries a control character, an angle bracket, an ampersand or a line separator |
| CanonicalJson.QuotedUnambiguous | server/internal/audit/audit.go:356-359 | where a quoted string ends and what it holds are fixed by the text |
| CanonicalJson.DecimalUnambiguous | server/internal/audit/audit.go:349-355 | so are the end and value of an integer followed by a delimiter |
| CanonicalJson.Unambiguous | server/internal/audit/audit.go:340-395 | one encoding never begins another where a value may end |
| CanonicalJson.EncodeInjective | server/internal/audit/audit.go:340-395 | two values encode to the same text exactly when they are the same value |
| CanonicalJson.CanonicalEncode | server/internal/audit/audit.go:340-395 | the recursive encoder gives the one canonical text whatever order maps are walked in |
| CanonicalJson.DecodedTwice | server/internal/audit/audit.go:325-338 | decoding numbers to floats a second time changes nothing |
| CanonicalJson.ExactIsKept | server/internal/audit/audit.go:325-338 | decoding loses nothing of a value whose integers are within 2^53 |
| Float64.RoundedTwice | server/internal/audit/audit.go:325-338 | a decoded integer decodes to itself |
| Float64.SmallIsExact | server/internal/audit/audit.go:349-355 | integers of size at most 2^53 survive decoding |
| Float64.FirstLoss | server/internal/audit/audit.go:349-355 | 2^53 + 1 decodes to 2^53 |
| Float64.NearestIsNearest | server/internal/audit/audit.go:349-355 | decoding gives the nearest integer of at most 53 significant bits, and of two nearest ones the even multiple |
| Float64.NearestIsRepresentable | server/internal/audit/audit.go:349-355 | what decoding gives has at most 53 significant bits |
| JsonScan.NoObjectEndsAnother | server/internal/audit/audit.go:340-395 | no object's text is the proper end of another object's text |
| CanonicalJson.SortedKeys | server/internal/audit/audit.go:372-376 | keys collected in any order and sorted are the one sorted list of the map's keys |
| AuditEntry.ColumnsRoundTrip | server/internal/audit/audit.go:81-251 | entry to columns and back gives the appended entry as decoding leaves it, and that entry's text is the one that was hashed |
| AuditEntry.FieldsByKey | server/internal/audit/audit.go:54-64 | the JSON form key by key: which fields are there and what they hold |
| AuditEntry.RowInColumns | server/internal/audit/audit.go:81-175 | the row of an appended entry column by column, a missing id and time filled in, times cut to the microsecond |
| AuditEntry.RefusalInColumns | server/internal/audit/audit.go:81-105 | an action, a tenant and an actor kind are required, and missed in this order |
| AuditEntry.CanonTells | server/internal/audit/audit.go:325-338 | two entries have one canonical text exactly when they agree on everything but nil against empty details and integers decoding cannot tell apart |
| AuditEntry.SameEventIsEqual | server/internal/audit/audit.go:54-64 | with integers within 2^53 that leaves only nil against empty details |
| AuditEntry.LargeIntegersCollapse | server/internal/audit/audit.go:325-338 | beyond 2^53 two different entries have one canonical text |
| AuditEntry.NoRecordEndsAnother | server/internal/audit/audit.go:325-395 | no record's text is something followed by another record's text |
| AuditChain.Log.Append | server/internal/audit/audit.go:81-175 | a refused entry changes nothing; an accepted one adds one row with its own columns, its predecessor's hash, and the hash of both |
| AuditChain.Log.Verify | server/internal/audit/audit.go:184-294 | the batched walk reports the first wrong row of those asked for, for every batch size |
| AuditChain.Log.VerifyBatch | server/internal/audit/audit.go:200-293 | one batch: the verdict of the whole walk, or a shorter stretch with the same verdict |
| AuditChain.Log.VerifyPage | server/internal/audit/audit.go:215-281 | one page: the first row whose hash is not the recomputed one, else the hash to go on from |
| AuditChain.FirstBadMeaning | server/internal/audit/audit.go:184-294 | nothing is reported exactly when every hash is right; a report is the first row whose hash is wrong |
| AuditChain.VerifyInColumns | server/internal/audit/audit.go:184-294 | verifying a stretch reports the first of the rows asked for whose hash is not that of its predecessor's hash in the whole table and its own text |
| AuditChain.RunGrows | server/internal/audit/audit.go:81-175 | every accepted append leaves its row |
| AuditChain.NextPage | server/internal/audit/audit.go:201-208 | reading on from after a page's last row picks up exactly where the page ended |
| AuditChain.BuiltLogVerifies | server/internal/audit/audit.go:81-294 | a log made by any series of appends verifies on every stretch |
| HashChain.SameTailSameChain | server/internal/audit/audit.go:184-294 | two chains of any lengths that hold and end in one hash are one chain, or two named inputs collide |
| HashChain.RemovalShows | server/internal/audit/audit.go:184-294 | removing records leaves a chain that holds exactly when only the end is missing, or two named inputs collide |
| AuditChain.SameTailSameLog | server/internal/audit/audit.go:184-294 | two logs of any lengths that verify and end in one hash are the same row by row, hash columns included, or two named inputs collide |
| AuditChain.SameRowInColumns | server/internal/audit/audit.go:229-251 | which row changes the verifier cannot tell: seq, prev_hash, NULL against empty target kind or details, and integers decoding cannot tell apart |
| AuditChain.TamperingShows | server/internal/audit/audit.go:184-294 | a log edited in any way, rows added, removed, moved or changed, goes unreported with the last hash unchanged exactly when it is the same row by row as far as the verifier can tell, or took a named collision |
| AuditChain.RemovalShows | server/internal/audit/audit.go:184-294 | removing rows goes unreported exactly when only the end is missing, or took a named collision |
| AuditChain.WholeLog | server/internal/audit/audit.go:184-210 | verifying from 0 to 0 is verifying all rows from the empty hash |
| AuditChain.TruncationUnnoticed | server/internal/audit/audit.go:184-294 | a good log with rows cut off the end still verifies |
| AuditChain.PrevHashIsNeverRead | server/internal/audit/audit.go:215-281 | any change confined to the prev_hash column leaves every verification result as it was |
| RelayCodec.BuildFrame | server/internal/relay/conn.go:117-129 | the built bytes, refused exactly above 65,535 bytes of header or data |
| RelayCodec.FrameRoundTrip | server/internal/gateway/relayclient.go:442-483 | both parsers give back every frame either side can build |
| RelayCodec.ParsersAgree | server/internal/relay/conn.go:96-112 | the two parsers agree on a message exactly when the relay's 16-bit bound does not wrap past it |
| RelayCodec.BoundCanWrap | server/internal/relay/conn.go:100-104 | a three-byte message on which the relay's bound wraps |
| RelayCodec.MaskInPlace | server/internal/gateway/relayclient.go:571-574 | the in-place loop masks every byte with its key byte |
| RelayCodec.MaskTwice | server/internal/relay/conn.go:206-210 | masking twice with one key is no change |
| RelayCodec.WriteUnmasked | server/internal/relay/conn.go:229-249 | the relay's frame: opcode, length in 7, 16 or 64 bits, payload |
| RelayCodec.WriteMasked | server/internal/gateway/relayclient.go:550-577 | the gateway's frame: the same with mask bit, key and masked payload |
| RelayCodec.Reader.NextMessage | server/internal/relay/conn.go:165-226 | the read loop returns the next binary message, skipping pings and pongs, and leaves the rest of the stream |
| RelayCodec.Reader.ReadOne | server/internal/gateway/relayclient.go:488-531 | one frame off the stream with its payload unmasked, or nothing when it is cut short or over the limit |
| RelayCodec.RawReadBack | server/internal/relay/conn.go:165-210 | one written frame is read as exactly itself, for every length encoding, mask and following bytes |
| RelayCodec.FrameKinds | server/internal/relay/conn.go:165-226 | what each kind of frame does to the read loop: a whole binary frame is a message, pings and pongs are skipped, a close frame closes, and a fragment, another opcode or an oversized payload fails |
| RelayCodec.BuiltFramesFit | server/internal/relay/conn.go:193-195 | no frame that can be built exceeds 131,075 bytes, so none meets the reader's limit |
| RelayCodec.StreamRoundTrip | server/internal/gateway/relayclient.go:442-577 | any sequence of frames, with any masks and with pings and pongs between them, arrives as exactly that sequence |
| RelayHub.Hub.RegisterDataNode | server/internal/relay/hub.go:99-117 | the new connection takes the entry and the old one is closed |
| RelayHub.Hub.CleanupDataNode | server/internal/relay/hub.go:107-116 | the entry goes only if it is still this connection |
| RelayHub.Hub.RegisterMobile | server/internal/relay/hub.go:121-128 | connection and binding are replaced together and the old connection is closed |
| RelayHub.Hub.CleanupMobile | server/internal/relay/hub.go:130-138 | both entries go, and only if they are still this connection's |
| RelayHub.Hub.ForwardFromMobile | server/internal/relay/hub.go:144-161 | the route is settled by one look at the tables |
| RelayHub.NodeTable | server/internal/relay/hub.go:99-117 | a node is listed exactly when its latest registration has not been cleaned up, and then as that connection |
| RelayHub.MobileTable | server/internal/relay/hub.go:121-139 | the same for sessions; the two session tables always hold the same keys |
| RelayHub.SupersededNodeIsClosed | server/internal/relay/handlers.go:44-46 | a superseded data-node connection is closed |
| RelayHub.SupersededMobileIsClosed | server/internal/relay/handlers.go:130-138 | a superseded mobile connection is closed or its cleanup has run |
| RelayHub.ClosedForAReason | server/internal/relay/hub.go:99-138 | a connection is closed exactly when it was closed itself or a later registration took the entry it held |
| RelayHub.PacketsFollowTheBinding | server/internal/relay/hub.go:144-161 | a mobile packet goes only to the node named by its session's latest registration, on that node's latest connection, tagged with its own session |
| RelayHub.TagsTellSessionsApart | server/internal/relay/hub.go:157-160 | packets of different sessions carry different tags |
| RelayHub.LateSendsStayWithTheNode | server/internal/relay/hub.go:144-161 | a send that comes late still goes to a connection that was only ever registered for the bound node |
| RelayHub.NodeSideIgnoresBinding | server/internal/relay/hub.go:165-173 | towards phones the route depends on the session alone, not on the sending node |
| PeerSync.ComputeVersion | server/internal/nodes/nodes.go:412-437 | the hashing loop over the sorted copy gives the token of the specification |
| PeerSync.VersionIgnoresOrder | server/internal/nodes/nodes.go:413-419 | the token does not depend on the order of the peers |
| PeerSync.TokensTellPeers | server/internal/nodes/nodes.go:412-437 | when any two shapes of record are told apart by how they end, and with any keepalives, equal tokens mean the same peers and sequence, or two named inputs collide; and the same peers mean equal tokens |
| PeerSync.HashTellsPeers | server/internal/nodes/nodes.go:412-437 | the hash alone tells peers and sequence, while the sequence fits 64 bits |
| PeerSync.MixedShapesCollide | server/internal/nodes/nodes.go:412-437 | for any two shapes not told apart and any one keepalive, two lists of different peers with distinct keys have one token under every hash |
| PeerSync.TokensTellExactly | server/internal/nodes/nodes.go:412-437 | under any hash, equal tokens mean equal peers for all lists over a set of shapes exactly when any two of the shapes are told apart |
| PeerSync.ReadableSets | server/internal/nodes/nodes.go:422-434 | that is, at most one shape, or one ending in its IPv4 part and one ending in its IPv6 part |
| PeerSync.RegisteredReadable | server/internal/devices/service.go:631-682 | the shapes registration and rotation write are such a pair |
| PeerSync.LoadActivePeers | server/internal/nodes/nodes.go:352-407 | the active peers in row order and the latest activation among them |
| PeerSync.ActivePeersMeaning | server/internal/nodes/nodes.go:352-407 | a peer is listed exactly when an unrevoked key of an undeleted, active or suspended device of the tenant gives it, with the key's own material and addresses |
| PeerSync.MaxSeqIsLatest | server/internal/nodes/nodes.go:400-404 | the sequence is the latest activation among the listed keys, or zero |
| PeerSync.Sync | server/internal/nodes/nodes.go:227-250 | peers are left out exactly when the caller's token is the current one |
| PeerSync.MemoryEngine.Configure | server/internal/dataplane/engine.go:109-156 | replacement or merge of the peer map, or nothing when cancelled |
| PeerSync.MemoryEngine.InjectTelemetry | server/internal/dataplane/engine.go:189-208 | traffic is recorded on a known peer and changes nothing else; an unknown one is refused |
| PeerSync.ReplacedHolds | server/internal/dataplane/engine.go:124-142 | replacement leaves exactly the listed peers and keeps the telemetry of every survivor |
| PeerSync.MergedKeeps | server/internal/dataplane/engine.go:143-154 | merging keeps unlisted peers as they were and every peer's telemetry |
| PeerSync.Agent.Reconcile | server/internal/dataplane/sync.go:111-145 | whatever fails, the remembered token belongs to what the engine holds; when nothing fails the engine holds what the controller serves, also when it answered not modified |
| PeerSync.Agent.Run | server/internal/dataplane/sync.go:92-105 | the same at the end of every run of ticks, with traffic seen in between |
| Ids.Generator.NewID | server/internal/domain/id.go:59-117 | the sixteen bytes laid out for the clock state the call settled on |
| Ids.Generator.Settle | server/internal/domain/id.go:62-93 | when the clock has moved on, its own millisecond and a random 12-bit counter; at a standstill the next counter; at overflow or a backward jump the next millisecond from zero |
| Ids.AdvanceIsLater | server/internal/domain/id.go:62-91 | the millisecond and counter always move forward |
| Ids.LaterSortsAfter | server/internal/domain/id.go:95-114 | later clock states give identifiers later in byte order, whatever the random tails |
| Ids.IdsIncrease | server/internal/domain/id.go:59-117 | over every clock history successive identifiers strictly increase, while the stamp fits 48 bits |
| Ids.OrderEndsAt48Bits | server/internal/domain/id.go:95-101 | once the stamp wraps, a later identifier sorts before an earlier one |
| Ids.OrderExactly | server/internal/domain/id.go:95-114 | any two identifiers compare as the stamps modulo 2^48 and the counters do, then as their random bytes |
| Ids.StampRecovered | server/internal/domain/id.go:162-173 | version 7, variant 10b, the millisecond and the counter read back, and the rest is the random tail |
| Ids.ParseInvertsText | server/internal/domain/id.go:120-186 | parsing gives back every identifier from its hyphenated and plain text, the zero one included |
| Resolver.Worker.ResolveOnce | server/internal/policies/resolver.go:100-195 | one pass with any answers and failures: written rows carry the time of their last write, the others stay as they were, and each row stays exactly when it outlasts the prune; a list that does not load changes nothing |
| Resolver.VisitsWrite | server/internal/policies/resolver.go:139-206 | a row is written exactly by an answer whose write went through and whose host has no guard or one holding the unmapped address, and carries the time of the last one; other rows are as before |
| Resolver.PassWrites | server/internal/policies/resolver.go:100-221 | the same through the prune |
| Resolver.Worker.StoreAnswers | server/internal/policies/resolver.go:167-181 | the addresses of one answer that are in range and could be written |
| Resolver.RunKeepsGuard | server/internal/policies/resolver.go:153-179 | over every run, no address outside its hostname's guard is stored |
| Resolver.SeenSurvives | server/internal/policies/resolver.go:139-151 | an address seen at some time stays through every pass within the granted window, however many lookups fail |
| Resolver.AnsweredSurvives | server/internal/policies/resolver.go:139-221 | an address answered and written is in the table from that pass on, through every pass within the granted window, whatever was there before |
| Resolver.StaleIsGone | server/internal/policies/resolver.go:211-221 | after a successful prune every row was seen within the window before it, and stays so |
| Resolver.PruneKeeps | server/internal/policies/resolver.go:211-221 | the prune keeps a row exactly while it is within the window |
| Resolver.GraceGrantedInFull | server/internal/policies/resolver.go:211-216 | every row seen within the configured grace survives the prune exactly when the grace has no part-second of a microsecond or more |

## Left out

- Console, desktop and Android code, HTTP decoding, statistics, trace, groups CRUD, configuration loading, packaging: no part of the modelled logic.
- Cryptographic primitives, certificates, attestation internals, pre-shared-key generation: library calls, taken as parameters or arbitrary functions.
- The literal nftables text and the `wg show dump` text: rulesets and peer tables are values; within the covered drop layer, lines are ordered by prefix value where the source sorts their text, which no verdict depends on.
- Stats counters, logging, tickers, long-poll waits, deadlines and reconnect backoff: only the state steps they trigger are kept.
- Tenant columns in the enrolment tables, and the policy id carried by requests and tokens: they select rows and ride along unchanged.
- Expiry and posture checks of `/node/peers`: an arbitrary set of admitted devices stands for them.
- Allocator.AllocateIPv4: rows of other widths are ignored as in the source; the tenant join that selects the rows is a parameter.
- Allocator6.Pick6FromMaskedPool: in pools of /64 and shorter the walk ends at 2^60 candidates as in the source, so exhaustion speaks of those.
- CanonicalJson.CanonicalEncode: numbers are integers; fractions, and floats of 2^63 and beyond, which the source prints in another notation, are not modelled, and text is a sequence of characters rather than its UTF-8 bytes.
- CanonicalJson.EncodeInjective: speaks of values after decoding, which `CanonicalJson.Decoded` models separately; the same limits apply.
- AuditEntry.ColumnsRoundTrip: the details column holds a JSON value rather than its stored text, because reading and writing that text are library calls; decoding its numbers is modelled. Times are microsecond counts rather than RFC 3339 text.
- AuditChain.Log.Verify: database errors on the way are not modelled, nor appends that run at the same time.
- RelayCodec.Reader.NextMessage: end of stream, oversize, fragmented and unknown frames are one failure outcome; read deadlines are not modelled.
- RelayHub.Hub.ForwardFromMobile: the send that follows, its errors and the peer's own disconnects are not modelled beyond which connection it uses.
- PeerSync.Agent.Reconcile: the session report at the end of a tick changes nothing modelled here; the engine is the in-memory one, whose only failure is a cancelled context.
- PeerSync.ComputeVersion: the token is a pair of sequence and truncated hash rather than its text.
- Ids.Generator.NewID: a failing random source ends the program in the source and has no outcome here.
- Resolver.Worker.ResolveOnce: the database clock is assumed not to run backwards between a write and a prune only where a lemma says so; a malformed hostname row is skipped before the modelled list.
- Syncer.Agent.ApplyRules: the rules hash is one-to-one.
- Controller.UnionRows: the query's order is one fixed order, which no result depends on.
- Controller.Parsed: unparseable destinations are left out of the NAT lines, where the source writes them as they are and nft would refuse the script.
