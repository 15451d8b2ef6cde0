# Verification model of the XDP datapath's translation core

This project models, in Dafny, the stateful translation core of the XDP/tc datapath (`xdp-dp-ebpf`), the
shared helpers it is built on (`xdp-dp-common`) and the control-plane code that programs its tables
(`xdp-dp`), and proves properties of that model. `dafny verify dfyconfig.toml` checks everything.

## What is modelled

- **Checksums** (`Bytes`, `Checksum`). Big-endian words of a byte string, the ones'-complement sum, the looping
  and the unrolled fold, full sums and the incremental update of section 3 of RFC 1624. Machine widths are written
  out as subset types and `%`; the two zeros of ones'-complement arithmetic are kept apart throughout.
- **Packet rewriting** (`Packet`, `Rewrite`, `RewriteProofs`). A frame is an object whose bytes the methods change in
  place. Conntrack translation, network SNAT and VIP translation are proved against functions on byte strings, and
  those functions are proved to keep IP and transport checksums acceptable.
- **Network NAT** (`Tracker`, `NatTable`, `NatProofs`, `NatRanges`, `NatGrants`, `NatGateway`, `NatRoundTrip`,
  `NatPipeline`, `FlowLife`, `NatPairing`). The conntrack, NAT and NAT-address maps and the interface records form the
  state of a machine whose steps are packets, control calls, aging and eviction. `NatGateway.Gateway` holds the maps as
  fields; every method is proved equal to a step function.
- **The pipelines as a whole** (`EgressFate`, `UplinkFate`) and **VIPs** (`Vips`). What becomes of every packet, between
  which addresses, and what the maps remember of it; the VIP map with its control calls.
- **NAT64** (`Nat64`, `Nat64Proofs`, `Nat64Wire`). Both egress programs (XDP and tc) and the ingress path, resizing
  included.
- **Load balancing** (`Maglev`, `Hashes`, `LoadBalancer`, `LbHistory`). The Maglev builder, the hashes, the control calls
  that maintain the tables, and the datapath's selection.
- **Tables that refine lists** (`Firewall`, `RuleMeaning`, `NeighborNat`), **token buckets** (`Meter`, `MeterService`) and
  the **DHCPv4** option writer and option walker (`Dhcp`).

Clocks, hash seeds, route lookups, firewall verdicts inside the egress pipeline, and the contents of bytes added by a
head resize are parameters. BPF maps are mathematical maps whose inserts succeed; LRU eviction and the aging sweep are
arbitrary removals. One packet or one control call is one atomic step.

## What turned out

- The incremental checksum update gives the full checksum **exactly when the changed string is not all zero**; there
  is no condition on the string before the change (`Checksum.IncrementalIsFullIffNonZero`). Changing a field and
  changing it back restores every check value except 0xffff, which comes back as 0 (`Checksum.ReplaceRoundTrip`).
- The update can turn a nonzero UDP check value into 0, which receivers read as "no checksum"
  (`Checksum.ReplaceGivesZeroIff`, `Checksum.NonZeroCheckCanVanish`). The word total still verifies; later rewriters
  leave such a value alone, which is why the NAT64 results ask for a UDP check value other than 0 in the reply.
- Conntrack's fast path equals the NAT slow path **exactly when** the entry's port is nonzero, or the transport
  header is not whole, or the packet's own port is 0 and its check value is not the one (0xffff) that writing 0 over
  0 changes (`RewriteProofs.FastPathIsSlowPathIff`, `NatPipeline.FastPathIsSnatPacketIff`). For tracked flows of
  guests whose range does not hold port 0 the two always agree (`NatPipeline.FastPathIsSnatPacket`). Through the
  whole pipeline only tracked flows can differ, and under the same condition (`NatPipeline.EgressIsOneTranslation`).
- NAT ownership needs two rules that the control plane does not enforce: ranges must not be reversed, and NAT must
  be deleted before its interface. Both are shown to be exact: all allowed runs after a granted request stay safe
  iff the range is not reversed (`NatProofs.CreateNatStaysSafeIff`), and detaching keeps the invariant iff the NAT
  entry is gone (`NatProofs.DetachKeepsInvIff`). Looking at shared ports alone, every reversed range but [65535, 0)
  leads some allowed run to two guests on one address and port; [65535, 0) never does once it is the only reversed
  range, because no proper range holds port 65535 (`NatRanges.CreateNatStaysUnsharedIff`). Concrete runs show two
  guests on one address and port (`NatProofs.ReversedRangesShareAPort`) and two guests with the same ports
  (`NatProofs.OrphanedRangeIsHandedOutTwice`).
- A NATed flow keeps its port as long as its forward entry lives (`FlowLife.TrackedFlowKeepsPort`). The packet that
  opens a flow is not part of the forward entry's history, so a TCP flow opened by a guest is never established
  there: after 30 s of quiet its forward entry is swept while its reply entry may live a day, and the next packet
  leaves from another port if probing finds one (`FlowLife.SweptIff`, `FlowLife.QuietFlowMovesPort`). When the old
  port does come back is settled by `FlowLife.PortReturnsIff`.
- Port 0 in a reply entry reads as "no port": for a flow from port 0 (an ICMP echo with identifier 0, say) the reply
  comes back to the guest's address but still carries the public port, so it is restored exactly when the flow's
  port is not 0 or the public port is 0 (`NatRoundTrip.NatEcho`, `NatRoundTrip.PortRestoredIff`). NAT64 writes the
  identifier itself, so there only TCP and UDP are affected (`Nat64Proofs.Nat64RoundTrip`).
- Network SNAT breaks an ICMP checksum in one case only: identifier 0 given to a message that is otherwise all zero
  (`RewriteProofs.NatKeepsChecksumsIff`).
- The two NAT64 egress programs emit the same frame **exactly when the frame is as long as its IPv6 header says**,
  modulo 2^16: the XDP program derives the outer payload length from the buffer, the tc program from the header
  (`Nat64.XdpAndTcAgreeIff`). Equal map updates and verdicts hold always.
- NAT64 egress yields a well-formed IPv4 packet exactly up to 65515 bytes of IPv6 payload; the 16-bit total length
  wraps beyond. Echo messages verify exactly when the bytes past the eight-byte header cancel out, because the echo
  check values cover those eight bytes only (`Nat64Proofs.EgressVerifiesIff`, `Nat64Proofs.IngressVerifiesIff`).
- The meter's 64-bit product wraps for rates above 147573 Mbit/s, but wrapping only lowers the refill: the rate
  bound holds for every rate (`Meter.RefillBound`, `Meter.TotalRateBound`, `Meter.NewMeterOk`).
- A NAT64 reply answers the guest's packet exactly when the tap's port record holds the IPv6 address the guest sent
  from, which egress does not compare, and the flow's port is known from the entry (`Nat64Proofs.Nat64RoundTrip`).
- The fate of every packet in the IPv4 egress pipeline is settled without assumptions on which stages apply: dropped
  exactly when the firewall refuses its untracked flow or the meter refuses it on its route, passed up exactly when
  it has no route, forwarded otherwise, always between the addresses that translation, VIPs and NAT name
  (`EgressFate.EgressFateIff`).
- A comment in the uplink says that returns of established flows are let in without evaluating the rules again. That
  holds for flows without NAT, VIPs included (`UplinkFate.SeededAnswerIsAdmitted`), but the answer to a NATed flow
  is looked up under the guest's own address, where nothing was seeded: it is admitted **exactly when** the ingress
  rules let it, or the peer's direction happened to be tracked before (`UplinkFate.NatReplyAdmittedIff`).
- A VIP's replies come back exactly when the map leads from the VIP back to the guest (`Vips.VipRoundTripIff`). The
  control plane does not check that a VIP is unused: the map stays two-way over a run **exactly when** no creation
  claims an address that is mapped to another one already (`Vips.AlwaysTwoWayIff`); two guests with one VIP is the
  witness (`Vips.SharedVipLosesReplies`).
- The meter lets through everything it promises: nothing is dropped **exactly when** every window of all traffic
  fits the total bucket and every window of external traffic fits the public one (`MeterService.NothingDroppedIff`),
  which covers all traffic within burst plus rate times time but for the rounding of one byte a call
  (`MeterService.WithinRateIsNeverDropped`). A frame that only the public bucket refuses is still charged to the
  total bucket (`MeterService.DropIsChargedIff`).
- Load balancers may claim each other's service keys. Creating one disturbs no served flow exactly when it claims no
  key of a balancer with backends (`LoadBalancer.CreateUndisturbedIff`); deleting one takes down a flow served by
  another exactly when it listed the flow's key (`LoadBalancer.DeleteKeepsSelectionIff`,
  `LoadBalancer.SharedKeyLosesServiceIff`).
- A firewall rule whose direction byte is neither 0 nor 1 counts as ingress and matches nothing; exactly then the
  datapath drops where the whitelist rule would accept (`Firewall.EvaluatedIsDecisionIff`). Callers send 0 and 1
  only (xdp-dp/src/grpc.rs:156-160).
- The allocator's comment calls a port globally unique per public address. The reply key also holds VNI and
  protocol, and within those no two guests ever share a port (`NatProofs.PortsNotShared`), but two flows of one
  guest may. Uniqueness over a run holds **exactly when** no allocation picks a port that some live flow's forward
  entry is on (`NatPairing.AlwaysUniqueIff`), and the chosen port's reply key is new exactly when one of the 64
  candidates is free (`NatPairing.AllocatedIsNewIff`). Neither rules sharing out. A port looks free when its reply
  entry is gone, and reply entries age on their own: only inbound packets touch them.
  `NatPairing.SweptReplySharesPort` is the run: a flow keeps sending unanswered, its reply entry is swept after 30
  s, and the next flow is given the same port with nothing exhausted. When all 64 probes miss, the flow falls back
  to a port whose reply entry exists: of another live flow, of no live flow, or its own old one.
- Every flow keeps a port of its own and a reply entry that leads back to it **exactly when** no step of the run
  takes or overwrites the reply entry of a flow that stays, and every exhausted allocation falls back to a port
  whose reply entry is already the flow's own and nobody else's; a guest at 0.0.0.0 never has a pair
  (`NatPairing.AlwaysPairedIff`). Deleting NAT never
  breaks a pair except for a guest at address 0.0.0.0, the source address of all reply keys
  (`NatPairing.DeleteNatPairedIff`). For any packet of a NATed flow, new, exhausted or tracked, the immediate reply
  returns to the flow's own address and port exactly when its partner entry exists then
  (`NatPairing.EchoReturnsIff`, `NatPairing.PartnerAfterSnatIff`).

## Model

| member | source | states |
|---|---|---|
| Bytes.SumPut | xdp-dp-common/src/lib.rs:19-26 | writing one aligned word changes the checksum sum by exactly the difference of the words |
| Bytes.SumMoved | xdp-dp-common/src/lib.rs:508-522 | the checksum sum depends on the bytes of a range only, wherever the range lies (odd last byte included) |
| Bytes.SumOddTail | xdp-dp-common/src/lib.rs:508-522 | an odd last byte counts as if a zero byte followed it |
| Checksum.Fold | xdp-dp-common/src/lib.rs:6-11 | the looping fold of any u32 ends with the ones'-complement representative of the sum |
| Checksum.TwoRoundsFoldU32 | xdp-dp-ebpf/src/nat64.rs:67-72 | the unrolled two-round fold equals the looping fold for every u32 |
| Checksum.TwoRoundsReach | xdp-dp-ebpf/src/nat64.rs:67-72 | two carries fold every sum below 2^32 + 0xffff and fail at that sum |
| Checksum.IncrementalIsFullIffNonZero | xdp-dp-common/src/lib.rs:13-27 | updating a full checksum incrementally gives the full checksum of the changed string iff that string is not all zero |
| Checksum.ReplaceRoundTrip | xdp-dp-common/src/lib.rs:19-26 | A to B to A restores a check value iff it is not 0xffff, which becomes 0 |
| Checksum.ReplaceKeepsVerifies | xdp-dp-common/src/lib.rs:19-26 | a verifying total keeps verifying when two words are replaced and the check value is updated, unless everything is zero |
| Checksum.Replace2KeepsVerifies | xdp-dp-ebpf/src/csum.rs:7-11 | the same for a 16-bit field passed as a 32-bit one |
| Checksum.ReplaceGivesZeroIff | xdp-dp-common/src/lib.rs:19-26 | exactly when the update produces check value 0 |
| Checksum.NonZeroCheckCanVanish | xdp-dp-ebpf/src/csum.rs:7-11 | a concrete nonzero check value that is updated to 0 |
| Checksum.Csum16 | xdp-dp-common/src/lib.rs:508-522 | the word loop with its odd tail computes the complement of the folded sum of pseudo-header and region |
| Rewrite.CtPlan | xdp-dp-ebpf/src/conntrack.rs:50-151 | the read phases compute the check values of the translation, or keep an absent UDP check value absent |
| Rewrite.CtApply | xdp-dp-ebpf/src/conntrack.rs:50-176 | the in-place writes make of the frame exactly the entry's translation, and leave frames alone that are not translated |
| Rewrite.NatRewrite | xdp-dp-ebpf/src/nat.rs:114-145 | the in-place writes of network SNAT make exactly the source translation, at the header's own length |
| Rewrite.VipRewrite | xdp-dp-ebpf/src/vip.rs:31-62 | a VIP hit translates the address only, a miss changes nothing |
| RewriteProofs.TranslatedFields | xdp-dp-ebpf/src/conntrack.rs:153-176 | a translation sets address and port and changes no byte besides them and the two check values |
| RewriteProofs.TranslateKeepsIp | xdp-dp-ebpf/src/conntrack.rs:74-176 | a verifying IP header verifies after translation |
| RewriteProofs.TranslateKeepsL4 | xdp-dp-ebpf/src/conntrack.rs:74-176 | a verifying TCP, UDP or ICMP total verifies after translation, pseudo-header included |
| RewriteProofs.TranslateKeepsAbsent | xdp-dp-ebpf/src/conntrack.rs:134-176 | an absent UDP checksum stays absent; ICMP without a new identifier keeps its total |
| RewriteProofs.CtApplyKeepsChecksums | xdp-dp-ebpf/src/conntrack.rs:50-176 | whatever the conntrack entry, a packet with acceptable checksums keeps them |
| RewriteProofs.NatKeepsChecksumsIff | xdp-dp-ebpf/src/nat.rs:114-145 | network SNAT keeps acceptable checksums iff it does not give identifier 0 to an ICMP message that is otherwise all zero |
| RewriteProofs.TranslateKeepsIcmpRest | xdp-dp-ebpf/src/conntrack.rs:153-176 | no translation changes what an ICMP message holds besides check value and identifier |
| RewriteProofs.VipKeepsChecksums | xdp-dp-ebpf/src/vip.rs:31-62 | a VIP rewrite in either direction keeps acceptable checksums |
| Vips.VipFrame | xdp-dp-ebpf/src/vip.rs:31-62 | a VIP rewrite changes no byte besides the address it looked up and the two check values; a miss changes nothing |
| Vips.VipFields | xdp-dp-ebpf/src/vip.rs:31-62 | on a hit the looked-up address, source or destination, becomes the mapped one; the other address, the protocol and both ports are kept |
| Vips.VipRoundTripIff | xdp-dp-ebpf/src/vip.rs:15-29 | a packet to the address a guest left with is rewritten for that guest iff the map leads from it back to the guest |
| Vips.CreateTwoWayIff | xdp-dp/src/control.rs:1013-1046 | creating a VIP keeps the map two-way iff the VIP was not mapped to another address |
| Vips.CreateDeleteVipIff | xdp-dp/src/control.rs:1013-1065 | creating and deleting a VIP undo each other iff no mapping from the VIP existed |
| Vips.AlwaysTwoWayIff | xdp-dp/src/control.rs:542-606 | over every run of VIP and interface calls the map is two-way throughout iff no creation claims a used address |
| Vips.VipReturnsOverRuns | xdp-dp-ebpf/src/vip.rs:15-62 | from an empty map, after every such run, a packet to the address a guest left with comes back to that guest |
| Vips.SharedVipLosesReplies | xdp-dp/src/control.rs:1013-1046 | two guests are given one VIP, and its replies go to the second |
| Vips.VipTable.CreateVip | xdp-dp/src/control.rs:1013-1046 | both directions are mapped, or an unknown interface or a guest with a VIP is refused |
| Vips.VipTable.DeleteVip | xdp-dp/src/control.rs:1050-1065 | both directions are removed, or a guest without VIP is reported |
| RewriteProofs.FastPathIsSlowPathIff | xdp-dp-ebpf/src/conntrack.rs:50-176 | applying a forward entry equals the NAT slow path byte for byte, iff the entry has a port, or no whole transport header follows, or port 0 replaces port 0 harmlessly |
| RewriteProofs.ZeroPortL4Iff | xdp-dp-ebpf/src/nat.rs:114-145 | writing port 0 over port 0 leaves the packet as the conntrack path leaves it, iff the check value is not 0xffff at that point |
| RewriteProofs.PortZeroDependsOnHeader | xdp-dp-ebpf/src/conntrack.rs:116 | a whole TCP packet on which a port-0 entry and the slow path differ, and its first 24 bytes, on which they agree |
| Tracker.TrackIsDecidedByLatestControl | xdp-dp-ebpf/src/conntrack.rs:186-205 | over every packet history the TCP state is determined by the latest SYN/FIN/RST packet and whether an ACK followed |
| Tracker.EstablishedIff | xdp-dp-ebpf/src/conntrack.rs:186-205 | a flow is ESTABLISHED iff its latest control packet is a pure SYN and a later packet had ACK |
| Tracker.StoredState | xdp-dp-ebpf/src/conntrack.rs:186-205 | the stored number is 5 after a reset, 4 after a FIN, 3 once an ACK follows the SYN, else 2 or 1, by the latest control packet |
| NatProofs.CandidateInRangeIff | xdp-dp-ebpf/src/nat.rs:56-66 | every probed port, 16-bit wrap-around included, is in the range iff the range is not reversed |
| NatProofs.FirstFreeSound | xdp-dp-ebpf/src/nat.rs:62-96 | probing returns a candidate whose reply key is unused, or all 64 candidates are taken |
| NatProofs.AllocPort | xdp-dp-ebpf/src/nat.rs:56-112 | the chosen port is the guest's own; on exhaustion it is one whose reply entry already exists |
| NatProofs.ProbingCompleteUpTo64 | xdp-dp-ebpf/src/nat.rs:56-97 | for ranges of at most 64 ports probing succeeds iff some port of the range is free |
| NatProofs.SnatKeepsInv | xdp-dp-ebpf/src/nat.rs:37-112 | a packet's NAT decision keeps ownership of all entries |
| NatProofs.CreateNatKeepsInv | xdp-dp/src/control.rs:1080-1135 | adding NAT keeps ranges disjoint, entries owned and the marker set exact |
| NatProofs.DeleteNatKeepsInv | xdp-dp/src/control.rs:1219-1256 | deleting NAT with its flush leaves no entry without an owner and the marker set exact |
| NatProofs.FlushIsExact | xdp-dp/src/control.rs:1181-1216 | the flush removes exactly the translation entries of the guest |
| NatProofs.RunKeepsInv | xdp-dp-ebpf/src/nat.rs:17-147 | ownership survives every interleaving of packets, control calls, aging and eviction |
| NatProofs.ReachableStatesAreSafe | xdp-dp-ebpf/src/nat.rs:17-147 | from power-up: entries owned, same-VNI ranges on one address disjoint, no address and port used by two guests |
| NatProofs.PortsNotShared | xdp-dp-ebpf/src/nat.rs:56-112 | two guests of a VNI never translate to the same address and port, even after probe exhaustion |
| NatProofs.SnatPortOwned | xdp-dp-ebpf/src/nat.rs:37-112 | a packet always leaves from an address and port its guest owns now |
| NatProofs.ReplyReachesOwner | xdp-dp-ebpf/src/ingress.rs:155-196 | a reply that finds a reply entry is rewritten to the one guest that owns the port it is addressed to |
| NatProofs.CreateNatStaysSafeIff | xdp-dp/src/control.rs:1096-1133 | after a granted NAT request, every allowed run keeps entries in their owners' ranges and no port with two guests, iff the range is not reversed |
| NatProofs.ReversedRangesShareAPort | xdp-dp/src/control.rs:1080-1135 | a run from power-up in which reversed ranges are granted to two guests and their flows leave from one address and port |
| NatProofs.ReversedRangeBreaksOwnership | xdp-dp/src/control.rs:1080-1135 | with a reversed range the first new flow gets an entry outside its owner's range |
| NatProofs.DetachKeepsInvIff | xdp-dp/src/control.rs:542-638 | detaching keeps the invariant iff the interface has no NAT |
| NatProofs.OrphanedRangeIsHandedOutTwice | xdp-dp/src/control.rs:542-638 | a concrete run in which, after such a detach, two guests hold the same ports |
| NatProofs.AllocationIsInjective | xdp-dp-ebpf/src/nat.rs:56-112 | from power-up, while nothing is removed and probing succeeds, distinct flows hold distinct ports and each reply entry leads back to its flow; the exact condition over all runs is NatPairing.AlwaysPairedIff |
| NatRanges.CreateNatStaysUnsharedIff | xdp-dp/src/control.rs:1096-1133 | after a granted NAT request, no allowed run ever puts two guests on one address and port, iff the range is not reversed or is [65535, 0) |
| NatRanges.ReversedGetsShared | xdp-dp/src/control.rs:1096-1133 | from every state around a reversed range other than [65535, 0) some allowed run makes a second guest use the first one's port |
| NatGrants.AttachGrantedIff | xdp-dp/src/control.rs:404-414 | an interface is attached iff its id is new and no interface of the VNI has its address |
| NatGrants.NatGrantedIff | xdp-dp/src/control.rs:1080-1135 | NAT is granted iff the interface exists without NAT and no range of its VNI and public address holds a port of the request, or lies strictly inside it or around it where one of them is empty |
| NatGrants.AttachDetach | xdp-dp/src/control.rs:404-606 | attaching and detaching undo each other |
| NatGrants.DetachTakesOwnIff | xdp-dp/src/control.rs:542-638 | detaching takes nobody else's NAT, and the interface's own iff nothing else uses the VNI |
| NatGrants.GrantDeleteIff | xdp-dp/src/control.rs:1080-1256 | granting and deleting NAT undo each other, conntrack and markers included, iff the guest is not at 0.0.0.0 or its VNI has no reply entry |
| NatGrants.DeletedIsFree | xdp-dp/src/control.rs:1219-1256 | after deletion no packet of the guest is translated, the NAT of others is as before, and the range can be granted again |
| Hashes.FirstChoiceIs | xdp-dp-ebpf/src/nat.rs:56-62 | a new flow gets the port at its hash modulo the size of the range, if that is free |
| Hashes.TupleTells | xdp-dp-ebpf/src/parse.rs:93-113 | changing any one byte of the 5-tuple changes the flow hash |
| Hashes.ByteTells64 | xdp-dp/src/maglev.rs:5-12 | backends that differ in one byte never have the same hash |
| Hashes.Vectors | xdp-dp/src/maglev.rs:5-12 | both hashes give the published value for the one-letter string "a" |
| NatGateway.Gateway.AllocPort | xdp-dp-ebpf/src/nat.rs:56-112 | the probing loop changes conntrack exactly as the allocation function says and returns its port |
| NatGateway.Gateway.NatSnatEgress | xdp-dp-ebpf/src/nat.rs:17-147 | maps, bytes and verdict of one SNAT call |
| NatGateway.Gateway.CtTouch | xdp-dp-ebpf/src/conntrack.rs:209-215 | a matched entry's time stamp and TCP state advance, nothing else changes |
| NatGateway.Gateway.CtEnsureDefault | xdp-dp-ebpf/src/conntrack.rs:235-255 | an untracked flow is tracked, its reverse direction only if free |
| NatGateway.Gateway.UplinkDemux | xdp-dp-ebpf/src/ingress.rs:155-196 | the reply entry under the zeroed key is applied and refreshed, or nothing happens |
| NatGateway.Gateway.ForwardDecisionV4 | xdp-dp-ebpf/src/egress.rs:34-129 | conntrack, firewall, VIP, route, SNAT, tracking and metering happen in the pipeline's order on maps and bytes |
| NatGateway.Gateway.UplinkAdmit | xdp-dp-ebpf/src/ingress.rs:239-283 | the ingress firewall refuses new flows only; what is neither balanced nor a NAT reply is tracked |
| EgressFate.FirewalledIsUntouched | xdp-dp-ebpf/src/egress.rs:57-68 | a refused packet is dropped before any map or byte changes |
| EgressFate.EgressFateIff | xdp-dp-ebpf/src/egress.rs:34-129 | exactly when each packet is dropped, passed up or forwarded, and between which addresses it leaves, whatever stages apply |
| EgressFate.InternalIsNotNatted | xdp-dp-ebpf/src/nat.rs:17-28 | without an external route network NAT changes no map and no byte |
| EgressFate.NotNattedKeepsNats | xdp-dp-ebpf/src/egress.rs:34-129 | a packet that is not NATed adds no NAT entry and keeps the translation of every entry |
| EgressFate.SeenIsRefreshed | xdp-dp-ebpf/src/egress.rs:46-56 | the entry of a packet seen before is refreshed, whatever happens to the packet |
| EgressFate.RoutedIsTracked | xdp-dp-ebpf/src/egress.rs:101-106 | every routed packet is tracked under the key it leaves with |
| EgressFate.AnswerIsTracked | xdp-dp-ebpf/src/conntrack.rs:235-255 | the first packet of a flow without NAT seeds the key of its mirrored answer |
| EgressFate.DefaultStarts | xdp-dp-ebpf/src/conntrack.rs:235-255 | both directions start with the first packet's flags and time, rewrite nothing, and overwrite no other entry |
| EgressFate.DemuxRefreshes | xdp-dp-ebpf/src/ingress.rs:155-196 | a hit reply entry gets the time and advances with the reply's flags; nothing else changes |
| EgressFate.FlagsAreTheHeaders | xdp-dp-ebpf/src/parse.rs:74-91 | ports and flags read from a segment are those its TCP header was encoded with |
| EgressFate.PortsBehindOptions | xdp-dp-ebpf/src/parse.rs:41-69 | ports and identifiers are found behind any options |
| UplinkFate.RefusedIff | xdp-dp-ebpf/src/ingress.rs:239-255 | a packet is refused iff its flow is new and the rules drop it, and then nothing changes |
| UplinkFate.SeededAnswerIsAdmitted | xdp-dp-ebpf/src/ingress.rs:239-255 | over every run that leaves the seeded entry, the answer to a flow without NAT is admitted whatever the rules |
| UplinkFate.NatReplyAdmittedIff | xdp-dp-ebpf/src/ingress.rs:239-255 | the immediate answer to a NATed flow is rewritten for the guest and then admitted iff the rules let it or the inverse of the guest's key was tracked |
| NatGateway.Gateway.CreateInterface | xdp-dp/src/control.rs:404-414 | an interface is refused iff its id or its (VNI, address) is in use |
| NatGateway.Gateway.DetachInterface | xdp-dp/src/control.rs:542-606 | the NAT entry goes with the last user of the VNI only |
| NatGateway.Gateway.CreateNat | xdp-dp/src/control.rs:1080-1135 | NAT is refused for unknown interfaces, existing NAT and overlapping ranges, else entry and marker are added |
| NatGateway.Gateway.DeleteNat | xdp-dp/src/control.rs:1219-1256 | entry, unused marker and the guest's translation entries are removed |
| NatGateway.Gateway.RemoveAll | xdp-dp/src/control.rs:1181-1216 | removing selected keys one by one removes exactly those |
| NatGateway.Gateway.GcSweep | xdp-dp/src/conntrack_gc.rs:33-51 | a sweep keeps exactly the entries that are not stale |
| NatRoundTrip.SnatOnTheWire | xdp-dp-ebpf/src/nat.rs:114-145 | the translated packet shows the public address and port and keeps the peer's |
| NatRoundTrip.NatRoundTrip | xdp-dp-ebpf/src/ingress.rs:155-196 | a mirrored reply that finds the reply entry is rewritten to exactly the original guest address and port (from port 0: address only), checksums kept |
| NatRoundTrip.SparedEntryKeepsXlate | xdp-dp-ebpf/src/nat.rs:56-112 | through every interleaving a NAT entry, forward or reply, that is not removed keeps its translation |
| NatRoundTrip.NatRoundTripOverRuns | xdp-dp-ebpf/src/ingress.rs:155-196 | the round trip from any invariant state over any run that does not remove the reply entry |
| NatRoundTrip.NatEcho | xdp-dp-ebpf/src/nat.rs:17-147 | for every packet of a new flow the peer's immediate answer reaches exactly the guest's address, and its port iff that is not 0 or the public one is 0, and checksums good at the guest come back good (blank ICMP with port 0 apart) |
| NatPipeline.EgressKeepsInv | xdp-dp-ebpf/src/egress.rs:34-129 | the whole egress pipeline keeps NAT ownership |
| NatPipeline.EgressKeepsChecksums | xdp-dp-ebpf/src/egress.rs:34-129 | a packet with acceptable checksums leaves the whole pipeline with acceptable checksums, unless it is a blank ICMP message and some range holds port 0 |
| NatPipeline.FastPathIsSnatPacketIff | xdp-dp-ebpf/src/nat.rs:56-58 | for a tracked flow in agreement with its configuration, SNAT changes no map and equals the entry's translation iff the port condition holds |
| NatPipeline.FastPathIsSnatPacket | xdp-dp-ebpf/src/nat.rs:56-145 | in every invariant state the two paths agree on tracked flows of guests whose range does not hold port 0 |
| NatPipeline.EgressIsOneTranslation | xdp-dp-ebpf/src/egress.rs:34-129 | an external packet of a NATed flow, new or tracked, leaves the pipeline as exactly one source translation to the flow's address and port: the slow path's bytes iff the flow is new or the port condition holds, and for tracked flows always the entry's translation |
| NatPipeline.EgressRoundTripOverRuns | xdp-dp-ebpf/src/egress.rs:34-129 | round trip through the whole pipeline and the uplink, over any run that does not remove the reply entry |
| FlowLife.TrackedFlowKeepsPort | xdp-dp-ebpf/src/nat.rs:56-58 | a tracked flow keeps address and port through every run that does not remove its forward entry |
| FlowLife.HistoryOverRuns | xdp-dp-ebpf/src/conntrack.rs:209-215 | an entry's TCP state is the fold of the flags of all packets that touched it, and its time stamp that of the latest |
| FlowLife.SweptIff | xdp-dp/src/conntrack_gc.rs:13-51 | over every run a sweep takes a NAT entry iff it was idle for a day (86400 * 10^9 ns), or for 30 s without being established by its own packets |
| FlowLife.OpeningIsUncounted | xdp-dp-ebpf/src/nat.rs:98-112 | the packet that opens a flow leaves its forward entry with an empty history |
| FlowLife.LaterPacketCounts | xdp-dp-ebpf/src/egress.rs:34-129 | every later packet of the guest adds its own flag byte to the forward entry |
| FlowLife.PortReturnsIff | xdp-dp-ebpf/src/nat.rs:56-112 | a flow whose forward entry is gone gets a given candidate iff that is the first free one, or the first of 64 taken ones |
| FlowLife.QuietFlowMovesPort | xdp-dp/src/conntrack_gc.rs:13-51 | a guest-opened TCP flow that is quiet for 30 s loses its forward but not its reply entry and moves to another port if one is found |
| NatPairing.AlwaysPairedIff | xdp-dp-ebpf/src/nat.rs:56-112 | over every run of all step kinds: each flow keeps a port of its own with a reply entry that leads back, iff no step takes or overwrites the reply entry of a flow that stays and no allocation falls back to a port not already the flow's own |
| NatPairing.StepPairedIff | xdp-dp-ebpf/src/nat.rs:17-147 | the same for one step of any kind |
| NatPairing.RemovalPairedIff | xdp-dp/src/conntrack_gc.rs:33-51 | a sweep or eviction keeps the pairs iff it takes no reply entry whose forward entry stays |
| NatPairing.DeleteNatPairedIff | xdp-dp/src/control.rs:1181-1256 | deleting NAT takes pairs as a whole, iff the guest is not at 0.0.0.0 or its VNI has no flow |
| NatPairing.SnatPairedIff | xdp-dp-ebpf/src/nat.rs:56-112 | an allocation keeps the pairs iff it finds a free candidate, or falls back to a reply entry that is the flow's own and claimed by no other flow |
| NatPairing.DefaultPairedIff | xdp-dp-ebpf/src/conntrack.rs:235-255 | default tracking keeps the pairs iff it overwrites no flow's reply entry |
| NatPairing.AllocatedIsNewIff | xdp-dp-ebpf/src/nat.rs:62-97 | the reply key of an allocated port is new iff one of the 64 candidates is free |
| NatPairing.AlwaysUniqueIff | xdp-dp-ebpf/src/nat.rs:68-71 | over every run ports stay unique per VNI, address and protocol iff no allocation chooses a live flow's port |
| NatPairing.SnatUniqueIff | xdp-dp-ebpf/src/nat.rs:56-112 | the same for one allocation |
| NatPairing.SweptReplySharesPort | xdp-dp/src/conntrack_gc.rs:33-51 | a family of runs in which nothing is exhausted and yet two flows of a guest share a port, because the first one's reply entry was swept while its forward entry was fresh |
| NatPairing.EchoReturnsIff | xdp-dp-ebpf/src/ingress.rs:155-196 | for every packet of a NATed flow, new, exhausted or tracked, the peer's immediate answer is rewritten for the flow's own address and port iff the flow then has its partner entry |
| NatPairing.PartnerAfterSnatIff | xdp-dp-ebpf/src/nat.rs:56-112 | after SNAT a new flow has its partner iff probing succeeded or the fallback's reply entry already led back to it; a tracked flow iff it had it before |
| NatPairing.PartnerRoundTripOverRuns | xdp-dp-ebpf/src/ingress.rs:155-196 | round trip for any packet of a flow that has its partner, over any run that does not remove the reply entry |
| NatPairing.LaterPacketReturns | xdp-dp-ebpf/src/ingress.rs:155-196 | every later packet of a tracked flow whose two entries were spared leaves from the same address and port, and its answers come back over every further run that spares the reply entry |
| NatPairing.EgressTrackedRoundTrip | xdp-dp-ebpf/src/egress.rs:34-129 | the round trip of a tracked flow's packet through the whole pipeline and the uplink |
| Nat64.EmbedExtract | xdp-dp-ebpf/src/nat64.rs:38-59 | embedding and extracting an IPv4 address are inverse on the well-known prefix (section 2.1 of RFC 6052) |
| Nat64.WriteOuterV6 | xdp-dp-ebpf/src/encap.rs:46-65 | the outer headers replace the first 54 bytes, or the frame is too short and untouched |
| Nat64.EncapAndRedirect | xdp-dp-ebpf/src/encap.rs:15-40 | encapsulation puts the outer headers in front of the packet behind the Ethernet header |
| Nat64.NatPort | xdp-dp-ebpf/src/nat64.rs:359-424 | the inlined NAT decision of NAT64 is the same decision as plain NAT's, with NAT64-marked entries |
| Nat64.RewriteL4V4 | xdp-dp-ebpf/src/nat64.rs:478-550 | the transport rewrite at any offset changes the tail only and as specified |
| Nat64.TranslateXdp | xdp-dp-ebpf/src/nat64.rs:426-550 | dropping 20 head bytes and translating leaves the IPv4 packet behind the Ethernet header |
| Nat64.TranslateTc | xdp-dp-ebpf/src/nat64.rs:766-883 | inserting 20 bytes and translating leaves the same IPv4 packet behind the room for the outer headers |
| Nat64.EgressXdp | xdp-dp-ebpf/src/nat64.rs:262-575 | maps, verdict and frame of the XDP program: redirected, untouched without flow or NAT decision, or translated and 20 bytes shorter when a route or the host record is missing |
| Nat64.EgressTc | xdp-dp-ebpf/src/nat64.rs:656-931 | maps, verdict and frame of the tc program in the same terms: redirected, untouched, or translated; without a route or host record the translated packet lies behind the grown, otherwise unchanged head |
| Nat64.RewriteL4V6 | xdp-dp-ebpf/src/nat64.rs:1079-1150 | the transport rewrite of the ingress path changes the tail only and as specified |
| Nat64.Ingress | xdp-dp-ebpf/src/nat64.rs:947-1153 | verdict and emitted frame of the ingress path; frames it passes on are untouched |
| Nat64.XdpAndTcAgreeIff | xdp-dp-ebpf/src/nat64.rs:656-931 | the two egress programs emit the same frame iff buffer length and IPv6 payload length agree modulo 2^16 |
| Nat64Wire.TakenIff | xdp-dp-ebpf/src/nat64.rs:262-357 | an encoded IPv6 frame is taken iff its destination is under 64:ff9b::/96, its length is covered and it starts with TCP, UDP or an echo request; the flow's fields are those encoded |
| Nat64Wire.EgressVerdictIff | xdp-dp-ebpf/src/nat64.rs:359-575 | sent out iff taken, NATed, routed and the host record is there; failed iff only the record is missing |
| Nat64Wire.OuterOnTheWire | xdp-dp-ebpf/src/encap.rs:46-65 | the emitted outer header: MACs, type, version, next header 4, hop limit 64, the guest's underlay to the route's next hop |
| Nat64Wire.InnerOnTheWire | xdp-dp-ebpf/src/nat64.rs:426-476 | the emitted IPv4 header, field by field |
| Nat64Wire.DeliveredOnTheWire | xdp-dp-ebpf/src/nat64.rs:1040-1078 | the delivered frame: MACs, type, version, length, next header, hop limit, embedded source, guest destination |
| Nat64Wire.DeliveredIff | xdp-dp-ebpf/src/nat64.rs:947-1040 | a reply is delivered iff the tap has an IPv6 address and the packet inside is whole |
| Nat64Proofs.SwapVerifiesIff | xdp-dp-ebpf/src/nat64.rs:187-224 | exchanging a folded pseudo-header and a port keeps a total verifying, and keeps a broken one broken |
| Nat64Proofs.SwapBackVerifiesIff | xdp-dp-ebpf/src/nat64.rs:226-247 | the same for the inward direction |
| Nat64Proofs.FoldsArePseudo | xdp-dp-ebpf/src/nat64.rs:145-186 | the 16-bit folds of both pseudo-headers represent the full sums |
| Nat64Proofs.HeaderVerifies | xdp-dp-ebpf/src/nat64.rs:82-95 | every IPv4 header NAT64 writes verifies |
| Nat64Proofs.EchoToV4VerifiesIff | xdp-dp-ebpf/src/nat64.rs:97-106 | a translated echo request verifies iff its data words sum to a multiple of 0xffff |
| Nat64Proofs.EchoToV6VerifiesIff | xdp-dp-ebpf/src/nat64.rs:108-141 | a translated echo reply verifies iff data words and the length beyond 8 cancel out |
| Nat64Proofs.EgressVerifiesIff | xdp-dp-ebpf/src/nat64.rs:262-575 | what leaves the host: addresses, hop limit, a verifying header, and a transport part that verifies iff the guest's IPv6 packet did (sections 4.5 and 5.5 of RFC 7915 ask for it) |
| Nat64Proofs.EgressSegment | xdp-dp-ebpf/src/nat64.rs:478-550 | the NAT port is the source port or identifier and no other transport byte than the check value changes (echo: type and code) |
| Nat64Proofs.IngressVerifiesIff | xdp-dp-ebpf/src/nat64.rs:947-1153 | what the guest receives: embedded source, guest destination, the reply's payload length, and a transport part that verifies iff the reply's did |
| Nat64Proofs.IngressSegment | xdp-dp-ebpf/src/nat64.rs:1079-1150 | ingress restores the echo identifier and changes no other transport byte than the check value (echo: type and code) |
| Nat64Proofs.Nat64RoundTrip | xdp-dp-ebpf/src/ingress.rs:205-209 | a mirrored IPv4 reply is delivered to the tap's guest with the reply's length and validity, and answers the guest's packet iff the tap's port record holds the address it was sent from and the entry tells the port |
| Nat64Proofs.Nat64RoundTripOverRuns | xdp-dp-ebpf/src/nat64.rs:947-1153 | the same from any invariant state over any run that does not remove the reply entry |
| Nat64Proofs.Nat64Echo | xdp-dp-ebpf/src/nat64.rs:262-575 | for every IPv6 packet that opens a translatable flow the peer's immediate answer comes back as an IPv6 frame of the same size, verifying if the guest's packet did, and mirrored iff the port record holds the guest's address and the entry tells the port |
| Maglev.Fnv1a | xdp-dp/src/maglev.rs:5-12 | the hash loop computes the recursive FNV-1a value with the seed mixed into the basis |
| Maglev.Prime | xdp-dp/src/maglev.rs:2 | the table size has no divisor between 2 and itself |
| Maglev.Inverse | xdp-dp/src/maglev.rs:26-29 | every skip is invertible modulo the table size |
| Maglev.ProbeReaches | xdp-dp/src/maglev.rs:34-39 | every slot is among the first 1021 choices of every backend |
| Maglev.ProbeInjective | xdp-dp/src/maglev.rs:34-39 | no slot comes up twice among those choices |
| Maglev.Advance | xdp-dp/src/maglev.rs:34-39 | the inner search stops at the first empty choice, with the cursor below 1021 |
| Maglev.TableComplete | xdp-dp/src/maglev.rs:16-48 | every slot of a nonempty list's table names a backend of the list |
| Maglev.TableBalanced | xdp-dp/src/maglev.rs:32-46 | backend i holds floor(1021/n) slots, one more iff i < 1021 mod n, for every n |
| Maglev.FilledShare | xdp-dp/src/maglev.rs:32-46 | at every point of the build each backend holds exactly one slot per turn it had |
| Maglev.TurnOwns | xdp-dp/src/maglev.rs:16-48 | turn j gives backend j mod n the first slot of its own order, offset plus k times skip, that no earlier turn took, and the table keeps it |
| Maglev.FirstHoldsItsOffset | xdp-dp/src/maglev.rs:22-46 | the first backend holds the slot at its own offset |
| Maglev.FilledKeeps | xdp-dp/src/maglev.rs:32-46 | a slot that is taken stays with its backend |
| Maglev.Parameters | xdp-dp/src/maglev.rs:22-29 | the hashing loop computes every backend's offset and skip |
| Maglev.Build | xdp-dp/src/maglev.rs:16-48 | the nested loops terminate with the round-robin reference table |
| LoadBalancer.RunKeepsInv | xdp-dp/src/control.rs:818-1009 | over every run: live balancers have different issued tables, service keys are exactly the live ones, and slots are exactly the complete tables of live balancers with backends |
| LoadBalancer.TableIdsNeverReused | xdp-dp/src/control.rs:828-832 | each granted creation of a run gets a larger table id than all issued before it, until the counter wraps |
| LoadBalancer.SlotsAreLive | xdp-dp/src/control.rs:986-1009 | in every reachable state a slot belongs to a live balancer with backends, and its table is complete |
| LoadBalancer.SelectLive | xdp-dp-ebpf/src/lb.rs:10-41 | a live key selects exactly the backend the table gives to the hash |
| LoadBalancer.SelectionIsSafe | xdp-dp-ebpf/src/lb.rs:10-41 | in every reachable state a live key selects a current backend iff there is one, and an unowned key selects nothing |
| LoadBalancer.RemovedBackendIsGone | xdp-dp/src/control.rs:907-939 | after its removal a backend is selected by no key of that balancer and no flow |
| LoadBalancer.DeleteKeepsSelectionIff | xdp-dp/src/control.rs:986-1009 | a flow served through another table survives a deletion iff the deleted balancer does not list its key |
| LoadBalancer.CreateKeepsSelectionIff | xdp-dp/src/control.rs:818-877 | a served flow survives a creation iff the new balancer does not claim its key |
| LoadBalancer.CreateUndisturbedIff | xdp-dp/src/control.rs:818-877 | a granted creation disturbs no served flow iff it claims no key of a live balancer with backends |
| LoadBalancer.SharedKeyLosesServiceIff | xdp-dp/src/control.rs:986-1009 | creating and deleting a balancer takes a served flow down iff the newcomer listed its key |
| LoadBalancer.ForwardIsSafe | xdp-dp-ebpf/src/lb.rs:10-41 | in every reachable state a packet to a live service goes to the backend its 5-tuple owns, and other packets are not balanced |
| LbHistory.AddAppends | xdp-dp/src/control.rs:880-904 | an addition is granted iff the balancer is known and the backend new; it goes behind all others and nothing else changes |
| LbHistory.RemoveRefusedIff | xdp-dp/src/control.rs:907-939 | a removal is granted iff the backend is listed, and changes nothing otherwise |
| LbHistory.RemoveKeepsOthers | xdp-dp/src/control.rs:907-939 | all other backends stay, in order, and nothing else changes |
| LbHistory.AddThenRemove | xdp-dp/src/control.rs:880-939 | adding a backend and removing it restores all records and service keys |
| LbHistory.ListedOwnsSlot | xdp-dp/src/control.rs:880-904 | while there are at most 1021 backends each listed one has a slot of the table |
| LbHistory.ListedIsSelected | xdp-dp-ebpf/src/lb.rs:10-41 | in every reachable state each of them is selected by some hash |
| LbHistory.ListedIff | xdp-dp/src/control.rs:818-1009 | over every run of calls a balancer exists iff created and not deleted since, and a backend is listed iff added since that creation and not removed since |
| LbHistory.RecordStems | xdp-dp/src/control.rs:818-877 | a live balancer has address and ports of the first creation since its latest deletion |
| LbHistory.CallKeepsOrder | xdp-dp/src/control.rs:880-939 | no call changes the order of two backends that stay |
| LoadBalancer.Balancers.CreateLoadBalancer | xdp-dp/src/control.rs:818-877 | a fresh table id and one service entry per port, or refusal of a known id |
| LoadBalancer.Balancers.WriteTable | xdp-dp/src/control.rs:892-902 | all 1021 slots of the table hold the backend the built table names |
| LoadBalancer.Balancers.AddLbTarget | xdp-dp/src/control.rs:880-904 | the backend is appended once and the table reprogrammed |
| LoadBalancer.Balancers.DelLbTarget | xdp-dp/src/control.rs:907-939 | the backend is dropped and the table reprogrammed, or cleared when the list is empty |
| LoadBalancer.Balancers.DeleteLoadBalancer | xdp-dp/src/control.rs:986-1009 | record, service keys and slots are removed |
| Meter.Meters.MeterPass | xdp-dp-ebpf/src/meter.rs:35-67 | verdict and stored buckets of one call; interfaces without a meter are unlimited |
| Meter.RefillBound | xdp-dp-ebpf/src/meter.rs:11-20 | a refill never exceeds rate times elapsed time, even when the product wraps |
| Meter.RefillExact | xdp-dp-ebpf/src/meter.rs:11-20 | below 2^64/10^9 bytes per second the refill is the rate times the capped time, rounded down |
| Meter.TakeBudget | xdp-dp-ebpf/src/meter.rs:7-30 | tokens kept plus bytes let through never exceed the burst nor the old tokens plus the accrued rate |
| Meter.TotalRateBound | xdp-dp-ebpf/src/meter.rs:35-67 | in every window of every ordered run all traffic is at most one burst plus rate times window |
| Meter.PublicRateBound | xdp-dp-ebpf/src/meter.rs:35-67 | the same for external traffic and the public rate |
| Meter.TokensWithinBurst | xdp-dp-ebpf/src/meter.rs:21-29 | tokens never exceed the burst |
| Meter.NewMeterOk | xdp-dp/src/control.rs:368-381 | fresh buckets start within their burst; refill arithmetic does not wrap iff the rate is at most 147573 Mbit/s |
| MeterService.PassIff | xdp-dp-ebpf/src/meter.rs:7-30 | a frame passes a bucket iff it is no longer than the refilled, capped stock; a pass costs its length, a drop nothing |
| MeterService.PassInTimeIff | xdp-dp-ebpf/src/meter.rs:7-30 | the same in rate and time without rounding, for rates that do not wrap |
| MeterService.DropIsChargedIff | xdp-dp-ebpf/src/meter.rs:35-67 | a dropped frame costs the total bucket its length iff only the public bucket refused it |
| MeterService.AllPassIff | xdp-dp-ebpf/src/meter.rs:7-30 | a bucket lets a whole run through iff no window sends more than a full bucket and its refills, nor the whole run more than the stock and all refills |
| MeterService.WithinRateIsNeverDropped | xdp-dp-ebpf/src/meter.rs:7-30 | traffic within burst plus rate times time in every window, less one byte a call, loses nothing |
| MeterService.NothingDroppedIff | xdp-dp-ebpf/src/meter.rs:35-67 | over every run nothing is dropped iff all traffic fits the total bucket and external traffic the public one; rate 0 is no limit |
| MeterService.NewBucketIs | xdp-dp/src/control.rs:368-381 | rate, burst and stock of a configured bucket, saturation included |
| MeterService.ConfiguredIsServed | xdp-dp/src/control.rs:368-381 | the promise in rate and time holds for every configured rate from 1 to 147573 Mbit/s |
| Firewall.ScanIsFirstMatch | xdp-dp-ebpf/src/firewall.rs:73-83 | scanning mixed-direction slots in order finds the first match of the direction's own list |
| Firewall.CountsByDirection | xdp-dp/src/control.rs:1263-1293 | the counters are the number of egress rules and of all others |
| Firewall.EvaluatedIsDecisionIff | xdp-dp-ebpf/src/firewall.rs:40-84 | what the datapath decides is the whitelist decision of the direction, iff no rule of a third direction stands in for a missing ingress rule |
| Firewall.RuleTables.Reprogram | xdp-dp/src/control.rs:1263-1293 | slots and counters of one interface refine its list; slots and counters of other interfaces are as before |
| Firewall.RuleTables.AddFwRule | xdp-dp/src/control.rs:1297-1321 | the rule is appended, or refused for unknown interface, full list or known id; tables keep refining the lists |
| Firewall.RuleTables.DelFwRule | xdp-dp/src/control.rs:1325-1339 | exactly the rules of that id go; tables keep refining the lists |
| Firewall.RuleTables.FwEvalDir | xdp-dp-ebpf/src/firewall.rs:40-84 | the datapath's slot scan decides from the ordered list, and for lists of proper directions makes its first-match decision |
| RuleMeaning.InPrefixIff | xdp-dp-common/src/lib.rs:391-398 | under the mask of a prefix length a rule accepts exactly the addresses with the network's leading bits |
| RuleMeaning.MaskIsLeadingOnes | xdp-dp/src/grpc.rs:136-140 | the mask of a prefix length as a number |
| RuleMeaning.AcceptsIff | xdp-dp-common/src/lib.rs:375-412 | which packets a rule accepts, by their bytes: networks, protocol, port ranges, ICMP type and code with 0xffff for any |
| RuleMeaning.DecisionIs | xdp-dp-ebpf/src/firewall.rs:40-84 | the first rule of the direction that matches decides; without one, drop iff the direction has a rule |
| RuleMeaning.RemovalKeepsOthers | xdp-dp/src/control.rs:1325-1339 | removing a rule leaves all others, in order |
| RuleMeaning.AddThenRemove | xdp-dp/src/control.rs:1297-1339 | adding a rule and removing it restores the list |
| NeighborNat.RetainFacts | xdp-dp/src/control.rs:576-589 | retaining keeps exactly the entries not dropped, and disjoint ranges disjoint |
| NeighborNat.RetainInOrder | xdp-dp/src/control.rs:576-589 | retaining keeps the order of what it keeps |
| NeighborNat.OnlyOwner | xdp-dp-ebpf/src/nat.rs:151-175 | with disjoint ranges no second entry covers the same address and port |
| NeighborNat.ClashesIff | xdp-dp/src/control.rs:1724-1760 | a new range is kept out iff an entry of the address holds one of its ports, or is empty and strictly inside |
| NeighborNat.DropsIff | xdp-dp/src/control.rs:1764-1784 | which entries each removal names |
| NeighborNat.NeighborTable.Reprogram | xdp-dp/src/control.rs:1714-1721 | the first slots hold the vector and the counter its length; stale slots stay |
| NeighborNat.NeighborTable.AddNeighborNat | xdp-dp/src/control.rs:1724-1760 | an entry is added iff there is room and no range of the address overlaps, in any VNI |
| NeighborNat.NeighborTable.DelNeighborNat | xdp-dp/src/control.rs:1764-1784 | exactly the entries of that range go |
| NeighborNat.NeighborTable.PurgeVni | xdp-dp/src/control.rs:576-589 | exactly the entries of the VNI go, all others stay in order |
| NeighborNat.NeighborTable.Lookup | xdp-dp-ebpf/src/nat.rs:151-175 | the scan returns the underlay of the one entry covering the port, or nothing iff no entry does |
| Dhcp.WalkMessageType | xdp-dp-common/src/lib.rs:898-946 | the byte-at-a-time machine returns the last byte of the last complete nonempty option 53 that a recursive decoder finds |
| Dhcp.ParseRequest | xdp-dp-common/src/lib.rs:870-968 | a request is recognised iff the frame is one and its scanned options (128 bytes at most) say DISCOVER or REQUEST |
| Dhcp.DecodeAppend | xdp-dp-common/src/lib.rs:898-946 | decoding distributes over a prefix of whole options |
| Dhcp.BlockDecodes | xdp-dp-common/src/lib.rs:1002-1096 | the option area of every reply decodes to exactly the intended options and ends at its END byte |
| Dhcp.ClientReads | xdp-dp-common/src/lib.rs:1002-1096 | the values a client decodes: type, lease, server, mask, both classless routes, and MTU, name servers and host name iff there are any |
| Dhcp.LooksLikeRequestIff | xdp-dp-common/src/lib.rs:870-897 | which bytes make a frame a request |
| Dhcp.LastTypeIs | xdp-dp-common/src/lib.rs:898-946 | the latest nonempty message-type option decides, by its last byte |
| Dhcp.WriteOptions | xdp-dp-common/src/lib.rs:1002-1096 | the writer fills the option area in place with those bytes and nothing else, or refuses a short buffer untouched |

## Left out

- Map insertion failures and capacity limits of BPF maps; LRU eviction appears as arbitrary removal only.
- Races between CPUs on METER and CONNTRACK, and the gap between snapshot and removal in the aging task.
- gRPC handlers, address text encoding, CLI, program loading, pinning, sysfs: plumbing without state of its own.
- NatGateway.Gateway.CreateInterface: the IPv6 uniqueness check, preferred underlays and the interface's other tables are not modelled.
- NatGateway.Gateway.CreateNat: the preferred-underlay collision check is not modelled.
- LoadBalancer.Balancers.CreateLoadBalancer: the balancer's own UNDERLAY entry is not modelled.
- NatGateway.Gateway.ForwardDecisionV4: firewall verdict, routes and meter verdict are parameters, and the bytes written for local delivery or encapsulation after the decision are not modelled.
- NatGateway.Gateway.DetachInterface: models interface records and NAT only; routes, VIPs and firewall slots (which the original does not clear) are not part of this state.
- Nat64.EgressXdp: helper return codes count as success.
- Nat64.EgressTc: the same, and pulling data into the linear part has no counterpart.
- NatRoundTrip.NatRoundTripOverRuns: this and the other round trips leave out a guest at address 0.0.0.0, whose flow key can be a reply key.
- LoadBalancer.SelectionIsSafe: selectors for IPv6 and for ICMP errors are not modelled; runs stop before the table counter wraps (2^32 creations).
- Minimal disruption of Maglev tables: the builder gives no such guarantee per slot.
- Dhcp.WriteOptions: the option area only; the fixed-offset BOOTP, UDP, IP and Ethernet bytes of the reply are not modelled.
- EgressFate.EgressFateIff: an IPv4 header that claims fewer than 20 bytes, where a check value may overlap an address, is covered by EgressFate.FirewalledIsUntouched and Vips.VipFrame only.
- Vips.VipTable.CreateVip: the preferred-underlay collision check is not modelled.
- UplinkFate.NatReplyAdmittedIff: neighbor forwarding and the echo responder in front of the ingress firewall are not part of this model, and a flow from port 0 is left out.
- IP options and fragments are translated by none of the checksum results; conntrack translation skips headers with options as the code does.
- ICMP echo responder, re-forwarding to neighbors, ARP/ND responders, DHCPv6, MAC learning, inspect and debug logging: fixed-offset byte writes without state.
- A frame is a resizable byte string; kernel headroom, tailroom and verifier bounds checks are not modelled.
