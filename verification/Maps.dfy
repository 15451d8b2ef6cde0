/** Keys, values and flag bits of the maps shared by datapath and control plane. */
module Maps {
  import opened Types

  datatype CtKey = CtKey(vni: u32, src: Ip4, dst: Ip4, sport: u16, dport: u16, proto: u8)

  datatype CtEntry = CtEntry(
    lastSeen: u64, xlateIp: Ip4, xlatePort: u16, flags: bv8, tcpState: u8, fwallAction: u8)

  const CT_REWRITE_SRC: bv8 := 0x01
  const CT_REWRITE_DST: bv8 := 0x02
  const CT_F_SRC_NAT: bv8 := 0x04
  const CT_F_DEFAULT: bv8 := 0x10
  const CT_F_NAT64: bv8 := 0x40

  predicate Has(flags: bv8, mask: bv8) { flags & mask != 0 }

  datatype NatKey = NatKey(vni: u32, ip: Ip4)

  /** A guest's public address and its source-port range [portMin, portMax). */
  datatype NatValue = NatValue(natIp: Ip4, portMin: u16, portMax: u16)

  datatype VipKey = VipKey(vni: u32, ip: Ip4)
}
