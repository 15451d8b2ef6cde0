/** Machine integers, addresses and the option type shared by every module. */
module Types {
  type u8 = x: int | 0 <= x < 0x100
  type u16 = x: int | 0 <= x < 0x1_0000
  type u32 = x: int | 0 <= x < 0x1_0000_0000
  type u64 = x: int | 0 <= x < 0x1_0000_0000_0000_0000

  datatype Option<+T> = None | Some(value: T)

  /** An IPv4 address in network byte order. */
  datatype Ip4 = Ip4(b0: u8, b1: u8, b2: u8, b3: u8) {
    function Hi(): u16 { b0 * 256 + b1 }

    function Lo(): u16 { b2 * 256 + b3 }
  }

  const ANY_IP4 := Ip4(0, 0, 0, 0)

  /** An IPv6 address (also an underlay endpoint) in network byte order. */
  type Ip6 = s: seq<u8> | |s| == 16 witness seq(16, _ => 0)

  /** Names handed over by the control-plane API: interface, balancer and rule ids. */
  type Id = seq<u8>
}
