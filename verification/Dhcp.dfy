/** DHCPv4 options: a byte-at-a-time walker against a recursive decoder, and the option block writer. */
module Dhcp {
  import opened Types
  import opened Bytes

  const OPT_PAD: u8 := 0
  const OPT_END: u8 := 255
  const OPT_MESSAGE_TYPE: u8 := 53
  const F_BOOTP: nat := 42
  const F_OPTS: nat := 282
  const OPTS_SCAN_BYTES: nat := 128
  const OPT_BLOCK_MAX: nat := 146
  const REPLY_LEN: nat := F_OPTS + OPT_BLOCK_MAX

  // ---------------------------------------------------------------- the decoder (section 2 of RFC 2132)

  datatype Opt = Opt(code: u8, value: seq<u8>)

  /** The complete options of a byte string, up to END or a truncated option. */
  function Decode(b: seq<u8>): seq<Opt> {
    if b == [] then []
    else if b[0] == OPT_PAD then Decode(b[1..])
    else if b[0] == OPT_END || |b| < 2 || |b| < 2 + b[1] as nat then []
    else [Opt(b[0], b[2..2 + b[1] as nat])] + Decode(b[2 + b[1] as nat..])
  }

  /** The last byte of the last nonempty message-type option, or `seen` if there is none. */
  function LastType(opts: seq<Opt>, seen: u8): u8 {
    if opts == [] then seen
    else LastType(opts[1..],
                  if opts[0].code == OPT_MESSAGE_TYPE && opts[0].value != [] then opts[0].value[|opts[0].value| - 1]
                  else seen)
  }

  predicate IsType(o: Opt) { o.code == 53 && o.value != [] }

  /** Option `i` is the latest nonempty message-type option. */
  ghost predicate LatestType(opts: seq<Opt>, i: nat) {
    i < |opts| && IsType(opts[i]) && forall j | i < j < |opts| :: !IsType(opts[j])
  }

  lemma LatestTypeCons(opts: seq<Opt>, i: nat)
    requires LatestType(opts, i) && i > 0
    ensures LatestType(opts[1..], i - 1)
  {
    var rest := opts[1..];
    assert rest[i - 1] == opts[i] && forall j | 0 <= j < |rest| :: rest[j] == opts[j + 1];
  }

  /** Hence the latest nonempty message-type option decides, by its last byte. */
  lemma {:induction false} LastTypeIs(opts: seq<Opt>, seen: u8, i: nat)
    requires LatestType(opts, i)
    ensures LastType(opts, seen) == opts[i].value[|opts[i].value| - 1]
    decreases |opts|
  {
    var rest := opts[1..];
    var next := if IsType(opts[0]) then opts[0].value[|opts[0].value| - 1] else seen;
    assert LastType(opts, seen) == LastType(rest, next);
    if i > 0 {
      LatestTypeCons(opts, i);
      LastTypeIs(rest, next, i - 1);
    } else {
      assert forall j | 0 <= j < |rest| :: rest[j] == opts[j + 1];
      NoTypeLeft(rest, next);
    }
  }

  lemma {:induction false} NoTypeLeft(opts: seq<Opt>, seen: u8)
    requires forall i | 0 <= i < |opts| :: !IsType(opts[i])
    ensures LastType(opts, seen) == seen
  {
    if opts != [] {
      assert forall j | 0 <= j < |opts[1..]| :: opts[1..][j] == opts[j + 1];
      assert !IsType(opts[0]);
      NoTypeLeft(opts[1..], seen);
    }
  }

  /** A byte string of whole options and padding only. */
  predicate Complete(b: seq<u8>) {
    b == []
    || (b[0] == OPT_PAD && Complete(b[1..]))
    || (b[0] != OPT_PAD && b[0] != OPT_END && |b| >= 2 && |b| >= 2 + b[1] as nat && Complete(b[2 + b[1] as nat..]))
  }

  /** The shape of `x + y` beyond the first option of `x`. */
  lemma AppendTail(x: seq<u8>, y: seq<u8>, n: nat)
    requires n <= |x|
    ensures (x + y)[n..] == x[n..] + y
    ensures n >= 2 ==> (x + y)[2..n] == x[2..n]
  {
  }

  lemma DecodeHead(b: seq<u8>)
    ensures b != [] && b[0] == OPT_PAD ==> Decode(b) == Decode(b[1..])
    ensures |b| >= 2 && b[0] != OPT_PAD && b[0] != OPT_END && |b| >= 2 + b[1] as nat ==>
              var n := 2 + b[1] as nat; Decode(b) == [Opt(b[0], b[2..n])] + Decode(b[n..])
  {
  }

  /** Length of the padding byte or whole option at the head of a complete string. */
  function HeadLen(x: seq<u8>): (n: nat)
    requires Complete(x) && x != []
    ensures 0 < n <= |x| && Complete(x[n..])
  {
    if x[0] == OPT_PAD then 1 else 2 + x[1] as nat
  }

  /** The options a head of that length contributes. */
  function HeadOpts(x: seq<u8>, n: nat): seq<Opt>
    requires 0 < n <= |x|
  {
    if x[0] == OPT_PAD || n < 2 then [] else [Opt(x[0], x[2..n])]
  }

  lemma DecodeByHead(x: seq<u8>, y: seq<u8>)
    requires Complete(x) && x != []
    ensures var n := HeadLen(x); Decode(x + y) == HeadOpts(x, n) + Decode(x[n..] + y)
  {
    var n := HeadLen(x);
    AppendTail(x, y, n);
    DecodeHead(x + y);
  }

  /** Decoding distributes over a whole-option prefix. */
  lemma {:induction false} DecodeAppend(x: seq<u8>, y: seq<u8>)
    requires Complete(x)
    ensures Decode(x + y) == Decode(x) + Decode(y)
    decreases |x|
  {
    hide Decode, Complete, HeadOpts;
    if x == [] {
      assert x + y == y;
      DecodeNone();
    } else {
      var n := HeadLen(x);
      DecodeByHead(x, y);
      DecodeByHead(x, []);
      assert x + [] == x && x[n..] + [] == x[n..];
      DecodeAppend(x[n..], y);
    }
  }

  lemma DecodeNone()
    ensures Decode([]) == []
  {
  }

  lemma {:induction false} CompleteAppend(x: seq<u8>, y: seq<u8>)
    requires Complete(x)
    ensures Complete(x + y) <==> Complete(y)
    decreases |x|
  {
    if x == [] {
      assert x + y == y;
    } else {
      var n := if x[0] == OPT_PAD then 1 else 2 + x[1] as nat;
      AppendTail(x, y, n);
      CompleteAppend(x[n..], y);
    }
  }

  /** The message type of the options from `at` on. */
  function TypeFrom(b: seq<u8>, at: nat, seen: u8): u8
    requires at <= |b|
  {
    LastType(Decode(b[at..]), seen)
  }

  lemma TypePastPad(b: seq<u8>, at: nat, seen: u8)
    requires at < |b| && b[at] == OPT_PAD
    ensures TypeFrom(b, at, seen) == TypeFrom(b, at + 1, seen)
  {
    assert b[at..][1..] == b[at + 1..];
  }

  lemma TypePastOption(b: seq<u8>, at: nat, seen: u8)
    requires at + 2 <= |b| && b[at] != OPT_PAD && b[at] != OPT_END && at + 2 + b[at + 1] as nat <= |b|
    ensures var n := at + 2 + b[at + 1] as nat;
            TypeFrom(b, at, seen)
            == TypeFrom(b, n, if b[at] == OPT_MESSAGE_TYPE && n > at + 2 then b[n - 1] else seen)
  {
    var n, c := 2 + b[at + 1] as nat, b[at..];
    var o := Opt(c[0], c[2..n]);
    assert c[n..] == b[at + n..];
    assert ([o] + Decode(c[n..]))[1..] == Decode(c[n..]);
  }

  lemma TypeAtStop(b: seq<u8>, at: nat, seen: u8)
    requires at <= |b|
    requires at < |b| && b[at] != OPT_END ==>
               b[at] != OPT_PAD && (at + 2 > |b| || at + 2 + b[at + 1] as nat > |b|)
    ensures TypeFrom(b, at, seen) == seen
  {
  }

  // ---------------------------------------------------------------- the walker

  datatype Phase = Code | Length | Value

  /** Where the machine is inside the option that starts at `at`, having read up to `i`. */
  ghost predicate Reading(b: seq<u8>, at: nat, i: nat, phase: Phase, isType: bool, remain: nat) {
    at <= i <= |b| &&
    if phase == Code then i == at
    else
      && at < i && b[at] != OPT_PAD && b[at] != OPT_END && isType == (b[at] == OPT_MESSAGE_TYPE)
      && if phase == Length then i == at + 1
         else at + 2 <= i && 0 < remain && i + remain == at + 2 + b[at + 1] as nat
  }

  /** The option state machine: one byte per step, whatever the option lengths. */
  method WalkMessageType(b: seq<u8>) returns (msgType: u8)
    ensures msgType == LastType(Decode(b), 0)
  {
    assert b[0..] == b;
    hide Decode, LastType;
    msgType := 0;
    var phase, isType, remain: nat := Code, false, 0;
    var i := 0;
    ghost var at := 0;
    while i < |b|
      invariant Reading(b, at, i, phase, isType, remain)
      invariant TypeFrom(b, at, msgType) == TypeFrom(b, 0, 0)
      decreases |b| - i
    {
      hide TypeFrom;
      var c := b[i];
      i := i + 1;
      match phase {
        case Code =>
          if c == OPT_PAD {
            TypePastPad(b, at, msgType);
            at := i;
          } else if c == OPT_END {
            break;
          } else {
            isType := c == OPT_MESSAGE_TYPE;
            phase := Length;
          }
        case Length =>
          remain := c;
          if remain == 0 {
            TypePastOption(b, at, msgType);
            at := i;
            phase := Code;
          } else {
            phase := Value;
          }
        case Value =>
          ghost var before := msgType;
          if isType && remain == 1 {
            msgType := c;
          }
          remain := remain - 1;
          if remain == 0 {
            TypePastOption(b, at, before);
            at := i;
            phase := Code;
          }
      }
    }
    TypeAtStop(b, at, msgType);
  }

  datatype Request = Request(replyType: u8, clientMac: seq<u8>, xidSecsFlags: seq<u8>)

  predicate LooksLikeRequest(p: seq<u8>) {
    && |p| >= F_OPTS && W(p, 12) == 0x0800 && p[14] as int % 16 == 5 && p[23] == 17 && W(p, 36) == 67
    && W(p, F_BOOTP + 236) == 0x6382 && W(p, F_BOOTP + 238) == 0x5363
  }

  /** In bytes: IPv4 without options, UDP to port 67, and the DHCP magic cookie where options begin (RFC 2131). */
  lemma LooksLikeRequestIff(p: seq<u8>)
    ensures LooksLikeRequest(p)
       <==> && |p| >= 282 && p[12..14] == [0x08, 0x00] && p[14] as int % 16 == 5 && p[23] == 17 && p[36..38] == [0, 67]
            && p[278..282] == [0x63, 0x82, 0x53, 0x63]
  {
    if |p| >= 282 {
      assert p[12..14] == [p[12], p[13]] && p[36..38] == [p[36], p[37]];
      assert p[278..282] == [p[278], p[279], p[280], p[281]];
    }
  }

  /** DISCOVER becomes OFFER, REQUEST becomes ACK, anything else is ignored. */
  method ParseRequest(p: seq<u8>) returns (r: Option<Request>)
    ensures r.Some? <==> LooksLikeRequest(p) && MessageTypeOf(p) in {1, 3}
    ensures r.Some? ==>
              r.value == Request(if MessageTypeOf(p) == 1 then 2 else 5, p[6..12], p[46..54])
  {
    if !LooksLikeRequest(p) { return None; }
    var t := WalkMessageType(Scanned(p));
    if t != 1 && t != 3 { return None; }
    r := Some(Request(if t == 1 then 2 else 5, p[6..12], p[F_BOOTP + 4..F_BOOTP + 12]));
  }

  /** The option bytes the walker looks at. */
  function Scanned(p: seq<u8>): seq<u8>
    requires |p| >= F_OPTS
  {
    p[F_OPTS..if |p| < F_OPTS + OPTS_SCAN_BYTES then |p| else F_OPTS + OPTS_SCAN_BYTES]
  }

  function MessageTypeOf(p: seq<u8>): u8
    requires |p| >= F_OPTS
  {
    LastType(Decode(Scanned(p)), 0)
  }

  // ---------------------------------------------------------------- the writer

  type Hostname = s: seq<u8> | |s| == 64 witness seq(64, _ => 0)
  type DnsList = s: seq<Ip4> | |s| == 8 witness seq(8, _ => ANY_IP4)

  datatype Reply = Reply(
    replyType: u8, gateway: Ip4, mtu: u16, dns: DnsList, dnsLen: u8,
    leaseSecs: u32, hostname: Hostname, hostnameLen: u8)
  {
    function Dns(): seq<Ip4> { dns[..if dnsLen < 8 then dnsLen else 8] }

    function Host(): seq<u8> { hostname[..if hostnameLen < 64 then hostnameLen else 64] }
  }

  function Enc(code: u8, value: seq<u8>): seq<u8>
    requires |value| < 256
  {
    [code, |value|] + value
  }

  function Pads(n: nat): (s: seq<u8>)
    ensures |s| == n
  {
    seq(n, _ => OPT_PAD)
  }

  function Ip4Bytes(a: Ip4): seq<u8> { [a.b0, a.b1, a.b2, a.b3] }

  function Flat(dns: seq<Ip4>): (s: seq<u8>)
    ensures |s| == 4 * |dns|
  {
    if dns == [] then [] else Flat(dns[..|dns| - 1]) + Ip4Bytes(dns[|dns| - 1])
  }

  function LeaseBytes(secs: u32): seq<u8> { [secs / 0x100_0000, secs / 0x1_0000 % 256, secs / 256 % 256, secs % 256] }

  function MtuPart(r: Reply): (s: seq<u8>)
    ensures |s| == 4
  {
    if r.mtu != 0 then Enc(26, [r.mtu / 256, r.mtu % 256]) else Pads(4)
  }

  /** DNS list and hostname occupy fixed areas; what they do not use is padding. */
  function DnsPart(r: Reply): (s: seq<u8>)
    ensures |s| == 34
  {
    if r.Dns() == [] then Pads(34) else Enc(6, Flat(r.Dns())) + Pads(32 - 4 * |r.Dns()|)
  }

  function HostPart(r: Reply): (s: seq<u8>)
    ensures |s| == 66
  {
    if r.Host() == [] then Pads(66) else Enc(12, r.Host()) + Pads(64 - |r.Host()|)
  }

  function ClasslessValue(gw: Ip4): (s: seq<u8>)
    ensures |s| == 12
  {
    [16, 169, 254, 0, 0, 0, 0, 0] + Ip4Bytes(gw)
  }

  function FixedPart(r: Reply): (s: seq<u8>)
    ensures |s| == 35
  {
    Enc(53, [r.replyType]) + Enc(51, LeaseBytes(r.leaseSecs)) + Enc(54, Ip4Bytes(r.gateway))
    + Enc(121, ClasslessValue(r.gateway)) + Enc(1, [255, 255, 255, 255])
  }

  /** The option area of a reply. */
  function OptionBlock(r: Reply): (s: seq<u8>)
    ensures |s| == OPT_BLOCK_MAX
  {
    FixedPart(r) + MtuPart(r) + Pads(6) + DnsPart(r) + HostPart(r) + [OPT_END]
  }

  function FixedOpts(r: Reply): seq<Opt> {
    [Opt(53, [r.replyType]), Opt(51, LeaseBytes(r.leaseSecs)), Opt(54, Ip4Bytes(r.gateway)),
     Opt(121, ClasslessValue(r.gateway)), Opt(1, [255, 255, 255, 255])]
  }

  function MtuOpts(r: Reply): seq<Opt> { if r.mtu != 0 then [Opt(26, [r.mtu / 256, r.mtu % 256])] else [] }

  function DnsOpts(r: Reply): seq<Opt> { if r.Dns() != [] then [Opt(6, Flat(r.Dns()))] else [] }

  function HostOpts(r: Reply): seq<Opt> { if r.Host() != [] then [Opt(12, r.Host())] else [] }

  /** The options a reply is meant to carry. */
  function Intended(r: Reply): seq<Opt> { FixedOpts(r) + MtuOpts(r) + DnsOpts(r) + HostOpts(r) }

  lemma EncDecodes(code: u8, value: seq<u8>)
    requires |value| < 256 && code != OPT_PAD && code != OPT_END
    ensures Complete(Enc(code, value)) && Decode(Enc(code, value)) == [Opt(code, value)]
  {
    var e := Enc(code, value);
    assert e[2 + e[1] as nat..] == [] && e[2..2 + e[1] as nat] == value;
  }

  lemma {:induction false} PadsDecode(n: nat)
    ensures Complete(Pads(n)) && Decode(Pads(n)) == []
  {
    if n > 0 {
      assert Pads(n)[1..] == Pads(n - 1);
      PadsDecode(n - 1);
    }
  }

  /** Appending a whole part appends its options. */
  lemma Part(x: seq<u8>, y: seq<u8>, xs: seq<Opt>, ys: seq<Opt>)
    requires Complete(x) && Complete(y) && Decode(x) == xs && Decode(y) == ys
    ensures Complete(x + y) && Decode(x + y) == xs + ys
  {
    hide Decode, Complete;
    DecodeAppend(x, y);
    CompleteAppend(x, y);
  }

  lemma FixedDecodes(r: Reply)
    ensures Complete(FixedPart(r)) && Decode(FixedPart(r)) == FixedOpts(r)
  {
    hide Complete, Decode, Enc;
    EncDecodes(53, [r.replyType]);
    EncDecodes(51, LeaseBytes(r.leaseSecs));
    EncDecodes(54, Ip4Bytes(r.gateway));
    EncDecodes(121, ClasslessValue(r.gateway));
    EncDecodes(1, [255, 255, 255, 255]);
    var a, b, c, d, e := Enc(53, [r.replyType]), Enc(51, LeaseBytes(r.leaseSecs)), Enc(54, Ip4Bytes(r.gateway)),
      Enc(121, ClasslessValue(r.gateway)), Enc(1, [255, 255, 255, 255]);
    Part(a, b, Decode(a), Decode(b));
    Part(a + b, c, Decode(a) + Decode(b), Decode(c));
    Part(a + b + c, d, Decode(a) + Decode(b) + Decode(c), Decode(d));
    Part(a + b + c + d, e, Decode(a) + Decode(b) + Decode(c) + Decode(d), Decode(e));
  }

  lemma TailPartsDecode(r: Reply)
    ensures Complete(MtuPart(r)) && Decode(MtuPart(r)) == MtuOpts(r)
    ensures Complete(DnsPart(r)) && Decode(DnsPart(r)) == DnsOpts(r)
    ensures Complete(HostPart(r)) && Decode(HostPart(r)) == HostOpts(r)
  {
    hide Complete, Decode, Enc, Pads;
    PadsDecode(4);
    PadsDecode(34);
    PadsDecode(66);
    EncDecodes(26, [r.mtu / 256, r.mtu % 256]);
    var dns, host := r.Dns(), r.Host();
    EncDecodes(6, Flat(dns));
    EncDecodes(12, host);
    PadsDecode(32 - 4 * |dns|);
    PadsDecode(64 - |host|);
    Part(Enc(6, Flat(dns)), Pads(32 - 4 * |dns|), [Opt(6, Flat(dns))], []);
    Part(Enc(12, host), Pads(64 - |host|), [Opt(12, host)], []);
  }

  /**
   * Print then parse: the option area decodes to exactly the intended options, everything before its last
   * byte is whole options and padding, and the last byte is the END that stops the walk.
   */
  lemma BlockDecodes(r: Reply)
    ensures var b, n := OptionBlock(r), OPT_BLOCK_MAX - 1;
            b[n] == OPT_END && Complete(b[..n]) && Decode(b) == Intended(r)
  {
    var x1 := FixedPart(r) + MtuPart(r);
    var x2 := x1 + Pads(6);
    var x3 := x2 + DnsPart(r);
    var x4 := x3 + HostPart(r);
    assert OptionBlock(r) == x4 + [OPT_END];
    assert Decode([OPT_END]) == [];
    hide Complete, Decode, OptionBlock, FixedPart, MtuPart, DnsPart, HostPart, FixedOpts, MtuOpts, DnsOpts, HostOpts;
    FixedDecodes(r);
    TailPartsDecode(r);
    PadsDecode(6);
    Part(FixedPart(r), MtuPart(r), FixedOpts(r), MtuOpts(r));
    Part(x1, Pads(6), FixedOpts(r) + MtuOpts(r), []);
    assert Decode(x2) == FixedOpts(r) + MtuOpts(r);
    Part(x2, DnsPart(r), FixedOpts(r) + MtuOpts(r), DnsOpts(r));
    Part(x3, HostPart(r), FixedOpts(r) + MtuOpts(r) + DnsOpts(r), HostOpts(r));
    DecodeAppend(x4, [OPT_END]);
    assert Decode(OptionBlock(r)) == Intended(r) + [];
    assert OptionBlock(r)[..OPT_BLOCK_MAX - 1] == x4;
  }

  // ---------------------------------------------------------------- what a client reads

  /** The value of the first option of that code. */
  function Find(opts: seq<Opt>, code: u8): Option<seq<u8>> {
    if opts == [] then None else if opts[0].code == code then Some(opts[0].value) else Find(opts[1..], code)
  }

  lemma {:induction false} FindAppend(xs: seq<Opt>, ys: seq<Opt>, code: u8)
    ensures Find(xs + ys, code) == if Find(xs, code).Some? then Find(xs, code) else Find(ys, code)
  {
    if xs == [] {
      assert xs + ys == ys;
    } else {
      assert (xs + ys)[1..] == xs[1..] + ys;
      FindAppend(xs[1..], ys, code);
    }
  }

  lemma FindOne(o: Opt, code: u8)
    ensures Find([o], code) == if o.code == code then Some(o.value) else None
  {
  }

  /** A 32-bit value, most significant byte first. */
  function Number32(b: seq<u8>): nat
    requires |b| == 4
  {
    W(b, 0) as int * 0x1_0000 + W(b, 2)
  }

  /** Addresses one after the other. */
  function Addresses(b: seq<u8>): seq<Ip4> {
    if |b| < 4 then [] else [Addr(b, 0)] + Addresses(b[4..])
  }

  /** A classless route (RFC 3442): destination prefix and router. */
  datatype Route = Route(len: u8, dest: Ip4, router: Ip4)

  /** The routes of option 121: of a destination only the bytes that its prefix covers are sent. */
  function Routes(b: seq<u8>): seq<Route> {
    if b == [] || b[0] > 32 then [] else
    var n := (b[0] + 7) / 8;
    if |b| < 1 + n + 4 then [] else
    var d := b[1..1 + n] + seq(4 - n, _ => 0);
    [Route(b[0], Addr(d, 0), Addr(b, 1 + n))] + Routes(b[5 + n..])
  }

  lemma {:induction false} FlatAddresses(dns: seq<Ip4>)
    ensures Addresses(Flat(dns)) == dns
  {
    if dns != [] {
      var n := |dns| - 1;
      FlatAddresses(dns[..n]);
      AddressesSnoc(Flat(dns[..n]), dns[n]);
    } else {
      assert Flat(dns) == [];
    }
  }

  lemma {:induction false} AddressesSnoc(b: seq<u8>, a: Ip4)
    requires |b| % 4 == 0
    ensures Addresses(b + Ip4Bytes(a)) == Addresses(b) + [a]
    decreases |b|
  {
    var c := b + Ip4Bytes(a);
    if b == [] {
      assert c == Ip4Bytes(a) && c[4..] == [];
      assert Addresses(c) == [a];
    } else {
      assert c[4..] == b[4..] + Ip4Bytes(a) && Addr(c, 0) == Addr(b, 0);
      AddressesSnoc(b[4..], a);
      assert [Addr(b, 0)] + (Addresses(b[4..]) + [a]) == [Addr(b, 0)] + Addresses(b[4..]) + [a];
    }
  }

  lemma LeaseNumber(secs: u32)
    ensures |LeaseBytes(secs)| == 4 && Number32(LeaseBytes(secs)) == secs
  {
    var hi, lo := secs / 0x1_0000, secs % 0x1_0000;
    assert hi / 256 == secs / 0x100_0000 && lo / 256 == secs / 256 % 256 && lo % 256 == secs % 256;
    assert W(LeaseBytes(secs), 0) == hi / 256 * 256 + hi % 256;
    assert W(LeaseBytes(secs), 2) == lo / 256 * 256 + lo % 256;
  }

  /** The link-local network goes direct, everything else through the gateway. */
  lemma ClasslessRoutes(gw: Ip4)
    ensures Routes(ClasslessValue(gw)) == [Route(16, Ip4(169, 254, 0, 0), ANY_IP4), Route(0, ANY_IP4, gw)]
  {
    var b := ClasslessValue(gw);
    var c := b[7..];
    assert b == [16, 169, 254, 0, 0, 0, 0] + ([0] + Ip4Bytes(gw));
    assert c == [0] + Ip4Bytes(gw) && c[5..] == [];
    var d := b[1..3] + seq(2, _ => 0);
    assert d[0] == 169 && d[1] == 254 && d[2] == 0 && d[3] == 0;
    assert Addr(b, 3) == ANY_IP4 && Addr(c, 1) == gw;
    var e := c[1..1] + seq(4, _ => 0);
    assert Addr(e, 0) == ANY_IP4;
    assert Routes(c) == [Route(0, ANY_IP4, gw)] + Routes(c[5..]);
    assert Routes(b) == [Route(16, Ip4(169, 254, 0, 0), ANY_IP4)] + Routes(c);
  }

  lemma FindFixed(r: Reply, code: u8)
    ensures Find(FixedOpts(r), code)
         == if code == 53 then Some([r.replyType]) else if code == 51 then Some(LeaseBytes(r.leaseSecs))
            else if code == 54 then Some(Ip4Bytes(r.gateway)) else if code == 121 then Some(ClasslessValue(r.gateway))
            else if code == 1 then Some([255, 255, 255, 255]) else None
  {
    var a, b, c := Opt(53, [r.replyType]), Opt(51, LeaseBytes(r.leaseSecs)), Opt(54, Ip4Bytes(r.gateway));
    var d, e := Opt(121, ClasslessValue(r.gateway)), Opt(1, [255, 255, 255, 255]);
    hide ClasslessValue, LeaseBytes, Ip4Bytes, Find;
    assert FixedOpts(r) == [a] + ([b] + ([c] + ([d] + [e])));
    FindAppend([a], [b] + ([c] + ([d] + [e])), code);
    FindAppend([b], [c] + ([d] + [e]), code);
    FindAppend([c], [d] + [e], code);
    FindAppend([d], [e], code);
    FindOne(a, code);
    FindOne(b, code);
    FindOne(c, code);
    FindOne(d, code);
    FindOne(e, code);
  }

  lemma FindOptional(r: Reply, code: u8)
    ensures Find(MtuOpts(r), code) == if code == 26 && r.mtu != 0 then Some([r.mtu / 256, r.mtu % 256]) else None
    ensures Find(DnsOpts(r), code) == if code == 6 && r.Dns() != [] then Some(Flat(r.Dns())) else None
    ensures Find(HostOpts(r), code) == if code == 12 && r.Host() != [] then Some(r.Host()) else None
  {
    FindOne(Opt(26, [r.mtu / 256, r.mtu % 256]), code);
    FindOne(Opt(6, Flat(r.Dns())), code);
    FindOne(Opt(12, r.Host()), code);
  }

  lemma FindInBlock(r: Reply, code: u8)
    ensures Find(Decode(OptionBlock(r)), code)
         == if Find(FixedOpts(r), code).Some? then Find(FixedOpts(r), code)
            else if Find(MtuOpts(r), code).Some? then Find(MtuOpts(r), code)
            else if Find(DnsOpts(r), code).Some? then Find(DnsOpts(r), code)
            else Find(HostOpts(r), code)
  {
    BlockDecodes(r);
    hide Decode, OptionBlock, FixedOpts, MtuOpts, DnsOpts, HostOpts, Find;
    FindAppend(FixedOpts(r) + MtuOpts(r) + DnsOpts(r), HostOpts(r), code);
    FindAppend(FixedOpts(r) + MtuOpts(r), DnsOpts(r), code);
    FindAppend(FixedOpts(r), MtuOpts(r), code);
  }

  /**
   * What a client reads in a reply (RFC 2132 and RFC 3442): message type, lease time, server, mask and routes
   * always; MTU, name servers and host name exactly when there are any.
   */
  lemma ClientReads(r: Reply)
    ensures var o := Decode(OptionBlock(r));
            && Find(o, 53) == Some([r.replyType])
            && Find(o, 51).Some? && |Find(o, 51).value| == 4 && Number32(Find(o, 51).value) == r.leaseSecs
            && Find(o, 54).Some? && |Find(o, 54).value| == 4 && Addr(Find(o, 54).value, 0) == r.gateway
            && Find(o, 1).Some? && |Find(o, 1).value| == 4 && Number32(Find(o, 1).value) == 0xffff_ffff
            && Find(o, 121).Some?
            && Routes(Find(o, 121).value) == [Route(16, Ip4(169, 254, 0, 0), ANY_IP4), Route(0, ANY_IP4, r.gateway)]
            && (Find(o, 26).Some? <==> r.mtu != 0)
            && (r.mtu != 0 ==> |Find(o, 26).value| == 2 && W(Find(o, 26).value, 0) == r.mtu)
            && (Find(o, 6).Some? <==> r.dnsLen > 0)
            && (r.dnsLen > 0 ==>
                  Addresses(Find(o, 6).value) == r.dns[..if r.dnsLen < 8 then r.dnsLen else 8])
            && (Find(o, 12).Some? <==> r.hostnameLen > 0)
            && (r.hostnameLen > 0 ==>
                  Find(o, 12).value == r.hostname[..if r.hostnameLen < 64 then r.hostnameLen else 64])
  {
    FindCodes(r);
    LeaseNumber(r.leaseSecs);
    ClasslessRoutes(r.gateway);
    FlatAddresses(r.Dns());
    hide Decode, OptionBlock, Find, LeaseBytes, ClasslessValue, Routes, Addresses, Flat;
  }

  lemma FindCodes(r: Reply)
    ensures var o := Decode(OptionBlock(r));
            && Find(o, 53) == Some([r.replyType]) && Find(o, 51) == Some(LeaseBytes(r.leaseSecs))
            && Find(o, 54) == Some(Ip4Bytes(r.gateway)) && Find(o, 121) == Some(ClasslessValue(r.gateway))
            && Find(o, 1) == Some([255, 255, 255, 255])
            && Find(o, 26) == (if r.mtu != 0 then Some([r.mtu / 256, r.mtu % 256]) else None)
            && Find(o, 6) == (if r.Dns() != [] then Some(Flat(r.Dns())) else None)
            && Find(o, 12) == (if r.Host() != [] then Some(r.Host()) else None)
  {
    hide *;
    FindCode(r, 53);
    FindCode(r, 51);
    FindCode(r, 54);
    FindCode(r, 121);
    FindCode(r, 1);
    FindCode(r, 26);
    FindCode(r, 6);
    FindCode(r, 12);
  }

  lemma FindCode(r: Reply, code: u8)
    ensures Find(Decode(OptionBlock(r)), code)
         == if code == 53 then Some([r.replyType]) else if code == 51 then Some(LeaseBytes(r.leaseSecs))
            else if code == 54 then Some(Ip4Bytes(r.gateway)) else if code == 121 then Some(ClasslessValue(r.gateway))
            else if code == 1 then Some([255, 255, 255, 255])
            else if code == 26 && r.mtu != 0 then Some([r.mtu / 256, r.mtu % 256])
            else if code == 6 && r.Dns() != [] then Some(Flat(r.Dns()))
            else if code == 12 && r.Host() != [] then Some(r.Host()) else None
  {
    hide *;
    FindInBlock(r, code);
    FindFixed(r, code);
    FindOptional(r, code);
  }

  // ---------------------------------------------------------------- writing in place

  /** Adjacent writes are one write. */
  lemma WriteJoin(p: seq<u8>, o: nat, x: seq<u8>, y: seq<u8>)
    requires o + |x| + |y| <= |p|
    ensures WriteAt(WriteAt(p, o, x), o + |x|, y) == WriteAt(p, o, x + y)
  {
  }

  /** Data written over the front of a padded area. */
  lemma WriteOverPads(p: seq<u8>, o: nat, x: seq<u8>, n: nat, d: seq<u8>)
    requires |d| <= n && o + |x| + n <= |p|
    ensures WriteAt(WriteAt(p, o, x + Pads(n)), o + |x|, d) == WriteAt(p, o, x + d + Pads(n - |d|))
  {
  }

  method WriteBytes(a: array<u8>, off: nat, d: seq<u8>)
    requires off + |d| <= a.Length
    modifies a
    ensures a[..] == WriteAt(old(a[..]), off, d)
  {
    var k := 0;
    while k < |d|
      invariant k <= |d|
      invariant forall i | 0 <= i < a.Length :: a[i] == if off <= i < off + k then d[i - off] else old(a[i])
    {
      a[off + k] := d[k];
      k := k + 1;
    }
  }

  /** The DNS area with `j` addresses filled in. */
  function DnsArea(dns: seq<Ip4>, j: nat): (s: seq<u8>)
    requires j <= |dns| <= 8
    ensures |s| == 34
  {
    [6, |dns| * 4] + Flat(dns[..j]) + Pads(32 - 4 * j)
  }

  lemma DnsAreaStart(p: seq<u8>, off: nat, dns: seq<Ip4>)
    requires off + 34 <= |p| && |dns| <= 8
    ensures WriteAt(WriteAt(p, off, Pads(34)), off, [6, |dns| * 4]) == WriteAt(p, off, DnsArea(dns, 0))
  {
    WriteOverPads(p, off, [], 34, [6, |dns| * 4]);
    assert [] + Pads(34) == Pads(34);
    assert [] + [6, |dns| * 4] + Pads(32) == DnsArea(dns, 0);
  }

  lemma DnsAreaStep(p: seq<u8>, off: nat, dns: seq<Ip4>, j: nat)
    requires off + 34 <= |p| && j < |dns| <= 8
    ensures WriteAt(WriteAt(p, off, DnsArea(dns, j)), off + 2 + j * 4, Ip4Bytes(dns[j]))
         == WriteAt(p, off, DnsArea(dns, j + 1))
  {
    hide WriteAt, Pads;
    var x := [6, |dns| * 4] + Flat(dns[..j]);
    WriteOverPads(p, off, x, 32 - 4 * j, Ip4Bytes(dns[j]));
    assert dns[..j + 1][..j] == dns[..j];
    assert x + Ip4Bytes(dns[j]) == [6, |dns| * 4] + Flat(dns[..j + 1]);
  }

  lemma DnsAreaEnd(r: Reply)
    requires r.Dns() != []
    ensures DnsArea(r.Dns(), |r.Dns()|) == DnsPart(r)
  {
    assert r.Dns()[..|r.Dns()|] == r.Dns();
  }

  /** The DNS area: padding first, then code, length and the addresses one by one. */
  method WriteDns(a: array<u8>, off: nat, r: Reply)
    requires off + 34 <= a.Length
    modifies a
    ensures a[..] == WriteAt(old(a[..]), off, DnsPart(r))
  {
    ghost var p := a[..];
    WriteBytes(a, off, Pads(34));
    var dns := r.Dns();
    if |dns| == 0 { return; }
    hide WriteAt, DnsArea, Pads, DnsPart;
    WriteBytes(a, off, [6, |dns| * 4]);
    DnsAreaStart(p, off, dns);
    WriteAddresses(a, off, dns, p);
    DnsAreaEnd(r);
  }

  method WriteAddresses(a: array<u8>, off: nat, dns: seq<Ip4>, ghost p: seq<u8>)
    requires off + 34 <= a.Length == |p| && |dns| <= 8 && a[..] == WriteAt(p, off, DnsArea(dns, 0))
    modifies a
    ensures a[..] == WriteAt(p, off, DnsArea(dns, |dns|))
  {
    hide WriteAt, DnsArea, Pads;
    var j := 0;
    while j < |dns|
      invariant j <= |dns| && a[..] == WriteAt(p, off, DnsArea(dns, j))
    {
      DnsAreaStep(p, off, dns, j);
      WriteBytes(a, off + 2 + j * 4, Ip4Bytes(dns[j]));
      j := j + 1;
    }
  }

  /** The hostname area: padding first, then code, length and name. */
  method WriteHost(a: array<u8>, off: nat, r: Reply)
    requires off + 66 <= a.Length
    modifies a
    ensures a[..] == WriteAt(old(a[..]), off, HostPart(r))
  {
    hide Pads, WriteAt;
    ghost var p := a[..];
    WriteBytes(a, off, Pads(66));
    var host := r.Host();
    var n := |host|;
    if n == 0 { return; }
    WriteBytes(a, off, [12, n]);
    WriteBytes(a, off + 2, host);
    WriteOverPads(p, off, [], 66, [12, n]);
    assert [] + Pads(66) == Pads(66);
    assert [] + [12, n] + Pads(64) == [12, n] + Pads(64);
    WriteOverPads(p, off, [12, n], 64, host);
  }

  /** The option area of a reply; a buffer that is too small is refused untouched. */
  method WriteOptions(a: array<u8>, r: Reply) returns (ok: bool)
    modifies a
    ensures ok <==> REPLY_LEN <= a.Length
    ensures a[..] == if ok then WriteAt(old(a[..]), F_OPTS, OptionBlock(r)) else old(a[..])
  {
    if a.Length < REPLY_LEN { return false; }
    ghost var p, o := a[..], F_OPTS;
    hide WriteAt, FixedPart, MtuPart, DnsPart, HostPart, Pads;
    WriteBytes(a, F_OPTS, FixedPart(r));
    WriteBytes(a, F_OPTS + 35, MtuPart(r));
    WriteBytes(a, F_OPTS + 39, Pads(6));
    WriteDns(a, F_OPTS + 45, r);
    WriteHost(a, F_OPTS + 79, r);
    WriteBytes(a, F_OPTS + OPT_BLOCK_MAX - 1, [OPT_END]);
    ghost var x1 := FixedPart(r) + MtuPart(r);
    WriteJoin(p, o, FixedPart(r), MtuPart(r));
    WriteJoin(p, o, x1, Pads(6));
    WriteJoin(p, o, x1 + Pads(6), DnsPart(r));
    WriteJoin(p, o, x1 + Pads(6) + DnsPart(r), HostPart(r));
    WriteJoin(p, o, x1 + Pads(6) + DnsPart(r) + HostPart(r), [OPT_END]);
    ok := true;
  }
}
