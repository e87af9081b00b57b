// From raw frames to packets: Ethernet, ARP, IPv4, IPv6, TCP, UDP, ICMP.
module PacketParser {
  import opened Wrappers
  import opened Sequences
  import opened Text
  import opened DnsNames
  import opened Flows

  /** How addresses are written and classified: left to the platform. */
  datatype AddressBook = AddressBook(ipv6Text: Ipv6Text, isPrivate: string -> bool, localIps: set<string>)

  type Ipv6Text = f: seq<byte> -> string | forall b :: f(b) != "" witness (b: seq<byte>) => "::"

  function Be16(data: seq<byte>, at: nat): nat
    requires at + 2 <= |data|
  {
    (data[at] as int) * 256 + data[at + 1]
  }

  function Hex4(n: nat): string {
    [Digit(n / 0x1000 % 16), Digit(n / 0x100 % 16), Digit(n / 0x10 % 16), Digit(n % 16)]
  }

  function DottedQuad(b: seq<byte>): (s: string)
    requires |b| == 4
    ensures s != []
  {
    Decimal(b[0]) + "." + Decimal(b[1]) + "." + Decimal(b[2]) + "." + Decimal(b[3])
  }

  function DetermineDirection(book: AddressBook, src: string, dst: string): Direction {
    if src in book.localIps then OutboundLocal
    else if dst in book.localIps then InboundLocal
    else if book.isPrivate(src) then if book.isPrivate(dst) then LanLocal else LanToWan
    else if book.isPrivate(dst) then WanToLan
    else Forwarded
  }

  predicate Bit(b: byte, weight: nat)
    requires weight > 0
  {
    b / weight % 2 == 1
  }

  function TcpFlags(b: byte): set<string> {
    (if Bit(b, 0x02) then {"SYN"} else {}) + (if Bit(b, 0x10) then {"ACK"} else {})
      + (if Bit(b, 0x01) then {"FIN"} else {}) + (if Bit(b, 0x04) then {"RST"} else {})
      + (if Bit(b, 0x08) then {"PSH"} else {}) + (if Bit(b, 0x20) then {"URG"} else {})
  }

  datatype Transport = Transport(protocol: string, srcPort: Option<int>, dstPort: Option<int>, flags: set<string>)

  function ParseTransport(number: byte, data: seq<byte>): Transport {
    match number
    case 6 =>
      if |data| >= 20 then Transport("TCP", Some(Be16(data, 0)), Some(Be16(data, 2)), TcpFlags(data[13]))
      else Transport("TCP", None, None, {})
    case 17 =>
      if |data| >= 8 then Transport("UDP", Some(Be16(data, 0)), Some(Be16(data, 2)), {})
      else Transport("UDP", None, None, {})
    case 1 =>
      if |data| < 2 then Transport("ICMP", None, None, {})
      else if data[0] in {0, 8} then Transport("ICMP Echo", None, None, {})
      else Transport("ICMP (" + Decimal(data[0]) + ")", None, None, {})
    case 58 =>
      if |data| < 2 then Transport("ICMPv6", None, None, {})
      else if data[0] in {128, 129} then Transport("ICMPv6 Echo", None, None, {})
      else Transport("ICMPv6 (" + Decimal(data[0]) + ")", None, None, {})
    case _ => Transport("Proto:" + Decimal(number), None, None, {})
  }

  function IpPacket(book: AddressBook, src: string, dst: string, t: Transport, length: nat): Packet {
    Packet(src, dst, t.protocol, t.srcPort, t.dstPort, length, DetermineDirection(book, src, dst), t.flags)
  }

  function ParseIpv4(book: AddressBook, data: seq<byte>, length: nat): Option<Packet> {
    if |data| < 20 then None
    else
      var ihl := data[0] % 16 * 4;
      if data[0] / 16 != 4 || |data| < ihl then None
      else Some(IpPacket(book, DottedQuad(data[12..16]), DottedQuad(data[16..20]), ParseTransport(data[9], data[ihl..]), length))
  }

  function ParseIpv6(book: AddressBook, data: seq<byte>, length: nat): Option<Packet> {
    if |data| < 40 then None
    else Some(IpPacket(book, book.ipv6Text(data[8..24]), book.ipv6Text(data[24..40]), ParseTransport(data[6], data[40..]), length))
  }

  function ParseArp(data: seq<byte>, length: nat): Option<Packet> {
    if |data| < 28 then None
    else
      var opcode := Be16(data, 6);
      var protocol := if opcode == 1 then "ARP (Req)" else if opcode == 2 then "ARP (Rep)" else "ARP";
      Some(Packet(DottedQuad(data[14..18]), DottedQuad(data[24..28]), protocol, None, None, length, LocalOnly, {}))
  }

  /** A frame as a packet, or None if it is malformed. Total on every byte string. */
  function ParseFrame(book: AddressBook, raw: seq<byte>, hasEthernet: bool): Option<Packet> {
    if raw == [] || (hasEthernet && |raw| < 14) then None
    else
      var ethertype := if hasEthernet then Be16(raw, 12) else 0x0800;
      var payload := if hasEthernet then raw[14..] else raw;
      var version := raw[0] / 16;
      if ethertype == 0x0806 then ParseArp(payload, |raw|)
      else if ethertype == 0x0800 || (!hasEthernet && version == 4) then ParseIpv4(book, payload, |raw|)
      else if ethertype == 0x86DD || (!hasEthernet && version == 6) then ParseIpv6(book, payload, |raw|)
      else Some(Packet("unknown", "unknown", "EtherType:0x" + Hex4(ethertype), None, None, |raw|, LocalOnly, {}))
  }

  lemma NamedProtocol(protocol: string)
    requires protocol != [] && protocol[0] !in WHITE_SPACE
    ensures FirstWord(protocol).Some?
  {
  }

  lemma TransportIsNamed(number: byte, data: seq<byte>)
    ensures FirstWord(ParseTransport(number, data).protocol).Some?
  {
    NamedProtocol(ParseTransport(number, data).protocol);
  }

  lemma Ipv4IsTrackable(book: AddressBook, data: seq<byte>, length: nat)
    requires ParseIpv4(book, data, length).Some?
    ensures Trackable(ParseIpv4(book, data, length).value) && ParseIpv4(book, data, length).value.length == length
  {
    TransportIsNamed(data[9], data[data[0] % 16 * 4..]);
  }

  lemma Ipv6IsTrackable(book: AddressBook, data: seq<byte>, length: nat)
    requires ParseIpv6(book, data, length).Some?
    ensures Trackable(ParseIpv6(book, data, length).value) && ParseIpv6(book, data, length).value.length == length
  {
    TransportIsNamed(data[6], data[40..]);
  }

  lemma ArpIsTrackable(data: seq<byte>, length: nat)
    requires ParseArp(data, length).Some?
    ensures Trackable(ParseArp(data, length).value) && ParseArp(data, length).value.length == length
  {
    NamedProtocol(ParseArp(data, length).value.protocol);
  }

  /** Whatever a frame holds, if it parses it can be tracked, and it counts with its full length. */
  lemma ParsedIsTrackable(book: AddressBook, raw: seq<byte>, hasEthernet: bool)
    requires ParseFrame(book, raw, hasEthernet).Some?
    ensures Trackable(ParseFrame(book, raw, hasEthernet).value)
    ensures ParseFrame(book, raw, hasEthernet).value.length == |raw| > 0
  {
    var ethertype := if hasEthernet then Be16(raw, 12) else 0x0800;
    var payload := if hasEthernet then raw[14..] else raw;
    if ethertype == 0x0806 {
      ArpIsTrackable(payload, |raw|);
    } else if ethertype == 0x0800 {
      Ipv4IsTrackable(book, payload, |raw|);
    } else if ethertype == 0x86DD {
      Ipv6IsTrackable(book, payload, |raw|);
    } else {
      NamedProtocol("EtherType:0x" + Hex4(ethertype));
    }
  }

  /** Without an Ethernet header every frame is taken for IPv4, so that an IPv6 datagram is never
      parsed: the branch meant for it is not reached. */
  lemma BareIpv6IsDropped(book: AddressBook, raw: seq<byte>)
    requires raw != [] && raw[0] / 16 == 6
    ensures ParseFrame(book, raw, false).None?
  {
  }

  // ---------------------------------------------------------------- frames as they are written

  /** A number in two bytes, the high one first. */
  function Be16Bytes(v: nat): (b: seq<byte>)
    requires v < 0x1_0000
    ensures |b| == 2
  {
    [v / 256, v % 256]
  }

  predicate Quad(b: seq<byte>) {
    |b| == 4
  }

  /** An IPv4 datagram: version and header length, eight bytes that do not matter, the protocol, the
      checksum, two addresses, options, and what it carries. */
  function Ipv4Bytes(fields: seq<byte>, number: byte, sum: seq<byte>, src: seq<byte>, dst: seq<byte>,
                     options: seq<byte>, carried: seq<byte>): seq<byte>
    requires |fields| == 8 && |sum| == 2 && Quad(src) && Quad(dst) && |options| % 4 == 0 && |options| <= 40
  {
    [0x45 + |options| / 4] + fields + [number] + sum + src + dst + options + carried
  }

  /** An IPv6 datagram: six bytes that do not matter, the next header, the hop limit, two addresses. */
  function Ipv6Bytes(fields: seq<byte>, number: byte, hops: byte, src: seq<byte>, dst: seq<byte>, carried: seq<byte>): seq<byte>
    requires |fields| == 6 && |src| == 16 && |dst| == 16
  {
    fields + [number, hops] + src + dst + carried
  }

  /** An ARP packet: hardware and protocol types, the operation, and the two pairs of addresses. */
  function ArpBytes(types: seq<byte>, operation: nat, srcMac: seq<byte>, src: seq<byte>, dstMac: seq<byte>, dst: seq<byte>): seq<byte>
    requires |types| == 6 && operation < 0x1_0000 && |srcMac| == 6 && |dstMac| == 6 && Quad(src) && Quad(dst)
  {
    types + Be16Bytes(operation) + srcMac + src + dstMac + dst
  }

  function EthernetBytes(macs: seq<byte>, ethertype: nat, payload: seq<byte>): seq<byte>
    requires |macs| == 12 && ethertype < 0x1_0000
  {
    macs + Be16Bytes(ethertype) + payload
  }

  lemma EthernetRead(macs: seq<byte>, ethertype: nat, payload: seq<byte>)
    requires |macs| == 12 && ethertype < 0x1_0000
    ensures var raw := EthernetBytes(macs, ethertype, payload);
            |raw| == 14 + |payload| && Be16(raw, 12) == ethertype && raw[14..] == payload
  {
  }

  lemma Ipv4Read(fields: seq<byte>, number: byte, sum: seq<byte>, src: seq<byte>, dst: seq<byte>,
                 options: seq<byte>, carried: seq<byte>)
    requires |fields| == 8 && |sum| == 2 && Quad(src) && Quad(dst) && |options| % 4 == 0 && |options| <= 40
    ensures var data := Ipv4Bytes(fields, number, sum, src, dst, options, carried);
            && |data| >= 20 && data[0] / 16 == 4 && data[0] % 16 * 4 == 20 + |options| <= |data|
            && data[9] == number && data[12..16] == src && data[16..20] == dst && data[20 + |options|..] == carried
  {
  }

  /** A written IPv4 frame is read as what it is: source and destination in their places, the options
      skipped, and ports and flags taken from what it carries. */
  lemma Ipv4FrameParses(book: AddressBook, macs: seq<byte>, fields: seq<byte>, number: byte, sum: seq<byte>,
                        src: seq<byte>, dst: seq<byte>, options: seq<byte>, carried: seq<byte>)
    requires |macs| == 12 && |fields| == 8 && |sum| == 2 && Quad(src) && Quad(dst)
    requires |options| % 4 == 0 && |options| <= 40
    ensures var raw := EthernetBytes(macs, 0x0800, Ipv4Bytes(fields, number, sum, src, dst, options, carried));
            ParseFrame(book, raw, true) == Some(IpPacket(book, DottedQuad(src), DottedQuad(dst), ParseTransport(number, carried), |raw|))
  {
    EthernetRead(macs, 0x0800, Ipv4Bytes(fields, number, sum, src, dst, options, carried));
    Ipv4Read(fields, number, sum, src, dst, options, carried);
  }

  lemma Ipv6Read(fields: seq<byte>, number: byte, hops: byte, src: seq<byte>, dst: seq<byte>, carried: seq<byte>)
    requires |fields| == 6 && |src| == 16 && |dst| == 16
    ensures var data := Ipv6Bytes(fields, number, hops, src, dst, carried);
            |data| >= 40 && data[6] == number && data[8..24] == src && data[24..40] == dst && data[40..] == carried
  {
  }

  /** The same for IPv6. */
  lemma Ipv6FrameParses(book: AddressBook, macs: seq<byte>, fields: seq<byte>, number: byte, hops: byte,
                        src: seq<byte>, dst: seq<byte>, carried: seq<byte>)
    requires |macs| == 12 && |fields| == 6 && |src| == 16 && |dst| == 16
    ensures var raw := EthernetBytes(macs, 0x86DD, Ipv6Bytes(fields, number, hops, src, dst, carried));
            ParseFrame(book, raw, true) == Some(IpPacket(book, book.ipv6Text(src), book.ipv6Text(dst), ParseTransport(number, carried), |raw|))
  {
    EthernetRead(macs, 0x86DD, Ipv6Bytes(fields, number, hops, src, dst, carried));
    Ipv6Read(fields, number, hops, src, dst, carried);
  }

  lemma ArpRead(types: seq<byte>, operation: nat, srcMac: seq<byte>, src: seq<byte>, dstMac: seq<byte>, dst: seq<byte>)
    requires |types| == 6 && operation < 0x1_0000 && |srcMac| == 6 && |dstMac| == 6 && Quad(src) && Quad(dst)
    ensures var data := ArpBytes(types, operation, srcMac, src, dstMac, dst);
            |data| == 28 && Be16(data, 6) == operation && data[14..18] == src && data[24..28] == dst
  {
  }

  /** And for ARP, whose packets stay in the local network and have no ports. */
  lemma ArpFrameParses(book: AddressBook, macs: seq<byte>, types: seq<byte>, operation: nat, srcMac: seq<byte>,
                       src: seq<byte>, dstMac: seq<byte>, dst: seq<byte>)
    requires |macs| == 12 && |types| == 6 && operation < 0x1_0000 && |srcMac| == 6 && |dstMac| == 6 && Quad(src) && Quad(dst)
    ensures var raw := EthernetBytes(macs, 0x0806, ArpBytes(types, operation, srcMac, src, dstMac, dst));
            var pkt := ParseFrame(book, raw, true);
            && pkt.Some? && pkt.value.srcIp == DottedQuad(src) && pkt.value.dstIp == DottedQuad(dst)
            && pkt.value.srcPort == None && pkt.value.dstPort == None && pkt.value.direction == LocalOnly
            && (pkt.value.protocol == "ARP (Req)" <==> operation == 1) && (pkt.value.protocol == "ARP (Rep)" <==> operation == 2)
  {
    EthernetRead(macs, 0x0806, ArpBytes(types, operation, srcMac, src, dstMac, dst));
    ArpRead(types, operation, srcMac, src, dstMac, dst);
  }

  /** A number in binary notation, by its lowest digit. */
  function Binary(lowest: bool, rest: nat): nat {
    2 * rest + if lowest then 1 else 0
  }

  /** The byte of a TCP header that holds the flags, from the lowest bit to the two highest. */
  function FlagByte(fin: bool, syn: bool, rst: bool, psh: bool, ack: bool, urg: bool, high: nat): nat {
    Binary(fin, Binary(syn, Binary(rst, Binary(psh, Binary(ack, Binary(urg, high))))))
  }

  /** The flags come back from their byte, whatever the two highest bits are. */
  lemma FlagsRead(fin: bool, syn: bool, rst: bool, psh: bool, ack: bool, urg: bool, high: nat)
    requires high < 4
    ensures FlagByte(fin, syn, rst, psh, ack, urg, high) < 256
    ensures var flags := TcpFlags(FlagByte(fin, syn, rst, psh, ack, urg, high));
            && ("FIN" in flags <==> fin) && ("SYN" in flags <==> syn) && ("RST" in flags <==> rst)
            && ("PSH" in flags <==> psh) && ("ACK" in flags <==> ack) && ("URG" in flags <==> urg)
  {
    FlagByteFits(fin, syn, rst, psh, ack, urg, high);
    FlagBitsRead(fin, syn, rst, psh, ack, urg, high);
    FlagNames(FlagByte(fin, syn, rst, psh, ack, urg, high));
  }

  lemma FlagByteFits(fin: bool, syn: bool, rst: bool, psh: bool, ack: bool, urg: bool, high: nat)
    requires high < 4
    ensures FlagByte(fin, syn, rst, psh, ack, urg, high) < 256
  {
    assert Binary(urg, high) < 8;
    assert Binary(ack, Binary(urg, high)) < 16;
  }

  lemma FlagBitsRead(fin: bool, syn: bool, rst: bool, psh: bool, ack: bool, urg: bool, high: nat)
    ensures var b := FlagByte(fin, syn, rst, psh, ack, urg, high);
            && (b % 2 == 1 <==> fin) && (b / 2 % 2 == 1 <==> syn) && (b / 4 % 2 == 1 <==> rst)
            && (b / 8 % 2 == 1 <==> psh) && (b / 16 % 2 == 1 <==> ack) && (b / 32 % 2 == 1 <==> urg)
  {
    LowestBits(fin, syn, Binary(rst, Binary(psh, Binary(ack, Binary(urg, high)))));
    LowestBits(rst, psh, Binary(ack, Binary(urg, high)));
    LowestBits(ack, urg, high);
  }

  lemma LowestBits(first: bool, second: bool, rest: nat)
    ensures var b := Binary(first, Binary(second, rest));
            && (b % 2 == 1 <==> first) && (b / 2 % 2 == 1 <==> second)
            && b / 4 == rest && b / 8 == rest / 2 && b / 16 == rest / 4 && b / 32 == rest / 8
  {
  }

  lemma FlagNames(b: byte)
    ensures var flags := TcpFlags(b);
            && ("FIN" in flags <==> Bit(b, 1)) && ("SYN" in flags <==> Bit(b, 2)) && ("RST" in flags <==> Bit(b, 4))
            && ("PSH" in flags <==> Bit(b, 8)) && ("ACK" in flags <==> Bit(b, 16)) && ("URG" in flags <==> Bit(b, 32))
  {
  }

  /** TCP and UDP ports are read in their order, TCP's only if the header is complete. */
  lemma PortsRead(number: byte, srcPort: nat, dstPort: nat, rest: seq<byte>)
    requires srcPort < 0x1_0000 && dstPort < 0x1_0000
    requires (number == 6 && |rest| >= 16) || (number == 17 && |rest| >= 4)
    ensures var t := ParseTransport(number, Be16Bytes(srcPort) + Be16Bytes(dstPort) + rest);
            && t.srcPort == Some(srcPort) && t.dstPort == Some(dstPort)
            && t.protocol == (if number == 6 then "TCP" else "UDP")
            && t.flags == if number == 6 then TcpFlags(rest[9]) else {}
  {
    var data := Be16Bytes(srcPort) + Be16Bytes(dstPort) + rest;
    assert Be16(data, 0) == srcPort && Be16(data, 2) == dstPort;
    if number == 6 {
      assert data[13] == rest[9];
    }
  }

  /** Only complete TCP and UDP headers have ports, and only TCP has flags. */
  lemma PortsExactly(number: byte, data: seq<byte>)
    ensures var t := ParseTransport(number, data);
            && (t.srcPort.Some? <==> (number == 6 && |data| >= 20) || (number == 17 && |data| >= 8))
            && (t.dstPort.Some? <==> t.srcPort.Some?)
            && (t.flags != {} ==> number == 6 && |data| >= 20)
  {
  }

  /** Echo requests and replies are told from all other messages. */
  lemma EchoExactly(number: byte, data: seq<byte>)
    ensures var p := ParseTransport(number, data).protocol;
            && (p == "ICMP Echo" <==> number == 1 && |data| >= 2 && (data[0] == 0 || data[0] == 8))
            && (p == "ICMPv6 Echo" <==> number == 58 && |data| >= 2 && (data[0] == 128 || data[0] == 129))
  {
    var p := ParseTransport(number, data).protocol;
    if number == 6 || number == 17 {
      assert |p| == 3;
    } else if number == 1 {
      assert |p| == 4 || p[4] == ' ';
      assert |p| > 5 && p[5] != 'E' ==> p != "ICMP Echo";
    } else if number == 58 {
      assert p[4] == 'v';
      assert |p| > 7 && p[7] != 'E' ==> p != "ICMPv6 Echo";
    } else {
      assert p[0] == 'P';
    }
  }

  /** The parts of a written IPv4 address are its bytes in decimal notation. */
  lemma DottedQuadParts(b: seq<byte>)
    requires Quad(b)
    ensures Split(DottedQuad(b), '.') == [Decimal(b[0]), Decimal(b[1]), Decimal(b[2]), Decimal(b[3])]
  {
    var parts := [Decimal(b[0]), Decimal(b[1]), Decimal(b[2]), Decimal(b[3])];
    JoinOfFour(parts[0], parts[1], parts[2], parts[3]);
    SplitJoin(parts, '.');
  }

  lemma JoinOfFour(a: string, b: string, c: string, d: string)
    ensures Join([a, b, c, d], '.') == a + "." + b + "." + c + "." + d
  {
    assert [a, b, c, d][1..] == [b, c, d] && [b, c, d][1..] == [c, d] && [c, d][1..] == [d];
    var tail := c + ['.'] + d;
    assert Join([c, d], '.') == tail && Join([b, c, d], '.') == b + ['.'] + tail;
    assert a + ['.'] + (b + ['.'] + tail) == a + "." + b + "." + c + "." + d;
  }

  lemma {:induction false} DecimalUnique(m: nat, n: nat)
    ensures Decimal(m) == Decimal(n) <==> m == n
  {
    if Decimal(m) == Decimal(n) {
      var s := Decimal(m);
      assert s[|s| - 1] == Digit(m % 10) == Digit(n % 10);
      if m >= 10 && n >= 10 {
        assert s[..|s| - 1] == Decimal(m / 10) == Decimal(n / 10);
        DecimalUnique(m / 10, n / 10);
      }
    }
  }

  /** Different IPv4 addresses are written differently, so that their flows never share a key. */
  lemma DottedQuadUnique(a: seq<byte>, b: seq<byte>)
    requires Quad(a) && Quad(b)
    ensures DottedQuad(a) == DottedQuad(b) <==> a == b
  {
    DottedQuadParts(a);
    DottedQuadParts(b);
    var x, y := Split(DottedQuad(a), '.'), Split(DottedQuad(b), '.');
    forall i | 0 <= i < 4
      ensures x[i] == y[i] <==> a[i] == b[i]
    {
      DecimalUnique(a[i], b[i]);
    }
    assert a == [a[0], a[1], a[2], a[3]] && b == [b[0], b[1], b[2], b[3]];
  }

  // ---------------------------------------------------------------- directions

  /** The direction of the answer to a packet. */
  function Mirrored(d: Direction): Direction {
    match d
    case OutboundLocal => InboundLocal
    case InboundLocal => OutboundLocal
    case LanToWan => WanToLan
    case WanToLan => LanToWan
    case _ => d
  }

  /** Which traffic the appliance sends itself, which stays in the private network, and which only
      passes through. */
  lemma DirectionExact(book: AddressBook, src: string, dst: string)
    ensures var d, passes := DetermineDirection(book, src, dst), src !in book.localIps && dst !in book.localIps;
            && (d == OutboundLocal <==> src in book.localIps)
            && (d == LanToWan <==> passes && book.isPrivate(src) && !book.isPrivate(dst))
            && (d == LanLocal <==> passes && book.isPrivate(src) && book.isPrivate(dst))
            && (d == Forwarded <==> passes && !book.isPrivate(src) && !book.isPrivate(dst))
  {
  }

  /** An answer goes the other way, except between two addresses of the appliance, where everything
      counts as sent. */
  lemma AnswersAreMirrored(book: AddressBook, src: string, dst: string)
    ensures DetermineDirection(book, dst, src) == Mirrored(DetermineDirection(book, src, dst))
        <==> !(src in book.localIps && dst in book.localIps)
  {
  }

  /** Which Ethernet frames are malformed: those too short for their headers, and IPv4 frames with
      another version. */
  lemma MalformedExactly(book: AddressBook, raw: seq<byte>)
    ensures ParseFrame(book, raw, true).None? <==>
              || |raw| < 14
              || (Be16(raw, 12) == 0x0806 && |raw| < 42)
              || (Be16(raw, 12) == 0x0800 && (|raw| < 34 || raw[14] / 16 != 4 || |raw| < 14 + raw[14] % 16 * 4))
              || (Be16(raw, 12) == 0x86DD && |raw| < 54)
  {
  }
}
