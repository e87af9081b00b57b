// The packet monitor: three critical sections per packet, run by several threads at once.
module Monitor {
  import opened Wrappers
  import opened Text
  import opened DnsNames
  import opened Flows
  import opened FlowTable
  import opened PacketParser

  /** Where a packet comes from: each source has its own accounting. */
  datatype Source = Frame | DnsEvent | Simulated

  datatype Counters = Counters(
    totalPackets: int, totalBytes: int, tcp: int, udp: int, icmp: int, other: int, inbound: int, outbound: int)

  const ZERO := Counters(0, 0, 0, 0, 0, 0, 0, 0)

  datatype Protocol = Tcp | Udp | Icmp | Other

  function ProtocolOf(source: Source, pkt: Packet): Protocol {
    match source
    case Frame =>
      if "TCP" <= pkt.protocol then Tcp else if "UDP" <= pkt.protocol then Udp
      else if "ICMP" <= pkt.protocol then Icmp else Other
    case DnsEvent => if pkt.protocol == "UDP" then Udp else Tcp
    case Simulated => if pkt.protocol == "TCP" then Tcp else if pkt.protocol == "UDP" then Udp else Other
  }

  /** Only captured frames are ever inbound. */
  predicate IsInbound(source: Source, pkt: Packet) {
    source == Frame && (pkt.direction == InboundLocal || pkt.direction == WanToLan)
  }

  function AddPacket(c: Counters, source: Source, pkt: Packet): Counters {
    var p := ProtocolOf(source, pkt);
    Counters(c.totalPackets + 1, c.totalBytes + pkt.length,
      c.tcp + (if p.Tcp? then 1 else 0), c.udp + (if p.Udp? then 1 else 0),
      c.icmp + (if p.Icmp? then 1 else 0), c.other + (if p.Other? then 1 else 0),
      c.inbound + (if IsInbound(source, pkt) then pkt.length else 0),
      c.outbound + (if IsInbound(source, pkt) then 0 else pkt.length))
  }

  /** A deque with a maximum length: the oldest packet makes room. */
  function Append(buffer: seq<Packet>, capacity: nat, pkt: Packet): (r: seq<Packet>)
    ensures |buffer| <= capacity ==> |r| <= capacity
  {
    var all := buffer + [pkt];
    if |all| > capacity then all[|all| - capacity..] else all
  }

  // ---------------------------------------------------------------- what is counted where

  /** Frames are counted by the protocol number they carry. */
  lemma FrameProtocol(number: byte, data: seq<byte>, pkt: Packet)
    requires pkt.protocol == ParseTransport(number, data).protocol
    ensures ProtocolOf(Frame, pkt) ==
            if number == 6 then Tcp else if number == 17 then Udp else if number == 1 || number == 58 then Icmp else Other
  {
    var p := pkt.protocol;
    if number == 6 {
      assert p == "TCP" && "TCP" <= p;
    } else if number == 17 {
      assert p == "UDP" && p[0] == 'U' && "UDP" <= p;
    } else if number == 1 || number == 58 {
      assert p[..4] == "ICMP" && p[0] == 'I' && "ICMP" <= p;
    } else {
      assert p[0] == 'P';
    }
  }

  /** Inbound traffic goes to a local address, or from a public to a private one, and does not come from
      a local address. */
  lemma InboundExactly(book: AddressBook, src: string, dst: string, t: Transport, length: nat)
    ensures IsInbound(Frame, IpPacket(book, src, dst, t, length)) <==>
              src !in book.localIps && (dst in book.localIps || (!book.isPrivate(src) && book.isPrivate(dst)))
  {
  }

  /** One packet raises its own protocol's counter by one and its own direction's by its length. */
  lemma AddPacketExactly(c: Counters, source: Source, pkt: Packet)
    ensures var d := AddPacket(c, source, pkt);
            && d.totalPackets - c.totalPackets == 1 && d.totalBytes - c.totalBytes == pkt.length
            && (d.tcp - c.tcp, d.udp - c.udp, d.icmp - c.icmp, d.other - c.other) ==
                 (match ProtocolOf(source, pkt)
                  case Tcp => (1, 0, 0, 0) case Udp => (0, 1, 0, 0) case Icmp => (0, 0, 1, 0) case Other => (0, 0, 0, 1))
            && (d.inbound - c.inbound, d.outbound - c.outbound) ==
                 if IsInbound(source, pkt) then (pkt.length, 0) else (0, pkt.length)
  {
  }

  // ---------------------------------------------------------------- interleavings

  datatype Settings = Settings(maxFlows: int, timeout: real, isPrivate: string -> bool, capacity: nat)

  /** The monitor between two critical sections, with what the threads still hold: packets that are in
      the flow table but not yet counted. The last four fields only keep the books. */
  datatype MonitorState = MonitorState(
    sequence: nat, table: Table, lastPrune: real, counters: Counters, buffer: seq<Packet>,
    inFlight: seq<(Source, Packet)>,
    evictedPackets: int, evictedBytes: int, untrackedPackets: int, untrackedBytes: int)

  /** One critical section of some thread. */
  datatype Action =
    | TakeId
    | Record(source: Source, pkt: Packet, now: real, dropped: set<FlowKey>, after: Table)
    | PassBy(source: Source, pkt: Packet)
    | Account(index: nat)

  ghost predicate Enabled(cfg: Settings, s: MonitorState, a: Action) {
    match a
    case TakeId => true
    case Record(_, pkt, now, dropped, after) =>
      Trackable(pkt) && Recording(s.table, s.lastPrune, cfg.maxFlows, cfg.timeout, cfg.isPrivate,
                                  FirstWord(pkt.protocol).value, pkt, now, dropped, after)
    case PassBy(_, pkt) => pkt.srcIp == [] || pkt.dstIp == []
    case Account(i) => i < |s.inFlight|
  }

  ghost function Next(cfg: Settings, s: MonitorState, a: Action): MonitorState
    requires Enabled(cfg, s, a)
  {
    match a
    case TakeId => s.(sequence := s.sequence + 1)
    case Record(source, pkt, now, dropped, after) =>
      var gone := Part(s.table, Evicted(s.table, s.lastPrune, cfg.timeout, now, dropped));
      s.(table := after, lastPrune := if now - s.lastPrune > PRUNE_INTERVAL then now else s.lastPrune,
         inFlight := s.inFlight + [(source, pkt)],
         evictedPackets := s.evictedPackets + Sum(gone, Packets), evictedBytes := s.evictedBytes + Sum(gone, Bytes))
    case PassBy(source, pkt) =>
      s.(inFlight := s.inFlight + [(source, pkt)],
         untrackedPackets := s.untrackedPackets + 1, untrackedBytes := s.untrackedBytes + pkt.length)
    case Account(i) =>
      var (source, pkt) := s.inFlight[i];
      s.(inFlight := s.inFlight[..i] + s.inFlight[i + 1..], counters := AddPacket(s.counters, source, pkt),
         buffer := Append(s.buffer, cfg.capacity, pkt))
  }

  ghost predicate Possible(cfg: Settings, s: MonitorState, actions: seq<Action>)
    decreases |actions|
  {
    actions != [] ==> Enabled(cfg, s, actions[0]) && Possible(cfg, Next(cfg, s, actions[0]), actions[1..])
  }

  ghost function After(cfg: Settings, s: MonitorState, actions: seq<Action>): MonitorState
    requires Possible(cfg, s, actions)
    decreases |actions|
  {
    if actions == [] then s else After(cfg, Next(cfg, s, actions[0]), actions[1..])
  }

  function Initial(now: real): MonitorState {
    MonitorState(0, map[], now, ZERO, [], [], 0, 0, 0, 0)
  }

  ghost function Weight(held: seq<(Source, Packet)>): int {
    if held == [] then 0 else held[0].1.length + Weight(held[1..])
  }

  lemma {:induction false} WeightConcat(a: seq<(Source, Packet)>, b: seq<(Source, Packet)>)
    ensures Weight(a + b) == Weight(a) + Weight(b)
  {
    if a == [] {
      assert a + b == b;
    } else {
      assert (a + b)[1..] == a[1..] + b;
      WeightConcat(a[1..], b);
    }
  }

  lemma WeightWithout(held: seq<(Source, Packet)>, i: nat)
    requires i < |held|
    ensures Weight(held[..i] + held[i + 1..]) == Weight(held) - held[i].1.length
  {
    assert held == held[..i] + ([held[i]] + held[i + 1..]);
    WeightConcat(held[..i], [held[i]] + held[i + 1..]);
    WeightConcat([held[i]], held[i + 1..]);
    WeightConcat(held[..i], held[i + 1..]);
    assert [held[i]][1..] == [];
  }

  /** The books balance: live, evicted and untracked traffic is the counted traffic and what is in
      flight; the protocol counters add up to the packets, the directions to the bytes. */
  ghost predicate Balanced(s: MonitorState) {
    && Sum(s.table, Packets) + s.evictedPackets + s.untrackedPackets == s.counters.totalPackets + |s.inFlight|
    && Sum(s.table, Bytes) + s.evictedBytes + s.untrackedBytes == s.counters.totalBytes + Weight(s.inFlight)
    && s.counters.tcp + s.counters.udp + s.counters.icmp + s.counters.other == s.counters.totalPackets
    && s.counters.inbound + s.counters.outbound == s.counters.totalBytes
  }

  ghost predicate Bounded(cfg: Settings, s: MonitorState) {
    && Keyed(s.table) && |s.buffer| <= cfg.capacity
    && (cfg.maxFlows >= 1 ==> |s.table| <= cfg.maxFlows)
  }

  lemma StepBalances(cfg: Settings, s: MonitorState, a: Action)
    requires Balanced(s) && Enabled(cfg, s, a)
    ensures Balanced(Next(cfg, s, a))
  {
    match a
    case TakeId =>
    case Record(source, pkt, now, dropped, after) =>
      RecordingConserves(s.table, s.lastPrune, cfg.maxFlows, cfg.timeout, cfg.isPrivate,
                         FirstWord(pkt.protocol).value, pkt, now, dropped, after);
      WeightConcat(s.inFlight, [(source, pkt)]);
    case PassBy(source, pkt) =>
      WeightConcat(s.inFlight, [(source, pkt)]);
    case Account(i) =>
      WeightWithout(s.inFlight, i);
  }

  lemma StepBounds(cfg: Settings, s: MonitorState, a: Action)
    requires Bounded(cfg, s) && Enabled(cfg, s, a)
    ensures Bounded(cfg, Next(cfg, s, a))
  {
    if a.Record? {
      var proto := FirstWord(a.pkt.protocol).value;
      RecordingKeepsKeyed(s.table, s.lastPrune, cfg.maxFlows, cfg.timeout, cfg.isPrivate, proto, a.pkt, a.now, a.dropped, a.after);
      RecordingBound(s.table, s.lastPrune, cfg.maxFlows, cfg.timeout, cfg.isPrivate, proto, a.pkt, a.now, a.dropped, a.after);
    }
  }

  lemma {:induction false} RunBalances(cfg: Settings, s: MonitorState, actions: seq<Action>)
    requires Balanced(s) && Bounded(cfg, s) && Possible(cfg, s, actions)
    ensures Balanced(After(cfg, s, actions)) && Bounded(cfg, After(cfg, s, actions))
    decreases |actions|
  {
    if actions != [] {
      StepBalances(cfg, s, actions[0]);
      StepBounds(cfg, s, actions[0]);
      RunBalances(cfg, Next(cfg, s, actions[0]), actions[1..]);
    }
  }

  /** The last packets of a list, as many as there is room for. */
  function Latest(packets: seq<Packet>, capacity: nat): seq<Packet> {
    if |packets| <= capacity then packets else packets[|packets| - capacity..]
  }

  lemma LatestTwice(a: seq<Packet>, b: seq<Packet>, capacity: nat)
    ensures Latest(Latest(a, capacity) + b, capacity) == Latest(a + b, capacity)
  {
  }

  lemma LatestOfThree(a: seq<Packet>, b: seq<Packet>, c: seq<Packet>, capacity: nat)
    ensures Latest(Latest(a + b, capacity) + c, capacity) == Latest(a + (b + c), capacity)
  {
    LatestTwice(a + b, c, capacity);
    assert a + b + c == a + (b + c);
  }

  /** The packet that a step accounts for, if any. */
  ghost function AccountedBy(cfg: Settings, s: MonitorState, a: Action): seq<Packet>
    requires Enabled(cfg, s, a)
  {
    if a.Account? then [s.inFlight[a.index].1] else []
  }

  /** The packets that a run accounts for, in the order in which it does. */
  ghost function Accounted(cfg: Settings, s: MonitorState, actions: seq<Action>): seq<Packet>
    requires Possible(cfg, s, actions)
    decreases |actions|
  {
    if actions == [] then []
    else AccountedBy(cfg, s, actions[0]) + Accounted(cfg, Next(cfg, s, actions[0]), actions[1..])
  }

  lemma StepBuffer(cfg: Settings, s: MonitorState, a: Action)
    requires Enabled(cfg, s, a) && |s.buffer| <= cfg.capacity
    ensures Next(cfg, s, a).buffer == Latest(s.buffer + AccountedBy(cfg, s, a), cfg.capacity)
    ensures |Next(cfg, s, a).buffer| <= cfg.capacity
  {
    assert s.buffer + [] == s.buffer;
  }

  /** Over every interleaving the rolling buffer holds the latest packets accounted for, none left out
      and none twice, in the order of accounting. */
  lemma {:induction false} BufferHoldsLatest(cfg: Settings, s: MonitorState, actions: seq<Action>)
    requires Possible(cfg, s, actions) && |s.buffer| <= cfg.capacity
    ensures After(cfg, s, actions).buffer == Latest(s.buffer + Accounted(cfg, s, actions), cfg.capacity)
    decreases |actions|
  {
    if actions == [] {
      assert s.buffer + [] == s.buffer;
    } else {
      var next, first := Next(cfg, s, actions[0]), AccountedBy(cfg, s, actions[0]);
      var rest := Accounted(cfg, next, actions[1..]);
      StepBuffer(cfg, s, actions[0]);
      BufferHoldsLatest(cfg, next, actions[1..]);
      LatestOfThree(s.buffer, first, rest, cfg.capacity);
    }
  }

  /** Conservation over every interleaving: whatever order the critical sections of the threads run
      in, no packet and no byte is lost or counted twice, and table and buffer stay bounded. Once
      nothing is in flight, the flows alive and evicted hold exactly what was counted. */
  lemma TrafficIsConserved(cfg: Settings, now: real, actions: seq<Action>)
    requires Possible(cfg, Initial(now), actions)
    ensures var s := After(cfg, Initial(now), actions);
            && Balanced(s) && Bounded(cfg, s)
            && (s.inFlight == [] && s.untrackedPackets == 0 && s.untrackedBytes == 0 ==>
                  && Sum(s.table, Packets) + s.evictedPackets == s.counters.totalPackets
                  && Sum(s.table, Bytes) + s.evictedBytes == s.counters.totalBytes)
  {
    RunBalances(cfg, Initial(now), actions);
  }

  // ---------------------------------------------------------------- the monitor as an object

  class PacketMonitorEngine {
    const tracker: FlowTracker
    const capacity: nat
    const book: AddressBook
    var packetIdSeq: nat
    var counters: Counters
    var buffer: seq<Packet>

    constructor (tracker: FlowTracker, capacity: nat, book: AddressBook)
      ensures this.tracker == tracker && this.capacity == capacity && this.book == book
      ensures packetIdSeq == 0 && counters == ZERO && buffer == []
    {
      this.tracker, this.capacity, this.book := tracker, capacity, book;
      packetIdSeq, counters, buffer := 0, ZERO, [];
    }

    /** The second critical section, which is the flow table's: the packet has been recorded in it. */
    ghost predicate Recorded(before: Table, lastPrune: real, pkt: Packet, now: real, dropped: set<FlowKey>, after: Table) {
      Trackable(pkt) && Recording(before, lastPrune, tracker.maxFlows, tracker.idleTimeout, tracker.isPrivate,
                                  FirstWord(pkt.protocol).value, pkt, now, dropped, after)
    }

    /** The same for a packet that may not belong into the table, and then leaves it alone. */
    ghost predicate Noticed(before: Table, lastPrune: real, pkt: Packet, now: real, dropped: set<FlowKey>, after: Table) {
      if Trackable(pkt) then Recorded(before, lastPrune, pkt, now, dropped, after) else after == before
    }

    /** First critical section. */
    method TakeNextId() returns (id: nat)
      modifies this`packetIdSeq
      ensures id == packetIdSeq == old(packetIdSeq) + 1
    {
      packetIdSeq := packetIdSeq + 1;
      id := packetIdSeq;
    }

    /** Last critical section. */
    method AccountFor(source: Source, pkt: Packet)
      modifies this`counters, this`buffer
      ensures counters == AddPacket(old(counters), source, pkt)
      ensures buffer == Append(old(buffer), capacity, pkt)
    {
      buffer := Append(buffer, capacity, pkt);
      counters := counters.(totalPackets := counters.totalPackets + 1, totalBytes := counters.totalBytes + pkt.length);
      match ProtocolOf(source, pkt) {
        case Tcp => counters := counters.(tcp := counters.tcp + 1);
        case Udp => counters := counters.(udp := counters.udp + 1);
        case Icmp => counters := counters.(icmp := counters.icmp + 1);
        case Other => counters := counters.(other := counters.other + 1);
      }
      if IsInbound(source, pkt) {
        counters := counters.(inbound := counters.inbound + pkt.length);
      } else {
        counters := counters.(outbound := counters.outbound + pkt.length);
      }
    }

    /** A frame that does not parse changes nothing but the sequence of ids. Every other one goes
        through the three critical sections. */
    method ProcessRawFrame(raw: seq<byte>, hasEthernet: bool, now: real) returns (r: Option<Packet>, ghost dropped: set<FlowKey>)
      requires tracker.Valid()
      modifies this, tracker, tracker.flows.Values
      ensures tracker.Valid() && packetIdSeq == old(packetIdSeq) + 1
      ensures r == ParseFrame(book, raw, hasEthernet)
      ensures r.None? ==> counters == old(counters) && buffer == old(buffer)
                          && tracker.Contents() == old(tracker.Contents()) && tracker.lastPrune == old(tracker.lastPrune)
      ensures r.Some? ==>
                && counters == AddPacket(old(counters), Frame, r.value)
                && buffer == Append(old(buffer), capacity, r.value)
                && Recorded(old(tracker.Contents()), old(tracker.lastPrune), r.value, now, dropped, tracker.Contents())
    {
      r := Parse(raw, hasEthernet);
      dropped := ProcessParsed(r, now);
    }

    /** The critical sections of a frame, given what it parses to. */
    method ProcessParsed(parsed: Option<Packet>, now: real) returns (ghost dropped: set<FlowKey>)
      requires tracker.Valid() && (parsed.Some? ==> Trackable(parsed.value))
      modifies this, tracker, tracker.flows.Values
      ensures tracker.Valid() && packetIdSeq == old(packetIdSeq) + 1
      ensures parsed.None? ==> counters == old(counters) && buffer == old(buffer)
                               && tracker.Contents() == old(tracker.Contents()) && tracker.lastPrune == old(tracker.lastPrune)
      ensures parsed.Some? ==>
                && counters == AddPacket(old(counters), Frame, parsed.value)
                && buffer == Append(old(buffer), capacity, parsed.value)
                && Recorded(old(tracker.Contents()), old(tracker.lastPrune), parsed.value, now, dropped, tracker.Contents())
    {
      dropped := {};
      ghost var before := tracker.Contents();
      var id := TakeNextId();
      assert tracker.Contents() == before;
      if parsed.Some? {
        dropped := Observe(Frame, parsed.value, now);
      }
    }

    method Parse(raw: seq<byte>, hasEthernet: bool) returns (r: Option<Packet>)
      ensures r == ParseFrame(book, raw, hasEthernet)
      ensures r.Some? ==> Trackable(r.value)
    {
      r := ParseFrame(book, raw, hasEthernet);
      if r.Some? {
        ParsedIsTrackable(book, raw, hasEthernet);
      }
    }

    /** The two critical sections of a packet that can be tracked. */
    method Observe(source: Source, pkt: Packet, now: real) returns (ghost dropped: set<FlowKey>)
      requires tracker.Valid() && Trackable(pkt)
      modifies this`counters, this`buffer, tracker, tracker.flows.Values
      ensures tracker.Valid()
      ensures counters == AddPacket(old(counters), source, pkt)
      ensures buffer == Append(old(buffer), capacity, pkt)
      ensures Recorded(old(tracker.Contents()), old(tracker.lastPrune), pkt, now, dropped, tracker.Contents())
    {
      dropped := RecordTracked(pkt, now);
      AccountFor(source, pkt);
    }

    method RecordTracked(pkt: Packet, now: real) returns (ghost dropped: set<FlowKey>)
      requires tracker.Valid() && Trackable(pkt)
      modifies tracker, tracker.flows.Values
      ensures tracker.Valid()
      ensures Recorded(old(tracker.Contents()), old(tracker.lastPrune), pkt, now, dropped, tracker.Contents())
    {
      var recorded;
      recorded, dropped := tracker.RecordPacket(pkt, now);
    }

    /** A DNS event becomes a packet of fixed length. An event without addresses is counted all the
        same; one with a blank protocol raises before it is counted. */
    method IngestDnsEvent(client: string, server: string, port: int, protocol: string, now: real)
      returns (r: Option<Packet>, ghost dropped: set<FlowKey>)
      requires tracker.Valid()
      modifies this, tracker, tracker.flows.Values
      ensures tracker.Valid() && packetIdSeq == old(packetIdSeq) + 1
      ensures r.None? <==> client != [] && server != [] && FirstWord(protocol).None?
      ensures r.None? ==> counters == old(counters) && buffer == old(buffer)
                          && tracker.Contents() == old(tracker.Contents())
      ensures r.Some? ==>
                && r.value == DnsPacket(book, packetIdSeq, client, server, port, protocol)
                && counters == AddPacket(old(counters), DnsEvent, r.value)
                && buffer == Append(old(buffer), capacity, r.value)
                && Noticed(old(tracker.Contents()), old(tracker.lastPrune), r.value, now, dropped, tracker.Contents())
    {
      var id := TakeNextId();
      var pkt := DnsPacket(book, id, client, server, port, protocol);
      var raised;
      raised, dropped := ObserveEvent(pkt, now);
      r := if raised then None else Some(pkt);
    }

    /** The two critical sections of an event's packet, which may be untracked; one without a protocol
        raises in the first. */
    method ObserveEvent(pkt: Packet, now: real) returns (raised: bool, ghost dropped: set<FlowKey>)
      requires tracker.Valid()
      modifies this`counters, this`buffer, tracker, tracker.flows.Values
      ensures tracker.Valid()
      ensures raised <==> pkt.srcIp != [] && pkt.dstIp != [] && FirstWord(pkt.protocol).None?
      ensures counters == if raised then old(counters) else AddPacket(old(counters), DnsEvent, pkt)
      ensures buffer == if raised then old(buffer) else Append(old(buffer), capacity, pkt)
      ensures raised ==> tracker.Contents() == old(tracker.Contents())
      ensures Noticed(old(tracker.Contents()), old(tracker.lastPrune), pkt, now, dropped, tracker.Contents())
    {
      var recorded;
      recorded, dropped := tracker.RecordPacket(pkt, now);
      raised := recorded.NoProtocol?;
      if !raised {
        AccountFor(DnsEvent, pkt);
      }
    }
  }

  const DNS_EVENT_LENGTH := 64

  function DnsPacket(book: AddressBook, id: nat, client: string, server: string, port: int, protocol: string): Packet {
    Packet(client, server, protocol, Some(52000 + id % 10000), Some(port), DNS_EVENT_LENGTH,
           DetermineDirection(book, client, server), {})
  }

  /** A DNS event counts 64 bytes of outbound traffic, and as UDP or else as TCP, whatever its protocol. */
  lemma EventCounted(c: Counters, book: AddressBook, id: nat, client: string, server: string, port: int, protocol: string)
    ensures AddPacket(c, DnsEvent, DnsPacket(book, id, client, server, port, protocol)) ==
            c.(totalPackets := c.totalPackets + 1, totalBytes := c.totalBytes + 64, outbound := c.outbound + 64,
               udp := c.udp + if protocol == "UDP" then 1 else 0,
               tcp := c.tcp + if protocol == "UDP" then 0 else 1)
  {
  }

  /** Simulated traffic is outbound, too. */
  lemma SimulatedCounted(c: Counters, pkt: Packet)
    requires pkt.protocol == "TCP" || pkt.protocol == "UDP"
    ensures AddPacket(c, Simulated, pkt) ==
            c.(totalPackets := c.totalPackets + 1, totalBytes := c.totalBytes + pkt.length, outbound := c.outbound + pkt.length,
               udp := c.udp + if pkt.protocol == "UDP" then 1 else 0,
               tcp := c.tcp + if pkt.protocol == "TCP" then 1 else 0)
  {
  }

  /** Two DNS events between the same endpoints share a flow exactly if their ids agree modulo 10000,
      so that ten thousand of them in a row are told apart. */
  lemma EventsShareFlow(book: AddressBook, i: nat, j: nat, client: string, server: string, port: int, protocol: string, proto: string)
    ensures PacketKey(proto, DnsPacket(book, i, client, server, port, protocol))
            == PacketKey(proto, DnsPacket(book, j, client, server, port, protocol))
        <==> i % 10000 == j % 10000
  {
    KeysEqualExactly(proto, client, Some(52000 + i % 10000), server, Some(port), proto, client, Some(52000 + j % 10000), server, Some(port));
    PairsEqual((client, 52000 + i % 10000), (server, port), (client, 52000 + j % 10000), (server, port));
  }

  /** The one who asks a DNS server is the client of the flow. */
  lemma EventFlowHasClient(book: AddressBook, isPrivate: string -> bool, id: nat, client: string, server: string, port: int,
                           protocol: string, proto: string, now: real)
    ensures var v := NewFlow(isPrivate, proto, DnsPacket(book, id, client, server, port, protocol), now);
            (v.clientIp, v.serverIp, v.serverPort) == (client, server, Some(port))
            || (!isPrivate(client) && port !in {53, 853, 80, 443})
  {
    NewFlowSides(isPrivate, proto, DnsPacket(book, id, client, server, port, protocol), now);
  }
}
