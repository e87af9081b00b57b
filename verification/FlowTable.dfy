// What recording a packet keeps, bounds and conserves in the flow table.
module FlowTable {
  import opened Wrappers
  import opened Text
  import opened Flows

  /** Every flow sits under the canonical key of its own endpoints. */
  predicate Keyed(t: Table) {
    forall k :: k in t ==> KeyOf(t[k]) == k
  }

  /** The flows that are left when a packet arrives, before it is counted. */
  ghost function Left(t: Table, lastPrune: real, timeout: real, now: real, dropped: set<FlowKey>): Table {
    AfterStale(t, lastPrune, now, timeout) - dropped
  }

  lemma RecordingKeepsKeyed(t: Table, lastPrune: real, maxFlows: int, timeout: real, isPrivate: string -> bool,
                            proto: string, pkt: Packet, now: real, dropped: set<FlowKey>, after: Table)
    requires Recording(t, lastPrune, maxFlows, timeout, isPrivate, proto, pkt, now, dropped, after) && Keyed(t)
    ensures Keyed(after)
  {
    NewFlowKey(isPrivate, proto, pkt, now);
  }

  lemma SubmapIsSmaller(a: Table, b: Table)
    requires a.Keys <= b.Keys
    ensures |a| <= |b|
  {
    assert |b.Keys| == |a.Keys| + |b.Keys - a.Keys| by { assert b.Keys == a.Keys + (b.Keys - a.Keys); }
  }

  lemma WithoutSize(t: Table, keys: set<FlowKey>)
    requires keys <= t.Keys
    ensures |t - keys| == |t| - |keys|
  {
    assert t.Keys == (t - keys).Keys + keys;
    assert |t.Keys| == |(t - keys).Keys| + |keys|;
  }

  lemma InsertedSize(t: Table, isPrivate: string -> bool, proto: string, pkt: Packet, now: real)
    ensures |Inserted(t, isPrivate, proto, pkt, now)| == |t| + if PacketKey(proto, pkt) in t then 0 else 1
  {
    var after := Inserted(t, isPrivate, proto, pkt, now);
    assert after.Keys == t.Keys + {PacketKey(proto, pkt)};
  }

  /** The table never grows beyond its capacity, and a capacity below one cannot be kept. */
  lemma RecordingBound(t: Table, lastPrune: real, maxFlows: int, timeout: real, isPrivate: string -> bool,
                       proto: string, pkt: Packet, now: real, dropped: set<FlowKey>, after: Table)
    requires Recording(t, lastPrune, maxFlows, timeout, isPrivate, proto, pkt, now, dropped, after)
    requires |t| <= maxFlows || maxFlows < 1
    ensures |after| <= maxFlows <==> maxFlows >= 1
  {
    var live := AfterStale(t, lastPrune, now, timeout);
    SubmapIsSmaller(live, t);
    WithoutSize(live, dropped);
    InsertedSize(live - dropped, isPrivate, proto, pkt, now);
    if PacketKey(proto, pkt) in live {
      assert live - {} == live && live != map[];
    }
  }

  /** A flow leaves the table only for being stale when it is time to prune, or for being no younger
      than any flow that stays when a new flow needs its place. Every other flow is left as it was. */
  lemma EvictionIsJustified(t: Table, lastPrune: real, maxFlows: int, timeout: real, isPrivate: string -> bool,
                            proto: string, pkt: Packet, now: real, dropped: set<FlowKey>, after: Table, k: FlowKey)
    requires Recording(t, lastPrune, maxFlows, timeout, isPrivate, proto, pkt, now, dropped, after)
    requires k in t && k != PacketKey(proto, pkt)
    ensures k in after ==> after[k] == t[k]
    ensures k in after && now - lastPrune > PRUNE_INTERVAL ==> now - t[k].lastSeen <= timeout
    ensures k !in after ==>
              || (now - lastPrune > PRUNE_INTERVAL && now - t[k].lastSeen > timeout)
              || (|t| >= maxFlows && forall j :: j in after && j != PacketKey(proto, pkt) ==> t[k].lastSeen <= after[j].lastSeen)
  {
    SubmapIsSmaller(AfterStale(t, lastPrune, now, timeout), t);
  }

  // ---------------------------------------------------------------- sums over the table

  function Packets(v: FlowView): int {
    v.packetsOut + v.packetsIn
  }

  function Bytes(v: FlowView): int {
    v.bytesOut + v.bytesIn
  }

  ghost function Sum(t: Table, f: FlowView -> int): int {
    if t == map[] then 0 else var k :| k in t; f(t[k]) + Sum(t - {k}, f)
  }

  lemma {:induction false} SumTake(t: Table, f: FlowView -> int, k: FlowKey)
    requires k in t
    ensures Sum(t, f) == f(t[k]) + Sum(t - {k}, f)
    decreases |t|
  {
    var j :| j in t && Sum(t, f) == f(t[j]) + Sum(t - {j}, f);
    if j != k {
      SumTake(t - {j}, f, k);
      SumTake(t - {k}, f, j);
      assert t - {j} - {k} == t - {k} - {j};
    }
  }

  function Part(t: Table, keys: set<FlowKey>): Table {
    map k | k in t && k in keys :: t[k]
  }

  lemma {:induction false} SumSplit(t: Table, f: FlowView -> int, keys: set<FlowKey>)
    requires keys <= t.Keys
    ensures Sum(t, f) == Sum(t - keys, f) + Sum(Part(t, keys), f)
    decreases |keys|
  {
    if keys == {} {
      assert t - keys == t && Part(t, keys) == map[];
    } else {
      var k :| k in keys;
      SumTake(t, f, k);
      SumTake(Part(t, keys), f, k);
      SumSplit(t - {k}, f, keys - {k});
      assert t - {k} - (keys - {k}) == t - keys;
      assert Part(t - {k}, keys - {k}) == Part(t, keys) - {k};
    }
  }

  /** The keys that recording a packet evicts. */
  ghost function Evicted(t: Table, lastPrune: real, timeout: real, now: real, dropped: set<FlowKey>): set<FlowKey> {
    t.Keys - Left(t, lastPrune, timeout, now, dropped).Keys
  }

  lemma InsertedSum(t: Table, isPrivate: string -> bool, proto: string, pkt: Packet, now: real)
    ensures Sum(Inserted(t, isPrivate, proto, pkt, now), Packets) == Sum(t, Packets) + 1
    ensures Sum(Inserted(t, isPrivate, proto, pkt, now), Bytes) == Sum(t, Bytes) + pkt.length
  {
    var key, after := PacketKey(proto, pkt), Inserted(t, isPrivate, proto, pkt, now);
    SumTake(after, Packets, key);
    SumTake(after, Bytes, key);
    if key in t {
      SumTake(t, Packets, key);
      SumTake(t, Bytes, key);
      assert after - {key} == t - {key};
    } else {
      assert after - {key} == t;
    }
  }

  /** Conservation: what is in the table afterwards and what was evicted make up what was in the table
      before, plus the packet. */
  lemma RecordingConserves(t: Table, lastPrune: real, maxFlows: int, timeout: real, isPrivate: string -> bool,
                           proto: string, pkt: Packet, now: real, dropped: set<FlowKey>, after: Table)
    requires Recording(t, lastPrune, maxFlows, timeout, isPrivate, proto, pkt, now, dropped, after)
    ensures var gone := Part(t, Evicted(t, lastPrune, timeout, now, dropped));
            && Sum(after, Packets) + Sum(gone, Packets) == Sum(t, Packets) + 1
            && Sum(after, Bytes) + Sum(gone, Bytes) == Sum(t, Bytes) + pkt.length
  {
    var left, keys := Left(t, lastPrune, timeout, now, dropped), Evicted(t, lastPrune, timeout, now, dropped);
    LeftIsUnevicted(t, lastPrune, timeout, now, dropped);
    SumSplit(t, Packets, keys);
    SumSplit(t, Bytes, keys);
    InsertedSum(left, isPrivate, proto, pkt, now);
  }

  lemma LeftIsUnevicted(t: Table, lastPrune: real, timeout: real, now: real, dropped: set<FlowKey>)
    ensures Left(t, lastPrune, timeout, now, dropped) == t - Evicted(t, lastPrune, timeout, now, dropped)
  {
  }

  // ---------------------------------------------------------------- one flow over many packets

  datatype Seen = Seen(pkt: Packet, at: real)

  /** A flow after some more packets. */
  ghost function AfterPackets(v: FlowView, packets: seq<Seen>): FlowView {
    if packets == [] then v
    else
      var n := |packets| - 1;
      Counted(AfterPackets(v, packets[..n]), packets[n].pkt, packets[n].at)
  }

  /** The packets that come from an address, in order. */
  function From(packets: seq<Seen>, ip: string): seq<Seen> {
    if packets == [] then []
    else
      var n := |packets| - 1;
      if packets[n].pkt.srcIp == ip then From(packets[..n], ip) + [packets[n]] else From(packets[..n], ip)
  }

  function TotalLength(packets: seq<Seen>): int {
    if packets == [] then 0 else TotalLength(packets[..|packets| - 1]) + packets[|packets| - 1].pkt.length
  }

  lemma TotalLengthSnoc(packets: seq<Seen>, last: Seen)
    ensures TotalLength(packets + [last]) == TotalLength(packets) + last.pkt.length
  {
    assert (packets + [last])[..|packets|] == packets;
  }

  /** One more packet: the client's goes out, any other comes in. */
  lemma CountedOnce(v: FlowView, pkt: Packet, at: real)
    ensures var w, out := Counted(v, pkt, at), pkt.srcIp == v.clientIp;
            && (w.packetsOut, w.bytesOut) == (if out then (v.packetsOut + 1, v.bytesOut + pkt.length) else (v.packetsOut, v.bytesOut))
            && (w.packetsIn, w.bytesIn) == (if out then (v.packetsIn, v.bytesIn) else (v.packetsIn + 1, v.bytesIn + pkt.length))
            && w.lastSeen == at && SameFlow(v, w)
  {
  }

  /** The endpoints, the protocol and the beginning of a flow. */
  predicate SameFlow(v: FlowView, w: FlowView) {
    && (w.clientIp, w.clientPort, w.serverIp, w.serverPort) == (v.clientIp, v.clientPort, v.serverIp, v.serverPort)
    && w.firstSeen == v.firstSeen && w.protocol == v.protocol
  }

  /** A flow's endpoints and its beginning never change, and it was last seen with its last packet. */
  lemma {:induction false} FlowStays(v: FlowView, packets: seq<Seen>)
    ensures SameFlow(v, AfterPackets(v, packets))
    ensures AfterPackets(v, packets).lastSeen == if packets == [] then v.lastSeen else packets[|packets| - 1].at
  {
    if packets != [] {
      var n := |packets| - 1;
      FlowStays(v, packets[..n]);
      CountedOnce(AfterPackets(v, packets[..n]), packets[n].pkt, packets[n].at);
    }
  }

  /** What a flow has counted: the packets and bytes of the client as going out, all others as coming in. */
  lemma {:induction false} FlowCounts(v: FlowView, packets: seq<Seen>)
    ensures HasCounted(v, AfterPackets(v, packets), packets, From(packets, v.clientIp))
  {
    if packets != [] {
      var n := |packets| - 1;
      var w, out := AfterPackets(v, packets[..n]), From(packets[..n], v.clientIp);
      FlowCounts(v, packets[..n]);
      FlowStays(v, packets[..n]);
      CountedOneMore(v, w, packets[..n], out, packets[n]);
      assert packets == packets[..n] + [packets[n]];
    }
  }

  /** A flow with these packets counted, the second ones of them as going out. */
  predicate HasCounted(v: FlowView, w: FlowView, packets: seq<Seen>, out: seq<Seen>) {
    && w.packetsOut == v.packetsOut + |out| && w.bytesOut == v.bytesOut + TotalLength(out)
    && w.packetsIn == v.packetsIn + |packets| - |out|
    && w.bytesIn == v.bytesIn + TotalLength(packets) - TotalLength(out)
  }

  lemma CountedOneMore(v: FlowView, w: FlowView, packets: seq<Seen>, out: seq<Seen>, last: Seen)
    requires HasCounted(v, w, packets, out) && SameFlow(v, w)
    ensures HasCounted(v, Counted(w, last.pkt, last.at), packets + [last],
                       if last.pkt.srcIp == v.clientIp then out + [last] else out)
  {
    CountedOnce(w, last.pkt, last.at);
    TotalLengthSnoc(packets, last);
    TotalLengthSnoc(out, last);
  }

  /** A packet that decides about the state of a connection. */
  predicate Decisive(flags: set<string>) {
    "FIN" in flags || "RST" in flags || ("SYN" in flags && "ACK" !in flags)
  }

  /** The state after the decisive packets is that of the last one: closing, reset or opening, in this
      order if several flags are set. Without any the state stays. */
  lemma {:induction false} TcpStateIsLast(v: FlowView, packets: seq<Seen>, i: nat)
    requires i < |packets| && Decisive(packets[i].pkt.tcpFlags)
    requires forall k :: i < k < |packets| ==> !Decisive(packets[k].pkt.tcpFlags)
    ensures var state, flags := AfterPackets(v, packets).tcpState, packets[i].pkt.tcpFlags;
            && ("FIN" in flags ==> state == "CLOSING")
            && ("FIN" !in flags && "RST" in flags ==> state == "RESET")
            && ("FIN" !in flags && "RST" !in flags ==> state == "SYN_SENT")
  {
    if i < |packets| - 1 {
      TcpStateIsLast(v, packets[..|packets| - 1], i);
    }
  }

  lemma {:induction false} TcpStateStays(v: FlowView, packets: seq<Seen>)
    requires forall k :: 0 <= k < |packets| ==> !Decisive(packets[k].pkt.tcpFlags)
    ensures AfterPackets(v, packets).tcpState == v.tcpState
  {
    if packets != [] {
      TcpStateStays(v, packets[..|packets| - 1]);
    }
  }

  /** The packet that goes the other way. */
  function Reversed(pkt: Packet): Packet {
    pkt.(srcIp := pkt.dstIp, dstIp := pkt.srcIp, srcPort := pkt.dstPort, dstPort := pkt.srcPort)
  }

  /** A packet from an ephemeral port to a well-known one: web, DNS or DNS over TLS. */
  predicate LooksLikeRequest(pkt: Packet) {
    PortOf(pkt.srcPort) > 1024 && PortOf(pkt.dstPort) in {80, 443, 53, 853}
  }

  /** Who is the client of a new flow: the sender, if it is private or sends what looks like a request,
      and else the receiver. The other one is the server, each with its port. Nothing is counted yet. */
  lemma NewFlowSides(isPrivate: string -> bool, proto: string, pkt: Packet, now: real)
    ensures var v := NewFlow(isPrivate, proto, pkt, now);
            && (isPrivate(pkt.srcIp) || LooksLikeRequest(pkt) ==>
                  (v.clientIp, v.clientPort, v.serverIp, v.serverPort) == (pkt.srcIp, pkt.srcPort, pkt.dstIp, pkt.dstPort))
            && (!isPrivate(pkt.srcIp) && !LooksLikeRequest(pkt) ==>
                  (v.clientIp, v.clientPort, v.serverIp, v.serverPort) == (pkt.dstIp, pkt.dstPort, pkt.srcIp, pkt.srcPort))
            && v.protocol == proto && v.firstSeen == v.lastSeen == now && v.tcpState == "ESTABLISHED"
            && Packets(v) == 0 && Bytes(v) == 0
  {
  }

  /** Between a private and a public address, whichever side is seen first makes the same flow, unless
      the public side sends what looks like a request. */
  lemma FirstPacketDoesNotMatter(isPrivate: string -> bool, proto: string, pkt: Packet, now: real)
    requires isPrivate(pkt.srcIp) && !isPrivate(pkt.dstIp)
    ensures NewFlow(isPrivate, proto, Reversed(pkt), now) == NewFlow(isPrivate, proto, pkt, now)
        <==> !LooksLikeRequest(Reversed(pkt))
  {
  }
}
