// Bidirectional flows: one table entry per protocol and unordered pair of endpoints, bounded in
// number, the stale and the oldest being evicted.
module Flows {
  import opened Wrappers
  import opened Sequences
  import opened Text

  // ---------------------------------------------------------------- keys

  datatype FlowKey = FlowKey(proto: string, ip1: string, port1: int, ip2: string, port2: int)

  /** Python's order on strings. */
  predicate StringLess(a: string, b: string) {
    b != [] && (a == [] || a[0] < b[0] || (a[0] == b[0] && StringLess(a[1..], b[1..])))
  }

  /** Python's order on (address, port) pairs. */
  predicate EndpointLeq(ip1: string, port1: int, ip2: string, port2: int) {
    if ip1 == ip2 then port1 <= port2 else StringLess(ip1, ip2)
  }

  /** `port or 0` */
  function PortOf(port: Option<int>): int {
    if port.Some? then port.value else 0
  }

  function MakeFlowKey(proto: string, ip1: string, port1: Option<int>, ip2: string, port2: Option<int>): FlowKey {
    var p1, p2 := PortOf(port1), PortOf(port2);
    if EndpointLeq(ip1, p1, ip2, p2) then FlowKey(proto, ip1, p1, ip2, p2) else FlowKey(proto, ip2, p2, ip1, p1)
  }

  lemma {:induction false} StringOrder(a: string, b: string)
    ensures !(StringLess(a, b) && StringLess(b, a))
    ensures a != b ==> StringLess(a, b) || StringLess(b, a)
  {
    if a != [] && b != [] && a[0] == b[0] {
      StringOrder(a[1..], b[1..]);
      assert a == [a[0]] + a[1..] && b == [b[0]] + b[1..];
    }
  }

  /** Two packets share a key exactly when their protocols and their unordered endpoint pairs agree. */
  lemma KeysEqualExactly(proto: string, a: string, pa: Option<int>, b: string, pb: Option<int>,
                         proto': string, c: string, pc: Option<int>, d: string, pd: Option<int>)
    ensures MakeFlowKey(proto, a, pa, b, pb) == MakeFlowKey(proto', c, pc, d, pd) <==>
              proto == proto' &&
              multiset{(a, PortOf(pa)), (b, PortOf(pb))} == multiset{(c, PortOf(pc)), (d, PortOf(pd))}
  {
    StringOrder(a, b);
    StringOrder(c, d);
    var x, y, z, w := (a, PortOf(pa)), (b, PortOf(pb)), (c, PortOf(pc)), (d, PortOf(pd));
    PairsEqual(x, y, z, w);
  }

  lemma PairsEqual<T>(x: T, y: T, z: T, w: T)
    ensures multiset{x, y} == multiset{z, w} <==> (x == z && y == w) || (x == w && y == z)
  {
    if multiset{x, y} == multiset{z, w} {
      assert x in multiset{z, w} && z in multiset{x, y};
      assert y in multiset{z, w} && w in multiset{x, y};
      if x == y {
        assert multiset{x, y}[x] == 2;
      }
    }
  }

  // ---------------------------------------------------------------- packets and flows

  datatype Direction = OutboundLocal | InboundLocal | LanToWan | WanToLan | LanLocal | Forwarded | LocalOnly

  datatype Packet = Packet(
    srcIp: string, dstIp: string, protocol: string, srcPort: Option<int>, dstPort: Option<int>,
    length: int, direction: Direction, tcpFlags: set<string>)

  /** `protocol.split()[0]`; a blank protocol has no first word. */
  function FirstWord(protocol: string): Option<string> {
    var text := StripLeft(protocol, WHITE_SPACE);
    if text == [] then None else Some(WordOf(text))
  }

  function WordOf(s: string): string {
    if s == [] || s[0] in WHITE_SPACE then [] else [s[0]] + WordOf(s[1..])
  }

  lemma {:induction false} WordIsCut(word: string, rest: string)
    requires forall c :: c in word ==> c !in WHITE_SPACE
    requires rest == [] || rest[0] in WHITE_SPACE
    ensures WordOf(word + rest) == word
  {
    if word == [] {
      assert word + rest == rest;
    } else {
      assert (word + rest)[1..] == word[1..] + rest;
      WordIsCut(word[1..], rest);
    }
  }

  /** The first word, wherever it stands: what is behind it does not matter to the flow. */
  lemma FirstWordExact(pre: string, word: string, rest: string)
    requires forall c :: c in pre ==> c in WHITE_SPACE
    requires word != [] && forall c :: c in word ==> c !in WHITE_SPACE
    requires rest == [] || rest[0] in WHITE_SPACE
    ensures FirstWord(pre + word + rest) == Some(word)
  {
    assert pre + word + rest == pre + (word + rest);
    StripLeftPadding(pre, word + rest, WHITE_SPACE);
    assert (word + rest)[0] == word[0];
    WordIsCut(word, rest);
  }

  lemma {:induction false} BlankHasNoWord(text: string)
    ensures FirstWord(text) == None <==> forall c :: c in text ==> c in WHITE_SPACE
  {
    if text != [] && text[0] in WHITE_SPACE {
      BlankHasNoWord(text[1..]);
      assert forall c :: c in text <==> c == text[0] || c in text[1..];
    } else if text != [] {
      assert text[0] in text;
    }
  }

  /** A packet the flow table takes: it has two endpoints and a protocol. */
  predicate Trackable(pkt: Packet) {
    pkt.srcIp != [] && pkt.dstIp != [] && FirstWord(pkt.protocol).Some?
  }

  /** The values of a flow's fields. */
  datatype FlowView = FlowView(
    protocol: string, clientIp: string, clientPort: Option<int>, serverIp: string, serverPort: Option<int>,
    firstSeen: real, lastSeen: real,
    packetsOut: int, packetsIn: int, bytesOut: int, bytesIn: int, tcpState: string)

  function KeyOf(v: FlowView): FlowKey {
    MakeFlowKey(v.protocol, v.clientIp, v.clientPort, v.serverIp, v.serverPort)
  }

  function PacketKey(proto: string, pkt: Packet): FlowKey {
    MakeFlowKey(proto, pkt.srcIp, pkt.srcPort, pkt.dstIp, pkt.dstPort)
  }

  /** The client is the private side, or the side with the ephemeral port. */
  function NewFlow(isPrivate: string -> bool, proto: string, pkt: Packet, now: real): FlowView {
    if isPrivate(pkt.srcIp) || (PortOf(pkt.srcPort) > 1024 && PortOf(pkt.dstPort) in {80, 443, 53, 853}) then
      FlowView(proto, pkt.srcIp, pkt.srcPort, pkt.dstIp, pkt.dstPort, now, now, 0, 0, 0, 0, "ESTABLISHED")
    else
      FlowView(proto, pkt.dstIp, pkt.dstPort, pkt.srcIp, pkt.srcPort, now, now, 0, 0, 0, 0, "ESTABLISHED")
  }

  function NextTcpState(state: string, flags: set<string>): string {
    if "FIN" in flags then "CLOSING"
    else if "RST" in flags then "RESET"
    else if "SYN" in flags && "ACK" !in flags then "SYN_SENT"
    else state
  }

  /** A flow after one more packet. */
  function Counted(v: FlowView, pkt: Packet, now: real): FlowView {
    var w := v.(lastSeen := now, tcpState := NextTcpState(v.tcpState, pkt.tcpFlags));
    if pkt.srcIp == v.clientIp then w.(packetsOut := v.packetsOut + 1, bytesOut := v.bytesOut + pkt.length)
    else w.(packetsIn := v.packetsIn + 1, bytesIn := v.bytesIn + pkt.length)
  }

  class PacketFlow {
    const protocol: string
    const clientIp: string
    const clientPort: Option<int>
    const serverIp: string
    const serverPort: Option<int>
    const firstSeen: real
    var lastSeen: real
    var packetsOut: int
    var packetsIn: int
    var bytesOut: int
    var bytesIn: int
    var tcpState: string

    ghost function View(): FlowView
      reads this
    {
      FlowView(protocol, clientIp, clientPort, serverIp, serverPort, firstSeen, lastSeen,
               packetsOut, packetsIn, bytesOut, bytesIn, tcpState)
    }

    constructor (v: FlowView)
      ensures View() == v
    {
      protocol, clientIp, clientPort, serverIp, serverPort :=
        v.protocol, v.clientIp, v.clientPort, v.serverIp, v.serverPort;
      firstSeen, lastSeen, tcpState := v.firstSeen, v.lastSeen, v.tcpState;
      packetsOut, packetsIn, bytesOut, bytesIn := v.packetsOut, v.packetsIn, v.bytesOut, v.bytesIn;
    }

    method Count(pkt: Packet, now: real)
      modifies this
      ensures View() == Counted(old(View()), pkt, now)
    {
      lastSeen := now;
      if pkt.srcIp == clientIp {
        packetsOut := packetsOut + 1;
        bytesOut := bytesOut + pkt.length;
      } else {
        packetsIn := packetsIn + 1;
        bytesIn := bytesIn + pkt.length;
      }
      if "FIN" in pkt.tcpFlags || "RST" in pkt.tcpFlags {
        tcpState := if "FIN" in pkt.tcpFlags then "CLOSING" else "RESET";
      } else if "SYN" in pkt.tcpFlags && "ACK" !in pkt.tcpFlags {
        tcpState := "SYN_SENT";
      }
    }
  }

  // ---------------------------------------------------------------- the table

  type Table = map<FlowKey, FlowView>

  const PRUNE_INTERVAL: real := 60.0

  /** The flows that have not been idle for longer than the timeout. */
  function Live(t: Table, now: real, timeout: real): Table {
    map k | k in t && now - t[k].lastSeen <= timeout :: t[k]
  }

  ghost function Stale(t: Table, now: real, timeout: real): set<FlowKey> {
    set k | k in t && now - t[k].lastSeen > timeout
  }

  lemma LiveIsNotStale(t: Table, now: real, timeout: real)
    ensures Live(t, now, timeout) == t - Stale(t, now, timeout)
  {
  }

  /** The tenth of a table (at least one flow) that eviction drops, none of it younger than a survivor. */
  ghost predicate OldestTenth(t: Table, dropped: set<FlowKey>) {
    NoneYounger(t, dropped) && |dropped| == if |t| == 0 then 0 else if |t| < 20 then 1 else |t| / 10
  }

  ghost predicate NoneYounger(t: Table, keys: set<FlowKey>) {
    keys <= t.Keys && forall d, k :: d in keys && k in t.Keys - keys ==> t[d].lastSeen <= t[k].lastSeen
  }

  // ---------------------------------------------------------------- insertion order

  /** The keys of a list that are in a set, in the order of the list. */
  function Among(order: seq<FlowKey>, keys: set<FlowKey>): (r: seq<FlowKey>)
    ensures forall k :: k in r <==> k in order && k in keys
  {
    if order == [] then []
    else if order[0] in keys then [order[0]] + Among(order[1..], keys)
    else Among(order[1..], keys)
  }

  predicate Distinct(order: seq<FlowKey>) {
    forall i, j :: 0 <= i < j < |order| ==> order[i] != order[j]
  }

  ghost predicate Before(order: seq<FlowKey>, a: FlowKey, b: FlowKey) {
    exists i, j :: 0 <= i < j < |order| && order[i] == a && order[j] == b
  }

  /** Every key of the set once, and no other. */
  ghost predicate Enumerates(order: seq<FlowKey>, keys: set<FlowKey>) {
    Distinct(order) && forall k :: k in order <==> k in keys
  }

  lemma {:induction false} AmongIsDistinct(order: seq<FlowKey>, keys: set<FlowKey>)
    requires Distinct(order)
    ensures Distinct(Among(order, keys))
  {
    if order != [] {
      AmongIsDistinct(order[1..], keys);
      var rest := Among(order[1..], keys);
      assert order[0] !in order[1..];
      assert order[0] !in rest;
    }
  }

  lemma AmongEnumerates(order: seq<FlowKey>, all: set<FlowKey>, keys: set<FlowKey>)
    requires Enumerates(order, all) && keys <= all
    ensures Enumerates(Among(order, keys), keys)
  {
    AmongIsDistinct(order, keys);
  }

  lemma OneMoreEnumerates(order: seq<FlowKey>, keys: set<FlowKey>, key: FlowKey)
    requires Enumerates(order, keys) && key !in keys
    ensures Enumerates(order + [key], keys + {key})
  {
  }

  lemma {:induction false} AmongAll(order: seq<FlowKey>, keys: set<FlowKey>)
    requires forall k :: k in order ==> k in keys
    ensures Among(order, keys) == order
  {
    if order != [] {
      AmongAll(order[1..], keys);
    }
  }

  lemma {:induction false} AmongTwice(order: seq<FlowKey>, more: set<FlowKey>, fewer: set<FlowKey>)
    requires fewer <= more
    ensures Among(Among(order, more), fewer) == Among(order, fewer)
  {
    if order != [] {
      AmongTwice(order[1..], more, fewer);
      if order[0] in more {
        assert ([order[0]] + Among(order[1..], more))[1..] == Among(order[1..], more);
      }
    }
  }

  /** A stable sort by age puts `a` before `b`: it is older, or as old and inserted earlier. */
  ghost predicate SortsBefore(t: Table, order: seq<FlowKey>, a: FlowKey, b: FlowKey)
    requires a in t && b in t
  {
    t[a].lastSeen < t[b].lastSeen || (t[a].lastSeen == t[b].lastSeen && Before(order, a, b))
  }

  /** What eviction drops is what a stable sort by age puts first. */
  ghost predicate FirstSorted(t: Table, order: seq<FlowKey>, dropped: set<FlowKey>) {
    dropped <= t.Keys && forall d, k :: d in dropped && k in t.Keys - dropped ==> SortsBefore(t, order, d, k)
  }

  lemma FirstSortedIsOldest(t: Table, order: seq<FlowKey>, dropped: set<FlowKey>)
    requires FirstSorted(t, order, dropped)
    ensures NoneYounger(t, dropped)
  {
  }

  lemma NotBothBefore(t: Table, order: seq<FlowKey>, a: FlowKey, b: FlowKey)
    requires a in t && b in t && Distinct(order)
    ensures !(SortsBefore(t, order, a, b) && SortsBefore(t, order, b, a))
  {
  }

  /** Hence there is no choice: the flows dropped are determined by their number. */
  lemma DroppedIsUnique(t: Table, order: seq<FlowKey>, x: set<FlowKey>, y: set<FlowKey>)
    requires Distinct(order) && FirstSorted(t, order, x) && FirstSorted(t, order, y) && |x| == |y|
    ensures x == y
  {
    if x != y {
      var a := InOneOnly(x, y);
      var b := InOneOnly(y, x);
      NotBothBefore(t, order, a, b);
    }
  }

  lemma SubsetOfSameSize(x: set<FlowKey>, y: set<FlowKey>)
    requires x <= y && |x| == |y|
    ensures x == y
  {
    assert y == x + (y - x);
    assert |y| == |x| + |y - x|;
  }

  lemma InOneOnly(x: set<FlowKey>, y: set<FlowKey>) returns (a: FlowKey)
    requires x != y && |x| == |y|
    ensures a in x && a !in y
  {
    if x <= y {
      SubsetOfSameSize(x, y);
    }
    a :| a in x && a !in y;
  }

  lemma SomeLeft(keys: set<FlowKey>, gone: set<FlowKey>)
    requires gone <= keys && |gone| < |keys|
    ensures keys - gone != {}
  {
    assert keys == (keys - gone) + gone;
  }

  /** Taking one more from the front. */
  lemma FirstSortedGrows(t: Table, order: seq<FlowKey>, gone: set<FlowKey>, key: FlowKey)
    requires FirstSorted(t, order, gone) && key in t.Keys - gone
    requires forall k :: k in t.Keys - gone && k != key ==> SortsBefore(t, order, key, k)
    ensures FirstSorted(t, order, gone + {key}) && |gone + {key}| == |gone| + 1
  {
  }

  /** A full table makes room for a flow it does not have yet. */
  ghost predicate MakesRoom(t: Table, maxFlows: int, key: FlowKey, dropped: set<FlowKey>) {
    if |t| >= maxFlows && key !in t then OldestTenth(t, dropped) else dropped == {}
  }

  function AfterStale(t: Table, lastPrune: real, now: real, timeout: real): Table {
    if now - lastPrune > PRUNE_INTERVAL then Live(t, now, timeout) else t
  }

  /** A packet's entry in the table. */
  function Inserted(t: Table, isPrivate: string -> bool, proto: string, pkt: Packet, now: real): Table {
    var key := PacketKey(proto, pkt);
    t[key := Counted(if key in t then t[key] else NewFlow(isPrivate, proto, pkt, now), pkt, now)]
  }

  /** Recording a packet: prune the stale flows if it is time to, evict the oldest if the table is full
      and the flow is new, then count the packet. */
  ghost predicate Recording(t: Table, lastPrune: real, maxFlows: int, timeout: real, isPrivate: string -> bool,
                            proto: string, pkt: Packet, now: real, dropped: set<FlowKey>, after: Table) {
    var live := AfterStale(t, lastPrune, now, timeout);
    && MakesRoom(live, maxFlows, PacketKey(proto, pkt), dropped)
    && after == Inserted(live - dropped, isPrivate, proto, pkt, now)
  }

  /** The order of insertion after a packet: what is left keeps its place, a new flow comes last. */
  ghost function OrderAfter(order: seq<FlowKey>, left: Table, key: FlowKey): seq<FlowKey> {
    Among(order, left.Keys) + if key in left then [] else [key]
  }

  /** Eviction and insertion keep to the order of insertion. */
  ghost predicate InOrder(live: Table, order: seq<FlowKey>, dropped: set<FlowKey>, key: FlowKey, after: seq<FlowKey>) {
    FirstSorted(live, Among(order, live.Keys), dropped) && after == OrderAfter(order, live - dropped, key)
  }

  datatype Recorded = Untracked | NoProtocol | Tracked(flow: PacketFlow)

  class FlowTracker {
    const maxFlows: int
    const idleTimeout: real
    const isPrivate: string -> bool
    var flows: map<FlowKey, PacketFlow>
    var order: seq<FlowKey>   // the keys in the order of their insertion, which the dictionary keeps
    var lastPrune: real

    /** No two entries share a flow, and each key stands once in the order. */
    ghost predicate Valid()
      reads this`flows, this`order
    {
      && (forall j, k :: j in flows && k in flows && flows[j] == flows[k] ==> j == k)
      && Enumerates(order, flows.Keys)
    }

    ghost function Contents(): Table
      reads this`flows, flows.Values
    {
      map k | k in flows :: flows[k].View()
    }

    lemma ContentsKeys()
      ensures Contents().Keys == flows.Keys && |Contents()| == |flows|
    {
      assert Contents().Keys == flows.Keys;
    }

    constructor (maxFlows: int, idleTimeout: real, isPrivate: string -> bool, now: real)
      ensures Valid() && Contents() == map[] && order == [] && lastPrune == now
      ensures this.maxFlows == maxFlows && this.idleTimeout == idleTimeout && this.isPrivate == isPrivate
    {
      this.maxFlows, this.idleTimeout, this.isPrivate := maxFlows, idleTimeout, isPrivate;
      flows, order, lastPrune := map[], [], now;
    }

    method Delete(keys: set<FlowKey>)
      requires Valid()
      modifies this`flows, this`order
      ensures Valid() && flows == old(flows) - keys && Contents() == old(Contents()) - keys
      ensures order == Among(old(order), flows.Keys)
    {
      AmongEnumerates(order, flows.Keys, flows.Keys - keys);
      assert (flows - keys).Keys == flows.Keys - keys;
      flows := flows - keys;
      order := Among(order, flows.Keys);
    }

    method PruneStale(now: real)
      requires Valid()
      modifies this`flows, this`order, this`lastPrune
      ensures Valid() && lastPrune == now && flows.Values <= old(flows.Values)
      ensures Contents() == Live(old(Contents()), now, idleTimeout)
      ensures order == Among(old(order), flows.Keys)
    {
      lastPrune := now;
      ghost var table := Contents();
      assert table == old(Contents());
      var stale := set k | k in flows && now - flows[k].lastSeen > idleTimeout;
      assert stale == Stale(table, now, idleTimeout) by {
        assert forall k :: k in flows ==> table[k].lastSeen == flows[k].lastSeen;
      }
      LiveIsNotStale(table, now, idleTimeout);
      Delete(stale);
    }

    /** The one of some entries that a stable sort by age puts first. */
    method Oldest(among: set<FlowKey>) returns (oldest: FlowKey)
      requires Valid() && among != {} && among <= flows.Keys
      ensures oldest in among
      ensures forall k :: k in among && k != oldest ==> SortsBefore(Contents(), order, oldest, k)
    {
      var at := -1;
      for i := 0 to |order|
        invariant -1 <= at < i
        invariant at == -1 ==> forall j :: 0 <= j < i ==> order[j] !in among
        invariant at >= 0 ==> order[at] in among && forall j :: 0 <= j < i && j != at && order[j] in among ==>
                    || flows[order[at]].lastSeen < flows[order[j]].lastSeen
                    || (flows[order[at]].lastSeen == flows[order[j]].lastSeen && at < j)
      {
        if order[i] in among && (at == -1 || flows[order[i]].lastSeen < flows[order[at]].lastSeen) {
          at := i;
        }
      }
      ghost var some :| some in among;
      assert some in order;
      oldest := order[at];
    }

    /** The first `count` keys in the order of age, one oldest entry after the other. */
    method OldestKeys(count: nat) returns (gone: set<FlowKey>)
      requires Valid() && count <= |flows|
      ensures |gone| == count && FirstSorted(Contents(), order, gone)
    {
      gone := {};
      ghost var table := Contents();
      ContentsKeys();
      while |gone| < count
        invariant |gone| <= count && FirstSorted(table, order, gone)
        decreases count - |gone|
      {
        SomeLeft(flows.Keys, gone);
        var k := Oldest(flows.Keys - gone);
        FirstSortedGrows(table, order, gone, k);
        gone := gone + {k};
      }
    }

    method PruneOldest() returns (ghost dropped: set<FlowKey>)
      requires Valid()
      modifies this`flows, this`order
      ensures Valid() && flows.Values <= old(flows.Values)
      ensures OldestTenth(old(Contents()), dropped) && Contents() == old(Contents()) - dropped
      ensures FirstSorted(old(Contents()), old(order), dropped) && order == Among(old(order), flows.Keys)
    {
      ghost var table := Contents();
      ContentsKeys();
      if |flows| == 0 {
        dropped := {};
        AmongAll(order, flows.Keys);
        return;
      }
      var gone := OldestKeys(if |flows| / 10 > 1 then |flows| / 10 else 1);
      dropped := gone;
      FirstSortedIsOldest(table, order, dropped);
      assert OldestTenth(table, dropped);
      Delete(gone);
    }

    method FlowFor(key: FlowKey, initial: FlowView) returns (flow: PacketFlow)
      requires Valid()
      modifies this`flows, this`order
      ensures Valid() && key in flows && flows[key] == flow
      ensures flow in old(flows.Values) || fresh(flow)
      ensures order == old(order) + if key in old(Contents()) then [] else [key]
      ensures Contents() == if key in old(Contents()) then old(Contents()) else old(Contents())[key := initial]
    {
      assert key in Contents() <==> key in flows;
      if key !in flows {
        flow := StartFlow(key, initial);
      } else {
        flow := flows[key];
      }
    }

    method StartFlow(key: FlowKey, initial: FlowView) returns (flow: PacketFlow)
      requires Valid() && key !in flows
      modifies this`flows, this`order
      ensures Valid() && fresh(flow) && key in flows && flows[key] == flow && order == old(order) + [key]
      ensures Contents() == old(Contents())[key := initial]
    {
      flow := new PacketFlow(initial);
      Store(key, flow);
    }

    method Store(key: FlowKey, flow: PacketFlow)
      requires Valid() && key !in flows && flow !in flows.Values
      modifies this`flows, this`order
      ensures Valid() && flows == old(flows)[key := flow] && order == old(order) + [key]
      ensures Contents() == old(Contents())[key := flow.View()]
    {
      OneMoreEnumerates(order, flows.Keys, key);
      assert flows[key := flow].Keys == flows.Keys + {key};
      flows := flows[key := flow];
      order := order + [key];
    }

    method RecordPacket(pkt: Packet, now: real) returns (r: Recorded, ghost dropped: set<FlowKey>)
      requires Valid()
      modifies this, flows.Values
      ensures Valid()
      ensures pkt.srcIp == [] || pkt.dstIp == [] ==>
                r == Untracked && Contents() == old(Contents()) && lastPrune == old(lastPrune) && order == old(order)
      ensures pkt.srcIp != [] && pkt.dstIp != [] && FirstWord(pkt.protocol).None? ==>
                r == NoProtocol && Contents() == old(Contents()) && lastPrune == old(lastPrune) && order == old(order)
      ensures Trackable(pkt) ==>
                && r.Tracked? && r.flow in flows.Values
                && Recording(old(Contents()), old(lastPrune), maxFlows, idleTimeout, isPrivate,
                             FirstWord(pkt.protocol).value, pkt, now, dropped, Contents())
                && lastPrune == if now - old(lastPrune) > PRUNE_INTERVAL then now else old(lastPrune)
      ensures Trackable(pkt) ==>
                InOrder(AfterStale(old(Contents()), old(lastPrune), now, idleTimeout), old(order), dropped,
                        PacketKey(FirstWord(pkt.protocol).value, pkt), order)
    {
      dropped := {};
      if pkt.srcIp == [] || pkt.dstIp == [] {
        return Untracked, {};
      }
      var proto := FirstWord(pkt.protocol);
      if proto.None? {
        return NoProtocol, {};
      }
      var key := PacketKey(proto.value, pkt);
      var flow;
      flow, dropped := RecordIn(key, proto.value, pkt, now);
      r := Tracked(flow);
    }

    /** A packet that belongs to a flow: make room, find or start the flow, count. */
    method RecordIn(key: FlowKey, proto: string, pkt: Packet, now: real) returns (flow: PacketFlow, ghost dropped: set<FlowKey>)
      requires Valid() && key == PacketKey(proto, pkt)
      modifies this`flows, this`order, this`lastPrune, flows.Values
      ensures Valid() && flow in flows.Values
      ensures Recording(old(Contents()), old(lastPrune), maxFlows, idleTimeout, isPrivate, proto, pkt, now, dropped, Contents())
      ensures InOrder(AfterStale(old(Contents()), old(lastPrune), now, idleTimeout), old(order), dropped, key, order)
      ensures lastPrune == if now - old(lastPrune) > PRUNE_INTERVAL then now else old(lastPrune)
    {
      ghost var t, pruned, keys := Contents(), lastPrune, order;
      dropped := MakeRoom(key, now);
      flow := Insert(key, proto, pkt, now);
      RecordingInSteps(t, pruned, maxFlows, idleTimeout, isPrivate, proto, pkt, now, dropped, Contents());
      OrderInSteps(AfterStale(t, pruned, now, idleTimeout), keys, dropped, key, order);
    }

    /** Periodic pruning, and capacity protection for a new flow. */
    method MakeRoom(key: FlowKey, now: real) returns (ghost dropped: set<FlowKey>)
      requires Valid()
      modifies this`flows, this`order, this`lastPrune
      ensures Valid() && flows.Values <= old(flows.Values)
      ensures var live := AfterStale(old(Contents()), old(lastPrune), now, idleTimeout);
              && MakesRoom(live, maxFlows, key, dropped) && Contents() == live - dropped
              && FirstSorted(live, Among(old(order), live.Keys), dropped)
              && order == Among(old(order), (live - dropped).Keys)
      ensures lastPrune == if now - old(lastPrune) > PRUNE_INTERVAL then now else old(lastPrune)
    {
      PruneIfDue(now);
      ghost var live := Contents();
      dropped := EvictIfFull(key);
      AmongTwice(old(order), live.Keys, (live - dropped).Keys);
    }

    method PruneIfDue(now: real)
      requires Valid()
      modifies this`flows, this`order, this`lastPrune
      ensures Valid() && flows.Values <= old(flows.Values)
      ensures Contents() == AfterStale(old(Contents()), old(lastPrune), now, idleTimeout)
      ensures order == Among(old(order), Contents().Keys)
      ensures lastPrune == if now - old(lastPrune) > PRUNE_INTERVAL then now else old(lastPrune)
    {
      AmongAll(order, flows.Keys);
      if now - lastPrune > PRUNE_INTERVAL {
        PruneStale(now);
      }
      ContentsKeys();
    }

    method EvictIfFull(key: FlowKey) returns (ghost dropped: set<FlowKey>)
      requires Valid()
      modifies this`flows, this`order
      ensures Valid() && flows.Values <= old(flows.Values)
      ensures MakesRoom(old(Contents()), maxFlows, key, dropped) && Contents() == old(Contents()) - dropped
      ensures FirstSorted(old(Contents()), old(order), dropped) && order == Among(old(order), Contents().Keys)
    {
      ghost var table := Contents();
      ContentsKeys();
      AmongAll(order, flows.Keys);
      if |flows| >= maxFlows && key !in flows {
        dropped := PruneOldest();
      } else {
        dropped := {};
        assert table - {} == table;
      }
      ContentsKeys();
    }

    method Insert(key: FlowKey, proto: string, pkt: Packet, now: real) returns (flow: PacketFlow)
      requires Valid() && key == PacketKey(proto, pkt)
      modifies this`flows, this`order, flows.Values
      ensures Valid() && flow in flows.Values
      ensures Contents() == Inserted(old(Contents()), isPrivate, proto, pkt, now)
      ensures order == old(order) + if key in old(Contents()) then [] else [key]
    {
      ghost var before := Contents();
      flow := FlowFor(key, NewFlow(isPrivate, proto, pkt, now));
      ghost var found := Contents();
      CountIn(key, flow, pkt, now);
      InsertedInSteps(before, found, isPrivate, proto, pkt, now);
    }

    /** One flow of the table counts a packet; the others do not notice. */
    method CountIn(key: FlowKey, flow: PacketFlow, pkt: Packet, now: real)
      requires Valid() && key in flows && flows[key] == flow
      modifies flow
      ensures Valid() && Contents() == old(Contents())[key := Counted(old(Contents())[key], pkt, now)]
    {
      flow.Count(pkt, now);
    }
  }

  /** First make room, then insert. */
  lemma RecordingInSteps(t: Table, lastPrune: real, maxFlows: int, timeout: real, isPrivate: string -> bool,
                         proto: string, pkt: Packet, now: real, dropped: set<FlowKey>, after: Table)
    requires MakesRoom(AfterStale(t, lastPrune, now, timeout), maxFlows, PacketKey(proto, pkt), dropped)
    requires after == Inserted(AfterStale(t, lastPrune, now, timeout) - dropped, isPrivate, proto, pkt, now)
    ensures Recording(t, lastPrune, maxFlows, timeout, isPrivate, proto, pkt, now, dropped, after)
  {
  }

  lemma OrderInSteps(live: Table, order: seq<FlowKey>, dropped: set<FlowKey>, key: FlowKey, after: seq<FlowKey>)
    requires FirstSorted(live, Among(order, live.Keys), dropped)
    requires after == Among(order, (live - dropped).Keys) + if key in live - dropped then [] else [key]
    ensures InOrder(live, order, dropped, key, after)
  {
  }

  /** First find the flow or start it, then count. */
  lemma InsertedInSteps(before: Table, found: Table, isPrivate: string -> bool, proto: string, pkt: Packet, now: real)
    requires var key := PacketKey(proto, pkt);
             found == if key in before then before else before[key := NewFlow(isPrivate, proto, pkt, now)]
    ensures var key := PacketKey(proto, pkt);
            found[key := Counted(found[key], pkt, now)] == Inserted(before, isPrivate, proto, pkt, now)
  {
  }

  lemma NewFlowKey(isPrivate: string -> bool, proto: string, pkt: Packet, now: real)
    ensures KeyOf(NewFlow(isPrivate, proto, pkt, now)) == PacketKey(proto, pkt)
  {
    KeysEqualExactly(proto, pkt.srcIp, pkt.srcPort, pkt.dstIp, pkt.dstPort,
                     proto, pkt.dstIp, pkt.dstPort, pkt.srcIp, pkt.srcPort);
  }
}
