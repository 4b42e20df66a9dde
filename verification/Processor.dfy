/** The packet decision of pkg/router/processor.go over whole runs of queued
    packets. */
module Processor {
  import opened Bytes
  import opened Packet
  import opened Classifier
  import opened FlowKey
  import FlowTable

  const DEFAULT_FLOW_TTL: int := 120_000_000_000
  const DEFAULT_PACKET_MARK: bv32 := 0x4000_0000

  datatype TCPMeta = TCPMeta(seqNo: u32, ackNo: u32, syn: bool, ack: bool, psh: bool, rst: bool, fin: bool)

  datatype PacketMeta = PacketMeta(
    ipVersion: byte, protocol: Protocol, srcIP: seq<byte>, dstIP: seq<byte>,
    srcPort: u16, dstPort: u16, tcp: TCPMeta, payload: seq<byte>)
  {
    function Tuple(): Tuple { FlowKey.Tuple(ipVersion, protocol, srcIP, dstIP, srcPort, dstPort) }
  }

  /** What packet parsing yields; a parsed IPv4 packet has four-octet addresses. */
  datatype Parsed = Unparsable | Meta(meta: PacketMeta)
  {
    predicate Sound() { Meta? && meta.ipVersion == 4 ==> meta.Tuple().IPv4() }
  }

  datatype Config = Config(packetMark: bv32, tcpPorts: seq<u16>, maxFlows: int)
  {
    /** The defaults put in for zero values. */
    function Normalized(): Config {
      Config(if packetMark == 0 then DEFAULT_PACKET_MARK else packetMark,
             if tcpPorts == [] then [443] else tcpPorts,
             if maxFlows == 0 then 4096 else maxFlows)
    }
  }

  datatype Action = Inject(conn: ConnInfo, fakePayload: seq<byte>) | Skip(reason: string)

  /** One queued packet, the clock reading and the fake that would be sent. */
  datatype Queued = Queued(parsed: Parsed, mark: bv32, now: int, fake: seq<byte>)

  function PacketToConnInfo(meta: PacketMeta): Option<ConnInfo> {
    if To4(meta.srcIP) == [] || To4(meta.dstIP) == [] then None
    else Some(ConnInfo(To4(meta.srcIP), To4(meta.dstIP), meta.srcPort, meta.dstPort,
                       meta.tcp.seqNo, meta.tcp.ackNo))
  }

  /** The packet carries a bit of the mark that fakes are sent with. */
  predicate Marked(cfg: Config, mark: bv32) { mark & cfg.packetMark != 0 }

  /** Why a packet is passed over before the flow table is asked. */
  function Refusal(cfg: Config, q: Queued): Option<string> {
    if Marked(cfg, q.mark) then Some("generated packet mark")
    else if q.parsed.Unparsable? then Some("packet parse failed")
    else if q.parsed.meta.protocol != ProtocolTCP then Some("non-tcp packet")
    else if q.parsed.meta.ipVersion != 4 then Some("ipv6 fake injection not implemented")
    else if q.parsed.meta.dstPort !in cfg.tcpPorts then Some("tcp port not targeted")
    else if q.parsed.meta.payload == [] then Some("tcp packet has no payload")
    else if !LooksLikeTLSClientHello(q.parsed.meta.payload) then Some("tcp payload is not a TLS ClientHello")
    else None
  }

  /** The packet reaches the flow table; it is then a parsed IPv4 packet. */
  predicate Asks(cfg: Config, q: Queued) { Refusal(cfg, q).None? }

  predicate Unmarked(mark: bv32, packetMark: bv32) { mark & packetMark == 0 }

  /** An unmarked TCP packet over IPv4 to a listed port that carries a
      ClientHello. */
  predicate Eligible(cfg: Config, q: Queued) {
    && Unmarked(q.mark, cfg.packetMark)
    && q.parsed.Meta? && q.parsed.meta.protocol == ProtocolTCP && q.parsed.meta.ipVersion == 4
    && q.parsed.meta.dstPort in cfg.tcpPorts && LooksLikeTLSClientHello(q.parsed.meta.payload)
  }

  lemma MarkTest(cfg: Config, mark: bv32)
    ensures Marked(cfg, mark) <==> !Unmarked(mark, cfg.packetMark)
  {
  }

  lemma AsksExactly(cfg: Config, q: Queued)
    ensures Asks(cfg, q) <==> Eligible(cfg, q)
  {
    MarkTest(cfg, q.mark);
  }

  function QueuedKey(cfg: Config, q: Queued): string
    requires Asks(cfg, q) && q.parsed.Sound()
  {
    Key(q.parsed.meta.Tuple())
  }

  datatype Decision = Decision(entries: map<string, int>, action: Action)

  function Decide(cfg: Config, ttl: int, entries: map<string, int>, q: Queued): Decision
    requires q.parsed.Sound()
  {
    if !Asks(cfg, q) then Decision(entries, Skip(Refusal(cfg, q).value))
    else
      var step := FlowTable.MarkStep(entries, QueuedKey(cfg, q), q.now, ttl, cfg.maxFlows);
      var conn := PacketToConnInfo(q.parsed.meta);
      Decision(step.entries,
               if !step.ok then Skip("flow already handled or flow table full")
               else if conn.None? then Skip("failed to convert IPs to IPv4")
               else Inject(conn.value, q.fake))
  }

  /** A packet passed over is passed over for the first test it fails, in the
      order mark, parse, protocol, version, port, payload, ClientHello, flow. */
  lemma SkipReasons(cfg: Config, ttl: int, entries: map<string, int>, q: Queued)
    requires q.parsed.Sound()
    ensures var d, m := Decide(cfg, ttl, entries, q), if q.parsed.Meta? then Some(q.parsed.meta) else None;
            var reason := if d.action.Skip? then Some(d.action.reason) else None;
            if !Unmarked(q.mark, cfg.packetMark) then reason == Some("generated packet mark")
            else if m.None? then reason == Some("packet parse failed")
            else if m.value.protocol != ProtocolTCP then reason == Some("non-tcp packet")
            else if m.value.ipVersion != 4 then reason == Some("ipv6 fake injection not implemented")
            else if m.value.dstPort !in cfg.tcpPorts then reason == Some("tcp port not targeted")
            else if m.value.payload == [] then reason == Some("tcp packet has no payload")
            else if !LooksLikeTLSClientHello(m.value.payload) then
              reason == Some("tcp payload is not a TLS ClientHello")
            else reason.Some? ==>
              reason == Some("flow already handled or flow table full")
  {
    MarkTest(cfg, q.mark);
  }

  /** What a configuration means: a mark left zero is bit 30, an empty port
      list is port 443, and a limit left zero is 4096 flows; on an empty table
      nothing else decides. */
  lemma ConfigMeans(cfg: Config, ttl: int, q: Queued)
    requires q.parsed.Sound() && cfg.maxFlows >= 0
    ensures var n := cfg.Normalized();
            && n.maxFlows == (if cfg.maxFlows == 0 then 4096 else cfg.maxFlows)
            && (Decide(n, ttl, map[], q).action.Inject? <==>
                && Unmarked(q.mark, if cfg.packetMark == 0 then 0x4000_0000 else cfg.packetMark)
                && q.parsed.Meta? && q.parsed.meta.protocol == ProtocolTCP && q.parsed.meta.ipVersion == 4
                && (if cfg.tcpPorts == [] then q.parsed.meta.dstPort == 443 else q.parsed.meta.dstPort in cfg.tcpPorts)
                && LooksLikeTLSClientHello(q.parsed.meta.payload))
  {
    AsksExactly(cfg.Normalized(), q);
    assert FlowTable.Live(map[], q.now, ttl) == map[];
  }

  method PortAllowed(port: u16, ports: seq<u16>) returns (allowed: bool)
    ensures allowed <==> port in ports
  {
    for i := 0 to |ports|
      invariant port !in ports[..i]
    {
      if ports[i] == port {
        return true;
      }
    }
    return false;
  }

  class PacketProcessor {
    const cfg: Config
    const flowTTL: int
    const flows: FlowTable.Table

    ghost predicate Valid()
      reads this
    {
      flows.ttl == flowTTL && flows.limit == cfg.maxFlows
    }

    constructor (cfg: Config)
      ensures Valid() && fresh(flows) && flows.entries == map[]
      ensures this.cfg == cfg.Normalized() && flowTTL == 2 * 60 * 1_000_000_000
    {
      var c := cfg.Normalized();
      this.cfg := c;
      this.flowTTL := DEFAULT_FLOW_TTL;
      this.flows := new FlowTable.Table(DEFAULT_FLOW_TTL, c.maxFlows);
    }

    method ProcessPacket(q: Queued) returns (action: Action, failed: bool)
      requires Valid() && q.parsed.Sound()
      modifies flows
      ensures Decision(flows.entries, action) == Decide(cfg, flowTTL, old(flows.entries), q)
      ensures failed <==> !Marked(cfg, q.mark) && q.parsed.Unparsable?
    {
      failed := false;
      if Marked(cfg, q.mark) {
        return Skip("generated packet mark"), false;
      }
      if q.parsed.Unparsable? {
        return Skip("packet parse failed"), true;
      }
      var meta := q.parsed.meta;
      if meta.protocol != ProtocolTCP {
        return Skip("non-tcp packet"), false;
      }
      if meta.ipVersion != 4 {
        return Skip("ipv6 fake injection not implemented"), false;
      }
      var allowed := PortAllowed(meta.dstPort, cfg.tcpPorts);
      if !allowed {
        return Skip("tcp port not targeted"), false;
      }
      if |meta.payload| == 0 {
        return Skip("tcp packet has no payload"), false;
      }
      if !LooksLikeTLSClientHello(meta.payload) {
        return Skip("tcp payload is not a TLS ClientHello"), false;
      }
      var first := flows.MarkOnce(Key(meta.Tuple()), q.now);
      if !first {
        return Skip("flow already handled or flow table full"), false;
      }
      var conn := PacketToConnInfo(meta);
      if conn.None? {
        return Skip("failed to convert IPs to IPv4"), false;
      }
      action := Inject(conn.value, q.fake);
    }
  }

  // ----- whole runs -----

  type Run = qs: seq<Queued> | forall q <- qs :: q.parsed.Sound() witness []

  function EntriesAfter(cfg: Config, ttl: int, run: Run): map<string, int> {
    if run == [] then map[]
    else Decide(cfg, ttl, EntriesAfter(cfg, ttl, run[..|run| - 1]), run[|run| - 1]).entries
  }

  /** What is done with packet `i`. */
  function ActionAt(cfg: Config, ttl: int, run: Run, i: nat): Action
    requires i < |run|
  {
    Decide(cfg, ttl, EntriesAfter(cfg, ttl, run[..i]), run[i]).action
  }

  predicate Injects(cfg: Config, ttl: int, run: Run, i: nat)
    requires i < |run|
  {
    ActionAt(cfg, ttl, run, i).Inject?
  }

  function CallOf(cfg: Config, q: Queued): FlowTable.Call
    requires q.parsed.Sound()
  {
    if Asks(cfg, q) then FlowTable.Mark(QueuedKey(cfg, q), q.now) else FlowTable.Idle
  }

  /** What each packet of the run asks of the flow table. */
  function Calls(cfg: Config, run: Run): (calls: seq<FlowTable.Call>)
    ensures |calls| == |run|
  {
    seq(|run|, i requires 0 <= i < |run| => CallOf(cfg, run[i]))
  }

  lemma StepIsCall(cfg: Config, ttl: int, entries: map<string, int>, q: Queued)
    requires q.parsed.Sound()
    ensures var c, d := CallOf(cfg, q), Decide(cfg, ttl, entries, q);
            if c.Idle? then d.entries == entries && !d.action.Inject?
            else
              var step := FlowTable.MarkStep(entries, c.key, c.now, ttl, cfg.maxFlows);
              d.entries == step.entries && d.action.Inject? == step.ok
  {
  }

  lemma {:induction false} EntriesAreCalls(cfg: Config, ttl: int, run: Run)
    ensures EntriesAfter(cfg, ttl, run) == FlowTable.After(Calls(cfg, run), ttl, cfg.maxFlows)
  {
    if run != [] {
      var n := |run| - 1;
      EntriesAreCalls(cfg, ttl, run[..n]);
      StepIsCall(cfg, ttl, EntriesAfter(cfg, ttl, run[..n]), run[n]);
      assert Calls(cfg, run)[..n] == Calls(cfg, run[..n]);
    }
  }

  lemma InjectsIsAccepted(cfg: Config, ttl: int, run: Run, i: nat)
    requires i < |run|
    ensures Injects(cfg, ttl, run, i) == FlowTable.Accepted(Calls(cfg, run), i, ttl, cfg.maxFlows)
  {
    EntriesAreCalls(cfg, ttl, run[..i]);
    StepIsCall(cfg, ttl, EntriesAfter(cfg, ttl, run[..i]), run[i]);
    assert Calls(cfg, run)[..i] == Calls(cfg, run[..i]);
  }

  predicate InOrder(run: Run) {
    forall i, j :: 0 <= i < j < |run| ==> run[i].now <= run[j].now
  }

  lemma CallsInOrder(cfg: Config, run: Run)
    requires InOrder(run)
    ensures FlowTable.Ordered(Calls(cfg, run))
  {
    var calls := Calls(cfg, run);
    forall i, j | 0 <= i < j < |calls| && calls[i].Mark? && calls[j].Mark? ensures calls[i].now <= calls[j].now {
      assert calls[i] == CallOf(cfg, run[i]) && calls[j] == CallOf(cfg, run[j]);
    }
  }

  function TupleOf(q: Queued): Option<Tuple> {
    if q.parsed.Meta? then Some(q.parsed.meta.Tuple()) else None
  }

  function Tuples(run: Run): (ts: seq<Option<Tuple>>)
    ensures |ts| == |run|
  {
    seq(|run|, i requires 0 <= i < |run| => TupleOf(run[i]))
  }

  /** The injections at most `ttl` old at `now`. */
  function RecentInjections(cfg: Config, ttl: int, run: Run, now: int): set<nat> {
    set i: nat | i < |run| && Injects(cfg, ttl, run, i) && now - run[i].now <= ttl
  }

  /** The tuples injected for at most `ttl` ago. */
  function RecentTuples(cfg: Config, ttl: int, run: Run, now: int): set<Option<Tuple>> {
    FlowTable.Image(RecentInjections(cfg, ttl, run, now), Tuples(run))
  }

  /** Two packets that reach the table share a key exactly when they share
      their tuple. */
  lemma SameKeySameTuple(cfg: Config, q: Queued, r: Queued)
    requires q.parsed.Sound() && r.parsed.Sound() && CallOf(cfg, q).Mark? && CallOf(cfg, r).Mark?
    ensures CallOf(cfg, q).key == CallOf(cfg, r).key <==> TupleOf(q) == TupleOf(r)
  {
    KeyInjective(q.parsed.meta.Tuple(), r.parsed.meta.Tuple());
  }

  lemma RecentInjectionsAreRecent(cfg: Config, ttl: int, run: Run, now: int)
    ensures RecentInjections(cfg, ttl, run, now) == FlowTable.Recent(Calls(cfg, run), now, ttl, cfg.maxFlows)
  {
    var calls := Calls(cfg, run);
    forall i: nat | i < |run|
      ensures Injects(cfg, ttl, run, i) == FlowTable.Accepted(calls, i, ttl, cfg.maxFlows)
      ensures calls[i].Mark? ==> calls[i].now == run[i].now
    {
      InjectsIsAccepted(cfg, ttl, run, i);
    }
  }

  /** Under an ordered clock, the whole decision in terms of real tuples: a
      packet is injected for exactly when it is eligible, its own tuple was not
      injected for within the TTL, and fewer than the limit of tuples were. */
  lemma InjectsExactly(cfg: Config, ttl: int, run: Run, i: nat)
    requires InOrder(run) && i < |run|
    ensures var recent := RecentTuples(cfg, ttl, run[..i], run[i].now);
            Injects(cfg, ttl, run, i) <==>
            Eligible(cfg, run[i]) && TupleOf(run[i]) !in recent && |recent| < cfg.maxFlows
  {
    AsksExactly(cfg, run[i]);
    var before: Run, q := run[..i], run[i];
    var calls, past := Calls(cfg, run), Calls(cfg, before);
    assert calls[i] == CallOf(cfg, q) && calls[..i] == past;
    InjectsIsAccepted(cfg, ttl, run, i);
    if calls[i].Mark? {
      CallsInOrder(cfg, run);
      FlowTable.AcceptedByHistory(calls, i, ttl, cfg.maxFlows);
      RecentAgree(cfg, ttl, before, q);
    }
  }

  lemma RecentAgree(cfg: Config, ttl: int, before: Run, q: Queued)
    requires q.parsed.Sound() && CallOf(cfg, q).Mark?
    ensures var keys := FlowTable.RecentKeys(Calls(cfg, before), q.now, ttl, cfg.maxFlows);
            var tuples := RecentTuples(cfg, ttl, before, q.now);
            |keys| == |tuples| && (CallOf(cfg, q).key in keys <==> TupleOf(q) in tuples)
  {
    var past := Calls(cfg, before);
    var at := FlowTable.Recent(past, q.now, ttl, cfg.maxFlows);
    RecentInjectionsAreRecent(cfg, ttl, before, q.now);
    var keys, tuples := FlowTable.Keys(past), Tuples(before);
    forall i | i in at
      ensures past[i] == CallOf(cfg, before[i]) && past[i].Mark? && keys[i] == past[i].key
      ensures tuples[i] == TupleOf(before[i])
    {
    }
    forall i, j | i in at && j in at ensures keys[i] == keys[j] <==> tuples[i] == tuples[j] {
      SameKeySameTuple(cfg, before[i], before[j]);
    }
    forall i | i in at ensures keys[i] == CallOf(cfg, q).key <==> tuples[i] == TupleOf(q) {
      SameKeySameTuple(cfg, before[i], q);
    }
    FlowTable.SameCount(at, keys, tuples);
    FlowTable.SameMembers(at, CallOf(cfg, q).key, TupleOf(q), keys, tuples);
  }

  /** What is injected: the fake drawn for this packet, on the packet's own
      connection, with its own sequence and acknowledgement numbers. */
  lemma InjectionNamesPacket(cfg: Config, ttl: int, run: Run, i: nat)
    requires i < |run| && Injects(cfg, ttl, run, i)
    ensures run[i].parsed.Meta?
    ensures var action, m := ActionAt(cfg, ttl, run, i), run[i].parsed.meta;
            action == Inject(ConnInfo(m.srcIP, m.dstIP, m.srcPort, m.dstPort, m.tcp.seqNo, m.tcp.ackNo), run[i].fake)
  {
    AsksExactly(cfg, run[i]);
  }

  /** Two injections for one tuple are more than the TTL apart. */
  lemma InjectionsAreApart(cfg: Config, ttl: int, run: Run, i: nat, j: nat)
    requires InOrder(run) && i < j < |run| && TupleOf(run[i]) == TupleOf(run[j])
    requires Injects(cfg, ttl, run, i) && Injects(cfg, ttl, run, j)
    ensures run[j].now - run[i].now > ttl
  {
    var calls := Calls(cfg, run);
    InjectsIsAccepted(cfg, ttl, run, i);
    InjectsIsAccepted(cfg, ttl, run, j);
    CallsInOrder(cfg, run);
    assert calls[i] == CallOf(cfg, run[i]) && calls[j] == CallOf(cfg, run[j]);
    SameKeySameTuple(cfg, run[i], run[j]);
    FlowTable.AcceptedMarksAreApart(calls, i, j, ttl, cfg.maxFlows);
  }

  /** The table of any run stays within the configured size. */
  lemma FlowsAreBounded(cfg: Config, ttl: int, run: Run)
    requires cfg.maxFlows >= 0
    ensures |EntriesAfter(cfg, ttl, run)| <= cfg.maxFlows
  {
    EntriesAreCalls(cfg, ttl, run);
    FlowTable.NeverOverLimit(Calls(cfg, run), ttl, cfg.maxFlows);
  }
}
