/** Fakes that come back to the queue: the raw socket marks them, and the mark
    test of pkg/router/processor.go is what keeps one fake from begetting
    another. */
module Cascade {
  import opened Bytes
  import opened ClientHello
  import opened Classifier
  import opened FlowKey
  import opened Packet
  import opened PacketProofs
  import opened Processor
  import FlowTable

  /** The metadata of a decoded TCP segment. */
  function MetaOf(s: Segment): PacketMeta {
    PacketMeta(4, ProtocolTCP, s.srcIP, s.dstIP, s.srcPort, s.dstPort,
               TCPMeta(s.seqNo, s.ackNo, s.flags / 0x02 % 2 == 1, s.flags / 0x10 % 2 == 1,
                       s.flags / 0x08 % 2 == 1, s.flags / 0x04 % 2 == 1, s.flags % 2 == 1),
               s.payload)
  }

  function ParseBytes(pkt: seq<byte>): (r: Parsed)
    ensures r.Sound()
  {
    var s := DecodePacket(pkt);
    if s.None? then Unparsable else Meta(MetaOf(s.value))
  }

  lemma FakeDecodes(conn: ConnInfo, payload: seq<byte>, ttl: int)
    requires |payload| <= 65495 && To4(conn.srcIP) != [] && To4(conn.dstIP) != []
    ensures DecodePacket(PacketBytes(conn, payload, ttl, BigEndian)) ==
            Some(Segment(To4(conn.srcIP), To4(conn.dstIP), 0, ttl % 0x100, 0x1234, 0, 40 + |payload|,
                         conn.srcPort, conn.dstPort, conn.seqNo, conn.ackNo, 0, 0x18, 502, 0, payload))
  {
    To4Exactly(conn.srcIP, To4(conn.srcIP));
    To4Exactly(conn.dstIP, To4(conn.dstIP));
    PacketDecodes(conn, To4(conn.srcIP), To4(conn.dstIP), payload, ttl, BigEndian);
  }

  /** The connection a packet was built for is the one its metadata names. */
  lemma ConnInfoComesBack(conn: ConnInfo, payload: seq<byte>, ttl: int)
    requires |payload| <= 65495 && To4(conn.srcIP) != [] && To4(conn.dstIP) != []
    ensures var parsed := ParseBytes(PacketBytes(conn, payload, ttl, BigEndian));
            && parsed.Meta? && parsed.meta.payload == payload
            && PacketToConnInfo(parsed.meta) ==
               Some(conn.(srcIP := To4(conn.srcIP), dstIP := To4(conn.dstIP)))
  {
    FakeDecodes(conn, payload, ttl);
  }

  datatype Fake = Fake(conn: ConnInfo, payload: seq<byte>)

  function FakePacket(f: Fake, ttl: int): seq<byte> { PacketBytes(f.conn, f.payload, ttl, BigEndian) }

  /** A packet from outside, or fake number `k` queued again, marked. */
  datatype Event = Outside(q: Queued) | Requeued(k: nat, now: int, fake: seq<byte>)

  datatype State = State(entries: map<string, int>, emitted: seq<Fake>)

  function Deliver(cfg: Config, ttl: int, st: State, q: Queued): State
    requires q.parsed.Sound()
  {
    var d := Decide(cfg, ttl, st.entries, q);
    State(d.entries, st.emitted + if d.action.Inject? then [Fake(d.action.conn, d.action.fakePayload)] else [])
  }

  function Step(cfg: Config, ttl: int, fakeTTL: int, st: State, ev: Event): State
    requires ev.Outside? ==> ev.q.parsed.Sound()
  {
    match ev
    case Outside(q) => Deliver(cfg, ttl, st, q)
    case Requeued(k, now, fake) =>
      if k >= |st.emitted| then st
      else Deliver(cfg, ttl, st, Queued(ParseBytes(FakePacket(st.emitted[k], fakeTTL)), cfg.packetMark, now, fake))
  }

  type Events = evs: seq<Event> | forall ev <- evs :: ev.Outside? ==> ev.q.parsed.Sound() witness []

  function Reached(cfg: Config, ttl: int, fakeTTL: int, evs: Events): State {
    if evs == [] then State(map[], [])
    else Step(cfg, ttl, fakeTTL, Reached(cfg, ttl, fakeTTL, evs[..|evs| - 1]), evs[|evs| - 1])
  }

  function UnmarkedOutside(cfg: Config, evs: Events): nat {
    if evs == [] then 0
    else
      var ev := evs[|evs| - 1];
      UnmarkedOutside(cfg, evs[..|evs| - 1])
      + if ev.Outside? && !Marked(cfg, ev.q.mark) then 1 else 0
  }

  /** However often fakes are queued again, each fake emitted is paid for by
      one unmarked packet from outside. */
  lemma NoCascade(given: Config, ttl: int, fakeTTL: int, evs: Events)
    ensures var cfg := given.Normalized();
            |Reached(cfg, ttl, fakeTTL, evs).emitted| <= UnmarkedOutside(cfg, evs)
  {
    EmittedArePaid(given.Normalized(), ttl, fakeTTL, evs);
  }

  /** A zero mark would mark nothing; normalization never leaves one. */
  lemma {:induction false} EmittedArePaid(cfg: Config, ttl: int, fakeTTL: int, evs: Events)
    requires cfg.packetMark != 0
    ensures |Reached(cfg, ttl, fakeTTL, evs).emitted| <= UnmarkedOutside(cfg, evs)
  {
    if evs != [] {
      EmittedArePaid(cfg, ttl, fakeTTL, evs[..|evs| - 1]);
      var ev := evs[|evs| - 1];
      if ev.Outside? {
        SkippedWhenMarked(cfg, ttl, Reached(cfg, ttl, fakeTTL, evs[..|evs| - 1]), ev.q);
      } else {
        RequeuedIsSkipped(cfg, ttl, fakeTTL, Reached(cfg, ttl, fakeTTL, evs[..|evs| - 1]), ev);
      }
    }
  }

  lemma SkippedWhenMarked(cfg: Config, ttl: int, st: State, q: Queued)
    requires q.parsed.Sound()
    ensures var next := Deliver(cfg, ttl, st, q);
            if Marked(cfg, q.mark) then next == st else |next.emitted| <= |st.emitted| + 1
  {
  }

  lemma RequeuedIsSkipped(cfg: Config, ttl: int, fakeTTL: int, st: State, ev: Event)
    requires cfg.packetMark != 0 && ev.Requeued?
    ensures Step(cfg, ttl, fakeTTL, st, ev) == st
  {
    assert Marked(cfg, cfg.packetMark);
    if ev.k < |st.emitted| {
      var q := Queued(ParseBytes(FakePacket(st.emitted[ev.k], fakeTTL)), cfg.packetMark, ev.now, ev.fake);
      SkippedWhenMarked(cfg, ttl, st, q);
    }
  }

  /** A fake on the wire passes every test but the one on the mark: it would
      itself be answered, were it queued with the mark bits clear. */
  lemma OnlyTheMarkStopsFakes(cfg: Config, ttl: int, fakeTTL: int, conn: ConnInfo, p: Profile, e: Entropy,
                              mark: bv32, now: int, fake: seq<byte>)
    requires To4(conn.srcIP) != [] && To4(conn.dstIP) != [] && conn.dstPort in cfg.tcpPorts
    requires HandshakeLength(p) <= 65490
    ensures var q := Queued(ParseBytes(FakePacket(Fake(conn, Hello(p, e)), fakeTTL)), mark, now, fake);
            && (Asks(cfg, q) <==> !Marked(cfg, mark))
            && (cfg.maxFlows >= 1 ==> (Decide(cfg, ttl, map[], q).action.Inject? <==> !Marked(cfg, mark)))
  {
    HandshakeHasLength(p, e);
    assert |Hello(p, e)| == 5 + HandshakeLength(p);
    HelloLooksLike(p, e);
    FakeDecodes(conn, Hello(p, e), fakeTTL);
    ConnInfoComesBack(conn, Hello(p, e), fakeTTL);
    var q := Queued(ParseBytes(FakePacket(Fake(conn, Hello(p, e)), fakeTTL)), mark, now, fake);
    AskedAndInjected(cfg, ttl, q);
  }

  /** The mark test is the only one left. */
  lemma OnlyMarkLeft(cfg: Config, q: Queued)
    requires q.parsed.Meta? && q.parsed.meta.protocol == ProtocolTCP && q.parsed.meta.ipVersion == 4
    requires q.parsed.meta.dstPort in cfg.tcpPorts && LooksLikeTLSClientHello(q.parsed.meta.payload)
    ensures Asks(cfg, q) <==> !Marked(cfg, q.mark)
  {
  }

  lemma AskedFreshTableInjects(cfg: Config, ttl: int, q: Queued)
    requires q.parsed.Sound() && q.parsed.Meta? && PacketToConnInfo(q.parsed.meta).Some? && cfg.maxFlows >= 1
    ensures Decide(cfg, ttl, map[], q).action.Inject? <==> Asks(cfg, q)
  {
    assert FlowTable.Live(map[], q.now, ttl) == map[];
  }

  lemma AskedAndInjected(cfg: Config, ttl: int, q: Queued)
    requires q.parsed.Sound() && q.parsed.Meta? && PacketToConnInfo(q.parsed.meta).Some?
    requires q.parsed.meta.protocol == ProtocolTCP && q.parsed.meta.ipVersion == 4
    requires q.parsed.meta.dstPort in cfg.tcpPorts && LooksLikeTLSClientHello(q.parsed.meta.payload)
    ensures Asks(cfg, q) <==> !Marked(cfg, q.mark)
    ensures cfg.maxFlows >= 1 ==> (Decide(cfg, ttl, map[], q).action.Inject? <==> !Marked(cfg, q.mark))
  {
    OnlyMarkLeft(cfg, q);
    if cfg.maxFlows >= 1 { AskedFreshTableInjects(cfg, ttl, q); }
  }
}
