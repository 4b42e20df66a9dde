/** What a receiver makes of a built packet: both checksums verify, and the
    RFC layouts give back every field. */
module PacketProofs {
  import opened Bytes
  import opened InternetChecksum
  import opened Packet

  lemma PatchKeeps(data: seq<byte>, i: nat, cs: u16, lo: nat, hi: nat)
    requires i + 1 < |data| && lo <= hi <= |data| && (hi <= i || i + 2 <= lo)
    ensures Patched(data, i, cs)[lo..hi] == data[lo..hi]
  {
  }

  /** In either octet order, with or without IPv4 addresses. */
  lemma IPHeaderVerifies(conn: ConnInfo, payload: seq<byte>, ttl: int, order: ByteOrder)
    ensures var header := PacketBytes(conn, payload, ttl, order)[..20];
            CodeChecksum(header) == 0 && Rfc1071(header) == 0
  {
    var blank := BlankIPHeader(conn, ttl, 20 + |payload|, order);
    PatchedVerifies(blank, 10);
    var header := IPHeader(conn, ttl, 20 + |payload|, order);
    assert PacketBytes(conn, payload, ttl, order)[..20] == header;
    ChecksumIsRfc1071(header);
  }

  lemma PacketAddresses(conn: ConnInfo, payload: seq<byte>, ttl: int, order: ByteOrder)
    ensures var pkt := PacketBytes(conn, payload, ttl, order);
            && |pkt| == 40 + |payload|
            && pkt[12..20] == Field4(conn.srcIP) + Field4(conn.dstIP)
            && pkt[20..] == TCPSegment(conn, payload)
  {
    var blank := BlankIPHeader(conn, ttl, 20 + |payload|, order);
    PatchKeeps(blank, 10, CodeChecksum(blank), 12, 20);
    var header := IPHeader(conn, ttl, 20 + |payload|, order);
    assert PacketBytes(conn, payload, ttl, order)[12..20] == header[12..20];
    assert blank[12..20] == Field4(conn.srcIP) + Field4(conn.dstIP);
  }

  /** A missing address adds nothing, just like the zeros sent for it. */
  lemma FieldSums(ip: seq<byte>)
    ensures WordSum(Field4(ip)) == WordSum(To4(ip))
  {
    if To4(ip) == [] {
      var z: seq<byte> := [0, 0, 0, 0];
      assert z[2..] == [0, 0] && z[2..][2..] == [];
      assert WordSum(z) == WordSum(z[2..]) == WordSum(z[2..][2..]) == 0;
    }
  }

  lemma SumOfThree(a: seq<byte>, b: seq<byte>, c: seq<byte>)
    requires |a| % 2 == |b| % 2 == 0
    ensures WordSum(a + (b + c)) == WordSum(a) + WordSum(b) + WordSum(c)
  {
    WordSumAppend(a, b + c);
    WordSumAppend(b, c);
  }

  lemma AddressSums(src: seq<byte>, dst: seq<byte>, tail: seq<byte>)
    ensures WordSum(Field4(src) + (Field4(dst) + tail)) == WordSum(To4(src) + (To4(dst) + tail))
  {
    SumOfThree(Field4(src), Field4(dst), tail);
    SumOfThree(To4(src), To4(dst), tail);
    FieldSums(src);
    FieldSums(dst);
  }

  lemma PseudoHeaderParts(src: seq<byte>, dst: seq<byte>, n: nat, rest: seq<byte>)
    ensures PseudoHeader(src, dst, n) + rest == src + (dst + ([0, IPPROTO_TCP] + Be16(ToU16(n)) + rest))
  {
  }

  /** The pseudo-header a receiver takes from the packet itself. */
  function ReceivedPseudoHeader(pkt: seq<byte>): seq<byte>
    requires |pkt| >= 20
  {
    pkt[12..20] + [0, 6] + Be16(ToU16(|pkt| - 20))
  }

  /** Odd or even payload, up to the size the 32-bit accumulator is exact for. */
  lemma TCPChecksumVerifies(conn: ConnInfo, payload: seq<byte>, ttl: int, order: ByteOrder)
    requires |payload| <= 131042
    ensures var pkt := PacketBytes(conn, payload, ttl, order);
            |pkt| >= 20 && CodeChecksum(ReceivedPseudoHeader(pkt) + pkt[20..]) == 0
            && Rfc1071(ReceivedPseudoHeader(pkt) + pkt[20..]) == 0
  {
    var pkt := PacketBytes(conn, payload, ttl, order);
    PacketAddresses(conn, payload, ttl, order);
    var pseudo := PseudoHeader(Field4(conn.srcIP), Field4(conn.dstIP), 20 + |payload|);
    var blank := TCPHeader(conn) + payload;
    assert ReceivedPseudoHeader(pkt) == pseudo;
    PseudoHeaderParts(Field4(conn.srcIP), Field4(conn.dstIP), 20 + |payload|, blank);
    PseudoHeaderParts(To4(conn.srcIP), To4(conn.dstIP), 20 + |payload|, blank);
    AddressSums(conn.srcIP, conn.dstIP, [0, IPPROTO_TCP] + Be16(ToU16(20 + |payload|)) + blank);
    assert TCPChecksum(conn, payload) == CodeChecksum(pseudo + blank);
    SegmentVerifies(pseudo, blank, 16);
    ChecksumIsRfc1071(pseudo + pkt[20..]);
  }

  lemma SegmentVerifies(pseudo: seq<byte>, blank: seq<byte>, i: nat)
    requires |pseudo| % 2 == 0 && i % 2 == 0 && i + 1 < |blank| && blank[i] == blank[i + 1] == 0
    requires |pseudo| + |blank| <= 131074
    ensures CodeChecksum(pseudo + Patched(blank, i, CodeChecksum(pseudo + blank))) == 0
  {
    var cs := CodeChecksum(pseudo + blank);
    PatchedVerifies(pseudo + blank, |pseudo| + i);
    PatchBehind(pseudo, blank, i, cs);
  }

  // ----- decoding -----

  datatype Segment = Segment(
    srcIP: seq<byte>, dstIP: seq<byte>, tos: byte, ttl: byte, identification: u16, fragment: u16, totalLength: u16,
    srcPort: u16, dstPort: u16, seqNo: u32, ackNo: u32, reserved: byte, flags: byte, window: u16, urgent: u16,
    payload: seq<byte>)

  /** RFC 791 section 3.1: version, header length and total length rule. The
      protocol number of TCP is 6. */
  function TransportOf(pkt: seq<byte>): Option<seq<byte>> {
    if |pkt| < 20 || pkt[0] / 0x10 != 4 then None
    else
      var headerLen, total := pkt[0] % 0x10 * 4, U16(pkt[2], pkt[3]);
      if headerLen < 20 || total < headerLen || total > |pkt| || pkt[9] != 6 then None
      else Some(pkt[headerLen..total])
  }

  /** RFC 9293 section 3.1: the data offset rules. `fragment` holds the three
      flags and the fragment offset of RFC 791. */
  function DecodePacket(pkt: seq<byte>): Option<Segment> {
    var t :- TransportOf(pkt);
    if |t| < 20 then None
    else
      var offset := t[12] / 0x10 * 4;
      if offset < 20 || offset > |t| then None
      else Some(Segment(
                  pkt[12..16], pkt[16..20], pkt[1], pkt[8], U16(pkt[4], pkt[5]), U16(pkt[6], pkt[7]),
                  U16(pkt[2], pkt[3]), U16(t[0], t[1]), U16(t[2], t[3]), U32(t[4], t[5], t[6], t[7]),
                  U32(t[8], t[9], t[10], t[11]), t[12] % 0x10, t[13], U16(t[14], t[15]), U16(t[18], t[19]),
                  t[offset..]))
  }

  /** The packet as it goes out: a kernel that takes total length and
      identification in host order puts them in network order. */
  function OnTheWire(pkt: seq<byte>, order: ByteOrder): seq<byte>
    requires |pkt| >= 6
  {
    if order == BigEndian then pkt else pkt[..2] + [pkt[3], pkt[2], pkt[5], pkt[4]] + pkt[6..]
  }

  /** `ip` stands for the IPv4 address `quad`, as four octets or v4-mapped
      (RFC 4291 section 2.5.5.2). */
  predicate Denotes(ip: seq<byte>, quad: seq<byte>) {
    |quad| == 4 && (ip == quad || ip == [0, 0, 0, 0, 0, 0, 0, 0, 0, 0, 0xff, 0xff] + quad)
  }

  lemma To4Exactly(ip: seq<byte>, quad: seq<byte>)
    ensures Denotes(ip, quad) <==> To4(ip) == quad != []
  {
    var mapped: seq<byte> := [0, 0, 0, 0, 0, 0, 0, 0, 0, 0, 0xff, 0xff];
    assert (mapped + quad)[..12] == mapped && (mapped + quad)[12..] == quad;
    if |ip| == 16 { assert ip == ip[..12] + ip[12..]; }
  }

  lemma TCPFields(conn: ConnInfo, payload: seq<byte>)
    ensures var t := TCPSegment(conn, payload);
            && |t| == 20 + |payload|
            && t[..2] == Be16(conn.srcPort) && t[2..4] == Be16(conn.dstPort)
            && t[4..8] == Be32(conn.seqNo) && t[8..12] == Be32(conn.ackNo)
            && t[12..14] == [0x50, 0x18] && t[14..16] == Be16(502) && t[18..20] == [0, 0] && t[20..] == payload
  {
    var h := TCPHeader(conn);
    var t := TCPSegment(conn, payload);
    PatchKeeps(h + payload, 16, TCPChecksum(conn, payload), 0, 16);
    PatchKeeps(h + payload, 16, TCPChecksum(conn, payload), 18, 20);
    PatchKeeps(h + payload, 16, TCPChecksum(conn, payload), 20, |t|);
    assert h[18..20] == [0, 0];
    assert t[18..20] == h[18..20];
    HeaderSlices(Be16(conn.srcPort), Be16(conn.dstPort), Be32(conn.seqNo), Be32(conn.ackNo), Be16(502));
    assert t[..16] == h[..16];
    assert t[..2] == h[..16][..2] && t[2..4] == h[..16][2..4] && t[4..8] == h[..16][4..8];
    assert t[8..12] == h[..16][8..12] && t[12..14] == h[..16][12..14] && t[14..16] == h[..16][14..16];
  }

  lemma HeaderSlices(a: seq<byte>, b: seq<byte>, c: seq<byte>, d: seq<byte>, w: seq<byte>)
    requires |a| == |b| == |w| == 2 && |c| == |d| == 4
    ensures var h := (a + b + c + d + [0x50, 0x18] + w + [0, 0, 0, 0])[..16];
            && h[..2] == a && h[2..4] == b && h[4..8] == c && h[8..12] == d
            && h[12..14] == [0x50, 0x18] && h[14..16] == w
  {
  }

  lemma IPFields(conn: ConnInfo, ttl: int, n: nat, order: ByteOrder)
    ensures var h := IPHeader(conn, ttl, n, order);
            && h[..2] == [0x45, 0] && h[2..4] == Put16(order, ToU16(20 + n)) && h[4..6] == Put16(order, 0x1234)
            && h[6..8] == [0, 0] && h[8] == ToByte(ttl) && h[9] == IPPROTO_TCP
            && h[12..16] == Field4(conn.srcIP) && h[16..20] == Field4(conn.dstIP)
  {
    var blank := BlankIPHeader(conn, ttl, n, order);
    var cs := CodeChecksum(blank);
    PatchKeeps(blank, 10, cs, 0, 10);
    PatchKeeps(blank, 10, cs, 12, 20);
    var h := IPHeader(conn, ttl, n, order);
    IPSlices(Put16(order, ToU16(20 + n)), Put16(order, 0x1234), ToByte(ttl), Field4(conn.srcIP), Field4(conn.dstIP));
    assert h[..10] == blank[..10] && h[12..20] == blank[12..20];
    assert h[..2] == blank[..10][..2] && h[2..4] == blank[..10][2..4] && h[4..6] == blank[..10][4..6];
    assert h[6..8] == blank[..10][6..8] && h[8] == blank[..10][8] && h[9] == blank[..10][9];
    assert h[12..16] == h[12..20][..4] && h[16..20] == h[12..20][4..];
  }

  lemma IPSlices(len: seq<byte>, id: seq<byte>, ttl: byte, src: seq<byte>, dst: seq<byte>)
    requires |len| == |id| == 2 && |src| == |dst| == 4
    ensures var h := [0x45, 0] + len + id + [0, 0] + [ttl, IPPROTO_TCP] + [0, 0] + (src + dst);
            && h[..10][..2] == [0x45, 0] && h[..10][2..4] == len && h[..10][4..6] == id && h[..10][6..8] == [0, 0]
            && h[..10][8] == ttl && h[..10][9] == IPPROTO_TCP
            && h[12..20][..4] == src && h[12..20][4..] == dst
  {
    var front := [0x45, 0] + len + id + [0, 0] + [ttl, IPPROTO_TCP];
    var h := front + [0, 0] + (src + dst);
    assert h[..10] == front && front[..2] == [0x45, 0] && front[2..4] == len && front[4..6] == id;
    assert h[12..20] == src + dst;
  }

  /** On the wire the two fields stand in network order in any case. */
  lemma WireFields(h: seq<byte>, t: seq<byte>, order: ByteOrder, total: u16, id: u16)
    requires |h| == 20 && h[2..4] == Put16(order, total) && h[4..6] == Put16(order, id)
    ensures var h' := OnTheWire(h, order);
            && OnTheWire(h + t, order) == h' + t && |h'| == 20
            && h'[..2] == h[..2] && h'[2..4] == Be16(total) && h'[4..6] == Be16(id) && h'[6..] == h[6..]
  {
    assert h[2] == h[2..4][0] && h[3] == h[2..4][1] && h[4] == h[4..6][0] && h[5] == h[4..6][1];
  }

  lemma WireHeader(conn: ConnInfo, src: seq<byte>, dst: seq<byte>, ttl: int, n: nat, order: ByteOrder, t: seq<byte>)
    returns (h: seq<byte>)
    requires Denotes(conn.srcIP, src) && Denotes(conn.dstIP, dst) && n <= 65515
    ensures OnTheWire(IPHeader(conn, ttl, n, order) + t, order) == h + t && |h| == 20
    ensures h[..2] == [0x45, 0] && h[2..4] == Be16(20 + n) && h[4..6] == Be16(0x1234) && h[6..8] == [0, 0]
    ensures h[8] == ttl % 0x100 && h[9] == 6 && h[12..16] == src && h[16..20] == dst
  {
    var header := IPHeader(conn, ttl, n, order);
    To4Exactly(conn.srcIP, src);
    To4Exactly(conn.dstIP, dst);
    IPFields(conn, ttl, n, order);
    TruncationKeepsLowBits(ttl);
    WireFields(header, t, order, 20 + n, 0x1234);
    h := OnTheWire(header, order);
    assert h[6..8] == h[6..][..2] && h[8] == h[6..][2] && h[9] == h[6..][3];
    assert h[12..16] == h[6..][6..10] && h[16..20] == h[6..][10..14];
  }

  /** Every field comes back, for any payload that fits the total length, from
      either octet order: the packet is no fragment and sets nothing but what
      it is asked to. */
  lemma PacketDecodes(conn: ConnInfo, src: seq<byte>, dst: seq<byte>, payload: seq<byte>, ttl: int, order: ByteOrder)
    requires |payload| <= 65495 && Denotes(conn.srcIP, src) && Denotes(conn.dstIP, dst)
    ensures DecodePacket(OnTheWire(PacketBytes(conn, payload, ttl, order), order)) ==
            Some(Segment(src, dst, 0, ttl % 0x100, 0x1234, 0, 40 + |payload|,
                         conn.srcPort, conn.dstPort, conn.seqNo, conn.ackNo, 0, 0x18, 502, 0, payload))
  {
    var t := TCPSegment(conn, payload);
    var h := WireHeader(conn, src, dst, ttl, 20 + |payload|, order, t);
    TCPFields(conn, payload);
    DecodeNumbers(h, t, payload, ttl % 0x100, 0x1234, conn.srcPort, conn.dstPort, conn.seqNo, conn.ackNo, 502);
  }

  lemma DecodeNumbers(h: seq<byte>, t: seq<byte>, payload: seq<byte>, ttl: byte, id: u16, srcPort: u16, dstPort: u16,
                      seqNo: u32, ackNo: u32, window: u16)
    requires |payload| <= 65495 && |h| == 20 && |t| == 20 + |payload|
    requires h[..2] == [0x45, 0] && h[2..4] == Be16(40 + |payload|) && h[4..6] == Be16(id) && h[6..8] == [0, 0]
    requires h[8] == ttl && h[9] == 6
    requires t[..2] == Be16(srcPort) && t[2..4] == Be16(dstPort) && t[4..8] == Be32(seqNo) && t[8..12] == Be32(ackNo)
    requires t[12..14] == [0x50, 0x18] && t[14..16] == Be16(window) && t[18..20] == [0, 0] && t[20..] == payload
    ensures DecodePacket(h + t) ==
            Some(Segment(h[12..16], h[16..20], 0, ttl, id, 0, 40 + |payload|, srcPort, dstPort, seqNo, ackNo,
                         0, 0x18, window, 0, payload))
  {
    var total: u16 := 40 + |payload|;
    Be16Decodes(total);
    Be16Decodes(id);
    Be16Decodes(window);
    Be16Decodes(srcPort);
    Be16Decodes(dstPort);
    Be32Decodes(seqNo);
    Be32Decodes(ackNo);
    DecodeLayout(h, t, payload, ttl, Be16(total), Be16(id), Be16(srcPort), Be16(dstPort), Be32(seqNo), Be32(ackNo),
                 Be16(window));
  }

  /** The offsets alone, whatever the numbers are. */
  lemma DecodeLayout(h: seq<byte>, t: seq<byte>, payload: seq<byte>, ttl: byte,
                     total: seq<byte>, id: seq<byte>, srcPort: seq<byte>, dstPort: seq<byte>,
                     seqNo: seq<byte>, ackNo: seq<byte>, window: seq<byte>)
    requires |total| == |id| == |srcPort| == |dstPort| == |window| == 2 && |seqNo| == |ackNo| == 4
    requires |h| == 20 && |t| == 20 + |payload| && U16(total[0], total[1]) == 40 + |payload|
    requires h[..2] == [0x45, 0] && h[2..4] == total && h[4..6] == id && h[6..8] == [0, 0]
    requires h[8] == ttl && h[9] == 6
    requires t[..2] == srcPort && t[2..4] == dstPort && t[4..8] == seqNo && t[8..12] == ackNo
    requires t[12..14] == [0x50, 0x18] && t[14..16] == window && t[18..20] == [0, 0] && t[20..] == payload
    ensures DecodePacket(h + t) ==
            Some(Segment(h[12..16], h[16..20], 0, ttl, U16(id[0], id[1]), 0, 40 + |payload|,
                         U16(srcPort[0], srcPort[1]), U16(dstPort[0], dstPort[1]),
                         U32(seqNo[0], seqNo[1], seqNo[2], seqNo[3]),
                         U32(ackNo[0], ackNo[1], ackNo[2], ackNo[3]),
                         0, 0x18, U16(window[0], window[1]), 0, payload))
  {
    var pkt := h + t;
    assert pkt[0] == h[..2][0] && pkt[1] == h[..2][1] && pkt[2] == h[2..4][0] && pkt[3] == h[2..4][1];
    assert pkt[4] == h[4..6][0] && pkt[5] == h[4..6][1] && pkt[6] == h[6..8][0] && pkt[7] == h[6..8][1];
    assert TransportOf(pkt) == Some(t) by { assert pkt[20..40 + |payload|] == t; }
    assert t[12] == t[12..14][0] && t[13] == t[12..14][1] && t[18] == t[18..20][0] && t[19] == t[18..20][1];
    assert pkt[12..16] == h[12..16] && pkt[16..20] == h[16..20];
  }

  /** A 16-bit total length leaves room for 65495 payload octets. */
  lemma DecodedPayloadFits(pkt: seq<byte>)
    requires DecodePacket(pkt).Some?
    ensures |DecodePacket(pkt).value.payload| <= 65495
  {
  }

  /** The payload survives exactly up to that size; a longer packet is built
      with a truncated length. */
  lemma PayloadSurvivesExactly(conn: ConnInfo, payload: seq<byte>, ttl: int, order: ByteOrder)
    requires To4(conn.srcIP) != [] && To4(conn.dstIP) != []
    ensures var d := DecodePacket(OnTheWire(PacketBytes(conn, payload, ttl, order), order));
            (d.Some? && d.value.payload == payload) <==> |payload| <= 65495
  {
    var pkt := OnTheWire(PacketBytes(conn, payload, ttl, order), order);
    if |payload| <= 65495 {
      To4Exactly(conn.srcIP, To4(conn.srcIP));
      To4Exactly(conn.dstIP, To4(conn.dstIP));
      PacketDecodes(conn, To4(conn.srcIP), To4(conn.dstIP), payload, ttl, order);
    }
    if DecodePacket(pkt).Some? {
      DecodedPayloadFits(pkt);
    }
  }
}
