/** The TCP/IPv4 packet builder of pkg/rawsock/rawsock.go, and a decoder that
    follows the layouts of RFC 791 section 3.1 and RFC 9293 section 3.1. */
module Packet {
  import opened Bytes
  import opened InternetChecksum

  const IPPROTO_TCP: byte := 6

  datatype ConnInfo = ConnInfo(
    srcIP: seq<byte>, dstIP: seq<byte>, srcPort: u16, dstPort: u16, seqNo: u32, ackNo: u32)

  /** Octet order of two IP header fields: little-endian on macOS only. */
  datatype ByteOrder = BigEndian | LittleEndian

  /** net.IP.To4: four octets, taken out of a v4-mapped address if need be,
      or none. */
  function To4(ip: seq<byte>): (r: seq<byte>)
    ensures |r| == 4 || r == []
  {
    if |ip| == 4 then ip
    else if |ip| == 16 && ip[..12] == [0, 0, 0, 0, 0, 0, 0, 0, 0, 0, 0xff, 0xff] then ip[12..]
    else []
  }

  /** What `copy` leaves in a zeroed four-octet field. */
  function Field4(ip: seq<byte>): (r: seq<byte>)
    ensures |r| == 4
  {
    if To4(ip) == [] then [0, 0, 0, 0] else To4(ip)
  }

  function Put16(order: ByteOrder, v: u16): (r: seq<byte>)
    ensures |r| == 2
  {
    if order == BigEndian then Be16(v) else [Be16(v)[1], Be16(v)[0]]
  }

  /** The IP header up to its addresses, the checksum field still zero. */
  function BlankIPFront(ttl: int, payloadLen: nat, order: ByteOrder): (h: seq<byte>)
    ensures |h| == 12 && h[10] == h[11] == 0
  {
    [0x45, 0] + Put16(order, ToU16(20 + payloadLen)) + Put16(order, 0x1234) + [0, 0]
    + [ToByte(ttl), IPPROTO_TCP] + [0, 0]
  }

  function BlankIPHeader(conn: ConnInfo, ttl: int, payloadLen: nat, order: ByteOrder): (h: seq<byte>)
    ensures |h| == 20 && h[10] == h[11] == 0
  {
    BlankIPFront(ttl, payloadLen, order) + (Field4(conn.srcIP) + Field4(conn.dstIP))
  }

  function IPHeader(conn: ConnInfo, ttl: int, payloadLen: nat, order: ByteOrder): (h: seq<byte>)
    ensures |h| == 20
  {
    var blank := BlankIPHeader(conn, ttl, payloadLen, order);
    Patched(blank, 10, CodeChecksum(blank))
  }

  function TCPHeader(conn: ConnInfo): (h: seq<byte>)
    ensures |h| == 20 && h[16] == h[17] == 0
  {
    Be16(conn.srcPort) + Be16(conn.dstPort) + Be32(conn.seqNo) + Be32(conn.ackNo)
    + [0x50, 0x18] + Be16(502) + [0, 0, 0, 0]
  }

  /** The pseudo-header as the builder writes it. */
  function PseudoHeader(src: seq<byte>, dst: seq<byte>, tcpLen: nat): seq<byte> {
    src + dst + [0, IPPROTO_TCP] + Be16(ToU16(tcpLen))
  }

  function TCPChecksum(conn: ConnInfo, payload: seq<byte>): u16 {
    CodeChecksum(PseudoHeader(To4(conn.srcIP), To4(conn.dstIP), 20 + |payload|) + (TCPHeader(conn) + payload))
  }

  function TCPSegment(conn: ConnInfo, payload: seq<byte>): seq<byte> {
    Patched(TCPHeader(conn) + payload, 16, TCPChecksum(conn, payload))
  }

  function PacketBytes(conn: ConnInfo, payload: seq<byte>, ttl: int, order: ByteOrder): seq<byte> {
    IPHeader(conn, ttl, 20 + |payload|, order) + TCPSegment(conn, payload)
  }

  // ----- the code -----

  function Zeros(n: nat): (z: seq<byte>)
    ensures |z| == n
  {
    seq(n, _ => 0)
  }

  /** `binary.BigEndian.Put...(buf[off:], v)` and `copy(buf[off:], b)`, on a
      buffer whose octets from `off` on are still zero. */
  method PutNext(buf: array<byte>, off: nat, b: seq<byte>, ghost done: seq<byte>)
    requires off == |done| && off + |b| <= buf.Length
    requires buf[..] == done + Zeros(buf.Length - off)
    modifies buf
    ensures buf[..] == done + b + Zeros(buf.Length - off - |b|)
  {
    for i := 0 to |b|
      invariant forall k :: 0 <= k < i ==> buf[off + k] == b[k]
      invariant forall k :: 0 <= k < off ==> buf[k] == done[k]
      invariant forall k :: off + i <= k < buf.Length ==> buf[k] == 0
    {
      buf[off + i] := b[i];
    }
  }

  method BuildTCPHeader(conn: ConnInfo) returns (hdr: array<byte>)
    ensures fresh(hdr) && hdr[..] == TCPHeader(conn)
  {
    hdr := new byte[20](_ => 0);
    assert hdr[..] == [] + Zeros(20);
    PutNext(hdr, 0, Be16(conn.srcPort), []);
    ghost var done := [] + Be16(conn.srcPort);
    PutNext(hdr, 2, Be16(conn.dstPort), done);
    done := done + Be16(conn.dstPort);
    PutNext(hdr, 4, Be32(conn.seqNo), done);
    done := done + Be32(conn.seqNo);
    PutNext(hdr, 8, Be32(conn.ackNo), done);
    done := done + Be32(conn.ackNo);
    PutNext(hdr, 12, [0x50, 0x18], done);
    done := done + [0x50, 0x18];
    PutNext(hdr, 14, Be16(502), done);
    assert Zeros(4) == [0, 0, 0, 0];
  }

  /** Moves the front over octets that stay zero. */
  lemma LeaveZeros(done: seq<byte>, k: nat, n: nat)
    requires k <= n
    ensures done + Zeros(n) == done + Zeros(k) + Zeros(n - k)
  {
  }

  lemma CopyLeavesField(ip: seq<byte>, done: seq<byte>, n: nat)
    requires n >= 4
    ensures done + To4(ip) + Zeros(n - |To4(ip)|) == done + Field4(ip) + Zeros(n - 4)
  {
    if To4(ip) == [] {
      assert Zeros(4) == [0, 0, 0, 0];
      LeaveZeros(done, 4, n);
      assert done + [] == done;
    }
  }

  method StoreChecksum(buf: array<byte>, off: nat, cs: u16)
    requires off + 1 < buf.Length
    modifies buf
    ensures buf[..] == Patched(old(buf[..]), off, cs)
  {
    var b := Be16(cs);
    buf[off] := b[0];
    buf[off + 1] := b[1];
  }

  /** The stores up to offset 10; the checksum field is stored last. */
  method FillIPFront(hdr: array<byte>, ttl: int, payloadLen: nat, order: ByteOrder)
    requires hdr.Length == 20 && hdr[..] == [] + Zeros(20)
    modifies hdr
    ensures hdr[..] == BlankIPFront(ttl, payloadLen, order) + Zeros(8)
  {
    var totalLen, id := Put16(order, ToU16(20 + payloadLen)), Put16(order, 0x1234);
    assert Zeros(2) == [0, 0];
    PutNext(hdr, 0, [0x45, 0], []);
    ghost var done := [] + [0x45, 0];
    PutNext(hdr, 2, totalLen, done);
    done := done + totalLen;
    PutNext(hdr, 4, id, done);
    done := done + id;
    LeaveZeros(done, 2, 14);
    done := done + [0, 0];
    PutNext(hdr, 8, [ToByte(ttl), IPPROTO_TCP], done);
    done := done + [ToByte(ttl), IPPROTO_TCP];
    LeaveZeros(done, 2, 10);
  }

  method BuildIPHeader(conn: ConnInfo, ttl: int, payloadLen: nat, order: ByteOrder)
    returns (hdr: array<byte>)
    ensures fresh(hdr) && hdr[..] == IPHeader(conn, ttl, payloadLen, order)
  {
    hdr := new byte[20](_ => 0);
    assert hdr[..] == [] + Zeros(20);
    FillIPFront(hdr, ttl, payloadLen, order);
    ghost var done := BlankIPFront(ttl, payloadLen, order);
    PutNext(hdr, 12, To4(conn.srcIP), done);
    CopyLeavesField(conn.srcIP, done, 8);
    done := done + Field4(conn.srcIP);
    PutNext(hdr, 16, To4(conn.dstIP), done);
    CopyLeavesField(conn.dstIP, done, 4);
    assert hdr[..] == BlankIPHeader(conn, ttl, payloadLen, order);
    var cs, _ := Checksum(hdr[..]);
    StoreChecksum(hdr, 10, cs);
  }

  method BuildPacket(conn: ConnInfo, payload: seq<byte>, ttl: int, order: ByteOrder)
    returns (pkt: array<byte>)
    ensures fresh(pkt) && pkt[..] == PacketBytes(conn, payload, ttl, order)
  {
    var tcpHdr := BuildTCPHeader(conn);
    var ipHdr := BuildIPHeader(conn, ttl, tcpHdr.Length + |payload|, order);
    var bytes := ipHdr[..] + tcpHdr[..] + payload;
    pkt := new byte[|bytes|](i requires 0 <= i < |bytes| => bytes[i]);
    assert pkt[..] == bytes;

    var tcpChecksumOffset := ipHdr.Length + 16;
    var checksumData := To4(conn.srcIP) + To4(conn.dstIP);
    checksumData := checksumData + [0, IPPROTO_TCP];
    checksumData := checksumData + Be16(ToU16(tcpHdr.Length + |payload|));
    assert bytes[ipHdr.Length..] == TCPHeader(conn) + payload;
    checksumData := checksumData + pkt[ipHdr.Length..];
    var cs, _ := Checksum(checksumData);
    StoreChecksum(pkt, tcpChecksumOffset, cs);
    PatchBehind(ipHdr[..], TCPHeader(conn) + payload, 16, cs);
    assert bytes == ipHdr[..] + (TCPHeader(conn) + payload);
  }

  lemma PatchBehind(a: seq<byte>, b: seq<byte>, i: nat, cs: u16)
    requires i + 1 < |b|
    ensures Patched(a + b, |a| + i, cs) == a + Patched(b, i, cs)
  {
    var x := Be16(cs);
    assert Patched(a + b, |a| + i, cs) == (a + b)[|a| + i := x[0]][|a| + i + 1 := x[1]];
    assert Patched(b, i, cs) == b[i := x[0]][i + 1 := x[1]];
  }
}
