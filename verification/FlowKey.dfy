/** The flow key of pkg/router/packet.go: its printed form tells tuples apart. */
module FlowKey {
  import opened Bytes

  datatype Protocol = ProtocolUnknown | ProtocolTCP | ProtocolUDP

  /** What a queued packet is told apart by. */
  datatype Tuple = Tuple(
    ipVersion: byte, protocol: Protocol, srcIP: seq<byte>, dstIP: seq<byte>, srcPort: u16, dstPort: u16)
  {
    predicate IPv4() { |srcIP| == 4 && |dstIP| == 4 }
  }

  function ProtocolName(p: Protocol): string {
    match p
    case ProtocolUnknown => "unknown"
    case ProtocolTCP => "tcp"
    case ProtocolUDP => "udp"
  }

  /** The verb %d on a non-negative number. */
  function Decimal(n: nat): string {
    if n < 10 then [('0' as int + n) as char]
    else Decimal(n / 10) + [('0' as int + n % 10) as char]
  }

  /** net.IP.String on a four-octet address. */
  function DottedQuad(ip: seq<byte>): string
    requires |ip| == 4
  {
    Decimal(ip[0]) + "." + (Decimal(ip[1]) + "." + (Decimal(ip[2]) + "." + Decimal(ip[3])))
  }

  function Key(t: Tuple): string
    requires t.IPv4()
  {
    Decimal(t.ipVersion) + "|" + (ProtocolName(t.protocol) + "|" + (DottedQuad(t.srcIP) + "|"
    + (DottedQuad(t.dstIP) + "|" + (Decimal(t.srcPort) + "|" + Decimal(t.dstPort)))))
  }

  predicate Free(s: string, sep: char) { sep !in s }

  /** The text before the first separator. */
  function FirstField(s: string, sep: char): string {
    if s == "" || s[0] == sep then "" else [s[0]] + FirstField(s[1..], sep)
  }

  lemma {:induction false} FirstFieldOf(a: string, x: string, sep: char)
    requires Free(a, sep)
    ensures FirstField(a + [sep] + x, sep) == a
  {
    if a != "" {
      assert (a + [sep] + x)[1..] == a[1..] + [sep] + x;
      FirstFieldOf(a[1..], x, sep);
    }
  }

  lemma SplitUnique(a: string, x: string, b: string, y: string, sep: char)
    requires Free(a, sep) && Free(b, sep) && a + [sep] + x == b + [sep] + y
    ensures a == b && x == y
  {
    var s := a + [sep] + x;
    FirstFieldOf(a, x, sep);
    FirstFieldOf(b, y, sep);
    assert x == s[|a| + 1..] && y == s[|b| + 1..];
  }

  lemma {:induction false} DecimalDigits(n: nat)
    ensures |Decimal(n)| > 0 && forall c <- Decimal(n) :: '0' <= c <= '9'
  {
    if n >= 10 { DecimalDigits(n / 10); }
  }

  lemma {:induction false} DecimalInjective(m: nat, n: nat)
    requires Decimal(m) == Decimal(n)
    ensures m == n
  {
    DecimalDigits(m / 10);
    DecimalDigits(n / 10);
    var s, t := Decimal(m), Decimal(n);
    assert s[|s| - 1] == t[|t| - 1];
    assert m % 10 == n % 10;
    if m >= 10 && n >= 10 {
      assert Decimal(m / 10) == s[..|s| - 1] && Decimal(n / 10) == t[..|t| - 1];
      DecimalInjective(m / 10, n / 10);
    }
  }

  lemma DecimalFree(n: nat)
    ensures Free(Decimal(n), '.') && Free(Decimal(n), '|')
  {
    DecimalDigits(n);
  }

  lemma DottedQuadFree(ip: seq<byte>)
    requires |ip| == 4
    ensures Free(DottedQuad(ip), '|')
  {
    DecimalFree(ip[0]);
    DecimalFree(ip[1]);
    DecimalFree(ip[2]);
    DecimalFree(ip[3]);
  }

  lemma DottedQuadInjective(a: seq<byte>, b: seq<byte>)
    requires |a| == |b| == 4 && DottedQuad(a) == DottedQuad(b)
    ensures a == b
  {
    forall i | 0 <= i < 4
      ensures Free(Decimal(a[i]), '.') && Free(Decimal(b[i]), '.')
    {
      DecimalFree(a[i]);
      DecimalFree(b[i]);
    }
    var a2, b2 := Decimal(a[2]) + "." + Decimal(a[3]), Decimal(b[2]) + "." + Decimal(b[3]);
    var a1, b1 := Decimal(a[1]) + "." + a2, Decimal(b[1]) + "." + b2;
    SplitUnique(Decimal(a[0]), a1, Decimal(b[0]), b1, '.');
    SplitUnique(Decimal(a[1]), a2, Decimal(b[1]), b2, '.');
    SplitUnique(Decimal(a[2]), Decimal(a[3]), Decimal(b[2]), Decimal(b[3]), '.');
    DecimalInjective(a[0], b[0]);
    DecimalInjective(a[1], b[1]);
    DecimalInjective(a[2], b[2]);
    DecimalInjective(a[3], b[3]);
  }

  /** Two IPv4 tuples share a key exactly when they are the same tuple. */
  lemma KeyInjective(s: Tuple, t: Tuple)
    requires s.IPv4() && t.IPv4()
    ensures Key(s) == Key(t) <==> s == t
  {
    if Key(s) == Key(t) {
      DecimalFree(s.ipVersion);
      DecimalFree(t.ipVersion);
      DottedQuadFree(s.srcIP);
      DottedQuadFree(t.srcIP);
      DottedQuadFree(s.dstIP);
      DottedQuadFree(t.dstIP);
      DecimalFree(s.srcPort);
      DecimalFree(t.srcPort);
      var s4, t4 := Decimal(s.srcPort) + "|" + Decimal(s.dstPort), Decimal(t.srcPort) + "|" + Decimal(t.dstPort);
      var s3, t3 := DottedQuad(s.dstIP) + "|" + s4, DottedQuad(t.dstIP) + "|" + t4;
      var s2, t2 := DottedQuad(s.srcIP) + "|" + s3, DottedQuad(t.srcIP) + "|" + t3;
      var s1, t1 := ProtocolName(s.protocol) + "|" + s2, ProtocolName(t.protocol) + "|" + t2;
      SplitUnique(Decimal(s.ipVersion), s1, Decimal(t.ipVersion), t1, '|');
      SplitUnique(ProtocolName(s.protocol), s2, ProtocolName(t.protocol), t2, '|');
      SplitUnique(DottedQuad(s.srcIP), s3, DottedQuad(t.srcIP), t3, '|');
      SplitUnique(DottedQuad(s.dstIP), s4, DottedQuad(t.dstIP), t4, '|');
      SplitUnique(Decimal(s.srcPort), Decimal(s.dstPort), Decimal(t.srcPort), Decimal(t.dstPort), '|');
      DecimalInjective(s.ipVersion, t.ipVersion);
      DottedQuadInjective(s.srcIP, t.srcIP);
      DottedQuadInjective(s.dstIP, t.dstIP);
      DecimalInjective(s.srcPort, t.srcPort);
      DecimalInjective(s.dstPort, t.dstPort);
    }
  }
}
