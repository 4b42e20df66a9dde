/** The router's quick ClientHello test of pkg/router/packet.go, and how it
    agrees with the server-name parser. */
module Classifier {
  import opened Bytes
  import opened ClientHello
  import opened SniParser
  import opened HelloGrammar
  import opened HelloRoundTrip

  predicate LooksLikeTLSClientHello(payload: seq<byte>) {
    && |payload| >= 9
    && payload[0] == 0x16
    && payload[1] == 0x03
    && payload[5] == 0x01
    && U16(payload[3], payload[4]) >= 4
    && 5 + U16(payload[3], payload[4]) <= |payload|
    && U24(payload[6], payload[7], payload[8]) > 0
  }

  /** The test is the parser's first two layers, without the check that the
      message fits in the record. */
  lemma LooksExactly(d: seq<byte>)
    ensures LooksLikeTLSClientHello(d) <==>
            && HandshakeOf(d).Some? && d[1] == 0x03
            && var hs := HandshakeOf(d).value;
               |hs| >= 4 && hs[0] == 0x01 && U24(hs[1], hs[2], hs[3]) > 0
  {
    if HandshakeOf(d).Some? {
      var n := U16(d[3], d[4]);
      assert HandshakeOf(d).value == d[5..5 + n] by { Opaque16At(d, 3); }
    }
  }

  /** Anything the parser finds an extension block in passes the test, if its
      record says version 3.x. */
  lemma ParsedLooksLike(d: seq<byte>)
    requires ExtensionBlock(d).Some? && d[1] == 0x03
    ensures LooksLikeTLSClientHello(d)
  {
    LooksExactly(d);
  }

  predicate HoldsRecord(d: seq<byte>) {
    |d| >= 5 && 5 + U16(d[3], d[4]) <= |d|
  }

  /** Bytes after a complete record change neither answer. */
  lemma StableAfterRecord(d: seq<byte>, x: seq<byte>)
    requires HoldsRecord(d)
    ensures Sni(d + x) == Sni(d)
    ensures LooksLikeTLSClientHello(d + x) == LooksLikeTLSClientHello(d)
  {
    var n := U16(d[3], d[4]);
    Opaque16At(d, 3);
    Opaque16At(d + x, 3);
    assert (d + x)[5..5 + n] == d[5..5 + n];
    assert HandshakeOf(d + x) == HandshakeOf(d);
    LooksExactly(d);
    LooksExactly(d + x);
  }

  /** Before the record is complete both answers are no. */
  lemma NothingBeforeRecord(d: seq<byte>)
    requires !HoldsRecord(d)
    ensures Sni(d) == [] && !LooksLikeTLSClientHello(d)
  {
    if |d| >= 5 { Opaque16At(d, 3); }
  }

  lemma HelloHoldsRecord(p: Profile, e: Entropy)
    requires HandshakeLength(p) < 0x1_0000
    ensures var d := Hello(p, e);
            |d| == 5 + HandshakeLength(p) && U16(d[3], d[4]) == HandshakeLength(p)
  {
    HandshakeHasLength(p, e);
    var hs := Handshake(p, e);
    var len := LengthDecodes(hs);
    assert Hello(p, e) == [0x16, 0x03, 0x01] + (len + hs);
  }

  lemma StrictPrefixIsNothing(p: Profile, e: Entropy, k: nat)
    requires HandshakeLength(p) < 0x1_0000 && k < |Hello(p, e)|
    ensures Sni(Hello(p, e)[..k]) == [] && !LooksLikeTLSClientHello(Hello(p, e)[..k])
  {
    HelloHoldsRecord(p, e);
    PrefixIsNothing(Hello(p, e), k);
  }

  lemma PrefixIsNothing(d: seq<byte>, k: nat)
    requires |d| >= 5 && 5 + U16(d[3], d[4]) == |d| && k < |d|
    ensures Sni(d[..k]) == [] && !LooksLikeTLSClientHello(d[..k])
  {
    NothingBeforeRecord(d[..k]);
  }

  lemma HelloLooksLike(p: Profile, e: Entropy)
    requires HandshakeLength(p) < 0x1_0000
    ensures LooksLikeTLSClientHello(Hello(p, e))
  {
    HelloFits(p, e);
    HelloIsEnvelope(p, e);
    EnvelopeParses(HelloEnvelope(p, e));
    assert Hello(p, e)[1] == 0x03;
    ParsedLooksLike(Hello(p, e));
  }
}
