/** What the parser finds in what the builder prints. */
module HelloRoundTrip {
  import opened Bytes
  import opened ClientHello
  import opened SniParser
  import opened HelloGrammar

  // ----- every nested length fits once the outermost one does -----

  lemma {:induction false} ItemFits(xs: seq<Extension>, x: Extension)
    requires x in xs
    ensures 4 + |x.data| <= |PrintAll(ExtensionItem, xs)|
  {
    if x != xs[0] { ItemFits(xs[1..], x); }
  }

  lemma BlockFits(xs: seq<Extension>)
    requires |PrintAll(ExtensionItem, xs)| < 0x1_0000
    ensures AllFit(xs)
  {
    forall x | x in xs ensures |x.data| < 0x1_0000 { ItemFits(xs, x); }
  }

  function HelloEnvelope(p: Profile, e: Entropy): Envelope {
    Envelope([0x03, 0x01], FixedPart(e), e.sessionId, PrintAll(U16Item, p.cipherSuites), [0x00],
             PrintAll(ExtensionItem, Extensions(p, e)), [], [], [])
  }

  lemma VectorIsPrefixed(values: seq<u16>)
    ensures U16Vector(values) == Prefixed16(PrintAll(U16Item, values))
  {
    U16sLength(values);
  }

  lemma BodyIsEnvelope(p: Profile, e: Entropy)
    ensures HelloEnvelope(p, e).Body() == BodyBytes(p, e)
  {
    var v := HelloEnvelope(p, e);
    VectorIsPrefixed(p.cipherSuites);
    var fixed, id, suites, exts := FixedPart(e), Prefixed8(e.sessionId), Prefixed16(v.suites), Prefixed16(v.extensions);
    assert Prefixed8(v.compression) == [0x01, 0x00];
    assert v.FromExtensions() == exts;
    assert fixed + (id + (suites + ([0x01, 0x00] + exts))) == fixed + id + suites + [0x01, 0x00] + exts;
  }

  lemma HelloIsEnvelope(p: Profile, e: Entropy)
    ensures var v := HelloEnvelope(p, e);
            v.Body() == BodyBytes(p, e) && v.Handshake() == Handshake(p, e) && v.Print() == Hello(p, e)
  {
    var v := HelloEnvelope(p, e);
    BodyIsEnvelope(p, e);
    assert v.Handshake() == Handshake(p, e) + [];
    assert v.Print() == [0x16] + [0x03, 0x01] + (Prefixed16(v.Handshake()) + []);
  }

  /** One bound on the profile implies every nested length is exact. */
  lemma HelloFits(p: Profile, e: Entropy)
    requires HandshakeLength(p) < 0x1_0000
    ensures HelloEnvelope(p, e).Fits() && AllFit(Extensions(p, e))
  {
    HelloIsEnvelope(p, e);
    HandshakeHasLength(p, e);
    U16sLength(p.cipherSuites);
    BlockFits(Extensions(p, e));
  }

  // ----- the server name -----

  lemma ServerNameParses(name: seq<byte>)
    requires |name| + 3 < 0x1_0000
    ensures HostNameOf(ServerNameList(name)) == Some(name)
  {
    var entry := NameItem(NameEntry(0, name));
    assert ServerNameList(name) == Prefixed16(entry) + [];
    Opaque16Of(entry, []);
    NameFront(NameEntry(0, name), []);
    assert entry + [] == entry;
  }

  /** Which types the builder prints. */
  lemma {:induction false} ExtensionTypes(p: Profile, e: Entropy, n: nat)
    requires n <= |p.extensionOrder|
    ensures forall x <- ExtensionsUpTo(p, e, n) ::
              x.extType == EXT_SERVER_NAME ==> x.data == ServerNameList(p.serverName)
    ensures EXT_SERVER_NAME in p.extensionOrder[..n] <==>
            !NoneOfType(ExtensionsUpTo(p, e, n), EXT_SERVER_NAME)
  {
    if n > 0 {
      ExtensionTypes(p, e, n - 1);
      var t := p.extensionOrder[n - 1];
      assert p.extensionOrder[..n] == p.extensionOrder[..n - 1] + [t];
      var body := ExtensionBody(p, t, e.keyShare(n - 1));
      if body.Some? {
        assert ExtensionsUpTo(p, e, n) == ExtensionsUpTo(p, e, n - 1) + [Extension(t, body.value)];
        if t == EXT_SERVER_NAME {
          assert ExtensionsUpTo(p, e, n)[|ExtensionsUpTo(p, e, n - 1)|].extType == t;
        }
      }
    }
  }

  /** A walk over a printed list stops at the first extension of the type. */
  lemma {:induction false} FirstOfList(xs: seq<Extension>, t: u16, data: seq<byte>)
    requires AllFit(xs)
    requires forall x <- xs :: x.extType == t ==> x.data == data
    ensures FirstExtension(PrintAll(ExtensionItem, xs), t) ==
            if NoneOfType(xs, t) then None else Some(data)
  {
    if xs != [] {
      ExtensionFront(xs[0], PrintAll(ExtensionItem, xs[1..]), t);
      FirstOfList(xs[1..], t, data);
      assert xs == [xs[0]] + xs[1..];
    }
  }

  function ExpectedName(p: Profile): seq<byte> {
    if EXT_SERVER_NAME in p.extensionOrder then p.serverName else []
  }

  /** The parser reads back the profile's server name, wherever its extension
      stands in the order and whatever was drawn. */
  lemma RoundTrip(p: Profile, e: Entropy)
    requires HandshakeLength(p) < 0x1_0000
    ensures Sni(Hello(p, e)) == ExpectedName(p)
  {
    HelloFits(p, e);
    HelloIsEnvelope(p, e);
    EnvelopeParses(HelloEnvelope(p, e));
    var xs := Extensions(p, e);
    ExtensionTypes(p, e, |p.extensionOrder|);
    assert p.extensionOrder[..|p.extensionOrder|] == p.extensionOrder;
    FirstOfList(xs, EXT_SERVER_NAME, ServerNameList(p.serverName));
    if !NoneOfType(xs, EXT_SERVER_NAME) {
      var x :| x in xs && x.extType == EXT_SERVER_NAME;
      assert 2 + (3 + |p.serverName|) == |x.data|;
      ServerNameParses(p.serverName);
    }
  }

  /** A longer message wraps the two-octet record length, and its own
      three-octet length then points past the record. */
  lemma TooLongIsUnreadable(p: Profile, e: Entropy)
    requires 0x1_0000 <= HandshakeLength(p) < 0x100_0004
    ensures Sni(Hello(p, e)) == []
  {
    HandshakeHasLength(p, e);
    var bodyLen := Length24Decodes(BodyBytes(p, e));
    var len := Be16(ToU16(|Handshake(p, e)|));
    Be16Decodes(ToU16(|Handshake(p, e)|));
    assert Handshake(p, e) == [0x01] + (bodyLen + BodyBytes(p, e));
    assert Hello(p, e) == [0x16, 0x03, 0x01] + (len + Handshake(p, e));
    CutMessageIsUnreadable(len, bodyLen, BodyBytes(p, e));
  }

  lemma CutMessageIsUnreadable(len: seq<byte>, bodyLen: seq<byte>, body: seq<byte>)
    requires |len| == 2 && U16(len[0], len[1]) < 4 + |body|
    requires |bodyLen| == 3 && U24(bodyLen[0], bodyLen[1], bodyLen[2]) == |body|
    ensures Sni([0x16, 0x03, 0x01] + (len + ([0x01] + (bodyLen + body)))) == []
  {
    var n, hs := U16(len[0], len[1]), [0x01] + (bodyLen + body);
    var data := [0x16, 0x03, 0x01] + (len + hs);
    assert data[3..] == len + hs;
    assert HandshakeOf(data) == Some(hs[..n]) by {
      assert (len + hs)[2..2 + n] == hs[..n];
    }
  }

  /** Up to the largest size the handshake header can declare, the round trip
      holds exactly when the record header can declare it too, or when there
      is no name to lose. */
  lemma RoundTripExactly(p: Profile, e: Entropy)
    requires HandshakeLength(p) < 0x100_0004
    ensures Sni(Hello(p, e)) == ExpectedName(p) <==>
            HandshakeLength(p) < 0x1_0000 || ExpectedName(p) == []
  {
    if HandshakeLength(p) < 0x1_0000 {
      RoundTrip(p, e);
    } else {
      TooLongIsUnreadable(p, e);
    }
  }
}
