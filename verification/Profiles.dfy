/** The three fingerprints built into pkg/fake/clienthello.go. */
module Profiles {
  import opened Bytes
  import opened ClientHello
  import opened SniParser
  import opened HelloRoundTrip
  import opened HelloDecode

  /** The octets of an ASCII string. */
  function Ascii(s: string): (b: seq<byte>)
    ensures |b| == |s|
  {
    seq(|s|, i requires 0 <= i < |s| => ToByte(s[i] as int))
  }

  const GOOGLE := Profile(
    Ascii("www.google.com"),
    [0x1301, 0x1302, 0x1303, 0xc02b, 0xc02f, 0xcca9, 0xcca8, 0xc02c, 0xc030, 0x009e, 0x009f],
    [0x001d, 0x0017, 0x0018],
    [0x0403, 0x0804, 0x0401, 0x0503, 0x0805, 0x0501],
    [0x0304, 0x0303],
    [Ascii("h2"), Ascii("http/1.1")],
    0x001d,
    [EXT_SERVER_NAME, EXT_SUPPORTED_GROUPS, EXT_EC_POINT_FORMATS, EXT_SIGNATURE_ALGS,
     EXT_ALPN, EXT_SUPPORTED_VERSIONS, EXT_PSK_MODES, EXT_KEY_SHARE])

  const CLOUDFLARE := Profile(
    Ascii("www.cloudflare.com"),
    [0x1301, 0x1303, 0x1302, 0xcca8, 0xcca9, 0xc02f, 0xc02b, 0xc030, 0xc02c, 0x009f, 0x009e],
    [0x001d, 0x0017],
    [0x0804, 0x0403, 0x0805, 0x0503, 0x0401, 0x0501],
    [0x0304, 0x0303],
    [Ascii("http/1.1"), Ascii("h2")],
    0x001d,
    [EXT_SERVER_NAME, EXT_SUPPORTED_VERSIONS, EXT_SIGNATURE_ALGS, EXT_SUPPORTED_GROUPS,
     EXT_KEY_SHARE, EXT_ALPN, EXT_PSK_MODES, EXT_EC_POINT_FORMATS])

  const MICROSOFT := Profile(
    Ascii("www.microsoft.com"),
    [0x1301, 0x1302, 0x1303, 0xc02f, 0xc02b, 0xc030, 0xc02c, 0x009f, 0x009e],
    [0x001d, 0x0017, 0x0018, 0x0019],
    [0x0403, 0x0503, 0x0804, 0x0805, 0x0401, 0x0501],
    [0x0304, 0x0303],
    [Ascii("h2"), Ascii("http/1.1")],
    0x001d,
    [EXT_SERVER_NAME, EXT_SUPPORTED_GROUPS, EXT_SIGNATURE_ALGS, EXT_SUPPORTED_VERSIONS,
     EXT_KEY_SHARE, EXT_PSK_MODES, EXT_ALPN, EXT_EC_POINT_FORMATS])

  const BUILT_IN: seq<Profile> := [GOOGLE, CLOUDFLARE, MICROSOFT]

  /** Small enough that no extension of it exceeds 64 octets. */
  predicate Small(p: Profile) {
    && |p.serverName| <= 55 && |p.cipherSuites| <= 29 && |p.supportedGroups| <= 29
    && |p.signatureAlgorithms| <= 29 && |p.supportedVersions| <= 29 && AlpnLength(p.alpn) <= 58
    && |p.extensionOrder| <= 8
  }

  lemma {:induction false} SmallBlock(p: Profile, order: seq<u16>)
    requires Small(p)
    ensures ExtensionsLength(p, order) <= 64 * |order|
  {
    if order != [] { SmallBlock(p, order[..|order| - 1]); }
  }

  lemma TwoNames(a: seq<byte>, b: seq<byte>)
    ensures AlpnLength([a, b]) == 2 + |a| + |b|
  {
    assert [a, b][1..] == [b];
    assert AlpnLength([b]) == 1 + |b| + AlpnLength([]);
  }

  lemma BuiltInAreSmall()
    ensures forall p <- BUILT_IN :: Small(p) && p.serverName != [] && p.extensionOrder[..1] == [EXT_SERVER_NAME]
  {
    TwoNames(Ascii("h2"), Ascii("http/1.1"));
    TwoNames(Ascii("http/1.1"), Ascii("h2"));
  }

  lemma BuiltInFits(p: Profile)
    requires p in BUILT_IN
    ensures HandshakeLength(p) <= 647 && ExpectedName(p) == p.serverName != []
  {
    BuiltInAreSmall();
    SmallBlock(p, p.extensionOrder);
    assert p.extensionOrder[..1][0] == p.extensionOrder[0];
  }

  /** Each built-in profile prints a short hello that carries its own name,
      whatever is drawn. */
  lemma BuiltInNames(p: Profile, e: Entropy)
    requires p in BUILT_IN
    ensures HandshakeLength(p) <= 647
    ensures Sni(Hello(p, e)) == p.serverName != []
  {
    BuiltInFits(p);
    RoundTrip(p, e);
  }

  lemma {:induction false} AllPlaces(p: Profile, order: seq<u16>)
    requires forall t <- order :: Listed(p, t)
    ensures |Places(p, order)| == |order| && forall k :: 0 <= k < |order| ==> Places(p, order)[k] == k
  {
    if order != [] { AllPlaces(p, order[..|order| - 1]); }
  }

  /** The types a reader finds in the order's own sequence. */
  lemma TypesOfOrder(p: Profile, e: Entropy)
    requires HandshakeLength(p) < 0x1_0000 && forall t <- p.extensionOrder :: Listed(p, t)
    ensures DecodeHello(Hello(p, e)).Some?
    ensures Types(DecodeHello(Hello(p, e)).value.fields.extensions) == p.extensionOrder
  {
    ExtensionWalk(p, e);
    AllPlaces(p, p.extensionOrder);
  }

  /** The extension types a reader finds in the built-in hellos, by their
      registered numbers. */
  lemma BuiltInTypes(p: Profile, e: Entropy)
    requires p in BUILT_IN
    ensures DecodeHello(Hello(p, e)).Some?
    ensures var types := Types(DecodeHello(Hello(p, e)).value.fields.extensions);
            && (p == GOOGLE ==> types == [0x0000, 0x000a, 0x000b, 0x000d, 0x0010, 0x002b, 0x002d, 0x0033])
            && (p == CLOUDFLARE ==> types == [0x0000, 0x002b, 0x000d, 0x000a, 0x0033, 0x0010, 0x002d, 0x000b])
            && (p == MICROSOFT ==> types == [0x0000, 0x000a, 0x000d, 0x002b, 0x0033, 0x002d, 0x0010, 0x000b])
  {
    BuiltInFits(p);
    BuiltInOrders(p);
    TypesOfOrder(p, e);
  }

  lemma BuiltInOrders(p: Profile)
    requires p in BUILT_IN
    ensures forall t <- p.extensionOrder :: Listed(p, t)
    ensures p == GOOGLE ==>
              p.extensionOrder == [0x0000, 0x000a, 0x000b, 0x000d, 0x0010, 0x002b, 0x002d, 0x0033]
    ensures p == CLOUDFLARE ==>
              p.extensionOrder == [0x0000, 0x002b, 0x000d, 0x000a, 0x0033, 0x0010, 0x002d, 0x000b]
    ensures p == MICROSOFT ==>
              p.extensionOrder == [0x0000, 0x000a, 0x000d, 0x002b, 0x0033, 0x002d, 0x0010, 0x000b]
  {
  }
}
