/** The fake ClientHello printer of pkg/fake/clienthello.go: what it prints,
    as a function of the profile and of the random bytes drawn, and the loops
    that print it. */
module ClientHello {
  import opened Bytes

  const EXT_SERVER_NAME: u16 := 0x0000
  const EXT_SUPPORTED_GROUPS: u16 := 0x000a
  const EXT_EC_POINT_FORMATS: u16 := 0x000b
  const EXT_SIGNATURE_ALGS: u16 := 0x000d
  const EXT_ALPN: u16 := 0x0010
  const EXT_SUPPORTED_VERSIONS: u16 := 0x002b
  const EXT_PSK_MODES: u16 := 0x002d
  const EXT_KEY_SHARE: u16 := 0x0033

  type Bytes32 = b: seq<byte> | |b| == 32 witness seq(32, _ => 0)

  datatype Profile = Profile(
    serverName: seq<byte>,
    cipherSuites: seq<u16>,
    supportedGroups: seq<u16>,
    signatureAlgorithms: seq<u16>,
    supportedVersions: seq<u16>,
    alpn: seq<seq<byte>>,
    keyShareGroup: u16,
    extensionOrder: seq<u16>)

  /** Every buffer one build fills: the key share at position `i` of the
      extension order is drawn when that position is reached. */
  datatype Entropy = Entropy(clientRandom: Bytes32, sessionId: Bytes32, keyShare: nat -> Bytes32)

  datatype Extension = Extension(extType: u16, data: seq<byte>)

  // ----- what each part prints -----

  function U16Item(v: u16): seq<byte> { Be16(v) }

  function AlpnItem(proto: seq<byte>): seq<byte> { Prefixed8(proto) }

  function ExtensionItem(x: Extension): seq<byte> { Be16(x.extType) + Prefixed16(x.data) }

  function U16Vector(values: seq<u16>): seq<byte> {
    Be16(ToU16(2 * |values|)) + PrintAll(U16Item, values)
  }

  function VersionVector(versions: seq<u16>): seq<byte> {
    [ToByte(2 * |versions|)] + PrintAll(U16Item, versions)
  }

  function AlpnVector(protocols: seq<seq<byte>>): seq<byte> {
    Prefixed16(PrintAll(AlpnItem, protocols))
  }

  function ServerNameList(name: seq<byte>): seq<byte> {
    Be16(ToU16(3 + |name|)) + [0x00] + Prefixed16(name)
  }

  function KeyShareList(group: u16, key: seq<byte>): seq<byte> {
    Be16(ToU16(4 + |key|)) + Be16(group) + Prefixed16(key)
  }

  /** The body of extension `t`, or nothing when `t` is not printed. */
  function ExtensionBody(p: Profile, t: u16, key: Bytes32): Option<seq<byte>> {
    if t == EXT_SERVER_NAME then Some(ServerNameList(p.serverName))
    else if t == EXT_SUPPORTED_GROUPS then Some(U16Vector(p.supportedGroups))
    else if t == EXT_EC_POINT_FORMATS then Some([0x01, 0x00])
    else if t == EXT_SIGNATURE_ALGS then Some(U16Vector(p.signatureAlgorithms))
    else if t == EXT_ALPN then (if |p.alpn| > 0 then Some(AlpnVector(p.alpn)) else None)
    else if t == EXT_SUPPORTED_VERSIONS then Some(VersionVector(p.supportedVersions))
    else if t == EXT_PSK_MODES then Some([0x01, 0x01])
    else if t == EXT_KEY_SHARE then Some(KeyShareList(p.keyShareGroup, key))
    else None
  }

  /** The extensions printed for the first `n` positions of the order. */
  function ExtensionsUpTo(p: Profile, e: Entropy, n: nat): seq<Extension>
    requires n <= |p.extensionOrder|
  {
    if n == 0 then []
    else
      var t := p.extensionOrder[n - 1];
      var body := ExtensionBody(p, t, e.keyShare(n - 1));
      ExtensionsUpTo(p, e, n - 1) + if body.None? then [] else [Extension(t, body.value)]
  }

  function Extensions(p: Profile, e: Entropy): seq<Extension> {
    ExtensionsUpTo(p, e, |p.extensionOrder|)
  }

  function FixedPart(e: Entropy): seq<byte> { [0x03, 0x03] + e.clientRandom }

  function BodyBytes(p: Profile, e: Entropy): seq<byte> {
    FixedPart(e) + Prefixed8(e.sessionId) + U16Vector(p.cipherSuites) + [0x01, 0x00]
    + Prefixed16(PrintAll(ExtensionItem, Extensions(p, e)))
  }

  function Handshake(p: Profile, e: Entropy): seq<byte> {
    [0x01] + Prefixed24(BodyBytes(p, e))
  }

  function Hello(p: Profile, e: Entropy): seq<byte> {
    [0x16, 0x03, 0x01] + Prefixed16(Handshake(p, e))
  }

  // ----- how many octets it takes -----

  lemma {:induction false} U16sLength(values: seq<u16>)
    ensures |PrintAll(U16Item, values)| == 2 * |values|
  {
    if values != [] { U16sLength(values[1..]); }
  }

  function AlpnLength(protocols: seq<seq<byte>>): nat {
    if protocols == [] then 0 else 1 + |protocols[0]| + AlpnLength(protocols[1..])
  }

  lemma {:induction false} AlpnsLength(protocols: seq<seq<byte>>)
    ensures |PrintAll(AlpnItem, protocols)| == AlpnLength(protocols)
  {
    if protocols != [] { AlpnsLength(protocols[1..]); }
  }

  /** Octets of extension `t`, its four-octet header included. */
  function ExtensionLength(p: Profile, t: u16): nat {
    if t == EXT_SERVER_NAME then 9 + |p.serverName|
    else if t == EXT_SUPPORTED_GROUPS then 6 + 2 * |p.supportedGroups|
    else if t == EXT_EC_POINT_FORMATS then 6
    else if t == EXT_SIGNATURE_ALGS then 6 + 2 * |p.signatureAlgorithms|
    else if t == EXT_ALPN then (if |p.alpn| > 0 then 6 + AlpnLength(p.alpn) else 0)
    else if t == EXT_SUPPORTED_VERSIONS then 5 + 2 * |p.supportedVersions|
    else if t == EXT_PSK_MODES then 6
    else if t == EXT_KEY_SHARE then 42
    else 0
  }

  function ExtensionsLength(p: Profile, order: seq<u16>): nat {
    if order == [] then 0
    else ExtensionsLength(p, order[..|order| - 1]) + ExtensionLength(p, order[|order| - 1])
  }

  /** The size of the handshake message, computed from the profile alone. */
  function HandshakeLength(p: Profile): nat {
    77 + 2 * |p.cipherSuites| + ExtensionsLength(p, p.extensionOrder)
  }

  lemma BodyLength(p: Profile, t: u16, key: Bytes32)
    ensures var b := ExtensionBody(p, t, key);
            ExtensionLength(p, t) == if b.None? then 0 else 4 + |b.value|
  {
    U16sLength(p.supportedGroups);
    U16sLength(p.signatureAlgorithms);
    U16sLength(p.supportedVersions);
    AlpnsLength(p.alpn);
  }

  lemma {:induction false} ExtensionBlockLength(p: Profile, e: Entropy, n: nat)
    requires n <= |p.extensionOrder|
    ensures |PrintAll(ExtensionItem, ExtensionsUpTo(p, e, n))| == ExtensionsLength(p, p.extensionOrder[..n])
  {
    if n > 0 {
      ExtensionBlockLength(p, e, n - 1);
      var t := p.extensionOrder[n - 1];
      var body := ExtensionBody(p, t, e.keyShare(n - 1));
      BodyLength(p, t, e.keyShare(n - 1));
      assert p.extensionOrder[..n][..n - 1] == p.extensionOrder[..n - 1];
      if body.Some? {
        PrintSnoc(ExtensionItem, ExtensionsUpTo(p, e, n - 1), Extension(t, body.value));
      } else {
        assert ExtensionsUpTo(p, e, n) == ExtensionsUpTo(p, e, n - 1);
      }
    }
  }

  /** The bound on the profile is a bound on the bytes, whatever was drawn. */
  lemma HandshakeHasLength(p: Profile, e: Entropy)
    ensures |Handshake(p, e)| == HandshakeLength(p)
    ensures |PrintAll(ExtensionItem, Extensions(p, e))| == ExtensionsLength(p, p.extensionOrder)
  {
    U16sLength(p.cipherSuites);
    ExtensionBlockLength(p, e, |p.extensionOrder|);
    assert p.extensionOrder[..|p.extensionOrder|] == p.extensionOrder;
  }

  // ----- the code -----

  method AppendUint16List(dst: seq<byte>, values: seq<u16>) returns (out: seq<byte>)
    ensures out == dst + U16Vector(values)
  {
    out := dst + Be16(ToU16(2 * |values|));
    for i := 0 to |values|
      invariant out == dst + Be16(ToU16(2 * |values|)) + PrintAll(U16Item, values[..i])
    {
      PrintTake(U16Item, values, i);
      out := out + Be16(values[i]);
    }
    assert values[..|values|] == values;
  }

  method AppendExtension(dst: seq<byte>, extType: u16, data: seq<byte>) returns (out: seq<byte>)
    ensures out == dst + ExtensionItem(Extension(extType, data))
  {
    out := dst + Be16(extType);
    out := out + Be16(ToU16(|data|));
    out := out + data;
  }

  method Uint16Vector(values: seq<u16>) returns (out: seq<byte>)
    ensures out == U16Vector(values)
  {
    out := Be16(ToU16(2 * |values|));
    for i := 0 to |values|
      invariant out == Be16(ToU16(2 * |values|)) + PrintAll(U16Item, values[..i])
    {
      PrintTake(U16Item, values, i);
      out := out + Be16(values[i]);
    }
    assert values[..|values|] == values;
  }

  method ServerNameExtension(name: seq<byte>) returns (out: seq<byte>)
    ensures out == ServerNameList(name)
  {
    var listLen := 1 + 2 + |name|;
    out := Be16(ToU16(listLen));
    out := out + [0x00];
    out := out + Be16(ToU16(|name|));
    out := out + name;
  }

  method AlpnExtension(protocols: seq<seq<byte>>) returns (out: seq<byte>)
    ensures out == AlpnVector(protocols)
  {
    var list := [];
    for i := 0 to |protocols|
      invariant list == PrintAll(AlpnItem, protocols[..i])
    {
      PrintTake(AlpnItem, protocols, i);
      list := list + [ToByte(|protocols[i]|)];
      list := list + protocols[i];
    }
    assert protocols[..|protocols|] == protocols;
    out := Be16(ToU16(|list|));
    out := out + list;
  }

  method VersionExtension(versions: seq<u16>) returns (out: seq<byte>)
    ensures out == VersionVector(versions)
  {
    out := [ToByte(2 * |versions|)];
    for i := 0 to |versions|
      invariant out == [ToByte(2 * |versions|)] + PrintAll(U16Item, versions[..i])
    {
      PrintTake(U16Item, versions, i);
      out := out + Be16(versions[i]);
    }
    assert versions[..|versions|] == versions;
  }

  method KeyShareExtension(group: u16, key: seq<byte>) returns (out: seq<byte>)
    ensures out == KeyShareList(group, key)
  {
    var entryLen := 2 + 2 + |key|;
    out := Be16(ToU16(entryLen));
    out := out + Be16(group);
    out := out + Be16(ToU16(|key|));
    out := out + key;
  }

  /** The switch over the extension type inside the build loop. */
  method AppendListed(p: Profile, t: u16, key: Bytes32, dst: seq<byte>) returns (out: seq<byte>)
    ensures var b := ExtensionBody(p, t, key);
            out == if b.None? then dst else dst + ExtensionItem(Extension(t, b.value))
  {
    out := dst;
    var data;
    if t == EXT_SERVER_NAME {
      data := ServerNameExtension(p.serverName);
    } else if t == EXT_SUPPORTED_GROUPS {
      data := Uint16Vector(p.supportedGroups);
    } else if t == EXT_EC_POINT_FORMATS {
      data := [0x01, 0x00];
    } else if t == EXT_SIGNATURE_ALGS {
      data := Uint16Vector(p.signatureAlgorithms);
    } else if t == EXT_ALPN {
      if |p.alpn| == 0 { return; }
      data := AlpnExtension(p.alpn);
    } else if t == EXT_SUPPORTED_VERSIONS {
      data := VersionExtension(p.supportedVersions);
    } else if t == EXT_PSK_MODES {
      data := [0x01, 0x01];
    } else if t == EXT_KEY_SHARE {
      data := KeyShareExtension(p.keyShareGroup, key);
    } else {
      return;
    }
    out := AppendExtension(out, t, data);
  }

  /** The loop over the extension order. */
  method AppendExtensions(p: Profile, e: Entropy) returns (extensions: seq<byte>)
    ensures extensions == PrintAll(ExtensionItem, Extensions(p, e))
  {
    extensions := [];
    for i := 0 to |p.extensionOrder|
      invariant extensions == PrintAll(ExtensionItem, ExtensionsUpTo(p, e, i))
    {
      var t := p.extensionOrder[i];
      ghost var printed := ExtensionBody(p, t, e.keyShare(i));
      if printed.Some? {
        PrintSnoc(ExtensionItem, ExtensionsUpTo(p, e, i), Extension(t, printed.value));
      } else {
        assert ExtensionsUpTo(p, e, i + 1) == ExtensionsUpTo(p, e, i);
      }
      extensions := AppendListed(p, t, e.keyShare(i), extensions);
    }
  }

  method BuildClientHello(p: Profile, e: Entropy) returns (record: seq<byte>)
    ensures record == Hello(p, e)
  {
    var body := [0x03, 0x03];
    body := body + e.clientRandom;
    body := body + [ToByte(|e.sessionId|)];
    body := body + e.sessionId;
    assert body == FixedPart(e) + Prefixed8(e.sessionId);
    body := AppendUint16List(body, p.cipherSuites);
    body := body + [0x01, 0x00];

    var extensions := AppendExtensions(p, e);
    ghost var front := body;
    body := body + Be16(ToU16(|extensions|));
    body := body + extensions;
    assert body == front + Prefixed16(extensions) == BodyBytes(p, e);

    var handshake := [0x01] + Be24(ToU24(|body|));
    handshake := handshake + body;
    assert handshake == Handshake(p, e);

    record := [0x16, 0x03, 0x01] + Be16(ToU16(|handshake|));
    record := record + handshake;
  }
}
