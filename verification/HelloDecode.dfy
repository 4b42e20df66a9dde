/** A strict reader of every field of a ClientHello (RFC 8446 section 4.1.2,
    RFC 7301 section 3.1), and the fields it reads back from the builder. */
module HelloDecode {
  import opened Bytes
  import opened ClientHello
  import opened SniParser
  import opened HelloGrammar
  import opened HelloRoundTrip

  function Whole(cut: Option<Cut>): Option<seq<byte>> {
    var c :- cut;
    if c.rest == [] then Some(c.block) else None
  }

  function DecodeU16s(s: seq<byte>): Option<seq<u16>> {
    if s == [] then Some([])
    else if |s| < 2 then None
    else
      var more :- DecodeU16s(s[2..]);
      Some([U16(s[0], s[1])] + more)
  }

  function DecodeU16Vector(s: seq<byte>): Option<seq<u16>> {
    var items :- Whole(Opaque16(s));
    DecodeU16s(items)
  }

  function DecodeVersions(s: seq<byte>): Option<seq<u16>> {
    var items :- Whole(Opaque8(s));
    DecodeU16s(items)
  }

  function DecodeNames(s: seq<byte>): Option<seq<seq<byte>>>
    decreases |s|
  {
    if s == [] then Some([])
    else
      var front :- Opaque8(s);
      var more :- DecodeNames(front.rest);
      Some([front.block] + more)
  }

  function DecodeAlpn(s: seq<byte>): Option<seq<seq<byte>>> {
    var items :- Whole(Opaque16(s));
    DecodeNames(items)
  }

  datatype KeyShare = KeyShare(group: u16, key: seq<byte>)

  function DecodeKeyShare(s: seq<byte>): Option<KeyShare> {
    var entry :- Whole(Opaque16(s));
    if |entry| < 2 then None
    else
      var key :- Whole(Opaque16(entry[2..]));
      Some(KeyShare(U16(entry[0], entry[1]), key))
  }

  function DecodeExtensions(s: seq<byte>): Option<seq<Extension>>
    decreases |s|
  {
    if s == [] then Some([])
    else if |s| < 2 then None
    else
      var data :- Opaque16(s[2..]);
      var more :- DecodeExtensions(data.rest);
      Some([Extension(U16(s[0], s[1]), data.block)] + more)
  }

  datatype Fields = Fields(
    version: seq<byte>, random: seq<byte>, sessionId: seq<byte>,
    suites: seq<u16>, compression: seq<byte>, extensions: seq<Extension>)

  datatype Decoded = Decoded(recordVersion: seq<byte>, fields: Fields)

  function DecodeBody(body: seq<byte>): Option<Fields> {
    if |body| < 34 then None
    else
      var sessionId :- Opaque8(body[34..]);
      var suites :- Opaque16(sessionId.rest);
      var suiteList :- DecodeU16s(suites.block);
      var compression :- Opaque8(suites.rest);
      var block :- Whole(Opaque16(compression.rest));
      var extensions :- DecodeExtensions(block);
      Some(Fields(body[..2], body[2..34], sessionId.block, suiteList, compression.block, extensions))
  }

  /** Every declared length must be used up exactly. */
  function DecodeHello(data: seq<byte>): Option<Decoded> {
    var hs :- HandshakeOf(data);
    var body :- BodyOf(hs);
    if |data| != 5 + |hs| || |hs| != 4 + |body| then None
    else
      var fields :- DecodeBody(body);
      Some(Decoded(data[1..3], fields))
  }

  // ----- printed lists read back -----

  lemma {:induction false} U16sDecode(values: seq<u16>)
    ensures DecodeU16s(PrintAll(U16Item, values)) == Some(values)
  {
    if values != [] {
      var s := PrintAll(U16Item, values);
      Be16Decodes(values[0]);
      assert s[0] == Be16(values[0])[0] && s[1] == Be16(values[0])[1];
      assert s[2..] == PrintAll(U16Item, values[1..]);
      U16sDecode(values[1..]);
      assert values == [values[0]] + values[1..];
    }
  }

  /** A two-octet length is used up exactly when it was not truncated. */
  lemma WholeExactly(block: seq<byte>)
    ensures Whole(Opaque16(Prefixed16(block))) == if |block| < 0x1_0000 then Some(block) else None
  {
    assert Prefixed16(block) == Prefixed16(block) + [];
    if |block| < 0x1_0000 { Opaque16Of(block, []); }
  }

  /** The two-octet length holds 32767 values and no more. */
  lemma VectorDecodes(values: seq<u16>)
    ensures DecodeU16Vector(U16Vector(values)) == Some(values) <==> 2 * |values| < 0x1_0000
  {
    VectorIsPrefixed(values);
    U16sLength(values);
    WholeExactly(PrintAll(U16Item, values));
    U16sDecode(values);
  }

  /** The one-octet length holds 127 versions and no more. */
  lemma VersionsDecodeExactly(versions: seq<u16>)
    ensures DecodeVersions(VersionVector(versions)) == Some(versions) <==> |versions| <= 127
  {
    var items := PrintAll(U16Item, versions);
    U16sLength(versions);
    assert VersionVector(versions) == Prefixed8(items) + [];
    if |versions| <= 127 {
      Opaque8Of(items, []);
      U16sDecode(versions);
    }
  }

  /** A name read back is shorter than 256 octets. */
  lemma {:induction false} NamesAreShort(s: seq<byte>)
    requires DecodeNames(s).Some?
    ensures forall name <- DecodeNames(s).value :: |name| <= 255
    decreases |s|
  {
    if s != [] { NamesAreShort(Opaque8(s).value.rest); }
  }

  lemma {:induction false} NamesDecode(names: seq<seq<byte>>)
    requires forall name <- names :: |name| <= 255
    ensures DecodeNames(PrintAll(AlpnItem, names)) == Some(names)
  {
    if names != [] {
      Opaque8Of(names[0], PrintAll(AlpnItem, names[1..]));
      NamesDecode(names[1..]);
      assert names == [names[0]] + names[1..];
    }
  }

  lemma AlpnDecodesExactly(names: seq<seq<byte>>)
    ensures DecodeAlpn(AlpnVector(names)) == Some(names) <==>
            AlpnLength(names) < 0x1_0000 && forall name <- names :: |name| <= 255
  {
    var items := PrintAll(AlpnItem, names);
    AlpnsLength(names);
    WholeExactly(items);
    if forall name <- names :: |name| <= 255 {
      NamesDecode(names);
    }
    if DecodeNames(items).Some? {
      NamesAreShort(items);
    }
  }

  lemma KeyShareDecodes(group: u16, key: Bytes32)
    ensures DecodeKeyShare(KeyShareList(group, key)) == Some(KeyShare(group, key))
  {
    var entry := Be16(group) + Prefixed16(key);
    Be16Decodes(group);
    assert KeyShareList(group, key) == Prefixed16(entry) + [];
    Opaque16Of(entry, []);
    assert entry[2..] == Prefixed16(key) + [];
    Opaque16Of(key, []);
  }

  lemma {:induction false} ExtensionsDecode(xs: seq<Extension>)
    requires AllFit(xs)
    ensures DecodeExtensions(PrintAll(ExtensionItem, xs)) == Some(xs)
  {
    if xs != [] {
      var x, s, more := xs[0], PrintAll(ExtensionItem, xs), PrintAll(ExtensionItem, xs[1..]);
      Be16Decodes(x.extType);
      assert s[0] == Be16(x.extType)[0] && s[1] == Be16(x.extType)[1];
      assert s[2..] == Prefixed16(x.data) + more;
      Opaque16Of(x.data, more);
      ExtensionsDecode(xs[1..]);
      assert xs == [x] + xs[1..];
    }
  }

  // ----- the whole message -----

  function FieldsOf(p: Profile, e: Entropy): Fields {
    Fields([0x03, 0x03], e.clientRandom, e.sessionId, p.cipherSuites, [0x00], Extensions(p, e))
  }

  lemma BodyDecodes(p: Profile, e: Entropy)
    requires HandshakeLength(p) < 0x1_0000
    ensures DecodeBody(BodyBytes(p, e)) == Some(FieldsOf(p, e))
  {
    var v := HelloEnvelope(p, e);
    HelloFits(p, e);
    HelloIsEnvelope(p, e);
    var body, more := v.Body(), Prefixed8(v.sessionId) + v.FromSuites();
    assert body[34..] == more && body[..2] == [0x03, 0x03] && body[2..34] == e.clientRandom;
    Opaque8Of(v.sessionId, v.FromSuites());
    Opaque16Of(v.suites, v.FromCompression());
    U16sDecode(p.cipherSuites);
    Opaque8Of(v.compression, v.FromExtensions());
    Opaque16Of(v.extensions, []);
    ExtensionsDecode(Extensions(p, e));
  }

  lemma FittingHelloDecodes(p: Profile, e: Entropy)
    requires HandshakeLength(p) < 0x1_0000
    ensures DecodeHello(Hello(p, e)) == Some(Decoded([0x03, 0x01], FieldsOf(p, e)))
  {
    HandshakeHasLength(p, e);
    BodyDecodes(p, e);
    var hs, body, data := Handshake(p, e), BodyBytes(p, e), Hello(p, e);
    assert HandshakeOf(data) == Some(hs) by {
      assert data[3..] == Prefixed16(hs) + [];
      Opaque16Of(hs, []);
    }
    assert BodyOf(hs) == Some(body) by {
      HandshakeParses(body, []);
      assert hs == [0x01] + Prefixed24(body) + [];
    }
    assert data[1..3] == [0x03, 0x01];
  }

  /** Every field of the profile and every byte drawn reads back, exactly
      when the record length can declare the message. */
  lemma HelloDecodes(p: Profile, e: Entropy)
    ensures DecodeHello(Hello(p, e)) == Some(Decoded([0x03, 0x01], FieldsOf(p, e))) <==>
            HandshakeLength(p) < 0x1_0000
  {
    HandshakeHasLength(p, e);
    if HandshakeLength(p) < 0x1_0000 {
      FittingHelloDecodes(p, e);
    } else if HandshakeOf(Hello(p, e)).Some? {
      assert |HandshakeOf(Hello(p, e)).value| < 0x1_0000;
    }
  }

  /** The extension types of RFC 8446 section 4.2 and RFC 8422 section 5.1.2
      that the builder prints: ALPN only when there is a protocol to offer. */
  predicate Listed(p: Profile, t: u16) {
    t in [0x0000, 0x000a, 0x000b, 0x000d, 0x002b, 0x002d, 0x0033] || (t == 0x0010 && p.alpn != [])
  }

  /** The positions of the order that are printed. */
  function Places(p: Profile, order: seq<u16>): (places: seq<nat>)
    ensures forall k :: 0 <= k < |places| ==> places[k] < |order|
  {
    if order == [] then []
    else
      var n := |order| - 1;
      Places(p, order[..n]) + if Listed(p, order[n]) then [n] else []
  }

  /** The order without unknown types, and without ALPN when there is no
      protocol to offer. */
  function Kept(p: Profile, order: seq<u16>): seq<u16> {
    var places := Places(p, order);
    seq(|places|, k requires 0 <= k < |places| => order[places[k]])
  }

  function Types(xs: seq<Extension>): seq<u16> { seq(|xs|, i requires 0 <= i < |xs| => xs[i].extType) }

  /** An extension printed for position `i` of the order says about `p` what
      its type is for. */
  predicate Tells(p: Profile, e: Entropy, i: nat, x: Extension) {
    && (x.extType == 0x0000 ==> HostNameOf(x.data) == Some(p.serverName))
    && (x.extType == 0x000a ==> DecodeU16Vector(x.data) == Some(p.supportedGroups))
    && (x.extType == 0x000b ==> Whole(Opaque8(x.data)) == Some([0x00]))
    && (x.extType == 0x000d ==> DecodeU16Vector(x.data) == Some(p.signatureAlgorithms))
    && (x.extType == 0x0010 ==>
          (DecodeAlpn(x.data) == Some(p.alpn) <==> forall name <- p.alpn :: |name| <= 255))
    && (x.extType == 0x002b ==>
          (DecodeVersions(x.data) == Some(p.supportedVersions) <==> |p.supportedVersions| <= 127))
    && (x.extType == 0x002d ==> Whole(Opaque8(x.data)) == Some([0x01]))
    && (x.extType == 0x0033 ==> DecodeKeyShare(x.data) == Some(KeyShare(p.keyShareGroup, e.keyShare(i))))
  }

  lemma BodyTells(p: Profile, e: Entropy, i: nat, x: Extension)
    requires Some(x.data) == ExtensionBody(p, x.extType, e.keyShare(i))
    requires |x.data| < 0x1_0000
    ensures Tells(p, e, i, x)
  {
    if x.extType == EXT_SERVER_NAME {
      ServerNameParses(p.serverName);
    } else if x.extType == EXT_SUPPORTED_GROUPS {
      U16sLength(p.supportedGroups);
      VectorDecodes(p.supportedGroups);
    } else if x.extType == EXT_SIGNATURE_ALGS {
      U16sLength(p.signatureAlgorithms);
      VectorDecodes(p.signatureAlgorithms);
    } else if x.extType == EXT_SUPPORTED_VERSIONS {
      VersionsDecodeExactly(p.supportedVersions);
    } else if x.extType == EXT_ALPN {
      AlpnsLength(p.alpn);
      AlpnDecodesExactly(p.alpn);
    } else if x.extType == EXT_KEY_SHARE {
      KeyShareDecodes(p.keyShareGroup, e.keyShare(i));
    } else {
      Opaque8Of([0x00], []);
      Opaque8Of([0x01], []);
      assert Prefixed8([0x00]) + [] == [0x01, 0x00] && Prefixed8([0x01]) + [] == [0x01, 0x01];
    }
  }

  lemma ListedIsPrinted(p: Profile, t: u16, key: Bytes32)
    ensures Listed(p, t) <==> ExtensionBody(p, t, key).Some?
  {
  }

  /** One extension for each place, of its type, and telling its part. */
  predicate Walks(p: Profile, e: Entropy, order: seq<u16>, xs: seq<Extension>) {
    var places := Places(p, order);
    |xs| == |places| && forall k :: 0 <= k < |xs| ==> xs[k].extType == order[places[k]] && Tells(p, e, places[k], xs[k])
  }

  lemma WalksSnoc(p: Profile, e: Entropy, order: seq<u16>, before: seq<Extension>, xs: seq<Extension>)
    requires order != [] && Walks(p, e, order[..|order| - 1], before)
    requires var n := |order| - 1;
             if Listed(p, order[n]) then |xs| == 1 && xs[0].extType == order[n] && Tells(p, e, n, xs[0]) else xs == []
    ensures Walks(p, e, order, before + xs)
  {
    var n, places, all := |order| - 1, Places(p, order), before + xs;
    var fewer := Places(p, order[..n]);
    assert places == fewer + (if Listed(p, order[n]) then [n] else []) && |all| == |places|;
    forall k | 0 <= k < |all| ensures all[k].extType == order[places[k]] && Tells(p, e, places[k], all[k]) {
      if k < |before| { assert all[k] == before[k] && places[k] == fewer[k]; }
    }
  }

  lemma LastTells(p: Profile, e: Entropy, n: nat) returns (xs: seq<Extension>)
    requires 0 < n <= |p.extensionOrder| && AllFit(ExtensionsUpTo(p, e, n))
    ensures ExtensionsUpTo(p, e, n) == ExtensionsUpTo(p, e, n - 1) + xs && AllFit(ExtensionsUpTo(p, e, n - 1))
    ensures var t := p.extensionOrder[n - 1];
            if Listed(p, t) then |xs| == 1 && xs[0].extType == t && Tells(p, e, n - 1, xs[0]) else xs == []
  {
    var t, all := p.extensionOrder[n - 1], ExtensionsUpTo(p, e, n);
    var body := ExtensionBody(p, t, e.keyShare(n - 1));
    ListedIsPrinted(p, t, e.keyShare(n - 1));
    forall x | x in ExtensionsUpTo(p, e, n - 1) ensures |x.data| < 0x1_0000 { assert x in all; }
    xs := if body.None? then [] else [Extension(t, body.value)];
    if body.Some? {
      assert xs[0] in all;
      BodyTells(p, e, n - 1, xs[0]);
    }
  }

  lemma {:induction false} AllTell(p: Profile, e: Entropy, n: nat)
    requires n <= |p.extensionOrder| && AllFit(ExtensionsUpTo(p, e, n))
    ensures Walks(p, e, p.extensionOrder[..n], ExtensionsUpTo(p, e, n))
  {
    if n > 0 {
      var order := p.extensionOrder[..n];
      var xs := LastTells(p, e, n);
      AllTell(p, e, n - 1);
      assert order[..n - 1] == p.extensionOrder[..n - 1];
      WalksSnoc(p, e, order, ExtensionsUpTo(p, e, n - 1), xs);
    }
  }

  /** Walking the emitted extension block gives the listed types in order,
      repeats included, and each body tells its part of the profile, a key
      share the bytes drawn for its own position. */
  lemma ExtensionWalk(p: Profile, e: Entropy)
    requires HandshakeLength(p) < 0x1_0000
    ensures DecodeHello(Hello(p, e)).Some?
    ensures var xs, places := DecodeHello(Hello(p, e)).value.fields.extensions, Places(p, p.extensionOrder);
            && Types(xs) == Kept(p, p.extensionOrder)
            && forall k :: 0 <= k < |places| ==> Tells(p, e, places[k], xs[k])
  {
    HelloDecodes(p, e);
    HelloFits(p, e);
    assert p.extensionOrder[..|p.extensionOrder|] == p.extensionOrder;
    AllTell(p, e, |p.extensionOrder|);
  }
}
