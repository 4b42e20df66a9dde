/** Which byte strings carry a server name, as a grammar: a derivation holds
    every part of a record in the order it is printed, and the parser finds a
    name exactly when a derivation with that name prints the input. */
module HelloGrammar {
  import opened Bytes
  import opened ClientHello
  import opened SniParser

  /** A record around an extension block. The tails are the octets a declared
      length leaves over; the parser skips all of them. */
  datatype Envelope = Envelope(
    version: seq<byte>, fixed: seq<byte>, sessionId: seq<byte>, suites: seq<byte>,
    compression: seq<byte>, extensions: seq<byte>,
    bodyTail: seq<byte>, handshakeTail: seq<byte>, recordTail: seq<byte>)
  {
    function FromExtensions(): seq<byte> { Prefixed16(extensions) + bodyTail }

    function FromCompression(): seq<byte> { Prefixed8(compression) + FromExtensions() }

    function FromSuites(): seq<byte> { Prefixed16(suites) + FromCompression() }

    function Body(): seq<byte> { fixed + (Prefixed8(sessionId) + FromSuites()) }

    function Handshake(): seq<byte> { [0x01] + Prefixed24(Body()) + handshakeTail }

    function Print(): seq<byte> { [0x16] + version + (Prefixed16(Handshake()) + recordTail) }

    /** Every block fits the length field in front of it. */
    predicate Fits() {
      && |version| == 2 && |fixed| == 34
      && |sessionId| < 0x100 && |suites| < 0x1_0000 && |compression| < 0x100
      && |extensions| < 0x1_0000
      && |Body()| < 0x100_0000
      && |Handshake()| < 0x1_0000
    }
  }

  lemma BodyParses(v: Envelope)
    requires v.Fits()
    ensures ExtensionsOf(v.Body()) == Some(v.extensions)
  {
    assert v.Body()[34..] == Prefixed8(v.sessionId) + v.FromSuites();
    Opaque8Of(v.sessionId, v.FromSuites());
    Opaque16Of(v.suites, v.FromCompression());
    Opaque8Of(v.compression, v.FromExtensions());
    Opaque16Of(v.extensions, v.bodyTail);
  }

  lemma HandshakeParses(body: seq<byte>, tail: seq<byte>)
    requires |body| < 0x100_0000
    ensures BodyOf([0x01] + Prefixed24(body) + tail) == Some(body)
  {
    var len := Length24Decodes(body);
    BodyBehind(len, body, tail);
  }

  lemma BodyBehind(len: seq<byte>, body: seq<byte>, tail: seq<byte>)
    requires |len| == 3 && U24(len[0], len[1], len[2]) == |body|
    ensures BodyOf([0x01] + (len + body) + tail) == Some(body)
  {
    var hs := [0x01] + (len + body) + tail;
    assert hs[4..4 + |body|] == body;
  }

  lemma EnvelopeParses(v: Envelope)
    requires v.Fits()
    ensures ExtensionBlock(v.Print()) == Some(v.extensions)
  {
    assert v.Print()[3..] == Prefixed16(v.Handshake()) + v.recordTail;
    Opaque16Of(v.Handshake(), v.recordTail);
    HandshakeParses(v.Body(), v.handshakeTail);
    BodyParses(v);
  }

  lemma BodyPrints(body: seq<byte>, outer: Envelope) returns (v: Envelope)
    requires ExtensionsOf(body).Some?
    ensures v.Body() == body && Some(v.extensions) == ExtensionsOf(body)
    ensures |v.fixed| == 34 && |v.sessionId| < 0x100 && |v.suites| < 0x1_0000
    ensures |v.compression| < 0x100 && |v.extensions| < 0x1_0000
    ensures v.version == outer.version && v.handshakeTail == outer.handshakeTail
    ensures v.recordTail == outer.recordTail
  {
    var sessionId := Opaque8(body[34..]).value;
    var suites := Opaque16(sessionId.rest).value;
    var compression := Opaque8(suites.rest).value;
    var extensions := Opaque16(compression.rest).value;
    Opaque16Prints(compression.rest);
    Opaque8Prints(suites.rest);
    Opaque16Prints(sessionId.rest);
    Opaque8Prints(body[34..]);
    v := outer.(fixed := body[..34], sessionId := sessionId.block, suites := suites.block,
                compression := compression.block, extensions := extensions.block,
                bodyTail := extensions.rest);
    assert v.FromCompression() == suites.rest;
    assert v.FromSuites() == sessionId.rest;
  }

  lemma HandshakePrints(hs: seq<byte>) returns (tail: seq<byte>)
    requires BodyOf(hs).Some?
    ensures var body := BodyOf(hs).value;
            |body| < 0x100_0000 && hs == [0x01] + Prefixed24(body) + tail
  {
    var body := BodyOf(hs).value;
    tail := hs[4 + |body|..];
    Be24Encodes(hs[1], hs[2], hs[3]);
    assert ToU24(|body|) == |body|;
    assert hs[1..4] == [hs[1], hs[2], hs[3]];
    assert hs == [0x01] + (hs[1..4] + body) + tail;
  }

  lemma RecordPrints(data: seq<byte>) returns (tail: seq<byte>)
    requires HandshakeOf(data).Some?
    ensures var hs := HandshakeOf(data).value;
            |hs| < 0x1_0000 && data == [0x16] + data[1..3] + (Prefixed16(hs) + tail)
  {
    var fragment := data[3..];
    Opaque16Prints(fragment);
    tail := Opaque16(fragment).value.rest;
    assert data == [0x16] + data[1..3] + fragment;
  }

  /** The reading, kept whole. */
  lemma EnvelopeOf(data: seq<byte>) returns (v: Envelope)
    requires ExtensionBlock(data).Some?
    ensures v.Fits() && v.Print() == data && Some(v.extensions) == ExtensionBlock(data)
  {
    var recordTail := RecordPrints(data);
    var hs := HandshakeOf(data).value;
    var handshakeTail := HandshakePrints(hs);
    v := BodyPrints(BodyOf(hs).value,
                    Envelope(data[1..3], [], [], [], [], [], [], handshakeTail, recordTail));
  }

  // ----- lists of extensions and of names -----

  ghost predicate AllFit(xs: seq<Extension>) {
    forall x <- xs :: |x.data| < 0x1_0000
  }

  ghost predicate NoneOfType(xs: seq<Extension>, t: u16) {
    forall x <- xs :: x.extType != t
  }

  /** One extension read off the front. */
  lemma {:induction false} ExtensionFront(x: Extension, rest: seq<byte>, t: u16)
    requires |x.data| < 0x1_0000
    ensures FirstExtension(ExtensionItem(x) + rest, t) ==
            if x.extType == t then Some(x.data) else FirstExtension(rest, t)
  {
    var len := LengthDecodes(x.data);
    Be16Decodes(x.extType);
    ExtensionBehind(Be16(x.extType), len, x.data, rest, t);
  }

  lemma {:induction false} ExtensionBehind(
    extType: seq<byte>, len: seq<byte>, data: seq<byte>, rest: seq<byte>, t: u16)
    requires |extType| == |len| == 2 && U16(len[0], len[1]) == |data|
    ensures FirstExtension(extType + (len + data) + rest, t) ==
            if U16(extType[0], extType[1]) == t then Some(data) else FirstExtension(rest, t)
  {
    var s := extType + (len + data) + rest;
    assert s[4..4 + |data|] == data && s[4 + |data|..] == rest;
  }

  lemma {:induction false} FirstExtensionAfter(before: seq<Extension>, rest: seq<byte>, t: u16)
    requires AllFit(before) && NoneOfType(before, t)
    ensures FirstExtension(PrintAll(ExtensionItem, before) + rest, t) == FirstExtension(rest, t)
  {
    if before == [] {
      assert PrintAll(ExtensionItem, before) + rest == rest;
    } else {
      var more := PrintAll(ExtensionItem, before[1..]);
      Assoc(ExtensionItem(before[0]), more, rest);
      ExtensionFront(before[0], more + rest, t);
      FirstExtensionAfter(before[1..], rest, t);
    }
  }

  lemma ExtensionOffFront(exts: seq<byte>) returns (x: Extension, rest: seq<byte>)
    requires |exts| >= 4 && 4 + U16(exts[2], exts[3]) <= |exts|
    ensures x == Extension(U16(exts[0], exts[1]), exts[4..4 + U16(exts[2], exts[3])])
    ensures rest == exts[4 + U16(exts[2], exts[3])..] && |x.data| < 0x1_0000
    ensures exts == ExtensionItem(x) + rest
  {
    var n := U16(exts[2], exts[3]);
    x, rest := Extension(U16(exts[0], exts[1]), exts[4..4 + n]), exts[4 + n..];
    assert exts == exts[..2] + (exts[2..4] + x.data) + rest;
    LengthEncodes(exts[2..4], x.data);
    assert Be16(x.extType) == exts[..2] by { Be16Encodes(exts[0], exts[1]); }
  }

  lemma {:induction false} FirstExtensionSplit(exts: seq<byte>, t: u16)
    returns (before: seq<Extension>, x: Extension, after: seq<byte>)
    requires FirstExtension(exts, t).Some?
    ensures AllFit(before) && NoneOfType(before, t) && x.extType == t && |x.data| < 0x1_0000
    ensures Some(x.data) == FirstExtension(exts, t)
    ensures exts == PrintAll(ExtensionItem, before) + (ExtensionItem(x) + after)
    decreases |exts|
  {
    var front, rest := ExtensionOffFront(exts);
    if front.extType == t {
      before, x, after := [], front, rest;
    } else {
      before, x, after := FirstExtensionSplit(rest, t);
      PrintCons(ExtensionItem, front, before);
      Assoc(ExtensionItem(front), PrintAll(ExtensionItem, before), ExtensionItem(x) + after);
      before := [front] + before;
    }
  }

  datatype NameEntry = NameEntry(nameType: byte, name: seq<byte>)

  function NameItem(e: NameEntry): seq<byte> { [e.nameType] + Prefixed16(e.name) }

  ghost predicate OtherNames(es: seq<NameEntry>) {
    forall e <- es :: e.nameType != 0 && |e.name| < 0x1_0000
  }

  lemma {:induction false} NameFront(e: NameEntry, rest: seq<byte>)
    requires |e.name| < 0x1_0000
    ensures FirstHostName(NameItem(e) + rest) ==
            if e.nameType == 0 then Some(e.name) else FirstHostName(rest)
  {
    var len := LengthDecodes(e.name);
    NameBehind(e.nameType, len, e.name, rest);
  }

  lemma {:induction false} NameBehind(nameType: byte, len: seq<byte>, name: seq<byte>, rest: seq<byte>)
    requires |len| == 2 && U16(len[0], len[1]) == |name|
    ensures FirstHostName([nameType] + (len + name) + rest) ==
            if nameType == 0 then Some(name) else FirstHostName(rest)
  {
    var s := [nameType] + (len + name) + rest;
    assert s[3..3 + |name|] == name && s[3 + |name|..] == rest;
  }

  lemma {:induction false} HostNameAfter(before: seq<NameEntry>, rest: seq<byte>)
    requires OtherNames(before)
    ensures FirstHostName(PrintAll(NameItem, before) + rest) == FirstHostName(rest)
  {
    if before == [] {
      assert PrintAll(NameItem, before) + rest == rest;
    } else {
      var more := PrintAll(NameItem, before[1..]);
      Assoc(NameItem(before[0]), more, rest);
      NameFront(before[0], more + rest);
      HostNameAfter(before[1..], rest);
    }
  }

  lemma NameOffFront(entries: seq<byte>) returns (e: NameEntry, rest: seq<byte>)
    requires |entries| >= 3 && 3 + U16(entries[1], entries[2]) <= |entries|
    ensures e == NameEntry(entries[0], entries[3..3 + U16(entries[1], entries[2])])
    ensures rest == entries[3 + U16(entries[1], entries[2])..] && |e.name| < 0x1_0000
    ensures entries == NameItem(e) + rest
  {
    var n := U16(entries[1], entries[2]);
    e, rest := NameEntry(entries[0], entries[3..3 + n]), entries[3 + n..];
    assert entries == [entries[0]] + (entries[1..3] + e.name) + rest;
    LengthEncodes(entries[1..3], e.name);
  }

  lemma {:induction false} HostNameSplit(entries: seq<byte>)
    returns (before: seq<NameEntry>, name: seq<byte>, after: seq<byte>)
    requires FirstHostName(entries).Some?
    ensures OtherNames(before) && |name| < 0x1_0000
    ensures Some(name) == FirstHostName(entries)
    ensures entries == PrintAll(NameItem, before) + (NameItem(NameEntry(0, name)) + after)
    decreases |entries|
  {
    var front, rest := NameOffFront(entries);
    if front.nameType == 0 {
      before, name, after := [], front.name, rest;
    } else {
      before, name, after := HostNameSplit(rest);
      PrintCons(NameItem, front, before);
      Assoc(NameItem(front), PrintAll(NameItem, before), NameItem(NameEntry(0, name)) + after);
      before := [front] + before;
    }
  }

  // ----- derivations -----

  /** `envelope.extensions` is recomputed from the parts below it. */
  datatype Derivation = Derivation(
    envelope: Envelope,
    otherExtensions: seq<Extension>, laterExtensions: seq<byte>,
    otherNames: seq<NameEntry>, name: seq<byte>, laterNames: seq<byte>,
    extensionTail: seq<byte>)
  {
    function Names(): seq<byte> {
      PrintAll(NameItem, otherNames) + (NameItem(NameEntry(0, name)) + laterNames)
    }

    function ServerName(): Extension { Extension(0, Prefixed16(Names()) + extensionTail) }

    function Block(): seq<byte> {
      PrintAll(ExtensionItem, otherExtensions) + (ExtensionItem(ServerName()) + laterExtensions)
    }

    function Print(): seq<byte> { envelope.(extensions := Block()).Print() }

    /** No earlier extension is a server_name and no earlier entry a
        host_name; every block fits the length field in front of it. */
    ghost predicate Valid() {
      && AllFit(otherExtensions) && NoneOfType(otherExtensions, 0)
      && OtherNames(otherNames) && |name| < 0x1_0000
      && |Names()| < 0x1_0000 && |ServerName().data| < 0x1_0000
      && envelope.(extensions := Block()).Fits()
    }
  }

  ghost predicate Carries(data: seq<byte>, name: seq<byte>) {
    exists d: Derivation :: d.Valid() && d.name == name && d.Print() == data
  }

  lemma DerivationParses(d: Derivation)
    requires d.Valid()
    ensures SniOption(d.Print()) == Some(d.name)
  {
    EnvelopeParses(d.envelope.(extensions := d.Block()));
    FirstExtensionAfter(d.otherExtensions, ExtensionItem(d.ServerName()) + d.laterExtensions, 0);
    ExtensionFront(d.ServerName(), d.laterExtensions, 0);
    Opaque16Of(d.Names(), d.extensionTail);
    HostNameAfter(d.otherNames, NameItem(NameEntry(0, d.name)) + d.laterNames);
    NameFront(NameEntry(0, d.name), d.laterNames);
  }

  lemma DerivationOf(data: seq<byte>) returns (d: Derivation)
    requires SniOption(data).Some?
    ensures d.Valid() && Some(d.name) == SniOption(data) && d.Print() == data
  {
    var v := EnvelopeOf(data);
    var otherExtensions, x, laterExtensions := FirstExtensionSplit(v.extensions, 0);
    var list := Opaque16(x.data).value;
    Opaque16Prints(x.data);
    var otherNames, name, laterNames := HostNameSplit(list.block);
    d := Derivation(v, otherExtensions, laterExtensions, otherNames, name, laterNames, list.rest);
    assert d.ServerName() == x;
    assert v.(extensions := d.Block()) == v;
  }

  /** The parser reads a name off an input exactly when the grammar prints
      that input with that name; so at most one name is carried. */
  lemma SniReadsGrammar(data: seq<byte>, name: seq<byte>)
    ensures SniOption(data) == Some(name) <==> Carries(data, name)
  {
    if SniOption(data) == Some(name) {
      var d := DerivationOf(data);
    }
    if Carries(data, name) {
      var d: Derivation :| d.Valid() && d.name == name && d.Print() == data;
      DerivationParses(d);
    }
  }
}
