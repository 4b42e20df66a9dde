/** The server-name parser of pkg/fake/sni.go: a recursive-descent reading of
    RFC 8446 sections 4.1.2, 4.2 and 5.1 and RFC 6066 section 3, and the cursor
    walk that computes it. */
module SniParser {
  import opened Bytes

  // ----- recursive descent -----

  function HandshakeOf(data: seq<byte>): Option<seq<byte>> {
    if |data| < 5 || data[0] != 0x16 then None
    else
      var cut :- Opaque16(data[3..]);
      Some(cut.block)
  }

  function BodyOf(hs: seq<byte>): Option<seq<byte>> {
    if |hs| < 4 || hs[0] != 0x01 || 4 + U24(hs[1], hs[2], hs[3]) > |hs| then None
    else Some(hs[4..4 + U24(hs[1], hs[2], hs[3])])
  }

  /** Version and random are 34 octets; then session id, cipher suites,
      compression methods and extensions. */
  function ExtensionsOf(body: seq<byte>): Option<seq<byte>> {
    if |body| < 34 then None else FromSessionId(body[34..])
  }

  function FromSessionId(s: seq<byte>): Option<seq<byte>> {
    var sessionId :- Opaque8(s);
    FromSuites(sessionId.rest)
  }

  function FromSuites(s: seq<byte>): Option<seq<byte>> {
    var suites :- Opaque16(s);
    FromCompression(suites.rest)
  }

  function FromCompression(s: seq<byte>): Option<seq<byte>> {
    var compression :- Opaque8(s);
    FromExtensions(compression.rest)
  }

  function FromExtensions(s: seq<byte>): Option<seq<byte>> {
    var extensions :- Opaque16(s);
    Some(extensions.block)
  }

  /** The body of the first extension of type `t`. */
  function FirstExtension(exts: seq<byte>, t: u16): Option<seq<byte>> {
    if |exts| < 4 || 4 + U16(exts[2], exts[3]) > |exts| then None
    else if U16(exts[0], exts[1]) == t then Some(exts[4..4 + U16(exts[2], exts[3])])
    else FirstExtension(exts[4 + U16(exts[2], exts[3])..], t)
  }

  /** The first entry of name type host_name (0). */
  function FirstHostName(entries: seq<byte>): Option<seq<byte>> {
    if |entries| < 3 || 3 + U16(entries[1], entries[2]) > |entries| then None
    else if entries[0] == 0 then Some(entries[3..3 + U16(entries[1], entries[2])])
    else FirstHostName(entries[3 + U16(entries[1], entries[2])..])
  }

  function HostNameOf(ext: seq<byte>): Option<seq<byte>> {
    var list :- Opaque16(ext);
    FirstHostName(list.block)
  }

  function ExtensionBlock(data: seq<byte>): Option<seq<byte>> {
    var hs :- HandshakeOf(data);
    var body :- BodyOf(hs);
    ExtensionsOf(body)
  }

  function SniOption(data: seq<byte>): Option<seq<byte>> {
    var exts :- ExtensionBlock(data);
    var ext :- FirstExtension(exts, 0);
    HostNameOf(ext)
  }

  function OrEmpty(o: Option<seq<byte>>): seq<byte> {
    if o.Some? then o.value else []
  }

  function Sni(data: seq<byte>): seq<byte> { OrEmpty(SniOption(data)) }

  // ----- the code -----

  // The same four reads by absolute position, which may run past the end.

  function SessionIdAt(s: seq<byte>, pos: nat): Option<seq<byte>> {
    if pos >= |s| then None else SuitesAt(s, pos + 1 + s[pos])
  }

  function SuitesAt(s: seq<byte>, pos: nat): Option<seq<byte>> {
    if pos + 2 > |s| then None else CompressionAt(s, pos + 2 + U16(s[pos], s[pos + 1]))
  }

  function CompressionAt(s: seq<byte>, pos: nat): Option<seq<byte>> {
    if pos >= |s| then None else BlockAt(s, pos + 1 + s[pos])
  }

  function BlockAt(s: seq<byte>, pos: nat): Option<seq<byte>> {
    if pos + 2 > |s| || pos + 2 + U16(s[pos], s[pos + 1]) > |s| then None
    else Some(s[pos + 2..pos + 2 + U16(s[pos], s[pos + 1])])
  }

  lemma BlockAtReads(s: seq<byte>, pos: nat)
    ensures BlockAt(s, pos) == if pos > |s| then None else FromExtensions(s[pos..])
  {
    if pos <= |s| { Opaque16At(s, pos); }
  }

  lemma CompressionAtReads(s: seq<byte>, pos: nat)
    ensures CompressionAt(s, pos) == if pos > |s| then None else FromCompression(s[pos..])
  {
    if pos < |s| {
      Opaque8At(s, pos);
      BlockAtReads(s, pos + 1 + s[pos]);
    }
  }

  lemma SuitesAtReads(s: seq<byte>, pos: nat)
    ensures SuitesAt(s, pos) == if pos > |s| then None else FromSuites(s[pos..])
  {
    if pos + 2 <= |s| {
      var next := pos + 2 + U16(s[pos], s[pos + 1]);
      assert FromSuites(s[pos..]) == if next > |s| then None else FromCompression(s[next..]) by {
        Opaque16At(s, pos);
      }
      CompressionAtReads(s, next);
    }
  }

  lemma SessionIdAtReads(s: seq<byte>, pos: nat)
    ensures SessionIdAt(s, pos) == if pos > |s| then None else FromSessionId(s[pos..])
  {
    if pos < |s| {
      var next := pos + 1 + s[pos];
      Opaque8At(s, pos);
      assert Opaque8(s[pos..]).Some? <==> next <= |s|;
      SuitesAtReads(s, next);
      if next <= |s| { assert FromSessionId(s[pos..]) == FromSuites(s[next..]); }
    }
  }

  /** The cursor over the ClientHello body. */
  method ExtensionsAt(body: seq<byte>) returns (exts: Option<seq<byte>>)
    ensures exts == if |body| < 34 then None else SessionIdAt(body, 34)
  {
    if |body| < 34 {
      return None;
    }
    var pos := 34;
    if pos >= |body| {
      return None;
    }
    pos := pos + 1 + body[pos];
    assert SessionIdAt(body, 34) == SuitesAt(body, pos);
    if pos + 2 > |body| {
      return None;
    }
    pos := pos + 2 + U16(body[pos], body[pos + 1]);
    assert SessionIdAt(body, 34) == CompressionAt(body, pos);
    if pos >= |body| {
      return None;
    }
    pos := pos + 1 + body[pos];
    assert SessionIdAt(body, 34) == BlockAt(body, pos);
    if pos + 2 > |body| {
      return None;
    }
    var extLen := U16(body[pos], body[pos + 1]);
    pos := pos + 2;
    if pos + extLen > |body| {
      return None;
    }
    return Some(body[pos..pos + extLen]);
  }

  method ParseSniExtension(data: seq<byte>) returns (name: seq<byte>)
    ensures name == OrEmpty(HostNameOf(data))
  {
    if |data| < 2 {
      return [];
    }
    var listLen := U16(data[0], data[1]);
    if 2 + listLen > |data| {
      return [];
    }
    var entries := data[2..2 + listLen];
    while |entries| >= 3
      invariant FirstHostName(entries) == FirstHostName(data[2..2 + listLen])
      decreases |entries|
    {
      var nameLen := U16(entries[1], entries[2]);
      if 3 + nameLen > |entries| {
        break;
      }
      if entries[0] == 0 {
        return entries[3..3 + nameLen];
      }
      entries := entries[3 + nameLen..];
    }
    return [];
  }

  lemma HandshakeOfReads(data: seq<byte>)
    requires |data| >= 5 && data[0] == 0x16
    ensures var end := 5 + U16(data[3], data[4]);
            HandshakeOf(data) == if |data| < end then None else Some(data[5..end])
  {
    Opaque16At(data, 3);
  }

  method ParseSni(data: seq<byte>) returns (name: seq<byte>)
    ensures name == Sni(data)
  {
    if |data| < 5 || data[0] != 0x16 {
      return [];
    }
    HandshakeOfReads(data);
    var recordLen := U16(data[3], data[4]);
    if |data| < 5 + recordLen {
      return [];
    }
    var hs := data[5..5 + recordLen];
    if |hs| < 4 || hs[0] != 0x01 {
      return [];
    }
    var hsLen := U24(hs[1], hs[2], hs[3]);
    if |hs| < 4 + hsLen {
      return [];
    }
    var body := hs[4..4 + hsLen];
    var block := ExtensionsAt(body);
    assert ExtensionBlock(data) == block by { SessionIdAtReads(body, 34); }
    if block.None? {
      return [];
    }

    var exts := block.value;
    while |exts| >= 4
      invariant FirstExtension(exts, 0) == FirstExtension(block.value, 0)
      decreases |exts|
    {
      var extType := U16(exts[0], exts[1]);
      var extDataLen := U16(exts[2], exts[3]);
      if 4 + extDataLen > |exts| {
        break;
      }
      if extType == 0 {
        name := ParseSniExtension(exts[4..4 + extDataLen]);
        return;
      }
      exts := exts[4 + extDataLen..];
    }
    return [];
  }
}
