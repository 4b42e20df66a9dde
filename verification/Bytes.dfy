/** Octets, fixed-width unsigned integers and the big-endian, length-prefixed
    notation shared by the TLS and IP code. */
module Bytes {

  type byte = x: int | 0 <= x < 0x100
  type u16 = x: int | 0 <= x < 0x1_0000
  type u32 = x: int | 0 <= x < 0x1_0000_0000

  datatype Option<+T> = None | Some(value: T) {
    predicate IsFailure() { None? }
    function PropagateFailure<U>(): Option<U> requires None? { None }
    function Extract(): T requires Some? { value }
  }

  /** A block cut off the front of a byte string, and what follows it. */
  datatype Cut = Cut(block: seq<byte>, rest: seq<byte>)

  type u24 = x: int | 0 <= x < 0x100_0000

  // Conversions to a narrower unsigned type keep a value that fits, and the
  // low bits of any other.

  function ToByte(n: int): byte { if 0 <= n < 0x100 then n else n % 0x100 }

  function ToU16(n: int): u16 { if 0 <= n < 0x1_0000 then n else n % 0x1_0000 }

  function ToU24(n: int): u24 { if 0 <= n < 0x100_0000 then n else n % 0x100_0000 }

  function ToU32(n: int): u32 { n % 0x1_0000_0000 }

  /** A conversion drops the high bits and nothing else; negative numbers are
      in two's complement. */
  lemma TruncationKeepsLowBits(n: int)
    ensures ToByte(n) == n % 0x100 && ToU16(n) == n % 0x1_0000
    ensures ToU24(n) == n % 0x100_0000 && ToU32(n) == n % 0x1_0000_0000
  {
  }

  // Most significant octet first.

  function Be16(v: u16): (b: seq<byte>)
    ensures |b| == 2
  {
    [v / 0x100, v % 0x100]
  }

  function Be24(v: u24): (b: seq<byte>)
    ensures |b| == 3
  {
    [v / 0x1_0000] + Be16(v % 0x1_0000)
  }

  function Be32(v: u32): (b: seq<byte>)
    ensures |b| == 4
  {
    Be16(v / 0x1_0000) + Be16(v % 0x1_0000)
  }

  function U16(hi: byte, lo: byte): (n: nat)
    ensures n < 0x1_0000
  {
    hi * 0x100 + lo
  }

  function U24(a: byte, b: byte, c: byte): (n: nat)
    ensures n < 0x100_0000
  {
    a * 0x1_0000 + U16(b, c)
  }

  function U32(a: byte, b: byte, c: byte, d: byte): (n: nat)
    ensures n < 0x1_0000_0000
  {
    U16(a, b) * 0x1_0000 + U16(c, d)
  }

  lemma Be16Decodes(v: u16)
    ensures U16(Be16(v)[0], Be16(v)[1]) == v
  {
  }

  lemma Be16Encodes(hi: byte, lo: byte)
    ensures Be16(U16(hi, lo)) == [hi, lo]
  {
  }

  lemma Be24Decodes(v: u24)
    ensures |Be24(v)| == 3 && U24(Be24(v)[0], Be24(v)[1], Be24(v)[2]) == v
  {
    var high, low := v / 0x1_0000, v % 0x1_0000;
    assert Be24(v) == [high, Be16(low)[0], Be16(low)[1]];
    Be16Decodes(low);
  }

  lemma Be24Encodes(a: byte, b: byte, c: byte)
    ensures Be24(U24(a, b, c)) == [a, b, c]
  {
    var n := U24(a, b, c);
    assert n / 0x1_0000 == a && n % 0x1_0000 == U16(b, c);
    Be16Encodes(b, c);
  }

  lemma Be32Decodes(v: u32)
    ensures |Be32(v)| == 4 && U32(Be32(v)[0], Be32(v)[1], Be32(v)[2], Be32(v)[3]) == v
  {
    Be16Decodes(v / 0x1_0000);
    Be16Decodes(v % 0x1_0000);
  }

  /** A two-octet length that is not truncated reads back. */
  lemma LengthDecodes(block: seq<byte>) returns (len: seq<byte>)
    requires |block| < 0x1_0000
    ensures Prefixed16(block) == len + block
    ensures |len| == 2 && U16(len[0], len[1]) == |block|
  {
    var n: u16 := |block|;
    assert ToU16(n) == n;
    len := Be16(n);
    assert U16(len[0], len[1]) == n by { Be16Decodes(n); }
  }

  lemma LengthEncodes(len: seq<byte>, block: seq<byte>)
    requires |len| == 2 && U16(len[0], len[1]) == |block|
    ensures |block| < 0x1_0000 && Prefixed16(block) == len + block
  {
    var n := U16(len[0], len[1]);
    assert ToU16(n) == n;
    assert Be16(n) == len by { Be16Encodes(len[0], len[1]); }
  }

  lemma InRange24(n: nat)
    requires n < 0x100_0000
    ensures ToU24(n) == n
  {
  }

  lemma Length24Decodes(block: seq<byte>) returns (len: seq<byte>)
    requires |block| < 0x100_0000
    ensures Prefixed24(block) == len + block
    ensures |len| == 3 && U24(len[0], len[1], len[2]) == |block|
  {
    var n: u24 := |block|;
    assert ToU24(n) == n;
    len := Be24(n);
    assert U24(len[0], len[1], len[2]) == n by { Be24Decodes(n); }
  }

  /** A block behind a one-octet length. */
  function Opaque8(s: seq<byte>): Option<Cut> {
    if |s| < 1 || 1 + s[0] > |s| then None
    else Some(Cut(s[1..1 + s[0]], s[1 + s[0]..]))
  }

  /** A block behind a two-octet length. */
  function Opaque16(s: seq<byte>): Option<Cut> {
    if |s| < 2 || 2 + U16(s[0], s[1]) > |s| then None
    else Some(Cut(s[2..2 + U16(s[0], s[1])], s[2 + U16(s[0], s[1])..]))
  }

  /** The same cut, taken at a position of a longer string. */
  lemma Opaque8At(s: seq<byte>, pos: nat)
    requires pos <= |s|
    ensures Opaque8(s[pos..]) ==
            if pos == |s| || pos + 1 + s[pos] > |s| then None
            else Some(Cut(s[pos + 1..pos + 1 + s[pos]], s[pos + 1 + s[pos]..]))
  {
    if pos < |s| && pos + 1 + s[pos] <= |s| {
      var n := s[pos];
      assert s[pos..][1..1 + n] == s[pos + 1..pos + 1 + n];
      assert s[pos..][1 + n..] == s[pos + 1 + n..];
    }
  }

  lemma Opaque16At(s: seq<byte>, pos: nat)
    requires pos <= |s|
    ensures Opaque16(s[pos..]) ==
            if pos + 2 > |s| then None
            else
              var n := U16(s[pos], s[pos + 1]);
              if pos + 2 + n > |s| then None
              else Some(Cut(s[pos + 2..pos + 2 + n], s[pos + 2 + n..]))
  {
    if pos + 2 <= |s| {
      var n := U16(s[pos], s[pos + 1]);
      if pos + 2 + n <= |s| {
        assert s[pos..][2..2 + n] == s[pos + 2..pos + 2 + n];
        assert s[pos..][2 + n..] == s[pos + 2 + n..];
      }
    }
  }

  function Prefixed8(block: seq<byte>): seq<byte> { [ToByte(|block|)] + block }

  function Prefixed16(block: seq<byte>): seq<byte> { Be16(ToU16(|block|)) + block }

  function Prefixed24(block: seq<byte>): seq<byte> { Be24(ToU24(|block|)) + block }

  lemma Opaque8Of(block: seq<byte>, rest: seq<byte>)
    requires |block| < 0x100
    ensures Opaque8(Prefixed8(block) + rest) == Some(Cut(block, rest))
  {
    var s := Prefixed8(block) + rest;
    assert s[1..1 + |block|] == block && s[1 + |block|..] == rest;
  }

  lemma Opaque16Of(block: seq<byte>, rest: seq<byte>)
    requires |block| < 0x1_0000
    ensures Opaque16(Prefixed16(block) + rest) == Some(Cut(block, rest))
  {
    var len := LengthDecodes(block);
    Opaque16Behind(len, block, rest);
  }

  lemma Opaque16Behind(len: seq<byte>, block: seq<byte>, rest: seq<byte>)
    requires |len| == 2 && U16(len[0], len[1]) == |block|
    ensures Opaque16(len + block + rest) == Some(Cut(block, rest))
  {
    var s := len + block + rest;
    assert s[2..2 + |block|] == block && s[2 + |block|..] == rest;
  }

  /** What was cut off, printed again, is what was read. */
  lemma Opaque8Prints(s: seq<byte>)
    requires Opaque8(s).Some?
    ensures var c := Opaque8(s).value; |c.block| < 0x100 && Prefixed8(c.block) + c.rest == s
  {
  }

  lemma Opaque16Prints(s: seq<byte>)
    requires Opaque16(s).Some?
    ensures var c := Opaque16(s).value; |c.block| < 0x1_0000 && Prefixed16(c.block) + c.rest == s
  {
    var c := Opaque16(s).value;
    assert s == s[..2] + c.block + c.rest;
    LengthEncodes(s[..2], c.block);
  }

  lemma Assoc(a: seq<byte>, b: seq<byte>, c: seq<byte>)
    ensures a + b + c == a + (b + c)
  {
  }

  /** The items of `xs` printed one after the other. */
  function PrintAll<T>(item: T -> seq<byte>, xs: seq<T>): seq<byte> {
    if xs == [] then [] else item(xs[0]) + PrintAll(item, xs[1..])
  }

  lemma PrintCons<T>(item: T -> seq<byte>, x: T, xs: seq<T>)
    ensures PrintAll(item, [x] + xs) == item(x) + PrintAll(item, xs)
  {
    assert ([x] + xs)[1..] == xs;
  }

  lemma {:induction false} PrintAppend<T>(item: T -> seq<byte>, xs: seq<T>, ys: seq<T>)
    ensures PrintAll(item, xs + ys) == PrintAll(item, xs) + PrintAll(item, ys)
  {
    if xs == [] {
      assert xs + ys == ys;
    } else {
      var x, more := xs[0], xs[1..];
      assert xs + ys == [x] + (more + ys);
      PrintCons(item, x, more + ys);
      PrintAppend(item, more, ys);
      Assoc(item(x), PrintAll(item, more), PrintAll(item, ys));
    }
  }

  lemma PrintSnoc<T>(item: T -> seq<byte>, xs: seq<T>, x: T)
    ensures PrintAll(item, xs + [x]) == PrintAll(item, xs) + item(x)
  {
    PrintAppend(item, xs, [x]);
    assert PrintAll(item, [x]) == item(x) + [];
  }

  lemma PrintTake<T>(item: T -> seq<byte>, xs: seq<T>, i: nat)
    requires i < |xs|
    ensures PrintAll(item, xs[..i + 1]) == PrintAll(item, xs[..i]) + item(xs[i])
  {
    assert xs[..i + 1] == xs[..i] + [xs[i]];
    PrintSnoc(item, xs[..i], xs[i]);
  }
}
