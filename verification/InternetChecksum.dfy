/** The checksum of pkg/rawsock/rawsock.go: a 32-bit accumulator with deferred
    carries, against the word-by-word end-around-carry sum of RFC 1071
    section 2. */
module InternetChecksum {
  import opened Bytes

  const M: nat := 0xFFFF

  /** The 16-bit words of `data` added up, an odd last octet padded right. */
  function WordSum(data: seq<byte>): nat {
    if |data| == 0 then 0
    else if |data| == 1 then U16(data[0], 0)
    else U16(data[0], data[1]) + WordSum(data[2..])
  }

  /** One's complement addition of two 16-bit words. */
  function EndAroundAdd(a: u16, b: u16): u16 {
    if a + b > M then a + b - M else a + b
  }

  /** RFC 1071: add each word in turn, carrying around at once. */
  function OnesSum(acc: u16, data: seq<byte>): u16
    decreases |data|
  {
    if |data| == 0 then acc
    else if |data| == 1 then EndAroundAdd(acc, U16(data[0], 0))
    else OnesSum(EndAroundAdd(acc, U16(data[0], data[1])), data[2..])
  }

  function Rfc1071(data: seq<byte>): u16 { M - OnesSum(0, data) }

  /** The 16-bit one's complement value of a sum: its residue modulo 65535,
      with 65535 standing for every non-zero multiple. */
  function Residue(n: nat): u16 {
    if n == 0 then 0 else (n - 1) % M + 1
  }

  /** One round of `sum = (sum & 0xFFFF) + (sum >> 16)`. */
  function Fold(n: nat): nat { ToU16(n) + n / 0x1_0000 }

  /** What the code computes, wrap-around of the accumulator included. */
  function CodeChecksum(data: seq<byte>): u16 { M - Residue(ToU32(WordSum(data))) }

  // ----- residues -----

  lemma DivIs(n: int, d: int, q: int, r: int)
    requires 0 <= r < d && n == q * d + r
    ensures n / d == q && n % d == r
  {
    var k := n / d - q;
    assert k * d == r - n % d;
    assert k >= 1 ==> k * d >= d;
    assert k <= -1 ==> k * d <= -d;
  }

  lemma ResidueShift(n: nat, k: nat)
    requires n > 0
    ensures Residue(n + k * M) == Residue(n)
  {
    var q, r := (n - 1) / M, (n - 1) % M;
    assert n - 1 + k * M == (q + k) * M + r;
    DivIs(n - 1 + k * M, M, q + k, r);
  }

  /** A fold keeps the residue and never turns a non-zero sum into zero. */
  lemma FoldKeepsResidue(n: nat)
    ensures Residue(Fold(n)) == Residue(n) && (Fold(n) == 0 <==> n == 0)
  {
    var high := n / 0x1_0000;
    assert n == Fold(n) + high * M;
    if n > 0 { ResidueShift(Fold(n), high); }
  }

  /** Two folds bring any 32-bit sum below 2^16. */
  lemma FoldsAreBounded(n: u32)
    ensures Fold(n) <= 0x1_FFFE
    ensures n <= 0x1_FFFE ==> Fold(n) < 0x1_0000
    ensures n >= 0x1_0000 ==> Fold(n) < n
  {
  }

  lemma SmallResidue(n: nat)
    requires n < 0x1_0000
    ensures Residue(n) == n
  {
  }

  lemma ResidueAdds(n: nat, w: u16)
    ensures EndAroundAdd(Residue(n), w) == Residue(n + w)
  {
    if n == 0 {
      SmallResidue(w);
    } else {
      var k := (n - 1) / M;
      assert n == Residue(n) + k * M;
      var s := Residue(n) + w;
      ResidueShift(s, k);
      if s > M {
        ResidueShift(s - M, 1);
        SmallResidue(s - M);
      } else {
        SmallResidue(s);
      }
    }
  }

  lemma {:induction false} OnesSumIsResidue(n: nat, data: seq<byte>)
    ensures OnesSum(Residue(n), data) == Residue(n + WordSum(data))
    decreases |data|
  {
    if |data| == 1 {
      ResidueAdds(n, U16(data[0], 0));
    } else if |data| > 1 {
      ResidueAdds(n, U16(data[0], data[1]));
      OnesSumIsResidue(n + U16(data[0], data[1]), data[2..]);
    }
  }

  // ----- the accumulator -----

  lemma {:induction false} WordSumBound(data: seq<byte>)
    ensures WordSum(data) <= M * ((|data| + 1) / 2)
    decreases |data|
  {
    if |data| > 1 {
      WordSumBound(data[2..]);
      assert (|data| + 1) / 2 == (|data[2..]| + 1) / 2 + 1;
    }
  }

  /** 65537 words of 65535 are 2^32 - 1. */
  lemma AccumulatorIsExact(data: seq<byte>)
    requires |data| <= 131074
    ensures WordSum(data) < 0x1_0000_0000
  {
    WordSumBound(data);
    assert M * 65537 == 0xFFFF_FFFF;
    assert (|data| + 1) / 2 <= 65537;
    assert M * ((|data| + 1) / 2) <= M * 65537;
  }

  lemma ChecksumIsRfc1071(data: seq<byte>)
    requires |data| <= 131074
    ensures CodeChecksum(data) == Rfc1071(data)
  {
    AccumulatorIsExact(data);
    OnesSumIsResidue(0, data);
  }

  lemma ResidueOfWrapped(k: nat, r: nat)
    ensures Residue(k * 0x1_0000_0000 + r) == Residue(k + r)
  {
    assert k * 0x1_0000_0000 + r == (k + r) + (65537 * k) * M;
    if k + r > 0 { ResidueShift(k + r, 65537 * k); }
  }

  lemma EqualResidues(r: nat, k: nat)
    ensures Residue(k + r) == Residue(r) <==> k % M == 0 && (r > 0 || k == 0)
  {
    var q, c := k / M, k % M;
    assert k == q * M + c;
    if r > 0 {
      ResidueShift(c + r, q);
      assert Residue(k + r) == Residue(c + r);
      var k0 := (r - 1) / M;
      assert r == Residue(r) + k0 * M;
      var s := c + Residue(r);
      ResidueShift(s, k0);
      assert Residue(c + r) == Residue(s);
      if s > M {
        ResidueShift(s - M, 1);
        SmallResidue(s - M);
      } else {
        SmallResidue(s);
      }
    }
  }

  /** For input of any length: the code agrees with RFC 1071 exactly when the
      carries lost off the top of the accumulator are a multiple of 65535 and
      did not leave a zero accumulator behind. */
  lemma ChecksumIsRfc1071Exactly(data: seq<byte>)
    ensures var lost, kept := WordSum(data) / 0x1_0000_0000, ToU32(WordSum(data));
            CodeChecksum(data) == Rfc1071(data) <==> lost % M == 0 && (kept > 0 || lost == 0)
  {
    var lost, kept := WordSum(data) / 0x1_0000_0000, ToU32(WordSum(data));
    OnesSumIsResidue(0, data);
    assert WordSum(data) == lost * 0x1_0000_0000 + kept;
    ResidueOfWrapped(lost, kept);
    EqualResidues(kept, lost);
  }

  lemma WrapAdds(a: nat, b: nat)
    ensures ToU32(ToU32(a) + b) == ToU32(a + b)
  {
    var q := a / 0x1_0000_0000;
    var s := ToU32(a) + b;
    assert a + b == s + q * 0x1_0000_0000;
    var q2 := s / 0x1_0000_0000;
    DivIs(a + b, 0x1_0000_0000, q + q2, ToU32(s));
  }

  /** The loop over the words, and the odd last octet. */
  method AddWords(data: seq<byte>) returns (sum: u32)
    ensures sum == ToU32(WordSum(data))
  {
    sum := 0;
    var i := 0;
    while i + 1 < |data|
      invariant 0 <= i <= |data| && i % 2 == 0
      invariant ToU32(sum + WordSum(data[i..])) == ToU32(WordSum(data))
    {
      var word := U16(data[i], data[i + 1]);
      assert data[i..][2..] == data[i + 2..];
      WrapAdds(sum + word, WordSum(data[i + 2..]));
      sum := ToU32(sum + word);
      i := i + 2;
    }
    if |data| % 2 != 0 {
      assert data[i..] == [data[|data| - 1]];
      sum := ToU32(sum + U16(data[|data| - 1], 0));
    }
  }

  /** The loop that folds the carries in. `folds` counts its rounds. */
  method FoldCarries(accumulator: u32) returns (sum: u16, ghost folds: nat)
    ensures sum == Residue(accumulator)
    ensures folds <= 2
  {
    var wide: u32 := accumulator;
    folds := 0;
    while wide / 0x1_0000 != 0
      invariant Residue(wide) == Residue(accumulator)
      invariant folds == 0 || (folds == 1 && wide <= 0x1_FFFE) || (folds == 2 && wide < 0x1_0000)
      decreases wide
    {
      FoldKeepsResidue(wide);
      FoldsAreBounded(wide);
      wide := Fold(wide);
      folds := folds + 1;
    }
    SmallResidue(wide);
    sum := wide;
  }

  method Checksum(data: seq<byte>) returns (cs: u16, ghost folds: nat)
    ensures cs == CodeChecksum(data)
    ensures folds <= 2
  {
    var accumulator := AddWords(data);
    var sum;
    sum, folds := FoldCarries(accumulator);
    cs := M - sum;
  }

  // ----- a checksum stored in the data it covers -----

  function Patched(data: seq<byte>, i: nat, cs: u16): (r: seq<byte>)
    requires i + 1 < |data|
    ensures |r| == |data|
  {
    data[i := Be16(cs)[0]][i + 1 := Be16(cs)[1]]
  }

  lemma {:induction false} PatchAdds(data: seq<byte>, i: nat, cs: u16)
    requires i % 2 == 0 && i + 1 < |data| && data[i] == data[i + 1] == 0
    ensures WordSum(Patched(data, i, cs)) == WordSum(data) + cs
    decreases i
  {
    var p := Patched(data, i, cs);
    if i == 0 {
      Be16Decodes(cs);
      assert p[2..] == data[2..];
    } else {
      assert p[2..] == Patched(data[2..], i - 2, cs);
      PatchAdds(data[2..], i - 2, cs);
    }
  }

  /** Storing the checksum in a zeroed field at an even offset makes the whole
      sum to a zero checksum. */
  lemma PatchedVerifies(data: seq<byte>, i: nat)
    requires |data| <= 131074
    requires i % 2 == 0 && i + 1 < |data| && data[i] == data[i + 1] == 0
    ensures CodeChecksum(Patched(data, i, CodeChecksum(data))) == 0
  {
    var n := WordSum(data);
    AccumulatorIsExact(data);
    InRange32(n);
    var cs := CodeChecksum(data);
    PatchAdds(data, i, cs);
    AccumulatorIsExact(Patched(data, i, cs));
    InRange32(n + cs);
    ComplementCloses(n);
  }

  lemma InRange32(n: nat)
    requires n < 0x1_0000_0000
    ensures ToU32(n) == n
  {
  }

  lemma ComplementCloses(n: nat)
    ensures Residue(n + (M - Residue(n))) == M
  {
    ResidueAdds(n, M - Residue(n));
  }

  lemma {:induction false} WordSumAppend(a: seq<byte>, b: seq<byte>)
    requires |a| % 2 == 0
    ensures WordSum(a + b) == WordSum(a) + WordSum(b)
    decreases |a|
  {
    if |a| == 0 {
      assert a + b == b;
    } else {
      assert (a + b)[2..] == a[2..] + b;
      WordSumAppend(a[2..], b);
    }
  }
}
