/** The one's-complement checksum of an IPv4 header (RFC 1071). */
module Checksum {
  import opened Bytes

  newtype u32 = x: int | 0 <= x < 0x1_0000_0000

  /** The longest input whose sum always fits in 32 bits. */
  const MAX_SUMMED := 131_074

  /** The sum of the big-endian 16-bit words; an odd last byte is a word's high byte. */
  function WordSum(s: seq<Byte>): nat {
    if s == [] then 0
    else if |s| == 1 then 256 * s[0]
    else U16(s[0], s[1]) + WordSum(s[2..])
  }

  function Fold(sum: nat): (r: nat)
    ensures r <= 0xFFFF
  {
    if sum > 0xFFFF then Fold(sum / 0x1_0000 + sum % 0x1_0000) else sum
  }

  function Checksum(s: seq<Byte>): (r: nat)
    ensures r <= 0xFFFF
  {
    0xFFFF - Fold(WordSum(s))
  }

  lemma {:induction false} WordSumBound(s: seq<Byte>)
    ensures WordSum(s) <= 0xFFFF * ((|s| + 1) / 2)
  {
    if |s| > 1 {
      WordSumBound(s[2..]);
    }
  }

  /** Folding keeps the sum modulo 65535 and is zero only for zero. */
  lemma {:induction false} FoldFacts(sum: nat)
    ensures Fold(sum) % 0xFFFF == sum % 0xFFFF
    ensures Fold(sum) == 0 <==> sum == 0
  {
    if sum > 0xFFFF {
      var hi, lo := sum / 0x1_0000, sum % 0x1_0000;
      FoldFacts(hi + lo);
      assert sum == 0xFFFF * hi + (hi + lo);
      ModPlusMultiple(hi + lo, hi);
    }
  }

  lemma ModPlusMultiple(a: nat, k: nat)
    ensures (0xFFFF * k + a) % 0xFFFF == a % 0xFFFF
  {}

  /** The word sum in 32-bit arithmetic: nothing overflows. */
  method SumWords(data: seq<Byte>) returns (sum: u32)
    requires |data| <= MAX_SUMMED
    ensures sum as nat == WordSum(data)
  {
    sum := 0;
    var i := 0;
    while i + 1 < |data|
      invariant 0 <= i <= |data| && i % 2 == 0
      invariant sum as nat + WordSum(data[i..]) == WordSum(data)
      invariant sum as nat <= 0xFFFF * (i / 2)
    {
      NextWord(data, i);
      sum := sum + U16(data[i], data[i + 1]) as u32;
      i := i + 2;
    }
    if i < |data| {
      sum := sum + 256 * data[i] as u32;
    }
  }

  lemma NextWord(s: seq<Byte>, i: nat)
    requires i + 1 < |s|
    ensures WordSum(s[i..]) == U16(s[i], s[i + 1]) + WordSum(s[i + 2..])
  {
    assert s[i..][2..] == s[i + 2..];
  }

  /** The checksum, with the carries folded in one loop. */
  method IpChecksum(data: seq<Byte>) returns (r: nat)
    requires |data| <= MAX_SUMMED
    ensures r == Checksum(data)
  {
    hide WordSum;
    var sum := SumWords(data);
    while sum > 0xFFFF
      invariant Fold(sum as nat) == Fold(WordSum(data))
      decreases sum
    {
      sum := sum / 0x1_0000 + sum % 0x1_0000;
    }
    r := 0xFFFF - sum as nat;
  }

  lemma {:induction false} WordSumConcat(a: seq<Byte>, b: seq<Byte>)
    requires |a| % 2 == 0
    ensures WordSum(a + b) == WordSum(a) + WordSum(b)
  {
    if a == [] {
      assert a + b == b;
    } else {
      assert (a + b)[2..] == a[2..] + b;
      WordSumConcat(a[2..], b);
    }
  }

  lemma WordSumOfPut(s: seq<Byte>, at: nat, n: nat)
    requires at % 2 == 0 && at + 2 <= |s| && n < 0x1_0000
    ensures WordSum(Put(s, at, Word(n))) == WordSum(Put(s, at, [0, 0])) + n
  {
    WordSumConcat(s[..at] + Word(n), s[at + 2..]);
    WordSumConcat(s[..at], Word(n));
    WordSumConcat(s[..at] + [0, 0], s[at + 2..]);
    WordSumConcat(s[..at], [0, 0]);
    WordReadsBack(n);
    assert Word(n)[2..] == [] && [0, 0][2..] == [];
  }

  /** A header of any content and length whose checksum field was computed this way sums up to all ones. */
  lemma ChecksummedHeaderFoldsToOnes(header: seq<Byte>)
    requires |header| >= 12
    ensures Fold(WordSum(Put(header, 10, Word(Checksum(Put(header, 10, [0, 0])))))) == 0xFFFF
  {
    hide WordSum, Fold, Put, Word;
    var zeroed := WordSum(Put(header, 10, [0, 0]));
    FoldFacts(zeroed);
    var c := 0xFFFF - Fold(zeroed);
    WordSumOfPut(header, 10, c);
    FoldFacts(zeroed + c);
    SumIsMultiple(zeroed, Fold(zeroed));
  }

  lemma SumIsMultiple(a: nat, f: nat)
    requires f <= 0xFFFF && f % 0xFFFF == a % 0xFFFF
    ensures (a + (0xFFFF - f)) % 0xFFFF == 0
  {
    var k := a / 0xFFFF;
    assert a == 0xFFFF * k + f % 0xFFFF;
    assert f == 0xFFFF || f % 0xFFFF == f;
  }

  /** The bound is tight: one more word of ones does not fit in 32 bits. */
  lemma {:induction false} OnesSum(s: seq<Byte>)
    requires |s| % 2 == 0 && forall k :: 0 <= k < |s| ==> s[k] == 255
    ensures WordSum(s) == 0xFFFF * (|s| / 2)
  {
    if s != [] {
      OnesSum(s[2..]);
    }
  }
}
