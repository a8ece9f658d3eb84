/** Bytes and big-endian words. */
module Bytes {
  type Byte = b: int | 0 <= b < 256

  function Word(n: nat): (r: seq<Byte>)
    requires n < 0x1_0000
    ensures |r| == 2
  {
    [n / 256, n % 256]
  }

  function Wide(n: nat): (r: seq<Byte>)
    requires n < 0x1_0000_0000
    ensures |r| == 4
  {
    [n / 0x100_0000, n / 0x1_0000 % 256, n / 256 % 256, n % 256]
  }

  function U16(hi: Byte, lo: Byte): (r: nat)
    ensures r < 0x1_0000
  {
    256 * hi + lo
  }

  function U32(a: Byte, b: Byte, c: Byte, d: Byte): (r: nat)
    ensures r < 0x1_0000_0000
  {
    0x100_0000 * a + 0x1_0000 * b + 256 * c + d
  }

  lemma WordReadsBack(n: nat)
    requires n < 0x1_0000
    ensures U16(Word(n)[0], Word(n)[1]) == n
  {}

  lemma WideReadsBack(n: nat)
    requires n < 0x1_0000_0000
    ensures U32(Wide(n)[0], Wide(n)[1], Wide(n)[2], Wide(n)[3]) == n
  {
    assert n / 0x1_0000 == 256 * (n / 0x100_0000) + n / 0x1_0000 % 256;
    assert n / 256 == 256 * (n / 0x1_0000) + n / 256 % 256;
  }

  /** `s` with `bytes` written over it from index `at`. */
  function Put(s: seq<Byte>, at: nat, bytes: seq<Byte>): (r: seq<Byte>)
    requires at + |bytes| <= |s|
    ensures |r| == |s|
    ensures forall k :: 0 <= k < |s| ==> r[k] == if at <= k < at + |bytes| then bytes[k - at] else s[k]
  {
    s[..at] + bytes + s[at + |bytes|..]
  }

  lemma PutTwice(s: seq<Byte>, at: nat, a: seq<Byte>, b: seq<Byte>)
    requires at + |a| + |b| <= |s|
    ensures Put(Put(s, at, a), at + |a|, b) == Put(s, at, a + b)
  {}

  method CopyInto(a: array<Byte>, at: nat, bytes: seq<Byte>)
    requires at + |bytes| <= a.Length
    modifies a
    ensures a[..] == Put(old(a[..]), at, bytes)
  {
    for i := 0 to |bytes|
      invariant forall k :: 0 <= k < a.Length ==> a[k] == if at <= k < at + i then bytes[k - at] else old(a[k])
    {
      a[at + i] := bytes[i];
    }
  }
}
