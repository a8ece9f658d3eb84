/** The two ends of a connection: bytes still to be read, and the writes made so far. */
module Streams {
  import opened Sequences
  import opened Text

  predicate At(s: string, j: nat, pat: string) {
    j + |pat| <= |s| && s[j..j + |pat|] == pat
  }

  /** The position of the first `pat` in `s`, or |s|. */
  function Find(s: string, pat: string): (k: nat)
    ensures k <= |s|
  {
    if s == "" || At(s, 0, pat) then 0 else 1 + Find(s[1..], pat)
  }

  lemma AtTail(s: string, j: nat, pat: string)
    requires 1 <= j && s != ""
    ensures At(s, j, pat) == At(s[1..], j - 1, pat)
  {
    if j + |pat| <= |s| {
      assert s[1..][j - 1..j - 1 + |pat|] == s[j..j + |pat|];
    }
  }

  lemma {:induction false} FindFacts(s: string, pat: string)
    requires pat != ""
    ensures Find(s, pat) < |s| ==> At(s, Find(s, pat), pat)
    ensures forall j: nat :: j < Find(s, pat) ==> !At(s, j, pat)
  {
    if s != "" && !At(s, 0, pat) {
      hide At;
      FindFacts(s[1..], pat);
      var k := 1 + Find(s[1..], pat);
      AtTail(s, k, pat);
      forall j: nat | j < k ensures !At(s, j, pat) {
        if j > 0 { AtTail(s, j, pat); }
      }
    }
  }

  lemma FindIs(s: string, pat: string, k: nat)
    requires pat != "" && At(s, k, pat) && forall j: nat :: j < k ==> !At(s, j, pat)
    ensures Find(s, pat) == k
  {
    FindFacts(s, pat);
    var f := Find(s, pat);
    assert !(k < f);
    assert f < |s| ==> At(s, f, pat);
  }

  lemma FindAbsent(s: string, pat: string)
    requires pat != "" && forall j: nat :: !At(s, j, pat)
    ensures Find(s, pat) == |s|
  {
    FindFacts(s, pat);
  }

  /** Length of the text up to and including `pat`, when no more than `max` bytes come before its last one. */
  function Delimited(s: string, pat: string, max: nat): (n: Option<nat>)
    ensures n.Some? ==> |pat| <= n.value <= |s|
  {
    var k := Find(s, pat);
    if k + |pat| <= |s| && k + |pat| <= max + 1 then Some(k + |pat|) else None
  }

  lemma AtEnd(all: string, buf: string, pat: string)
    requires buf <= all
    ensures EndsWith(buf, pat) <==> |pat| <= |buf| && At(all, |buf| - |pat|, pat)
  {
    assert all[..|buf|] == buf;
    assert |pat| <= |buf| ==> all[|buf| - |pat|..|buf|] == all[..|buf|][|buf| - |pat|..];
  }

  /** No `pat` within the first `n` bytes. */
  ghost predicate NotYet(all: string, n: nat, pat: string) {
    forall j: nat :: j + |pat| <= n ==> !At(all, j, pat)
  }

  lemma DelimitedFound(all: string, buf: string, pat: string, max: nat)
    requires pat != "" && buf != "" && |buf| <= max + 1 && buf <= all
    requires EndsWith(buf, pat) && NotYet(all, |buf| - 1, pat)
    ensures Delimited(all, pat, max) == Some(|buf|)
  {
    AtEnd(all, buf, pat);
    FindIs(all, pat, |buf| - |pat|);
  }

  lemma NotYetStart(all: string, pat: string)
    requires pat != ""
    ensures NotYet(all, 0, pat)
  {}

  lemma NotYetStep(all: string, buf: string, pat: string)
    requires buf != "" && buf <= all && NotYet(all, |buf| - 1, pat) && !EndsWith(buf, pat)
    ensures NotYet(all, |buf|, pat)
  {
    AtEnd(all, buf, pat);
    forall j: nat | j + |pat| <= |buf| ensures !At(all, j, pat) {
      assert j + |pat| == |buf| ==> j == |buf| - |pat|;
    }
  }

  lemma DelimitedMissing(all: string, n: nat, pat: string, max: nat)
    requires pat != "" && n <= |all| && NotYet(all, n, pat)
    requires n > max || n == |all|
    ensures Delimited(all, pat, max) == None
  {
    FindFacts(all, pat);
  }

  function Flatten(parts: seq<string>): string {
    if parts == [] then "" else Flatten(parts[..|parts| - 1]) + parts[|parts| - 1]
  }

  /**
   A reader that serves an already read prefix before the connection itself. A read can fail at any time,
   unless the connection is `steady`.
   */
  class PrefixedReader {
    const prefix: string
    const steady: bool
    var pos: nat
    var inner: string
    var gaveUp: bool

    predicate Failed()
      reads this
    {
      gaveUp && !steady
    }

    ghost predicate Valid()
      reads this
    {
      pos <= |prefix|
    }

    /** Everything still to be read. */
    ghost function Rest(): string
      requires Valid()
      reads this
    {
      prefix[pos..] + inner
    }

    /** Reading only moves on: the prefix first, the connection itself only once the prefix is used up. */
    twostate predicate Advanced()
      reads this
    {
      && old(pos) <= pos
      && (inner == old(inner) || pos == |prefix|)
      && (old(Failed()) ==> Failed())
    }

    constructor (prefix: string, inner: string, steady: bool)
      ensures Valid() && Rest() == prefix + inner
      ensures this.prefix == prefix && this.inner == inner && this.steady == steady && pos == 0 && !Failed()
    {
      this.prefix := prefix;
      this.steady := steady;
      this.inner := inner;
      pos := 0;
      gaveUp := false;
    }

    /**
     One read of at most `max` bytes: None is an error or an idle timeout, the empty string is the end.
     The connection may hand over any non-empty part of what it holds.
     */
    method Read(max: nat) returns (r: Option<string>)
      requires Valid() && max > 0
      modifies this
      ensures Valid() && Advanced()
      ensures r == None ==> Failed() && Rest() == old(Rest())
      ensures r.Some? ==> old(Rest()) == r.value + Rest() && |r.value| <= max && Failed() == old(Failed())
      ensures r == Some("") ==> old(Rest()) == ""
    {
      var broke: bool := *;
      if pos < |prefix| {
        var n := if |prefix| - pos <= max then |prefix| - pos else max;
        r := Some(prefix[pos..pos + n]);
        pos := pos + n;
      } else if broke && !steady {
        gaveUp := true;
        r := None;
      } else if inner == "" {
        r := Some("");
      } else {
        var n: nat :| 1 <= n <= max && n <= |inner|;
        r := Some(inner[..n]);
        inner := inner[n..];
      }
    }

    /** Read byte by byte up to and including `pat`; more than `max` bytes without it fail. */
    method ReadUntil(pat: string, max: nat) returns (r: Option<string>)
      requires Valid() && pat != ""
      modifies this
      ensures Valid() && Advanced()
      ensures r.Some? ==> Delimited(old(Rest()), pat, max) == Some(|r.value|)
      ensures r.Some? ==> old(Rest()) == r.value + Rest() && Failed() == old(Failed())
      ensures r == None ==> Failed() || Delimited(old(Rest()), pat, max) == None
    {
      hide Delimited, At, NotYet, EndsWith;
      assert NotYet(Rest(), 0, pat) by {
        NotYetStart(Rest(), pat);
      }
      ghost var all := Rest();
      var buf := "";
      while true
        invariant Valid() && all == buf + Rest() && |buf| <= max && Failed() == old(Failed())
        invariant Advanced()
        invariant NotYet(all, |buf|, pat)
        decreases |Rest()|
      {
        var byte := Read(1);
        if byte == None || byte.value == "" {
          if byte.Some? {
            assert all == buf;
            DelimitedMissing(all, |buf|, pat, max);
          }
          return None;
        }
        Associate(buf, byte.value, Rest());
        buf := buf + byte.value;
        if EndsWith(buf, pat) {
          DelimitedFound(all, buf, pat, max);
          return Some(buf);
        }
        NotYetStep(all, buf, pat);
        if |buf| > max {
          DelimitedMissing(all, |buf|, pat, max);
          return None;
        }
      }
    }

    /** Read exactly `n` bytes. */
    method ReadExact(n: nat) returns (r: Option<string>)
      requires Valid()
      modifies this
      ensures Valid() && Advanced()
      ensures r.Some? ==> |r.value| == n && old(Rest()) == r.value + Rest() && Failed() == old(Failed())
      ensures r == None ==> Failed() || |old(Rest())| < n
    {
      var buf := "";
      while |buf| < n
        invariant Valid() && old(Rest()) == buf + Rest() && |buf| <= n && Failed() == old(Failed())
        invariant Advanced()
        decreases n - |buf|
      {
        var part := Read(n - |buf|);
        if part == None || part.value == "" {
          return None;
        }
        Associate(buf, part.value, Rest());
        buf := buf + part.value;
      }
      return Some(buf);
    }
  }

  /** A writer that keeps every completed `write_all` as one entry. A write can fail, unless the connection is `steady`. */
  class Sink {
    const steady: bool
    var writes: seq<string>
    var gaveUp: bool

    predicate Failed()
      reads this
    {
      gaveUp && !steady
    }

    constructor (steady: bool)
      ensures writes == [] && this.steady == steady && !Failed()
    {
      this.steady := steady;
      writes := [];
      gaveUp := false;
    }

    method WriteAll(buf: string) returns (ok: bool)
      modifies this
      ensures ok ==> writes == old(writes) + [buf] && Failed() == old(Failed())
      ensures !ok ==> Failed() && writes == old(writes)
    {
      var broke: bool := *;
      if broke && !steady {
        gaveUp := true;
        ok := false;
      } else {
        writes := writes + [buf];
        ok := true;
      }
    }
  }
}
