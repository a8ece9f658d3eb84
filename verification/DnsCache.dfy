/** The answer cache: it forgets entries, but never in a way a caller can see. Times are in milliseconds. */
module DnsCache {
  import opened Text
  import opened Numbers
  import opened Bytes
  import opened DnsCodec

  const CACHE_TTL_CAP := 594_000
  const CACHE_MAX_ENTRIES := 1024

  /** Who gave an answer: a DNS server (None is the system resolver) or a DoH endpoint. */
  datatype Source = Udp(server: Option<seq<Byte>>) | Doh(url: string)

  datatype Key = Key(host: string, source: Source, qtype: QType)

  datatype Entry = Entry(ips: seq<seq<Byte>>, storedAt: nat, ttl: nat)

  type Table = map<Key, Entry>

  /** The lifetime of an answer: what the response says, but at most the cap; zero means it said nothing. */
  function CacheTtl(minTtlSecs: nat): (r: nat)
    ensures 0 < minTtlSecs < 594 ==> r == 1000 * minTtlSecs
    ensures minTtlSecs == 0 || minTtlSecs >= 594 ==> r == 594_000
  {
    if minTtlSecs == 0 then CACHE_TTL_CAP else Min(1000 * minTtlSecs, CACHE_TTL_CAP)
  }

  predicate Fresh(e: Entry, now: nat) {
    now - e.storedAt < e.ttl
  }

  function Served(t: Table, key: Key, now: nat): Option<seq<seq<Byte>>> {
    if key in t && Fresh(t[key], now) then Some(t[key].ips) else None
  }

  function AfterGet(t: Table, key: Key, now: nat): Table {
    if key in t && !Fresh(t[key], now) then t - {key} else t
  }

  function Pruned(t: Table, now: nat): Table {
    if |t| >= CACHE_MAX_ENTRIES then map k | k in t && Fresh(t[k], now) :: t[k] else t
  }

  /** An entry is fresh for its lifetime, and a full table drops exactly those that are not. */
  lemma PrunedIs(t: Table, now: nat, k: Key)
    ensures k in t ==> (Fresh(t[k], now) <==> now < t[k].storedAt + t[k].ttl)
    ensures |t| < 1024 ==> Pruned(t, now) == t
    ensures |t| >= 1024 ==> (k in Pruned(t, now) <==> k in t && now < t[k].storedAt + t[k].ttl)
    ensures k in Pruned(t, now) ==> k in t && Pruned(t, now)[k] == t[k]
  {}

  function AfterPut(t: Table, key: Key, ips: seq<seq<Byte>>, ttl: nat, now: nat): Table {
    if ips == [] then t else Pruned(t, now)[key := Entry(ips, now, ttl)]
  }

  class Cache {
    var table: Table

    constructor ()
      ensures table == map[]
    {
      table := map[];
    }

    method Get(key: Key, now: nat) returns (ips: Option<seq<seq<Byte>>>)
      modifies this
      ensures ips == Served(old(table), key, now) && table == AfterGet(old(table), key, now)
    {
      if key in table {
        if Fresh(table[key], now) {
          return Some(table[key].ips);
        }
        table := table - {key};
      }
      ips := None;
    }

    method DropExpired(now: nat)
      modifies this
      ensures table == map k | k in old(table) && Fresh(old(table)[k], now) :: old(table)[k]
    {
      var expired := set k | k in table && !Fresh(table[k], now);
      var left := expired;
      while left != {}
        invariant left <= expired
        invariant forall k :: k in table <==> k in old(table) && (k in expired ==> k in left)
        invariant forall k :: k in table ==> table[k] == old(table)[k]
        decreases |left|
      {
        var k :| k in left;
        table := table - {k};
        left := left - {k};
      }
    }

    method Put(key: Key, ips: seq<seq<Byte>>, ttl: nat, now: nat)
      modifies this
      ensures table == AfterPut(old(table), key, ips, ttl, now)
    {
      if ips == [] {
        return;
      }
      if |table| >= CACHE_MAX_ENTRIES {
        DropExpired(now);
      }
      table := table[key := Entry(ips, now, ttl)];
    }

    /** A cached lookup: on a miss the resolver's answer is stored for its own lifetime and returned. */
    method Resolve(key: Key, asked: nat, answer: (seq<seq<Byte>>, nat), answered: nat)
      returns (ips: seq<seq<Byte>>, cached: bool)
      requires asked <= answered
      modifies this
      ensures cached <==> Served(old(table), key, asked).Some?
      ensures cached ==> ips == Served(old(table), key, asked).value && table == old(table)
      ensures !cached ==> ips == answer.0
                          && table == AfterPut(AfterGet(old(table), key, asked), key, ips, CacheTtl(answer.1), answered)
    {
      var hit := Get(key, asked);
      if hit.Some? {
        return hit.value, true;
      }
      Put(key, answer.0, CacheTtl(answer.1), answered);
      return answer.0, false;
    }
  }

  // ---------------------------------------------------------------- traces

  datatype Op =
    | GetOp(key: Key, now: nat)
    | PutOp(key: Key, ips: seq<seq<Byte>>, ttl: nat, now: nat)

  predicate InOrder(ops: seq<Op>) {
    forall i, j :: 0 <= i < j < |ops| ==> ops[i].now <= ops[j].now
  }

  function AfterOp(t: Table, op: Op): Table {
    match op
    case GetOp(key, now) => AfterGet(t, key, now)
    case PutOp(key, ips, ttl, now) => AfterPut(t, key, ips, ttl, now)
  }

  function AfterAll(ops: seq<Op>): Table {
    if ops == [] then map[] else AfterOp(AfterAll(ops[..|ops| - 1]), ops[|ops| - 1])
  }

  /** What a map that never evicts holds: the last non-empty answer stored under the key. */
  function Latest(ops: seq<Op>, key: Key): Option<Entry> {
    if ops == [] then None
    else
      var op := ops[|ops| - 1];
      if op.PutOp? && op.key == key && op.ips != [] then Some(Entry(op.ips, op.now, op.ttl)) else Latest(ops[..|ops| - 1], key)
  }

  /** The cache holds only latest entries, and misses only expired ones. */
  ghost predicate Agrees(t: Table, ops: seq<Op>, now: nat) {
    && (forall k :: k in t ==> Latest(ops, k) == Some(t[k]))
    && (forall k :: Latest(ops, k).Some? && k !in t ==> !Fresh(Latest(ops, k).value, now))
  }

  lemma {:induction false} CacheAgrees(ops: seq<Op>, now: nat)
    requires InOrder(ops) && (ops != [] ==> ops[|ops| - 1].now <= now)
    ensures Agrees(AfterAll(ops), ops, now)
    decreases |ops|
  {
    if ops != [] {
      var before, op := ops[..|ops| - 1], ops[|ops| - 1];
      CacheAgrees(before, op.now);
      OneMoreOp(AfterAll(before), before, op, now);
      assert before + [op] == ops;
    }
  }

  lemma OneMoreOp(t: Table, ops: seq<Op>, op: Op, now: nat)
    requires Agrees(t, ops, op.now) && op.now <= now
    ensures Agrees(AfterOp(t, op), ops + [op], now)
  {
    assert (ops + [op])[..|ops|] == ops;
    var stores := op.PutOp? && op.ips != [];
    forall k ensures Latest(ops + [op], k) == if stores && op.key == k then Some(Entry(op.ips, op.now, op.ttl)) else Latest(ops, k) {}
  }

  /**
   Under a clock that never goes back, every lookup in every trace answers as a map that never evicts
   would.
   */
  lemma {:induction false} AnswersLikeUnboundedMap(ops: seq<Op>, key: Key, now: nat)
    requires InOrder(ops) && (ops != [] ==> ops[|ops| - 1].now <= now)
    ensures var latest := Latest(ops, key);
            Served(AfterAll(ops), key, now) == if latest.Some? && Fresh(latest.value, now) then Some(latest.value.ips) else None
  {
    CacheAgrees(ops, now);
  }

  lemma {:induction false} LatestWasPut(ops: seq<Op>, key: Key) returns (k: nat)
    requires Latest(ops, key).Some?
    ensures k < |ops| && ops[k].PutOp? && ops[k].key == key && ops[k].ips != []
    ensures Latest(ops, key) == Some(Entry(ops[k].ips, ops[k].now, ops[k].ttl))
    ensures forall j :: k < j < |ops| ==> !(ops[j].PutOp? && ops[j].key == key && ops[j].ips != [])
  {
    var op := ops[|ops| - 1];
    if op.PutOp? && op.key == key && op.ips != [] {
      k := |ops| - 1;
    } else {
      k := LatestWasPut(ops[..|ops| - 1], key);
    }
  }

  /**
   A served answer is not empty and is the last one stored under the same host, resolver and type; if
   lifetimes go through `CacheTtl`, it is younger than 594 seconds.
   */
  lemma ServedAnswersAreYoung(ops: seq<Op>, key: Key, now: nat) returns (k: nat)
    requires InOrder(ops) && (ops != [] ==> ops[|ops| - 1].now <= now)
    requires Served(AfterAll(ops), key, now).Some?
    ensures k < |ops| && ops[k].PutOp? && ops[k].key == key && ops[k].ips != []
    ensures Served(AfterAll(ops), key, now) == Some(ops[k].ips)
    ensures forall j :: k < j < |ops| ==> !(ops[j].PutOp? && ops[j].key == key && ops[j].ips != [])
    ensures forall secs: nat :: ops[k].ttl == CacheTtl(secs) ==> 0 <= now - ops[k].now < CACHE_TTL_CAP
  {
    CacheAgrees(ops, now);
    k := LatestWasPut(ops, key);
  }

  /** Looking up changes no later answer. */
  lemma LookupsAreInvisible(ops: seq<Op>, get: Op, more: seq<Op>, key: Key, now: nat)
    requires get.GetOp? && InOrder(ops + [get] + more)
    requires ops + [get] + more != [] ==> (ops + [get] + more)[|ops + [get] + more| - 1].now <= now
    ensures Served(AfterAll(ops + [get] + more), key, now) == Served(AfterAll(ops + more), key, now)
  {
    LatestSkipsGet(ops, get, more, key);
    var whole, less := ops + [get] + more, ops + more;
    forall i, j | 0 <= i < j < |less| ensures less[i].now <= less[j].now {
      var i' := if i < |ops| then i else i + 1;
      var j' := if j < |ops| then j else j + 1;
      assert less[i] == whole[i'] && less[j] == whole[j'];
    }
    if less != [] && more == [] {
      assert less[|less| - 1] == whole[|less| - 1];
    }
    AnswersLikeUnboundedMap(whole, key, now);
    AnswersLikeUnboundedMap(less, key, now);
  }

  lemma {:induction false} LatestSkipsGet(ops: seq<Op>, get: Op, more: seq<Op>, key: Key)
    requires get.GetOp?
    ensures Latest(ops + [get] + more, key) == Latest(ops + more, key)
    decreases |more|
  {
    if more == [] {
      assert ops + [get] + more == ops + [get] && (ops + [get])[..|ops|] == ops && ops + more == ops;
    } else {
      var front, last := more[..|more| - 1], more[|more| - 1];
      assert (ops + [get] + more)[..|ops + [get] + more| - 1] == ops + [get] + front;
      assert (ops + more)[..|ops + more| - 1] == ops + front;
      LatestSkipsGet(ops, get, front, key);
    }
  }

  /** The bound on entries is not a hard one: entries that are still fresh are never dropped. */
  lemma FreshEntriesStay(t: Table, key: Key, ips: seq<seq<Byte>>, ttl: nat, now: nat, other: Key)
    requires other in t && Fresh(t[other], now) && other != key
    ensures other in AfterPut(t, key, ips, ttl, now) && AfterPut(t, key, ips, ttl, now)[other] == t[other]
  {}
}
