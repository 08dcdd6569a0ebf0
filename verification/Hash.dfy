/** The chained hash table of src/hash.c. It stores key pointers, so what a key is depends on the
    memory the pointer leads to. */
module Hash {
  import opened Ids
  import opened Options

  const U64: nat := 0x1_0000_0000_0000_0000

  type Addr = nat

  /** The live buffers, by address. */
  type Memory = map<Addr, seq<Byte>>

  /** A stored pair: key pointer, key size, value. */
  datatype Pair<V> = Pair(key: Addr, keysize: nat, value: V)

  type Chain<V> = seq<Pair<V>>

  /** The hash of a key: h(empty) = 5381, h(s + [b]) = 33 * h(s) + b in 64-bit arithmetic. */
  function HashThis(key: seq<Byte>): (h: nat)
    ensures h < U64
  {
    if key == [] then 5381 else (33 * HashThis(key[..|key| - 1]) + key[|key| - 1]) % U64
  }

  /** The hashes of the empty key, of one byte, and of the key db. */
  lemma HashExample(b: Byte)
    ensures HashThis([]) == 5381 && HashThis([b]) == 177573 + b && HashThis([0x64, 0x62]) == 5863307
  {
    hide HashThis;
    HashEmpty();
    HashNext([b], 0);
    assert [b][..0] == [] && [b][..1] == [b];
    var k: seq<Byte> := [0x64, 0x62];
    assert k[..0] == [] && k[..2] == k;
    HashNext(k, 0);
    HashNext(k, 1);
  }

  lemma HashEmpty()
    ensures HashThis([]) == 5381
  {
  }

  lemma HashNext(k: seq<Byte>, i: nat)
    requires i < |k|
    ensures HashThis(k[..i + 1]) == (33 * HashThis(k[..i]) + k[i]) % 0x1_0000_0000_0000_0000
  {
    assert k[..i + 1][..i] == k[..i];
  }

  lemma Wrap(h: nat, b: nat)
    ensures (32 * h % U64 + h + b) % U64 == (33 * h + b) % U64
  {
    var q := 32 * h / U64;
    assert 33 * h + b == q * U64 + (32 * h % U64 + h + b);
  }

  // ---- chains

  /** The key pointer of a pair leads to a live buffer of at least its key size. */
  predicate LivePair<V>(mem: Memory, p: Pair<V>) {
    p.key in mem && p.keysize <= |mem[p.key]|
  }

  function KeyOf<V>(mem: Memory, p: Pair<V>): seq<Byte>
    requires LivePair(mem, p)
  {
    mem[p.key][..p.keysize]
  }

  predicate Live<V>(mem: Memory, c: Chain<V>) {
    forall i :: 0 <= i < |c| ==> LivePair(mem, c[i])
  }

  /** hash_getpair: position of the pair with this key, |c| if there is none. */
  function PairIndex<V>(mem: Memory, c: Chain<V>, key: seq<Byte>): (i: nat)
    requires Live(mem, c)
    ensures i <= |c|
    ensures i < |c| ==> KeyOf(mem, c[i]) == key
    ensures forall j :: 0 <= j < i ==> KeyOf(mem, c[j]) != key
  {
    if c == [] then 0
    else if KeyOf(mem, c[0]) == key then 0
    else
      assert forall j :: 0 <= j < |c[1..]| ==> c[1..][j] == c[j + 1];
      1 + PairIndex(mem, c[1..], key)
  }

  predicate UniqueKeys<V>(mem: Memory, c: Chain<V>)
    requires Live(mem, c)
  {
    forall i, j :: 0 <= i < j < |c| ==> KeyOf(mem, c[i]) != KeyOf(mem, c[j])
  }

  /** A well-formed table: every stored key pointer is live, every pair sits in the chain its key
      hashes to, and no key is stored twice. */
  ghost predicate WellFormed<V>(mem: Memory, bs: seq<Chain<V>>) {
    && |bs| > 0
    && (forall b :: 0 <= b < |bs| ==> Live(mem, bs[b]) && UniqueKeys(mem, bs[b]))
    && (forall b, i :: 0 <= b < |bs| && 0 <= i < |bs[b]|
          ==> HashThis(KeyOf(mem, bs[b][i])) % |bs| == b)
  }

  function Slot<V>(bs: seq<Chain<V>>, key: seq<Byte>): (b: nat)
    requires |bs| > 0
    ensures b < |bs|
  {
    HashThis(key) % |bs|
  }

  // ---- the operations

  /** hash_get: the value stored for a key. */
  function Get<V>(mem: Memory, bs: seq<Chain<V>>, key: seq<Byte>): Option<V>
    requires |bs| > 0 && Live(mem, bs[Slot(bs, key)])
  {
    var c := bs[Slot(bs, key)];
    var i := PairIndex(mem, c, key);
    if i < |c| then Some(c[i].value) else None
  }

  /** hash_put: a known key keeps its old key pointer and gets the new value. */
  function Put<V>(mem: Memory, bs: seq<Chain<V>>, p: Pair<V>): (r: seq<Chain<V>>)
    requires |bs| > 0 && LivePair(mem, p) && Live(mem, bs[Slot(bs, KeyOf(mem, p))])
    ensures |r| == |bs|
  {
    var b := Slot(bs, KeyOf(mem, p));
    var c := bs[b];
    var i := PairIndex(mem, c, KeyOf(mem, p));
    bs[b := if i < |c| then c[i := c[i].(value := p.value)] else c + [p]]
  }

  /** hash_del */
  function Del<V>(mem: Memory, bs: seq<Chain<V>>, key: seq<Byte>): (r: seq<Chain<V>>)
    requires |bs| > 0 && Live(mem, bs[Slot(bs, key)])
    ensures |r| == |bs|
  {
    var b := Slot(bs, key);
    var c := bs[b];
    var i := PairIndex(mem, c, key);
    if i < |c| then bs[b := c[..i] + c[i + 1..]] else bs
  }

  // ---- what they mean

  lemma PairIndexIs<V>(mem: Memory, c: Chain<V>, key: seq<Byte>, i: nat)
    requires Live(mem, c) && i <= |c|
    requires i < |c| ==> KeyOf(mem, c[i]) == key
    requires forall j :: 0 <= j < i ==> KeyOf(mem, c[j]) != key
    ensures PairIndex(mem, c, key) == i
  {
  }

  lemma PutKeys<V>(mem: Memory, bs: seq<Chain<V>>, p: Pair<V>)
    requires WellFormed(mem, bs) && LivePair(mem, p)
    ensures WellFormed(mem, Put(mem, bs, p))
    ensures var c, d := bs[Slot(bs, KeyOf(mem, p))], Put(mem, bs, p)[Slot(bs, KeyOf(mem, p))];
            && Live(mem, c) && Live(mem, d) && |c| <= |d|
            && forall j :: 0 <= j < |d| ==> KeyOf(mem, d[j]) == if j < |c| then KeyOf(mem, c[j]) else KeyOf(mem, p)
  {
    hide HashThis;
    var c, d := bs[Slot(bs, KeyOf(mem, p))], Put(mem, bs, p)[Slot(bs, KeyOf(mem, p))];
    assert Live(mem, d);
    assert forall j :: 0 <= j < |d| ==> KeyOf(mem, d[j]) == if j < |c| then KeyOf(mem, c[j]) else KeyOf(mem, p);
  }

  /** hash_put is the map update: the key has the new value, every other key its old one. */
  lemma PutUpdates<V>(mem: Memory, bs: seq<Chain<V>>, p: Pair<V>)
    requires WellFormed(mem, bs) && LivePair(mem, p)
    ensures WellFormed(mem, Put(mem, bs, p))
    ensures forall k :: Get(mem, Put(mem, bs, p), k)
                     == if k == KeyOf(mem, p) then Some(p.value) else Get(mem, bs, k)
  {
    hide HashThis;
    var key := KeyOf(mem, p);
    var b := Slot(bs, key);
    var c := bs[b];
    var i := PairIndex(mem, c, key);
    var r := Put(mem, bs, p);
    var d := r[b];
    PutKeys(mem, bs, p);
    hide WellFormed;
    forall k
      ensures Get(mem, r, k) == if k == key then Some(p.value) else Get(mem, bs, k)
    {
      if Slot(bs, k) == b {
        var j := if k == key then i else PairIndex(mem, c, k);
        if k != key && j == |c| {
          PairIndexIs(mem, d, k, |d|);
        } else {
          PairIndexIs(mem, d, k, j);
        }
      }
    }
  }

  /** hash_del is the map removal: the key is gone, every other key keeps its value. */
  lemma DelRemoves<V>(mem: Memory, bs: seq<Chain<V>>, key: seq<Byte>)
    requires WellFormed(mem, bs)
    ensures WellFormed(mem, Del(mem, bs, key))
    ensures forall k :: Get(mem, Del(mem, bs, key), k)
                     == if k == key then None else Get(mem, bs, k)
  {
    hide HashThis;
    var b := Slot(bs, key);
    var c := bs[b];
    var i := PairIndex(mem, c, key);
    var r := Del(mem, bs, key);
    if i < |c| {
      var d := r[b];
      assert forall j :: 0 <= j < |d| ==> d[j] == c[if j < i then j else j + 1];
      assert Live(mem, d);
      forall k
        ensures Get(mem, r, k) == if k == key then None else Get(mem, bs, k)
      {
        if Slot(bs, k) == b {
          var j := PairIndex(mem, c, k);
          if k == key {
            PairIndexIs(mem, d, k, |d|);
          } else {
            PairIndexIs(mem, d, k, if j < i then j else j - 1);
          }
        }
      }
    }
  }

  /** A table looks the same in any memory that agrees on the stored keys. */
  lemma SameKeysSameTable<V>(mem: Memory, mem': Memory, bs: seq<Chain<V>>)
    requires WellFormed(mem, bs)
    requires forall b, i :: 0 <= b < |bs| && 0 <= i < |bs[b]| ==>
               LivePair(mem', bs[b][i]) && KeyOf(mem', bs[b][i]) == KeyOf(mem, bs[b][i])
    ensures WellFormed(mem', bs)
    ensures forall k :: Get(mem', bs, k) == Get(mem, bs, k)
  {
    hide HashThis;
    forall k
      ensures Get(mem', bs, k) == Get(mem, bs, k)
    {
      var c := bs[Slot(bs, k)];
      PairIndexIs(mem', c, k, PairIndex(mem, c, k));
    }
  }

  /** q is an old pair, the pair put, or an old pair of the same key with the new value. */
  ghost predicate FromPut<V>(mem: Memory, c: Chain<V>, p: Pair<V>, q: Pair<V>)
    requires LivePair(mem, p) && Live(mem, c)
  {
    || q in c
    || q == p
    || (exists j :: 0 <= j < |c| && KeyOf(mem, c[j]) == KeyOf(mem, p)
                    && q == c[j].(value := p.value))
  }

  /** The pairs after a put: the old ones, and one with the key and the value put. */
  lemma PairsOfPut<V>(mem: Memory, bs: seq<Chain<V>>, p: Pair<V>, b: nat, i: nat)
    requires WellFormed(mem, bs) && LivePair(mem, p)
    requires b < |bs| && i < |Put(mem, bs, p)[b]|
    ensures FromPut(mem, bs[b], p, Put(mem, bs, p)[b][i])
  {
    hide HashThis;
    var c := bs[Slot(bs, KeyOf(mem, p))];
    var k := PairIndex(mem, c, KeyOf(mem, p));
    if b == Slot(bs, KeyOf(mem, p)) && i == k && k < |c| {
      assert c[k] in bs[b];
    }
  }

  /** The pairs after a deletion: old ones with another key. */
  lemma PairsOfDel<V>(mem: Memory, bs: seq<Chain<V>>, key: seq<Byte>, b: nat, i: nat)
    requires WellFormed(mem, bs)
    requires b < |bs| && i < |Del(mem, bs, key)[b]|
    ensures var q := Del(mem, bs, key)[b][i];
            q in bs[b] && LivePair(mem, q) && KeyOf(mem, q) != key
  {
    hide HashThis;
    var c := bs[b];
    var k := PairIndex(mem, c, key);
    if b == Slot(bs, key) && k < |c| {
      var j := if i < k then i else i + 1;
      assert Del(mem, bs, key)[b][i] == c[j];
    } else if b != Slot(bs, key) {
      assert HashThis(KeyOf(mem, c[i])) % |bs| == b;
    }
  }

  // ---- runs

  datatype Op<V> = PutOp(p: Pair<V>) | DelOp(key: seq<Byte>)

  predicate LiveOp<V>(mem: Memory, op: Op<V>) {
    op.PutOp? ==> LivePair(mem, op.p)
  }

  /** The run of the operations on a finite map from byte strings to values. */
  function MapRun<V>(mem: Memory, ops: seq<Op<V>>): map<seq<Byte>, V>
    requires forall op :: op in ops ==> LiveOp(mem, op)
  {
    if ops == [] then map[]
    else
      var m, op := MapRun(mem, ops[..|ops| - 1]), ops[|ops| - 1];
      assert op in ops && LiveOp(mem, op);
      match op
      case PutOp(p) => m[KeyOf(mem, p) := p.value]
      case DelOp(key) => m - {key}
  }

  /** The same run on an empty hash table of some capacity. */
  function HashRun<V>(mem: Memory, capacity: nat, ops: seq<Op<V>>): (bs: seq<Chain<V>>)
    requires capacity > 0 && forall op :: op in ops ==> LiveOp(mem, op)
    ensures WellFormed(mem, bs) && |bs| == capacity
  {
    if ops == [] then seq(capacity, i => [])
    else
      var bs, op := HashRun(mem, capacity, ops[..|ops| - 1]), ops[|ops| - 1];
      assert op in ops && LiveOp(mem, op);
      match op
      case PutOp(p) => PutUpdates(mem, bs, p); Put(mem, bs, p)
      case DelOp(key) => DelRemoves(mem, bs, key); Del(mem, bs, key)
  }

  /** For every capacity and every run of puts and deletions, hash_get answers as the map does. */
  lemma {:induction false} HashRefinesMap<V>(mem: Memory, capacity: nat, ops: seq<Op<V>>, k: seq<Byte>)
    requires capacity > 0 && forall op :: op in ops ==> LiveOp(mem, op)
    ensures var m := MapRun(mem, ops);
            Get(mem, HashRun(mem, capacity, ops), k) == if k in m then Some(m[k]) else None
    decreases |ops|
  {
    hide HashThis, Get, Put, Del;
    if ops == [] {
      EmptyTable<V>(mem, capacity, k);
    } else {
      var rest, op := ops[..|ops| - 1], ops[|ops| - 1];
      HashRefinesMap(mem, capacity, rest, k);
      var bs := HashRun(mem, capacity, rest);
      assert op in ops && LiveOp(mem, op);
      match op {
        case PutOp(p) => PutUpdates(mem, bs, p);
        case DelOp(key) => DelRemoves(mem, bs, key);
      }
    }
  }

  lemma EmptyTable<V>(mem: Memory, capacity: nat, k: seq<Byte>)
    requires capacity > 0
    ensures WellFormed<V>(mem, seq(capacity, i => []))
    ensures Get<V>(mem, seq(capacity, i => []), k) == None
  {
    hide HashThis;
  }

  // ---- the object

  class HashMap<V> {
    const buckets: array<Chain<V>>

    ghost predicate Valid(mem: Memory)
      reads buckets
    {
      WellFormed(mem, buckets[..])
    }

    /** hash_init */
    constructor (capacity: nat, ghost mem: Memory)
      requires capacity > 0
      ensures Valid(mem) && fresh(buckets)
      ensures forall b :: 0 <= b < buckets.Length ==> buckets[b] == []
      ensures forall k :: Get(mem, buckets[..], k) == None
    {
      buckets := new Chain<V>[capacity](i => []);
      new;
      assert buckets[..] == seq(capacity, i => []);
      forall k
        ensures Get<V>(mem, buckets[..], k) == None
      {
        EmptyTable<V>(mem, capacity, k);
      }
      EmptyTable<V>(mem, capacity, []);
    }

    /** hash_this */
    static method HashKey(key: seq<Byte>) returns (h: nat)
      ensures h == HashThis(key)
    {
      h := 5381;
      for i := 0 to |key|
        invariant h == HashThis(key[..i])
      {
        assert key[..i + 1][..i] == key[..i];
        Wrap(h, key[i]);
        h := (32 * h % U64 + h + key[i]) % U64;
      }
      assert key[..|key|] == key;
    }

    /** hash_getpair: the sizes are compared before the bytes. */
    static method GetPair(mem: Memory, c: Chain<V>, key: seq<Byte>) returns (i: nat)
      requires Live(mem, c)
      ensures i == PairIndex(mem, c, key)
    {
      i := 0;
      while i < |c|
        invariant i <= |c|
        invariant forall j :: 0 <= j < i ==> KeyOf(mem, c[j]) != key
      {
        assert LivePair(mem, c[i]);
        if c[i].keysize == |key| {
          if MemCmp(mem[c[i].key][..c[i].keysize], key) == 0 {
            MemCmpOrdersValues(KeyOf(mem, c[i]), key);
            PairIndexIs(mem, c, key, i);
            return;
          }
          MemCmpOrdersValues(KeyOf(mem, c[i]), key);
        }
        i := i + 1;
      }
      PairIndexIs(mem, c, key, i);
    }

    /** hash_get */
    method HashGet(mem: Memory, key: seq<Byte>) returns (v: Option<V>)
      requires Valid(mem)
      ensures v == Get(mem, buckets[..], key)
    {
      hide HashThis;
      var h := HashKey(key);
      var index := h % buckets.Length;
      assert buckets[..][index] == buckets[index];
      var i := GetPair(mem, buckets[index], key);
      if i == |buckets[index]| {
        return None;
      }
      return Some(buckets[index][i].value);
    }

    /** hash_put. A NULL value is refused. */
    method HashPut(mem: Memory, key: Addr, keysize: nat, value: Option<V>) returns (ok: bool)
      requires Valid(mem) && key in mem && keysize <= |mem[key]|
      modifies buckets
      ensures Valid(mem)
      ensures ok <==> value.Some?
      ensures ok ==> buckets[..] == Put(mem, old(buckets[..]), Pair(key, keysize, value.value))
      ensures !ok ==> buckets[..] == old(buckets[..])
    {
      hide HashThis;
      if value.None? {
        return false;
      }
      var p := Pair(key, keysize, value.value);
      PutUpdates(mem, buckets[..], p);
      var h := HashKey(mem[key][..keysize]);
      var index := h % buckets.Length;
      assert buckets[..][index] == buckets[index];
      var c := buckets[index];
      var i := GetPair(mem, c, mem[key][..keysize]);
      if i < |c| {
        buckets[index] := c[i := c[i].(value := p.value)];
      } else {
        buckets[index] := c + [p];
      }
      return true;
    }

    /** hash_del: the chain is copied without the pair. */
    method HashDel(mem: Memory, key: seq<Byte>)
      requires Valid(mem)
      modifies buckets
      ensures Valid(mem)
      ensures buckets[..] == Del(mem, old(buckets[..]), key)
    {
      hide HashThis;
      DelRemoves(mem, buckets[..], key);
      var h := HashKey(key);
      var index := h % buckets.Length;
      assert buckets[..][index] == buckets[index];
      var c := buckets[index];
      var thispair := GetPair(mem, c, key);
      if thispair == |c| {
        return;
      }
      if |c| == 1 {
        buckets[index] := [];
        assert c[..thispair] + c[thispair + 1..] == [];
      } else {
        buckets[index] := CopyExcept(c, thispair);
      }
    }

    /** The copying loop of hash_del. */
    static method CopyExcept(c: Chain<V>, thispair: nat) returns (newpairs: Chain<V>)
      requires thispair < |c|
      ensures newpairs == c[..thispair] + c[thispair + 1..]
    {
      newpairs := [];
      for i := 0 to |c|
        invariant newpairs == if i <= thispair then c[..i] else c[..thispair] + c[thispair + 1..i]
      {
        if i != thispair {
          newpairs := newpairs + [c[i]];
        }
      }
    }
  }
}
