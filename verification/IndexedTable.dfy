/** A list of heap payloads with a hash index on their ids: the shape that cache, database, lookup
    and announce tables share (src/cache.c, src/database.c, src/lookup.c, src/announce.c). The index
    stores pointers into the payloads as its keys. */
module IndexedTable {
  import opened Ids
  import opened Options
  import opened Hash

  /** A payload object: its id, and what the particular table keeps with it. */
  datatype Payload<X> = Payload(id: Id, body: X)

  /** What the key pointers of the index lead to: the id inside each live payload. */
  function MemOf<X>(heap: map<Addr, Payload<X>>): Memory {
    map a | a in heap :: heap[a].id
  }

  /** The linear search the index stands for: the first listed payload with this id. */
  function Scan<X>(heap: map<Addr, Payload<X>>, list: seq<Addr>, id: Id): (v: Option<Addr>)
    requires forall a :: a in list ==> a in heap
    ensures v.Some? ==> v.value in list && heap[v.value].id == id
    ensures v.None? <==> NewId(heap, list, id)
  {
    if list == [] then None
    else if heap[list[0]].id == id then Some(list[0])
    else Scan(heap, list[1..], id)
  }

  /** No listed payload has this id. */
  predicate NewId<X>(heap: map<Addr, Payload<X>>, list: seq<Addr>, id: Id)
    requires forall a :: a in list ==> a in heap
  {
    forall a :: a in list ==> heap[a].id != id
  }

  predicate NoDuplicates(list: seq<Addr>) {
    forall i, j :: 0 <= i < j < |list| ==> list[i] != list[j]
  }

  predicate DistinctIds<X>(heap: map<Addr, Payload<X>>, list: seq<Addr>)
    requires forall a :: a in list ==> a in heap
  {
    forall i, j :: 0 <= i < j < |list| ==> heap[list[i]].id != heap[list[j]].id
  }

  /** A pair with a live key pointer of id size, and a value that is a live payload with that id. */
  predicate SafePair<X>(heap: map<Addr, Payload<X>>, p: Pair<Addr>) {
    && p.key in heap && p.keysize == ID_LENGTH
    && p.value in heap && heap[p.value].id == heap[p.key].id
  }

  ghost predicate SafePairs<X>(heap: map<Addr, Payload<X>>, bs: seq<Chain<Addr>>) {
    forall b, i :: 0 <= b < |bs| && 0 <= i < |bs[b]| ==> SafePair(heap, bs[b][i])
  }

  /** No key pointer and no item pointer of the index dangles, whatever ids were inserted. */
  ghost predicate SafeState<X>(heap: map<Addr, Payload<X>>, list: seq<Addr>, bs: seq<Chain<Addr>>) {
    && WellFormed(MemOf(heap), bs)
    && SafePairs(heap, bs)
    && NoDuplicates(list)
    && (forall a :: a in list <==> a in heap)
  }

  /** The index finds every listed payload, so no two share an id. */
  ghost predicate Complete<X>(heap: map<Addr, Payload<X>>, list: seq<Addr>, bs: seq<Chain<Addr>>)
    requires SafeState(heap, list, bs)
  {
    forall a :: a in list ==> Get(MemOf(heap), bs, heap[a].id) == Some(a)
  }

  lemma CompleteDistinct<X>(heap: map<Addr, Payload<X>>, list: seq<Addr>, bs: seq<Chain<Addr>>)
    requires SafeState(heap, list, bs) && Complete(heap, list, bs)
    ensures DistinctIds(heap, list)
  {
    forall i, j | 0 <= i < j < |list|
      ensures heap[list[i]].id != heap[list[j]].id
    {
      assert list[i] in list && list[j] in list;
    }
  }

  lemma FoundIsListed<X>(heap: map<Addr, Payload<X>>, list: seq<Addr>, bs: seq<Chain<Addr>>, id: Id)
    requires SafeState(heap, list, bs)
    ensures var v := Get(MemOf(heap), bs, id);
            v.Some? ==> v.value in list && heap[v.value].id == id
  {
    hide HashThis;
    var mem := MemOf(heap);
    var c := bs[Slot(bs, id)];
    var i := PairIndex(mem, c, id);
    if i < |c| {
      assert LivePair(mem, c[i]) && KeyOf(mem, c[i]) == heap[c[i].key].id;
    }
  }

  /** Looking an id up in the index is scanning the list for it. */
  lemma IndexIsScan<X>(heap: map<Addr, Payload<X>>, list: seq<Addr>, bs: seq<Chain<Addr>>, id: Id)
    requires SafeState(heap, list, bs) && Complete(heap, list, bs)
    ensures Get(MemOf(heap), bs, id) == Scan(heap, list, id)
  {
    hide Get, Scan;
    FoundIsListed(heap, list, bs, id);
  }

  /** Entering a payload at a fresh address keeps the table safe, even when the id is taken; the
      index stays complete exactly when the id was new. */
  lemma InsertKeeps<X>(heap: map<Addr, Payload<X>>, list: seq<Addr>, bs: seq<Chain<Addr>>,
                       a: Addr, p: Payload<X>)
    requires SafeState(heap, list, bs) && a !in heap
    ensures var heap', list' := heap[a := p], list + [a];
            var q := Pair(a, ID_LENGTH, a);
            && WellFormed(MemOf(heap'), bs)
            && SafeState(heap', list', Put(MemOf(heap'), bs, q))
            && (Complete(heap, list, bs) ==>
                  (Complete(heap', list', Put(MemOf(heap'), bs, q)) <==> NewId(heap, list, p.id)))
  {
    hide HashThis, Put, Get;
    var heap', list' := heap[a := p], list + [a];
    var mem, mem', q := MemOf(heap), MemOf(heap'), Pair(a, ID_LENGTH, a);
    SameKeysSameTable(mem, mem', bs);
    PutUpdates(mem', bs, q);
    var bs' := Put(mem', bs, q);
    InsertPairs(heap, bs, a, p);
    assert KeyOf(mem', q) == p.id;
    if Complete(heap, list, bs) {
      if !NewId(heap, list, p.id) {
        var x :| x in list && heap[x].id == p.id;
        assert x in list' && Get(mem', bs', p.id) == Some(a);
      } else {
        forall x | x in list'
          ensures Get(mem', bs', heap'[x].id) == Some(x)
        {
        }
      }
    }
  }

  lemma InsertPairs<X>(heap: map<Addr, Payload<X>>, bs: seq<Chain<Addr>>, a: Addr, p: Payload<X>)
    requires WellFormed(MemOf(heap), bs) && SafePairs(heap, bs) && a !in heap
    requires WellFormed(MemOf(heap[a := p]), bs)
    ensures SafePairs(heap[a := p], Put(MemOf(heap[a := p]), bs, Pair(a, ID_LENGTH, a)))
  {
    hide HashThis, Put;
    var heap', q := heap[a := p], Pair(a, ID_LENGTH, a);
    var bs' := Put(MemOf(heap'), bs, q);
    forall b: nat, i: nat | b < |bs'| && i < |bs'[b]|
      ensures SafePair(heap', bs'[b][i])
    {
      PairsOfPut(MemOf(heap'), bs, q, b, i);
    }
  }

  function Without(list: seq<Addr>, a: Addr): (r: seq<Addr>)
    requires a in list
  {
    if list[0] == a then list[1..] else [list[0]] + Without(list[1..], a)
  }

  lemma {:induction false} WithoutKeepsOthers(list: seq<Addr>, a: Addr)
    requires a in list && NoDuplicates(list)
    ensures NoDuplicates(Without(list, a))
    ensures forall x :: x in Without(list, a) <==> x in list && x != a
    decreases |list|
  {
    assert list == [list[0]] + list[1..];
    forall x | x in list[1..]
      ensures x != list[0]
    {
      var k :| 0 <= k < |list[1..]| && list[1..][k] == x;
      assert list[k + 1] == x;
    }
    if list[0] != a {
      WithoutKeepsOthers(list[1..], a);
      var w := Without(list[1..], a);
      forall i, j | 0 <= i < j < |w| + 1
        ensures ([list[0]] + w)[i] != ([list[0]] + w)[j]
      {
        assert w[j - 1] in w;
      }
    }
  }

  /** Removing a listed payload, its index entry first, keeps the table safe and a complete index
      complete. */
  lemma RemoveKeeps<X>(heap: map<Addr, Payload<X>>, list: seq<Addr>, bs: seq<Chain<Addr>>, a: Addr)
    requires SafeState(heap, list, bs) && a in list
    ensures var heap', list' := heap - {a}, Without(list, a);
            var bs' := Del(MemOf(heap), bs, heap[a].id);
            && SafeState(heap', list', bs')
            && (Complete(heap, list, bs) ==> Complete(heap', list', bs'))
  {
    hide HashThis, Del, Get, Without, NoDuplicates;
    var heap', list' := heap - {a}, Without(list, a);
    var mem, mem', id := MemOf(heap), MemOf(heap'), heap[a].id;
    var bs' := Del(mem, bs, id);
    DelRemoves(mem, bs, id);
    WithoutKeepsOthers(list, a);
    forall b: nat, i: nat | b < |bs'| && i < |bs'[b]|
      ensures SafePair(heap', bs'[b][i])
      ensures LivePair(mem', bs'[b][i]) && KeyOf(mem', bs'[b][i]) == KeyOf(mem, bs'[b][i])
    {
      PairsOfDel(mem, bs, id, b, i);
    }
    SameKeysSameTable(mem, mem', bs');
    if Complete(heap, list, bs) {
      CompleteDistinct(heap, list, bs);
      forall x | x in list'
        ensures Get(mem', bs', heap'[x].id) == Some(x)
      {
        assert Get(mem, bs, heap[x].id) == Some(x) && Get(mem, bs, heap[a].id) == Some(a);
      }
    }
  }

  lemma SetBodyKeeps<X>(heap: map<Addr, Payload<X>>, list: seq<Addr>, bs: seq<Chain<Addr>>,
                        a: Addr, body: X)
    requires SafeState(heap, list, bs) && a in heap
    ensures var heap' := heap[a := heap[a].(body := body)];
            && SafeState(heap', list, bs)
            && Indexed(heap', list, bs) == Indexed(heap, list, bs)
            && (Complete(heap, list, bs) ==> Complete(heap', list, bs))
  {
    hide HashThis, Get, WellFormed;
    var heap' := heap[a := heap[a].(body := body)];
    assert MemOf(heap') == MemOf(heap);
    forall b, i | 0 <= b < |bs| && 0 <= i < |bs[b]|
      ensures SafePair(heap', bs[b][i])
    {
      assert SafePair(heap, bs[b][i]);
    }
  }

  /** The ids that the index finds, each with what it finds. */
  ghost function Indexed<X>(heap: map<Addr, Payload<X>>, list: seq<Addr>, bs: seq<Chain<Addr>>): (m: map<Id, Addr>)
    requires SafeState(heap, list, bs)
    ensures forall id: Id :: Get(MemOf(heap), bs, id) == if id in m then Some(m[id]) else None
    ensures forall id :: id in m ==> m[id] in heap && m[id] in list && heap[m[id]].id == id
  {
    hide Get;
    var ids := set a | a in heap :: heap[a].id;
    assert forall id: Id ::
        Get(MemOf(heap), bs, id).Some? ==>
          var a := Get(MemOf(heap), bs, id).value; a in list && a in heap && heap[a].id == id by {
      forall id: Id | Get(MemOf(heap), bs, id).Some?
        ensures var a := Get(MemOf(heap), bs, id).value; a in list && a in heap && heap[a].id == id
      {
        FoundIsListed(heap, list, bs, id);
      }
    }
    map id | id in ids && Get(MemOf(heap), bs, id).Some? :: Get(MemOf(heap), bs, id).value
  }

  lemma IndexedIs<X>(heap: map<Addr, Payload<X>>, list: seq<Addr>, bs: seq<Chain<Addr>>, m: map<Id, Addr>)
    requires SafeState(heap, list, bs)
    requires forall id: Id :: Get(MemOf(heap), bs, id) == if id in m then Some(m[id]) else None
    ensures Indexed(heap, list, bs) == m
  {
    hide Get, Indexed;
    var i := Indexed(heap, list, bs);
    forall id: Id
      ensures id in i <==> id in m
      ensures id in m ==> i[id] == m[id]
    {
      assert Get(MemOf(heap), bs, id) == if id in i then Some(i[id]) else None;
    }
  }

  /** Entering a payload is the map update, on the index. */
  lemma InsertIndexed<X>(heap: map<Addr, Payload<X>>, list: seq<Addr>, bs: seq<Chain<Addr>>,
                         a: Addr, p: Payload<X>)
    requires SafeState(heap, list, bs) && a !in heap
    ensures var heap', list' := heap[a := p], list + [a];
            var q := Pair(a, ID_LENGTH, a);
            && WellFormed(MemOf(heap'), bs)
            && SafeState(heap', list', Put(MemOf(heap'), bs, q))
            && Indexed(heap', list', Put(MemOf(heap'), bs, q)) == Indexed(heap, list, bs)[p.id := a]
  {
    hide HashThis, Get, Put, Indexed;
    InsertKeeps(heap, list, bs, a, p);
    var heap', list' := heap[a := p], list + [a];
    var mem, mem', q := MemOf(heap), MemOf(heap'), Pair(a, ID_LENGTH, a);
    SameKeysSameTable(mem, mem', bs);
    PutUpdates(mem', bs, q);
    assert KeyOf(mem', q) == p.id;
    IndexedIs(heap', list', Put(mem', bs, q), Indexed(heap, list, bs)[p.id := a]);
  }

  /** Removing a payload is the map removal, on the index. */
  lemma RemoveIndexed<X>(heap: map<Addr, Payload<X>>, list: seq<Addr>, bs: seq<Chain<Addr>>, a: Addr)
    requires SafeState(heap, list, bs) && a in list
    ensures var heap', list' := heap - {a}, Without(list, a);
            var bs' := Del(MemOf(heap), bs, heap[a].id);
            && SafeState(heap', list', bs')
            && Indexed(heap', list', bs') == Indexed(heap, list, bs) - {heap[a].id}
  {
    hide Get, Del, Indexed, Without;
    RemoveKeeps(heap, list, bs, a);
    var heap', list' := heap - {a}, Without(list, a);
    var mem, mem', id := MemOf(heap), MemOf(heap'), heap[a].id;
    DelRemoves(mem, bs, id);
    var bs' := Del(mem, bs, id);
    forall b: nat, i: nat | b < |bs'| && i < |bs'[b]|
      ensures LivePair(mem', bs'[b][i]) && KeyOf(mem', bs'[b][i]) == KeyOf(mem, bs'[b][i])
    {
      PairsOfDel(mem, bs, id, b, i);
    }
    SameKeysSameTable(mem, mem', bs');
    IndexedIs(heap', list', bs', Indexed(heap, list, bs) - {id});
  }

  /** A complete index is the map from the ids of the listed payloads to these. */
  lemma IndexedAll<X>(heap: map<Addr, Payload<X>>, list: seq<Addr>, bs: seq<Chain<Addr>>)
    requires SafeState(heap, list, bs) && Complete(heap, list, bs)
    ensures forall a :: a in list ==>
              (heap[a].id in Indexed(heap, list, bs) && Indexed(heap, list, bs)[heap[a].id] == a)
  {
    hide Get, WellFormed;
  }

  class Table<X> {
    var heap: map<Addr, Payload<X>>
    var list: seq<Addr>
    const hash: HashMap<Addr>

    ghost predicate Safe()
      reads this, hash.buckets
    {
      SafeState(heap, list, hash.buckets[..])
    }

    ghost predicate Valid()
      reads this, hash.buckets
    {
      Safe() && Complete(heap, list, hash.buckets[..])
    }

    /** The finite map from ids to listed payloads that the hash index stands for. */
    ghost function Index(): (m: map<Id, Addr>)
      requires Safe()
      reads this, hash.buckets
      ensures forall id :: id in m ==> m[id] in heap && m[id] in list && heap[m[id]].id == id
    {
      Indexed(heap, list, hash.buckets[..])
    }

    constructor (capacity: nat)
      requires capacity > 0
      ensures Valid() && fresh(hash) && fresh(hash.buckets)
      ensures list == [] && heap == map[] && Index() == map[]
    {
      heap, list := map[], [];
      hash := new HashMap<Addr>(capacity, MemOf<X>(map[]));
      new;
    }

    /** hash_get on the index. */
    method Find(id: Id) returns (item: Option<Addr>)
      requires Safe()
      ensures item == Get(MemOf(heap), hash.buckets[..], id)
      ensures item == if id in Index() then Some(Index()[id]) else None
      ensures Valid() ==> item == Scan(heap, list, id)
    {
      item := hash.HashGet(MemOf(heap), id);
      FoundIsListed(heap, list, hash.buckets[..], id);
      if Complete(heap, list, hash.buckets[..]) {
        IndexIsScan(heap, list, hash.buckets[..], id);
      }
    }

    /** list_put and hash_put of a new payload at the address malloc returned. */
    method Insert(a: Addr, p: Payload<X>)
      requires Safe() && a !in heap
      modifies this, hash.buckets
      ensures Safe()
      ensures heap == old(heap)[a := p] && list == old(list) + [a]
      ensures Index() == old(Index())[p.id := a]
      ensures old(Valid()) ==> (Valid() <==> old(NewId(heap, list, p.id)))
    {
      hide SafeState, Complete, WellFormed;
      InsertKeeps(heap, list, hash.buckets[..], a, p);
      InsertIndexed(heap, list, hash.buckets[..], a, p);
      heap := heap[a := p];
      list := list + [a];
      var _ := hash.HashPut(MemOf(heap), a, ID_LENGTH, Some(a));
    }

    /** hash_del, list_del and free of a listed payload, in this order. */
    method Remove(a: Addr)
      requires Safe() && a in list
      modifies this, hash.buckets
      ensures Safe()
      ensures heap == old(heap) - {a} && list == Without(old(list), a)
      ensures Index() == old(Index()) - {old(heap[a].id)}
      ensures old(Valid()) ==> Valid()
    {
      hide Complete, Without;
      RemoveKeeps(heap, list, hash.buckets[..], a);
      RemoveIndexed(heap, list, hash.buckets[..], a);
      hash.HashDel(MemOf(heap), heap[a].id);
      list := Without(list, a);
      heap := heap - {a};
    }

    /** A change of a payload that leaves its id alone. */
    method SetBody(a: Addr, body: X)
      requires Safe() && a in heap
      modifies this`heap
      ensures Safe() && Index() == old(Index())
      ensures old(Valid()) ==> Valid()
      ensures heap == old(heap)[a := old(heap[a]).(body := body)]
    {
      hide WellFormed, Complete;
      SetBodyKeeps(heap, list, hash.buckets[..], a, body);
      heap := heap[a := heap[a].(body := body)];
    }
  }
}
