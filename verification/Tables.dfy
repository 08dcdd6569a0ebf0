/** The session cache (src/cache.c) and the host database (src/database.c). */
module Tables {
  import opened Ids
  import opened Options
  import opened Hash
  import opened IndexedTable
  import opened Sweep

  const ONE_MINUTE: int := 60
  const FIFTEEN_MINUTES: int := 900

  lemma {:induction false} WithoutAt(list: seq<Addr>, i: nat)
    requires NoDuplicates(list) && i < |list|
    ensures Without(list, list[i]) == list[..i] + list[i + 1..]
    decreases |list|
  {
    if i > 0 {
      WithoutAt(list[1..], i - 1);
    }
  }

  /** Every listed item holds the payload it held before. */
  predicate Intact<X(==)>(list: seq<Addr>, heap: map<Addr, X>, was: map<Addr, X>) {
    forall a :: a in list ==> a in was && a in heap && heap[a] == was[a]
  }

  lemma IntactAt<X>(list: seq<Addr>, heap: map<Addr, X>, was: map<Addr, X>, i: nat)
    requires Intact(list, heap, was) && i < |list|
    ensures list[i] in was && list[i] in heap && heap[list[i]] == was[list[i]]
  {
  }

  lemma IntactDel<X>(list: seq<Addr>, heap: map<Addr, X>, was: map<Addr, X>, i: nat,
                     list': seq<Addr>, heap': map<Addr, X>)
    requires Intact(list, heap, was) && i < |list|
    requires list' == list[..i] + list[i + 1..] && Intact(list', heap', heap)
    ensures Intact(list', heap', was)
  {
  }

  // ---- sessions

  datatype Session = Session(unicast: bool, time: int)

  /** The session of this item is out of date. */
  predicate Stale(heap: map<Addr, Payload<Session>>, now: int, a: Addr) {
    a in heap && now > heap[a].body.time
  }

  predicate IndexInto(index: map<Id, Addr>, heap: map<Addr, Payload<Session>>) {
    forall id :: id in index ==> index[id] in heap && heap[index[id]].id == id
  }

  /** The sessions as a finite map, by id. */
  function Sessions(index: map<Id, Addr>, heap: map<Addr, Payload<Session>>): map<Id, Session>
    requires IndexInto(index, heap)
  {
    map id | id in index :: heap[index[id]].body
  }

  lemma SessionsInsert(index: map<Id, Addr>, heap: map<Addr, Payload<Session>>, a: Addr, p: Payload<Session>)
    requires IndexInto(index, heap) && a !in heap
    ensures IndexInto(index[p.id := a], heap[a := p])
    ensures Sessions(index[p.id := a], heap[a := p]) == Sessions(index, heap)[p.id := p.body]
  {
  }

  lemma SessionsRemove(index: map<Id, Addr>, heap: map<Addr, Payload<Session>>, id: Id)
    requires IndexInto(index, heap) && id in index
    ensures IndexInto(index - {id}, heap - {index[id]})
    ensures Sessions(index - {id}, heap - {index[id]}) == Sessions(index, heap) - {id}
  {
  }

  /** The sessions that are not out of date. */
  function Current(sessions: map<Id, Session>, now: int): map<Id, Session> {
    map id | id in sessions && now <= sessions[id].time :: sessions[id]
  }

  /** Every listed item is what the index finds for its id. */
  predicate IndexAll(index: map<Id, Addr>, heap: map<Addr, Payload<Session>>, list: seq<Addr>) {
    && IndexInto(index, heap)
    && (forall id :: id in index ==> index[id] in list)
    && (forall a :: a in list ==> a in heap && heap[a].id in index && index[heap[a].id] == a)
  }

  /** Dropping the stale items of a list drops the sessions that are out of date. */
  lemma KeptCurrent(index: map<Id, Addr>, heap: map<Addr, Payload<Session>>, list: seq<Addr>,
                    index': map<Id, Addr>, heap': map<Addr, Payload<Session>>, list': seq<Addr>, now: int)
    requires IndexAll(index, heap, list) && IndexAll(index', heap', list')
    requires list' == Kept(list, a => Stale(heap, now, a)) && Intact(list', heap', heap)
    ensures Sessions(index', heap') == Current(Sessions(index, heap), now)
  {
    hide Kept;
    KeptIs(list, a => Stale(heap, now, a));
    var m, m' := Current(Sessions(index, heap), now), Sessions(index', heap');
    forall id | id in m'
      ensures id in m && m[id] == m'[id]
    {
      assert index[id] == index'[id];
    }
    forall id | id in m
      ensures id in m'
    {
      assert index[id] in list';
    }
  }

  class Cache {
    const table: Table<Session>

    ghost predicate Valid()
      reads table, table.hash.buckets
    {
      table.Valid()
    }

    ghost function Open(): map<Id, Session>
      requires Valid()
      reads table, table.hash.buckets
    {
      Sessions(table.Index(), table.heap)
    }

    /** No listed session but the removed one has its id. */
    lemma Gone(a: Addr)
      requires Valid() && a in table.list && a in table.heap
      ensures var heap, list := table.heap - {a}, Without(table.list, a);
              (forall x :: x in list ==> x in heap) && NewId(heap, list, table.heap[a].id)
    {
      hide Complete, WellFormed, SafePairs, Without;
      CompleteDistinct(table.heap, table.list, table.hash.buckets[..]);
      WithoutKeepsOthers(table.list, a);
    }

    lemma Into()
      requires Valid()
      ensures IndexInto(table.Index(), table.heap)
      ensures forall id :: id in table.Index() <==> id in Open()
    {
      hide Indexed, SafeState, Complete;
    }

    lemma Indexing()
      requires Valid()
      ensures IndexAll(table.Index(), table.heap, table.list)
    {
      hide Indexed;
      IndexedAll(table.heap, table.list, table.hash.buckets[..]);
    }

    /** cache_init */
    constructor ()
      ensures Valid() && table.list == [] && Open() == map[]
      ensures fresh(table) && fresh(table.hash.buckets)
    {
      table := new Table<Session>(100);
    }

    /** cache_put: an id that is there already is left as it is. */
    method Put(id: Id, unicast: bool, now: int, a: Addr)
      requires Valid() && a !in table.heap
      modifies table, table.hash.buckets
      ensures Valid()
      ensures old(NewId(table.heap, table.list, id)) ==>
                && table.heap == old(table.heap)[a := Payload(id, Session(unicast, now + 60))]
                && table.list == old(table.list) + [a]
      ensures !old(NewId(table.heap, table.list, id)) ==>
                table.heap == old(table.heap) && table.list == old(table.list)
      ensures Open() == if id in old(Open()) then old(Open())
                        else old(Open())[id := Session(unicast, now + 60)]
    {
      hide SafeState, Complete, Indexed, IndexInto, Sessions;
      var item := table.Find(id);
      Into();
      if item.Some? {
        return;
      }
      SessionsInsert(table.Index(), table.heap, a, Payload(id, Session(unicast, now + ONE_MINUTE)));
      table.Insert(a, Payload(id, Session(unicast, now + ONE_MINUTE)));
    }

    /** cache_del */
    method Del(id: Id)
      requires Valid()
      modifies table, table.hash.buckets
      ensures Valid()
      ensures NewId(table.heap, table.list, id)
      ensures match old(Scan(table.heap, table.list, id))
              case None => table.heap == old(table.heap) && table.list == old(table.list)
              case Some(a) => table.heap == old(table.heap) - {a}
                              && table.list == Without(old(table.list), a)
      ensures Open() == old(Open()) - {id}
    {
      hide Indexed, IndexInto, Sessions, Complete, SafeState, Without, NewId, NoDuplicates;
      var item := table.Find(id);
      Into();
      if item.None? {
        return;
      }
      SessionsRemove(table.Index(), table.heap, id);
      Gone(item.value);
      table.Remove(item.value);
    }

    /** cache_validate: an id passes exactly when a session with it is there; passing takes a
        unicast session away and leaves a multicast one. */
    method Validate(id: Id) returns (ok: bool)
      requires Valid()
      modifies table, table.hash.buckets
      ensures Valid()
      ensures ok <==> old(Scan(table.heap, table.list, id)).Some?
      ensures var v := old(Scan(table.heap, table.list, id));
              if v.Some? && old(table.heap)[v.value].body.unicast then
                table.heap == old(table.heap) - {v.value} && table.list == Without(old(table.list), v.value)
              else
                table.heap == old(table.heap) && table.list == old(table.list)
      ensures ok <==> id in old(Open())
      ensures Open() == if ok && old(Open())[id].unicast then old(Open()) - {id} else old(Open())
    {
      hide SafeState, Complete, Indexed;
      var item := table.Find(id);
      if item.None? {
        return false;
      }
      if table.heap[item.value].body.unicast {
        Del(id);
      }
      return true;
    }

    /** cache_expire: exactly the stale sessions go, the others keep their order. */
    method Expire(now: int)
      requires Valid()
      modifies table, table.hash.buckets
      ensures Valid()
      ensures table.list == Kept(old(table.list), a => Stale(old(table.heap), now, a))
      ensures Intact(table.list, table.heap, old(table.heap))
      ensures Open() == Current(old(Open()), now)
    {
      hide SafeState, Complete, Kept, SweptTo, Intact, Indexed, IndexAll, Sessions, Current, IndexInto;
      ghost var was, heap := table.list, table.heap;
      ghost var index := table.Index();
      Indexing();
      ghost var due := a => Stale(heap, now, a);
      var i := 0;
      ghost var j := 0;
      SweepStart(was, due);
      Listed();
      while i < |table.list|
        invariant Valid()
        invariant j <= |was| && SweptTo(was, table.list, due, j) && i == |Kept(was[..j], due)|
        invariant Intact(table.list, table.heap, heap)
        decreases |was| - j
      {
        IntactAt(table.list, table.heap, heap, i);
        var a := table.list[i];
        ghost var k := SweepStep(was, table.list, due, j);
        if now > table.heap[a].body.time {
          ghost var list, mid := table.list, table.heap;
          DelAt(i);
          IntactDel(list, mid, heap, i, table.list, table.heap);
        } else {
          i := i + 1;
        }
        j := j + 1;
      }
      WalkDone(was, table.list, due, j);
      Indexing();
      KeptCurrent(index, heap, was, table.Index(), table.heap, table.list, now);
    }

    lemma Listed()
      requires Valid()
      ensures Intact(table.list, table.heap, table.heap)
    {
    }

    /** cache_del of the id of a known item takes that item out. */
    method DelAt(i: nat)
      requires Valid() && i < |table.list| && table.list[i] in table.heap
      modifies table, table.hash.buckets
      ensures Valid()
      ensures table.list == old(table.list[..i]) + old(table.list[i + 1..])
      ensures table.heap == old(table.heap) - {old(table.list[i])}
      ensures Intact(table.list, table.heap, old(table.heap))
    {
      hide Complete, WellFormed;
      CompleteDistinct(table.heap, table.list, table.hash.buckets[..]);
      Sole(table.heap, table.list, i);
      WithoutAt(table.list, i);
      Del(table.heap[table.list[i]].id);
    }
  }

  /** With distinct ids, scanning for the id of an item finds that item. */
  lemma {:induction false} Sole<X>(heap: map<Addr, Payload<X>>, list: seq<Addr>, i: nat)
    requires forall a :: a in list ==> a in heap
    requires DistinctIds(heap, list) && i < |list|
    ensures Scan(heap, list, heap[list[i]].id) == Some(list[i])
    decreases |list|
  {
    if i > 0 {
      Sole(heap, list[1..], i - 1);
    }
  }

  // ---- hosts

  datatype Host = Host(addr: seq<Byte>, time: int)

  predicate Old(heap: map<Addr, Payload<Host>>, now: int, a: Addr) {
    a in heap && now > heap[a].body.time
  }

  predicate CurrentStay(heap: map<Addr, Payload<Host>>, now: int, was: seq<Addr>, list: seq<Addr>) {
    forall a :: a in was && a in heap && now <= heap[a].body.time ==> a in list
  }

  /** A pass leaves every entry whose time has not gone by. */
  lemma NotOldStays(heap: map<Addr, Payload<Host>>, now: int, was: seq<Addr>, list: seq<Addr>)
    requires list == Pass(was, a => Old(heap, now, a))
    ensures CurrentStay(heap, now, was, list)
  {
    hide Pass, Kept;
    var due := a => Old(heap, now, a);
    PassHalves(was, due);
    KeptIs(was, due);
    KeptIs(list, due);
  }

  class Database {
    const table: Table<Host>

    ghost predicate Valid()
      reads table, table.hash.buckets
    {
      table.Valid()
    }

    /** db_init */
    constructor ()
      ensures Valid() && table.list == []
      ensures fresh(table) && fresh(table.hash.buckets)
    {
      table := new Table<Host>(4096);
    }

    /** db_address: the address last put for a host, if it is there. */
    method Address(id: Id) returns (addr: Option<seq<Byte>>)
      requires Valid()
      ensures match Scan(table.heap, table.list, id)
              case None => addr == None
              case Some(a) => a in table.heap && addr == Some(table.heap[a].body.addr)
    {
      var item := table.Find(id);
      if item.None? {
        return None;
      }
      return Some(table.heap[item.value].body.addr);
    }

    /** db_put: a new host is appended, a known one keeps its place; either way the address is the
        one given and the entry lives for 15 minutes from now. */
    method Put(id: Id, addr: seq<Byte>, now: int, a: Addr)
      requires Valid() && a !in table.heap
      modifies table, table.hash.buckets
      ensures Valid()
      ensures var p := Payload(id, Host(addr, now + 900));
              match old(Scan(table.heap, table.list, id))
              case None => table.heap == old(table.heap)[a := p] && table.list == old(table.list) + [a]
              case Some(x) => table.heap == old(table.heap)[x := p] && table.list == old(table.list)
    {
      var item := table.Find(id);
      if item.None? {
        table.Insert(a, Payload(id, Host(addr, now + FIFTEEN_MINUTES)));
      } else {
        table.SetBody(item.value, Host(addr, now + FIFTEEN_MINUTES));
      }
    }

    /** db_expire: one counter-bounded pass. The pointer it follows never runs off the list. No old
        entry is left exactly when, of D old entries, none was among the last D - 1. */
    method Expire(now: int)
      requires Valid()
      modifies table, table.hash.buckets
      ensures Valid()
      ensures table.list == Pass(old(table.list), a => Old(old(table.heap), now, a))
      ensures CurrentStay(old(table.heap), now, old(table.list), table.list)
      ensures table.list == Kept(old(table.list), a => Old(old(table.heap), now, a))
          <==> DueInFront(old(table.list), a => Old(old(table.heap), now, a))
      ensures Intact(table.list, table.heap, old(table.heap))
    {
      hide SafeState, Complete, Kept, SweptTo, Inspected, Pass, Intact, DueInFront, CurrentStay;
      ghost var was, heap := table.list, table.heap;
      ghost var due := a => Old(heap, now, a);
      var i, j := 0, 0;
      SweepStart(was, due);
      Listed();
      while j < |table.list|
        invariant Valid()
        invariant j <= |was| && SweptTo(was, table.list, due, j) && i == |Kept(was[..j], due)|
        invariant Inspected(was, due, 0) == Inspected(was, due, j)
        invariant Intact(table.list, table.heap, heap)
        decreases |was| - j
      {
        CounterInList(was, table.list, due, j);
        ghost var k := SweepStep(was, table.list, due, j);
        IntactAt(table.list, table.heap, heap, i);
        var a := table.list[i];
        if now > table.heap[a].body.time {
          ghost var list, mid := table.list, table.heap;
          DelAt(i);
          IntactDel(list, mid, heap, i, table.list, table.heap);
        } else {
          i := i + 1;
        }
        j := j + 1;
      }
      SweepDone(was, table.list, due, j);
      PassDrainsIff(was, due);
      NotOldStays(heap, now, was, table.list);
    }

    lemma Listed()
      requires Valid()
      ensures Intact(table.list, table.heap, table.heap)
    {
    }

    /** db_del */
    method DelAt(i: nat)
      requires Valid() && i < |table.list|
      modifies table, table.hash.buckets
      ensures Valid()
      ensures table.list == old(table.list[..i]) + old(table.list[i + 1..])
      ensures table.heap == old(table.heap) - {old(table.list[i])}
      ensures Intact(table.list, table.heap, old(table.heap))
    {
      hide Complete, WellFormed;
      WithoutAt(table.list, i);
      table.Remove(table.list[i]);
    }
  }
}
