/** The daemon as the object that the handlers of src/p2p.c step: a session cache and two request
    tables, each a list with a hash index, and the routing table. Every method is proved to take the
    step of the protocol on the finite maps that these stand for. */
module Daemon {
  import opened Ids
  import opened Options
  import opened Bencode
  import opened BencodeUnchecked
  import opened Routing
  import opened RoutingSplit
  import opened Neighborhood
  import opened NodeMessage
  import opened Hash
  import opened IndexedTable
  import opened Tables
  import opened Protocol
  import opened SessionHistory
  import opened ProtocolSafety

  type RequestTable = IndexedTable.Table<Request>

  /** malloc: any address that is not in use. */
  method Malloc<X>(heap: map<Addr, X>) returns (a: Addr)
    ensures a !in heap
  {
    a := 0;
    ghost var left := heap.Keys;
    while a in heap
      invariant forall x :: x in heap && x >= a ==> x in left
      decreases left
    {
      left := left - {a};
      a := a + 1;
    }
  }

  class Daemon {
    const env: Env
    const own: Id
    const host: Option<Id>
    var now: int
    const cache: Cache
    const lkps: RequestTable
    const anns: RequestTable
    const nbhd: Neighborhood
    var next: nat
    var drawn: nat
    ghost var trace: seq<Event>

    function T(k: Kind): RequestTable {
      if k.Lookups? then lkps else anns
    }

    /** Lists, hash indexes and memory of the three tables agree, and the tables share nothing. The
        indexes of requests need not be complete: random ids may repeat. */
    ghost predicate Stored()
      reads cache.table, cache.table.hash.buckets, lkps, lkps.hash.buckets, anns, anns.hash.buckets
    {
      && lkps != anns && lkps.hash.buckets != anns.hash.buckets
      && cache.table.hash.buckets != lkps.hash.buckets
      && cache.table.hash.buckets != anns.hash.buckets
      && cache.Valid() && lkps.Safe() && anns.Safe()
    }

    ghost function Requests(k: Kind): Protocol.Requests
      requires T(k).Safe()
      reads T(k), T(k).hash.buckets
    {
      Protocol.Requests(T(k).heap, T(k).list, T(k).Index())
    }

    /** The state of the protocol that the object stands for. */
    ghost function Abs(): State
      requires Stored()
      reads this, nbhd, cache.table, cache.table.hash.buckets, lkps, lkps.hash.buckets, anns, anns.hash.buckets
    {
      State(own, host, now, cache.Open(), Requests(Lookups), Requests(Announces), nbhd.Table(),
            next, drawn, trace)
    }

    ghost predicate Valid()
      reads this, nbhd, cache.table, cache.table.hash.buckets, lkps, lkps.hash.buckets, anns, anns.hash.buckets
      ensures Valid() ==> Stored() && Sound(Abs()) && Linked(Abs().nbhd)
    {
      Stored() && nbhd.own == own && nbhd.Valid() && Safe(Abs())
    }

    constructor (env: Env, own: Id, host: Option<Id>, now: int)
      ensures Valid() && Abs() == Init(own, host, now)
    {
      hide Safe, SafeState, Complete, Indexed, Sessions, IndexInto, NewId, Scan, Without, NoDuplicates;
      this.env, this.own, this.host, this.now := env, own, host, now;
      next, drawn, trace := 0, 0, [];
      cache := new Cache();
      lkps := new IndexedTable.Table(4096);
      anns := new IndexedTable.Table(4096);
      nbhd := new Neighborhood(own);
      new;
      assert Stored() && cache.Open() == map[];
      assert Requests(Lookups) == Protocol.Requests(map[], [], map[]);
      assert Requests(Announces) == Protocol.Requests(map[], [], map[]);
      InitSafe(own, host, now);
    }

    // ---- sessions

    /** cache_put */
    method PutSession(sid: Id, unicast: bool)
      requires Stored()
      modifies cache.table, cache.table.hash.buckets
      ensures Stored() && Abs() == old(Abs()).(sessions := cache.Open())
      ensures old(Abs()).sessions == old(cache.Open())
      ensures cache.Open() == if sid in old(cache.Open()) then old(cache.Open())
                              else old(cache.Open())[sid := Session(unicast, now + ONE_MINUTE)]
    {
      hide SafeState, Complete, Indexed, Sessions, IndexInto, NewId, Scan, Without, NoDuplicates;
      var a := Malloc(cache.table.heap);
      cache.Put(sid, unicast, now, a);
      assert Requests(Lookups) == old(Requests(Lookups)) && Requests(Announces) == old(Requests(Announces));
    }

    /** rand_urandom and cache_put, as every request message begins. The id drawn is open
        afterwards; if it was not open before it is issued for a minute. All others stay. */
    method CachePutNew(unicast: bool)
      requires Stored()
      modifies this`drawn, this`trace, cache.table, cache.table.hash.buckets
      ensures Stored() && Abs() == CachePut(env, old(Abs()), unicast)
      ensures env.id(old(drawn)) in cache.Open()
      ensures forall id :: id != env.id(old(drawn)) ==>
                (id in cache.Open() <==> id in old(cache.Open()))
      ensures forall id :: id in old(cache.Open()) ==>
                id in cache.Open() && cache.Open()[id] == old(cache.Open())[id]
    {
      hide *;
      ghost var s := Abs();
      CachePutEffect(env, s, unicast);
      DrawnIs();
      var sid := env.id(drawn);
      PutSession(sid, unicast);
      ghost var session := Session(unicast, now + ONE_MINUTE);
      Note(if sid in s.sessions then [] else [Issued(sid, session)]);
      assert s.trace + [] == s.trace;
    }

    lemma DrawnIs()
      requires Stored()
      ensures Abs().drawn == drawn && Abs().now == now
    {
      hide SafeState, Complete, Indexed, Sessions, IndexInto;
    }

    /** A random draw, and what is recorded of it. */
    method Note(ghost events: seq<Event>)
      requires Stored()
      modifies this`drawn, this`trace
      ensures Stored() && cache.Open() == old(cache.Open())
      ensures var s := old(Abs()); Abs() == s.(drawn := s.drawn + 1, trace := s.trace + events)
    {
      hide SafeState, Complete, Indexed, Sessions, IndexInto, NewId, Scan, Without, NoDuplicates;
      drawn := drawn + 1;
      trace := trace + events;
    }

    /** cache_validate: passes exactly an open id, which stays open afterwards if and only if it is
        multicast. All others stay. */
    method Validate(sid: Id) returns (ok: bool)
      requires Stored()
      modifies this`trace, cache.table, cache.table.hash.buckets
      ensures Stored() && (Abs(), ok) == CacheValidate(old(Abs()), sid)
      ensures ok <==> sid in old(cache.Open())
      ensures ok ==> JustPassed(trace)
      ensures forall id :: id in cache.Open() <==>
                id in old(cache.Open()) && (id == sid ==> !old(cache.Open())[id].unicast)
    {
      hide SafeState, Complete, Indexed, Sessions, IndexInto, NewId, Scan, Without, NoDuplicates;
      ghost var open := cache.Open();
      ok := cache.Validate(sid);
      if ok {
        trace := trace + [Passed(sid, open[sid])];
      }
    }

    /** The session check of a reply handler. */
    method CheckReply(sid: Id) returns (ok: bool)
      requires Valid()
      modifies this`trace, cache.table, cache.table.hash.buckets
      ensures Valid() && (Abs(), ok) == CacheValidate(old(Abs()), sid)
      ensures ok ==> JustPassed(trace)
    {
      hide Safe, Sound, Reachable, SafeState, Complete, Indexed, Sessions, IndexInto, NewId, Scan, Without, NoDuplicates;
      CacheValidateSafe(Abs(), sid);
      ok := Validate(sid);
    }

    /** cache_expire */
    method ExpireSessions()
      requires Valid()
      modifies this`trace, cache.table, cache.table.hash.buckets
      ensures Valid() && Abs() == CacheExpire(old(Abs()))
    {
      hide Safe, Sound, Reachable, SafeState, Complete, Indexed, Sessions, IndexInto, NewId, Scan, Without, NoDuplicates;
      CacheExpireSafe(Abs());
      trace := trace + [Expired(now, Overdue(cache.Open(), now))];
      cache.Expire(now);
    }

    // ---- nodes

    /** nbhd_put with the messages it sends to a new node. */
    method Learn(id: Id, addr: Address)
      requires Valid()
      modifies this`drawn, this`trace, cache.table, cache.table.hash.buckets, nbhd
      ensures Valid() && Abs() == LearnNode(env, old(Abs()), id, addr)
    {
      hide Safe, Sound, Reachable, CachePut, NeighborhoodPut, SafeState, Complete, Indexed, Sessions, IndexInto, NewId, Scan, Without, NoDuplicates;
      LearnNodeSafe(env, Abs(), id, addr);
      var ping := now + 240 + env.delay(drawn) % 120;
      var find := now + 240 + env.delay(drawn + 1) % 120;
      var isNew := nbhd.NbhdPut(id, addr, ping, find);
      if isNew {
        drawn := drawn + 2;
        CachePutNew(true);
        CachePutNew(true);
      }
    }

    // ---- requests

    /** lkp_remember and announce_remember */
    method RememberNode(k: Kind, serial: nat, node: Id)
      requires Stored() && serial in Requests(k).live
      modifies T(k)`heap
      ensures Stored() && Abs() == Remember(old(Abs()), k, serial, node)
    {
      hide SafeState, Complete, Indexed, Sessions, IndexInto, NewId, Scan, Without, NoDuplicates;
      var q := T(k).heap[serial].body;
      T(k).SetBody(serial, q.(asked := q.asked + {node}));
    }

    /** send_lookup and send_announce */
    method Send(serial: nat, node: Id)
      requires Stored()
      modifies this`drawn, this`trace, cache.table, cache.table.hash.buckets
      ensures Stored() && Abs() == Ask(env, old(Abs()), serial, node)
    {
      hide CachePut, SafeState, Complete, Indexed, Sessions, IndexInto, NewId, Scan, Without, NoDuplicates;
      CachePutNew(true);
      trace := trace + [Asked(serial, node)];
    }

    /** A node that a reply names is asked, unless it is the own one, and remembered. */
    method AskNamed(k: Kind, serial: nat, node: Id)
      requires Stored() && serial in Requests(k).live
      modifies this`drawn, this`trace, cache.table, cache.table.hash.buckets, T(k)`heap
      ensures Stored()
      ensures var s := old(Abs());
              var asked := if node != own then Ask(env, s, serial, node) else s;
              serial in Of(asked, k).live && Abs() == Remember(asked, k, serial, node)
    {
      hide Ask, Remember, SafeState, Complete, Indexed, Sessions, IndexInto, NewId, Scan, Without, NoDuplicates;
      if node != own {
        AskKeeps(env, Abs(), serial, node);
        Send(serial, node);
      }
      RememberNode(k, serial, node);
    }

    /** lkp_resolve and announce_resolve */
    method ResolveNode(k: Kind, lkp: Id, node: Id)
      requires Valid()
      modifies this`drawn, this`trace, cache.table, cache.table.hash.buckets, T(k)`heap
      ensures Valid() && Abs() == Resolve(env, old(Abs()), k, lkp, node)
    {
      hide Safe, Sound, Reachable, Ask, Remember, SafeState, Complete, Indexed, Sessions, IndexInto, NewId, Scan, Without, NoDuplicates;
      ResolveSafe(env, Abs(), k, lkp, node);
      var item := T(k).Find(lkp);
      if item.None? {
        return;
      }
      if node !in T(k).heap[item.value].body.asked {
        AskNamed(k, item.value, node);
      }
    }

    /** The loop of nbhd_lookup and nbhd_announce. */
    method AskFirst(k: Kind, serial: nat, ns: seq<Node>)
      requires Stored() && serial in Requests(k).live
      modifies this`drawn, this`trace, cache.table, cache.table.hash.buckets, T(k)`heap
      ensures Stored() && Abs() == AskAll(env, old(Abs()), k, serial, First(ns))
    {
      hide *;
      var max := if |ns| < ASK_FIRST then |ns| else ASK_FIRST;
      var j := 0;
      FirstIs(ns, max);
      RequestsOf(k);
      AskAllNone(env, Abs(), k, serial);
      while j < max
        invariant j <= max <= |ns| && Stored()
        invariant Abs() == AskAll(env, old(Abs()), k, serial, ns[..j])
      {
        AskAllMore(env, old(Abs()), k, serial, ns, j);
        RequestsOf(k);
        AskNode(k, serial, ns[j].id);
        j := j + 1;
      }
    }

    lemma RequestsOf(k: Kind)
      requires Stored()
      ensures T(k).Safe() && Of(Abs(), k) == Requests(k)
    {
      hide SafeState, Complete, Indexed, Sessions, IndexInto;
    }

    /** A node of the bucket is remembered, then asked. */
    method AskNode(k: Kind, serial: nat, node: Id)
      requires Stored() && serial in Requests(k).live
      modifies this`drawn, this`trace, cache.table, cache.table.hash.buckets, T(k)`heap
      ensures Stored() && serial in Requests(k).live
      ensures Abs() == Ask(env, Remember(old(Abs()), k, serial, node), serial, node)
    {
      hide Ask, Remember, SafeState, Complete, Indexed, Sessions, IndexInto, NewId, Scan, Without, NoDuplicates;
      RememberSame(Abs(), k, serial, node);
      RememberNode(k, serial, node);
      AskKeeps(env, Abs(), serial, node);
      Send(serial, node);
    }

    /** lkp_put and announce_put up to the search. */
    method EnlistRequest(k: Kind, target: Id, callback: bool)
      requires Stored() && next !in T(k).heap
      modifies this`next, this`drawn, this`trace, T(k), T(k).hash.buckets
      ensures Stored() && Abs() == Enlist(env, old(Abs()), k, target, callback)
    {
      hide SafeState, Complete, Indexed, Sessions, IndexInto, NewId, Scan, Without, NoDuplicates;
      var q := Request(target, {}, callback, now + if k.Lookups? then 5 else 10);
      T(k).Insert(next, Payload(env.id(drawn), q));
      trace := trace + [Started(next, callback)];
      next, drawn := next + 1, drawn + 1;
      assert cache.Open() == old(cache.Open());
      assert k.Lookups? ==> Requests(Announces) == old(Requests(Announces));
      assert k.Announces? ==> Requests(Lookups) == old(Requests(Lookups));
    }

    /** bckt_find_any_match */
    method FindAnyMatch(id: Id) returns (b: Option<nat>)
      requires Stored() && Linked(Abs().nbhd)
      ensures b == AnyMatch(env, Abs(), id)
    {
      hide SafeState, Complete, Indexed, Sessions, IndexInto, NewId, Scan, Without, NoDuplicates;
      var best := nbhd.FindBestMatch(id);
      if nbhd.buckets[best].nodes != [] {
        return Some(best);
      }
      var c := env.bucket(drawn);
      b := if c < |nbhd.buckets| && nbhd.buckets[c].nodes != [] then Some(c) else None;
    }

    /** lkp_put and announce_put */
    method StartRequest(k: Kind, target: Id, callback: bool)
      requires Valid() && (k.Announces? ==> !callback)
      modifies this`next, this`drawn, this`trace, cache.table, cache.table.hash.buckets,
               T(k), T(k).hash.buckets
      ensures Valid() && Abs() == Start(env, old(Abs()), k, target, callback)
    {
      hide Safe, Reachable, AskAll, Enlist, AnyMatch, First, SafeState, Complete, Indexed, Sessions, IndexInto, NewId, Scan, Without, NoDuplicates;
      StartSafe(env, Abs(), k, target, callback);
      FreshSerial(Abs());
      hide Sound;
      var serial := next;
      EnlistRequest(k, target, callback);
      var b := FindAnyMatch(target);
      if b.Some? {
        AskFirst(k, serial, nbhd.buckets[b.value].nodes);
      }
    }

    /** lkp_del and announce_del */
    method DropRequest(k: Kind, serial: nat)
      requires Stored() && serial in Requests(k).live && serial in T(k).list
      modifies T(k), T(k).hash.buckets
      ensures Stored() && Abs() == Drop(old(Abs()), k, serial)
      ensures T(k).list == Without(old(T(k).list), serial)
    {
      hide SafeState, Complete, Indexed, Sessions, IndexInto, NewId, Scan, Without, NoDuplicates;
      T(k).Remove(serial);
      assert cache.Open() == old(cache.Open());
      assert k.Lookups? ==> Requests(Announces) == old(Requests(Announces));
      assert k.Announces? ==> Requests(Lookups) == old(Requests(Lookups));
    }

    /** The callback, if one waits, and the deletion. */
    method FinishRequest(k: Kind, serial: nat, found: bool)
      requires Valid() && serial in Requests(k).live && serial in T(k).list
      requires found ==> JustPassed(trace)
      modifies this`trace, T(k), T(k).hash.buckets
      ensures Valid() && Abs() == Finish(old(Abs()), k, serial, found)
      ensures T(k).list == Without(old(T(k).list), serial)
    {
      hide Safe, Sound, Reachable, Drop, SafeState, Complete, Indexed, Sessions, IndexInto, NewId, Scan, Without, NoDuplicates;
      FinishSafe(Abs(), k, serial, found);
      if T(k).heap[serial].body.callback {
        trace := trace + [Callback(serial, found)];
      }
      DropRequest(k, serial);
    }

    /** lkp_success, for a reply that has just passed its session check. */
    method SucceedLookup(lkp: Id)
      requires Valid() && JustPassed(trace)
      modifies this`trace, lkps, lkps.hash.buckets
      ensures Valid() && Abs() == Success(old(Abs()), lkp)
    {
      hide Safe, Sound, Reachable, Finish, SafeState, Complete, Indexed, Sessions, IndexInto, NewId, Scan, Without, NoDuplicates;
      var item := lkps.Find(lkp);
      if item.Some? {
        FinishRequest(Lookups, item.value, true);
      }
    }

    /** One item of lkp_expire or announce_expire. The walk goes on behind it, or at its place if it
        is gone. */
    method ExpireItem(k: Kind, i: nat) returns (i': nat)
      requires Valid() && i < |T(k).list|
      modifies this`trace, T(k), T(k).hash.buckets
      ensures Valid() && Abs() == ExpireWalk(old(Abs()), k, [old(T(k).list[i])])
      ensures i' <= |T(k).list| && T(k).list[i'..] == old(T(k).list[i + 1..])
    {
      hide Safe, Sound, Reachable, Finish, SafeState, Complete, Indexed, Sessions, IndexInto, NewId, Scan, Without, NoDuplicates;
      Listed(k, i);
      var item := T(k).list[i];
      ExpireOne(Abs(), k, item);
      if now > T(k).heap[item].body.time {
        FinishRequest(k, item, false);
        return i;
      }
      return i + 1;
    }

    /** lkp_expire and announce_expire */
    method ExpireRequests(k: Kind)
      requires Valid()
      modifies this`trace, T(k), T(k).hash.buckets
      ensures Valid() && Abs() == ExpireWalk(old(Abs()), k, old(T(k).list))
    {
      hide *;
      ghost var items := T(k).list;
      ghost var j := 0;
      var i: nat := 0;
      ExpireNone(old(Abs()), k, items);
      while i < |T(k).list|
        invariant Valid() && i <= |T(k).list| && j <= |items|
        invariant T(k).list[i..] == items[j..]
        invariant Abs() == ExpireWalk(old(Abs()), k, items[..j])
        decreases |items| - j
      {
        Onward(T(k).list, i, items, j);
        ExpireMore(old(Abs()), k, items, j);
        i := ExpireItem(k, i);
        j := j + 1;
      }
      assert items[..j] == items;
    }

    lemma Listed(k: Kind, i: nat)
      requires Valid() && i < |T(k).list|
      ensures T(k).list[i] in T(k).heap
      ensures Without(T(k).list, T(k).list[i]) == T(k).list[..i] + T(k).list[i + 1..]
    {
      hide Safe, Reachable, SafeState, Complete, Indexed, Sessions, IndexInto, NewId, Scan, Without, NoDuplicates;
      WithoutAt(T(k).list, i);
    }

    /** The expiry of announcements, sessions, nodes and lookups in p2p_cron. */
    method ExpireDue()
      requires Valid()
      modifies this`trace, nbhd, cache.table, cache.table.hash.buckets, lkps, lkps.hash.buckets, anns, anns.hash.buckets
      ensures Valid() && Abs() == Step(env, old(Abs()), Expiry)
    {
      hide Safe, Sound, Reachable, ExpireWalk, CacheExpire, ExpiredBuckets, SafeState, Complete, Indexed, Sessions, IndexInto, NewId, Scan, Without, NoDuplicates;
      ExpireRequests(Announces);
      ExpireSessions();
      ExpireNodes();
      ExpireRequests(Lookups);
    }

    /** nbhd_expire */
    method ExpireNodes()
      requires Valid()
      modifies nbhd
      ensures Valid()
      ensures var s := old(Abs()); Abs() == Routed(s, s.nbhd.(buckets := ExpiredBuckets(s.nbhd.buckets)), 0)
    {
      hide Safe, Sound, Reachable, ExpiredBuckets, SafeState, Complete, Indexed, Sessions, IndexInto, NewId, Scan, Without, NoDuplicates;
      ExpiredKeepsReachable(nbhd.Table(), own);
      RoutedSafe(Abs(), nbhd.Table().(buckets := ExpiredBuckets(nbhd.buckets)), 0);
      nbhd.Expire();
    }

    // ---- packets

    /** p2p_pong */
    method HandlePong(id: Id, sid: Id, from: Address)
      requires Valid()
      modifies this`drawn, this`trace, cache.table, cache.table.hash.buckets, nbhd
      ensures Valid() && Abs() == Pong(env, old(Abs()), id, sid, from)
    {
      hide Safe, Sound, Reachable, Updated, FindNode, NodeAt, CacheValidate, SafeState, Complete, Indexed, Sessions, IndexInto, NewId, Scan, Without, NoDuplicates;
      PongSafe(env, Abs(), id, sid, from);
      var ping := now + 240 + env.delay(drawn) % 120;
      var ok := CheckReply(sid);
      if ok {
        var found := nbhd.Ponged(id, from, ping);
        if found {
          drawn := drawn + 1;
        }
      }
    }

    /** One node of a list. */
    method LearnFrom(resolve: Option<(Kind, Id)>, id: Id, addr: Address)
      requires Valid()
      modifies this`drawn, this`trace, nbhd, cache.table, cache.table.hash.buckets, lkps, lkps.hash.buckets, anns, anns.hash.buckets
      ensures Valid() && Abs() == LearnOne(env, old(Abs()), resolve, id, addr)
    {
      hide Safe, Sound, LearnNode, Resolve, Reachable, SafeState, Complete, Indexed, Sessions, IndexInto, NewId, Scan, Without, NoDuplicates;
      if resolve.Some? {
        ResolveNode(resolve.value.0, resolve.value.1, id);
      }
      Learn(id, addr);
    }

    /** The walk over a node list, up to the first element that fails a test. */
    method WalkNodes(resolve: Option<(Kind, Id)>, list: seq<Ben>)
      requires Valid()
      modifies this`drawn, this`trace, nbhd, cache.table, cache.table.hash.buckets, lkps, lkps.hash.buckets, anns, anns.hash.buckets
      ensures Valid() && Abs() == LearnAll(env, old(Abs()), resolve, HandedOn(list))
    {
      hide *;
      LearnAllNone(env, Abs(), resolve);
      ghost var xs := [];
      var i := 0;
      while i < |list|
        invariant 0 <= i <= |list| && Valid()
        invariant xs + HandedOn(list[i..]) == HandedOn(list)
        invariant Abs() == LearnAll(env, old(Abs()), resolve, xs)
      {
        HandedOnMore(list, i);
        var node := ReadNode(list[i]);
        if node.None? {
          assert xs + [] == xs;
          return;
        }
        LearnFrom(resolve, node.value.0, node.value.1);
        LearnAllMore(env, old(Abs()), resolve, xs, node.value);
        xs := xs + [node.value];
        i := i + 1;
      }
      HandedOnMore(list, i);
      assert xs + [] == xs;
    }

    /** p2p_node_find, p2p_node_announce and p2p_node_lookup */
    method HandleNodeList(k: Option<Kind>, msg: Ben, id: Id, sid: Id)
      requires Valid()
      modifies this`drawn, this`trace, nbhd, cache.table, cache.table.hash.buckets, lkps, lkps.hash.buckets, anns, anns.hash.buckets
      ensures Valid() && Abs() == NodeList(env, old(Abs()), k, msg, id, sid)
    {
      hide Safe, Sound, Reachable, LearnAll, Resolve, CacheValidate, SearchDict, HandedOn, SafeState, Complete, Indexed, Sessions, IndexInto, NewId, Scan, Without, NoDuplicates;
      var ok := CheckReply(sid);
      var nodes := SearchDict(msg, KEY_N);
      if !ok || nodes.None? || !nodes.value.List? {
        return;
      }
      if k.None? {
        WalkNodes(None, nodes.value.l);
        return;
      }
      var lkp := IdIn(SearchDict(msg, KEY_L));
      if lkp.None? {
        return;
      }
      if k.value.Announces? && host.None? {
        WalkNodes(None, nodes.value.l);
      } else {
        ResolveNode(k.value, lkp.value, id);
        WalkNodes(Some((k.value, lkp.value)), nodes.value.l);
      }
    }

    /** p2p_value */
    method HandleValue(msg: Ben, sid: Id)
      requires Valid()
      modifies this`trace, cache.table, cache.table.hash.buckets, lkps, lkps.hash.buckets, anns, anns.hash.buckets
      ensures Valid() && Abs() == ValueReply(old(Abs()), msg, sid)
    {
      hide Safe, Sound, Reachable, Success, CacheValidate, SearchDict, SafeState, Complete, Indexed, Sessions, IndexInto, NewId, Scan, Without, NoDuplicates;
      var ok := CheckReply(sid);
      if !ok || !IsStrOf(SearchDict(msg, KEY_A), 16) {
        return;
      }
      var lkp := IdIn(SearchDict(msg, KEY_L));
      if lkp.Some? {
        SucceedLookup(lkp.value);
      }
    }

    /** p2p_decode, once the packet is decoded. */
    method HandlePacket(msg: Ben, from: Address)
      requires Valid()
      modifies this`drawn, this`trace, nbhd, cache.table, cache.table.hash.buckets, lkps, lkps.hash.buckets, anns, anns.hash.buckets
      ensures Valid() && Abs() == Packet(env, old(Abs()), msg, from)
    {
      hide Safe, Sound, Reachable, LearnNode, Pong, NodeList, ValueReply, SearchDict, IdIn, SafeState, Complete, Indexed, Sessions, IndexInto, NewId, Scan, Without, NoDuplicates;
      var id := IdIn(SearchDict(msg, KEY_I));
      var sid := IdIn(SearchDict(msg, KEY_K));
      if id.None? || id.value == own || sid.None? {
        return;
      }
      Learn(id.value, from);
      var q := SearchDict(msg, KEY_Q);
      if !IsStrOf(q, 1) {
        return;
      }
      var letter := q.value.s[0];
      if letter == PONG {
        HandlePong(id.value, sid.value, from);
      } else if letter == Letter(F) {
        HandleNodeList(None, msg, id.value, sid.value);
      } else if letter == Letter(A) {
        HandleNodeList(Some(Announces), msg, id.value, sid.value);
      } else if letter == Letter(L) {
        HandleNodeList(Some(Lookups), msg, id.value, sid.value);
      } else if letter == VALUE {
        HandleValue(msg, sid.value);
      }
    }
  }

  /** Every method keeps the object valid, so of every object at any time: no request asked a node
      twice or the own one, no callback ran twice, and the session cache on its list and hash index
      finds exactly the ids that were issued and that nothing has ended since. */
  lemma Promises(d: Daemon, serial: nat, node: Id, sid: Id)
    requires d.Valid()
    ensures Times(d.trace, Asked(serial, node)) <= 1 && Times(d.trace, Asked(serial, d.own)) == 0
    ensures Fired(d.trace, serial) <= 1
    ensures sid in d.cache.Open() <==>
            exists j: nat, session :: j < |d.trace| && OpenSince(d.trace, j, |d.trace|, sid, session)
  {
    hide Sound, Reachable, Times, Lawful, Open, OpenSince, SafeState, Complete, Indexed, Sessions;
    PassesIff(d.Abs(), sid);
    assert AskedOk(d.Abs(), serial, node) && AskedOk(d.Abs(), serial, d.own) && CallbackOk(d.Abs(), serial);
  }

  lemma CachePutEffect(env: Env, s: State, unicast: bool)
    ensures var sid, r := env.id(s.drawn), CachePut(env, s, unicast);
            && r == s.(drawn := s.drawn + 1, sessions := r.sessions, trace := r.trace)
            && sid in r.sessions
            && (forall id :: id != sid ==> (id in r.sessions <==> id in s.sessions))
            && (forall id :: id in s.sessions ==> id in r.sessions && r.sessions[id] == s.sessions[id])
            && (sid in s.sessions ==> r.sessions == s.sessions && r.trace == s.trace)
            && (sid !in s.sessions ==>
                  var session := Session(unicast, s.now + ONE_MINUTE);
                  r.sessions == s.sessions[sid := session] && r.trace == s.trace + [Issued(sid, session)])
  {
  }

  lemma ExpireOne(s: State, k: Kind, item: nat)
    requires item in Of(s, k).live
    ensures ExpireWalk(s, k, [item])
         == if s.now > Of(s, k).live[item].body.time then Finish(s, k, item, false) else s
  {
    hide Finish;
    assert [item][..0] == [];
  }

  lemma ExpireNone(s: State, k: Kind, items: seq<nat>)
    ensures items[0..] == items && ExpireWalk(s, k, items[..0]) == s
  {
  }

  lemma ExpireMore(s: State, k: Kind, items: seq<nat>, j: nat)
    requires j < |items|
    ensures ExpireWalk(s, k, items[..j + 1]) == ExpireWalk(ExpireWalk(s, k, items[..j]), k, [items[j]])
  {
    hide Finish;
    assert items[..j + 1][..j] == items[..j];
    assert [items[j]][..0] == [];
  }

  lemma Onward(list: seq<nat>, i: nat, items: seq<nat>, j: nat)
    requires i < |list| && j <= |items| && list[i..] == items[j..]
    ensures j < |items| && list[i] == items[j] && list[i + 1..] == items[j + 1..]
  {
    assert list[i..][0] == items[j..][0];
    assert list[i..][1..] == list[i + 1..] && items[j..][1..] == items[j + 1..];
  }

  lemma FirstIs(ns: seq<Node>, max: nat)
    requires max == if |ns| < ASK_FIRST then |ns| else ASK_FIRST
    ensures First(ns) == ns[..max] && ns[..0] == []
  {
  }

  lemma AskAllNone(env: Env, s: State, k: Kind, serial: nat)
    requires serial in Of(s, k).live
    ensures AskAll(env, s, k, serial, []) == s
  {
  }

  lemma AskAllMore(env: Env, s: State, k: Kind, serial: nat, ns: seq<Node>, j: nat)
    requires serial in Of(s, k).live && j < |ns|
    ensures AskAll(env, s, k, serial, ns[..j + 1])
         == Ask(env, Remember(AskAll(env, s, k, serial, ns[..j]), k, serial, ns[j].id), serial, ns[j].id)
  {
    hide Ask, Remember;
    assert ns[..j + 1][..j] == ns[..j];
  }

  lemma AskKeeps(env: Env, s: State, serial: nat, node: Id)
    ensures Ask(env, s, serial, node).lookups == s.lookups
    ensures Ask(env, s, serial, node).announces == s.announces
  {
  }

  lemma LearnAllNone(env: Env, s: State, resolve: Option<(Kind, Id)>)
    requires Sound(s)
    ensures LearnAll(env, s, resolve, []) == s
  {
  }

  lemma LearnAllMore(env: Env, s: State, resolve: Option<(Kind, Id)>, xs: seq<(Id, Address)>, x: (Id, Address))
    requires Sound(s)
    ensures LearnAll(env, s, resolve, xs + [x])
         == LearnOne(env, LearnAll(env, s, resolve, xs), resolve, x.0, x.1)
  {
    hide Sound, LearnOne;
    assert (xs + [x])[..|xs + [x]| - 1] == xs;
  }

  lemma HandedOnMore(list: seq<Ben>, i: nat)
    requires i <= |list|
    ensures i == 0 ==> list[i..] == list
    ensures HandedOn(list[i..]) ==
            if i == |list| || ReadNode(list[i]).None? then []
            else [ReadNode(list[i]).value] + HandedOn(list[i + 1..])
  {
    hide ReadNode;
    if i < |list| {
      assert list[i..][1..] == list[i + 1..];
    }
  }
}
