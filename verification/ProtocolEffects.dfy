/** What single steps of the protocol do, in terms of what is recorded and of which nodes and requests
    are known afterwards. */
module ProtocolEffects {
  import opened Ids
  import opened Options
  import opened Bencode
  import opened BencodeUnchecked
  import opened Routing
  import opened RoutingSplit
  import opened Neighborhood
  import opened NodeMessage
  import opened IndexedTable
  import opened Tables
  import opened Protocol
  import opened SessionHistory
  import opened ProtocolSafety

  // ---- replies that nobody asked for

  /** A reply handler does nothing for a session id that is not open. */
  lemma UncheckedReply(env: Env, s: State, k: Option<Kind>, msg: Ben, id: Id, sid: Id, from: Address)
    requires Sound(s) && sid !in s.sessions
    ensures Linked(s.nbhd) && Pong(env, s, id, sid, from) == s
    ensures NodeList(env, s, k, msg, id, sid) == s
    ensures ValueReply(s, msg, sid) == s
  {
    LinkedOf(s);
    hide Sound, LearnAll, Resolve, Success, HandedOn, SearchDict;
  }

  /** The sender of a packet is learned; if it names no open session, nothing else happens. */
  lemma UncheckedPacket(env: Env, s: State, msg: Ben, from: Address, id: Id, sid: Id)
    requires Sound(s) && id != s.own
    requires SearchDict(msg, [0x69]) == Some(Str(id)) && SearchDict(msg, [0x6B]) == Some(Str(sid))
    requires Linked(s.nbhd) && sid !in LearnNode(env, s, id, from).sessions
    ensures Packet(env, s, msg, from) == LearnNode(env, s, id, from)
  {
    LearnNodeSound(env, s, id, from);
    var l := LearnNode(env, s, id, from);
    UncheckedReply(env, l, None, msg, id, sid, from);
    UncheckedReply(env, l, Some(Announces), msg, id, sid, from);
    UncheckedReply(env, l, Some(Lookups), msg, id, sid, from);
    hide Sound, LearnNode, Pong, NodeList, ValueReply, SearchDict;
  }

  /** A packet without a sender's id or session id of 20 bytes, or from the own id, does nothing. */
  lemma IgnoredPacket(env: Env, s: State, msg: Ben, from: Address)
    requires Sound(s)
    requires var id, sid := SearchDict(msg, [0x69]), SearchDict(msg, [0x6B]);
             || !IsStrOf(id, 20) || !IsStrOf(sid, 20) || id == Some(Str(s.own))
    ensures Packet(env, s, msg, from) == s
  {
    hide Sound, SearchDict;
  }

  /** Which handler the query letter leads to: o, F, A, L and V are replies, and the letters of
      requests and all else lead to none of these. */
  lemma Dispatch(env: Env, s: State, msg: Ben, from: Address, id: Id, sid: Id, letter: Byte)
    requires Sound(s) && Linked(s.nbhd) && id != s.own
    requires SearchDict(msg, [0x69]) == Some(Str(id)) && SearchDict(msg, [0x6B]) == Some(Str(sid))
    requires SearchDict(msg, [0x71]) == Some(Str([letter]))
    ensures var l := LearnNode(env, s, id, from);
            && Sound(l) && Linked(l.nbhd)
            && Packet(env, s, msg, from)
            == if letter == 0x6F then Pong(env, l, id, sid, from)
               else if letter == 0x46 then NodeList(env, l, None, msg, id, sid)
               else if letter == 0x41 then NodeList(env, l, Some(Announces), msg, id, sid)
               else if letter == 0x4C then NodeList(env, l, Some(Lookups), msg, id, sid)
               else if letter == 0x56 then ValueReply(l, msg, sid)
               else l
  {
    hide Sound, LearnNode, Pong, NodeList, ValueReply, SearchDict, Reachable, Linked;
    LearnNodeSound(env, s, id, from);
    LinkedOf(LearnNode(env, s, id, from));
  }

  // ---- nodes

  predicate About5Minutes(s: State, time: int) {
    s.now + 240 <= time < s.now + 360
  }

  /** Learning a node: nothing for the own id; a known one gets the address; a new one is entered
      with one ping outstanding, and two more ids are open afterwards, for the PING and the FIND. */
  lemma LearnNodeEffect(env: Env, s: State, id: Id, addr: Address)
    requires Sound(s)
    ensures Linked(s.nbhd)
    ensures var r := LearnNode(env, s, id, addr);
            && Linked(r.nbhd)
            && (id == s.own ==> r == s)
            && (id != s.own && FindNode(s.nbhd, id).Some? ==>
                  && r == s.(nbhd := r.nbhd)
                  && FindNode(r.nbhd, id).Some? && NodeAt(r.nbhd, id) == NodeAt(s.nbhd, id).(addr := addr))
            && (id != s.own && FindNode(s.nbhd, id).None? ==>
                  && r.drawn == s.drawn + 4
                  && env.id(s.drawn + 2) in r.sessions && env.id(s.drawn + 3) in r.sessions
                  && FindNode(r.nbhd, id).Some? && NewNode(s, NodeAt(r.nbhd, id), id, addr))
  {
    hide Sound, Reachable, NeighborhoodPut, FindNode, NodeAt, CachePut, NodesOf;
    LinkedOf(s);
    ReachableOf(s);
    NeighborhoodPutEffect(s.nbhd, s.own, id, addr, ApproxFiveMinutes(env, s, s.drawn),
                          ApproxFiveMinutes(env, s, s.drawn + 1));
    if id == s.own || FindNode(s.nbhd, id).Some? {
      hide Learned;
    } else {
      TwoMore(env, Routed(s, Learned(env, s, id, addr), 2));
    }
  }

  lemma TwoMore(env: Env, s: State)
    ensures var r := CachePut(env, CachePut(env, s, true), true);
            && r.drawn == s.drawn + 2 && r.nbhd == s.nbhd
            && env.id(s.drawn) in r.sessions && env.id(s.drawn + 1) in r.sessions
  {
  }

  predicate NewNode(s: State, n: Node, id: Id, addr: Address) {
    n.id == id && n.addr == addr && n.pinged == 1 && About5Minutes(s, n.timePing) && About5Minutes(s, n.timeFind)
  }

  predicate Knows(s: State, id: Id)
    requires Linked(s.nbhd)
  {
    FindNode(s.nbhd, id).Some?
  }

  function AddressOf(s: State, id: Id): Address
    requires Linked(s.nbhd) && Knows(s, id)
  {
    NodeAt(s.nbhd, id).addr
  }

  /** After learning one node, it is known under its address, and every other is what it was. */
  lemma LearnOneKnows(env: Env, s: State, resolve: Option<(Kind, Id)>, x: (Id, Address), id: Id)
    requires Sound(s) && id != s.own
    ensures Linked(s.nbhd)
    ensures var r := LearnOne(env, s, resolve, x.0, x.1);
            && Linked(r.nbhd)
            && (Knows(r, id) <==> Knows(s, id) || x.0 == id)
            && (Knows(r, id) ==> AddressOf(r, id) == if x.0 == id then x.1 else AddressOf(s, id))
  {
    LinkedOf(s);
    hide LearnNode, Knows, AddressOf;
    if resolve.Some? {
      var (k, lkp) := resolve.value;
      ResolveSound(env, s, k, lkp, x.0);
      hide Sound, Resolve;
      var m := Resolve(env, s, k, lkp, x.0);
      LearnNodeKnows(env, m, x, id);
      KnowsTable(s, m, id);
    } else {
      LearnNodeKnows(env, s, x, id);
    }
  }

  lemma KnowsTable(s: State, m: State, id: Id)
    requires Linked(s.nbhd) && m.nbhd == s.nbhd
    ensures Knows(s, id) <==> Knows(m, id)
    ensures Knows(s, id) ==> AddressOf(s, id) == AddressOf(m, id)
  {
  }

  lemma LearnNodeKnows(env: Env, s: State, x: (Id, Address), id: Id)
    requires Sound(s) && id != s.own
    ensures Linked(s.nbhd)
    ensures var r := LearnNode(env, s, x.0, x.1);
            && Linked(r.nbhd)
            && (Knows(r, id) <==> Knows(s, id) || x.0 == id)
            && (Knows(r, id) ==> AddressOf(r, id) == if x.0 == id then x.1 else AddressOf(s, id))
  {
    hide Sound, NeighborhoodPut, FindNode, NodeAt, CachePut, LearnNode;
    LearnNodeEffect(env, s, x.0, x.1);
    if x.0 != id {
      NeighborhoodPutOthers(s.nbhd, s.own, x.0, x.1, ApproxFiveMinutes(env, s, s.drawn),
                            ApproxFiveMinutes(env, s, s.drawn + 1), id);
      LearnNodeTable(env, s, x.0, x.1);
    }
  }

  lemma LearnNodeTable(env: Env, s: State, id: Id, addr: Address)
    requires Linked(s.nbhd)
    ensures LearnNode(env, s, id, addr).nbhd == Learned(env, s, id, addr)
  {
    hide NeighborhoodPut;
  }

  /** A node list adds exactly its nodes, the own id aside, to those that are known, and the last
      address listed for a node is the one it has. */
  lemma {:induction false} LearnAllKnows(env: Env, s: State, resolve: Option<(Kind, Id)>,
                                         xs: seq<(Id, Address)>, id: Id)
    requires Sound(s) && id != s.own
    ensures Linked(s.nbhd)
    ensures var r := LearnAll(env, s, resolve, xs);
            && Linked(r.nbhd)
            && (Knows(r, id) <==> Knows(s, id) || Listed(xs, id) < |xs|)
            && (Knows(r, id) ==>
                  AddressOf(r, id) == if Listed(xs, id) < |xs| then xs[Listed(xs, id)].1 else AddressOf(s, id))
    decreases |xs|
  {
    hide Sound, LearnOne, Knows, AddressOf, Linked;
    LinkedOf(s);
    if xs != [] {
      var front := xs[..|xs| - 1];
      LearnAllKnows(env, s, resolve, front, id);
      LearnOneKnows(env, LearnAll(env, s, resolve, front), resolve, xs[|xs| - 1], id);
    }
  }

  /** The last place of an id in a node list, or its length. */
  function Listed(xs: seq<(Id, Address)>, id: Id): (i: nat)
    ensures i <= |xs|
    ensures i < |xs| ==> xs[i].0 == id
    ensures forall j :: 0 <= j < |xs| && xs[j].0 == id ==> j <= i
    ensures i == |xs| ==> forall j :: 0 <= j < |xs| ==> xs[j].0 != id
  {
    if xs == [] then 0
    else if xs[|xs| - 1].0 == id then |xs| - 1
    else
      var i := Listed(xs[..|xs| - 1], id);
      if i < |xs| - 1 then i else |xs|
  }

  /** A PONG with an open session clears the pings of its sender, sets its next ping about five
      minutes ahead and takes its address; no other node changes. */
  lemma PongEffect(env: Env, s: State, id: Id, sid: Id, from: Address)
    requires Sound(s) && sid in s.sessions
    ensures Linked(s.nbhd)
    ensures var r := Pong(env, s, id, sid, from);
            && Linked(r.nbhd) && r.lookups == s.lookups && r.announces == s.announces
            && (!Knows(s, id) ==> r.nbhd == s.nbhd)
            && (Knows(s, id) ==>
                  && Knows(r, id)
                  && var m, n := NodeAt(s.nbhd, id), NodeAt(r.nbhd, id);
                     && n == m.(pinged := 0, addr := from, timePing := n.timePing)
                     && About5Minutes(s, n.timePing)
                     && NodesOf(r.nbhd.buckets) + multiset{m} == NodesOf(s.nbhd.buckets) + multiset{n})
  {
    LinkedOf(s);
    hide Sound, FindNode, NodeAt, NodesOf, Updated;
    if Knows(s, id) {
      var time := ApproxFiveMinutes(env, s, s.drawn);
      NodeAtId(s.nbhd, id);
      UpdatedExchanges(s.nbhd, id, NodeAt(s.nbhd, id).(pinged := 0, timePing := time, addr := from));
    }
  }

  lemma NodeAtId(t: Routing.Table, id: Id)
    requires Linked(t) && FindNode(t, id).Some?
    ensures NodeAt(t, id).id == id
  {
  }

  // ---- asking

  lemma CachePutTimes(env: Env, s: State, serial: nat, node: Id)
    ensures Times(CachePut(env, s, true).trace, Asked(serial, node)) == Times(s.trace, Asked(serial, node))
  {
    hide Times;
    var sid := env.id(s.drawn);
    OneMore(s.trace, Issued(sid, Session(true, s.now + ONE_MINUTE)), Asked(serial, node));
  }

  /** Resolving asks the node named, if the request is known and the node neither remembered nor the
      own one, and asks nobody else; afterwards it is remembered, and no other request has changed. */
  lemma ResolveAsks(env: Env, s: State, k: Kind, lkp: Id, node: Id, x: nat, y: Id)
    requires Sound(s)
    ensures var r, t := Resolve(env, s, k, lkp, node), Of(s, k);
            && Times(r.trace, Asked(x, y))
            == Times(s.trace, Asked(x, y))
               + (if lkp in t.index && x == t.index[lkp] && y == node
                     && node !in t.live[x].body.asked && node != s.own then 1 else 0)
            && (lkp in t.index ==>
                  Of(r, k) == t.(live := t.live[t.index[lkp] := Remembering(t.live[t.index[lkp]], node)]))
            && (lkp !in t.index ==> r == s)
            && Of(r, if k.Lookups? then Announces else Lookups) == Of(s, if k.Lookups? then Announces else Lookups)
  {
    var t := Of(s, k);
    hide Sound, Times;
    if lkp in t.index {
      IndexLive(s, k, lkp);
      var serial := t.index[lkp];
      AlreadyRemembers(t, serial, node);
      hide CachePut;
      CachePutTimes(env, s, x, y);
      CachePutSame(env, s, true);
      OneMore(CachePut(env, s, true).trace, Asked(serial, node), Asked(x, y));
    }
  }

  /** The request with one more remembered node. */
  function Remembering(p: Payload<Request>, node: Id): Payload<Request> {
    p.(body := p.body.(asked := p.body.asked + {node}))
  }

  lemma AlreadyRemembers(t: Requests, serial: nat, node: Id)
    requires serial in t.live
    ensures node in t.live[serial].body.asked ==>
              t == t.(live := t.live[serial := Remembering(t.live[serial], node)])
  {
    if node in t.live[serial].body.asked {
      assert t.live[serial].body.asked + {node} == t.live[serial].body.asked;
      assert t.live == t.live[serial := Remembering(t.live[serial], node)];
    }
  }

  function Named(xs: seq<(Id, Address)>): set<Id> {
    set i | 0 <= i < |xs| :: xs[i].0
  }

  /** Over a whole node list, the request named comes to remember exactly the nodes listed. */
  lemma {:induction false} LearnAllAsks(env: Env, s: State, k: Kind, lkp: Id, xs: seq<(Id, Address)>)
    requires Sound(s) && lkp in Of(s, k).index
    ensures var r, t := LearnAll(env, s, Some((k, lkp)), xs), Of(s, k);
            && t.index[lkp] in t.live
            && Of(r, k).index == t.index && Of(r, k).live.Keys == t.live.Keys
            && Of(r, k).live[t.index[lkp]].body.asked == t.live[t.index[lkp]].body.asked + Named(xs)
    decreases |xs|
  {
    hide Sound, LearnOne, Of;
    IndexLive(s, k, lkp);
    if xs != [] {
      var front, last := xs[..|xs| - 1], xs[|xs| - 1];
      LearnAllAsks(env, s, k, lkp, front);
      LearnOneAsks(env, LearnAll(env, s, Some((k, lkp)), front), k, lkp, last);
      assert Named(xs) == Named(front) + {last.0};
    }
  }

  lemma IndexLive(s: State, k: Kind, lkp: Id)
    requires Sound(s) && lkp in Of(s, k).index
    ensures Of(s, k).index[lkp] in Of(s, k).live
  {
    hide Reachable;
  }

  lemma LearnOneAsks(env: Env, s: State, k: Kind, lkp: Id, x: (Id, Address))
    requires Sound(s) && lkp in Of(s, k).index
    ensures var r, t := LearnOne(env, s, Some((k, lkp)), x.0, x.1), Of(s, k);
            && t.index[lkp] in t.live
            && Of(r, k).index == t.index && Of(r, k).live.Keys == t.live.Keys
            && Of(r, k).live[t.index[lkp]].body.asked == t.live[t.index[lkp]].body.asked + {x.0}
  {
    hide Sound, Resolve, LearnNode, Times;
    IndexLive(s, k, lkp);
    ResolveAsks(env, s, k, lkp, x.0, 0, x.0);
    ResolveSound(env, s, k, lkp, x.0);
    LearnNodeSound(env, Resolve(env, s, k, lkp, x.0), x.0, x.1);
  }

  /** A new request of a daemon whose best match holds nodes asks the first 8 of them, once each,
      and nobody else. A lookup lives for 5 seconds, an announcement for 10. */
  lemma StartAsks(env: Env, s: State, k: Kind, target: Id, callback: bool, node: Id)
    requires Safe(s) && (k.Announces? ==> !callback)
    ensures Linked(s.nbhd)
    ensures var ns, r := s.nbhd.buckets[BestMatch(s.nbhd, target)].nodes, Start(env, s, k, target, callback);
            ns != [] ==>
              && Times(r.trace, Asked(s.next, node))
              == (if exists i :: 0 <= i < |ns| && i < 8 && ns[i].id == node then 1 else 0)
              && s.next in Of(r, k).live
              && var q := Of(r, k).live[s.next];
                 && q.id == env.id(s.drawn) && q.body.target == target && q.body.callback == callback
                 && q.body.time == s.now + if k.Lookups? then 5 else 10
  {
    hide Safe;
    SoundOf(s);
    var b := BestMatch(s.nbhd, target);
    var ns := s.nbhd.buckets[b].nodes;
    if ns != [] {
      var m := Enlist(env, s, k, target, callback);
      EnlistSafe(env, s, k, target, callback);
      BucketNodes(s, b);
      hide Sound, Reachable, BestMatch, Enlist;
      EnlistNew(env, s, k, target, callback);
      AskAllSafe(env, m, k, s.next, First(ns));
      AskAllKeeps(env, m, k, s.next, First(ns));
      FirstEight(ns, node);
      var r := AskAll(env, m, k, s.next, First(ns));
      StartIs(env, s, k, target, callback);
      AskedOf(r, k, s.next, node);
    }
  }

  lemma StartIs(env: Env, s: State, k: Kind, target: Id, callback: bool)
    requires Linked(s.nbhd)
    ensures var ns := s.nbhd.buckets[BestMatch(s.nbhd, target)].nodes;
            ns != [] ==>
              Start(env, s, k, target, callback)
              == AskAll(env, Enlist(env, s, k, target, callback), k, s.next, First(ns))
  {
    hide BestMatch, AskAll;
  }

  lemma EnlistNew(env: Env, s: State, k: Kind, target: Id, callback: bool)
    ensures var q := Of(Enlist(env, s, k, target, callback), k).live[s.next];
            q == Payload(env.id(s.drawn), Request(target, {}, callback, s.now + if k.Lookups? then 5 else 10))
  {
  }

  lemma AskedOf(s: State, k: Kind, serial: nat, node: Id)
    requires Safe(s) && serial in Of(s, k).live
    ensures Times(s.trace, Asked(serial, node))
         == if node in Of(s, k).live[serial].body.asked && node != s.own then 1 else 0
  {
    hide Sound, Times;
    assert AskedOk(s, serial, node);
  }

  lemma FirstEight(ns: seq<Node>, node: Id)
    ensures (exists i :: 0 <= i < |First(ns)| && First(ns)[i].id == node)
        <==> exists i :: 0 <= i < |ns| && i < 8 && ns[i].id == node
  {
    assert forall i :: 0 <= i < |First(ns)| ==> First(ns)[i] == ns[i];
    if i :| 0 <= i < |ns| && i < 8 && ns[i].id == node {
      assert First(ns)[i].id == node;
    }
  }

  /** Asking changes nothing of a request but whom it remembers. */
  lemma {:induction false} AskAllKeeps(env: Env, s: State, k: Kind, serial: nat, ns: seq<Node>)
    requires serial in Of(s, k).live
    ensures var r := AskAll(env, s, k, serial, ns);
            && Of(r, k).live[serial].id == Of(s, k).live[serial].id
            && Of(r, k).live[serial].body
            == Of(s, k).live[serial].body.(asked := Of(r, k).live[serial].body.asked)
    decreases |ns|
  {
    if ns != [] {
      AskAllKeeps(env, s, k, serial, ns[..|ns| - 1]);
    }
  }

  /** Of one listed node the request asks first; the messages to a new node come after. */
  lemma AskedBeforeLearned(env: Env, s: State, k: Kind, lkp: Id, id: Id, addr: Address)
    requires Sound(s)
    ensures lkp in Of(s, k).index ==> Of(s, k).index[lkp] in Of(s, k).live
    ensures Resolve(env, s, k, lkp, id).trace <= LearnOne(env, s, Some((k, lkp)), id, addr).trace
  {
    hide Sound, Resolve;
    if lkp in Of(s, k).index {
      IndexLive(s, k, lkp);
    }
    ResolveSound(env, s, k, lkp, id);
    LinkedOf(Resolve(env, s, k, lkp, id));
    LearnNodeTrace(env, Resolve(env, s, k, lkp, id), id, addr);
  }

  lemma LearnNodeTrace(env: Env, s: State, id: Id, addr: Address)
    requires Linked(s.nbhd)
    ensures s.trace <= LearnNode(env, s, id, addr).trace
  {
    hide Learned;
  }

  // ---- expiry

  lemma {:induction false} ExpireWalkOther(s: State, k: Kind, items: seq<nat>)
    ensures var r, other := ExpireWalk(s, k, items), if k.Lookups? then Announces else Lookups;
            Of(r, other) == Of(s, other)
    decreases |items|
  {
    if items != [] {
      ExpireWalkOther(s, k, items[..|items| - 1]);
    }
  }

  /** An expiry ends exactly the lookups and announcements whose time has gone by, calls back once
      without an address for each such lookup that has a callback and for nothing else, and passes
      over the nodes. */
  lemma ExpiryEffect(env: Env, s: State, x: nat)
    requires Safe(s)
    ensures Sound(s)
    ensures var r := Step(env, s, Expiry);
            && r.nbhd == s.nbhd.(buckets := ExpiredBuckets(s.nbhd.buckets))
            && (x in r.lookups.live <==> x in s.lookups.live && s.now <= s.lookups.live[x].body.time)
            && (x in r.announces.live <==> x in s.announces.live && s.now <= s.announces.live[x].body.time)
            && Times(r.trace, Callback(x, true)) == Times(s.trace, Callback(x, true))
            && Times(r.trace, Callback(x, false))
            == Times(s.trace, Callback(x, false))
               + (if x in s.lookups.live && s.now > s.lookups.live[x].body.time
                     && s.lookups.live[x].body.callback then 1 else 0)
  {
    hide Safe, ExpireWalk, Times, ExpiredBuckets, Reachable;
    SoundOf(s);
    SilentAnnouncement(s, x);
    ListsAll(s);
    hide Sound;
    var a := ExpireWalk(s, Announces, s.announces.list);
    ExpireWalkEnds(s, Announces, s.announces.list, x);
    ExpireWalkOther(s, Announces, s.announces.list);
    ExpireWalkSafe(s, Announces, s.announces.list);
    CacheExpireSafe(a);
    var b := CacheExpire(a);
    OneMore(a.trace, Expired(a.now, Overdue(a.sessions, a.now)), Callback(x, true));
    OneMore(a.trace, Expired(a.now, Overdue(a.sessions, a.now)), Callback(x, false));
    SoundOf(b);
    ExpiredKeepsReachable(b.nbhd, b.own);
    var c := Routed(b, b.nbhd.(buckets := ExpiredBuckets(b.nbhd.buckets)), 0);
    RoutedSafe(b, c.nbhd, 0);
    SoundOf(c);
    ExpireWalkEnds(c, Lookups, c.lookups.list, x);
    ExpireWalkOther(c, Lookups, c.lookups.list);
  }

  lemma SilentAnnouncement(s: State, x: nat)
    requires Safe(s)
    ensures x in s.announces.live ==> !s.announces.live[x].body.callback
  {
    hide Sound, Times;
    assert CallbackOk(s, x);
  }

  lemma ListsAll(s: State)
    requires Sound(s)
    ensures NoDuplicates(s.lookups.list) && NoDuplicates(s.announces.list)
    ensures forall x :: x in s.lookups.list <==> x in s.lookups.live
    ensures forall x :: x in s.announces.list <==> x in s.announces.live
  {
  }

  /** What the inputs of a run do: a packet is handled, a lookup or the announcement of the host is
      listed with its target, and the clock is set. */
  lemma InputEffect(env: Env, s: State, msg: Ben, from: Address, target: Id, callback: bool, now: int)
    requires Safe(s)
    ensures Sound(s)
    ensures Step(env, s, Receive(msg, from)) == Packet(env, s, msg, from)
    ensures Step(env, s, Clock(now)) == s.(now := now)
    ensures var r := Step(env, s, Protocol.Lookup(target, callback));
            s.next in r.lookups.live && r.lookups.live[s.next].body.target == target
            && r.lookups.live[s.next].body.callback == callback
    ensures s.host.None? ==> Step(env, s, Announce) == s
    ensures s.host.Some? ==>
              var r := Step(env, s, Announce);
              s.next in r.announces.live && r.announces.live[s.next].body.target == s.host.value
              && !r.announces.live[s.next].body.callback
  {
    hide Safe, Packet, Start, ExpireWalk, Reachable, Sound;
    SoundOf(s);
    StartLists(env, s, Lookups, target, callback);
    if s.host.Some? {
      StartLists(env, s, Announces, s.host.value, false);
    }
  }

  lemma StartLists(env: Env, s: State, k: Kind, target: Id, callback: bool)
    requires Linked(s.nbhd)
    ensures var r := Start(env, s, k, target, callback);
            && s.next in Of(r, k).live
            && Of(r, k).live[s.next].body.target == target && Of(r, k).live[s.next].body.callback == callback
  {
    hide Enlist, AskAll, First;
    EnlistNew(env, s, k, target, callback);
    var m := Enlist(env, s, k, target, callback);
    match AnyMatch(env, m, target) {
      case Some(b) => AskAllKeeps(env, m, k, s.next, First(m.nbhd.buckets[b].nodes));
      case None =>
    }
  }
}
