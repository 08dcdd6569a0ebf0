/** What holds in every run of the protocol. */
module ProtocolSafety {
  import opened Ids
  import opened Options
  import opened Bencode
  import opened BencodeUnchecked
  import opened Routing
  import opened RoutingSplit
  import opened Neighborhood
  import opened NodeMessage
  import opened IndexedTable
  import opened Tables
  import opened Protocol
  import opened SessionHistory

  /** How often an event was recorded. */
  function Times(trace: seq<Event>, e: Event): nat {
    if trace == [] then 0
    else Times(trace[..|trace| - 1], e) + if trace[|trace| - 1] == e then 1 else 0
  }

  lemma OneMore(trace: seq<Event>, e: Event, x: Event)
    ensures Times(trace + [e], x) == Times(trace, x) + if e == x then 1 else 0
  {
    assert (trace + [e])[..|trace + [e]| - 1] == trace;
  }

  /** A request asks a node at most once and never the own one, and while it is live it has asked
      exactly the other nodes that it remembers. */
  ghost predicate AskedOk(s: State, serial: nat, node: Id) {
    var t := Times(s.trace, Asked(serial, node));
    && t <= 1
    && (node == s.own || serial >= s.next ==> t == 0)
    && (serial in s.lookups.live && node != s.own ==>
          (t == 1 <==> node in s.lookups.live[serial].body.asked))
    && (serial in s.announces.live && node != s.own ==>
          (t == 1 <==> node in s.announces.live[serial].body.asked))
  }

  /** How often a request called back. */
  function Fired(trace: seq<Event>, serial: nat): nat {
    Times(trace, Callback(serial, true)) + Times(trace, Callback(serial, false))
  }

  /** A request that was started with a callback has called back once if it is over and not yet if
      it is live; no other request calls back. */
  ghost predicate CallbackOk(s: State, serial: nat) {
    var wants := Times(s.trace, Started(serial, true));
    && (serial >= s.next ==> wants == 0 && Fired(s.trace, serial) == 0)
    && wants <= 1
    && (serial in s.lookups.live ==>
          Fired(s.trace, serial) == 0 && (s.lookups.live[serial].body.callback <==> wants == 1))
    && (serial in s.announces.live ==>
          Fired(s.trace, serial) == 0 && wants == 0 && !s.announces.live[serial].body.callback)
    && (serial !in s.lookups.live && serial !in s.announces.live ==> Fired(s.trace, serial) == wants)
  }

  /** The session table is what the record of events leaves open, and the record is lawful. */
  ghost predicate SessionsOk(s: State) {
    Lawful(s.trace) && Open(s.trace) == s.sessions
  }

  ghost predicate Safe(s: State) {
    && Sound(s)
    && (forall serial, node :: AskedOk(s, serial, node))
    && (forall serial :: CallbackOk(s, serial))
    && SessionsOk(s)
  }

  // ---- the small steps

  lemma CachePutSafe(env: Env, s: State, unicast: bool)
    requires Safe(s)
    ensures Safe(CachePut(env, s, unicast))
    ensures CachePut(env, s, unicast).lookups == s.lookups && CachePut(env, s, unicast).announces == s.announces
  {
    hide Sound, Times;
    var sid := env.id(s.drawn);
    var r := CachePut(env, s, unicast);
    var e := Issued(sid, Session(unicast, s.now + ONE_MINUTE));
    if sid !in s.sessions {
      OneMoreEvent(s.trace, e);
      forall x
        ensures Times(r.trace, x) == Times(s.trace, x) + if e == x then 1 else 0
      {
        OneMore(s.trace, e, x);
      }
    }
    StillSafe(s, r);
    CachePutSame(env, s, unicast);
    SoundOf(s);
    SameRequestsSound(s, r);
  }

  /** Nothing about asking and calling back has changed. */
  lemma StillSafe(s: State, r: State)
    requires Safe(s) && r.own == s.own && r.next == s.next
    requires r.lookups == s.lookups && r.announces == s.announces
    requires forall serial, node :: Times(r.trace, Asked(serial, node)) == Times(s.trace, Asked(serial, node))
    requires forall serial, b :: Times(r.trace, Started(serial, b)) == Times(s.trace, Started(serial, b))
    requires forall serial, b :: Times(r.trace, Callback(serial, b)) == Times(s.trace, Callback(serial, b))
    ensures forall serial, node :: AskedOk(r, serial, node)
    ensures forall serial :: CallbackOk(r, serial)
  {
    hide Sound, Times, SessionsOk;
    forall serial, node
      ensures AskedOk(r, serial, node)
    {
      assert AskedOk(s, serial, node);
    }
    forall serial
      ensures CallbackOk(r, serial)
    {
      assert CallbackOk(s, serial);
    }
  }

  lemma SoundOf(s: State)
    requires Safe(s)
    ensures Sound(s) && Reachable(s.nbhd, s.own) && Linked(s.nbhd)
  {
  }

  lemma CacheValidateSafe(s: State, sid: Id)
    requires Safe(s)
    ensures Safe(CacheValidate(s, sid).0)
    ensures CacheValidate(s, sid).1 <==> sid in s.sessions
  {
    hide Sound, Times;
    var r := CacheValidate(s, sid).0;
    if sid in s.sessions {
      var e := Passed(sid, s.sessions[sid]);
      OneMoreEvent(s.trace, e);
      forall x
        ensures Times(r.trace, x) == Times(s.trace, x) + if e == x then 1 else 0
      {
        OneMore(s.trace, e, x);
      }
      StillSafe(s, r);
      SameItself(s);
      SoundOf(s);
      SameRequestsSound(s, r);
    }
  }

  lemma CacheExpireSafe(s: State)
    requires Safe(s)
    ensures Safe(CacheExpire(s))
  {
    hide Sound, Times;
    var r := CacheExpire(s);
    var e := Expired(s.now, Overdue(s.sessions, s.now));
    OneMoreEvent(s.trace, e);
    assert Next(s.sessions, e) == r.sessions;
    forall x
      ensures Times(r.trace, x) == Times(s.trace, x) + if e == x then 1 else 0
    {
      OneMore(s.trace, e, x);
    }
    StillSafe(s, r);
    SameItself(s);
    SoundOf(s);
    SameRequestsSound(s, r);
  }

  /** Events of requests leave the sessions as they are. */
  lemma SessionsUntouched(s: State, r: State)
    requires Safe(s) && r.sessions == s.sessions
    requires r.trace == s.trace
          || exists e: Event :: r.trace == s.trace + [e] && (e.Started? || e.Asked? || e.Callback?)
                                && Answers(s.trace, e)
    ensures SessionsOk(r)
  {
    hide Sound, AskedOk, CallbackOk;
    if r.trace != s.trace {
      var e: Event :| r.trace == s.trace + [e] && (e.Started? || e.Asked? || e.Callback?)
                      && Answers(s.trace, e);
      OneMoreEvent(s.trace, e);
    }
  }

  /** The own node is remembered and not asked. */
  lemma RememberSafe(s: State, k: Kind, serial: nat)
    requires Safe(s) && serial in Of(s, k).live
    ensures Safe(Remember(s, k, serial, s.own))
  {
    hide Sound, Times, AskedOk, CallbackOk, SessionsOk;
    var r := Remember(s, k, serial, s.own);
    RememberSame(s, k, serial, s.own);
    SoundOf(s);
    SameRequestsSound(s, r);
    forall x, y
      ensures AskedOk(r, x, y)
    {
      RememberAsked(s, k, serial, x, y);
    }
    forall x
      ensures CallbackOk(r, x)
    {
      RememberCallback(s, r, k, serial, s.own, x);
    }
    SessionsUntouched(s, r);
  }

  lemma RememberAsked(s: State, k: Kind, serial: nat, x: nat, y: Id)
    requires Safe(s) && serial in Of(s, k).live
    ensures AskedOk(Remember(s, k, serial, s.own), x, y)
  {
    hide Sound, Times, CallbackOk, SessionsOk;
    assert AskedOk(s, x, y);
  }

  lemma RememberCallback(s: State, r: State, k: Kind, serial: nat, node: Id, x: nat)
    requires Safe(s) && serial in Of(s, k).live
    requires r == Remember(s, k, serial, node).(trace := r.trace)
    requires forall b :: Times(r.trace, Started(x, b)) == Times(s.trace, Started(x, b))
    requires forall b :: Times(r.trace, Callback(x, b)) == Times(s.trace, Callback(x, b))
    ensures CallbackOk(r, x)
  {
    hide Sound, Times, AskedOk, SessionsOk;
    assert CallbackOk(s, x);
  }

  /** Asking first and remembering then, or the other way round. */
  lemma AskRememberCommute(env: Env, s: State, k: Kind, serial: nat, node: Id)
    requires serial in Of(s, k).live
    ensures serial in Of(Ask(env, s, serial, node), k).live
    ensures Ask(env, Remember(s, k, serial, node), serial, node)
         == Remember(Ask(env, s, serial, node), k, serial, node)
  {
  }

  lemma AskRememberSafe(env: Env, s: State, k: Kind, serial: nat, node: Id)
    requires Safe(s) && serial in Of(s, k).live
    requires node !in Of(s, k).live[serial].body.asked && node != s.own
    ensures serial in Of(Ask(env, s, serial, node), k).live
    ensures Safe(Remember(Ask(env, s, serial, node), k, serial, node))
  {
    hide CachePut, Safe;
    var c := CachePut(env, s, true);
    CachePutSafe(env, s, true);
    CachePutSame(env, s, true);
    var m := Remember(c, k, serial, node);
    AskedEventSafe(c, m.(trace := c.trace + [Asked(serial, node)]), k, serial, node);
  }

  lemma SoundDisjoint(s: State, k: Kind, serial: nat)
    requires Sound(s) && serial in Of(s, k).live
    ensures serial < s.next
    ensures k.Lookups? ==> serial !in s.announces.live
    ensures k.Announces? ==> serial !in s.lookups.live
  {
    hide Reachable;
  }

  lemma AskedEventSafe(c: State, r: State, k: Kind, serial: nat, node: Id)
    requires Safe(c) && serial in Of(c, k).live
    requires node !in Of(c, k).live[serial].body.asked && node != c.own
    requires r == Remember(c, k, serial, node).(trace := c.trace + [Asked(serial, node)])
    ensures Safe(r)
  {
    hide Sound, Times, AskedOk, CallbackOk, SessionsOk;
    forall x
      ensures Times(r.trace, x) == Times(c.trace, x) + if Asked(serial, node) == x then 1 else 0
    {
      OneMore(c.trace, Asked(serial, node), x);
    }
    forall x, y
      ensures AskedOk(r, x, y)
    {
      AskedNow(c, r, k, serial, node, x, y);
    }
    forall x
      ensures CallbackOk(r, x)
    {
      RememberCallback(c, r, k, serial, node, x);
    }
    SessionsUntouched(c, r);
    RememberSame(c, k, serial, node);
    SoundOf(c);
    SameRequestsSound(c, r);
  }

  lemma AskedNow(c: State, r: State, k: Kind, serial: nat, node: Id, x: nat, y: Id)
    requires Safe(c) && serial in Of(c, k).live
    requires node !in Of(c, k).live[serial].body.asked && node != c.own
    requires r == Remember(c, k, serial, node).(trace := r.trace)
    requires Times(r.trace, Asked(x, y)) == Times(c.trace, Asked(x, y)) + if x == serial && y == node then 1 else 0
    ensures AskedOk(r, x, y)
  {
    hide Times, CallbackOk, SessionsOk;
    assert AskedOk(c, x, y);
    SoundDisjoint(c, k, serial);
    hide Sound;
  }

  lemma ResolveSafe(env: Env, s: State, k: Kind, lkp: Id, node: Id)
    requires Safe(s)
    ensures Safe(Resolve(env, s, k, lkp, node))
  {
    hide AskedOk, CallbackOk, SessionsOk, Ask, Remember, Reachable;
    SoundOf(s);
    var r := Of(s, k);
    if lkp in r.index && node !in r.live[r.index[lkp]].body.asked {
      if node != s.own {
        AskRememberSafe(env, s, k, r.index[lkp], node);
      } else {
        RememberSafe(s, k, r.index[lkp]);
      }
    }
  }

  // ---- starting and ending

  lemma DistinctAppend(list: seq<nat>, x: nat)
    requires NoDuplicates(list) && x !in list
    ensures NoDuplicates(list + [x])
  {
  }

  lemma EnlistSound(env: Env, s: State, k: Kind, target: Id, callback: bool)
    requires Sound(s)
    ensures Sound(Enlist(env, s, k, target, callback))
  {
    hide Reachable;
    var r := Of(Enlist(env, s, k, target, callback), k);
    FreshSerial(s);
    DistinctAppend(Of(s, k).list, s.next);
    assert SoundRequests(r, s.next + 1);
  }

  lemma EnlistSafe(env: Env, s: State, k: Kind, target: Id, callback: bool)
    requires Safe(s) && (k.Announces? ==> !callback)
    ensures Safe(Enlist(env, s, k, target, callback))
  {
    hide Sound, Times, AskedOk, CallbackOk, SessionsOk;
    var r := Enlist(env, s, k, target, callback);
    EnlistSound(env, s, k, target, callback);
    forall x
      ensures Times(r.trace, x) == Times(s.trace, x) + if Started(s.next, callback) == x then 1 else 0
    {
      OneMore(s.trace, Started(s.next, callback), x);
    }
    forall x, y
      ensures AskedOk(r, x, y)
    {
      EnlistAsked(env, s, k, target, callback, x, y);
    }
    forall x
      ensures CallbackOk(r, x)
    {
      EnlistCallback(env, s, k, target, callback, x);
    }
    SessionsUntouched(s, r);
  }

  lemma EnlistAsked(env: Env, s: State, k: Kind, target: Id, callback: bool, x: nat, y: Id)
    requires Safe(s)
    ensures AskedOk(Enlist(env, s, k, target, callback), x, y)
  {
    hide Sound, Times, CallbackOk, SessionsOk;
    assert AskedOk(s, x, y);
    OneMore(s.trace, Started(s.next, callback), Asked(x, y));
  }

  lemma EnlistCallback(env: Env, s: State, k: Kind, target: Id, callback: bool, x: nat)
    requires Safe(s) && (k.Announces? ==> !callback)
    ensures CallbackOk(Enlist(env, s, k, target, callback), x)
  {
    hide Sound, Times, AskedOk, SessionsOk;
    assert CallbackOk(s, x);
    FreshSerial(s);
    OneMore(s.trace, Started(s.next, callback), Started(x, true));
    OneMore(s.trace, Started(s.next, callback), Callback(x, true));
    OneMore(s.trace, Started(s.next, callback), Callback(x, false));
  }

  lemma FreshSerial(s: State)
    requires Sound(s)
    ensures s.next !in s.lookups.live && s.next !in s.announces.live
  {
    hide Reachable;
  }

  lemma DropSound(s: State, k: Kind, serial: nat)
    requires Sound(s) && serial in Of(s, k).live
    ensures Sound(Drop(s, k, serial))
  {
    hide Reachable;
    hide Without, NoDuplicates;
    var r, r' := Of(s, k), Of(Drop(s, k, serial), k);
    WithoutKeepsOthers(r.list, serial);
    forall lkp | lkp in r'.index
      ensures r'.index[lkp] in r'.live && r'.live[r'.index[lkp]].id == lkp
    {
      assert lkp in r.index && r.live[r.index[lkp]].id == lkp;
    }
    assert SoundRequests(r', s.next);
  }

  /** Before its deletion: the request has called back if it should. */
  function Called(s: State, k: Kind, serial: nat, found: bool): State
    requires serial in Of(s, k).live
  {
    if Of(s, k).live[serial].body.callback then s.(trace := s.trace + [Callback(serial, found)]) else s
  }

  lemma FinishSafe(s: State, k: Kind, serial: nat, found: bool)
    requires Safe(s) && serial in Of(s, k).live && (found ==> JustPassed(s.trace))
    ensures Safe(Finish(s, k, serial, found))
  {
    hide Sound, Times, AskedOk, CallbackOk, SessionsOk, Drop;
    var m, r := Called(s, k, serial, found), Finish(s, k, serial, found);
    SoundOf(s);
    SameItself(s);
    SameRequestsSound(s, m);
    DropSound(m, k, serial);
    DropRest(m, k, serial);
    forall x
      ensures Times(r.trace, x) == Times(s.trace, x)
                                   + if m != s && Callback(serial, found) == x then 1 else 0
    {
      OneMore(s.trace, Callback(serial, found), x);
    }
    forall x, y
      ensures AskedOk(r, x, y)
    {
      FinishAsked(s, k, serial, found, x, y);
    }
    forall x
      ensures CallbackOk(r, x)
    {
      FinishCallback(s, k, serial, found, x);
    }
    SessionsUntouched(s, r);
  }

  lemma DropRest(s: State, k: Kind, serial: nat)
    requires serial in Of(s, k).live
    ensures Drop(s, k, serial).trace == s.trace && Drop(s, k, serial).sessions == s.sessions
  {
  }

  lemma FinishAsked(s: State, k: Kind, serial: nat, found: bool, x: nat, y: Id)
    requires Safe(s) && serial in Of(s, k).live
    ensures AskedOk(Finish(s, k, serial, found), x, y)
  {
    hide Sound, Times, CallbackOk, SessionsOk, Without;
    assert AskedOk(s, x, y);
    OneMore(s.trace, Callback(serial, found), Asked(x, y));
  }

  lemma FinishCallback(s: State, k: Kind, serial: nat, found: bool, x: nat)
    requires Safe(s) && serial in Of(s, k).live
    ensures CallbackOk(Finish(s, k, serial, found), x)
  {
    hide Times, AskedOk, SessionsOk, Without, Reachable, SoundRequests;
    assert CallbackOk(s, x);
    SoundDisjoint(s, k, serial);
    OneMore(s.trace, Callback(serial, found), Started(x, true));
    OneMore(s.trace, Callback(serial, found), Callback(x, true));
    OneMore(s.trace, Callback(serial, found), Callback(x, false));
  }

  lemma {:induction false} ExpireWalkSafe(s: State, k: Kind, items: seq<nat>)
    requires Safe(s)
    ensures Safe(ExpireWalk(s, k, items))
    decreases |items|
  {
    hide Safe, Finish;
    if items != [] {
      ExpireWalkSafe(s, k, items[..|items| - 1]);
      var s' := ExpireWalk(s, k, items[..|items| - 1]);
      var serial := items[|items| - 1];
      if serial in Of(s', k).live {
        FinishSafe(s', k, serial, false);
      }
    }
  }

  lemma SuccessSafe(s: State, lkp: Id)
    requires Safe(s) && JustPassed(s.trace)
    ensures Safe(Success(s, lkp))
  {
    SoundOf(s);
    hide AskedOk, CallbackOk, SessionsOk, Finish, Reachable;
    if lkp in s.lookups.index {
      FinishSafe(s, Lookups, s.lookups.index[lkp], true);
    }
  }

  // ---- the larger steps

  /** A new request asks the first nodes of a bucket; it has remembered nobody yet, and a bucket
      holds no id twice and never the own one. */
  lemma {:induction false} AskAllSafe(env: Env, s: State, k: Kind, serial: nat, ns: seq<Node>)
    requires Safe(s) && serial in Of(s, k).live && Of(s, k).live[serial].body.asked == {}
    requires Routing.DistinctIds(ns) && forall n :: n in ns ==> n.id != s.own
    ensures var r := AskAll(env, s, k, serial, ns);
            && Safe(r) && r.own == s.own
            && forall x :: x in Of(r, k).live[serial].body.asked <==> exists i :: 0 <= i < |ns| && ns[i].id == x
    decreases |ns|
  {
    hide Safe, Ask, Remember;
    if ns != [] {
      var front, n := ns[..|ns| - 1], ns[|ns| - 1];
      AskAllSafe(env, s, k, serial, front);
      var s' := AskAll(env, s, k, serial, front);
      AskRememberCommute(env, s', k, serial, n.id);
      AskRememberSafe(env, s', k, serial, n.id);
      AskedGrows(env, s', k, serial, n.id);
      forall x
        ensures x in Of(AskAll(env, s, k, serial, ns), k).live[serial].body.asked
            <==> exists i :: 0 <= i < |ns| && ns[i].id == x
      {
        assert ns == front + [n];
        if i :| 0 <= i < |front| && front[i].id == x {
          assert ns[i].id == x;
        }
        if x == n.id {
          assert ns[|ns| - 1].id == x;
        }
      }
    }
  }

  lemma AskedGrows(env: Env, s: State, k: Kind, serial: nat, node: Id)
    requires serial in Of(s, k).live
    ensures var r := Ask(env, Remember(s, k, serial, node), serial, node);
            && serial in Of(r, k).live && r.own == s.own
            && Of(r, k).live[serial].body.asked == Of(s, k).live[serial].body.asked + {node}
  {
  }

  lemma StartSafe(env: Env, s: State, k: Kind, target: Id, callback: bool)
    requires Safe(s) && (k.Announces? ==> !callback)
    ensures Linked(s.nbhd) && Safe(Start(env, s, k, target, callback))
  {
    hide Safe;
    SoundOf(s);
    hide AskAll, Reachable, First;
    var s' := Enlist(env, s, k, target, callback);
    EnlistSafe(env, s, k, target, callback);
    var b := AnyMatch(env, s', target);
    if b.Some? {
      hide AnyMatch;
      var ns := s'.nbhd.buckets[b.value].nodes;
      BucketNodes(s, b.value);
      AskAllSafe(env, s', k, s.next, First(ns));
    }
  }

  lemma FirstOf(ns: seq<Node>)
    ensures forall n :: n in First(ns) ==> n in ns
    ensures Routing.DistinctIds(ns) ==> Routing.DistinctIds(First(ns))
  {
  }

  lemma BucketNodes(s: State, b: nat)
    requires Safe(s) && b < |s.nbhd.buckets|
    ensures Routing.DistinctIds(First(s.nbhd.buckets[b].nodes))
    ensures forall n :: n in First(s.nbhd.buckets[b].nodes) ==> n.id != s.own
  {
    hide Safe;
    SoundOf(s);
    NotOwn(s.nbhd, s.own, b);
    FirstOf(s.nbhd.buckets[b].nodes);
  }

  lemma RoutedSafe(s: State, nbhd: Routing.Table, draws: nat)
    requires Safe(s) && Reachable(nbhd, s.own)
    ensures Safe(Routed(s, nbhd, draws))
  {
    hide Times, Reachable;
    var r := Routed(s, nbhd, draws);
    StillSafe(s, r);
    SessionsUntouched(s, r);
  }

  lemma LearnedReachable(env: Env, s: State, id: Id, addr: Address)
    requires Reachable(s.nbhd, s.own)
    ensures Reachable(Learned(env, s, id, addr), s.own)
  {
    hide Reachable, NeighborhoodPut;
    NeighborhoodPutKeepsReachable(s.nbhd, s.own, id, addr, ApproxFiveMinutes(env, s, s.drawn),
                                  ApproxFiveMinutes(env, s, s.drawn + 1));
  }

  lemma LearnNodeSafe(env: Env, s: State, id: Id, addr: Address)
    requires Safe(s)
    ensures Linked(s.nbhd) && Safe(LearnNode(env, s, id, addr))
  {
    hide Safe;
    SoundOf(s);
    hide CachePut, Learned, Reachable, FindNode;
    LearnedReachable(env, s, id, addr);
    hide Routed;
    var a := Routed(s, Learned(env, s, id, addr), 2);
    RoutedSafe(s, a.nbhd, 0);
    RoutedSafe(s, a.nbhd, 2);
    CachePutSafe(env, a, true);
    CachePutSafe(env, CachePut(env, a, true), true);
  }

  lemma LearnOneSafe(env: Env, s: State, resolve: Option<(Kind, Id)>, id: Id, addr: Address)
    requires Safe(s)
    ensures Sound(s) && Safe(LearnOne(env, s, resolve, id, addr))
  {
    hide Safe;
    SoundOf(s);
    hide LearnNode, Resolve;
    match resolve {
      case None => LearnNodeSafe(env, s, id, addr);
      case Some((k, lkp)) =>
        ResolveSafe(env, s, k, lkp, id);
        LearnNodeSafe(env, Resolve(env, s, k, lkp, id), id, addr);
    }
  }

  lemma {:induction false} LearnAllSafe(env: Env, s: State, resolve: Option<(Kind, Id)>, xs: seq<(Id, Address)>)
    requires Safe(s)
    ensures Sound(s) && Safe(LearnAll(env, s, resolve, xs))
    decreases |xs|
  {
    hide Safe;
    SoundOf(s);
    hide LearnOne;
    if xs != [] {
      LearnAllSafe(env, s, resolve, xs[..|xs| - 1]);
      var (id, addr) := xs[|xs| - 1];
      LearnOneSafe(env, LearnAll(env, s, resolve, xs[..|xs| - 1]), resolve, id, addr);
    }
  }

  lemma PongSafe(env: Env, s: State, id: Id, sid: Id, from: Address)
    requires Safe(s)
    ensures Linked(s.nbhd) && Safe(Pong(env, s, id, sid, from))
  {
    hide Safe;
    SoundOf(s);
    hide Updated, Reachable, FindNode, NodeAt, Sound;
    var (s', ok) := CacheValidate(s, sid);
    CacheValidateSafe(s, sid);
    hide CacheValidate, Routed;
    if ok && FindNode(s.nbhd, id).Some? {
      var n := NodeAt(s.nbhd, id).(pinged := 0, timePing := ApproxFiveMinutes(env, s, s.drawn), addr := from);
      UpdatedKeepsReachable(s.nbhd, s.own, id, n);
      RoutedSafe(s', Updated(s.nbhd, id, n), 1);
    }
  }

  lemma NodeListSafe(env: Env, s: State, k: Option<Kind>, msg: Ben, id: Id, sid: Id)
    requires Safe(s)
    ensures Sound(s) && Safe(NodeList(env, s, k, msg, id, sid))
  {
    hide Safe;
    SoundOf(s);
    hide LearnAll, Resolve, SearchDict, HandedOn, Reachable, IdIn;
    var (s', ok) := CacheValidate(s, sid);
    CacheValidateSafe(s, sid);
    SoundOf(s');
    hide Sound, CacheValidate;
    var nodes := SearchDict(msg, KEY_N);
    if !ok || nodes.None? || !nodes.value.List? {
      return;
    }
    var xs := HandedOn(nodes.value.l);
    var lkp := IdIn(SearchDict(msg, KEY_L));
    if k.None? || (k.value.Announces? && s.host.None?) {
      LearnAllSafe(env, s', None, xs);
    } else if lkp.Some? {
      ResolveSafe(env, s', k.value, lkp.value, id);
      LearnAllSafe(env, Resolve(env, s', k.value, lkp.value, id), Some((k.value, lkp.value)), xs);
    }
  }

  lemma ValueReplySafe(s: State, msg: Ben, sid: Id)
    requires Safe(s)
    ensures Sound(s) && Safe(ValueReply(s, msg, sid))
  {
    hide Safe;
    SoundOf(s);
    hide Success, SearchDict;
    CacheValidateSafe(s, sid);
    var v := IdIn(SearchDict(msg, KEY_L));
    if sid in s.sessions && v.Some? {
      SuccessSafe(CacheValidate(s, sid).0, v.value);
    }
  }

  lemma PacketSafe(env: Env, s: State, msg: Ben, from: Address)
    requires Safe(s)
    ensures Sound(s) && Safe(Packet(env, s, msg, from))
  {
    hide Safe;
    SoundOf(s);
    hide LearnNode, Pong, NodeList, ValueReply, SearchDict, Reachable, IdIn, Sound;
    match (IdIn(SearchDict(msg, KEY_I)), IdIn(SearchDict(msg, KEY_K))) {
      case (Some(id), Some(sid)) =>
        if id == s.own {
          return;
        }
        LearnNodeSafe(env, s, id, from);
        var s' := LearnNode(env, s, id, from);
        var q := SearchDict(msg, KEY_Q);
        if !IsStrOf(q, 1) {
        } else if q.value.s[0] == PONG {
          PongSafe(env, s', id, sid, from);
        } else if q.value.s[0] == Letter(F) {
          NodeListSafe(env, s', None, msg, id, sid);
        } else if q.value.s[0] == Letter(A) {
          NodeListSafe(env, s', Some(Announces), msg, id, sid);
        } else if q.value.s[0] == Letter(L) {
          NodeListSafe(env, s', Some(Lookups), msg, id, sid);
        } else if q.value.s[0] == VALUE {
          ValueReplySafe(s', msg, sid);
        }
      case _ =>
    }
  }

  lemma {:induction false} CachePutsSafe(env: Env, s: State, sends: seq<bool>)
    requires Safe(s)
    ensures Safe(CachePuts(env, s, sends))
    decreases |sends|
  {
    hide Safe, CachePut;
    if sends != [] {
      CachePutsSafe(env, s, sends[..|sends| - 1]);
      CachePutSafe(env, CachePuts(env, s, sends[..|sends| - 1]), sends[|sends| - 1]);
    }
  }

  lemma ClockSafe(s: State, now: int)
    requires Safe(s)
    ensures Safe(s.(now := now))
  {
    hide Times, Reachable;
    StillSafe(s, s.(now := now));
    SessionsUntouched(s, s.(now := now));
  }

  /** Every step keeps the daemon safe, whatever it draws and whatever it receives. */
  lemma StepSafe(env: Env, s: State, input: Input)
    requires Safe(s)
    ensures Sound(s) && Safe(Step(env, s, input))
  {
    hide Safe;
    SoundOf(s);
    hide Packet, Start, ExpireWalk, CacheExpire, CachePuts, Reachable, ExpiredBuckets, Routed;
    match input {
      case Receive(msg, from) => PacketSafe(env, s, msg, from);
      case Lookup(target, callback) => StartSafe(env, s, Lookups, target, callback);
      case Announce =>
        if s.host.Some? {
          StartSafe(env, s, Announces, s.host.value, false);
        }
      case Clock(now) => ClockSafe(s, now);
      case Expiry =>
        var a := ExpireWalk(s, Announces, s.announces.list);
        ExpireWalkSafe(s, Announces, s.announces.list);
        CacheExpireSafe(a);
        var b := CacheExpire(a);
        SoundOf(b);
        ExpiredKeepsReachable(b.nbhd, b.own);
        var nbhd := b.nbhd.(buckets := ExpiredBuckets(b.nbhd.buckets));
        RoutedSafe(b, nbhd, 0);
        ExpireWalkSafe(Routed(b, nbhd, 0), Lookups, b.lookups.list);
      case Upkeep(nbhd, sends) =>
        if Reachable(nbhd, s.own) {
          RoutedSafe(s, nbhd, 0);
          CachePutsSafe(env, Routed(s, nbhd, 0), sends);
        }
    }
  }

  // ---- runs

  /** The daemon after it has started up. */
  function Init(own: Id, host: Option<Id>, now: int): State {
    var none := Requests(map[], [], map[]);
    State(own, host, now, map[], none, none,
          Routing.Table([Bucket(seq(ID_LENGTH, i => 0), [])], 0), 0, 0, [])
  }

  lemma InitSafe(own: Id, host: Option<Id>, now: int)
    ensures Safe(Init(own, host, now))
  {
    OneEmptyBucket(seq(ID_LENGTH, i => 0));
  }

  ghost function Run(env: Env, own: Id, host: Option<Id>, now: int, inputs: seq<Input>): (s: State)
    ensures Safe(s) && s.own == own
  {
    if inputs == [] then
      InitSafe(own, host, now);
      Init(own, host, now)
    else
      var s := Run(env, own, host, now, inputs[..|inputs| - 1]);
      StepSafe(env, s, inputs[|inputs| - 1]);
      Step(env, s, inputs[|inputs| - 1])
  }

  /** In every run, each lookup and each announcement asks a node at most once and never the own
      one. */
  lemma EachNodeAskedOnce(env: Env, own: Id, host: Option<Id>, now: int, inputs: seq<Input>, serial: nat, node: Id)
    ensures var trace := Run(env, own, host, now, inputs).trace;
            && Times(trace, Asked(serial, node)) <= 1
            && Times(trace, Asked(serial, own)) == 0
  {
    hide Times;
    var s := Run(env, own, host, now, inputs);
    assert AskedOk(s, serial, node) && AskedOk(s, serial, own);
  }

  /** In every run, a live request has asked exactly the nodes other than the own one that it
      remembers: whoever is remembered was sent the question. */
  lemma AskedIff(env: Env, own: Id, host: Option<Id>, now: int, inputs: seq<Input>, k: Kind, serial: nat, node: Id)
    requires serial in Of(Run(env, own, host, now, inputs), k).live
    ensures var s := Run(env, own, host, now, inputs);
            node in Of(s, k).live[serial].body.asked && node != own
            <==> Times(s.trace, Asked(serial, node)) == 1
  {
    hide Times;
    var s := Run(env, own, host, now, inputs);
    assert AskedOk(s, serial, node);
  }

  /** In every run, a callback with an address follows immediately on a reply that passed its
      session check. */
  lemma FoundAnswersReply(env: Env, own: Id, host: Option<Id>, now: int, inputs: seq<Input>, i: nat, serial: nat)
    requires i < |Run(env, own, host, now, inputs).trace|
    requires Run(env, own, host, now, inputs).trace[i] == Callback(serial, true)
    ensures i > 0 && Run(env, own, host, now, inputs).trace[i - 1].Passed?
  {
    var s := Run(env, own, host, now, inputs);
    assert SessionsOk(s);
    LawfulPrefix(s.trace, i);
  }

  /** In every run, a request with a callback has not called back while it is in the table and has
      called back exactly once when it is not; nothing else ever calls back. */
  lemma CalledBackOnce(env: Env, own: Id, host: Option<Id>, now: int, inputs: seq<Input>, serial: nat)
    ensures var s := Run(env, own, host, now, inputs);
            var wants := Times(s.trace, Started(serial, true));
            && wants <= 1
            && Fired(s.trace, serial) == if serial in s.lookups.live then 0 else wants
  {
    hide Times;
    var s := Run(env, own, host, now, inputs);
    assert CallbackOk(s, serial);
  }

  /** The session check of a reply handler passes for an id exactly when that id was issued and
      nothing has ended it since: neither a pass, if it is unicast, nor an expiry at a time when it
      was overdue. */
  lemma PassesIff(s: State, sid: Id)
    requires Safe(s)
    ensures CacheValidate(s, sid).1 <==>
            exists j: nat, session :: j < |s.trace| && OpenSince(s.trace, j, |s.trace|, sid, session)
  {
    hide Lawful, Open, OpenSince, Sound;
    if sid in s.sessions {
      OpenIff(s.trace, sid, s.sessions[sid]);
    }
    if j: nat, session :| j < |s.trace| && OpenSince(s.trace, j, |s.trace|, sid, session) {
      OpenIff(s.trace, sid, session);
    }
  }

  /** The same in every run. */
  lemma RepliesPassIff(env: Env, own: Id, host: Option<Id>, now: int, inputs: seq<Input>, sid: Id)
    ensures var s := Run(env, own, host, now, inputs);
            CacheValidate(s, sid).1 <==>
            exists j: nat, session :: j < |s.trace| && OpenSince(s.trace, j, |s.trace|, sid, session)
  {
    hide Safe, CacheValidate, OpenSince;
    PassesIff(Run(env, own, host, now, inputs), sid);
  }

  /** In every run, every reply that passed answers a request whose id was issued before, and that
      no pass and no expiry has ended in between. */
  lemma RepliesWereAskedFor(env: Env, own: Id, host: Option<Id>, now: int, inputs: seq<Input>, i: nat)
    requires i < |Run(env, own, host, now, inputs).trace|
    requires Run(env, own, host, now, inputs).trace[i].Passed?
    ensures var trace := Run(env, own, host, now, inputs).trace;
            exists j: nat :: j < i && OpenSince(trace, j, i, trace[i].id, trace[i].session)
  {
    hide Lawful, Open, OpenSince;
    var s := Run(env, own, host, now, inputs);
    assert SessionsOk(s);
    var j := PassedWasOpen(s.trace, i);
  }

  /** In every run, a unicast id passes at most once per time it is issued. */
  lemma OnePassInRun(env: Env, own: Id, host: Option<Id>, now: int, inputs: seq<Input>, i: nat, i': nat)
    requires i < i' < |Run(env, own, host, now, inputs).trace|
    requires var trace := Run(env, own, host, now, inputs).trace;
             && trace[i].Passed? && trace[i].session.unicast
             && trace[i'].Passed? && trace[i'].id == trace[i].id
    ensures var trace := Run(env, own, host, now, inputs).trace;
            exists j: nat :: i < j < i' && trace[j] == Issued(trace[i].id, trace[i'].session)
  {
    hide Lawful, Open;
    var s := Run(env, own, host, now, inputs);
    assert SessionsOk(s);
    var j := OnePassPerIssue(s.trace, i, i');
  }

  /** An expiry step ends exactly the sessions that are overdue. */
  lemma ExpiryEndsSessions(env: Env, s: State, sid: Id)
    requires Sound(s)
    ensures var r := Step(env, s, Expiry);
            && (sid in r.sessions <==> sid in s.sessions && s.now <= s.sessions[sid].time)
            && (sid in r.sessions ==> r.sessions[sid] == s.sessions[sid])
  {
    hide Sound;
    ExpireWalkKeepsTime(s, Announces, s.announces.list);
  }

  lemma {:induction false} ExpireWalkKeepsTime(s: State, k: Kind, items: seq<nat>)
    ensures ExpireWalk(s, k, items).now == s.now
  {
    if items != [] {
      ExpireWalkKeepsTime(s, k, items[..|items| - 1]);
    }
  }

  /** A success calls back with an address if a callback waits, and takes that one lookup out of the
      table; every other lookup, the announcements, the sessions and all else stay as they are. */
  lemma SuccessCallsBack(s: State, lkp: Id)
    requires Sound(s) && lkp in s.lookups.index
    ensures var serial, r := s.lookups.index[lkp], Success(s, lkp);
            && r == s.(lookups := r.lookups, trace := r.trace)
            && r.trace
            == s.trace + (if s.lookups.live[serial].body.callback then [Callback(serial, true)] else [])
            && (forall x :: x in r.lookups.live <==> x in s.lookups.live && x != serial)
            && (forall x :: x in r.lookups.live ==> r.lookups.live[x] == s.lookups.live[x])
            && (forall x :: x in r.lookups.list <==> x in s.lookups.list && x != serial)
            && (forall id :: id in r.lookups.index <==> id in s.lookups.index && id != lkp)
            && (forall id :: id in r.lookups.index ==> r.lookups.index[id] == s.lookups.index[id])
  {
    hide Reachable, Without;
    WithoutKeepsOthers(s.lookups.list, s.lookups.index[lkp]);
  }

  /** An expiry walk ends exactly the requests that are due, and calls back once, without an address,
      for each of them that has a callback. */
  lemma {:induction false} ExpireWalkEnds(s: State, k: Kind, items: seq<nat>, x: nat)
    requires Sound(s) && NoDuplicates(items)
    ensures var r := ExpireWalk(s, k, items);
            var due := x in items && x in Of(s, k).live && s.now > Of(s, k).live[x].body.time;
            && r.now == s.now
            && (x in Of(r, k).live <==> x in Of(s, k).live && !due)
            && (x in Of(r, k).live ==> Of(r, k).live[x] == Of(s, k).live[x])
            && Times(r.trace, Callback(x, true)) == Times(s.trace, Callback(x, true))
            && Times(r.trace, Callback(x, false))
            == Times(s.trace, Callback(x, false)) + if due && Of(s, k).live[x].body.callback then 1 else 0
    decreases |items|
  {
    hide Sound, Times;
    if items != [] {
      var front, last := items[..|items| - 1], items[|items| - 1];
      ExpireWalkEnds(s, k, front, x);
      ExpireWalkEnds(s, k, front, last);
      var m := ExpireWalk(s, k, front);
      assert items == front + [last] && last !in front;
      OneMore(m.trace, Callback(last, false), Callback(x, true));
      OneMore(m.trace, Callback(last, false), Callback(x, false));
    }
  }
}
