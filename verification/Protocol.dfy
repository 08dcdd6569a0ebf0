/** Sessions, lookups and announcements as a state machine: the steps that src/p2p.c, src/lookup.c,
    src/announce.c, src/cache.c and src/neighborhood.c take on received packets, on new requests and
    on expiry. */
module Protocol {
  import opened Ids
  import opened Options
  import opened Bencode
  import opened BencodeUnchecked
  import opened Routing
  import opened RoutingSplit
  import opened Neighborhood
  import opened NodeMessage
  import opened IndexedTable
  import opened Tables

  /** The query types 'o' and 'V'. */
  const PONG: Byte := 0x6F
  const VALUE: Byte := 0x56

  /** At most this many nodes of a bucket are asked when a request starts. */
  const ASK_FIRST: nat := 8

  /** The random numbers the daemon draws, by the number of draws made before. */
  datatype Env = Env(id: nat -> Id, delay: nat -> nat, bucket: nat -> nat)

  /** A lookup or an announcement: what it searches, the nodes it remembers as asked, whether a
      callback waits for it, and when it expires. Its id is a random one. */
  datatype Request = Request(target: Id, asked: set<Id>, callback: bool, time: int)

  /** A request table: the payloads by item, the items in list order, the hash index by random id. */
  datatype Requests = Requests(live: map<nat, Payload<Request>>, list: seq<nat>, index: map<Id, nat>)

  datatype Kind = Lookups | Announces

  /** What an observer of the daemon records. Requests are numbered as they start. */
  datatype Event =
    | Issued(id: Id, session: Session)
    | Passed(id: Id, session: Session)
    | Expired(now: int, ids: set<Id>)
    | Started(serial: nat, callback: bool)
    | Asked(serial: nat, node: Id)
    | Callback(serial: nat, found: bool)

  datatype State = State(
    own: Id,
    host: Option<Id>,
    now: int,
    sessions: map<Id, Session>,
    lookups: Requests,
    announces: Requests,
    nbhd: Routing.Table,
    next: nat,
    drawn: nat,
    trace: seq<Event>)

  function Of(s: State, k: Kind): Requests {
    if k.Lookups? then s.lookups else s.announces
  }

  function With(s: State, k: Kind, r: Requests): (s': State)
    ensures s'.own == s.own
  {
    if k.Lookups? then s.(lookups := r) else s.(announces := r)
  }

  // ---- sessions

  /** cache_put of a freshly drawn id, as every request message begins. */
  function CachePut(env: Env, s: State, unicast: bool): (r: State)
    ensures r.own == s.own
  {
    var sid := env.id(s.drawn);
    var s' := s.(drawn := s.drawn + 1);
    var session := Session(unicast, s.now + ONE_MINUTE);
    if sid in s.sessions then s'
    else s'.(sessions := s.sessions[sid := session], trace := s.trace + [Issued(sid, session)])
  }

  /** cache_validate */
  function CacheValidate(s: State, sid: Id): (r: (State, bool))
    ensures r.0.own == s.own
  {
    if sid !in s.sessions then (s, false)
    else
      var session := s.sessions[sid];
      (s.(sessions := if session.unicast then s.sessions - {sid} else s.sessions,
          trace := s.trace + [Passed(sid, session)]),
       true)
  }

  function Overdue(sessions: map<Id, Session>, now: int): set<Id> {
    set sid | sid in sessions && now > sessions[sid].time
  }

  /** cache_expire */
  function CacheExpire(s: State): (r: State)
    ensures r.own == s.own
  {
    s.(sessions := Current(s.sessions, s.now),
       trace := s.trace + [Expired(s.now, Overdue(s.sessions, s.now))])
  }

  // ---- nodes

  /** time_add_5_min_approx, for the draw of this number. */
  function ApproxFiveMinutes(env: Env, s: State, draw: nat): int {
    s.now + 240 + env.delay(draw) % 120
  }

  /** Another routing table, after a number of random draws. */
  function Routed(s: State, nbhd: Routing.Table, draws: nat): (r: State)
    ensures r.own == s.own && r.nbhd == nbhd && r.next == s.next
    ensures r.lookups == s.lookups && r.announces == s.announces
  {
    s.(nbhd := nbhd, drawn := s.drawn + draws)
  }

  function Learned(env: Env, s: State, id: Id, addr: Address): (r: Routing.Table)
    requires Linked(s.nbhd)
    ensures Linked(r)
  {
    NeighborhoodPut(s.nbhd, s.own, id, addr,
                    ApproxFiveMinutes(env, s, s.drawn), ApproxFiveMinutes(env, s, s.drawn + 1))
  }

  /** nbhd_put: a node that is new gets two random times and is sent a PING and a FIND. */
  function LearnNode(env: Env, s: State, id: Id, addr: Address): (r: State)
    requires Linked(s.nbhd)
    ensures r.own == s.own
  {
    var nbhd := Learned(env, s, id, addr);
    if id != s.own && FindNode(s.nbhd, id).None? then
      CachePut(env, CachePut(env, Routed(s, nbhd, 2), true), true)
    else Routed(s, nbhd, 0)
  }

  // ---- asking

  function Remember(s: State, k: Kind, serial: nat, node: Id): (r: State)
    requires serial in Of(s, k).live
    ensures r.own == s.own
  {
    var t := Of(s, k);
    var q := t.live[serial].body;
    With(s, k, t.(live := t.live[serial := t.live[serial].(body := q.(asked := q.asked + {node}))]))
  }

  /** send_lookup or send_announce for a request. */
  function Ask(env: Env, s: State, serial: nat, node: Id): (r: State)
    ensures r.own == s.own
  {
    var s' := CachePut(env, s, true);
    s'.(trace := s'.trace + [Asked(serial, node)])
  }

  /** lkp_resolve and announce_resolve: a node not remembered yet is asked, unless it is the own
      one, and remembered. */
  function Resolve(env: Env, s: State, k: Kind, lkp: Id, node: Id): (r: State)
    requires lkp in Of(s, k).index ==> Of(s, k).index[lkp] in Of(s, k).live
    ensures r.own == s.own
  {
    var t := Of(s, k);
    if lkp !in t.index then s
    else
      var serial := t.index[lkp];
      if node in t.live[serial].body.asked then s
      else Remember(if node != s.own then Ask(env, s, serial, node) else s, k, serial, node)
  }

  /** bckt_find_any_match. The best match is taken when it holds a node; the search for another
      bucket is left open. */
  function AnyMatch(env: Env, s: State, id: Id): (b: Option<nat>)
    requires Linked(s.nbhd)
    ensures b.Some? ==> b.value < |s.nbhd.buckets|
  {
    var b := BestMatch(s.nbhd, id);
    var c := env.bucket(s.drawn);
    if s.nbhd.buckets[b].nodes != [] then Some(b)
    else if c < |s.nbhd.buckets| && s.nbhd.buckets[c].nodes != [] then Some(c)
    else None
  }

  /** The loop of nbhd_lookup and nbhd_announce: each node is remembered, then asked. */
  function AskAll(env: Env, s: State, k: Kind, serial: nat, ns: seq<Node>): (r: State)
    requires serial in Of(s, k).live
    ensures serial in Of(r, k).live && r.nbhd == s.nbhd && r.own == s.own
  {
    if ns == [] then s
    else
      var s' := AskAll(env, s, k, serial, ns[..|ns| - 1]);
      Ask(env, Remember(s', k, serial, ns[|ns| - 1].id), serial, ns[|ns| - 1].id)
  }

  function First(ns: seq<Node>): seq<Node> {
    if |ns| < ASK_FIRST then ns else ns[..ASK_FIRST]
  }

  /** lkp_put and announce_put up to the search: the request is listed and indexed. */
  function Enlist(env: Env, s: State, k: Kind, target: Id, callback: bool): (r: State)
    ensures s.next in Of(r, k).live && r.nbhd == s.nbhd && r.own == s.own
  {
    var lkp := env.id(s.drawn);
    var q := Payload(lkp, Request(target, {}, callback, s.now + if k.Lookups? then 5 else 10));
    var t := Of(s, k);
    var t' := Requests(t.live[s.next := q], t.list + [s.next], t.index[lkp := s.next]);
    With(s, k, t').(next := s.next + 1, drawn := s.drawn + 1,
                    trace := s.trace + [Started(s.next, callback)])
  }

  function Start(env: Env, s: State, k: Kind, target: Id, callback: bool): (r: State)
    requires Linked(s.nbhd)
    ensures r.own == s.own
  {
    var s' := Enlist(env, s, k, target, callback);
    match AnyMatch(env, s', target)
    case None => s'
    case Some(b) => AskAll(env, s', k, s.next, First(s'.nbhd.buckets[b].nodes))
  }

  // ---- ending

  /** lkp_del and announce_del */
  function Drop(s: State, k: Kind, serial: nat): (r: State)
    requires serial in Of(s, k).live
    ensures r.own == s.own
  {
    var t := Of(s, k);
    var list := if serial in t.list then Without(t.list, serial) else t.list;
    With(s, k, Requests(t.live - {serial}, list, t.index - {t.live[serial].id}))
  }

  /** Call back, if a callback waits, and delete. */
  function Finish(s: State, k: Kind, serial: nat, found: bool): (r: State)
    requires serial in Of(s, k).live
    ensures r.own == s.own
  {
    var s' := if Of(s, k).live[serial].body.callback then s.(trace := s.trace + [Callback(serial, found)]) else s;
    Drop(s', k, serial)
  }

  /** lkp_success */
  function Success(s: State, lkp: Id): (r: State)
    requires lkp in s.lookups.index ==> s.lookups.index[lkp] in s.lookups.live
    ensures r.own == s.own
  {
    if lkp !in s.lookups.index then s else Finish(s, Lookups, s.lookups.index[lkp], true)
  }

  /** lkp_expire and announce_expire: one walk over the list. */
  function ExpireWalk(s: State, k: Kind, items: seq<nat>): (r: State)
    ensures r.nbhd == s.nbhd && r.sessions == s.sessions && r.own == s.own
  {
    if items == [] then s
    else
      var s' := ExpireWalk(s, k, items[..|items| - 1]);
      var serial := items[|items| - 1];
      if serial in Of(s', k).live && s'.now > Of(s', k).live[serial].body.time then
        Finish(s', k, serial, false)
      else s'
  }

  // ---- packets

  function IdIn(v: Option<Ben>): (r: Option<Id>) {
    if IsStrOf(v, ID_LENGTH) then Some(v.value.s) else None
  }

  /** The walk of p2p_node_find, p2p_node_announce and p2p_node_lookup over the nodes it reads. */
  function LearnAll(env: Env, s: State, resolve: Option<(Kind, Id)>, xs: seq<(Id, Address)>): (r: State)
    requires Sound(s)
    ensures Sound(r) && r.own == s.own
  {
    if xs == [] then s
    else
      var s' := LearnAll(env, s, resolve, xs[..|xs| - 1]);
      var (id, addr) := xs[|xs| - 1];
      LearnOne(env, s', resolve, id, addr)
  }

  /** Items of the tables that the steps follow pointers to. */
  ghost predicate SoundRequests(r: Requests, next: nat) {
    && (forall x :: x in r.list <==> x in r.live)
    && NoDuplicates(r.list)
    && (forall x :: x in r.live ==> x < next)
    && (forall lkp :: lkp in r.index ==> r.index[lkp] in r.live && r.live[r.index[lkp]].id == lkp)
  }

  ghost predicate Sound(s: State) {
    && Reachable(s.nbhd, s.own)
    && SoundRequests(s.lookups, s.next) && SoundRequests(s.announces, s.next)
    && s.lookups.live.Keys !! s.announces.live.Keys
  }

  /** The same items in the same order with the same ids; the remembered nodes may differ. */
  ghost predicate SameItems(r: Requests, r': Requests) {
    && r'.list == r.list && r'.index == r.index && r'.live.Keys == r.live.Keys
    && (forall x :: x in r.live ==> r'.live[x].id == r.live[x].id)
  }

  ghost predicate SameRequests(s: State, s': State) {
    && s'.own == s.own && s'.next == s.next
    && SameItems(s.lookups, s'.lookups) && SameItems(s.announces, s'.announces)
  }

  lemma SameItemsSound(r: Requests, r': Requests, next: nat)
    requires SoundRequests(r, next) && SameItems(r, r')
    ensures SoundRequests(r', next)
  {
    assert forall x :: x in r.live <==> x in r'.live;
  }

  lemma SameRequestsSound(s: State, s': State)
    requires Sound(s) && SameRequests(s, s') && Reachable(s'.nbhd, s'.own)
    ensures Sound(s')
  {
    hide Reachable, SoundRequests, SameItems;
    SameItemsSound(s.lookups, s'.lookups, s.next);
    SameItemsSound(s.announces, s'.announces, s.next);
    assert s'.lookups.live.Keys == s.lookups.live.Keys && s'.announces.live.Keys == s.announces.live.Keys by {
      SameKeys(s.lookups, s'.lookups);
      SameKeys(s.announces, s'.announces);
    }
  }

  lemma SameKeys(r: Requests, r': Requests)
    requires SameItems(r, r')
    ensures r'.live.Keys == r.live.Keys
  {
  }

  lemma CachePutSame(env: Env, s: State, unicast: bool)
    ensures SameRequests(s, CachePut(env, s, unicast))
    ensures var r := CachePut(env, s, unicast);
            && r.nbhd == s.nbhd && r.next == s.next
            && r.lookups == s.lookups && r.announces == s.announces
  {
  }

  lemma RememberSame(s: State, k: Kind, serial: nat, node: Id)
    requires serial in Of(s, k).live
    ensures SameRequests(s, Remember(s, k, serial, node)) && Remember(s, k, serial, node).nbhd == s.nbhd
  {
    var r := Of(s, k);
    var q := r.live[serial].body;
    var live := r.live[serial := r.live[serial].(body := q.(asked := q.asked + {node}))];
    assert live.Keys == r.live.Keys;
    assert SameItems(r, r.(live := live));
  }

  lemma SameTransitive(a: State, b: State, c: State)
    requires SameRequests(a, b) && SameRequests(b, c)
    ensures SameRequests(a, c)
  {
    assert forall x :: x in a.lookups.live ==> x in b.lookups.live;
    assert forall x :: x in a.announces.live ==> x in b.announces.live;
  }

  lemma ResolveSound(env: Env, s: State, k: Kind, lkp: Id, node: Id)
    requires Sound(s)
    ensures Sound(Resolve(env, s, k, lkp, node)) && SameRequests(s, Resolve(env, s, k, lkp, node))
    ensures Resolve(env, s, k, lkp, node).nbhd == s.nbhd
  {
    hide Reachable, CachePut, Remember;
    var r := Of(s, k);
    if lkp in r.index && node !in r.live[r.index[lkp]].body.asked {
      hide Sound, SameItems;
      var serial := r.index[lkp];
      var s' := if node != s.own then Ask(env, s, serial, node) else s;
      SameItself(s);
      CachePutSame(env, s, true);
      RememberSame(s', k, serial, node);
      SameTransitive(s, s', Remember(s', k, serial, node));
      ReachableOf(s);
      SameRequestsSound(s, Remember(s', k, serial, node));
    }
  }

  lemma SameItself(s: State)
    ensures SameRequests(s, s)
  {
  }

  lemma ReachableOf(s: State)
    requires Sound(s)
    ensures Reachable(s.nbhd, s.own)
  {
  }

  lemma LearnNodeSound(env: Env, s: State, id: Id, addr: Address)
    requires Sound(s)
    ensures Sound(LearnNode(env, s, id, addr))
    ensures var r := LearnNode(env, s, id, addr);
            r.lookups == s.lookups && r.announces == s.announces && r.next == s.next && r.own == s.own
  {
    hide Reachable, NeighborhoodPut, CachePut, SameItems, Sound;
    ReachableOf(s);
    LinkedOf(s);
    NeighborhoodPutKeepsReachable(s.nbhd, s.own, id, addr, ApproxFiveMinutes(env, s, s.drawn),
                                  ApproxFiveMinutes(env, s, s.drawn + 1));
    var a := Routed(s, Learned(env, s, id, addr), 2);
    CachePutSame(env, a, true);
    CachePutSame(env, CachePut(env, a, true), true);
    SameItself(s);
    SameRequestsSound(s, LearnNode(env, s, id, addr));
  }

  lemma LinkedOf(s: State)
    requires Sound(s)
    ensures Linked(s.nbhd)
  {
  }

  /** One node of a node list: the request is taken to it if there is one, then it is learned. */
  function LearnOne(env: Env, s: State, resolve: Option<(Kind, Id)>, id: Id, addr: Address): (r: State)
    requires Sound(s)
    ensures Sound(r) && r.own == s.own
  {
    match resolve
    case None =>
      LearnNodeSound(env, s, id, addr);
      LearnNode(env, s, id, addr)
    case Some((k, lkp)) =>
      ResolveSound(env, s, k, lkp, id);
      LearnNodeSound(env, Resolve(env, s, k, lkp, id), id, addr);
      LearnNode(env, Resolve(env, s, k, lkp, id), id, addr)
  }

  /** p2p_pong */
  function Pong(env: Env, s: State, id: Id, sid: Id, from: Address): (r: State)
    requires Linked(s.nbhd)
    ensures r.own == s.own
  {
    var (s', ok) := CacheValidate(s, sid);
    if !ok || FindNode(s.nbhd, id).None? then s'
    else
      var time := ApproxFiveMinutes(env, s, s.drawn);
      var n := NodeAt(s.nbhd, id).(pinged := 0, timePing := time, addr := from);
      Routed(s', Updated(s.nbhd, id, n), 1)
  }

  /** p2p_node_find, p2p_node_announce and p2p_node_lookup. The last two need a lookup id and take the
      request it names, if any, to the sender first; an announcement only if there is a host to
      announce. */
  ghost function NodeList(env: Env, s: State, k: Option<Kind>, msg: Ben, id: Id, sid: Id): (r: State)
    requires Sound(s)
    ensures r.own == s.own
  {
    var (s', ok) := CacheValidate(s, sid);
    var nodes := SearchDict(msg, KEY_N);
    if !ok || nodes.None? || !nodes.value.List? then s'
    else
      var xs := HandedOn(nodes.value.l);
      if k.None? then LearnAll(env, s', None, xs)
      else
        match IdIn(SearchDict(msg, KEY_L))
        case None => s'
        case Some(lkp) =>
          if k.value.Announces? && s.host.None? then LearnAll(env, s', None, xs)
          else
            ResolveSound(env, s', k.value, lkp, id);
            LearnAll(env, Resolve(env, s', k.value, lkp, id), Some((k.value, lkp)), xs)
  }

  /** p2p_value */
  function ValueReply(s: State, msg: Ben, sid: Id): (r: State)
    requires Sound(s)
    ensures r.own == s.own
  {
    var (s', ok) := CacheValidate(s, sid);
    if !ok || !IsStrOf(SearchDict(msg, KEY_A), 16) then s'
    else
      match IdIn(SearchDict(msg, KEY_L))
      case None => s'
      case Some(lkp) => Success(s', lkp)
  }

  /** p2p_decode after decoding. The four request types only send a reply (and enter a host in the
      database), which nothing here depends on. */
  ghost function Packet(env: Env, s: State, msg: Ben, from: Address): (r: State)
    requires Sound(s)
    ensures r.own == s.own
  {
    match (IdIn(SearchDict(msg, KEY_I)), IdIn(SearchDict(msg, KEY_K)))
    case (Some(id), Some(sid)) =>
      if id == s.own then s
      else
        LearnNodeSound(env, s, id, from);
        var s' := LearnNode(env, s, id, from);
        var q := SearchDict(msg, KEY_Q);
        if !IsStrOf(q, 1) then s'
        else if q.value.s[0] == PONG then Pong(env, s', id, sid, from)
        else if q.value.s[0] == Letter(F) then NodeList(env, s', None, msg, id, sid)
        else if q.value.s[0] == Letter(A) then NodeList(env, s', Some(Announces), msg, id, sid)
        else if q.value.s[0] == Letter(L) then NodeList(env, s', Some(Lookups), msg, id, sid)
        else if q.value.s[0] == VALUE then ValueReply(s', msg, sid)
        else s'
    case _ => s
  }

  // ---- runs

  /** What happens to the daemon: a decoded packet; a lookup asked for from outside; the own host to
      be announced; the clock; expiry; and upkeep of the routing table, which may put any reachable
      table in its place and send any number of messages. */
  datatype Input =
    | Receive(msg: Ben, from: Address)
    | Lookup(target: Id, callback: bool)
    | Announce
    | Clock(now: int)
    | Expiry
    | Upkeep(nbhd: Routing.Table, sends: seq<bool>)

  function CachePuts(env: Env, s: State, sends: seq<bool>): (r: State)
    ensures r.own == s.own
  {
    if sends == [] then s
    else CachePut(env, CachePuts(env, s, sends[..|sends| - 1]), sends[|sends| - 1])
  }

  ghost function Step(env: Env, s: State, input: Input): (r: State)
    requires Sound(s)
    ensures r.own == s.own
  {
    match input
    case Receive(msg, from) => Packet(env, s, msg, from)
    case Lookup(target, callback) => Start(env, s, Lookups, target, callback)
    case Announce => if s.host.None? then s else Start(env, s, Announces, s.host.value, false)
    case Clock(now) => s.(now := now)
    case Expiry =>
      var a := ExpireWalk(s, Announces, s.announces.list);
      var b := CacheExpire(a);
      var c := Routed(b, b.nbhd.(buckets := ExpiredBuckets(b.nbhd.buckets)), 0);
      ExpireWalk(c, Lookups, c.lookups.list)
    case Upkeep(nbhd, sends) =>
      if Reachable(nbhd, s.own) then CachePuts(env, Routed(s, nbhd, 0), sends) else s
  }
}
