/** A reply from the node that built it (src/send_p2p.c) to what the receiver has made of it
    (src/p2p.c). */
module Exchange {
  import opened Ids
  import opened Options
  import opened Bencode
  import opened BencodeUnchecked
  import opened Routing
  import opened RoutingSplit
  import opened NodeMessage
  import opened Tables
  import opened Protocol
  import opened SessionHistory
  import opened ProtocolSafety
  import opened ProtocolEffects

  /** Learning a node ends no session. */
  lemma LearnNodeSessions(env: Env, s: State, id: Id, addr: Address, sid: Id)
    requires Linked(s.nbhd) && sid in s.sessions
    ensures sid in LearnNode(env, s, id, addr).sessions
    ensures LearnNode(env, s, id, addr).host == s.host
  {
    hide Learned;
  }

  /** A node list for an open session, from another node: the datagram decodes, its sender is learned,
      the session passes, the request that it names (in replies A and L) is taken to the sender, and
      then exactly the good nodes of the sender's bucket are learned, in order, that request being
      taken to each. A daemon without a host only learns from an A. */
  lemma NodeListIsLearned(env: Env, s: State, from: Address, own: Id, session: Id, lkp: Id, r: Reply, ns: seq<Node>)
    requires Sound(s) && own != s.own && session in s.sessions
    ensures Linked(s.nbhd)
    ensures var msg := Message(own, session, lkp, r, ns);
            var l := LearnNode(env, s, own, from);
            var (c, ok) := CacheValidate(l, session);
            var k := if r.L? then Lookups else Announces;
            && DecVal(Enc(msg), 0) == Done(msg, |Enc(msg)|)
            && ok && Sound(c)
            && (r.F? || (r.A? && s.host.None?) ==>
                  Packet(env, s, msg, from) == LearnAll(env, c, None, Known(Good(ns))))
            && (r.L? || (r.A? && s.host.Some?) ==>
                  && Resolved(env, c, k, lkp, own)
                  && Packet(env, s, msg, from)
                  == LearnAll(env, Resolve(env, c, k, lkp, own), Some((k, lkp)), Known(Good(ns))))
  {
    hide Sound, Message, Enc, LearnNode, LearnAll, Resolve, Known, Good, HandedOn, DecVal, Dicts, SearchDict;
    LinkedOf(s);
    NodeListArrives(own, session, lkp, r, ns);
    MessageFields(own, session, lkp, r, ns);
    LearnNodeSessions(env, s, own, from, session);
    LearnNodeSound(env, s, own, from);
    var msg, l := Message(own, session, lkp, r, ns), LearnNode(env, s, own, from);
    Dispatch(env, s, msg, from, own, session, match r case A => 0x41 case F => 0x46 case L => 0x4C);
    CheckedSound(l, session);
    if r.L? || (r.A? && s.host.Some?) {
      var c, k := CacheValidate(l, session).0, if r.L? then Lookups else Announces;
      ResolveSound(env, c, k, lkp, own);
      if lkp in Of(c, k).index {
        IndexLive(c, k, lkp);
      }
    }
  }

  ghost predicate Resolved(env: Env, s: State, k: Kind, lkp: Id, node: Id) {
    (lkp in Of(s, k).index ==> Of(s, k).index[lkp] in Of(s, k).live) && Sound(Resolve(env, s, k, lkp, node))
  }

  lemma CheckedSound(s: State, sid: Id)
    requires Sound(s)
    ensures Sound(CacheValidate(s, sid).0)
  {
    SameItself(s);
    ReachableOf(s);
    hide Sound, Reachable, SameItems;
    SameRequestsSound(s, CacheValidate(s, sid).0);
  }

  /** A value for an open session and a known lookup: the session passes, the lookup calls back with
      an address if a callback waits, and is gone. */
  lemma ValueEnds(s: State, msg: Ben, sid: Id, lkp: Id, address: seq<Byte>)
    requires Sound(s) && sid in s.sessions && lkp in s.lookups.index && |address| == 16
    requires SearchDict(msg, [0x61]) == Some(Str(address)) && SearchDict(msg, [0x6C]) == Some(Str(lkp))
    ensures var serial, r := s.lookups.index[lkp], ValueReply(s, msg, sid);
            && serial in s.lookups.live && serial !in r.lookups.live && lkp !in r.lookups.index
            && r.trace
            == s.trace + [Passed(sid, s.sessions[sid])]
               + (if s.lookups.live[serial].body.callback then [Callback(serial, true)] else [])
  {
    hide Sound, Success, SearchDict;
    IndexLive(s, Lookups, lkp);
    CheckedSound(s, sid);
    SuccessCallsBack(CacheValidate(s, sid).0, lkp);
  }

  /** A value without an address of 16 bytes or a lookup id only uses up its session. */
  lemma BrokenValue(s: State, msg: Ben, sid: Id)
    requires Sound(s) && (!IsStrOf(SearchDict(msg, [0x61]), 16) || !IsStrOf(SearchDict(msg, [0x6C]), 20))
    ensures ValueReply(s, msg, sid) == CacheValidate(s, sid).0
  {
    hide Sound, Success, SearchDict, CacheValidate;
  }
}
