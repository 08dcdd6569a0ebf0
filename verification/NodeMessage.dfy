/** The node list: built by send_node (src/send_p2p.c), encoded, and read by p2p_node_find
    (src/p2p.c). */
module NodeMessage {
  import opened Ids
  import opened Options
  import opened Bencode
  import opened BencodeProofs
  import opened BencodeCodec
  import opened BencodeUnchecked
  import opened Routing

  const KEY_A: seq<Byte> := [0x61]
  const KEY_I: seq<Byte> := [0x69]
  const KEY_K: seq<Byte> := [0x6B]
  const KEY_L: seq<Byte> := [0x6C]
  const KEY_N: seq<Byte> := [0x6E]
  const KEY_P: seq<Byte> := [0x70]
  const KEY_Q: seq<Byte> := [0x71]

  datatype Reply = A | F | L

  function Letter(r: Reply): Byte {
    match r case A => 0x41 case F => 0x46 case L => 0x4C
  }

  // ---- building

  function NodeDict(n: Node): Ben {
    Dict([Entry(KEY_I, Str(n.id)), Entry(KEY_A, Str(n.addr.ip)), Entry(KEY_P, Str(n.addr.port))])
  }

  /** Only nodes with no ping outstanding are passed on. */
  function Good(ns: seq<Node>): (r: seq<Node>)
    ensures |r| <= |ns|
  {
    if ns == [] then []
    else Good(ns[..|ns| - 1]) + if ns[|ns| - 1].pinged > 0 then [] else [ns[|ns| - 1]]
  }

  function Dicts(ns: seq<Node>): seq<Ben> {
    seq(|ns|, i requires 0 <= i < |ns| => NodeDict(ns[i]))
  }

  function Message(own: Id, session: Id, lkp: Id, r: Reply, ns: seq<Node>): Ben {
    Dict([Entry(KEY_I, Str(own)), Entry(KEY_K, Str(session))]
         + (if r.F? then [] else [Entry(KEY_L, Str(lkp))])
         + [Entry(KEY_N, List(Dicts(Good(ns)))), Entry(KEY_Q, Str([Letter(r)]))])
  }

  lemma OneMoreDict(ns: seq<Node>, i: nat)
    requires i < |ns|
    ensures Dicts(Good(ns[..i + 1]))
         == Dicts(Good(ns[..i])) + if ns[i].pinged > 0 then [] else [NodeDict(ns[i])]
  {
    assert ns[..i + 1][..i] == ns[..i];
    var g := Good(ns[..i]);
    if ns[i].pinged > 0 {
      assert Good(ns[..i + 1]) == g;
    } else {
      assert Good(ns[..i + 1]) == g + [ns[i]];
      assert Dicts(g + [ns[i]]) == Dicts(g) + [NodeDict(ns[i])];
    }
  }

  /** send_node up to the encoding: the dictionaries grow by appending. */
  method BuildNodeMessage(own: Id, session: Id, lkp: Id, r: Reply, ns: seq<Node>) returns (msg: Ben)
    ensures msg == Message(own, session, lkp, r, ns)
  {
    var dict := [Entry(KEY_I, Str(own))];
    dict := dict + [Entry(KEY_K, Str(session))];
    if r.A? || r.L? {
      dict := dict + [Entry(KEY_L, Str(lkp))];
    }
    var list := [];
    var i := 0;
    while i < |ns|
      invariant 0 <= i <= |ns| && list == Dicts(Good(ns[..i]))
    {
      var n := ns[i];
      OneMoreDict(ns, i);
      i := i + 1;
      if n.pinged > 0 {
        assert list + [] == list;
        continue;
      }
      var node := [Entry(KEY_I, Str(n.id))];
      node := node + [Entry(KEY_A, Str(n.addr.ip))];
      node := node + [Entry(KEY_P, Str(n.addr.port))];
      assert node == NodeDict(n).d;
      list := list + [Dict(node)];
    }
    assert ns[..i] == ns;
    dict := dict + [Entry(KEY_N, List(list))];
    dict := dict + [Entry(KEY_Q, Str([Letter(r)]))];
    return Dict(dict);
  }

  // ---- reading

  /** A string value of this many bytes: p2p_is_hash, p2p_is_ip and p2p_is_port. */
  predicate IsStrOf(v: Option<Ben>, size: nat) {
    v.Some? && v.value.Str? && |v.value.s| == size
  }

  /** One element of a node list, if it passes every test. */
  function ReadNode(t: Ben): Option<(Id, Address)> {
    if !t.Dict? then None
    else
      var id, ip, po := SearchDict(t, KEY_I), SearchDict(t, KEY_A), SearchDict(t, KEY_P);
      if IsStrOf(id, ID_LENGTH) && IsStrOf(ip, 16) && IsStrOf(po, 2) then
        Some((id.value.s, Address(ip.value.s, po.value.s, 0)))
      else None
  }

  /** What the walk hands to nbhd_put: every element up to the first that fails a test. */
  function HandedOn(l: seq<Ben>): seq<(Id, Address)> {
    if l == [] then []
    else
      match ReadNode(l[0])
      case None => []
      case Some(x) => [x] + HandedOn(l[1..])
  }

  /** The reference: id, address and port of the good nodes, in order. */
  function Known(ns: seq<Node>): seq<(Id, Address)> {
    seq(|ns|, i requires 0 <= i < |ns| => (ns[i].id, ns[i].addr.(scope := 0)))
  }

  lemma ReadsNodeDict(n: Node)
    ensures ReadNode(NodeDict(n)) == Some((n.id, n.addr.(scope := 0)))
  {
    var d := NodeDict(n).d;
    KeyIndexIs(d, KEY_I, 0);
    KeyIndexIs(d, KEY_A, 1);
    KeyIndexIs(d, KEY_P, 2);
  }

  lemma KeyIndexIs(d: seq<Entry>, key: seq<Byte>, i: nat)
    requires i < |d| && d[i].key == key && forall j :: 0 <= j < i ==> d[j].key != key
    ensures KeyIndex(d, key) == i
  {
  }

  lemma {:induction false} WalkReadsAll(ns: seq<Node>)
    ensures HandedOn(Dicts(ns)) == Known(ns)
  {
    hide ReadNode, NodeDict;
    if ns != [] {
      ReadsNodeDict(ns[0]);
      assert Dicts(ns)[0] == NodeDict(ns[0]) && Dicts(ns)[1..] == Dicts(ns[1..]);
      WalkReadsAll(ns[1..]);
      assert Known(ns) == [(ns[0].id, ns[0].addr.(scope := 0))] + Known(ns[1..]);
    }
  }

  /** The walk hands on what it reads up to the first element that is no node, and nothing behind
      it. */
  lemma {:induction false} WalkStops(a: seq<Ben>, bad: Ben, b: seq<Ben>)
    requires forall i :: 0 <= i < |a| ==> ReadNode(a[i]).Some?
    requires ReadNode(bad).None?
    ensures HandedOn(a + [bad] + b) == seq(|a|, i requires 0 <= i < |a| => ReadNode(a[i]).value)
  {
    hide ReadNode;
    if a == [] {
      assert a + [bad] + b == [bad] + b;
    } else {
      assert (a + [bad] + b)[1..] == a[1..] + [bad] + b;
      WalkStops(a[1..], bad, b);
    }
  }

  // ---- sizes

  lemma EncStrLength(s: seq<Byte>)
    requires |s| < 100
    ensures |EncStr(s)| == |s| + 1 + if |s| < 10 then 1 else 2
  {
    if |s| >= 10 {
      assert |Decimal(|s| / 10)| == 1;
    }
  }

  lemma EncOneEntry(e: Entry, d: seq<Entry>)
    ensures EncEntries([e] + d) == EncStr(e.key) + Enc(e.val) + EncEntries(d)
  {
    assert ([e] + d)[1..] == d;
  }

  lemma NodeDictLength(n: Node)
    ensures |Enc(NodeDict(n))| == 57
  {
    hide EncStr, EncEntries;
    var a, b, c := Entry(KEY_I, Str(n.id)), Entry(KEY_A, Str(n.addr.ip)), Entry(KEY_P, Str(n.addr.port));
    EncOneEntry(a, [b, c]);
    EncOneEntry(b, [c]);
    EncOneEntry(c, []);
    assert [a] + [b, c] == [a, b, c] && [b] + [c] == [b, c] && [c] + [] == [c];
    NoEntries();
    EncStrLength(KEY_I);
    EncStrLength(KEY_A);
    EncStrLength(KEY_P);
    EncStrLength(n.id);
    EncStrLength(n.addr.ip);
    EncStrLength(n.addr.port);
  }

  lemma NoEntries()
    ensures EncEntries([]) == []
  {
  }

  lemma {:induction false} DictsLength(ns: seq<Node>)
    ensures |EncAll(Dicts(ns))| == 57 * |ns|
  {
    if ns != [] {
      NodeDictLength(ns[0]);
      assert Dicts(ns)[0] == NodeDict(ns[0]) && Dicts(ns)[1..] == Dicts(ns[1..]);
      DictsLength(ns[1..]);
    }
  }

  /** A reply with n good nodes takes 91 + 57n bytes, 26 less when it carries no lookup id. */
  lemma MessageLength(own: Id, session: Id, lkp: Id, r: Reply, ns: seq<Node>)
    ensures |Enc(Message(own, session, lkp, r, ns))| == (if r.F? then 65 else 91) + 57 * |Good(ns)|
  {
    hide EncStr, EncEntries;
    var i, k, l := Entry(KEY_I, Str(own)), Entry(KEY_K, Str(session)), Entry(KEY_L, Str(lkp));
    var n, q := Entry(KEY_N, List(Dicts(Good(ns)))), Entry(KEY_Q, Str([Letter(r)]));
    NoEntries();
    EncOneEntry(q, []);
    assert [q] + [] == [q];
    EncOneEntry(n, [q]);
    DictsLength(Good(ns));
    var rest := if r.F? then [n, q] else [l, n, q];
    assert [n] + [q] == [n, q];
    if !r.F? {
      EncOneEntry(l, [n, q]);
      assert [l] + [n, q] == [l, n, q];
    }
    EncOneEntry(k, rest);
    EncOneEntry(i, [k] + rest);
    assert [i] + ([k] + rest) == Message(own, session, lkp, r, ns).d;
    EncStrLength(KEY_I);
    EncStrLength(KEY_K);
    EncStrLength(KEY_L);
    EncStrLength(KEY_N);
    EncStrLength(KEY_Q);
    EncStrLength(own);
    EncStrLength(session);
    EncStrLength(lkp);
    EncStrLength([Letter(r)]);
  }

  // ---- end to end

  lemma MessageWellFormed(own: Id, session: Id, lkp: Id, r: Reply, ns: seq<Node>)
    ensures WellFormedTree(Message(own, session, lkp, r, ns))
  {
    var l := Dicts(Good(ns));
    forall k | 0 <= k < |l|
      ensures WellFormedTree(l[k])
    {
      NodeDictWellFormed(Good(ns)[k]);
    }
  }

  lemma NodeDictWellFormed(n: Node)
    ensures WellFormedTree(NodeDict(n))
  {
  }

  /** The datagram of a node list is accepted by the validator, decodes to the message, and the walk
      over its list hands on exactly the good nodes of the bucket, in order, with id, address and
      port; it fits the receiver's buffer exactly when there are at most 24 of them. */
  lemma NodeListArrives(own: Id, session: Id, lkp: Id, r: Reply, ns: seq<Node>)
    ensures var code := Enc(Message(own, session, lkp, r, ns));
            && Accepts(code, 0)
            && DecVal(code, 0) == Done(Message(own, session, lkp, r, ns), |code|)
            && (|code| <= 1460 <==> |Good(ns)| <= 24)
    ensures var l := SearchDict(Message(own, session, lkp, r, ns), KEY_N);
            l.Some? && l.value.List? && HandedOn(l.value.l) == Known(Good(ns))
  {
    hide Enc, WellFormedTree, Message, Good, HandedOn;
    var msg := Message(own, session, lkp, r, ns);
    MessageWellFormed(own, session, lkp, r, ns);
    RoundTrip(msg, []);
    assert Enc(msg) + [] == Enc(msg);
    DecAgrees(Enc(msg), 0);
    MessageLength(own, session, lkp, r, ns);
    NodesOfMessage(own, session, lkp, r, ns);
    WalkReadsAll(Good(ns));
  }

  /** What a receiver finds under each key: i the sender's id, k the session id, l the lookup id in
      replies A and L only, n the nodes, q the letter. */
  lemma MessageFields(own: Id, session: Id, lkp: Id, r: Reply, ns: seq<Node>)
    ensures var msg := Message(own, session, lkp, r, ns);
            && SearchDict(msg, [0x69]) == Some(Str(own))
            && SearchDict(msg, [0x6B]) == Some(Str(session))
            && SearchDict(msg, [0x6C]) == (if r.F? then None else Some(Str(lkp)))
            && SearchDict(msg, [0x6E]) == Some(List(Dicts(Good(ns))))
            && SearchDict(msg, [0x71]) == Some(Str([match r case A => 0x41 case F => 0x46 case L => 0x4C]))
  {
    hide Good, Dicts;
    var d := Message(own, session, lkp, r, ns).d;
    var i, k, l := Entry([0x69], Str(own)), Entry([0x6B], Str(session)), Entry([0x6C], Str(lkp));
    var n := Entry([0x6E], List(Dicts(Good(ns))));
    var q := Entry([0x71], Str([match r case A => 0x41 case F => 0x46 case L => 0x4C]));
    assert d == if r.F? then [i, k, n, q] else [i, k, l, n, q];
    hide Message, KeyIndex;
    KeyIndexIs(d, [0x69], 0);
    KeyIndexIs(d, [0x6B], 1);
    KeyIndexIs(d, [0x6E], |d| - 2);
    KeyIndexIs(d, [0x71], |d| - 1);
    if r.F? {
      NoKey(d, [0x6C]);
    } else {
      KeyIndexIs(d, [0x6C], 2);
    }
  }

  /** The order of the keys on the wire. */
  lemma MessageOrder(own: Id, session: Id, lkp: Id, r: Reply, ns: seq<Node>)
    ensures var d := Message(own, session, lkp, r, ns).d;
            seq(|d|, i requires 0 <= i < |d| => d[i].key)
            == if r.F? then [[0x69], [0x6B], [0x6E], [0x71]] else [[0x69], [0x6B], [0x6C], [0x6E], [0x71]]
  {
  }

  lemma NoKey(d: seq<Entry>, key: seq<Byte>)
    requires forall j :: 0 <= j < |d| ==> d[j].key != key
    ensures KeyIndex(d, key) == |d|
  {
  }

  /** One node of the list: i its id, a its IPv6 address, p its port. */
  lemma NodeFields(n: Node)
    ensures NodeDict(n).d == [Entry([0x69], Str(n.id)), Entry([0x61], Str(n.addr.ip)), Entry([0x70], Str(n.addr.port))]
  {
  }

  /** The good nodes are those without an unanswered ping, in bucket order and each as often as it
      is there. */
  lemma {:induction false} GoodIs(a: seq<Node>, n: Node, b: seq<Node>)
    ensures Good(a + [n] + b) == Good(a) + (if n.pinged <= 0 then [n] else []) + Good(b)
    decreases |b|
  {
    if b == [] {
      assert a + [n] + b == a + [n] && (a + [n])[..|a|] == a;
    } else {
      var l := a + [n] + b;
      assert l[..|l| - 1] == a + [n] + b[..|b| - 1];
      GoodIs(a, n, b[..|b| - 1]);
    }
  }

  lemma NodesOfMessage(own: Id, session: Id, lkp: Id, r: Reply, ns: seq<Node>)
    ensures SearchDict(Message(own, session, lkp, r, ns), KEY_N) == Some(List(Dicts(Good(ns))))
  {
    hide Good;
    KeyIndexIs(Message(own, session, lkp, r, ns).d, KEY_N, if r.F? then 2 else 3);
  }
}
