/** The routing table object of src/bucket.c and src/neighborhood.c. */
module Neighborhood {
  import opened Powers
  import opened Ids
  import opened Options
  import opened Routing
  import opened RoutingProofs
  import opened RoutingSplit
  import opened Sweep

  /** A node is dropped once this many pings went unanswered. */
  const MAX_PINGED: int := 4

  predicate Bad(n: Node) { n.pinged >= MAX_PINGED }

  lemma BadIs(n: Node)
    ensures Bad(n) <==> n.pinged >= MAX_PINGED
  {
  }

  /** The table with the node of this id, if there is one, replaced by n. */
  function Updated(t: Table, id: Id, n: Node): (r: Table)
    requires Linked(t)
    ensures Linked(r)
  {
    match FindNode(t, id)
    case None => t
    case Some(j) =>
      var b := BestMatch(t, id);
      WithNodes(t, b, t.buckets[b].nodes[j := n])
  }

  function NodeAt(t: Table, id: Id): (n: Node)
    requires Linked(t) && FindNode(t, id).Some?
    ensures n.id == id
  {
    t.buckets[BestMatch(t, id)].nodes[FindNode(t, id).value]
  }

  /** nbhd_put: nothing for the own id, an address update for a known id, otherwise a new node. */
  function NeighborhoodPut(t: Table, own: Id, id: Id, addr: Address, ping: int, find: int): (r: Table)
    requires Linked(t)
    ensures Linked(r)
  {
    if id == own then t
    else if FindNode(t, id).Some? then Updated(t, id, NodeAt(t, id).(addr := addr))
    else Put(t, Node(id, addr, ping, find, 1))
  }

  /** nbhd_expire: one counter-bounded pass over each bucket. */
  function ExpiredBuckets(bs: seq<Bucket>): seq<Bucket> {
    seq(|bs|, i requires 0 <= i < |bs| => bs[i].(nodes := Pass(bs[i].nodes, Bad)))
  }

  /** nbhd_expire leaves no bad node exactly when in every bucket, of D bad nodes, none is among the
      last D - 1. */
  lemma ExpiredDrainsIff(bs: seq<Bucket>)
    ensures (forall i :: 0 <= i < |bs| ==> ExpiredBuckets(bs)[i].nodes == Kept(bs[i].nodes, Bad))
        <==> (forall i :: 0 <= i < |bs| ==> DueInFront(bs[i].nodes, Bad))
  {
    hide Pass, Kept, DueInFront;
    forall i | 0 <= i < |bs|
      ensures ExpiredBuckets(bs)[i].nodes == Kept(bs[i].nodes, Bad) <==> DueInFront(bs[i].nodes, Bad)
    {
      PassDrainsIff(bs[i].nodes, Bad);
    }
  }

  /** nbhd_expire keeps every node with fewer than 4 unanswered pings, adds none, and removes a node
      that stands alone exactly when it has 4 or more. */
  lemma ExpiredNodes(bs: seq<Bucket>, i: nat, n: Node)
    requires i < |bs|
    ensures n in bs[i].nodes && n.pinged < 4 ==> n in ExpiredBuckets(bs)[i].nodes
    ensures n in ExpiredBuckets(bs)[i].nodes ==> n in bs[i].nodes
    ensures bs[i].nodes == [n] ==> ExpiredBuckets(bs)[i].nodes == if n.pinged >= 4 then [] else [n]
  {
    hide Pass, Kept;
    var ns := bs[i].nodes;
    PassHalves(ns, Bad);
    KeptIs(ns, Bad);
    KeptIs(Pass(ns, Bad), Bad);
    PassIn(ns, n);
    if ns == [n] {
      LonePass(n);
    }
  }

  lemma PassIn(ns: seq<Node>, n: Node)
    ensures n in Pass(ns, Bad) ==> n in ns
  {
    hide Kept;
    KeptIs(ns[..Inspected(ns, Bad, 0)], Bad);
  }

  lemma LonePass(n: Node)
    ensures Pass([n], Bad) == if n.pinged >= 4 then [] else [n]
  {
    assert [n][..0] == [] && [n][..1] == [n] && [n][1..] == [];
    assert Inspected([n], Bad, 1) == 1;
  }

  lemma {:induction false} KeptDistinct(ns: seq<Node>)
    requires DistinctIds(ns)
    ensures DistinctIds(Kept(ns, Bad))
    ensures forall n :: n in Kept(ns, Bad) ==> n in ns
  {
    if ns != [] {
      var front, last := ns[..|ns| - 1], ns[|ns| - 1];
      KeptDistinct(front);
      var k := Kept(front, Bad);
      forall i | 0 <= i < |k|
        ensures k[i].id != last.id
      {
        assert k[i] in front;
        var j :| 0 <= j < |front| && front[j] == k[i];
      }
    }
  }

  lemma PassDistinct(ns: seq<Node>)
    requires DistinctIds(ns)
    ensures DistinctIds(Pass(ns, Bad))
    ensures forall n :: n in Pass(ns, Bad) ==> n in ns
  {
    hide Kept;
    var m := Inspected(ns, Bad, 0);
    KeptDistinct(ns[..m]);
    var k := Kept(ns[..m], Bad);
    forall i, j | 0 <= i < |k| && m <= j < |ns|
      ensures k[i].id != ns[j].id
    {
      assert k[i] in ns[..m];
    }
  }

  /** nbhd_expire keeps the table reachable. */
  lemma ExpiredKeepsReachable(t: Table, own: Id)
    requires Reachable(t, own)
    ensures Reachable(t.(buckets := ExpiredBuckets(t.buckets)), own)
  {
    hide Value, Pow2, Aligned, Pass, BestFrom, IndexOf, DistinctIds;
    var u := t.(buckets := ExpiredBuckets(t.buckets));
    SameIdsShaped(t, u);
    forall i | 0 <= i < |t.buckets|
      ensures DistinctIds(u.buckets[i].nodes)
      ensures forall n :: n in u.buckets[i].nodes ==> n in t.buckets[i].nodes
    {
      PassDistinct(t.buckets[i].nodes);
    }
    forall i, j | 0 <= i < |u.buckets| && 0 <= j < |u.buckets[i].nodes|
      ensures Lo(u, i) <= Value(u.buckets[i].nodes[j].id) < Hi(u, i)
    {
      assert u.buckets[i].nodes[j] in t.buckets[i].nodes;
    }
    BestMatchSameIds(t, u, own, 0);
    NotOwn(t, own, BestMatch(t, own));
  }

  /** A change to the list of one bucket of a reachable table that brings in no own id. */
  lemma StaysReachable(t: Table, own: Id, b: nat, ns: seq<Node>)
    requires Reachable(t, own) && b < |t.buckets|
    requires WellFormed(WithNodes(t, b, ns))
    requires forall n :: n in ns ==> n.id != own
    ensures Reachable(WithNodes(t, b, ns), own)
  {
    hide Value, Pow2, Aligned, Homed, DistinctIds;
    BestMatchSameIds(t, WithNodes(t, b, ns), own, 0);
  }

  lemma NotOwn(t: Table, own: Id, b: nat)
    requires Reachable(t, own) && b < |t.buckets|
    ensures forall n :: n in t.buckets[b].nodes ==> n.id != own
  {
    FindNodeIsGlobal(t, own);
  }

  lemma UpdatedKeepsReachable(t: Table, own: Id, id: Id, n: Node)
    requires Reachable(t, own) && n.id == id
    ensures Reachable(Updated(t, id, n), own)
  {
    hide Value, Pow2, Aligned;
    if FindNode(t, id).Some? {
      var b, j := BestMatch(t, id), FindNode(t, id).value;
      var ns := t.buckets[b].nodes;
      BestMatchIsTheBucket(t, id, b);
      NotOwn(t, own, b);
      assert ns[j] in ns;
      forall x: Node | x in ns[j := n]
        ensures Lo(t, b) <= Value(x.id) < Hi(t, b) && x.id != own
      {
        assert x == n || x in ns;
      }
      WithNodesWellFormed(t, b, ns[j := n]);
      StaysReachable(t, own, b, ns[j := n]);
    }
  }

  lemma PutKeepsReachable(t: Table, own: Id, n: Node)
    requires Reachable(t, own) && n.id != own
    ensures Reachable(Put(t, n), own)
  {
    hide Value, Pow2, Aligned, Homed, DistinctIds;
    PutKeepsWellFormed(t, n);
    var b := BestMatch(t, n.id);
    NotOwn(t, own, b);
    if FindNode(t, n.id).None? {
      StaysReachable(t, own, b, t.buckets[b].nodes + [n]);
    }
  }

  /** A node that was put is found. */
  lemma PutIsFound(t: Table, n: Node)
    requires Linked(t) && FindNode(t, n.id).None?
    ensures FindNode(Put(t, n), n.id).Some? && NodeAt(Put(t, n), n.id) == n
  {
    BestMatchSameIds(t, Put(t, n), n.id, 0);
    IndexOfAppend(t.buckets[BestMatch(t, n.id)].nodes, n);
  }

  lemma {:induction false} IndexOfAppend(ns: seq<Node>, n: Node)
    requires IndexOf(ns, n.id) == |ns|
    ensures IndexOf(ns + [n], n.id) == |ns|
  {
    if ns != [] {
      assert (ns + [n])[1..] == ns[1..] + [n];
      IndexOfAppend(ns[1..], n);
    }
  }

  /** An update exchanges the one node of that id for another and touches no other node. */
  lemma UpdatedExchanges(t: Table, id: Id, n: Node)
    requires Linked(t) && FindNode(t, id).Some? && n.id == id
    ensures var u := Updated(t, id, n);
            && FindNode(u, id).Some? && NodeAt(u, id) == n
            && NodesOf(u.buckets) + multiset{NodeAt(t, id)} == NodesOf(t.buckets) + multiset{n}
  {
    hide NodesOf, BestFrom, IndexOf;
    var u, b, j := Updated(t, id, n), BestMatch(t, id), FindNode(t, id).value;
    var ns := t.buckets[b].nodes;
    BestMatchSameIds(t, u, id, 0);
    IndexOfUpdate(ns, id, n);
    NodesOfUpdate(t.buckets, b, t.buckets[b].(nodes := ns[j := n]));
    AroundOne(ns, j, n);
    Exchange(NodesOf(u.buckets), NodesOf(t.buckets), multiset(ns[..j] + ns[j + 1..]), ns[j], n);
  }

  lemma AroundOne(ns: seq<Node>, j: nat, n: Node)
    requires j < |ns|
    ensures multiset(ns) == multiset(ns[..j] + ns[j + 1..]) + multiset{ns[j]}
    ensures multiset(ns[j := n]) == multiset(ns[..j] + ns[j + 1..]) + multiset{n}
  {
    assert ns == ns[..j] + [ns[j]] + ns[j + 1..];
    assert ns[j := n] == ns[..j] + [n] + ns[j + 1..];
  }

  lemma Exchange(u: multiset<Node>, t: multiset<Node>, rest: multiset<Node>, x: Node, y: Node)
    requires u + (rest + multiset{x}) == t + (rest + multiset{y})
    ensures u + multiset{x} == t + multiset{y}
  {
    assert u + multiset{x} == u + (rest + multiset{x}) - rest;
    assert t + multiset{y} == t + (rest + multiset{y}) - rest;
  }

  lemma {:induction false} IndexOfUpdate(ns: seq<Node>, id: Id, n: Node)
    requires IndexOf(ns, id) < |ns| && n.id == id
    ensures IndexOf(ns[IndexOf(ns, id) := n], id) == IndexOf(ns, id)
  {
    if ns[0].id != id {
      IndexOfUpdate(ns[1..], id, n);
      assert ns[IndexOf(ns, id) := n][1..] == ns[1..][IndexOf(ns[1..], id) := n];
    }
  }

  /** nbhd_put does nothing for the own id. For a known id it changes the address of that one node.
      For a new id it adds the one node, with both times and one ping outstanding. */
  lemma NeighborhoodPutEffect(t: Table, own: Id, id: Id, addr: Address, ping: int, find: int)
    requires Reachable(t, own)
    ensures var u := NeighborhoodPut(t, own, id, addr, ping, find);
            && (id == own ==> u == t)
            && (id != own ==> FindNode(u, id).Some?)
            && (id != own && FindNode(t, id).Some? ==>
                  && NodeAt(u, id) == NodeAt(t, id).(addr := addr)
                  && NodesOf(u.buckets) + multiset{NodeAt(t, id)} == NodesOf(t.buckets) + multiset{NodeAt(u, id)})
            && (id != own && FindNode(t, id).None? ==>
                  && NodeAt(u, id) == Node(id, addr, ping, find, 1)
                  && NodesOf(u.buckets) == NodesOf(t.buckets) + multiset{NodeAt(u, id)})
  {
    hide NodesOf, Updated, Put, BestMatch, Homed, DistinctIds;
    if id != own {
      if FindNode(t, id).Some? {
        UpdatedExchanges(t, id, NodeAt(t, id).(addr := addr));
      } else {
        PutKeepsWellFormed(t, Node(id, addr, ping, find, 1));
        PutIsFound(t, Node(id, addr, ping, find, 1));
      }
    }
  }

  /** nbhd_put keeps the table reachable and afterwards knows the id under the address given. */
  lemma NeighborhoodPutKeepsReachable(t: Table, own: Id, id: Id, addr: Address, ping: int, find: int)
    requires Reachable(t, own)
    ensures Reachable(NeighborhoodPut(t, own, id, addr, ping, find), own)
    ensures id != own ==>
              var u := NeighborhoodPut(t, own, id, addr, ping, find);
              FindNode(u, id).Some? && NodeAt(u, id).addr == addr
  {
    hide Value, Pow2, Aligned, Homed, DistinctIds;
    if id != own {
      if FindNode(t, id).Some? {
        var n := NodeAt(t, id).(addr := addr);
        UpdatedKeepsReachable(t, own, id, n);
        var u := Updated(t, id, n);
        BestMatchSameIds(t, u, id, 0);
        IndexOfUpdate(t.buckets[BestMatch(t, id)].nodes, id, n);
      } else {
        var n := Node(id, addr, ping, find, 1);
        PutKeepsReachable(t, own, n);
        PutIsFound(t, n);
      }
    }
  }

  lemma {:induction false} IndexOfIs(ns: seq<Node>, id: Id, j: nat)
    requires j < |ns| && ns[j].id == id && forall i :: 0 <= i < j ==> ns[i].id != id
    ensures IndexOf(ns, id) == j
  {
    if j > 0 {
      IndexOfIs(ns[1..], id, j - 1);
    }
  }

  /** nbhd_put of one id leaves every other id as it was: known or unknown, and the same node. */
  lemma NeighborhoodPutOthers(t: Table, own: Id, id: Id, addr: Address, ping: int, find: int, other: Id)
    requires Linked(t) && other != id
    ensures var u := NeighborhoodPut(t, own, id, addr, ping, find);
            && (FindNode(u, other).Some? <==> FindNode(t, other).Some?)
            && (FindNode(t, other).Some? ==> NodeAt(u, other) == NodeAt(t, other))
  {
    var u := NeighborhoodPut(t, own, id, addr, ping, find);
    if u != t {
      BestMatchSameIds(t, u, other, 0);
      var b := BestMatch(t, id);
      if FindNode(t, id).Some? {
        var j := FindNode(t, id).value;
        OtherAfterUpdate(t.buckets[b].nodes, j, NodeAt(t, id).(addr := addr), other);
      } else {
        OtherAfterAppend(t.buckets[b].nodes, Node(id, addr, ping, find, 1), other);
      }
    }
  }

  lemma OtherAfterUpdate(ns: seq<Node>, j: nat, n: Node, other: Id)
    requires j < |ns| && ns[j].id == n.id != other
    ensures IndexOf(ns[j := n], other) == IndexOf(ns, other)
    ensures IndexOf(ns, other) < |ns| ==> ns[j := n][IndexOf(ns, other)] == ns[IndexOf(ns, other)]
  {
    var i := IndexOf(ns, other);
    if i < |ns| {
      IndexOfIs(ns[j := n], other, i);
    }
  }

  lemma OtherAfterAppend(ns: seq<Node>, n: Node, other: Id)
    requires n.id != other
    ensures IndexOf(ns, other) < |ns| ==> IndexOf(ns + [n], other) == IndexOf(ns, other)
    ensures IndexOf(ns, other) == |ns| ==> IndexOf(ns + [n], other) == |ns| + 1
  {
    if IndexOf(ns, other) < |ns| {
      IndexOfIs(ns + [n], other, IndexOf(ns, other));
    }
  }

  /** Deleting the node at a known place is deleting that place from its bucket's list. */
  lemma DelInPlace(t: Table, b: nat, j: nat)
    requires WellFormed(t) && b < |t.buckets| && j < |t.buckets[b].nodes|
    ensures var ns := t.buckets[b].nodes;
            Del(t, ns[j].id) == WithNodes(t, b, ns[..j] + ns[j + 1..])
  {
    hide Value, Pow2, Aligned;
    BestMatchIsTheBucket(t, t.buckets[b].nodes[j].id, b);
  }

  lemma DelKeepsReachable(t: Table, own: Id, id: Id)
    requires Reachable(t, own)
    ensures Reachable(Del(t, id), own)
  {
    hide Value, Pow2, Aligned, Homed, DistinctIds, BestFrom, NodesOf;
    DelKeepsWellFormed(t, id);
    if FindNode(t, id).Some? {
      var b, j := BestMatch(t, id), FindNode(t, id).value;
      var ns := t.buckets[b].nodes;
      NotOwn(t, own, b);
      assert forall n :: n in ns[..j] + ns[j + 1..] ==> n in ns;
      StaysReachable(t, own, b, ns[..j] + ns[j + 1..]);
    }
  }

  class Neighborhood {
    const own: Id
    var buckets: seq<Bucket>
    var stop: nat

    ghost function Table(): Table
      reads this
    {
      Routing.Table(buckets, stop)
    }

    ghost predicate Valid()
      reads this
    {
      Reachable(Table(), own)
    }

    /** bckt_init: a single bucket with the zero id. */
    constructor (own: Id)
      ensures Valid() && this.own == own
      ensures Table() == Routing.Table([Bucket(seq(ID_LENGTH, i => 0), [])], 0)
    {
      this.own := own;
      buckets := [Bucket(seq(ID_LENGTH, i => 0), [])];
      stop := 0;
      new;
      OneEmptyBucket(buckets[0].id);
    }

    /** bckt_find_best_match */
    method FindBestMatch(id: Id) returns (item: nat)
      requires Linked(Table())
      ensures item == BestMatch(Table(), id)
    {
      item := 0;
      for i := 0 to |buckets| - 1
        invariant item == i && BestFrom(Table(), id, i) == BestMatch(Table(), id)
      {
        var next := item + 1;
        if MemCmp(id, buckets[next].id) < 0 {
          return item;
        }
        item := next;
      }
      return stop;
    }

    /** bckt_find_node: the bucket and the position in it. */
    method LocateNode(id: Id) returns (b: nat, j: nat, found: bool)
      requires Linked(Table())
      ensures b == BestMatch(Table(), id)
      ensures FindNode(Table(), id) == if found then Some(j) else None
      ensures found ==> j < |buckets[b].nodes| && buckets[b].nodes[j] == NodeAt(Table(), id)
    {
      b := FindBestMatch(id);
      var list := buckets[b].nodes;
      j := 0;
      while j < |list|
        invariant j <= |list|
        invariant forall k :: 0 <= k < j ==> list[k].id != id
      {
        if list[j].id == id {
          return b, j, true;
        }
        j := j + 1;
      }
      found := false;
    }

    /** bckt_put */
    method BcktPut(n: Node)
      requires Linked(Table())
      modifies this
      ensures Table() == Put(old(Table()), n)
    {
      var b, j, found := LocateNode(n.id);
      if !found {
        buckets := buckets[b := buckets[b].(nodes := buckets[b].nodes + [n])];
      }
    }

    /** bckt_del */
    method BcktDel(id: Id)
      requires Linked(Table())
      modifies this
      ensures Table() == Del(old(Table()), id)
    {
      var b, j, found := LocateNode(id);
      if found {
        var ns := buckets[b].nodes;
        buckets := buckets[b := buckets[b].(nodes := ns[..j] + ns[j + 1..])];
      }
    }

    /** bckt_significant_bit: from the last byte down to the first, then from its last bit up. */
    method LastSetBit(id: Id) returns (bit: int)
      ensures bit == SignificantBit(id)
    {
      var i := ID_LENGTH - 1;
      assert id[..i + 1] == id;
      while i >= 0 && id[i] == 0
        invariant -1 <= i < ID_LENGTH
        invariant SignificantBit(id) == SignificantBit(id[..i + 1])
      {
        assert id[..i + 1][..i] == id[..i];
        i := i - 1;
      }
      if i < 0 {
        return -1;
      }
      var j := 7;
      while j >= 0 && !TestBit(id[i], j)
        invariant -1 <= j < 8
        invariant LowBit(id[i], 7) == LowBit(id[i], j)
      {
        j := j - 1;
      }
      LowBitFound(id[i], j);
      return 8 * i + j;
    }

    /** bckt_compute_id */
    method NewBucketId(b: nat) returns (id: Option<Id>)
      requires Linked(Table()) && b < |buckets| && (b == stop || b + 1 < |buckets|)
      ensures id == ComputeId(Table(), b)
    {
      var bit1 := LastSetBit(buckets[b].id);
      var bit2 := -1;
      if b != stop {
        bit2 := LastSetBit(buckets[b + 1].id);
      }
      var bit := if bit1 >= bit2 then bit1 else bit2;
      bit := bit + 1;
      if bit >= BITS {
        return None;
      }
      return Some(SetBit(buckets[b].id, bit));
    }

    /** list_ins on the bucket list: the new bucket stands behind the given one. With two or more
        buckets the stop pointer stays at the bucket it named, so it loses the end of the list when
        the new bucket is the last. */
    method InsertBucket(here: nat, x: Bucket)
      requires Linked(Table()) && here < |buckets|
      modifies this
      ensures Table() == ListIns(old(Table()), here, x)
      ensures |buckets| == |old(buckets)| + 1 && buckets[here + 1] == x
      ensures forall i :: 0 <= i <= here ==> buckets[i] == old(buckets)[i]
      ensures forall i :: here < i < |old(buckets)| ==> buckets[i + 1] == old(buckets)[i]
      ensures |old(buckets)| > 1 ==> buckets[stop] == old(buckets[stop])
      ensures old(stop) == |old(buckets)| - 1 ==>
                (stop == |buckets| - 1 <==> |old(buckets)| == 1 || here + 1 < |old(buckets)|)
    {
      if |buckets| <= 1 {
        buckets, stop := buckets + [x], |buckets|;
      } else {
        buckets := buckets[..here + 1] + [x] + buckets[here + 1..];
        stop := if stop > here then stop + 1 else stop;
      }
    }

    /** bckt_split */
    method BcktSplit() returns (split: bool)
      requires Linked(Table())
      modifies this
      ensures (Table(), split) == Split(old(Table()), own)
    {
      hide ComputeId, Redistribute, BestFrom;
      var b := FindBestMatch(own);
      if |buckets[b].nodes| <= BUCKET_SIZE {
        return false;
      }
      var id := NewBucketId(b);
      if id.None? {
        return false;
      }
      InsertBucket(b, Bucket(id.value, []));
      var list := buckets[b].nodes;
      buckets := buckets[b := buckets[b].(nodes := [])];
      HandOut(list);
      return true;
    }

    /** The loop of bckt_split: every node of the old list goes to its best match. */
    method HandOut(list: seq<Node>)
      requires Linked(Table())
      modifies this
      ensures Table() == Redistribute(old(Table()), list)
    {
      hide BestMatch;
      var i := 0;
      while i < |list|
        invariant 0 <= i <= |list| && Linked(Table())
        invariant Table() == Redistribute(old(Table()), list[..i])
      {
        var n := list[i];
        var s := FindBestMatch(n.id);
        buckets := buckets[s := buckets[s].(nodes := buckets[s].nodes + [n])];
        assert list[..i + 1][..i] == list[..i];
        i := i + 1;
      }
      assert list[..i] == list;
    }

    /** nbhd_split: splits until bckt_split declines, with at most 8 nodes left in the own bucket,
        no node lost and none gained. */
    method NbhdSplit() returns (ghost rounds: nat)
      requires Valid() && Settles(Table(), own)
      modifies this
      ensures Valid() && Settles(Table(), own)
      ensures Table() == SplitTimes(old(Table()), own, rounds)
      ensures EndsAfter(old(Table()), own, rounds)
      ensures |buckets[BestMatch(Table(), own)].nodes| <= 8
      ensures NodesOf(buckets) == NodesOf(old(buckets))
    {
      hide Split, Aligned, Homed, DistinctIds, NodesOf, UpperCount, Upper;
      ghost var before := Table();
      var split := true;
      rounds := 0;
      SplitTimesStart(before, own);
      while split
        invariant Linked(Table())
        invariant Reachable(Table(), own) && Settles(Table(), own)
        invariant NodesOf(buckets) == NodesOf(old(buckets))
        invariant !split ==> |buckets[BestMatch(Table(), own)].nodes| <= BUCKET_SIZE
        invariant Table() == SplitTimes(old(Table()), own, rounds)
        invariant !split ==> EndsAfter(old(Table()), own, rounds)
        decreases split, Width(Table(), own)
      {
        before := Table();
        split := BcktSplit();
        SplitsIff(before, own);
        SplitConserves(before, own);
        if split {
          SplitStep(before, own);
          rounds := rounds + 1;
        }
      }
    }

    /** nbhd_put. A new node is sent a PING and a FIND, so the caller is told. */
    method NbhdPut(id: Id, addr: Address, ping: int, find: int) returns (isNew: bool)
      requires Valid()
      modifies this
      ensures Valid()
      ensures Table() == NeighborhoodPut(old(Table()), own, id, addr, ping, find)
      ensures isNew <==> id != own && FindNode(old(Table()), id).None?
    {
      NeighborhoodPutKeepsReachable(Table(), own, id, addr, ping, find);
      if id == own {
        return false;
      }
      var b, j, found := LocateNode(id);
      if found {
        var ns := buckets[b].nodes;
        buckets := buckets[b := buckets[b].(nodes := ns[j := ns[j].(addr := addr)])];
        return false;
      }
      BcktPut(Node(id, addr, ping, find, 1));
      return true;
    }

    /** nbhd_pinged */
    method Pinged(id: Id, ping: int)
      requires Valid()
      modifies this
      ensures Valid()
      ensures FindNode(old(Table()), id).None? ==> Table() == old(Table())
      ensures FindNode(old(Table()), id).Some? ==>
                var n := NodeAt(old(Table()), id);
                Table() == Updated(old(Table()), id, n.(pinged := n.pinged + 1, timePing := ping))
    {
      hide Aligned, Homed, DistinctIds, Value, BestFrom, Pow2, Upper, IndexOf;
      var b, j, found := LocateNode(id);
      if found {
        var ns := buckets[b].nodes;
        var n := ns[j].(pinged := ns[j].pinged + 1, timePing := ping);
        UpdatedKeepsReachable(Table(), own, id, n);
        buckets := buckets[b := buckets[b].(nodes := ns[j := n])];
      }
    }

    /** nbhd_ponged */
    method Ponged(id: Id, addr: Address, ping: int) returns (found: bool)
      requires Valid()
      modifies this
      ensures Valid()
      ensures found <==> FindNode(old(Table()), id).Some?
      ensures FindNode(old(Table()), id).None? ==> Table() == old(Table())
      ensures FindNode(old(Table()), id).Some? ==>
                var n := NodeAt(old(Table()), id);
                Table() == Updated(old(Table()), id,
                                   n.(pinged := 0, timePing := ping, addr := addr))
    {
      hide Aligned, Homed, DistinctIds, Value, BestFrom, Pow2, Upper, IndexOf;
      var b, j;
      b, j, found := LocateNode(id);
      if found {
        var ns := buckets[b].nodes;
        var n := ns[j].(pinged := 0, timePing := ping, addr := addr);
        UpdatedKeepsReachable(Table(), own, id, n);
        buckets := buckets[b := buckets[b].(nodes := ns[j := n])];
      }
    }

    /** nbhd_del on a node known to sit at this place. */
    method DeleteAt(k: nat, item: nat)
      requires Valid() && k < |buckets| && item < |buckets[k].nodes|
      modifies this
      ensures Valid() && stop == old(stop)
      ensures var ns := old(buckets[k].nodes);
              buckets == old(buckets)[k := old(buckets[k]).(nodes := ns[..item] + ns[item + 1..])]
    {
      hide Aligned, Homed, DistinctIds, Value, BestFrom, Pow2;
      DelInPlace(Table(), k, item);
      DelKeepsReachable(Table(), own, buckets[k].nodes[item].id);
      BcktDel(buckets[k].nodes[item].id);
    }

    /** The inner loop of nbhd_expire. The pointer it follows never runs off the list. */
    method ExpireBucket(k: nat)
      requires Valid() && k < |buckets|
      modifies this
      ensures Valid()
      ensures stop == old(stop)
      ensures buckets == old(buckets)[k := old(buckets[k]).(nodes := Pass(old(buckets[k].nodes), Bad))]
    {
      hide *;
      ghost var was := buckets[k].nodes;
      var item: nat, j: nat := 0, 0;
      SweepStart(was, Bad);
      while j < |buckets[k].nodes|
        invariant Valid() && stop == old(stop)
        invariant |buckets| == |old(buckets)|
        invariant buckets == old(buckets)[k := old(buckets[k]).(nodes := buckets[k].nodes)]
        invariant j <= |was| && SweptTo(was, buckets[k].nodes, Bad, j) && item == |Kept(was[..j], Bad)|
        invariant Inspected(was, Bad, 0) == Inspected(was, Bad, j)
        decreases |was| - j
      {
        CounterInList(was, buckets[k].nodes, Bad, j);
        ghost var i := SweepStep(was, buckets[k].nodes, Bad, j);
        BadIs(was[j]);
        if buckets[k].nodes[item].pinged >= MAX_PINGED {
          DeleteAt(k, item);
        } else {
          item := item + 1;
        }
        j := j + 1;
      }
      SweepDone(was, buckets[k].nodes, Bad, j);
    }

    /** nbhd_expire */
    method Expire()
      requires Valid()
      modifies this
      ensures Valid()
      ensures stop == old(stop) && buckets == ExpiredBuckets(old(buckets))
    {
      hide Reachable, Pass;
      ghost var was := buckets;
      var k := 0;
      while k < |buckets|
        invariant Valid() && stop == old(stop)
        invariant k <= |buckets| == |was|
        invariant buckets[..k] == ExpiredBuckets(was)[..k]
        invariant buckets[k..] == was[k..]
      {
        ghost var before := buckets;
        assert before[k] == before[k..][0];
        ExpireBucket(k);
        assert buckets[..k] == before[..k] && buckets[k + 1..] == before[k..][1..];
        assert buckets[..k + 1] == buckets[..k] + [buckets[k]];
        k := k + 1;
      }
    }
  }

  lemma LowBitFound(b: Byte, j: int)
    requires -1 <= j < 8 && LowBit(b, 7) == LowBit(b, j) && b != 0
    requires j < 0 || TestBit(b, j)
    ensures j >= 0 && LowBit(b, 7) == j
  {
    var o := LowBitOfByte(b);
  }

  lemma OneEmptyBucket(id: Id)
    requires id == seq(ID_LENGTH, i => 0)
    ensures Reachable(Routing.Table([Bucket(id, [])], 0), id)
    ensures forall own: Id :: Reachable(Routing.Table([Bucket(id, [])], 0), own)
  {
    OneBucket(Routing.Table([Bucket(id, [])], 0));
  }
}
