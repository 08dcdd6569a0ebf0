/** What the operations of the routing table keep and reach. */
module RoutingProofs {
  import opened Powers
  import opened Ids
  import opened Routing

  // ---- intervals

  lemma {:induction false} LoGrows(t: Table, i: nat, j: nat)
    requires Shaped(t) && i < j < |t.buckets|
    ensures Hi(t, i) <= Lo(t, j)
    decreases j
  {
    hide Value, Pow2, Aligned;
    if i < j - 1 {
      LoGrows(t, i, j - 1);
      IntervalNonEmpty(t, j - 1);
    }
  }

  lemma IntervalNonEmpty(t: Table, i: nat)
    requires Shaped(t) && i < |t.buckets|
    ensures Lo(t, i) < Hi(t, i) <= Pow2(BITS)
  {
    var w: nat, a: nat :| w <= BITS && AlignedAs(Lo(t, i), Hi(t, i), w, a);
    MulSplit(a, 1, Pow2(w));
    if i + 1 < |t.buckets| {
      ValueBound(t.buckets[i + 1].id);
    }
  }

  /** Bucket ids strictly increase. */
  lemma BucketIdsIncrease(t: Table, i: nat, j: nat)
    requires Shaped(t) && i < j < |t.buckets|
    ensures Lo(t, i) < Lo(t, j)
  {
    LoGrows(t, i, j);
    IntervalNonEmpty(t, i);
  }

  lemma {:induction false} BestFromCovers(t: Table, id: Id, i: nat)
    requires Shaped(t) && i < |t.buckets| && Lo(t, i) <= Value(id)
    ensures Lo(t, BestFrom(t, id, i)) <= Value(id) < Hi(t, BestFrom(t, id, i))
    decreases |t.buckets| - i
  {
    if i + 1 == |t.buckets| {
      ValueBound(id);
    } else {
      MemCmpOrdersValues(id, t.buckets[i + 1].id);
      if MemCmp(id, t.buckets[i + 1].id) >= 0 {
        BestFromCovers(t, id, i + 1);
      }
    }
  }

  /** The byte-wise search finds the one bucket whose interval contains the id. */
  lemma BestMatchIsTheBucket(t: Table, id: Id, i: nat)
    requires Shaped(t) && i < |t.buckets|
    ensures i == BestMatch(t, id) <==> Lo(t, i) <= Value(id) < Hi(t, i)
  {
    BestFromCovers(t, id, 0);
    var b := BestMatch(t, id);
    if i < b {
      LoGrows(t, i, b);
    } else if b < i {
      LoGrows(t, b, i);
    }
  }

  /** In a well-formed table bckt_find_node searches the whole table. */
  lemma FindNodeIsGlobal(t: Table, id: Id)
    requires WellFormed(t)
    ensures FindNode(t, id).Some? <==>
            exists i, j :: 0 <= i < |t.buckets| && 0 <= j < |t.buckets[i].nodes|
                        && t.buckets[i].nodes[j].id == id
  {
    forall i, j | 0 <= i < |t.buckets| && 0 <= j < |t.buckets[i].nodes|
                  && t.buckets[i].nodes[j].id == id
      ensures FindNode(t, id).Some?
    {
      BestMatchIsTheBucket(t, id, i);
    }
  }

  // ---- the midpoint

  /** The last set bits of the two ends of an aligned interval: the larger one is the bit just
      above the interval's width. */
  lemma EndBits(lo: Id, w: nat, a: nat, bit1: int, bit2: int, hi: nat, o2: nat)
    requires w <= BITS && AlignedAs(Value(lo), hi, w, a)
    requires bit1 == SignificantBit(lo)
    requires bit2 == -1 ==> hi == Pow2(BITS)
    requires bit2 != -1 ==> 0 <= bit2 < BITS && o2 % 2 == 1 && hi == o2 * Pow2(BITS - 1 - bit2)
    ensures Max(bit1, bit2) + 1 == BITS - w
  {
    hide Value, SignificantBit, Pow2;
    var o1 := SignificantBitValue(lo);
    if bit1 >= 0 {
      OddPart(o1, BITS - 1 - bit1, a, w);
    } else if a > 0 {
      MulStep(0, a, Pow2(w));
    }
    if bit2 >= 0 {
      OddPart(o2, BITS - 1 - bit2, a + 1, w);
    } else {
      LastInterval(w, a);
    }
  }

  /** The aligned interval that ends at the top has an even start, unless it is everything. */
  lemma LastInterval(w: nat, a: nat)
    requires w <= BITS && (a + 1) * Pow2(w) == Pow2(BITS)
    ensures w == BITS ==> a == 0
    ensures w < BITS ==> a % 2 == 1
  {
    var d := BITS - w;
    Pow2Add(d, w);
    Cancel(Pow2(d), a + 1, Pow2(w));
    if d > 0 {
      assert Pow2(d) == 2 * Pow2(d - 1);
    } else {
      assert Pow2(d) == 1;
    }
  }

  /** bckt_compute_id returns exactly the midpoint of the bucket's interval, and fails exactly on
      an interval of width one. */
  lemma ComputeIdIsMidpoint(t: Table, b: nat, w: nat, a: nat)
    requires Shaped(t) && b < |t.buckets|
    requires w <= BITS && AlignedAs(Lo(t, b), Hi(t, b), w, a)
    ensures ComputeId(t, b).None? <==> w == 0
    ensures w > 0 ==> Value(ComputeId(t, b).value) == Lo(t, b) + Pow2(w - 1)
  {
    hide Value, SignificantBit, Pow2, SetBit;
    var id := t.buckets[b].id;
    var bit1 := SignificantBit(id);
    var bit2, o2 := -1, 1;
    if b != t.stop {
      bit2 := SignificantBit(t.buckets[b + 1].id);
      o2 := SignificantBitValue(t.buckets[b + 1].id);
      BucketIdsIncrease(t, 0, b + 1);
    }
    EndBits(id, w, a, bit1, bit2, Hi(t, b), o2);
    if w > 0 {
      BitsAfterSignificant(id, BITS - w);
      SetBitValue(id, BITS - w);
    }
  }

  // ---- put and del

  /** Exchanging one bucket's list for one with distinct ids from its interval. */
  lemma WithNodesWellFormed(t: Table, b: nat, ns: seq<Node>)
    requires WellFormed(t) && b < |t.buckets|
    requires DistinctIds(ns)
    requires forall n :: n in ns ==> Lo(t, b) <= Value(n.id) < Hi(t, b)
    ensures WellFormed(WithNodes(t, b, ns))
    ensures NodesOf(WithNodes(t, b, ns).buckets) + multiset(t.buckets[b].nodes)
         == NodesOf(t.buckets) + multiset(ns)
  {
    hide Value, Pow2, Aligned, NodesOf;
    var u := WithNodes(t, b, ns);
    SameIdsShaped(t, u);
    NodesOfUpdate(t.buckets, b, t.buckets[b].(nodes := ns));
  }

  /** bckt_put keeps the table well formed; it adds the node unless its id is there already. */
  lemma PutKeepsWellFormed(t: Table, n: Node)
    requires WellFormed(t)
    ensures WellFormed(Put(t, n))
    ensures FindNode(t, n.id).Some? ==> Put(t, n) == t
    ensures FindNode(t, n.id).None? ==>
              NodesOf(Put(t, n).buckets) == NodesOf(t.buckets) + multiset{n}
  {
    hide Value, Pow2, Aligned, NodesOf;
    if FindNode(t, n.id).None? {
      var b := BestMatch(t, n.id);
      var ns := t.buckets[b].nodes;
      BestMatchIsTheBucket(t, n.id, b);
      forall x | x in ns + [n]
        ensures Lo(t, b) <= Value(x.id) < Hi(t, b)
      {
      }
      WithNodesWellFormed(t, b, ns + [n]);
      CancelList(NodesOf(Put(t, n).buckets), NodesOf(t.buckets), multiset(ns), multiset{n});
    }
  }

  /** bckt_del keeps the table well formed and removes the one node with that id, if any. */
  lemma DelKeepsWellFormed(t: Table, id: Id)
    requires WellFormed(t)
    ensures WellFormed(Del(t, id))
    ensures FindNode(Del(t, id), id).None?
    ensures FindNode(t, id).None? ==> Del(t, id) == t
    ensures FindNode(t, id).Some? ==>
              var n := t.buckets[BestMatch(t, id)].nodes[FindNode(t, id).value];
              n.id == id && NodesOf(Del(t, id).buckets) + multiset{n} == NodesOf(t.buckets)
  {
    hide Value, Pow2, Aligned, NodesOf, BestFrom, DistinctIds;
    if FindNode(t, id).Some? {
      var b, j := BestMatch(t, id), FindNode(t, id).value;
      var ns := t.buckets[b].nodes;
      var rest := RemoveAt(ns, j);
      WithNodesWellFormed(t, b, rest);
      var u := Del(t, id);
      assert u == WithNodes(t, b, rest);
      BestMatchSameIds(t, u, id, 0);
      CancelList(NodesOf(t.buckets), NodesOf(u.buckets), multiset(rest), multiset{ns[j]});
    }
  }

  lemma RemoveAt(ns: seq<Node>, j: nat) returns (rest: seq<Node>)
    requires DistinctIds(ns) && j < |ns|
    ensures rest == ns[..j] + ns[j + 1..]
    ensures multiset(rest) + multiset{ns[j]} == multiset(ns)
    ensures DistinctIds(rest)
    ensures forall n :: n in rest ==> n in ns && n.id != ns[j].id
  {
    rest := ns[..j] + ns[j + 1..];
    RestAt(ns, j, rest);
    assert ns == ns[..j] + [ns[j]] + ns[j + 1..];
    hide DistinctIds;
    forall n | n in rest
      ensures n in ns && n.id != ns[j].id
    {
      var k :| 0 <= k < |rest| && rest[k] == n;
      assert n == ns[if k < j then k else k + 1];
    }
  }

  lemma RestAt(ns: seq<Node>, j: nat, rest: seq<Node>)
    requires DistinctIds(ns) && j < |ns| && rest == ns[..j] + ns[j + 1..]
    ensures DistinctIds(rest)
    ensures forall k :: 0 <= k < |rest| ==>
              (rest[k] == ns[if k < j then k else k + 1] && rest[k].id != ns[j].id)
  {
  }

  /** Tables with the same bucket ids and the same stop position. */
  ghost predicate SameIds(t: Table, u: Table) {
    && |t.buckets| == |u.buckets| && t.stop == u.stop
    && forall i :: 0 <= i < |t.buckets| ==> t.buckets[i].id == u.buckets[i].id
  }

  lemma SameIdsShaped(t: Table, u: Table)
    requires Shaped(t) && SameIds(t, u)
    ensures Shaped(u)
    ensures forall i :: 0 <= i < |t.buckets| ==> Lo(u, i) == Lo(t, i) && Hi(u, i) == Hi(t, i)
  {
    forall i | 0 <= i < |t.buckets|
      ensures Lo(u, i) == Lo(t, i) && Hi(u, i) == Hi(t, i)
    {
    }
    assert forall i :: 0 <= i < |t.buckets| ==> Aligned(Lo(t, i), Hi(t, i));
  }

  lemma {:induction false} BestMatchSameIds(t: Table, u: Table, id: Id, i: nat)
    requires Linked(t) && SameIds(t, u) && i < |t.buckets|
    ensures BestFrom(t, id, i) == BestFrom(u, id, i)
    decreases |t.buckets| - i
  {
    if i + 1 < |t.buckets| {
      BestMatchSameIds(t, u, id, i + 1);
    }
  }

  lemma {:induction false} NodesOfConcat(a: seq<Bucket>, b: seq<Bucket>)
    ensures NodesOf(a + b) == NodesOf(a) + NodesOf(b)
    decreases |b|
  {
    if b == [] {
      assert a + b == a;
    } else {
      assert (a + b)[..|a + b| - 1] == a + b[..|b| - 1];
      NodesOfConcat(a, b[..|b| - 1]);
    }
  }

  lemma NodesOfOne(x: Bucket)
    ensures NodesOf([x]) == multiset(x.nodes)
  {
    assert [x][..0] == [];
  }

  lemma NodesOfUpdate(bs: seq<Bucket>, i: nat, x: Bucket)
    requires i < |bs|
    ensures NodesOf(bs[i := x]) + multiset(bs[i].nodes) == NodesOf(bs) + multiset(x.nodes)
  {
    hide NodesOf;
    var left, right := bs[..i], bs[i + 1..];
    assert bs == left + [bs[i]] + right;
    assert bs[i := x] == left + [x] + right;
    NodesOfConcat(left, [bs[i]]);
    NodesOfConcat(left + [bs[i]], right);
    NodesOfConcat(left, [x]);
    NodesOfConcat(left + [x], right);
    NodesOfOne(x);
    NodesOfOne(bs[i]);
  }

  lemma CancelList<T>(x: multiset<T>, y: multiset<T>, a: multiset<T>, b: multiset<T>)
    requires x + a == y + (a + b)
    ensures x == y + b
  {
    assert x == (x + a) - a;
    assert y + b == (y + (a + b)) - a;
  }

  // ---- split

  lemma PlaceConserves(t: Table, n: Node)
    requires Linked(t)
    ensures SameIds(t, Place(t, n))
    ensures NodesOf(Place(t, n).buckets) == NodesOf(t.buckets) + multiset{n}
  {
    hide NodesOf;
    var b := BestMatch(t, n.id);
    var ns := t.buckets[b].nodes;
    NodesOfUpdate(t.buckets, b, t.buckets[b].(nodes := ns + [n]));
    CancelList(NodesOf(Place(t, n).buckets), NodesOf(t.buckets), multiset(ns), multiset{n});
  }

  lemma {:induction false} RedistributeConserves(t: Table, ns: seq<Node>)
    requires Linked(t)
    ensures SameIds(t, Redistribute(t, ns))
    ensures NodesOf(Redistribute(t, ns).buckets) == NodesOf(t.buckets) + multiset(ns)
    decreases |ns|
  {
    hide NodesOf, Place;
    if ns != [] {
      var rest, n := ns[..|ns| - 1], ns[|ns| - 1];
      RedistributeConserves(t, rest);
      PlaceConserves(Redistribute(t, rest), n);
      assert ns == rest + [n];
    }
  }

  /** On any table at all, a split neither loses nor duplicates a node. */
  lemma SplitConserves(t: Table, own: Id)
    requires Linked(t)
    ensures NodesOf(Split(t, own).0.buckets) == NodesOf(t.buckets)
  {
    hide NodesOf, Redistribute, SetBit;
    if Split(t, own).1 {
      var b := BestMatch(t, own);
      var ns := t.buckets[b].nodes;
      var x := Bucket(ComputeId(t, b).value, []);
      var t' := ListIns(t, b, x);
      var left, right := t.buckets[..b + 1], t.buckets[b + 1..];
      assert t.buckets == left + right;
      assert t'.buckets == left + [x] + right;
      NodesOfConcat(left, right);
      NodesOfConcat(left, [x]);
      NodesOfConcat(left + [x], right);
      NodesOfOne(x);
      NodesOfUpdate(t'.buckets, b, t'.buckets[b].(nodes := []));
      RedistributeConserves(WithNodes(t', b, []), ns);
    }
  }

  /** The nodes of ns whose best match in t is bucket i, in order. */
  function Chosen(t: Table, ns: seq<Node>, i: nat): seq<Node>
    requires Linked(t)
  {
    if ns == [] then []
    else
      var n := ns[|ns| - 1];
      Chosen(t, ns[..|ns| - 1], i) + (if BestMatch(t, n.id) == i then [n] else [])
  }

  lemma {:induction false} RedistributeBucket(t: Table, ns: seq<Node>, i: nat)
    requires Linked(t) && i < |t.buckets|
    ensures SameIds(t, Redistribute(t, ns))
    ensures Redistribute(t, ns).buckets[i].nodes == t.buckets[i].nodes + Chosen(t, ns, i)
    decreases |ns|
  {
    hide BestFrom;
    if ns != [] {
      var rest, n := ns[..|ns| - 1], ns[|ns| - 1];
      RedistributeBucket(t, rest, i);
      BestMatchSameIds(t, Redistribute(t, rest), n.id, 0);
    }
  }

  lemma {:induction false} ChosenInRange(t: Table, ns: seq<Node>, i: nat, lo: nat, hi: nat)
    requires Shaped(t) && i < |t.buckets|
    requires forall n :: n in ns ==> lo <= Value(n.id) < hi
    ensures Chosen(t, ns, i) == InRange(ns, Max(lo, Lo(t, i)), if Hi(t, i) < hi then Hi(t, i) else hi)
    decreases |ns|
  {
    if ns != [] {
      var rest, n := ns[..|ns| - 1], ns[|ns| - 1];
      ChosenInRange(t, rest, i, lo, hi);
      BestMatchIsTheBucket(t, n.id, i);
    }
  }
}
