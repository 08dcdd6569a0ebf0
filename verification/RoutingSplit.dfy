/** bckt_split bisects the bucket of the own id, and when the loop of nbhd_split ends. */
module RoutingSplit {
  import opened Powers
  import opened Ids
  import opened Routing
  import opened RoutingProofs

  /** Bucket b cut in two at mid: its nodes go to the half that covers them, in order; every other
      bucket stays as it is. */
  function Bisected(t: Table, b: nat, mid: Id): Table
    requires b < |t.buckets|
  {
    var x := t.buckets[b];
    Table(t.buckets[..b]
          + [Bucket(x.id, InRange(x.nodes, Lo(t, b), Value(mid))),
             Bucket(mid, InRange(x.nodes, Value(mid), Hi(t, b)))]
          + t.buckets[b + 1..],
          |t.buckets|)
  }

  /** The source moves the stop pointer along only in the first split of all. */
  predicate StopKept(t: Table, b: nat) {
    |t.buckets| == 1 || b + 1 < |t.buckets|
  }

  /** The table as it stands between inserting the new bucket and handing out the nodes. */
  function Emptied(t: Table, b: nat, mid: Id): (r: Table)
    requires Linked(t) && b < |t.buckets|
    ensures Linked(r)
  {
    WithNodes(ListIns(t, b, Bucket(mid, [])), b, [])
  }

  /** A bucket with more than one node is wider than one id. */
  lemma ManyNodesWide(t: Table, b: nat) returns (w: nat, a: nat)
    requires WellFormed(t) && b < |t.buckets| && |t.buckets[b].nodes| > 1
    ensures 0 < w <= BITS && AlignedAs(Lo(t, b), Hi(t, b), w, a)
  {
    hide Value, Pow2, AlignedAs;
    w, a :| w <= BITS && AlignedAs(Lo(t, b), Hi(t, b), w, a);
    if w == 0 {
      var ns := t.buckets[b].nodes;
      WidthOne(Lo(t, b), Hi(t, b), a);
      MemCmpOrdersValues(ns[0].id, ns[1].id);
      assert false;
    }
  }

  lemma WidthOne(lo: nat, hi: nat, a: nat)
    requires AlignedAs(lo, hi, 0, a)
    ensures hi == lo + 1
  {
    assert Pow2(0) == 1;
  }

  lemma Halves(lo: nat, hi: nat, w: nat, a: nat, mid: nat)
    requires 0 < w <= BITS && AlignedAs(lo, hi, w, a) && mid == lo + Pow2(w - 1)
    ensures Aligned(lo, mid) && Aligned(mid, hi)
    ensures lo < mid < hi && hi - mid == mid - lo
  {
    var p := Pow2(w - 1);
    EvenProduct(a, p);
    EvenProduct(a + 1, p);
    MulAssoc(2, a, p);
    MulAssoc(2, a + 1, p);
    MulSplit(2 * a, 1, p);
    MulSplit(2 * a, 2, p);
    MulSplit(2 * a + 1, 1, p);
    assert AlignedAs(lo, mid, w - 1, 2 * a);
    assert AlignedAs(mid, hi, w - 1, 2 * a + 1);
  }

  lemma EmptiedBuckets(t: Table, b: nat, mid: Id)
    requires Linked(t) && t.stop == |t.buckets| - 1 && b < |t.buckets| && StopKept(t, b)
    ensures var u := Emptied(t, b, mid);
            && |u.buckets| == |t.buckets| + 1 && u.stop == |t.buckets|
            && (forall i :: 0 <= i < b ==> u.buckets[i] == t.buckets[i])
            && (forall i :: b + 1 < i < |u.buckets| ==> u.buckets[i] == t.buckets[i - 1])
            && u.buckets[b] == Bucket(t.buckets[b].id, []) && u.buckets[b + 1] == Bucket(mid, [])
  {
  }

  lemma EmptiedShaped(t: Table, b: nat, mid: Id, w: nat, a: nat)
    requires Shaped(t) && b < |t.buckets| && StopKept(t, b)
    requires 0 < w <= BITS && AlignedAs(Lo(t, b), Hi(t, b), w, a)
    requires Value(mid) == Lo(t, b) + Pow2(w - 1)
    ensures Shaped(Emptied(t, b, mid))
    ensures var u := Emptied(t, b, mid);
            && |u.buckets| == |t.buckets| + 1 && u.stop == |t.buckets|
            && (forall i :: 0 <= i < b ==> u.buckets[i] == t.buckets[i])
            && (forall i :: b + 1 < i < |u.buckets| ==> u.buckets[i] == t.buckets[i - 1])
            && u.buckets[b] == Bucket(t.buckets[b].id, []) && u.buckets[b + 1] == Bucket(mid, [])
            && Hi(u, b) == Value(mid) && Hi(u, b + 1) == Hi(t, b)
  {
    hide Value, Pow2, Aligned, AlignedAs, Emptied;
    EmptiedBuckets(t, b, mid);
    var u := Emptied(t, b, mid);
    Halves(Lo(t, b), Hi(t, b), w, a, Value(mid));
    forall i | 0 <= i < |u.buckets|
      ensures Aligned(Lo(u, i), Hi(u, i))
    {
      if i < b {
        assert Aligned(Lo(t, i), Hi(t, i));
      } else if i > b + 1 {
        assert Aligned(Lo(t, i - 1), Hi(t, i - 1));
      }
    }
  }

  lemma BucketOfSplit(t: Table, b: nat, mid: Id, w: nat, a: nat, i: nat)
    requires WellFormed(t) && b < |t.buckets| && StopKept(t, b)
    requires 0 < w <= BITS && AlignedAs(Lo(t, b), Hi(t, b), w, a)
    requires Value(mid) == Lo(t, b) + Pow2(w - 1)
    requires i <= |t.buckets|
    ensures var r := Redistribute(Emptied(t, b, mid), t.buckets[b].nodes);
            && SameIds(Emptied(t, b, mid), r)
            && r.buckets[i] == Bisected(t, b, mid).buckets[i]
  {
    hide Value, Pow2, Aligned, Redistribute, InRange, Chosen, Emptied, DistinctIds, AlignedAs;
    var ns, u := t.buckets[b].nodes, Emptied(t, b, mid);
    EmptiedShaped(t, b, mid, w, a);
    Halves(Lo(t, b), Hi(t, b), w, a, Value(mid));
    RedistributeBucket(u, ns, i);
    ChosenInRange(u, ns, i, Lo(t, b), Hi(t, b));
    if i != b && i != b + 1 {
      hide Homed, Shaped;
      NoneElsewhere(u, b, i, ns, Lo(t, b), Hi(t, b));
    }
  }

  /** The intervals beside two neighbouring ones take none of the ids that these two cover. */
  lemma NoneElsewhere(u: Table, b: nat, i: nat, ns: seq<Node>, lo: nat, hi: nat)
    requires Shaped(u) && i < |u.buckets| && b + 1 < |u.buckets| && i != b && i != b + 1
    requires lo == Lo(u, b) && hi == Hi(u, b + 1)
    ensures InRange(ns, Max(lo, Lo(u, i)), if Hi(u, i) < hi then Hi(u, i) else hi) == []
  {
    hide Value, Pow2, Aligned, InRange;
    if i < b {
      LoGrows(u, i, b);
    } else {
      LoGrows(u, b + 1, i);
    }
    IntervalNonEmpty(u, i);
    InRangeEmpty(ns, Max(lo, Lo(u, i)), if Hi(u, i) < hi then Hi(u, i) else hi);
  }

  /** With more than 8 nodes, bckt_split replaces the own bucket by its two halves. */
  lemma SplitBisects(t: Table, own: Id) returns (mid: Id)
    requires WellFormed(t)
    requires |t.buckets[BestMatch(t, own)].nodes| > BUCKET_SIZE
    requires StopKept(t, BestMatch(t, own))
    ensures var b := BestMatch(t, own);
            && Split(t, own) == (Bisected(t, b, mid), true)
            && Lo(t, b) < Value(mid) < Hi(t, b)
            && Value(mid) - Lo(t, b) == Hi(t, b) - Value(mid)
            && Shaped(Bisected(t, b, mid))
  {
    var b := BestMatch(t, own);
    var w, a := ManyNodesWide(t, b);
    mid := SplitBisectsAt(t, own, b, w, a);
  }

  lemma SplitBisectsAt(t: Table, own: Id, b: nat, w: nat, a: nat) returns (mid: Id)
    requires WellFormed(t) && b == BestMatch(t, own)
    requires |t.buckets[b].nodes| > BUCKET_SIZE && StopKept(t, b)
    requires 0 < w <= BITS && AlignedAs(Lo(t, b), Hi(t, b), w, a)
    ensures Split(t, own) == (Bisected(t, b, mid), true)
    ensures Lo(t, b) < Value(mid) < Hi(t, b) && Value(mid) - Lo(t, b) == Hi(t, b) - Value(mid)
    ensures Shaped(Bisected(t, b, mid))
  {
    hide Value, Pow2, Aligned, AlignedAs, Redistribute, InRange, ComputeId, Homed, DistinctIds;
    ComputeIdIsMidpoint(t, b, w, a);
    mid := ComputeId(t, b).value;
    Halves(Lo(t, b), Hi(t, b), w, a, Value(mid));
    EmptiedShaped(t, b, mid, w, a);
    var u, v := Emptied(t, b, mid), Bisected(t, b, mid);
    var r := Redistribute(u, t.buckets[b].nodes);
    BucketOfSplit(t, b, mid, w, a, 0);
    SameIdsShaped(u, r);
    forall i | 0 <= i < |r.buckets|
      ensures r.buckets[i] == v.buckets[i]
    {
      BucketOfSplit(t, b, mid, w, a, i);
    }
    assert r.buckets == v.buckets;
  }

  lemma {:induction false} InRangeEmpty(ns: seq<Node>, lo: nat, hi: nat)
    requires hi <= lo
    ensures InRange(ns, lo, hi) == []
  {
    if ns != [] {
      InRangeEmpty(ns[..|ns| - 1], lo, hi);
    }
  }

  lemma {:induction false} InRangeDistinct(ns: seq<Node>, lo: nat, hi: nat)
    requires DistinctIds(ns)
    ensures DistinctIds(InRange(ns, lo, hi))
  {
    if ns != [] {
      var rest := ns[..|ns| - 1];
      InRangeDistinct(rest, lo, hi);
      var r := InRange(rest, lo, hi);
      forall n | n in r
        ensures n.id != ns[|ns| - 1].id
      {
        var k :| 0 <= k < |rest| && rest[k] == n;
      }
    }
  }

  lemma BisectedWellFormed(t: Table, b: nat, mid: Id)
    requires WellFormed(t) && b < |t.buckets| && Shaped(Bisected(t, b, mid))
    ensures WellFormed(Bisected(t, b, mid))
  {
    var v := Bisected(t, b, mid);
    assert |v.buckets| == |t.buckets| + 1;
    hide Value, Pow2, Aligned, InRange, Bisected, DistinctIds;
    forall i | 0 <= i < |v.buckets|
      ensures HomedAt(v, i) && DistinctIds(v.buckets[i].nodes)
    {
      if i == b || i == b + 1 {
        BisectedHalf(t, b, mid, i);
      } else {
        BisectedOther(t, b, mid, i);
      }
    }
  }

  ghost predicate HomedAt(t: Table, i: nat)
    requires i < |t.buckets|
  {
    forall j :: 0 <= j < |t.buckets[i].nodes| ==> Lo(t, i) <= Value(t.buckets[i].nodes[j].id) < Hi(t, i)
  }

  lemma BisectedHalf(t: Table, b: nat, mid: Id, i: nat)
    requires b < |t.buckets| && (i == b || i == b + 1) && DistinctIds(t.buckets[b].nodes)
    ensures i < |Bisected(t, b, mid).buckets| == |t.buckets| + 1
    ensures HomedAt(Bisected(t, b, mid), i) && DistinctIds(Bisected(t, b, mid).buckets[i].nodes)
  {
    hide Value, Pow2, InRange, DistinctIds;
    var v, ns := Bisected(t, b, mid), t.buckets[b].nodes;
    InRangeDistinct(ns, Lo(t, b), Value(mid));
    InRangeDistinct(ns, Value(mid), Hi(t, b));
    assert Hi(v, b) == Value(mid) && Hi(v, b + 1) == Hi(t, b);
    forall j | 0 <= j < |v.buckets[i].nodes|
      ensures Lo(v, i) <= Value(v.buckets[i].nodes[j].id) < Hi(v, i)
    {
      assert v.buckets[i].nodes[j] in v.buckets[i].nodes;
    }
  }

  lemma BisectedOther(t: Table, b: nat, mid: Id, i: nat)
    requires Homed(t) && b < |t.buckets| && i <= |t.buckets| && i != b && i != b + 1
    requires forall k :: 0 <= k < |t.buckets| ==> DistinctIds(t.buckets[k].nodes)
    ensures i < |Bisected(t, b, mid).buckets| == |t.buckets| + 1
    ensures HomedAt(Bisected(t, b, mid), i) && DistinctIds(Bisected(t, b, mid).buckets[i].nodes)
  {
    hide Value, Pow2, InRange, DistinctIds;
    var v := Bisected(t, b, mid);
    var k := if i < b then i else i - 1;
    assert v.buckets[i] == t.buckets[k] && Hi(v, i) == Hi(t, k);
  }

  /** bckt_split does split a well-formed table exactly when the own bucket holds more than 8
      nodes: its "no more bits" return is never taken. */
  lemma SplitsIff(t: Table, own: Id)
    requires WellFormed(t)
    ensures Split(t, own).1 <==> |t.buckets[BestMatch(t, own)].nodes| > 8
    ensures !Split(t, own).1 ==> Split(t, own).0 == t
  {
    hide Value, Pow2, ComputeId, Redistribute, DistinctIds, Homed, Aligned;
    var b := BestMatch(t, own);
    if |t.buckets[b].nodes| > BUCKET_SIZE {
      var w, a := ManyNodesWide(t, b);
      ComputeIdIsMidpoint(t, b, w, a);
    }
  }

  /** A split keeps the table well formed unless it cuts the last of two or more buckets: there
      list_ins leaves the stop pointer behind. */
  lemma SplitKeepsWellFormedIff(t: Table, own: Id)
    requires WellFormed(t) && Split(t, own).1
    ensures WellFormed(Split(t, own).0) <==> StopKept(t, BestMatch(t, own))
  {
    hide Value, Pow2, Bisected, ComputeId, DistinctIds, Homed, Aligned;
    SplitsIff(t, own);
    var b := BestMatch(t, own);
    if StopKept(t, b) {
      var mid := SplitBisects(t, own);
      BisectedWellFormed(t, b, mid);
    } else {
      var u := WithNodes(ListIns(t, b, Bucket(ComputeId(t, b).value, [])), b, []);
      RedistributeConserves(u, t.buckets[b].nodes);
    }
  }

  // ---- the loop of nbhd_split

  /** The first bit of an id: set for the upper half of the id space. */
  predicate Upper(id: Id) {
    id[0] >= 0x80
  }

  const HALF: nat := BITS - 1

  lemma UpperIsHighHalf(id: Id)
    ensures Upper(id) <==> Value(id) >= Pow2(HALF)
  {
    ValueHead(id);
    var p := Pow2(8 * (|id| - 1));
    SmallPowers();
    Pow2Add(7, 8 * (|id| - 1));
    if Upper(id) {
      if id[0] > 0x80 {
        MulStep(0x80, id[0], p);
      }
    } else {
      MulStep(id[0], 0x80, p);
    }
  }

  function UpperNodes(ns: seq<Node>): (r: nat)
    ensures r <= |ns|
  {
    if ns == [] then 0
    else UpperNodes(ns[..|ns| - 1]) + (if Upper(ns[|ns| - 1].id) then 1 else 0)
  }

  /** How many nodes of the table lie in the upper half of the id space. */
  function UpperCount(bs: seq<Bucket>): nat {
    if bs == [] then 0 else UpperCount(bs[..|bs| - 1]) + UpperNodes(bs[|bs| - 1].nodes)
  }

  /** Reachable tables: well formed, without the own id, and cut at most once when the own id lies
      in the upper half. */
  ghost predicate Reachable(t: Table, own: Id) {
    && WellFormed(t)
    && FindNode(t, own).None?
    && (Upper(own) ==> |t.buckets| <= 2)
  }

  /** What decides whether nbhd_split ends. */
  predicate Settles(t: Table, own: Id) {
    Upper(own) ==> UpperCount(t.buckets) <= BUCKET_SIZE
  }

  /** Width of the interval that holds an id. */
  function Width(t: Table, id: Id): int
    requires Linked(t)
  {
    Hi(t, BestMatch(t, id)) - Lo(t, BestMatch(t, id))
  }

  lemma TopIsTwice()
    ensures Pow2(BITS) == 2 * Pow2(HALF)
  {
  }

  /** In a table of two or more buckets the last one lies in the upper half, and of two buckets the
      second is the upper half. */
  lemma LastIsUpper(t: Table)
    requires Shaped(t) && |t.buckets| > 1
    ensures Lo(t, |t.buckets| - 1) >= Pow2(HALF)
    ensures |t.buckets| == 2 ==> Lo(t, 1) == Pow2(HALF)
  {
    hide Value, Pow2;
    var l := |t.buckets| - 1;
    TopIsTwice();
    BucketIdsIncrease(t, 0, l);
    var w: nat, a: nat :| w <= BITS && AlignedAs(Lo(t, l), Hi(t, l), w, a);
    MulSplit(a, 1, Pow2(w));
    if w == BITS {
      LastInterval(w, a);
      assert false;
    }
    Pow2AtMost(w, HALF);
    if |t.buckets| == 2 {
      var v: nat, c: nat :| v <= BITS && AlignedAs(Lo(t, 0), Hi(t, 0), v, c);
      FirstInterval(v, c);
      IntervalNonEmpty(t, 1);
      if v < BITS {
        Pow2AtMost(v, HALF);
      }
    }
  }

  lemma FirstInterval(w: nat, a: nat)
    requires a * Pow2(w) == 0
    ensures (a + 1) * Pow2(w) == Pow2(w)
  {
    MulSplit(a, 1, Pow2(w));
  }

  lemma Pow2AtMost(a: nat, b: nat)
    requires a <= b
    ensures Pow2(a) <= Pow2(b)
  {
    if a < b {
      Pow2Mono(a, b);
    }
  }

  lemma {:induction false} UpperNodesInRange(ns: seq<Node>, lo: nat, hi: nat)
    requires lo == Pow2(HALF) && hi == Pow2(BITS)
    ensures UpperNodes(ns) == |InRange(ns, lo, hi)|
  {
    if ns != [] {
      UpperNodesInRange(ns[..|ns| - 1], lo, hi);
      UpperIsHighHalf(ns[|ns| - 1].id);
      ValueBound(ns[|ns| - 1].id);
    }
  }

  lemma {:induction false} AllOrNoneUpper(ns: seq<Node>)
    ensures (forall n :: n in ns ==> Upper(n.id)) ==> UpperNodes(ns) == |ns|
    ensures (forall n :: n in ns ==> !Upper(n.id)) ==> UpperNodes(ns) == 0
  {
    if ns != [] {
      AllOrNoneUpper(ns[..|ns| - 1]);
    }
  }

  lemma UpperCountShort(bs: seq<Bucket>)
    ensures |bs| == 1 ==> UpperCount(bs) == UpperNodes(bs[0].nodes)
    ensures |bs| == 2 ==> UpperCount(bs) == UpperNodes(bs[0].nodes) + UpperNodes(bs[1].nodes)
  {
    if |bs| == 1 {
      assert UpperCount(bs[..0]) == 0;
    } else if |bs| == 2 {
      assert bs[..1][..0] == [] && UpperCount(bs[..1]) == UpperNodes(bs[0].nodes);
    }
  }

  /** With two buckets, the upper half is the second bucket. */
  lemma UpperOfTwo(t: Table)
    requires WellFormed(t) && |t.buckets| == 2
    ensures UpperCount(t.buckets) == |t.buckets[1].nodes|
    ensures forall n :: n in t.buckets[1].nodes ==> Upper(n.id)
  {
    hide Value, Pow2, Aligned, Upper;
    LastIsUpper(t);
    UpperCountShort(t.buckets);
    forall n | n in t.buckets[0].nodes
      ensures !Upper(n.id)
    {
      UpperIsHighHalf(n.id);
    }
    forall n | n in t.buckets[1].nodes
      ensures Upper(n.id)
    {
      UpperIsHighHalf(n.id);
    }
    AllOrNoneUpper(t.buckets[0].nodes);
    AllOrNoneUpper(t.buckets[1].nodes);
  }

  /** Where the own id lies decides whether the own bucket is the last one. */
  lemma OwnBucket(t: Table, own: Id)
    requires Shaped(t) && |t.buckets| > 1
    ensures !Upper(own) ==> BestMatch(t, own) + 1 < |t.buckets|
    ensures Upper(own) && |t.buckets| == 2 ==> BestMatch(t, own) == 1
  {
    hide Value, Pow2, Aligned, Upper;
    LastIsUpper(t);
    UpperIsHighHalf(own);
    BestMatchIsTheBucket(t, own, |t.buckets| - 1);
    BestMatchIsTheBucket(t, own, BestMatch(t, own));
  }

  lemma WidthOfBisected(t: Table, own: Id, mid: Id)
    requires WellFormed(t)
    requires var b := BestMatch(t, own);
             && Lo(t, b) < Value(mid) < Hi(t, b)
             && Value(mid) - Lo(t, b) == Hi(t, b) - Value(mid)
             && Shaped(Bisected(t, b, mid))
    ensures 2 * Width(Bisected(t, BestMatch(t, own), mid), own) == Width(t, own)
    ensures FindNode(t, own).None? ==> FindNode(Bisected(t, BestMatch(t, own), mid), own).None?
  {
    hide Value, Pow2, Aligned, InRange;
    var b := BestMatch(t, own);
    var v := Bisected(t, b, mid);
    BestMatchIsTheBucket(t, own, b);
    BestMatchIsTheBucket(v, own, if Value(own) < Value(mid) then b else b + 1);
    assert Hi(v, b + 1) == Hi(t, b);
    if FindNode(v, own).Some? {
      var n := v.buckets[BestMatch(v, own)].nodes[FindNode(v, own).value];
      assert n in v.buckets[BestMatch(v, own)].nodes;
      assert n in t.buckets[b].nodes;
    }
  }

  /** One split of a reachable table that settles: it cuts a bucket whose successor the stop
      pointer still covers, halves the interval of the own id, and leaves a reachable table that
      settles. */
  lemma SplitStep(t: Table, own: Id)
    requires Reachable(t, own) && Settles(t, own) && Split(t, own).1
    ensures var u := Split(t, own).0;
            && Reachable(u, own) && Settles(u, own)
            && Width(u, own) > 0 && 2 * Width(u, own) == Width(t, own)
  {
    hide Value, Pow2, Aligned, Split, UpperCount, Upper, DistinctIds, Homed, Bisected;
    var b := BestMatch(t, own);
    SplitsIff(t, own);
    if |t.buckets| > 1 {
      OwnBucket(t, own);
      if Upper(own) {
        UpperOfTwo(t);
        assert false;
      }
    }
    var mid := SplitBisects(t, own);
    BisectedWellFormed(t, b, mid);
    WidthOfBisected(t, own, mid);
    if Upper(own) {
      FirstSplit(t, own, mid);
    }
  }

  lemma FirstSplit(t: Table, own: Id, mid: Id)
    requires WellFormed(t) && |t.buckets| == 1 && WellFormed(Bisected(t, 0, mid))
    ensures |Bisected(t, 0, mid).buckets| == 2
    ensures UpperCount(Bisected(t, 0, mid).buckets) == UpperCount(t.buckets)
  {
    hide Value, Pow2, Aligned, InRange, UpperNodes;
    var u := Bisected(t, 0, mid);
    UpperCountShort(t.buckets);
    UpperOfTwo(u);
    LastIsUpper(u);
    UpperNodesInRange(t.buckets[0].nodes, Value(mid), Pow2(BITS));
  }

  ghost predicate EndsAfter(t: Table, own: Id, n: nat)
    requires Linked(t)
  {
    !Split(SplitTimes(t, own, n), own).1
  }

  lemma {:induction false} SplitTimesShift(t: Table, own: Id, n: nat)
    requires Linked(t)
    ensures SplitTimes(t, own, n + 1) == SplitTimes(Split(t, own).0, own, n)
  {
    hide Split;
    if n > 0 {
      SplitTimesShift(t, own, n - 1);
    } else {
      assert SplitTimes(t, own, 0) == t;
    }
  }

  lemma {:induction false} Ends(t: Table, own: Id) returns (n: nat)
    requires Reachable(t, own) && Settles(t, own)
    ensures EndsAfter(t, own, n)
    decreases Width(t, own)
  {
    hide Split, Homed, Aligned, DistinctIds, Settles, Width;
    n := 0;
    assert SplitTimes(t, own, 0) == t;
    if Split(t, own).1 {
      SplitStep(t, own);
      n := Ends(Split(t, own).0, own);
      SplitTimesShift(t, own, n);
      n := n + 1;
    }
  }

  /** The state the loop of nbhd_split cannot leave: an own id in the upper half, a crowded second
      bucket covering it that the stop pointer names, and behind it only buckets that start a
      quarter further up. */
  ghost predicate Stuck(t: Table, own: Id) {
    && Linked(t) && t.stop == 1 && |t.buckets| >= 2
    && Upper(own)
    && Lo(t, 1) == Pow2(HALF)
    && (forall i :: 2 <= i < |t.buckets| ==> Lo(t, i) == Pow2(HALF) + Pow2(HALF - 1))
    && |t.buckets[1].nodes| > BUCKET_SIZE
    && (forall n :: n in t.buckets[1].nodes ==> Upper(n.id))
  }

  lemma {:induction false} StuckBestFrom(t: Table, id: Id, i: nat)
    requires Linked(t) && t.stop == 1
    requires 1 <= i < |t.buckets|
    requires forall k :: 2 <= k < |t.buckets| ==> Lo(t, k) == Pow2(HALF) + Pow2(HALF - 1)
    requires i > 1 ==> Value(id) >= Pow2(HALF) + Pow2(HALF - 1)
    ensures BestFrom(t, id, i) == 1
    decreases |t.buckets| - i
  {
    hide Value, Pow2;
    if i + 1 < |t.buckets| {
      assert Lo(t, i + 1) == Pow2(HALF) + Pow2(HALF - 1);
      MemCmpOrdersValues(id, t.buckets[i + 1].id);
      if MemCmp(id, t.buckets[i + 1].id) >= 0 {
        StuckBestFrom(t, id, i + 1);
      }
    }
  }

  lemma StuckBestMatch(t: Table, id: Id)
    requires Linked(t) && t.stop == 1 && |t.buckets| >= 2 && Lo(t, 1) == Pow2(HALF)
    requires forall k :: 2 <= k < |t.buckets| ==> Lo(t, k) == Pow2(HALF) + Pow2(HALF - 1)
    requires Upper(id)
    ensures BestMatch(t, id) == 1
  {
    hide Value, Pow2;
    UpperIsHighHalf(id);
    MemCmpOrdersValues(id, t.buckets[1].id);
    StuckBestFrom(t, id, 1);
  }

  /** The id the split of a stuck table computes, every time the same. */
  lemma StuckComputeId(t: Table)
    requires Linked(t) && t.stop == 1 && |t.buckets| >= 2 && Lo(t, 1) == Pow2(HALF)
    ensures ComputeId(t, 1).Some?
    ensures Value(ComputeId(t, 1).value) == Pow2(HALF) + Pow2(HALF - 1)
  {
    hide Value, Pow2, SignificantBit, SetBit;
    var id := t.buckets[1].id;
    var o := SignificantBitValue(id);
    OddPart(o, BITS - 1 - SignificantBit(id), 1, HALF);
    BitsAfterSignificant(id, 1);
    SetBitValue(id, 1);
  }

  lemma {:induction false} ChosenAll(t: Table, ns: seq<Node>, i: nat)
    requires Linked(t)
    requires forall n :: n in ns ==> BestMatch(t, n.id) == i
    ensures Chosen(t, ns, i) == ns
  {
    if ns != [] {
      ChosenAll(t, ns[..|ns| - 1], i);
    }
  }

  lemma StuckStays(t: Table, own: Id)
    requires Stuck(t, own)
    ensures Split(t, own).1 && Stuck(Split(t, own).0, own)
  {
    hide Value, Pow2, ComputeId, Redistribute, Chosen, Upper, BestMatch;
    StuckBestMatch(t, own);
    StuckComputeId(t);
    var ns := t.buckets[1].nodes;
    var u := Emptied(t, 1, ComputeId(t, 1).value);
    forall i | 2 <= i < |u.buckets|
      ensures Lo(u, i) == Pow2(HALF) + Pow2(HALF - 1)
    {
      if i > 2 {
        assert u.buckets[i] == t.buckets[i - 1] && Lo(t, i - 1) == Pow2(HALF) + Pow2(HALF - 1);
      }
    }
    forall n | n in ns
      ensures BestMatch(u, n.id) == 1
    {
      StuckBestMatch(u, n.id);
    }
    ChosenAll(u, ns, 1);
    RedistributeBucket(u, ns, 1);
    var r := Redistribute(u, ns);
    assert r.buckets[1].nodes == ns;
    assert Split(t, own) == (r, true);
    forall i | 1 <= i < |r.buckets|
      ensures Lo(r, i) == Lo(u, i)
    {
      assert r.buckets[i].id == u.buckets[i].id;
    }
    assert Lo(u, 1) == Lo(t, 1);
  }

  lemma {:induction false} StuckForever(t: Table, own: Id, n: nat)
    requires Stuck(t, own)
    ensures Stuck(SplitTimes(t, own, n), own) && !EndsAfter(t, own, n)
  {
    hide Split, Upper, Lo;
    SplitTimesStart(t, own);
    if n > 0 {
      StuckForever(t, own, n - 1);
      StuckStays(SplitTimes(t, own, n - 1), own);
    }
    StuckStays(SplitTimes(t, own, n), own);
  }

  /** A reachable table that does not settle is stuck, at once or after its first split. */
  lemma StuckOrSoon(t: Table, own: Id)
    requires Reachable(t, own) && !Settles(t, own)
    ensures |t.buckets| == 2 ==> Stuck(t, own)
    ensures |t.buckets| == 1 ==> Split(t, own).1 && Stuck(Split(t, own).0, own)
  {
    hide Value, Pow2, Aligned, Split, UpperCount, UpperNodes, Upper, DistinctIds, Homed, Bisected;
    if |t.buckets| == 2 {
      UpperOfTwo(t);
      LastIsUpper(t);
    } else {
      UpperCountShort(t.buckets);
      SplitsIff(t, own);
      var mid := SplitBisects(t, own);
      BisectedWellFormed(t, 0, mid);
      FirstSplit(t, own, mid);
      UpperOfTwo(Bisected(t, 0, mid));
      LastIsUpper(Bisected(t, 0, mid));
    }
  }

  /** The loop of nbhd_split ends exactly when the own id lies in the lower half or no more than 8
      nodes of the table lie in the upper half. */
  lemma NbhdSplitEndsIff(t: Table, own: Id)
    requires Reachable(t, own)
    ensures (exists n: nat :: EndsAfter(t, own, n)) <==> Settles(t, own)
  {
    hide Value, Pow2, Aligned, Split, UpperCount, Upper, DistinctIds, Homed, Stuck;
    if Settles(t, own) {
      var n := Ends(t, own);
    } else {
      StuckOrSoon(t, own);
      SplitTimesStart(t, own);
      forall n: nat
        ensures !EndsAfter(t, own, n)
      {
        if |t.buckets| == 2 {
          StuckForever(t, own, n);
        } else if n > 0 {
          SplitTimesShift(t, own, n - 1);
          StuckForever(Split(t, own).0, own, n - 1);
        }
      }
    }
  }

  lemma SplitTimesStart(t: Table, own: Id)
    requires Linked(t)
    ensures SplitTimes(t, own, 0) == t
  {
  }

  /** A single bucket with the zero id covers every id. */
  lemma OneBucket(t: Table)
    requires |t.buckets| == 1 && t.stop == 0 && t.buckets[0].id == seq(ID_LENGTH, i => 0)
    ensures Shaped(t) && Homed(t)
  {
    ZeroValue(t.buckets[0].id);
    assert AlignedAs(0, Pow2(BITS), BITS, 0);
    assert Aligned(Lo(t, 0), Hi(t, 0));
    forall n | n in t.buckets[0].nodes
      ensures Value(n.id) < Pow2(BITS)
    {
      ValueBound(n.id);
    }
  }
}
