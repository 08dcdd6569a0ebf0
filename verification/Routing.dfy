/** The routing table of src/bucket.c: buckets in list order and the position of the list's stop
    pointer. */
module Routing {
  import opened Powers
  import opened Ids
  import opened Options

  /** Width of an id in bits. */
  const BITS: nat := 8 * ID_LENGTH

  /** A bucket is split while it holds more nodes than this. */
  const BUCKET_SIZE: nat := 8

  type Ip = s: seq<Byte> | |s| == 16 witness seq(16, i => 0)

  type Port = s: seq<Byte> | |s| == 2 witness seq(2, i => 0)

  /** A socket address: IPv6 address and port, and the fields no message carries (flow information
      and scope) as one number. */
  datatype Address = Address(ip: Ip, port: Port, scope: nat)

  datatype Node = Node(id: Id, addr: Address, timePing: int, timeFind: int, pinged: int)

  datatype Bucket = Bucket(id: Id, nodes: seq<Node>)

  datatype Table = Table(buckets: seq<Bucket>, stop: nat)

  // ---- the operations of the source

  /** The stop pointer points into the list. */
  predicate Linked(t: Table) {
    t.stop < |t.buckets|
  }

  /** bckt_find_best_match from position i on: the first bucket whose successor starts above the
      id, otherwise the bucket the stop pointer names. */
  function BestFrom(t: Table, id: Id, i: nat): (r: nat)
    requires Linked(t) && i < |t.buckets|
    ensures r < |t.buckets|
    ensures r == t.stop || (r + 1 < |t.buckets| && MemCmp(id, t.buckets[r + 1].id) < 0)
    decreases |t.buckets| - i
  {
    if i + 1 == |t.buckets| then t.stop
    else if MemCmp(id, t.buckets[i + 1].id) < 0 then i
    else BestFrom(t, id, i + 1)
  }

  function BestMatch(t: Table, id: Id): (r: nat)
    requires Linked(t)
    ensures r < |t.buckets|
    ensures r == t.stop || r + 1 < |t.buckets|
  {
    BestFrom(t, id, 0)
  }

  /** Position of the first node with this id, |ns| when there is none. */
  function IndexOf(ns: seq<Node>, id: Id): (j: nat)
    ensures j <= |ns|
    ensures j < |ns| ==> ns[j].id == id
    ensures forall k :: 0 <= k < j ==> ns[k].id != id
  {
    if ns == [] then 0 else if ns[0].id == id then 0 else 1 + IndexOf(ns[1..], id)
  }

  /** bckt_find_node: where in its best match a node with this id sits. */
  function FindNode(t: Table, id: Id): Option<nat>
    requires Linked(t)
  {
    var ns := t.buckets[BestMatch(t, id)].nodes;
    var j := IndexOf(ns, id);
    if j < |ns| then Some(j) else None
  }

  function WithNodes(t: Table, b: nat, ns: seq<Node>): (r: Table)
    requires b < |t.buckets|
    ensures |r.buckets| == |t.buckets| && r.stop == t.stop
  {
    t.(buckets := t.buckets[b := t.buckets[b].(nodes := ns)])
  }

  /** Append a node to the list of its best match. */
  function Place(t: Table, n: Node): (r: Table)
    requires Linked(t)
    ensures Linked(r)
  {
    var b := BestMatch(t, n.id);
    WithNodes(t, b, t.buckets[b].nodes + [n])
  }

  /** bckt_put */
  function Put(t: Table, n: Node): (r: Table)
    requires Linked(t)
    ensures Linked(r)
  {
    if FindNode(t, n.id).Some? then t else Place(t, n)
  }

  /** bckt_del */
  function Del(t: Table, id: Id): (r: Table)
    requires Linked(t)
    ensures Linked(r)
  {
    match FindNode(t, id)
    case None => t
    case Some(j) =>
      var b := BestMatch(t, id);
      var ns := t.buckets[b].nodes;
      WithNodes(t, b, ns[..j] + ns[j + 1..])
  }

  function Max(a: int, b: int): int { if a >= b then a else b }

  /** bckt_compute_id: the start of the upper half of bucket b, if it can still be halved. */
  function ComputeId(t: Table, b: nat): Option<Id>
    requires Linked(t) && b < |t.buckets| && (b == t.stop || b + 1 < |t.buckets|)
  {
    var bit1 := SignificantBit(t.buckets[b].id);
    var bit2 := if b != t.stop then SignificantBit(t.buckets[b + 1].id) else -1;
    var bit := Max(bit1, bit2) + 1;
    if bit >= BITS then None else Some(SetBit(t.buckets[b].id, bit))
  }

  /** list_ins (src/list.c): with at most one item it appends and moves stop; otherwise it links
      the new item after here and leaves the stop pointer where it was. */
  function ListIns(t: Table, here: nat, x: Bucket): (r: Table)
    requires Linked(t) && here < |t.buckets|
    ensures Linked(r)
  {
    if |t.buckets| <= 1 then Table(t.buckets + [x], |t.buckets|)
    else Table(t.buckets[..here + 1] + [x] + t.buckets[here + 1..],
               if t.stop > here then t.stop + 1 else t.stop)
  }

  function Redistribute(t: Table, ns: seq<Node>): (r: Table)
    requires Linked(t)
    ensures Linked(r)
  {
    if ns == [] then t else Place(Redistribute(t, ns[..|ns| - 1]), ns[|ns| - 1])
  }

  /** bckt_split, with its return code. */
  function Split(t: Table, own: Id): (r: (Table, bool))
    requires Linked(t)
    ensures Linked(r.0)
  {
    var b := BestMatch(t, own);
    var ns := t.buckets[b].nodes;
    if |ns| <= BUCKET_SIZE then (t, false)
    else
      match ComputeId(t, b)
      case None => (t, false)
      case Some(id) =>
        var t' := ListIns(t, b, Bucket(id, []));
        (Redistribute(WithNodes(t', b, []), ns), true)
  }

  /** The table after n rounds of the loop of nbhd_split. */
  function SplitTimes(t: Table, own: Id, n: nat): (r: Table)
    requires Linked(t)
    ensures Linked(r)
  {
    if n == 0 then t else Split(SplitTimes(t, own, n - 1), own).0
  }

  // ---- what the table is meant to be

  /** Bucket i covers the ids from Lo up to but not including Hi. */
  function Lo(t: Table, i: nat): nat
    requires i < |t.buckets|
  {
    Value(t.buckets[i].id)
  }

  function Hi(t: Table, i: nat): nat
    requires i < |t.buckets|
  {
    if i + 1 < |t.buckets| then Lo(t, i + 1) else Pow2(BITS)
  }

  predicate AlignedAs(lo: nat, hi: nat, w: nat, a: nat) {
    lo == a * Pow2(w) && hi == (a + 1) * Pow2(w)
  }

  /** [lo, hi) is an aligned interval whose width is a power of two. */
  ghost predicate Aligned(lo: nat, hi: nat) {
    exists w: nat, a: nat :: w <= BITS && AlignedAs(lo, hi, w, a)
  }

  /** The buckets cut the id space into aligned power-of-two intervals, in order, and stop is the
      last one. */
  ghost predicate Shaped(t: Table) {
    && Linked(t) && t.stop == |t.buckets| - 1
    && Lo(t, 0) == 0
    && forall i :: 0 <= i < |t.buckets| ==> Aligned(Lo(t, i), Hi(t, i))
  }

  /** Every node sits in the bucket that covers its id. */
  ghost predicate Homed(t: Table) {
    forall i, j :: 0 <= i < |t.buckets| && 0 <= j < |t.buckets[i].nodes|
      ==> Lo(t, i) <= Value(t.buckets[i].nodes[j].id) < Hi(t, i)
  }

  ghost predicate DistinctIds(ns: seq<Node>) {
    forall j, k :: 0 <= j < k < |ns| ==> ns[j].id != ns[k].id
  }

  ghost predicate WellFormed(t: Table) {
    && Shaped(t) && Homed(t)
    && forall i :: 0 <= i < |t.buckets| ==> DistinctIds(t.buckets[i].nodes)
  }

  /** All nodes of the table, with multiplicity. */
  function NodesOf(bs: seq<Bucket>): multiset<Node> {
    if bs == [] then multiset{} else NodesOf(bs[..|bs| - 1]) + multiset(bs[|bs| - 1].nodes)
  }

  /** The nodes of a list whose ids lie in [lo, hi), in order. */
  function InRange(ns: seq<Node>, lo: nat, hi: nat): (r: seq<Node>)
    ensures |r| <= |ns|
    ensures forall n :: n in r <==> n in ns && lo <= Value(n.id) < hi
  {
    if ns == [] then []
    else
      var n := ns[|ns| - 1];
      InRange(ns[..|ns| - 1], lo, hi) + (if lo <= Value(n.id) < hi then [n] else [])
  }
}
