/** A run of the daemon into the endless loop of nbhd_split (src/neighborhood.c). */
module SplitLoops {
  import opened Ids
  import opened Routing
  import opened RoutingSplit
  import opened Neighborhood

  const CROWD: nat := 9

  /** The own id: 0x80 and zeros. */
  function OwnId(): Id {
    [0x80] + seq(ID_LENGTH - 1, i => 0)
  }

  /** Nine other ids of the upper half: 0x80, zeros, and a last byte of 1 to 9. */
  function CrowdId(k: nat): Id
    requires k < CROWD
  {
    [0x80] + seq(ID_LENGTH - 2, i => 0) + [k + 1]
  }

  function Crowd(k: nat, addr: Address, ping: int, find: int): seq<Node>
    requires k <= CROWD
  {
    seq(k, i requires 0 <= i < k => Node(CrowdId(i), addr, ping, find, 1))
  }

  /** The table of a daemon that starts up and then hears from the first k of them. */
  function Heard(k: nat, addr: Address, ping: int, find: int): (t: Table)
    requires k <= CROWD
    ensures Linked(t)
  {
    if k == 0 then OneBucketOf([])
    else NeighborhoodPut(Heard(k - 1, addr, ping, find), OwnId(), CrowdId(k - 1), addr, ping, find)
  }

  lemma {:induction false} HeardCrowd(k: nat, addr: Address, ping: int, find: int)
    requires k <= CROWD
    ensures Heard(k, addr, ping, find) == OneBucketOf(Crowd(k, addr, ping, find))
    ensures Reachable(Heard(k, addr, ping, find), OwnId())
  {
    hide Reachable, NeighborhoodPut;
    if k == 0 {
      assert Crowd(k, addr, ping, find) == [];
      OneEmptyBucket(seq(ID_LENGTH, i => 0));
    } else {
      hide Crowd, OwnId, CrowdId;
      HeardCrowd(k - 1, addr, ping, find);
      NeighborhoodPutKeepsReachable(Heard(k - 1, addr, ping, find), OwnId(), CrowdId(k - 1), addr, ping, find);
      NewInCrowd(k - 1, addr, ping, find);
      PutInOneBucket(Crowd(k - 1, addr, ping, find), OwnId(), CrowdId(k - 1), addr, ping, find);
    }
  }

  function OneBucketOf(ns: seq<Node>): (t: Table)
    ensures Linked(t)
  {
    Routing.Table([Bucket(seq(ID_LENGTH, i => 0), ns)], 0)
  }

  lemma PutInOneBucket(ns: seq<Node>, own: Id, id: Id, addr: Address, ping: int, find: int)
    requires id != own && forall n :: n in ns ==> n.id != id
    ensures NeighborhoodPut(OneBucketOf(ns), own, id, addr, ping, find)
         == OneBucketOf(ns + [Node(id, addr, ping, find, 1)])
  {
  }

  lemma NewInCrowd(k: nat, addr: Address, ping: int, find: int)
    requires k < CROWD
    ensures CrowdId(k) != OwnId()
    ensures forall n :: n in Crowd(k, addr, ping, find) ==> n.id != CrowdId(k)
    ensures Crowd(k + 1, addr, ping, find) == Crowd(k, addr, ping, find) + [Node(CrowdId(k), addr, ping, find, 1)]
  {
    var ns := Crowd(k, addr, ping, find);
    assert CrowdId(k)[ID_LENGTH - 1] != OwnId()[ID_LENGTH - 1];
    assert forall i :: 0 <= i < |ns| ==> ns[i].id[ID_LENGTH - 1] != CrowdId(k)[ID_LENGTH - 1];
  }

  /** After nine puts into the initial table nbhd_split does not end. */
  lemma NbhdSplitLoops(addr: Address, ping: int, find: int)
    ensures Reachable(Heard(CROWD, addr, ping, find), OwnId())
    ensures forall n: nat :: !EndsAfter(Heard(CROWD, addr, ping, find), OwnId(), n)
  {
    hide Reachable, UpperCount, UpperNodes, Heard, Crowd, EndsAfter;
    HeardCrowd(CROWD, addr, ping, find);
    var t := Heard(CROWD, addr, ping, find);
    AllOrNoneUpper(t.buckets[0].nodes);
    UpperCountShort(t.buckets);
    CrowdUpper(addr, ping, find);
    NbhdSplitEndsIff(t, OwnId());
  }

  lemma CrowdUpper(addr: Address, ping: int, find: int)
    ensures |Crowd(CROWD, addr, ping, find)| == CROWD
    ensures forall n :: n in Crowd(CROWD, addr, ping, find) ==> Upper(n.id)
  {
  }
}
