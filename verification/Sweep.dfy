/** The counter-bounded deletion loop shared by db_expire (src/database.c) and, per bucket,
    nbhd_expire (src/neighborhood.c): it walks the list while its index is below a counter that
    every deletion lowers. */
module Sweep {
  import opened Powers

  function Count<T>(s: seq<T>, due: T -> bool): (c: nat)
    ensures c <= |s|
  {
    if s == [] then 0 else Count(s[..|s| - 1], due) + (if due(s[|s| - 1]) then 1 else 0)
  }

  /** The elements that are not due, in order. */
  function Kept<T>(s: seq<T>, due: T -> bool): (r: seq<T>)
    ensures |r| + Count(s, due) == |s|
  {
    if s == [] then []
    else Kept(s[..|s| - 1], due) + (if due(s[|s| - 1]) then [] else [s[|s| - 1]])
  }

  /** How many elements the loop inspects, having inspected j and deleted the due ones of them. */
  function Inspected<T>(s: seq<T>, due: T -> bool, j: nat): (m: nat)
    requires j <= |s|
    ensures j <= m <= |s|
    ensures m + Count(s[..m], due) >= |s|
    decreases |s| - j
  {
    if j < |s| - Count(s[..j], due) then Inspected(s, due, j + 1) else j
  }

  /** What one run of the loop leaves. */
  function Pass<T>(s: seq<T>, due: T -> bool): seq<T> {
    var m := Inspected(s, due, 0);
    Kept(s[..m], due) + s[m..]
  }

  lemma {:induction false} CountConcat<T>(a: seq<T>, b: seq<T>, due: T -> bool)
    ensures Count(a + b, due) == Count(a, due) + Count(b, due)
    ensures Kept(a + b, due) == Kept(a, due) + Kept(b, due)
    decreases |b|
  {
    if b == [] {
      assert a + b == a;
    } else {
      assert (a + b)[..|a + b| - 1] == a + b[..|b| - 1];
      CountConcat(a, b[..|b| - 1], due);
    }
  }

  lemma {:induction false} NothingDue<T>(s: seq<T>, due: T -> bool)
    requires Count(s, due) == 0
    ensures Kept(s, due) == s
  {
    if s != [] {
      NothingDue(s[..|s| - 1], due);
    }
  }

  lemma {:induction false} KeptIs<T>(s: seq<T>, due: T -> bool)
    ensures forall x :: x in Kept(s, due) <==> x in s && !due(x)
  {
    if s != [] {
      KeptIs(s[..|s| - 1], due);
    }
  }

  lemma {:induction false} KeptNotDue<T>(s: seq<T>, due: T -> bool)
    ensures Count(Kept(s, due), due) == 0
  {
    if s != [] {
      var front, last := s[..|s| - 1], s[|s| - 1];
      KeptNotDue(front, due);
      var k := Kept(front, due);
      if due(last) {
        assert k + [] == k;
      } else {
        assert (k + [last])[..|k + [last]| - 1] == k;
      }
    }
  }

  /** One pass removes only due elements, keeps all others in order, and leaves at most as many due
      elements as it removes. */
  lemma PassHalves<T>(s: seq<T>, due: T -> bool)
    ensures Kept(Pass(s, due), due) == Kept(s, due)
    ensures |s| - |Pass(s, due)| == Count(s, due) - Count(Pass(s, due), due)
    ensures 2 * Count(Pass(s, due), due) <= Count(s, due)
  {
    var m := Inspected(s, due, 0);
    assert s == s[..m] + s[m..];
    CountConcat(s[..m], s[m..], due);
    CountConcat(Kept(s[..m], due), s[m..], due);
    KeptNotDue(s[..m], due);
    NothingDue(Kept(s[..m], due), due);
  }

  /** While the loop goes on, the counter still allows the next index. */
  lemma {:induction false} StillInspecting<T>(s: seq<T>, due: T -> bool, j: nat, k: nat)
    requires j <= k < |s| && k < Inspected(s, due, j)
    ensures k + Count(s[..k], due) < |s|
    decreases k - j
  {
    if j < k {
      StillInspecting(s, due, j + 1, k);
    }
  }

  lemma {:induction false} DueCounts<T>(s: seq<T>, due: T -> bool, i: nat)
    requires i < |s| && due(s[i])
    ensures Count(s, due) > 0
  {
    if i < |s| - 1 {
      DueCounts(s[..|s| - 1], due, i);
    }
  }

  lemma {:induction false} LastDue<T>(s: seq<T>, due: T -> bool) returns (l: nat)
    requires Count(s, due) > 0
    ensures l < |s| && due(s[l]) && Count(s[..l], due) == Count(s, due) - 1
    ensures forall i :: l < i < |s| ==> !due(s[i])
  {
    l := |s| - 1;
    if !due(s[l]) {
      l := LastDue(s[..|s| - 1], due);
      assert s[..|s| - 1][..l] == s[..l];
    }
  }

  /** No due element sits among the last ones, as many as there are due elements but one. */
  predicate DueInFront<T>(s: seq<T>, due: T -> bool) {
    forall i :: 0 <= i < |s| && due(s[i]) ==> i <= |s| - Count(s, due)
  }

  /** One pass removes every due element exactly when, of D due elements, none is among the last
      D - 1 of the list. */
  lemma PassDrainsIff<T>(s: seq<T>, due: T -> bool)
    ensures Pass(s, due) == Kept(s, due) <==> DueInFront(s, due)
  {
    hide Kept, Count;
    var m := Inspected(s, due, 0);
    var front, rest := s[..m], s[m..];
    assert s == front + rest;
    CountConcat(front, rest, due);
    if Count(rest, due) == 0 {
      NothingDue(rest, due);
      if Count(s, due) > 0 {
        var l := LastDue(s, due);
        if l >= m {
          DueCounts(rest, due, l - m);
        }
        StillInspecting(s, due, 0, l);
      }
    } else {
      var l := LastDue(rest, due);
      assert due(s[m + l]) && m + l > |s| - Count(s, due);
    }
  }

  /** Of two due elements one pass leaves the second. */
  lemma PassLeavesOne()
    ensures Pass([true, true], (b: bool) => b) == [true]
  {
    var s, due := [true, true], (b: bool) => b;
    assert s[..0] == [] && s[..1] == [true] && [true][..0] == [];
    assert Inspected(s, due, 1) == 1;
    assert s[1..] == [true];
  }

  function Passes<T>(s: seq<T>, due: T -> bool, n: nat): seq<T> {
    if n == 0 then s else Pass(Passes(s, due, n - 1), due)
  }

  /** n passes leave at most one in 2^n of the due elements and every element that is not due. */
  lemma {:induction false} PassesDrain<T>(s: seq<T>, due: T -> bool, n: nat)
    ensures Kept(Passes(s, due, n), due) == Kept(s, due)
    ensures Pow2(n) * Count(Passes(s, due, n), due) <= Count(s, due)
    ensures Count(s, due) < Pow2(n) ==> Passes(s, due, n) == Kept(s, due)
  {
    hide Kept, Pass, Count;
    var r := Passes(s, due, n);
    if n > 0 {
      PassesDrain(s, due, n - 1);
      var t := Passes(s, due, n - 1);
      PassHalves(t, due);
      Doubling(Pow2(n - 1), Count(r, due), Count(t, due), Count(s, due));
    } else {
      assert r == s && Pow2(0) == 1;
    }
    if Count(s, due) < Pow2(n) {
      Small(Pow2(n), Count(r, due), Count(s, due));
      NothingDue(r, due);
    }
  }

  lemma Doubling(p: nat, c: nat, d: nat, x: nat)
    requires 2 * c <= d && p * d <= x
    ensures 2 * p * c <= x
  {
    MulSplit(2 * c, d - 2 * c, p);
    MulAssoc(2, p, c);
    EvenProduct(p, c);
  }

  lemma Small(p: nat, c: nat, x: nat)
    requires p * c <= x < p
    ensures c == 0
  {
    if c > 0 {
      MulSplit(1, c - 1, p);
    }
  }

  // ---- the loops, step by step

  /** The list when the first j elements of the original have been dealt with: element j of the
      original now sits behind the kept ones. */
  ghost predicate SweptTo<T>(was: seq<T>, now: seq<T>, due: T -> bool, j: nat) {
    j <= |was| && now == Kept(was[..j], due) + was[j..]
  }

  lemma SweepStart<T>(was: seq<T>, due: T -> bool)
    ensures SweptTo(was, was, due, 0) && |Kept(was[..0], due)| == 0
  {
    assert was[..0] == [];
  }

  lemma InspectedMore<T>(was: seq<T>, due: T -> bool, j: nat)
    requires j < |was|
    ensures j < |Kept(was[..j], due) + was[j..]| ==> Inspected(was, due, j) == Inspected(was, due, j + 1)
  {
    hide Kept, Count;
  }

  /** Dealing with one more element: the pointer is on it, and deleting it when it is due or moving
      past it when it is not is one more step. */
  lemma SweepStep<T>(was: seq<T>, now: seq<T>, due: T -> bool, j: nat) returns (i: nat)
    requires SweptTo(was, now, due, j) && |Kept(was[..j], due)| < |now|
    ensures j < |was| && i == |Kept(was[..j], due)| && now[i] == was[j]
    ensures due(was[j]) ==> SweptTo(was, now[..i] + now[i + 1..], due, j + 1)
    ensures |Kept(was[..j + 1], due)| == if due(was[j]) then i else i + 1
    ensures !due(was[j]) ==> SweptTo(was, now, due, j + 1)
    ensures j < |now| ==> Inspected(was, due, j) == Inspected(was, due, j + 1)
  {
    hide Inspected;
    InspectedMore(was, due, j);
    var kept := Kept(was[..j], due);
    i := |kept|;
    assert was[..j + 1][..j] == was[..j];
    assert was[j..] == [was[j]] + was[j + 1..];
    if due(was[j]) {
      assert Kept(was[..j + 1], due) == kept;
      assert now[..i] + now[i + 1..] == kept + was[j + 1..];
    } else {
      assert Kept(was[..j + 1], due) == kept + [was[j]];
      assert now == kept + [was[j]] + was[j + 1..];
    }
  }

  /** Elements are left while the counter allows one more. */
  lemma CounterInList<T>(was: seq<T>, now: seq<T>, due: T -> bool, j: nat)
    requires SweptTo(was, now, due, j) && j < |now|
    ensures |Kept(was[..j], due)| < |now|
  {
  }

  lemma SweepDone<T>(was: seq<T>, now: seq<T>, due: T -> bool, j: nat)
    requires SweptTo(was, now, due, j) && j >= |now|
    requires Inspected(was, due, 0) == Inspected(was, due, j)
    ensures now == Pass(was, due)
  {
  }

  /** A walk to the end of the list. */
  lemma WalkDone<T>(was: seq<T>, now: seq<T>, due: T -> bool, j: nat)
    requires SweptTo(was, now, due, j) && |Kept(was[..j], due)| >= |now|
    ensures now == Kept(was, due)
  {
    assert was[..|was|] == was;
  }
}
