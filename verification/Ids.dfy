/** 160-bit ids as byte buffers: comparison, lowest set bit, setting a bit (src/bucket.c). */
module Ids {
  import opened Powers

  type Byte = x: int | 0 <= x < 256

  const ID_LENGTH: nat := 20

  type Id = s: seq<Byte> | |s| == ID_LENGTH witness seq(ID_LENGTH, i => 0)

  /** The number a buffer spells, most significant byte first. */
  function Value(s: seq<Byte>): nat {
    if s == [] then 0 else Value(s[..|s| - 1]) * 256 + s[|s| - 1]
  }

  /** C's memcmp on buffers of one length: the difference of the first bytes that differ. */
  function MemCmp(a: seq<Byte>, b: seq<Byte>): int
    requires |a| == |b|
  {
    if a == [] then 0
    else if a[0] != b[0] then a[0] - b[0]
    else MemCmp(a[1..], b[1..])
  }

  lemma {:induction false} ValueConcat(a: seq<Byte>, b: seq<Byte>)
    ensures Value(a + b) == Value(a) * Pow2(8 * |b|) + Value(b)
    decreases |b|
  {
    if b == [] {
      assert a + b == a;
    } else {
      var front := b[..|b| - 1];
      assert (a + b)[..|a + b| - 1] == a + front;
      ValueConcat(a, front);
      Pow2Add(8 * |front|, 8);
      SmallPowers();
      MulAssoc(Value(a), Pow2(8 * |front|), 256);
      MulSplit(Value(a) * Pow2(8 * |front|), Value(front), 256);
    }
  }

  lemma {:induction false} ValueBound(s: seq<Byte>)
    ensures Value(s) < Pow2(8 * |s|)
    decreases |s|
  {
    if s != [] {
      ValueBound(s[..|s| - 1]);
      Pow2Add(8 * (|s| - 1), 8);
      SmallPowers();
    }
  }

  lemma ValueHead(s: seq<Byte>)
    requires s != []
    ensures Value(s) == s[0] * Pow2(8 * (|s| - 1)) + Value(s[1..])
    ensures Value(s[1..]) < Pow2(8 * (|s| - 1))
  {
    assert s == s[..1] + s[1..];
    ValueConcat(s[..1], s[1..]);
    assert s[..1][..0] == [];
    assert Value(s[..1]) == s[0];
    ValueBound(s[1..]);
  }

  /** Byte-wise comparison orders ids as the numbers they spell. */
  lemma {:induction false} MemCmpOrdersValues(a: seq<Byte>, b: seq<Byte>)
    requires |a| == |b|
    ensures MemCmp(a, b) < 0 <==> Value(a) < Value(b)
    ensures MemCmp(a, b) == 0 <==> Value(a) == Value(b)
    ensures MemCmp(a, b) == 0 <==> a == b
    decreases |a|
  {
    if a == [] {
    } else {
      ValueHead(a);
      ValueHead(b);
      MemCmpOrdersValues(a[1..], b[1..]);
      var p := Pow2(8 * (|a| - 1));
      if a[0] < b[0] {
        MulStep(a[0], b[0], p);
      } else if b[0] < a[0] {
        MulStep(b[0], a[0], p);
      } else {
        assert a == [a[0]] + a[1..] && b == [b[0]] + b[1..];
      }
    }
  }

  /** The C test (b & (0x80 >> j)) != 0: bit j counted from the most significant one. */
  predicate TestBit(b: Byte, j: nat)
    requires j < 8
  {
    b / Pow2(7 - j) % 2 == 1
  }

  /** Adding m to a byte that is an even multiple of m, and a rest, gives an odd multiple and is
      still a byte. */
  lemma ClearBit(b: Byte, m: nat, k: nat)
    requires m > 0 && k * m == 256 && k % 2 == 0
    requires b / m % 2 != 1
    ensures b + m < 256 && (b + m) / m % 2 == 1
  {
    var q, r := b / m, b % m;
    assert q * m + r == b;
    OneMoreTimes(b, m, q, r);
    RoomForOne(m, k, q, r);
  }

  lemma OneMoreTimes(b: nat, m: nat, q: nat, r: nat)
    requires b == q * m + r && r < m
    ensures (b + m) / m == q + 1
  {
    MulSplit(q, 1, m);
    QuotientRest(b + m, m, q + 1, r);
  }

  lemma RoomForOne(m: nat, k: nat, q: nat, r: nat)
    requires r < m && q % 2 == 0 && k % 2 == 0 && q * m + r < k * m
    ensures q * m + r + m < k * m
  {
    if k <= q {
      MulSplit(k, q - k, m);
      assert false;
    }
    MulSplit(q + 2, k - q - 2, m);
    MulSplit(q, 2, m);
  }

  /** The C assignment b |= 0x80 >> j. */
  function OrBit(b: Byte, j: nat): (r: Byte)
    requires j < 8
    ensures TestBit(r, j)
    ensures TestBit(b, j) ==> r == b
    ensures !TestBit(b, j) ==> r == b + Pow2(7 - j)
  {
    if TestBit(b, j) then b
    else
      SmallPowers();
      Pow2Add(j + 1, 7 - j);
      ClearBit(b, Pow2(7 - j), Pow2(j + 1));
      b + Pow2(7 - j)
  }

  /** The last bit position at or before j that is set, as the inner loop of bckt_significant_bit
      finds it; -1 when there is none. */
  function LowBit(b: Byte, j: int): (r: int)
    requires -1 <= j < 8
    ensures -1 <= r <= j
    ensures r >= 0 ==> TestBit(b, r)
    ensures forall k :: r < k <= j ==> !TestBit(b, k)
    decreases j + 1
  {
    if j < 0 then -1 else if TestBit(b, j) then j else LowBit(b, j - 1)
  }

  /** With no bit set after position j, a byte is a multiple of the weight of that position. */
  lemma {:induction false} TrailingBits(b: Byte, j: nat) returns (k: nat)
    requires j < 8
    requires forall i :: j < i < 8 ==> !TestBit(b, i)
    ensures b == k * Pow2(7 - j) && b / Pow2(7 - j) == k
    decreases 8 - j
  {
    if j == 7 {
      k := b;
    } else {
      var k' := TrailingBits(b, j + 1);
      assert !TestBit(b, j + 1);
      k := k' / 2;
      EvenProduct(k, Pow2(6 - j));
      MulAssoc(2, k, Pow2(6 - j));
      Quotient(b, Pow2(7 - j), k);
    }
  }

  lemma LowBitOfByte(b: Byte) returns (o: nat)
    requires b != 0
    ensures 0 <= LowBit(b, 7)
    ensures o % 2 == 1 && b == o * Pow2(7 - LowBit(b, 7))
  {
    if LowBit(b, 7) < 0 {
      SmallPowers();
      o := TrailingBits(b, 0);
      assert false;
    }
    o := TrailingBits(b, LowBit(b, 7));
  }

  /** Position of the last set bit of a buffer, counted from its first bit; -1 for zero. */
  function SignificantBit(id: seq<Byte>): (r: int)
    ensures -1 <= r < 8 * |id|
  {
    if id == [] then -1
    else if id[|id| - 1] != 0 then
      8 * (|id| - 1) + LowBit(id[|id| - 1], 7)
    else SignificantBit(id[..|id| - 1])
  }

  lemma AddOdd(v: nat, d: nat, p: nat, l: nat) returns (o: nat)
    requires 2 * d * p == 256 && l % 2 == 1
    ensures o % 2 == 1 && v * 256 + l * p == o * p
  {
    MulAssoc(v, 2 * d, p);
    MulSplit(v * (2 * d), l, p);
    EvenProduct(v, d);
    o := v * (2 * d) + l;
  }

  lemma OddWithByte(v: nat, b: Byte) returns (o: nat)
    requires b != 0
    ensures 0 <= LowBit(b, 7)
    ensures o % 2 == 1 && v * 256 + b == o * Pow2(7 - LowBit(b, 7))
  {
    var l := LowBitOfByte(b);
    var j := LowBit(b, 7);
    SmallPowers();
    Pow2Add(j + 1, 7 - j);
    o := AddOdd(v, Pow2(j), Pow2(7 - j), l);
  }

  /** The value of an id is an odd multiple of the weight of its last set bit. */
  lemma {:induction false} SignificantBitValue(id: seq<Byte>) returns (o: nat)
    ensures SignificantBit(id) == -1 <==> Value(id) == 0
    ensures SignificantBit(id) >= 0 ==>
              o % 2 == 1 && Value(id) == o * Pow2(8 * |id| - 1 - SignificantBit(id))
    decreases |id|
  {
    o := 1;
    if id != [] {
      var front, last := id[..|id| - 1], id[|id| - 1];
      SmallPowers();
      if last != 0 {
        o := OddWithByte(Value(front), last);
      } else {
        o := SignificantBitValue(front);
        if SignificantBit(front) >= 0 {
          var e := 8 * |front| - 1 - SignificantBit(front);
          Pow2Add(e, 8);
          MulAssoc(o, Pow2(e), 256);
        }
      }
    }
  }

  /** No bit is set after the last set one. */
  lemma {:induction false} BitsAfterSignificant(id: seq<Byte>, k: nat)
    requires SignificantBit(id) < k < 8 * |id|
    ensures !TestBit(id[k / 8], k % 8)
    decreases |id|
  {
    var last := id[|id| - 1];
    if k / 8 == |id| - 1 {
      if last == 0 {
        assert last / Pow2(7 - k % 8) == 0;
      }
    } else {
      BitsAfterSignificant(id[..|id| - 1], k);
    }
  }

  /** The C assignment id[k / 8] |= 0x80 >> (k % 8). */
  function SetBit(id: seq<Byte>, k: nat): (r: seq<Byte>)
    requires k < 8 * |id|
    ensures |r| == |id|
  {
    id[k / 8 := OrBit(id[k / 8], k % 8)]
  }

  lemma {:induction false} ValueUpdate(s: seq<Byte>, i: nat, b: Byte)
    requires i < |s|
    ensures Value(s[i := b]) == Value(s) + (b - s[i]) * Pow2(8 * (|s| - 1 - i))
    decreases |s|
  {
    var front := s[..|s| - 1];
    var t := s[i := b];
    if i == |s| - 1 {
      assert t[..|t| - 1] == front;
    } else {
      assert t[..|t| - 1] == front[i := b];
      ValueUpdate(front, i, b);
      var p := Pow2(8 * (|front| - 1 - i));
      Pow2Add(8 * (|front| - 1 - i), 8);
      SmallPowers();
      MulAssoc(b - s[i], p, 256);
      MulSplit(Value(front), (b - s[i]) * p, 256);
    }
  }

  /** Setting a clear bit adds its weight. */
  lemma SetBitValue(id: seq<Byte>, k: nat)
    requires k < 8 * |id| && !TestBit(id[k / 8], k % 8)
    ensures Value(SetBit(id, k)) == Value(id) + Pow2(8 * |id| - 1 - k)
  {
    hide Value, Pow2;
    ValueUpdate(id, k / 8, OrBit(id[k / 8], k % 8));
    Pow2Add(7 - k % 8, 8 * (|id| - 1 - k / 8));
  }

  lemma {:induction false} ZeroValue(s: seq<Byte>)
    requires forall i :: 0 <= i < |s| ==> s[i] == 0
    ensures Value(s) == 0
    decreases |s|
  {
    if s != [] {
      ZeroValue(s[..|s| - 1]);
    }
  }
}
