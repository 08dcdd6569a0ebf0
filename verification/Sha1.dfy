/** SHA-1 as the source computes it (src/sha1.c) against FIPS 180-1. */
module Fips180 {
  import opened Ids

  type Word = bv32

  datatype Five = Five(a: Word, b: Word, c: Word, d: Word, e: Word)

  /** Circular left shift, section 3 of FIPS 180-1. */
  function RotL1(x: Word): Word { (x << 1) | (x >> 31) }
  function RotL5(x: Word): Word { (x << 5) | (x >> 27) }
  function RotL30(x: Word): Word { (x << 30) | (x >> 2) }

  /** Section 5 of FIPS 180-1. */
  function F(t: nat, b: Word, c: Word, d: Word): Word {
    if t < 20 then (b & c) | (!b & d)
    else if t < 40 then b ^ c ^ d
    else if t < 60 then (b & c) | (b & d) | (c & d)
    else b ^ c ^ d
  }

  /** Section 6 of FIPS 180-1. */
  function K(t: nat): Word {
    if t < 20 then 0x5A827999
    else if t < 40 then 0x6ED9EBA1
    else if t < 60 then 0x8F1BBCDC
    else 0xCA62C1D6
  }

  const IV := Five(0x67452301, 0xEFCDAB89, 0x98BADCFE, 0x10325476, 0xC3D2E1F0)

  /** Four bytes as a word, most significant first (section 2 of FIPS 180-1). */
  function WordOf(s: seq<Byte>, i: nat): Word
    requires i + 4 <= |s|
  {
    (s[i] as bv32 << 24) | (s[i + 1] as bv32 << 16) | (s[i + 2] as bv32 << 8) | (s[i + 3] as bv32)
  }

  const ROUNDS: nat := 80

  function BlockWord(block: seq<Byte>, t: nat): Word
    requires |block| == 64 && t < 16
  {
    WordOf(block, 4 * t)
  }

  function NextWord(w: seq<Word>, t: nat): Word
    requires 16 <= t <= |w|
  {
    RotL1(w[t - 3] ^ w[t - 8] ^ w[t - 14] ^ w[t - 16])
  }

  /** The first n words of the schedule of section 7, steps a and b. */
  function Schedule(block: seq<Byte>, n: nat): (w: seq<Word>)
    requires |block| == 64 && n >= 16
    ensures |w| == n
  {
    if n == 16 then seq(16, t requires 0 <= t < 16 => BlockWord(block, t))
    else
      var w := Schedule(block, n - 1);
      w + [NextWord(w, n - 1)]
  }

  function Temp(a5: Word, f: Word, e: Word, w: Word, k: Word): Word { a5 + f + e + w + k }

  /** Section 7, step d: one round. */
  function Round(t: nat, s: Five, w: Word): Five {
    Five(Temp(RotL5(s.a), F(t, s.b, s.c, s.d), s.e, w, K(t)), s.a, RotL30(s.b), s.c, s.d)
  }

  /** The register values before each of the first n rounds and after the last. */
  function Rounds(w: seq<Word>, h: Five, n: nat): (st: seq<Five>)
    requires n <= |w|
    ensures |st| == n + 1
  {
    if n == 0 then [h]
    else
      var st := Rounds(w, h, n - 1);
      st + [Round(n - 1, st[n - 1], w[n - 1])]
  }

  function AddFive(h: Five, s: Five): Five {
    Five(h.a + s.a, h.b + s.b, h.c + s.c, h.d + s.d, h.e + s.e)
  }

  /** Section 7, steps c to e. */
  function Compress(h: Five, block: seq<Byte>): Five
    requires |block| == 64
  {
    var w := Schedule(block, ROUNDS);
    AddFive(h, Rounds(w, h, ROUNDS)[ROUNDS])
  }

  /** The hash state after the first k blocks of m. */
  function Fold(m: seq<Byte>, k: nat): Five
    requires 64 * k <= |m|
  {
    if k == 0 then IV else Compress(Fold(m, k - 1), m[64 * (k - 1)..64 * k])
  }

  function Zeros(n: nat): (z: seq<Byte>)
    ensures |z| == n
  {
    seq(n, i => 0)
  }

  const U32: nat := 0x1_0000_0000

  /** A word as four bytes and a double word as eight, most significant first. */
  function Bytes4(n: nat): (s: seq<Byte>)
    requires n < U32
    ensures |s| == 4
  {
    [n / 0x1000000, n / 0x10000 % 256, n / 0x100 % 256, n % 256]
  }

  function Bytes8(n: nat): (s: seq<Byte>)
    ensures |s| == 8
  {
    Bytes4(n / U32 % U32) + Bytes4(n % U32)
  }

  /** Section 4 of FIPS 180-1, for a message whose length in bytes is given as len: a one bit,
      zeros up to eight bytes short of a block, then the length in bits as two words. */
  function PadAs(m: seq<Byte>, len: nat): (p: seq<Byte>)
    ensures |p| % 64 == 0
  {
    m + [0x80] + Zeros((119 - |m| % 64) % 64) + Bytes8(8 * len)
  }

  function WordNat(w: Word): (n: nat)
    ensures n < U32
  {
    w as nat
  }

  function DigestByte(s: Five, i: nat): Byte
    requires i < 20
  {
    var w := if i < 4 then s.a else if i < 8 then s.b else if i < 12 then s.c
             else if i < 16 then s.d else s.e;
    Bytes4(WordNat(w))[i % 4]
  }

  /** The five words, most significant byte first. */
  function Digest(s: Five): (d: seq<Byte>)
    ensures |d| == 20
  {
    seq(20, i requires 0 <= i < 20 => DigestByte(s, i))
  }

  /** The digest of a message padded as one of len bytes. */
  function HashAs(m: seq<Byte>, len: nat): (d: seq<Byte>)
    ensures |d| == 20
  {
    Digest(Fold(PadAs(m, len), |PadAs(m, len)| / 64))
  }

  /** The message digest of FIPS 180-1. */
  function Hash(m: seq<Byte>): (d: seq<Byte>)
    ensures |d| == 20
  {
    HashAs(m, |m|)
  }

  lemma {:induction false} FoldPrefix(m: seq<Byte>, x: seq<Byte>, k: nat)
    requires 64 * k <= |m|
    ensures Fold(m + x, k) == Fold(m, k)
  {
    if k > 0 {
      FoldPrefix(m, x, k - 1);
      assert (m + x)[64 * (k - 1)..64 * k] == m[64 * (k - 1)..64 * k];
    }
  }
}

module Sha1 {
  import opened Ids
  import opened Fips180

  /** All 80 schedule words satisfy the recurrence they are built by. */
  ghost predicate IsSchedule(ws: seq<Word>)
  {
    |ws| == ROUNDS && forall t {:trigger NextWord(ws, t)} :: 16 <= t < ROUNDS ==> ws[t] == NextWord(ws, t)
  }

  lemma NextWordPrefix(w: seq<Word>, v: seq<Word>, t: nat)
    requires 16 <= t <= |w|
    ensures NextWord(w, t) == NextWord(w + v, t)
  {
    var u := w + v;
    assert u[t - 3] == w[t - 3];
    assert u[t - 8] == w[t - 8];
    assert u[t - 14] == w[t - 14];
    assert u[t - 16] == w[t - 16];
  }

  lemma {:induction false} ScheduleWords(block: seq<Byte>, n: nat, t: nat)
    requires |block| == 64 && 16 <= n && t < n
    ensures t < 16 ==> Schedule(block, n)[t] == BlockWord(block, t)
    ensures 16 <= t ==> Schedule(block, n)[t] == NextWord(Schedule(block, n), t)
  {
    if n > 16 {
      var w := Schedule(block, n - 1);
      var x := [NextWord(w, n - 1)];
      if t < n - 1 {
        ScheduleWords(block, n - 1, t);
      }
      if t >= 16 {
        NextWordPrefix(w, x, t);
      }
    }
  }

  lemma ScheduleIsSchedule(block: seq<Byte>)
    requires |block| == 64
    ensures IsSchedule(Schedule(block, ROUNDS))
    ensures forall t :: 0 <= t < 16 ==> Schedule(block, ROUNDS)[t] == BlockWord(block, t)
  {
    var n := ROUNDS;
    forall t | 0 <= t < n
      ensures t < 16 ==> Schedule(block, n)[t] == BlockWord(block, t)
      ensures 16 <= t ==> Schedule(block, n)[t] == NextWord(Schedule(block, n), t)
    {
      ScheduleWords(block, n, t);
    }
  }

  function RoundAt(ws: seq<Word>, st: seq<Five>, t: nat): Five
    requires t < |ws| && t < |st|
  {
    Round(t, st[t], ws[t])
  }

  /** Each register state is the FIPS round of the one before. */
  ghost predicate IsRun(ws: seq<Word>, st: seq<Five>)
  {
    && |ws| == ROUNDS && |st| == ROUNDS + 1
    && forall t {:trigger RoundAt(ws, st, t)} :: 0 <= t < ROUNDS ==> st[t + 1] == RoundAt(ws, st, t)
  }

  lemma {:induction false} RoundsStep(ws: seq<Word>, h: Five, n: nat, t: nat)
    requires t < n <= |ws|
    ensures Rounds(ws, h, n)[t + 1] == RoundAt(ws, Rounds(ws, h, n), t)
  {
    if t < n - 1 {
      RoundsStep(ws, h, n - 1, t);
    }
  }

  lemma {:induction false} RoundsIsRun(ws: seq<Word>, h: Five)
    requires |ws| == ROUNDS
    ensures IsRun(ws, Rounds(ws, h, ROUNDS)) && Rounds(ws, h, ROUNDS)[0] == h
  {
    var n := ROUNDS;
    RoundsStart(ws, h, n);
    forall t | 0 <= t < n
      ensures Rounds(ws, h, n)[t + 1] == RoundAt(ws, Rounds(ws, h, n), t)
    {
      RoundsStep(ws, h, n, t);
    }
  }

  lemma {:induction false} RoundsStart(ws: seq<Word>, h: Five, n: nat)
    requires n <= |ws|
    ensures Rounds(ws, h, n)[0] == h
  {
    if n > 0 {
      RoundsStart(ws, h, n - 1);
    }
  }

  /** Where word t lives in the 16-word buffer. */
  function Slot(t: nat): (i: nat)
    ensures i < 16
  {
    t % 16
  }

  lemma SlotsDiffer(k: nat, t: nat)
    requires t - 16 < k < t
    ensures Slot(k) != Slot(t)
  {
  }

  /** What the rolling buffer holds once word t-1 is in place: words t-16 to t-1. */
  ghost predicate Rolling(ws: seq<Word>, w: seq<Word>, t: nat)
  {
    && |w| == 16 && 16 <= t <= |ws|
    && forall k {:trigger Slot(k)} :: t - 16 <= k < t ==> w[Slot(k)] == ws[k]
  }

  /** Replacing the oldest word by the newest keeps the buffer rolling. */
  lemma Roll(ws: seq<Word>, w: seq<Word>, t: nat)
    requires Rolling(ws, w, t) && t < |ws|
    ensures Rolling(ws, w[Slot(t) := ws[t]], t + 1)
  {
    forall k | t - 15 <= k < t
      ensures w[Slot(t) := ws[t]][Slot(k)] == ws[k]
    {
      SlotsDiffer(k, t);
    }
  }

  /** The word the macro R computes from four slots of the rolling buffer. */
  function RolledWord(w: seq<Word>, t: nat): Word
    requires |w| == 16 && t >= 16
  {
    RotL1(w[Slot(t - 3)] ^ w[Slot(t - 8)] ^ w[Slot(t - 14)] ^ w[Slot(t)])
  }

  lemma RolledIsNext(ws: seq<Word>, w: seq<Word>, t: nat)
    requires Rolling(ws, w, t)
    ensures RolledWord(w, t) == NextWord(ws, t)
  {
    assert w[Slot(t - 3)] == ws[t - 3];
    assert w[Slot(t - 8)] == ws[t - 8];
    assert w[Slot(t - 14)] == ws[t - 14];
    assert Slot(t - 16) == Slot(t) && w[Slot(t - 16)] == ws[t - 16];
  }

  /** The macro R(t): recompute one word of the rolling schedule in place. */
  method R(ghost ws: seq<Word>, W: array<Word>, t: nat) returns (x: Word)
    requires IsSchedule(ws) && t < ROUNDS && Rolling(ws, W[..], t)
    modifies W
    ensures Rolling(ws, W[..], t + 1)
    ensures x == ws[t]
  {
    RolledIsNext(ws, W[..], t);
    Roll(ws, W[..], t);
    ghost var was := W[..];
    W[Slot(t)] := RolledWord(W[..], t);
    x := W[Slot(t)];
    assert W[..] == was[Slot(t) := ws[t]];
  }

  /** The macro F of each of the four sections. */
  function Choose(x: Word, y: Word, z: Word): Word { z ^ (x & (y ^ z)) }
  function Parity(x: Word, y: Word, z: Word): Word { x ^ y ^ z }
  function Majority(x: Word, y: Word, z: Word): Word { (x & y) | (z & (x | y)) }

  lemma ChooseIsF(x: Word, y: Word, z: Word)
    ensures Choose(x, y, z) == (x & y) | (!x & z)
  {
  }

  lemma MajorityIsF(x: Word, y: Word, z: Word)
    ensures Majority(x, y, z) == (x & y) | (x & z) | (y & z)
  {
  }

  /** The assignment e += S(a,5) + F(b,c,d) + K + x. */
  function AddUp(e: Word, a5: Word, f: Word, k: Word, x: Word): Word { e + (a5 + f + k + x) }

  lemma SumOrder(e: Word, a5: Word, f: Word, k: Word, x: Word)
    ensures AddUp(e, a5, f, k, x) == Temp(a5, f, e, x, k)
  {
  }

  /** The F and K in force for round t. */
  function SectionF(t: nat, b: Word, c: Word, d: Word): Word {
    if t < 20 then Choose(b, c, d)
    else if t < 40 then Parity(b, c, d)
    else if t < 60 then Majority(b, c, d)
    else Parity(b, c, d)
  }

  function SectionK(t: nat): Word {
    if t < 20 then 0x5A827999
    else if t < 40 then 0x6ED9EBA1
    else if t < 60 then 0x8F1BBCDC
    else 0xCA62C1D6
  }

  lemma SectionIsFips(t: nat, b: Word, c: Word, d: Word)
    ensures SectionF(t, b, c, d) == F(t, b, c, d) && SectionK(t) == K(t)
  {
    if t < 20 {
      ChooseIsF(b, c, d);
    } else if t < 40 {
    } else if t < 60 {
      MajorityIsF(b, c, d);
    }
  }

  /** The macro P on registers in their rotated roles. */
  method P(ghost ws: seq<Word>, ghost st: seq<Five>, t: nat,
           a: Word, b: Word, c: Word, d: Word, e: Word, x: Word)
    returns (e': Word, b': Word)
    requires IsRun(ws, st) && t < ROUNDS
    requires Five(a, b, c, d, e) == st[t] && x == ws[t]
    ensures Five(e', a, b', c, d) == st[t + 1]
  {
    assert st[t + 1] == RoundAt(ws, st, t);
    SectionIsFips(t, b, c, d);
    SumOrder(e, RotL5(a), SectionF(t, b, c, d), SectionK(t), x);
    e', b' := AddUp(e, RotL5(a), SectionF(t, b, c, d), SectionK(t), x), RotL30(b);
  }

  /** Five rounds from the words in place, after which every register is back in its first role. */
  method FiveFirst(ghost ws: seq<Word>, ghost st: seq<Five>, t: nat, W: array<Word>,
                   a: Word, b: Word, c: Word, d: Word, e: Word)
    returns (A: Word, B: Word, C: Word, D: Word, E: Word)
    requires IsSchedule(ws) && IsRun(ws, st) && W.Length == 16 && t + 5 <= 16
    requires forall k {:trigger W[k]} :: 0 <= k < 16 ==> W[k] == ws[k]
    requires Five(a, b, c, d, e) == st[t]
    ensures Five(A, B, C, D, E) == st[t + 5]
  {
    A, B, C, D, E := a, b, c, d, e;
    E, B := P(ws, st, t, A, B, C, D, E, W[t]);
    D, A := P(ws, st, t + 1, E, A, B, C, D, W[t + 1]);
    C, E := P(ws, st, t + 2, D, E, A, B, C, W[t + 2]);
    B, D := P(ws, st, t + 3, C, D, E, A, B, W[t + 3]);
    A, C := P(ws, st, t + 4, B, C, D, E, A, W[t + 4]);
  }

  /** Five rounds that recompute their words with R. */
  method FiveRolling(ghost ws: seq<Word>, ghost st: seq<Five>, t: nat, W: array<Word>,
                     a: Word, b: Word, c: Word, d: Word, e: Word)
    returns (A: Word, B: Word, C: Word, D: Word, E: Word)
    requires IsSchedule(ws) && IsRun(ws, st) && 16 <= t <= 75 && Rolling(ws, W[..], t)
    requires Five(a, b, c, d, e) == st[t]
    modifies W
    ensures Rolling(ws, W[..], t + 5)
    ensures Five(A, B, C, D, E) == st[t + 5]
  {
    A, B, C, D, E := a, b, c, d, e;
    var x := R(ws, W, t);
    E, B := P(ws, st, t, A, B, C, D, E, x);
    x := R(ws, W, t + 1);
    D, A := P(ws, st, t + 1, E, A, B, C, D, x);
    x := R(ws, W, t + 2);
    C, E := P(ws, st, t + 2, D, E, A, B, C, x);
    x := R(ws, W, t + 3);
    B, D := P(ws, st, t + 3, C, D, E, A, B, x);
    x := R(ws, W, t + 4);
    A, C := P(ws, st, t + 4, B, C, D, E, A, x);
  }

  /** Rounds 0 to 19: the word is taken from the block until round 15 and recomputed after it. */
  method FirstTwenty(ghost ws: seq<Word>, ghost st: seq<Five>, W: array<Word>,
                     a: Word, b: Word, c: Word, d: Word, e: Word)
    returns (A: Word, B: Word, C: Word, D: Word, E: Word, n: nat)
    requires IsSchedule(ws) && IsRun(ws, st) && W.Length == 16 && Rolling(ws, W[..], 16)
    requires Five(a, b, c, d, e) == st[0]
    modifies W
    ensures n == 20 && Rolling(ws, W[..], n)
    ensures Five(A, B, C, D, E) == st[n]
  {
    var t := 0;
    forall k | 0 <= k < 16
      ensures W[k] == ws[k]
    {
      assert W[..][Slot(k)] == ws[k];
    }
    A, B, C, D, E := FiveFirst(ws, st, t, W, a, b, c, d, e);
    A, B, C, D, E := FiveFirst(ws, st, t + 5, W, A, B, C, D, E);
    A, B, C, D, E := FiveFirst(ws, st, t + 10, W, A, B, C, D, E);
    t := 15;
    E, B := P(ws, st, t, A, B, C, D, E, W[t]);
    var x := R(ws, W, t + 1);
    D, A := P(ws, st, t + 1, E, A, B, C, D, x);
    x := R(ws, W, t + 2);
    C, E := P(ws, st, t + 2, D, E, A, B, C, x);
    x := R(ws, W, t + 3);
    B, D := P(ws, st, t + 3, C, D, E, A, B, x);
    x := R(ws, W, t + 4);
    A, C := P(ws, st, t + 4, B, C, D, E, A, x);
    n := t + 5;
  }

  /** Rounds 20 to 79. */
  method LastSixty(ghost ws: seq<Word>, ghost st: seq<Five>, t: nat, W: array<Word>,
                   a: Word, b: Word, c: Word, d: Word, e: Word)
    returns (A: Word, B: Word, C: Word, D: Word, E: Word)
    requires IsSchedule(ws) && IsRun(ws, st) && t == 20 && Rolling(ws, W[..], t)
    requires Five(a, b, c, d, e) == st[t]
    modifies W
    ensures Five(A, B, C, D, E) == st[ROUNDS]
  {
    A, B, C, D, E := a, b, c, d, e;
    A, B, C, D, E := FiveRolling(ws, st, t, W, A, B, C, D, E);
    A, B, C, D, E := FiveRolling(ws, st, t + 5, W, A, B, C, D, E);
    A, B, C, D, E := FiveRolling(ws, st, t + 10, W, A, B, C, D, E);
    A, B, C, D, E := FiveRolling(ws, st, t + 15, W, A, B, C, D, E);
    A, B, C, D, E := FiveRolling(ws, st, t + 20, W, A, B, C, D, E);
    A, B, C, D, E := FiveRolling(ws, st, t + 25, W, A, B, C, D, E);
    A, B, C, D, E := FiveRolling(ws, st, t + 30, W, A, B, C, D, E);
    A, B, C, D, E := FiveRolling(ws, st, t + 35, W, A, B, C, D, E);
    A, B, C, D, E := FiveRolling(ws, st, t + 40, W, A, B, C, D, E);
    A, B, C, D, E := FiveRolling(ws, st, t + 45, W, A, B, C, D, E);
    A, B, C, D, E := FiveRolling(ws, st, t + 50, W, A, B, C, D, E);
    A, B, C, D, E := FiveRolling(ws, st, t + 55, W, A, B, C, D, E);
  }

  method LoadBlock(data: seq<Byte>) returns (W: array<Word>)
    requires |data| == 64
    ensures fresh(W) && Rolling(Schedule(data, ROUNDS), W[..], 16)
  {
    hide BlockWord, NextWord;
    W := new Word[16](t requires 0 <= t < 16 => BlockWord(data, t));
    ScheduleIsSchedule(data);
    assert W[..] == Schedule(data, ROUNDS)[..16];
  }

  /** sha1_process: one block folded into the five state words. */
  method Process(state: Five, data: seq<Byte>) returns (state': Five)
    requires |data| == 64
    ensures state' == Compress(state, data)
  {
    hide AddFive, Round, BlockWord, NextWord;
    var W := LoadBlock(data);
    ghost var ws := Schedule(data, ROUNDS);
    ghost var st := Rounds(ws, state, ROUNDS);
    ScheduleIsSchedule(data);
    RoundsIsRun(ws, state);
    var A, B, C, D, E, t := FirstTwenty(ws, st, W, state.a, state.b, state.c, state.d, state.e);
    A, B, C, D, E := LastSixty(ws, st, t, W, A, B, C, D, E);
    state' := AddFive(state, Five(A, B, C, D, E));
  }
}
