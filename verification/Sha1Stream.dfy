/** The streaming interface: sha1_starts, sha1_update, sha1_finish and sha1 (src/sha1.c). */
module Sha1Stream {
  import opened Ids
  import opened Fips180
  import opened Sha1

  const U64: nat := 0x1_0000_0000_0000_0000
  const U61: nat := 0x2000_0000_0000_0000

  /** sha1_padding: 0x80 and 63 zero bytes. */
  const PADDING: seq<Byte> := [0x80] + Zeros(63)

  method MemCpy(dst: array<Byte>, at: nat, src: seq<Byte>)
    requires at + |src| <= dst.Length
    modifies dst
    ensures dst[..] == old(dst[..at]) + src + old(dst[at + |src|..])
  {
    forall i | 0 <= i < |src| {
      dst[at + i] := src[i];
    }
  }

  class Context {
    var total0: nat
    var total1: nat
    var state: Five
    const buffer: array<Byte>

    /** Every byte given so far, and the byte count as the two total words accumulate it. */
    ghost var msg: seq<Byte>
    ghost var counted: nat
    ghost var done: nat

    ghost predicate Valid()
      reads this, buffer
    {
      && buffer.Length == 64
      && total0 < U32 && total1 < U32
      && total1 * U32 + total0 == counted % U64
      && 64 * done + total0 % 64 == |msg|
      && state == Fold(msg, done)
      && buffer[..total0 % 64] == msg[64 * done..]
    }

    /** sha1_starts */
    constructor ()
      ensures Valid() && fresh(buffer)
      ensures msg == [] && counted == 0
    {
      total0, total1 := 0, 0;
      state := IV;
      buffer := new Byte[64](i => 0);
      msg, counted, done := [], 0, 0;
    }

    /** Add a byte count to the two total words, with the source's carry test. */
    method Count(ilen: nat)
      requires Valid()
      modifies this`total0, this`total1, this`counted
      ensures total0 < U32 && total1 < U32
      ensures total1 * U32 + total0 == counted % U64
      ensures counted == old(counted) + ilen % U32
      ensures total0 % 64 == (old(total0) % 64 + ilen) % 64
    {
      Mod64(total0, ilen);
      total0 := (total0 + ilen % U32) % U32;
      if total0 < ilen % U32 {
        total1 := (total1 + 1) % U32;
      }
      counted := counted + ilen % U32;
      AddMod(old(counted), ilen % U32, old(total1), old(total0));
    }

    /** Whatever the chunking, the context stands for the concatenation of all input. */
    method Update(input: seq<Byte>)
      requires Valid()
      modifies this, buffer
      ensures Valid()
      ensures msg == old(msg) + input
      ensures counted == old(counted) + |input| % U32
    {
      hide Fold;
      ghost var all := msg + input;
      if |input| == 0 {
        assert all == msg;
        return;
      }
      var left := total0 % 64;
      FoldPrefix(msg, input, done);
      ghost var was := done;
      Count(|input|);
      Absorb(left, input, all);
      msg := all;
      Residue(total0, left + |input|, done - was);
    }

    /** sha1_update without its counting. */
    method Absorb(left: nat, input: seq<Byte>, ghost all: seq<Byte>)
      requires buffer.Length == 64 && left < 64
      requires 64 * done + left <= |all| && input == all[64 * done + left..]
      requires buffer[..left] == all[64 * done..64 * done + left]
      requires state == Fold(all, done)
      modifies this`state, this`done, buffer
      ensures old(done) <= done && 64 * done <= |all| < 64 * done + 64
      ensures buffer[..|all| - 64 * done] == all[64 * done..]
      ensures state == Fold(all, done)
    {
      hide Fold;
      var fill := 64 - left;
      var rest := input;
      var l := left;
      if l > 0 && |rest| >= fill {
        assert buffer[..l] + rest[..fill] == all[64 * done..64 * (done + 1)];
        Top(l, rest[..fill], all);
        rest := rest[fill..];
        l := 0;
      }
      state, rest, done := Blocks(state, rest, all, done, l);
      assert buffer[..l] == all[64 * done..64 * done + l];
      Keep(l, rest);
      assert all[64 * done..] == all[64 * done..64 * done + l] + rest;
    }

    /** The end of sha1_update: keep what is less than a block. */
    method Keep(left: nat, rest: seq<Byte>)
      requires buffer.Length == 64 && left + |rest| < 64
      modifies buffer
      ensures buffer[..left + |rest|] == old(buffer[..left]) + rest
    {
      if |rest| > 0 {
        MemCpy(buffer, left, rest);
      }
    }

    /** The branch of sha1_update that completes a part-filled buffer. */
    method Top(left: nat, fill: seq<Byte>, ghost all: seq<Byte>)
      requires buffer.Length == 64 && left + |fill| == 64
      requires 64 * (done + 1) <= |all| && state == Fold(all, done)
      requires buffer[..left] + fill == all[64 * done..64 * (done + 1)]
      modifies this`state, this`done, buffer
      ensures done == old(done) + 1 && state == Fold(all, done)
    {
      hide Compress;
      MemCpy(buffer, left, fill);
      assert buffer[..] == all[64 * done..64 * (done + 1)];
      state := Process(state, buffer[..]);
      done := done + 1;
    }

    /** The bit count that sha1_finish computes before it pads. */
    method LengthWords() returns (msglen: seq<Byte>)
      requires Valid()
      ensures msglen == Bytes8(8 * counted)
    {
      var high := total0 / 0x2000_0000 + total1 * 8 % U32;
      var low := total0 * 8 % U32;
      BitCount(total1, total0, counted);
      msglen := Bytes4(high) + Bytes4(low);
    }

    /** sha1_finish: pad, append the bit count, and write out the state. */
    method Finish() returns (output: seq<Byte>)
      requires Valid()
      modifies this, buffer
      ensures output == HashAs(old(msg), old(counted))
    {
      hide Fold, Digest, Bytes8;
      var msglen := LengthWords();
      var last := total0 % 64;
      var padn := if last < 56 then 56 - last else 120 - last;
      ghost var m, c := msg, counted;
      Padding(m, last, padn, done);
      Update(PADDING[..padn]);
      Update(msglen);
      assert msg == PadAs(m, c) by {
        assert m + (PADDING[..padn] + Bytes8(8 * c)) == m + PADDING[..padn] + Bytes8(8 * c);
      }
      WholeBlocks(|msg|, done, total0 % 64);
      output := Digest(state);
    }
  }

  /** Contexts that were given the same bytes, in whatever chunks, have folded the same blocks and
      hold the same rest back. Their byte counts agree exactly when the accumulated ones do, as they
      do when every chunk is smaller than 2^32 bytes. */
  lemma ChunksDoNotMatter(c: Context, d: Context)
    requires c.Valid() && d.Valid() && c.msg == d.msg
    ensures c.state == d.state
    ensures c.buffer[..c.total0 % 64] == d.buffer[..d.total0 % 64]
    ensures c.total0 == d.total0 && c.total1 == d.total1 <==> c.counted % U64 == d.counted % U64
  {
    hide Fold;
    SameRest(|c.msg|, c.done, c.total0 % 64, d.done, d.total0 % 64);
    if c.counted % U64 == d.counted % U64 {
      Words(c.total1, c.total0, d.total1, d.total0);
    }
  }

  lemma SameRest(n: nat, a: nat, x: nat, b: nat, y: nat)
    requires 64 * a + x == n == 64 * b + y && x < 64 && y < 64
    ensures a == b && x == y
  {
  }

  /** sha1: FIPS 180-1 for every buffer whose length, modulo 2^61, is less than 2^32. */
  method Digest20(input: seq<Byte>) returns (output: seq<Byte>)
    ensures output == HashAs(input, |input| % U32)
    ensures |input| % U61 < U32 ==> output == Hash(input)
  {
    hide Fold, Digest, PadAs;
    OneBufferIff(input);
    var ctx := new Context();
    ctx.Update(input);
    assert [] + input == input;
    output := ctx.Finish();
  }

  lemma Padding(m: seq<Byte>, last: nat, padn: nat, done: nat)
    requires |m| == 64 * done + last && last < 64
    requires padn == if last < 56 then 56 - last else 120 - last
    ensures m + PADDING[..padn] == m + [0x80] + Zeros((119 - |m| % 64) % 64)
  {
    assert PADDING[..padn] == [0x80] + Zeros(padn - 1);
  }

  lemma WholeBlocks(n: nat, done: nat, left: nat)
    requires n % 64 == 0 && n == 64 * done + left && left < 64
    ensures left == 0 && done == n / 64
  {
  }

  lemma Residue(t: nat, x: nat, k: nat)
    requires t % 64 == x % 64 && 64 * k <= x < 64 * k + 64
    ensures t % 64 == x - 64 * k
  {
  }

  /** The loop of sha1_update: fold whole blocks until less than one is left. */
  method Blocks(s: Five, input: seq<Byte>, ghost all: seq<Byte>, ghost done: nat, ghost left: nat)
    returns (s': Five, rest: seq<Byte>, ghost done': nat)
    requires 64 * done + left <= |all| && input == all[64 * done + left..]
    requires left == 0 || |input| < 64 - left
    requires s == Fold(all, done)
    ensures 64 * done' + left <= |all| && rest == all[64 * done' + left..]
    ensures left + |rest| < 64
    ensures s' == Fold(all, done')
    ensures left > 0 ==> done' == done
  {
    hide Compress;
    s', rest, done' := s, input, done;
    while |rest| >= 64
      invariant 64 * done' + left <= |all| && rest == all[64 * done' + left..]
      invariant left == 0 || |rest| < 64 - left
      invariant s' == Fold(all, done')
      invariant left > 0 ==> done' == done
    {
      assert rest[..64] == all[64 * done'..64 * (done' + 1)];
      s' := Process(s', rest[..64]);
      rest := rest[64..];
      done' := done' + 1;
    }
  }

  lemma HighLow(total1: nat, total0: nat, c: nat)
    requires total0 < U32 && total1 < U32 && total1 * U32 + total0 == c % U64
    ensures 8 * c % U32 == total0 * 8 % U32
    ensures 8 * c / U32 % U32 == total0 / 0x2000_0000 + total1 * 8 % U32
  {
    var z, h := c / U64, total0 / 0x2000_0000;
    var l := total0 * 8 - h * U32;
    assert 0 <= l < U32;
    Divided(8 * c, 8 * U32 * z + 8 * total1 + h, l);
    Divided(total0 * 8, h, l);
    var g := total1 / 0x2000_0000;
    var k := total1 * 8 - g * U32;
    assert 0 <= k < U32 && k % 8 == 0;
    Divided(total1 * 8, g, k);
    Divided(8 * U32 * z + 8 * total1 + h, 8 * z + g, k + h);
  }

  lemma Divided(x: nat, q: nat, r: nat)
    requires x == q * U32 + r && r < U32
    ensures x / U32 == q && x % U32 == r
  {
  }

  /** The two words of the source spell eight times the count, modulo 2^64. */
  lemma BitCount(total1: nat, total0: nat, c: nat)
    requires total0 < U32 && total1 < U32 && total1 * U32 + total0 == c % U64
    ensures total0 / 0x2000_0000 + total1 * 8 % U32 < U32
    ensures Bytes4(total0 / 0x2000_0000 + total1 * 8 % U32) + Bytes4(total0 * 8 % U32)
         == Bytes8(8 * c)
  {
    hide Bytes4;
    HighLow(total1, total0, c);
  }

  lemma FromBytes4(a: nat)
    requires a < U32
    ensures a == Bytes4(a)[0] as int * 0x1000000 + Bytes4(a)[1] as int * 0x10000
                 + Bytes4(a)[2] as int * 0x100 + Bytes4(a)[3]
  {
    assert a / 0x100 == a / 0x10000 * 0x100 + a / 0x100 % 256;
    assert a / 0x10000 == a / 0x1000000 * 0x100 + a / 0x10000 % 256;
  }

  lemma Bytes4Injective(a: nat, b: nat)
    requires a < U32 && b < U32 && Bytes4(a) == Bytes4(b)
    ensures a == b
  {
    assert Bytes4(a)[0] == Bytes4(b)[0] && Bytes4(a)[1] == Bytes4(b)[1];
    assert Bytes4(a)[2] == Bytes4(b)[2] && Bytes4(a)[3] == Bytes4(b)[3];
    FromBytes4(a);
    FromBytes4(b);
  }

  /** Padding with an accumulated byte count is FIPS 180-1 padding exactly when the count agrees
      with the length modulo 2^61. */
  lemma PaddingIsFipsIff(m: seq<Byte>, c: nat)
    ensures PadAs(m, c) == PadAs(m, |m|) <==> c % U61 == |m| % U61
  {
    hide Bytes8;
    var p, q := PadAs(m, c), PadAs(m, |m|);
    assert p[|p| - 8..] == Bytes8(8 * c) && q[|q| - 8..] == Bytes8(8 * |m|);
    SameBytes8(8 * c, 8 * |m|);
    Eighth(c);
    Eighth(|m|);
  }

  /** Given in one buffer, a message is padded as FIPS 180-1 asks exactly when its length, modulo
      2^61, is less than 2^32. */
  lemma OneBufferIff(m: seq<Byte>)
    ensures PadAs(m, |m| % U32) == PadAs(m, |m|) <==> |m| % U61 < U32
  {
    hide PadAs;
    PaddingIsFipsIff(m, |m| % U32);
    Within(|m|);
  }

  lemma Within(n: nat)
    ensures n % U32 % U61 == n % U61 <==> n % U61 < U32
  {
  }

  /** A buffer of 2^32 bytes is padded as if it were empty. */
  lemma WrongPadding(m: seq<Byte>)
    requires |m| == U32
    ensures PadAs(m, |m| % U32) == PadAs(m, 0) != PadAs(m, |m|)
  {
    OneBufferIff(m);
  }

  lemma SameBytes8(x: nat, y: nat)
    ensures Bytes8(x) == Bytes8(y) <==> x % U64 == y % U64
  {
    hide Bytes4;
    DoubleWord(x);
    DoubleWord(y);
    if Bytes8(x) == Bytes8(y) {
      assert Bytes8(x)[..4] == Bytes4(x / U32 % U32) && Bytes8(y)[..4] == Bytes4(y / U32 % U32);
      assert Bytes8(x)[4..] == Bytes4(x % U32) && Bytes8(y)[4..] == Bytes4(y % U32);
      Bytes4Injective(x / U32 % U32, y / U32 % U32);
      Bytes4Injective(x % U32, y % U32);
    } else if x % U64 == y % U64 {
      Words(x / U32 % U32, x % U32, y / U32 % U32, y % U32);
    }
  }

  lemma Words(a: nat, b: nat, c: nat, d: nat)
    requires b < U32 && d < U32 && a * U32 + b == c * U32 + d
    ensures a == c && b == d
  {
  }

  lemma DoubleWord(x: nat)
    ensures x % U64 == x / U32 % U32 * U32 + x % U32
  {
  }

  lemma Eighth(c: nat)
    ensures 8 * c % U64 == 8 * (c % U61)
  {
  }

  lemma Mod64(total0: nat, ilen: nat)
    ensures (total0 + ilen % U32) % U32 % 64 == (total0 % 64 + ilen) % 64
  {
    Drop(total0 + ilen % U32);
    Drop(ilen);
    SumMod(total0, ilen % U32);
    SumMod(total0 % 64, ilen);
    SumMod(total0 % 64, ilen % U32);
  }

  lemma SumMod(x: nat, y: nat)
    ensures (x + y) % 64 == (x % 64 + y % 64) % 64
  {
  }

  lemma Drop(x: nat)
    ensures x % U32 % 64 == x % 64
  {
    assert x == 0x400_0000 * 64 * (x / U32) + x % U32;
  }

  lemma AddMod(c: nat, d: nat, hi: nat, lo: nat)
    requires hi < U32 && lo < U32 && d < U32 && hi * U32 + lo == c % U64
    ensures var lo' := (lo + d) % U32;
            (if lo' < d then (hi + 1) % U32 else hi) * U32 + lo' == (c + d) % U64
  {
  }
}
