/** The reader accepts exactly the grammar, and the writer's output is in it. */
module BencodeProofs {
  import opened Ids
  import opened Options
  import opened Bencode

  lemma SubSlice(code: seq<Byte>, p: nat, q: nat, i: nat, j: nat)
    requires p <= q <= |code| && i <= j <= q - p
    ensures code[p..q][i..j] == code[p + i..p + j]
    ensures i < j ==> code[p..q][i] == code[p + i] && code[p..q][j - 1] == code[p + j - 1]
  {
    var a, b := code[p..q][i..j], code[p + i..p + j];
    assert |a| == |b|;
    forall k | 0 <= k < |a|
      ensures a[k] == b[k]
    {
      assert a[k] == code[p..q][i + k];
    }
    assert a == b;
  }

  lemma {:induction false} RunEndIs(code: seq<Byte>, p: nat, q: nat)
    requires p <= q <= |code| && AllDigits(code[p..q])
    requires q < |code| ==> !IsDigit(code[q])
    ensures RunEnd(code, p) == q
    decreases q - p
  {
    if p < q {
      assert code[p..q][0] == code[p];
      assert code[p..q][1..] == code[p + 1..q];
      RunEndIs(code, p + 1, q);
    }
  }

  lemma ParseStrSound(code: seq<Byte>, p: nat, x: seq<Byte>, q: nat)
    requires p <= |code| && ParseStr(code, p) == Some((x, q))
    ensures DenotesStr(code[p..q], x)
  {
    hide Number;
    var e := RunEnd(code, p);
    SubSlice(code, p, q, 0, e - p);
    SubSlice(code, p, q, e - p, e - p + 1);
    SubSlice(code, p, q, e - p + 1, q - p);
    assert StrSplit(code[p..q], x, e - p);
  }

  lemma ParseStrComplete(code: seq<Byte>, p: nat, x: seq<Byte>, q: nat, k: nat)
    requires p <= q <= |code| && GoodString(x) && StrSplit(code[p..q], x, k)
    ensures ParseStr(code, p) == Some((x, q))
  {
    hide Number;
    SubSlice(code, p, q, 0, k);
    SubSlice(code, p, q, k, k + 1);
    SubSlice(code, p, q, k + 1, q - p);
    RunEndIs(code, p, p + k);
  }

  lemma ParseStrIff(code: seq<Byte>, p: nat, x: seq<Byte>, q: nat)
    requires p <= |code|
    ensures ParseStr(code, p) == Some((x, q)) <==> p <= q <= |code| && DenotesStr(code[p..q], x)
  {
    hide StrSplit;
    if ParseStr(code, p) == Some((x, q)) {
      ParseStrSound(code, p, x, q);
    }
    if p <= q <= |code| && DenotesStr(code[p..q], x) {
      var k: nat :| StrSplit(code[p..q], x, k);
      ParseStrComplete(code, p, x, q, k);
    }
  }

  lemma IntFramed(code: seq<Byte>, p: nat, q: nat)
    requires p + 3 <= q <= |code|
    ensures IntDigits(code[p..q]) == code[IntStart(code, p)..q - 1]
    ensures code[p..q][0] == code[p] && code[p..q][1] == code[p + 1] && code[p..q][q - p - 1] == code[q - 1]
  {
    SubSlice(code, p, q, 0, 1);
    SubSlice(code, p, q, 1, 2);
    SubSlice(code, p, q, IntStart(code, p) - p, q - p - 1);
    SubSlice(code, p, q, q - p - 1, q - p);
  }

  lemma ParseIntIff(code: seq<Byte>, p: nat, i: int, q: nat)
    requires p < |code| && code[p] == CHAR_I
    ensures ParseInt(code, p) == Some((i, q)) <==> p <= q <= |code| && DenotesInt(code[p..q], i)
  {
    hide Number, IntDigits;
    if ParseInt(code, p) == Some((i, q)) {
      IntFramed(code, p, q);
    }
    if p <= q <= |code| && DenotesInt(code[p..q], i) {
      IntFramed(code, p, q);
      RunEndIs(code, IntStart(code, p), q - 1);
    }
  }

  /** What an encoding begins with. */
  lemma FirstByte(s: seq<Byte>, t: Ben)
    requires Denotes(s, t)
    ensures |s| > 0
    ensures match t
            case Str(_) => IsDigit(s[0])
            case Int(_) => s[0] == CHAR_I
            case List(_) => s[0] == CHAR_L
            case Dict(_) => s[0] == CHAR_D
  {
    if t.Str? {
      StrFirstByte(s, t.s);
    }
  }

  lemma StrFirstByte(s: seq<Byte>, x: seq<Byte>)
    requires DenotesStr(s, x)
    ensures |s| > 0 && IsDigit(s[0])
  {
    var k: nat :| StrSplit(s, x, k);
    assert s[..k][0] == s[0];
  }

  lemma OneMoreEntry(s: seq<Byte>, j: nat, k: nat, e: Entry, rest: seq<Entry>)
    requires j <= k <= |s|
    requires DenotesStr(s[..j], e.key) && Denotes(s[j..k], e.val) && DenotesEntries(s[k..], rest)
    ensures DenotesEntries(s, [e] + rest)
  {
    var d := [e] + rest;
    assert d[0] == e && d[1..] == rest;
  }

  // ---- what is read is in the grammar

  lemma {:induction false} ParseSound(code: seq<Byte>, p: nat, t: Ben, q: nat)
    requires p <= |code| && ParseVal(code, p) == Some((t, q))
    ensures p <= q <= |code| && Denotes(code[p..q], t)
    decreases |code| - p, 0
  {
    hide ParseStr, ParseInt, DenotesStr, DenotesInt, ParseAll, ParseEntries;
    if code[p] == CHAR_D {
      ParseEntriesSound(code, p + 1, t.d, q);
      SubSlice(code, p, q, 1, q - p - 1);
      SubSlice(code, p, q, 0, q - p);
    } else if code[p] == CHAR_L {
      ParseAllSound(code, p + 1, t.l, q);
      SubSlice(code, p, q, 1, q - p - 1);
      SubSlice(code, p, q, 0, q - p);
    } else if code[p] == CHAR_I {
      ParseIntIff(code, p, t.i, q);
    } else {
      ParseStrIff(code, p, t.s, q);
    }
  }

  lemma {:induction false} ParseAllSound(code: seq<Byte>, p: nat, l: seq<Ben>, q: nat)
    requires p <= |code| && ParseAll(code, p) == Some((l, q))
    ensures p < q <= |code| && code[q - 1] == CHAR_E && DenotesAll(code[p..q - 1], l)
    decreases |code| - p, 1
  {
    hide ParseVal, Denotes;
    if code[p] != CHAR_E {
      var (t, m) := ParseVal(code, p).value;
      var rest := ParseAll(code, m).value.0;
      ParseSound(code, p, t, m);
      ParseAllSound(code, m, rest, q);
      SubSlice(code, p, q - 1, 0, m - p);
      SubSlice(code, p, q - 1, m - p, q - 1 - p);
      assert l[0] == t && l[1..] == rest;
    }
  }

  lemma {:induction false} ParseEntriesSound(code: seq<Byte>, p: nat, d: seq<Entry>, q: nat)
    requires p <= |code| && ParseEntries(code, p) == Some((d, q))
    ensures p < q <= |code| && code[q - 1] == CHAR_E && DenotesEntries(code[p..q - 1], d)
    decreases |code| - p, 1
  {
    hide ParseVal, ParseStr, Denotes, DenotesStr;
    if code[p] == CHAR_E {
      assert DenotesEntries(code[p..q - 1], d);
    } else {
      hide DenotesEntries;
      var (key, m) := ParseStr(code, p).value;
      var (t, n) := ParseVal(code, m).value;
      var rest := ParseEntries(code, n).value.0;
      ParseStrIff(code, p, key, m);
      ParseSound(code, m, t, n);
      ParseEntriesSound(code, n, rest, q);
      EntryBefore(code, p, m, n, q - 1, Entry(key, t), rest);
    }
  }

  lemma EntryBefore(code: seq<Byte>, p: nat, m: nat, n: nat, e: nat, x: Entry, rest: seq<Entry>)
    requires p <= m <= n <= e <= |code|
    requires DenotesStr(code[p..m], x.key) && Denotes(code[m..n], x.val) && DenotesEntries(code[n..e], rest)
    ensures DenotesEntries(code[p..e], [x] + rest)
  {
    hide Denotes, DenotesStr, DenotesEntries;
    SubSlice(code, p, e, 0, m - p);
    SubSlice(code, p, e, m - p, n - p);
    SubSlice(code, p, e, n - p, e - p);
    OneMoreEntry(code[p..e], m - p, n - p, x, rest);
  }

  // ---- everything in the grammar is read

  lemma {:induction false} ParseComplete(code: seq<Byte>, p: nat, t: Ben, q: nat)
    requires p <= q <= |code| && Denotes(code[p..q], t)
    ensures ParseVal(code, p) == Some((t, q))
    decreases t, 0
  {
    hide ParseStr, ParseInt, DenotesStr, DenotesInt, ParseAll, ParseEntries, DenotesAll, DenotesEntries;
    FirstByte(code[p..q], t);
    SubSlice(code, p, q, 0, q - p);
    match t {
      case Str(x) => ParseStrIff(code, p, x, q);
      case Int(i) => ParseIntIff(code, p, i, q);
      case List(l) =>
        SubSlice(code, p, q, 1, q - p - 1);
        ParseAllComplete(code, p + 1, l, q);
      case Dict(d) =>
        SubSlice(code, p, q, 1, q - p - 1);
        ParseEntriesComplete(code, p + 1, d, q);
    }
  }

  lemma FirstElement(code: seq<Byte>, p: nat, e: nat, l: seq<Ben>) returns (m: nat)
    requires p <= e <= |code| && l != [] && DenotesAll(code[p..e], l)
    ensures p < m <= e && code[p] != CHAR_E
    ensures Denotes(code[p..m], l[0]) && DenotesAll(code[m..e], l[1..])
  {
    hide Denotes;
    var s := code[p..e];
    var k :| 0 <= k <= |s| && Denotes(s[..k], l[0]) && DenotesAll(s[k..], l[1..]);
    FirstByte(s[..k], l[0]);
    SubSlice(code, p, e, 0, k);
    SubSlice(code, p, e, k, e - p);
    m := p + k;
  }

  lemma {:induction false} ParseAllComplete(code: seq<Byte>, p: nat, l: seq<Ben>, q: nat)
    requires p < q <= |code| && code[q - 1] == CHAR_E && DenotesAll(code[p..q - 1], l)
    ensures ParseAll(code, p) == Some((l, q))
    decreases l, 1
  {
    hide ParseVal, Denotes;
    if l != [] {
      hide DenotesAll;
      var m := FirstElement(code, p, q - 1, l);
      ParseComplete(code, p, l[0], m);
      ParseAllComplete(code, m, l[1..], q);
      assert l == [l[0]] + l[1..];
    }
  }

  lemma FirstEntrySplit(s: seq<Byte>, d: seq<Entry>) returns (j: nat, k: nat)
    requires d != [] && DenotesEntries(s, d)
    ensures 0 < j <= k <= |s| && IsDigit(s[0])
    ensures DenotesStr(s[..j], d[0].key) && Denotes(s[j..k], d[0].val)
    ensures DenotesEntries(s[k..], d[1..])
  {
    hide Denotes, DenotesStr;
    j, k :| 0 <= j <= k <= |s| && DenotesStr(s[..j], d[0].key)
            && Denotes(s[j..k], d[0].val) && DenotesEntries(s[k..], d[1..]);
    StrFirstByte(s[..j], d[0].key);
  }

  lemma FirstEntry(code: seq<Byte>, p: nat, e: nat, d: seq<Entry>) returns (m: nat, n: nat)
    requires p <= e <= |code| && d != [] && DenotesEntries(code[p..e], d)
    ensures p < m <= n <= e && code[p] != CHAR_E
    ensures DenotesStr(code[p..m], d[0].key) && Denotes(code[m..n], d[0].val)
    ensures DenotesEntries(code[n..e], d[1..])
  {
    hide Denotes, DenotesStr, DenotesEntries;
    var j, k := FirstEntrySplit(code[p..e], d);
    SubSlice(code, p, e, 0, j);
    SubSlice(code, p, e, j, k);
    SubSlice(code, p, e, k, e - p);
    m, n := p + j, p + k;
  }

  lemma ReadEntry(code: seq<Byte>, p: nat, m: nat, n: nat, q: nat, e: Entry, rest: seq<Entry>)
    requires p < |code| && code[p] != CHAR_E && m <= |code| && n <= |code|
    requires ParseStr(code, p) == Some((e.key, m)) && ParseVal(code, m) == Some((e.val, n))
    requires ParseEntries(code, n) == Some((rest, q))
    ensures ParseEntries(code, p) == Some(([e] + rest, q))
  {
    hide ParseVal, ParseStr;
    assert e == Entry(e.key, e.val);
  }

  lemma {:induction false} ParseEntriesComplete(code: seq<Byte>, p: nat, d: seq<Entry>, q: nat)
    requires p < q <= |code| && code[q - 1] == CHAR_E && DenotesEntries(code[p..q - 1], d)
    ensures ParseEntries(code, p) == Some((d, q))
    decreases d, 1
  {
    hide ParseVal, ParseStr, Denotes, DenotesStr;
    if d != [] {
      hide DenotesEntries, ParseEntries;
      var m, n := FirstEntry(code, p, q - 1, d);
      ParseStrIff(code, p, d[0].key, m);
      ParseComplete(code, m, d[0].val, n);
      ParseEntriesComplete(code, n, d[1..], q);
      assert d == [d[0]] + d[1..];
      ReadEntry(code, p, m, n, q, d[0], d[1..]);
    }
  }

  /** Reading a tree between two positions is the same as that stretch being its encoding: the
      grammar is unambiguous and no encoding is a proper prefix of another. */
  lemma ParseIff(code: seq<Byte>, p: nat, t: Ben, q: nat)
    requires p <= |code|
    ensures ParseVal(code, p) == Some((t, q)) <==> p <= q <= |code| && Denotes(code[p..q], t)
  {
    if ParseVal(code, p) == Some((t, q)) {
      ParseSound(code, p, t, q);
    }
    if p <= q <= |code| && Denotes(code[p..q], t) {
      ParseComplete(code, p, t, q);
    }
  }

  // ---- what is written is in the grammar

  lemma {:induction false} NumberOfDecimal(n: nat)
    ensures Number(Decimal(n)) == n
  {
    if n >= 10 {
      NumberOfDecimal(n / 10);
      var s := Decimal(n);
      assert s[..|s| - 1] == Decimal(n / 10);
    } else {
      assert [ZERO + n][..0] == [];
    }
  }

  function Pow10(k: nat): (p: nat)
    ensures p > 0
  {
    if k == 0 then 1 else 10 * Pow10(k - 1)
  }

  lemma {:induction false} DecimalLength(n: nat, k: nat)
    requires k > 0 && n < Pow10(k)
    ensures |Decimal(n)| <= k
  {
    if n >= 10 {
      assert k > 1;
      DecimalLength(n / 10, k - 1);
    }
  }

  lemma EncStrDenotes(x: seq<Byte>)
    requires GoodString(x)
    ensures DenotesStr(EncStr(x), x)
  {
    var n := Decimal(|x|);
    NumberOfDecimal(|x|);
    assert Pow10(8) == 100_000_000;
    DecimalLength(|x|, 8);
    var s := EncStr(x);
    assert s[..|n|] == n && s[|n| + 1..] == x;
    assert StrSplit(s, x, |n|);
  }

  lemma EncIntDenotes(i: int)
    requires -INT_MAXSIZE <= i <= INT_MAXSIZE
    ensures DenotesInt(EncInt(i), i)
  {
    var m := if i < 0 then -i else i;
    var n := Decimal(m);
    NumberOfDecimal(m);
    assert Pow10(6) == 1_000_000;
    assert Pow10(12) == 1_000_000_000_000;
    assert Pow10(19) == 10_000_000_000_000_000_000;
    DecimalLength(m, 19);
    var s := EncInt(i);
    assert IntDigits(s) == n;
  }

  lemma {:induction false} EncDenotes(t: Ben)
    requires WellFormedTree(t)
    ensures Denotes(Enc(t), t)
    decreases t, 0
  {
    match t {
      case Str(x) => EncStrDenotes(x);
      case Int(i) => EncIntDenotes(i);
      case List(l) =>
        EncAllDenotes(l);
        assert Enc(t)[1..|Enc(t)| - 1] == EncAll(l);
      case Dict(d) =>
        EncEntriesDenotes(d);
        assert Enc(t)[1..|Enc(t)| - 1] == EncEntries(d);
    }
  }

  lemma {:induction false} EncAllDenotes(l: seq<Ben>)
    requires forall k :: 0 <= k < |l| ==> WellFormedTree(l[k])
    ensures DenotesAll(EncAll(l), l)
    decreases l, 1
  {
    if l != [] {
      EncDenotes(l[0]);
      EncAllDenotes(l[1..]);
      var s, k := EncAll(l), |Enc(l[0])|;
      assert s[..k] == Enc(l[0]) && s[k..] == EncAll(l[1..]);
    }
  }

  lemma {:induction false} EncEntriesDenotes(d: seq<Entry>)
    requires forall k :: 0 <= k < |d| ==> GoodString(d[k].key) && WellFormedTree(d[k].val)
    ensures DenotesEntries(EncEntries(d), d)
    decreases d, 1
  {
    if d != [] {
      EncStrDenotes(d[0].key);
      EncDenotes(d[0].val);
      EncEntriesDenotes(d[1..]);
      var s, j := EncEntries(d), |EncStr(d[0].key)|;
      var k := j + |Enc(d[0].val)|;
      assert s[..j] == EncStr(d[0].key) && s[j..k] == Enc(d[0].val) && s[k..] == EncEntries(d[1..]);
    }
  }

  // ---- round trips

  /** Reading an encoding followed by anything gives the tree back, with the cursor at its end. */
  lemma RoundTrip(t: Ben, suffix: seq<Byte>)
    requires WellFormedTree(t)
    ensures ParseVal(Enc(t) + suffix, 0) == Some((t, |Enc(t)|))
  {
    EncDenotes(t);
    assert (Enc(t) + suffix)[0..|Enc(t)|] == Enc(t);
    ParseComplete(Enc(t) + suffix, 0, t, |Enc(t)|);
  }

  /** Two trees, one of whose encodings is a prefix of the other, are the same tree. */
  lemma PrefixFree(t: Ben, u: Ben)
    requires WellFormedTree(t) && WellFormedTree(u) && Enc(t) <= Enc(u)
    ensures t == u
  {
    RoundTrip(t, Enc(u)[|Enc(t)|..]);
    RoundTrip(u, []);
    assert Enc(t) + Enc(u)[|Enc(t)|..] == Enc(u) == Enc(u) + [];
  }

  lemma {:induction false} ParsedWellFormed(code: seq<Byte>, p: nat)
    requires p <= |code| && ParseVal(code, p).Some?
    ensures WellFormedTree(ParseVal(code, p).value.0)
    decreases |code| - p, 0
  {
    if code[p] == CHAR_D {
      ParsedEntriesWellFormed(code, p + 1);
    } else if code[p] == CHAR_L {
      ParsedAllWellFormed(code, p + 1);
    }
  }

  lemma {:induction false} ParsedAllWellFormed(code: seq<Byte>, p: nat)
    requires p <= |code| && ParseAll(code, p).Some?
    ensures var l := ParseAll(code, p).value.0;
            forall k :: 0 <= k < |l| ==> WellFormedTree(l[k])
    decreases |code| - p, 1
  {
    if code[p] != CHAR_E {
      ParsedWellFormed(code, p);
      ParsedAllWellFormed(code, ParseVal(code, p).value.1);
    }
  }

  lemma {:induction false} ParsedEntriesWellFormed(code: seq<Byte>, p: nat)
    requires p <= |code| && ParseEntries(code, p).Some?
    ensures var d := ParseEntries(code, p).value.0;
            forall k :: 0 <= k < |d| ==> GoodString(d[k].key) && WellFormedTree(d[k].val)
    decreases |code| - p, 1
  {
    if code[p] != CHAR_E {
      var (key, m) := ParseStr(code, p).value;
      var (t, q) := ParseVal(code, m).value;
      ParsedWellFormed(code, m);
      ParsedEntriesWellFormed(code, q);
    }
  }

  /** Whatever was read, writing it out and reading it again changes nothing more: the rewritten
      bytes are a normal form. */
  lemma Normalise(code: seq<Byte>)
    requires ParseVal(code, 0).Some?
    ensures var t := ParseVal(code, 0).value.0;
            WellFormedTree(t) && ParseVal(Enc(t), 0) == Some((t, |Enc(t)|))
  {
    ParsedWellFormed(code, 0);
    var t := ParseVal(code, 0).value.0;
    RoundTrip(t, []);
    assert Enc(t) + [] == Enc(t);
  }

  /** The round trip works for exactly the trees of non-empty strings of at most 33554432 bytes and
      integers of magnitude at most 2^63 - 1. */
  lemma RoundTripIff(t: Ben, suffix: seq<Byte>)
    ensures ParseVal(Enc(t) + suffix, 0) == Some((t, |Enc(t)|)) <==> WellFormedTree(t)
  {
    hide Enc, ParseVal, WellFormedTree;
    var code := Enc(t) + suffix;
    if WellFormedTree(t) {
      RoundTrip(t, suffix);
    } else if ParseVal(code, 0) == Some((t, |Enc(t)|)) {
      ParsedWellFormed(code, 0);
      assert false;
    }
  }

  // ---- the format in bytes

  /** The dictionary of a to -12 and b to a list of x is written d1:ai-12e1:bl1:xee. */
  lemma EncExample()
    ensures Enc(Dict([Entry([0x61], Int(-12)), Entry([0x62], List([Str([0x78])]))]))
         == [0x64, 0x31, 0x3A, 0x61, 0x69, 0x2D, 0x31, 0x32, 0x65,
             0x31, 0x3A, 0x62, 0x6C, 0x31, 0x3A, 0x78, 0x65, 0x65]
  {
    EncExampleParts();
    hide EncStr, EncInt;
    var x: Ben := Str([0x78]);
    assert Enc(x) == [0x31, 0x3A, 0x78];
    assert [x][1..] == [] && EncAll([x]) == [0x31, 0x3A, 0x78];
    var a, b := Entry([0x61], Int(-12)), Entry([0x62], List([x]));
    assert Enc(b.val) == [0x6C, 0x31, 0x3A, 0x78, 0x65];
    assert [b][1..] == [] && [a, b][1..] == [b];
    assert EncEntries([b]) == EncStr([0x62]) + Enc(b.val);
    assert EncEntries([a, b]) == EncStr([0x61]) + EncInt(-12) + EncEntries([b]);
  }

  lemma EncExampleParts()
    ensures EncStr([0x61]) == [0x31, 0x3A, 0x61] && EncStr([0x62]) == [0x31, 0x3A, 0x62]
    ensures EncStr([0x78]) == [0x31, 0x3A, 0x78] && EncInt(-12) == [0x69, 0x2D, 0x31, 0x32, 0x65]
  {
    assert Decimal(12) == [0x31, 0x32] && Decimal(1) == [0x31];
  }

  /** Strings of 1 to 33554432 bytes and integers of magnitude at most 2^63 - 1 survive a round trip,
      and no others. */
  lemma Limits(x: seq<Byte>, i: int)
    ensures ParseVal(Enc(Str(x)), 0) == Some((Str(x), |Enc(Str(x))|)) <==> 1 <= |x| <= 33554432
    ensures ParseVal(Enc(Int(i)), 0) == Some((Int(i), |Enc(Int(i))|))
        <==> -9223372036854775807 <= i <= 9223372036854775807
  {
    hide Enc, ParseVal;
    RoundTripIff(Str(x), []);
    RoundTripIff(Int(i), []);
    assert Enc(Str(x)) + [] == Enc(Str(x)) && Enc(Int(i)) + [] == Enc(Int(i));
  }

  /** An integer is read from an i, 1 to 19 digits and an e. */
  lemma IntDigitLimit(n: seq<Byte>)
    requires forall k :: 0 <= k < |n| ==> 0x30 <= n[k] <= 0x39
    ensures ParseInt([0x69] + n + [0x65], 0).Some? <==> 1 <= |n| <= 19
  {
    hide Number, RunEnd;
    var c := [0x69] + n + [0x65];
    assert c[1..|n| + 1] == n;
    RunEndIs(c, 1, |n| + 1);
  }

  /** A string is read from 1 to 10 digits, a colon and as many bytes as the digits say. */
  lemma StrDigitLimit(n: seq<Byte>, x: seq<Byte>)
    requires AllDigits(n) && Number(n) == |x|
    ensures ParseStr(n + [0x3A] + x, 0) == Some((x, |n| + 1 + |x|))
        <==> 1 <= |n| <= 10 && 1 <= |x| <= 33554432
  {
    hide *;
    StrPieces(n, x);
    DigitsThenColon(n, x);
    StrAt(n + [0x3A] + x, |n|, x);
  }

  lemma DigitsThenColon(n: seq<Byte>, x: seq<Byte>)
    requires AllDigits(n)
    ensures RunEnd(n + [0x3A] + x, 0) == |n|
  {
    hide RunEnd;
    StrPieces(n, x);
    RunEndIs(n + [0x3A] + x, 0, |n|);
  }

  lemma StrAt(c: seq<Byte>, q: nat, x: seq<Byte>)
    requires RunEnd(c, 0) == q && q < |c| == q + 1 + |x| && c[q] == 0x3A && Number(c[0..q]) == |x|
    requires c[q + 1..q + 1 + |x|] == x
    ensures ParseStr(c, 0) == Some((x, q + 1 + |x|)) <==> 1 <= q <= 10 && 1 <= |x| <= 33554432
  {
    hide Number, RunEnd;
  }

  lemma StrPieces(n: seq<Byte>, x: seq<Byte>)
    ensures var c := n + [0x3A] + x;
            && |c| == |n| + 1 + |x| && c[0..|n|] == n && c[|n|] == 0x3A && c[|n| + 1..|n| + 1 + |x|] == x
            && forall k :: 0 <= k < |n| ==> c[k] == n[k]
  {
  }
}
