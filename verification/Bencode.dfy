/** Bencode trees, the grammar of their encodings, and the three walks of src/ben.c over it. */
module Bencode {
  import opened Ids
  import opened Options

  // ---- trees

  datatype Entry = Entry(key: seq<Byte>, val: Ben)

  datatype Ben =
    | Str(s: seq<Byte>)
    | Int(i: int)
    | List(l: seq<Ben>)
    | Dict(d: seq<Entry>)

  const STR_MAXLEN: nat := 10
  const STR_MAXSIZE: nat := 33554432
  const INT_MAXLEN: nat := 19
  const INT_MAXSIZE: int := 0x7FFF_FFFF_FFFF_FFFF

  // The characters of the format.
  const CHAR_D: Byte := 0x64
  const CHAR_E: Byte := 0x65
  const CHAR_I: Byte := 0x69
  const CHAR_L: Byte := 0x6C
  const COLON: Byte := 0x3A
  const MINUS: Byte := 0x2D
  const ZERO: Byte := 0x30

  predicate IsDigit(b: Byte) { 0x30 <= b <= 0x39 }

  /** Strings of 1 to STR_MAXSIZE bytes and integers of magnitude at most INT_MAXSIZE throughout. */
  predicate WellFormedTree(t: Ben)
    decreases t, 0
  {
    match t
    case Str(s) => GoodString(s)
    case Int(i) => -INT_MAXSIZE <= i <= INT_MAXSIZE
    case List(l) => forall k :: 0 <= k < |l| ==> WellFormedTree(l[k])
    case Dict(d) => forall k :: 0 <= k < |d| ==> GoodString(d[k].key) && WellFormedTree(d[k].val)
  }

  predicate GoodString(s: seq<Byte>) { 0 < |s| <= STR_MAXSIZE }

  // ---- decimal numbers

  predicate AllDigits(s: seq<Byte>) {
    forall i :: 0 <= i < |s| ==> IsDigit(s[i])
  }

  /** atol on a string of digits, without its saturation. */
  function Number(s: seq<Byte>): nat
    requires AllDigits(s)
  {
    if s == [] then 0 else 10 * Number(s[..|s| - 1]) + (s[|s| - 1] - ZERO)
  }

  /** atol saturates at the largest long int. */
  function Atol(s: seq<Byte>): (n: int)
    requires AllDigits(s)
    ensures 0 <= n <= INT_MAXSIZE
  {
    if Number(s) > INT_MAXSIZE then INT_MAXSIZE else Number(s)
  }

  /** The decimal digits of a number, as printf's %li prints them. */
  function Decimal(n: nat): (s: seq<Byte>)
    ensures |s| > 0 && AllDigits(s)
  {
    if n < 10 then [ZERO + n] else Decimal(n / 10) + [ZERO + n % 10]
  }

  // ---- the grammar

  /** s is the encoding of the string x: its length in decimal digits, a colon, its bytes. */
  ghost predicate DenotesStr(s: seq<Byte>, x: seq<Byte>) {
    && GoodString(x)
    && exists k: nat :: StrSplit(s, x, k)
  }

  predicate StrSplit(s: seq<Byte>, x: seq<Byte>, k: nat) {
    && 1 <= k <= STR_MAXLEN && k < |s| && s[k] == COLON
    && AllDigits(s[..k]) && Number(s[..k]) == |x| && s[k + 1..] == x
  }

  /** s is an encoding of the integer i: an 'i', maybe a minus sign, 1 to 19 digits, an 'e'. A
      magnitude beyond INT_MAXSIZE stands for INT_MAXSIZE. */
  predicate DenotesInt(s: seq<Byte>, i: int) {
    && |s| >= 3 && s[0] == CHAR_I && s[|s| - 1] == CHAR_E
    && var n := IntDigits(s);
       && 1 <= |n| <= INT_MAXLEN && AllDigits(n)
       && i == if s[1] == MINUS then -Atol(n) else Atol(n)
  }

  function IntDigits(s: seq<Byte>): seq<Byte>
    requires |s| >= 3
  {
    s[if s[1] == MINUS then 2 else 1..|s| - 1]
  }

  /** s is an encoding of t. */
  ghost predicate Denotes(s: seq<Byte>, t: Ben)
    decreases t, 0
  {
    match t
    case Str(x) => DenotesStr(s, x)
    case Int(i) => DenotesInt(s, i)
    case List(l) =>
      |s| >= 2 && s[0] == CHAR_L && s[|s| - 1] == CHAR_E && DenotesAll(s[1..|s| - 1], l)
    case Dict(d) =>
      |s| >= 2 && s[0] == CHAR_D && s[|s| - 1] == CHAR_E && DenotesEntries(s[1..|s| - 1], d)
  }

  /** s is the concatenation of encodings of the elements of l. */
  ghost predicate DenotesAll(s: seq<Byte>, l: seq<Ben>)
    decreases l, 1
  {
    if l == [] then s == []
    else exists k :: 0 <= k <= |s| && Denotes(s[..k], l[0]) && DenotesAll(s[k..], l[1..])
  }

  /** s is the concatenation of encodings of keys and values. */
  ghost predicate DenotesEntries(s: seq<Byte>, d: seq<Entry>)
    decreases d, 1
  {
    if d == [] then s == []
    else exists j, k :: 0 <= j <= k <= |s| && DenotesStr(s[..j], d[0].key)
                        && Denotes(s[j..k], d[0].val) && DenotesEntries(s[k..], d[1..])
  }

  // ---- reading

  /** The end of the run of digits that starts at p. */
  function RunEnd(code: seq<Byte>, p: nat): (q: nat)
    requires p <= |code|
    ensures p <= q <= |code|
    ensures AllDigits(code[p..q])
    ensures q < |code| ==> !IsDigit(code[q])
    decreases |code| - p
  {
    if p < |code| && IsDigit(code[p]) then
      var q := RunEnd(code, p + 1);
      assert code[p..q] == [code[p]] + code[p + 1..q];
      q
    else p
  }

  /** The string at p and the position after it. */
  function ParseStr(code: seq<Byte>, p: nat): (r: Option<(seq<Byte>, nat)>)
    requires p <= |code|
    ensures r.Some? ==> p < r.value.1 <= |code|
  {
    var q := RunEnd(code, p);
    if !(1 <= q - p <= STR_MAXLEN && q < |code| && code[q] == COLON) then None
    else
      var n := Number(code[p..q]);
      if 1 <= n <= STR_MAXSIZE && q + 1 + n <= |code| then
        Some((code[q + 1..q + 1 + n], q + 1 + n))
      else None
  }

  /** Where the digits of the integer at p begin. */
  function IntStart(code: seq<Byte>, p: nat): (st: nat)
    requires p < |code|
    ensures p < st <= |code|
  {
    if p + 1 < |code| && code[p + 1] == MINUS then p + 2 else p + 1
  }

  function ParseInt(code: seq<Byte>, p: nat): (r: Option<(int, nat)>)
    requires p < |code|
    ensures r.Some? ==> p < r.value.1 <= |code|
  {
    var st := IntStart(code, p);
    var q := RunEnd(code, st);
    if !(1 <= q - st <= INT_MAXLEN && q < |code| && code[q] == CHAR_E) then None
    else
      var n := Atol(code[st..q]);
      Some((if st == p + 2 then -n else n, q + 1))
  }

  /** The tree at p and the position after it. */
  function ParseVal(code: seq<Byte>, p: nat): (r: Option<(Ben, nat)>)
    requires p <= |code|
    ensures r.Some? ==> p < r.value.1 <= |code|
    decreases |code| - p, 0
  {
    if p == |code| then None
    else if code[p] == CHAR_D then
      match ParseEntries(code, p + 1)
      case None => None
      case Some((d, q)) => Some((Dict(d), q))
    else if code[p] == CHAR_L then
      match ParseAll(code, p + 1)
      case None => None
      case Some((l, q)) => Some((List(l), q))
    else if code[p] == CHAR_I then
      match ParseInt(code, p)
      case None => None
      case Some((i, q)) => Some((Int(i), q))
    else if IsDigit(code[p]) then
      match ParseStr(code, p)
      case None => None
      case Some((s, q)) => Some((Str(s), q))
    else None
  }

  /** Trees up to an 'e'. */
  function ParseAll(code: seq<Byte>, p: nat): (r: Option<(seq<Ben>, nat)>)
    requires p <= |code|
    ensures r.Some? ==> p < r.value.1 <= |code|
    decreases |code| - p, 1
  {
    if p == |code| then None
    else if code[p] == CHAR_E then Some(([], p + 1))
    else
      match ParseVal(code, p)
      case None => None
      case Some((t, q)) =>
        match ParseAll(code, q)
        case None => None
        case Some((l, e)) => Some(([t] + l, e))
  }

  /** Keys and trees up to an 'e'. */
  function ParseEntries(code: seq<Byte>, p: nat): (r: Option<(seq<Entry>, nat)>)
    requires p <= |code|
    ensures r.Some? ==> p < r.value.1 <= |code|
    decreases |code| - p, 1
  {
    if p == |code| then None
    else if code[p] == CHAR_E then Some(([], p + 1))
    else
      match ParseStr(code, p)
      case None => None
      case Some((key, m)) =>
        match ParseVal(code, m)
        case None => None
        case Some((t, q)) =>
          match ParseEntries(code, q)
          case None => None
          case Some((d, e)) => Some(([Entry(key, t)] + d, e))
  }

  /** A run of digits at p, or an integer at p, that the end of the buffer cuts off before its
      terminator. */
  predicate Unterminated(code: seq<Byte>, p: nat)
    requires p <= |code|
  {
    && p < |code|
    && (IsDigit(code[p]) || code[p] == CHAR_I)
    && var st := if code[p] == CHAR_I then IntStart(code, p) else p;
       st < |code| && RunEnd(code, st) == |code|
  }

  // ---- writing

  function EncStr(s: seq<Byte>): (c: seq<Byte>)
    ensures |c| > 0
  {
    Decimal(|s|) + [COLON] + s
  }

  function EncInt(i: int): (c: seq<Byte>)
    ensures |c| > 0
  {
    [CHAR_I] + (if i < 0 then [MINUS] + Decimal(-i) else Decimal(i)) + [CHAR_E]
  }

  /** The bytes ben_enc_rec writes for a tree. */
  function Enc(t: Ben): (c: seq<Byte>)
    ensures |c| > 0
    decreases t, 0
  {
    match t
    case Str(s) => EncStr(s)
    case Int(i) => EncInt(i)
    case List(l) => [CHAR_L] + EncAll(l) + [CHAR_E]
    case Dict(d) => [CHAR_D] + EncEntries(d) + [CHAR_E]
  }

  function EncAll(l: seq<Ben>): seq<Byte>
    decreases l, 1
  {
    if l == [] then [] else Enc(l[0]) + EncAll(l[1..])
  }

  function EncEntries(d: seq<Entry>): seq<Byte>
    decreases d, 1
  {
    if d == [] then [] else EncStr(d[0].key) + Enc(d[0].val) + EncEntries(d[1..])
  }
}
