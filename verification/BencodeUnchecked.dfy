/** What ben_dec (src/ben.c) does on a buffer that nobody validated, and when validating first is
    enough. */
module BencodeUnchecked {
  import opened Ids
  import opened Options
  import opened Bencode
  import opened BencodeCodec

  /** How a decoding call ends: with a value and the next cursor; by reading behind the buffer; by
      looping on a byte that is neither a digit nor the terminator; by returning NULL; or by
      log_err's exit on an empty string or a NULL element. */
  datatype Outcome<+T> = Done(value: T, next: nat) | Outside | Spins | Null | Exits

  function DecStr(code: seq<Byte>, p: nat): (r: Outcome<seq<Byte>>)
    requires p <= |code|
    ensures r.Done? ==> p < r.next <= |code|
  {
    var q := RunEnd(code, p);
    if q == |code| then Outside
    else if code[q] != COLON then Spins
    else
      var l := Atol(code[p..q]);
      if l <= 0 then Exits
      else if q + 1 + l > |code| then Outside
      else Done(code[q + 1..q + 1 + l], q + 1 + l)
  }

  function DecInt(code: seq<Byte>, p: nat): (r: Outcome<int>)
    requires p < |code|
    ensures r.Done? ==> p < r.next <= |code|
  {
    if p + 1 == |code| then Outside
    else
      var st := IntStart(code, p);
      var q := RunEnd(code, st);
      if q == |code| then Outside
      else if code[q] != CHAR_E then Spins
      else Done(if st == p + 2 then -Atol(code[st..q]) else Atol(code[st..q]), q + 1)
  }

  function DecVal(code: seq<Byte>, p: nat): (r: Outcome<Ben>)
    requires p <= |code|
    ensures r.Done? ==> p < r.next <= |code|
    decreases |code| - p, 0
  {
    if p == |code| then Outside
    else if code[p] == CHAR_D then
      match DecEntries(code, p + 1)
      case Done(d, q) => Done(Dict(d), q)
      case Outside => Outside
      case Spins => Spins
      case _ => Exits
    else if code[p] == CHAR_L then
      match DecAll(code, p + 1)
      case Done(l, q) => Done(List(l), q)
      case Outside => Outside
      case Spins => Spins
      case _ => Exits
    else if code[p] == CHAR_I then
      match DecInt(code, p)
      case Done(i, q) => Done(Int(i), q)
      case Outside => Outside
      case _ => Spins
    else if IsDigit(code[p]) then
      match DecStr(code, p)
      case Done(s, q) => Done(Str(s), q)
      case Outside => Outside
      case Spins => Spins
      case _ => Exits
    else Null
  }

  function DecAll(code: seq<Byte>, p: nat): (r: Outcome<seq<Ben>>)
    requires p <= |code|
    ensures r.Done? ==> p < r.next <= |code|
    decreases |code| - p, 1
  {
    if p == |code| then Outside
    else if code[p] == CHAR_E then Done([], p + 1)
    else
      match DecVal(code, p)
      case Done(t, q) =>
        (match DecAll(code, q)
         case Done(l, e) => Done([t] + l, e)
         case other => other)
      case Outside => Outside
      case Spins => Spins
      case _ => Exits
  }

  function DecEntries(code: seq<Byte>, p: nat): (r: Outcome<seq<Entry>>)
    requires p <= |code|
    ensures r.Done? ==> p < r.next <= |code|
    decreases |code| - p, 1
  {
    if p == |code| then Outside
    else if code[p] == CHAR_E then Done([], p + 1)
    else
      match DecStr(code, p)
      case Done(key, m) =>
        (match DecVal(code, m)
         case Done(t, q) =>
           (match DecEntries(code, q)
            case Done(d, e) => Done([Entry(key, t)] + d, e)
            case other => other)
         case Outside => Outside
         case Spins => Spins
         case _ => Exits)
      case Outside => Outside
      case Spins => Spins
      case _ => Exits
  }

  lemma DecStrAgrees(code: seq<Byte>, p: nat)
    requires p <= |code| && ParseStr(code, p).Some?
    ensures var (s, q) := ParseStr(code, p).value; DecStr(code, p) == Done(s, q)
  {
  }

  lemma {:induction false} DecAgrees(code: seq<Byte>, p: nat)
    requires p <= |code| && ParseVal(code, p).Some?
    ensures var (t, q) := ParseVal(code, p).value; DecVal(code, p) == Done(t, q)
    decreases |code| - p, 0
  {
    hide Number;
    if code[p] == CHAR_D {
      DecEntriesAgrees(code, p + 1);
    } else if code[p] == CHAR_L {
      DecAllAgrees(code, p + 1);
    } else if code[p] != CHAR_I {
      DecStrAgrees(code, p);
    }
  }

  lemma {:induction false} DecAllAgrees(code: seq<Byte>, p: nat)
    requires p <= |code| && ParseAll(code, p).Some?
    ensures var (l, q) := ParseAll(code, p).value; DecAll(code, p) == Done(l, q)
    decreases |code| - p, 1
  {
    hide ParseVal, DecVal;
    if code[p] != CHAR_E {
      DecAgrees(code, p);
      DecAllAgrees(code, ParseVal(code, p).value.1);
    }
  }

  lemma {:induction false} DecEntriesAgrees(code: seq<Byte>, p: nat)
    requires p <= |code| && ParseEntries(code, p).Some?
    ensures var (d, q) := ParseEntries(code, p).value; DecEntries(code, p) == Done(d, q)
    decreases |code| - p, 1
  {
    hide ParseVal, DecVal, ParseStr, DecStr;
    if code[p] != CHAR_E {
      DecStrAgrees(code, p);
      var m := ParseStr(code, p).value.1;
      DecAgrees(code, m);
      DecEntriesAgrees(code, ParseVal(code, m).value.1);
    }
  }

  /** On a buffer that ben_validate accepts, ben_dec stays inside and returns the tree read unless
      the buffer is a bare number or string length that its end cuts off; then it reads behind it. */
  lemma ValidatedDecodesIff(code: seq<Byte>)
    requires Accepts(code, 0)
    ensures DecVal(code, 0).Done? <==> !Unterminated(code, 0)
    ensures Unterminated(code, 0) ==> DecVal(code, 0) == Outside
    ensures !Unterminated(code, 0) ==>
              var (t, q) := ParseVal(code, 0).value; DecVal(code, 0) == Done(t, q)
  {
    if Unterminated(code, 0) {
      UnterminatedRunsOut(code);
    } else {
      DecAgrees(code, 0);
    }
  }

  lemma UnterminatedRunsOut(code: seq<Byte>)
    requires Unterminated(code, 0)
    ensures DecVal(code, 0) == Outside
  {
    hide Number;
  }

  /** A buffer that starts with a dictionary or a list is never cut off unnoticed. */
  lemma ContainersDecode(code: seq<Byte>)
    requires Accepts(code, 0) && (code[0] == CHAR_D || code[0] == CHAR_L)
    ensures DecVal(code, 0).Done?
  {
    ValidatedDecodesIff(code);
  }

  /** The three bytes i12 are accepted, and decoding them reads behind them. */
  lemma CutOffNumber() returns (code: seq<Byte>)
    ensures code == [CHAR_I, 0x31, 0x32] && Accepts(code, 0) && DecVal(code, 0) == Outside
  {
    code := [CHAR_I, 0x31, 0x32];
    assert RunEnd(code, 3) == 3 && RunEnd(code, 2) == 3 && RunEnd(code, 1) == 3;
    ValidatedDecodesIff(code);
  }

  // ---- dictionary lookup

  /** Position of the first entry with a key, |d| if there is none. */
  function KeyIndex(d: seq<Entry>, key: seq<Byte>): (i: nat)
    ensures i <= |d|
    ensures i < |d| ==> d[i].key == key
    ensures forall j :: 0 <= j < i ==> d[j].key != key
  {
    if d == [] then 0 else if d[0].key == key then 0 else 1 + KeyIndex(d[1..], key)
  }

  /** ben_searchDictKey with a string key: the value of the first entry that has it. */
  function SearchDict(t: Ben, key: seq<Byte>): Option<Ben> {
    if !t.Dict? then None
    else
      var i := KeyIndex(t.d, key);
      if i < |t.d| then Some(t.d[i].val) else None
  }

  method SearchDictKey(t: Ben, key: seq<Byte>) returns (v: Option<Ben>)
    ensures v == SearchDict(t, key)
  {
    if !t.Dict? || |t.d| == 0 {
      return None;
    }
    var item := 0;
    while item < |t.d|
      invariant item <= |t.d|
      invariant forall j :: 0 <= j < item ==> t.d[j].key != key
    {
      var thiskey := t.d[item].key;
      if |thiskey| == |key| {
        MemCmpOrdersValues(thiskey, key);
        if MemCmp(thiskey, key) == 0 {
          return Some(t.d[item].val);
        }
      }
      item := item + 1;
    }
    return None;
  }
}
