/** ben_validate, ben_dec and ben_enc as the walks over a cursor that they are (src/ben.c). */
module BencodeCodec {
  import opened Ids
  import opened Options
  import opened Bencode
  import opened Buffers

  /** What ben_validate_s accepts at p: a string, or a digit run that the end of the buffer cuts
      off. */
  predicate AcceptsStr(code: seq<Byte>, p: nat)
    requires p <= |code|
  {
    ParseStr(code, p).Some? || (p < |code| && RunEnd(code, p) == |code|)
  }

  predicate AcceptsInt(code: seq<Byte>, p: nat)
    requires p < |code|
  {
    || ParseInt(code, p).Some?
    || (IntStart(code, p) < |code| && RunEnd(code, IntStart(code, p)) == |code|)
  }

  /** What ben_validate_r accepts at p. */
  predicate Accepts(code: seq<Byte>, p: nat)
    requires p <= |code|
  {
    ParseVal(code, p).Some? || Unterminated(code, p)
  }

  /** A digit run, a colon and a length in range stand at start, and the string would end at e. */
  predicate StrHeader(code: seq<Byte>, start: nat, e: nat)
    requires start <= |code|
  {
    var q := RunEnd(code, start);
    && 1 <= q - start <= STR_MAXLEN && q < |code| && code[q] == COLON
    && 1 <= Number(code[start..q]) <= STR_MAXSIZE && e == q + 1 + Number(code[start..q])
  }

  lemma HeaderIsString(code: seq<Byte>, start: nat, e: nat)
    requires start <= |code| && StrHeader(code, start, e)
    ensures AcceptsStr(code, start) <==> e <= |code|
    ensures e <= |code| ==> ParseStr(code, start) == Some((code[RunEnd(code, start) + 1..e], e))
  {
    hide Number;
  }

  /** The run ends where there is no digit. */
  lemma RunStops(code: seq<Byte>, p: nat)
    requires p <= |code|
    ensures p == |code| || !IsDigit(code[p]) ==> RunEnd(code, p) == p
  {
  }

  lemma RunStep(code: seq<Byte>, start: nat, p: nat)
    requires start <= p < |code| && AllDigits(code[start..p]) && IsDigit(code[p])
    ensures RunEnd(code, p) == RunEnd(code, p + 1) && AllDigits(code[start..p + 1])
  {
    assert code[start..p + 1] == code[start..p] + [code[p]];
  }

  predicate GoodIntEnd(code: seq<Byte>, p: nat, q: nat)
    requires p <= q < |code|
  {
    code[q] == CHAR_E && 1 <= q - p <= INT_MAXLEN
  }

  lemma IntRejects(code: seq<Byte>, p: nat)
    requires p < |code|
    ensures var st := IntStart(code, p);
            var q := RunEnd(code, st);
            && (st == |code| ==> !AcceptsInt(code, p))
            && (q == |code| ==> ParseInt(code, p).None?)
            && (st < |code| && q == |code| ==> AcceptsInt(code, p))
            && (q < |code| && !GoodIntEnd(code, st, q) ==> !AcceptsInt(code, p))
            && (q < |code| && GoodIntEnd(code, st, q) ==>
                  AcceptsInt(code, p) && ParseInt(code, p).Some? && ParseInt(code, p).value.1 == q + 1)
  {
  }

  lemma IntReads(code: seq<Byte>, p: nat)
    requires p < |code| && ParseInt(code, p).Some?
    ensures var st := IntStart(code, p);
            var q := RunEnd(code, st);
            && st < q < |code| && code[q] == CHAR_E
            && ParseInt(code, p) == Some((if st == p + 2 then -Atol(code[st..q]) else Atol(code[st..q]), q + 1))
  {
    hide Number, Atol, RunEnd, IntStart;
  }

  class Raw {
    const code: seq<Byte>
    var p: nat

    constructor (code: seq<Byte>)
      ensures this.code == code && p == 0
    {
      this.code := code;
      p := 0;
    }

    // ---- ben_validate

    /** ben_validate_s */
    method ValidateS() returns (ok: bool)
      requires p <= |code|
      modifies this
      ensures ok <==> AcceptsStr(code, old(p))
      ensures ok ==> p == match ParseStr(code, old(p)) case Some((_, q)) => q case None => |code|
    {
      hide Number, ParseStr;
      ghost var start := p;
      StrRejects(code, start);
      if p >= |code| {
        return false;
      }
      var from := p;
      var run := true;
      while p < |code| && run
        invariant from == start <= p && start < |code|
        invariant run ==> p <= |code| && RunEnd(code, start) == RunEnd(code, p) && AllDigits(code[start..p])
        invariant !run ==> StrHeader(code, start, p)
        decreases run, |code| - p
      {
        if IsDigit(code[p]) {
          RunStep(code, start, p);
          p := p + 1;
        } else if code[p] == COLON {
          var i := p - from;
          if i <= 0 || i > STR_MAXLEN {
            return false;
          }
          i := Atol(code[from..p]);
          if i <= 0 || i > STR_MAXSIZE {
            return false;
          }
          p := p + i + 1;
          run := false;
        } else {
          return false;
        }
      }
      if !run {
        HeaderIsString(code, start, p);
      }
      return p <= |code|;
    }

    /** ben_validate_i */
    method ValidateI() returns (ok: bool)
      requires p < |code|
      modifies this
      ensures ok <==> AcceptsInt(code, old(p))
      ensures ok ==> p == match ParseInt(code, old(p)) case Some((_, q)) => q case None => |code|
    {
      hide Number, ParseInt, RunEnd, AcceptsInt;
      ghost var at := p;
      IntRejects(code, at);
      p := p + 1;
      if p >= |code| {
        return false;
      }
      var start := p;
      if code[p] == MINUS {
        p := p + 1;
        start := p;
        if p >= |code| {
          return false;
        }
      }
      var run := true;
      while p < |code| && run
        invariant start <= p <= |code| && start < |code| && start == IntStart(code, at)
        invariant run ==> RunEnd(code, start) == RunEnd(code, p) && AllDigits(code[start..p])
        invariant !run ==> AcceptsInt(code, at) && ParseInt(code, at).Some? && p == ParseInt(code, at).value.1
        decreases run, |code| - p
      {
        RunStops(code, p);
        if IsDigit(code[p]) {
          RunStep(code, start, p);
          p := p + 1;
        } else if code[p] == CHAR_E {
          var i := p - start;
          if i <= 0 || i > INT_MAXLEN {
            return false;
          }
          var result := Atol(code[start..p]);
          if result < 0 || result > INT_MAXSIZE {
            return false;
          }
          p := p + 1;
          run := false;
        } else {
          return false;
        }
      }
      RunStops(code, p);
      return p <= |code|;
    }

    /** ben_validate_r */
    method ValidateR() returns (ok: bool)
      requires p <= |code|
      modifies this
      ensures ok <==> Accepts(code, old(p))
      ensures ok ==> p == match ParseVal(code, old(p)) case Some((_, q)) => q case None => |code|
      decreases |code| - p, 1
    {
      hide ParseStr, ParseInt, ParseAll, ParseEntries;
      if |code| < 1 {
        return false;
      }
      if p >= |code| {
        return false;
      }
      if code[p] == CHAR_D {
        ok := ValidateD();
      } else if code[p] == CHAR_L {
        ok := ValidateL();
      } else if code[p] == CHAR_I {
        ok := ValidateI();
      } else if IsDigit(code[p]) {
        ok := ValidateS();
      } else {
        ok := false;
      }
    }

    /** ben_validate_d */
    method ValidateD() returns (ok: bool)
      requires p < |code|
      modifies this
      ensures ok <==> ParseEntries(code, old(p) + 1).Some?
      ensures ok ==> p == ParseEntries(code, old(p) + 1).value.1
      decreases |code| - p, 0
    {
      hide ParseStr, ParseVal, RunEnd, IntStart;
      ghost var start := p + 1;
      p := p + 1;
      if p >= |code| {
        return false;
      }
      while code[p] != CHAR_E
        invariant start <= p < |code|
        invariant SameEnd(ParseEntries(code, start), ParseEntries(code, p))
        decreases |code| - p
      {
        ghost var at := p;
        ok := ValidateS();
        if !ok {
          return false;
        }
        ok := ValidateR();
        if !ok {
          return false;
        }
        if p >= |code| {
          return false;
        }
      }
      p := p + 1;
      return p <= |code|;
    }

    /** ben_validate_l */
    method ValidateL() returns (ok: bool)
      requires p < |code|
      modifies this
      ensures ok <==> ParseAll(code, old(p) + 1).Some?
      ensures ok ==> p == ParseAll(code, old(p) + 1).value.1
      decreases |code| - p, 0
    {
      hide ParseVal, RunEnd, IntStart;
      ghost var start := p + 1;
      p := p + 1;
      if p >= |code| {
        return false;
      }
      while code[p] != CHAR_E
        invariant start <= p < |code|
        invariant SameEnd(ParseAll(code, start), ParseAll(code, p))
        decreases |code| - p
      {
        ok := ValidateR();
        if !ok {
          return false;
        }
        if p >= |code| {
          return false;
        }
      }
      p := p + 1;
      return p <= |code|;
    }

    // ---- ben_dec: none of these tests the end of the buffer

    /** ben_dec_s */
    method DecS() returns (s: seq<Byte>)
      requires p <= |code| && ParseStr(code, p).Some?
      modifies this
      ensures ParseStr(code, old(p)) == Some((s, p))
    {
      hide Number;
      ghost var at := p;
      var start := p;
      var run := true;
      s := [];
      while run
        invariant start == at
        invariant run ==> at <= p <= RunEnd(code, at) == RunEnd(code, p) && AllDigits(code[at..p])
        invariant !run ==> ParseStr(code, at) == Some((s, p))
        decreases run, |code| - p
      {
        if IsDigit(code[p]) {
          RunStep(code, at, p);
          p := p + 1;
        } else if code[p] == COLON {
          var l := Atol(code[start..p]);
          p := p + 1;
          s := code[p..p + l];
          p := p + l;
          run := false;
        }
      }
    }

    /** ben_dec_i */
    method DecI() returns (result: int)
      requires p < |code| && ParseInt(code, p).Some?
      modifies this
      ensures ParseInt(code, old(p)) == Some((result, p))
    {
      hide Number, RunEnd, ParseInt;
      ghost var at := p;
      IntReads(code, at);
      var prefix := 1;
      p := p + 1;
      var start := p;
      if code[p] == MINUS {
        prefix := -1;
        p := p + 1;
        start := p;
      }
      result := 0;
      var run := true;
      while run
        invariant start == IntStart(code, at) && prefix == if start == at + 2 then -1 else 1
        invariant run ==> start <= p <= RunEnd(code, start) == RunEnd(code, p) && AllDigits(code[start..p])
        invariant !run ==> ParseInt(code, at) == Some((prefix * result, p))
        decreases run, |code| - p
      {
        RunStops(code, p);
        if IsDigit(code[p]) {
          RunStep(code, start, p);
          p := p + 1;
        } else if code[p] == CHAR_E {
          result := Atol(code[start..p]);
          p := p + 1;
          run := false;
        }
      }
      result := prefix * result;
    }

    /** ben_dec_r: after the validator has accepted, every index read is inside the buffer, no case
        is missing, and the cursor stops where the validator's does. */
    method DecR() returns (t: Ben)
      requires p <= |code| && ParseVal(code, p).Some?
      modifies this
      ensures ParseVal(code, old(p)) == Some((t, p))
      decreases |code| - p, 1
    {
      hide ParseStr, ParseInt, ParseAll, ParseEntries;
      if code[p] == CHAR_D {
        t := DecD();
      } else if code[p] == CHAR_L {
        t := DecL();
      } else if code[p] == CHAR_I {
        var i := DecI();
        t := Int(i);
      } else {
        var s := DecS();
        t := Str(s);
      }
    }

    /** ben_dec_d */
    method DecD() returns (t: Ben)
      requires p < |code| && ParseEntries(code, p + 1).Some?
      modifies this
      ensures t.Dict? && ParseEntries(code, old(p) + 1) == Some((t.d, p))
      decreases |code| - p, 0
    {
      hide ParseStr, ParseVal;
      ghost var start := p + 1;
      var dict := [];
      p := p + 1;
      while code[p] != CHAR_E
        invariant start <= p < |code| && ParseEntries(code, p).Some?
        invariant ParseEntries(code, start).value.0 == dict + ParseEntries(code, p).value.0
        invariant ParseEntries(code, start).value.1 == ParseEntries(code, p).value.1
        decreases |code| - p
      {
        var key := DecS();
        var val := DecR();
        ghost var rest := ParseEntries(code, p).value.0;
        assert dict + ([Entry(key, val)] + rest) == (dict + [Entry(key, val)]) + rest;
        dict := dict + [Entry(key, val)];
      }
      assert dict + [] == dict;
      p := p + 1;
      t := Dict(dict);
    }

    /** ben_dec_l */
    method DecL() returns (t: Ben)
      requires p < |code| && ParseAll(code, p + 1).Some?
      modifies this
      ensures t.List? && ParseAll(code, old(p) + 1) == Some((t.l, p))
      decreases |code| - p, 0
    {
      hide ParseVal;
      ghost var start := p + 1;
      var list := [];
      p := p + 1;
      while code[p] != CHAR_E
        invariant start <= p < |code| && ParseAll(code, p).Some?
        invariant ParseAll(code, start).value.0 == list + ParseAll(code, p).value.0
        invariant ParseAll(code, start).value.1 == ParseAll(code, p).value.1
        decreases |code| - p
      {
        var val := DecR();
        ghost var rest := ParseAll(code, p).value.0;
        assert list + ([val] + rest) == (list + [val]) + rest;
        list := list + [val];
      }
      assert list + [] == list;
      p := p + 1;
      t := List(list);
    }
  }

  /** ben_validate */
  method BenValidate(bencode: seq<Byte>) returns (ok: bool)
    ensures ok <==> Accepts(bencode, 0)
  {
    var raw := new Raw(bencode);
    ok := raw.ValidateR();
  }

  /** ben_dec on a buffer that holds a tree at its start. */
  method BenDec(bencode: seq<Byte>) returns (t: Ben)
    requires ParseVal(bencode, 0).Some?
    ensures t == ParseVal(bencode, 0).value.0
  {
    var raw := new Raw(bencode);
    t := raw.DecR();
  }

  // ---- ben_enc

  /** ben_enc_size */
  method EncSize(t: Ben) returns (size: nat)
    ensures size == |Enc(t)|
    decreases t
  {
    size := 0;
    match t {
      case Dict(d) =>
        size := size + 2;
        var i := 0;
        while i < |d|
          invariant 0 <= i <= |d| && size + |EncEntries(d[i..])| == 2 + |EncEntries(d)|
        {
          var k := EncSizeStr(d[i].key);
          var v := EncSize(d[i].val);
          assert d[i..][1..] == d[i + 1..];
          size := size + k + v;
          i := i + 1;
        }
      case List(l) =>
        size := size + 2;
        var i := 0;
        while i < |l|
          invariant 0 <= i <= |l| && size + |EncAll(l[i..])| == 2 + |EncAll(l)|
        {
          var v := EncSize(l[i]);
          assert l[i..][1..] == l[i + 1..];
          size := size + v;
          i := i + 1;
        }
      case Int(i) =>
        size := |EncInt(i)|;
      case Str(s) =>
        size := EncSizeStr(s);
    }
  }

  method EncSizeStr(s: seq<Byte>) returns (size: nat)
    ensures size == |EncStr(s)|
  {
    size := |Decimal(|s|)| + 1 + |s|;
  }

  /** ben_enc_rec: writes the encoding at p, and nothing else. */
  method EncRec(t: Ben, buf: array<Byte>, p: nat) returns (p': nat)
    requires p + |Enc(t)| <= buf.Length
    modifies buf
    ensures p' == p + |Enc(t)| && Patched(old(buf[..]), buf[..], p, Enc(t))
    decreases t, 1
  {
    hide Patched, EncStr, EncInt, EncAll, EncEntries;
    match t {
      case Dict(d) => p' := EncRecDict(d, buf, p);
      case List(l) => p' := EncRecList(l, buf, p);
      case Int(i) => p' := Write(buf, p, EncInt(i));
      case Str(s) => p' := Write(buf, p, EncStr(s));
    }
  }

  /** The branch of ben_enc_rec for dictionaries. */
  method EncRecDict(d: seq<Entry>, buf: array<Byte>, p: nat) returns (p': nat)
    requires p + 2 + |EncEntries(d)| <= buf.Length
    modifies buf
    ensures p' == p + 2 + |EncEntries(d)|
    ensures Patched(old(buf[..]), buf[..], p, [CHAR_D] + EncEntries(d) + [CHAR_E])
    decreases d, 0
  {
    hide Patched, EncStr, Enc, EncEntries;
    EntriesEnd(d);
    ghost var was, w := buf[..], [CHAR_D];
    p' := Write(buf, p, [CHAR_D]);
    var i := 0;
    while i < |d|
      invariant 0 <= i <= |d| && p' == p + |w| && Patched(was, buf[..], p, w)
      invariant w + EncEntries(d[i..]) == [CHAR_D] + EncEntries(d)
    {
      ghost var k, v := EncStr(d[i].key), Enc(d[i].val);
      EntriesMore(d, i, w);
      p' := WriteOn(buf, p', was, p, w, EncStr(d[i].key));
      ghost var mid := buf[..];
      p' := EncRec(d[i].val, buf, p');
      PatchMore(was, mid, buf[..], p, w + k, v);
      w := w + k + v;
      i := i + 1;
    }
    assert w == [CHAR_D] + EncEntries(d);
    p' := WriteOn(buf, p', was, p, w, [CHAR_E]);
  }

  lemma EntriesEnd(d: seq<Entry>)
    ensures EncEntries(d[|d|..]) == []
  {
  }

  lemma EntriesMore(d: seq<Entry>, i: nat, w: seq<Byte>)
    requires i < |d|
    ensures w + EncEntries(d[i..])
         == w + EncStr(d[i].key) + Enc(d[i].val) + EncEntries(d[i + 1..])
  {
    hide EncStr, Enc;
    assert d[i..][1..] == d[i + 1..];
  }

  /** The branch of ben_enc_rec for lists. */
  method EncRecList(l: seq<Ben>, buf: array<Byte>, p: nat) returns (p': nat)
    requires p + 2 + |EncAll(l)| <= buf.Length
    modifies buf
    ensures p' == p + 2 + |EncAll(l)|
    ensures Patched(old(buf[..]), buf[..], p, [CHAR_L] + EncAll(l) + [CHAR_E])
    decreases l, 0
  {
    hide Patched, Enc;
    ghost var was, w := buf[..], [CHAR_L];
    p' := Write(buf, p, [CHAR_L]);
    var i := 0;
    while i < |l|
      invariant 0 <= i <= |l| && p' == p + |w| && Patched(was, buf[..], p, w)
      invariant w + EncAll(l[i..]) == [CHAR_L] + EncAll(l)
    {
      ghost var v := Enc(l[i]);
      assert l[i..][1..] == l[i + 1..];
      assert w + (v + EncAll(l[i + 1..])) == w + v + EncAll(l[i + 1..]);
      ghost var mid := buf[..];
      p' := EncRec(l[i], buf, p');
      PatchMore(was, mid, buf[..], p, w, v);
      w := w + v;
      i := i + 1;
    }
    assert w == [CHAR_L] + EncAll(l);
    p' := WriteOn(buf, p', was, p, w, [CHAR_E]);
  }

  /** ben_enc: exactly ben_enc_size bytes are allocated and exactly these are written. */
  method BenEnc(t: Ben) returns (code: array<Byte>)
    ensures fresh(code) && code[..] == Enc(t)
  {
    var size := EncSize(t);
    code := new Byte[size](i => 0);
    var p := EncRec(t, code, 0);
  }

  /** Two readings fail together and end together. */
  predicate SameEnd<T>(a: Option<(T, nat)>, b: Option<(T, nat)>) {
    a.Some? == b.Some? && (a.Some? ==> a.value.1 == b.value.1)
  }

  predicate GoodHeader(code: seq<Byte>, p: nat, q: nat)
    requires p <= q < |code| && AllDigits(code[p..q])
  {
    code[q] == COLON && 1 <= q - p <= STR_MAXLEN && 1 <= Number(code[p..q]) <= STR_MAXSIZE
  }

  lemma StrRejects(code: seq<Byte>, p: nat)
    requires p <= |code|
    ensures p == |code| ==> !AcceptsStr(code, p)
    ensures RunEnd(code, p) < |code| && !GoodHeader(code, p, RunEnd(code, p)) ==> !AcceptsStr(code, p)
    ensures RunEnd(code, p) == |code| ==> ParseStr(code, p).None?
  {
  }
}
