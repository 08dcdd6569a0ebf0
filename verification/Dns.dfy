/** dns_code_domain and dns_decode_domain (src/masala-dns.c): domain names as dots and as
    length-prefixed labels (section 3.1 of RFC 1035). */
module Dns {
  import opened Ids
  import opened Options
  import opened Buffers

  const DOT: Byte := 0x2E

  /** Size of the buffer a decoded name goes to. */
  const NAME_BUFFER: nat := 256

  /** strchr( name + beg, '.' ): position of the first dot from beg on, |name| if there is none. */
  function NextDot(name: seq<Byte>, beg: nat): (d: nat)
    requires beg <= |name|
    ensures beg <= d <= |name|
    ensures d < |name| ==> name[d] == DOT
    ensures forall k :: beg <= k < d ==> name[k] != DOT
    decreases |name| - beg
  {
    if beg == |name| || name[beg] == DOT then beg else NextDot(name, beg + 1)
  }

  /** The labels from beg on, each behind its length (stored in one byte), and a zero byte. */
  function CodeFrom(name: seq<Byte>, beg: nat): (c: seq<Byte>)
    requires beg <= |name|
    ensures |c| == |name| - beg + 2
    decreases |name| - beg
  {
    var d := NextDot(name, beg);
    [(d - beg) % 256] + name[beg..d] + if d == |name| then [0] else CodeFrom(name, d + 1)
  }

  function Code(name: seq<Byte>): (c: seq<Byte>)
    ensures |c| == |name| + 2
  {
    CodeFrom(name, 0)
  }

  /** The loop of dns_decode_domain at cursor p with out decoded so far: the name and the cursor
      behind the zero byte, or None for its error return. */
  function DecodeFrom(buf: seq<Byte>, size: nat, p: nat, out: seq<Byte>): (r: Option<(seq<Byte>, nat)>)
    requires size < |buf| && p <= size && p == if out == [] then 0 else |out| + 1
    ensures r.Some? ==> |out| <= |r.value.0| && r.value.1 <= size + 1
    ensures r.Some? && |out| < NAME_BUFFER ==> |r.value.0| < NAME_BUFFER
    decreases size - p
  {
    if buf[p] == 0 then Some((out, p + 1))
    else
      var out' := if out != [] then out + [DOT] else out;
      var len := buf[p];
      if |out'| + len >= NAME_BUFFER || |out'| + len >= size then None
      else DecodeFrom(buf, size, p + 1 + len, out' + buf[p + 1..p + 1 + len])
  }

  function Decode(buf: seq<Byte>, size: nat): Option<(seq<Byte>, nat)>
    requires size < |buf|
  {
    DecodeFrom(buf, size, 0, [])
  }

  /** A C string: no NUL inside. */
  predicate NoNul(name: seq<Byte>) {
    forall i :: 0 <= i < |name| ==> name[i] != 0
  }

  /** No label is empty: no dot at either end and no two in a row. */
  predicate NoEmptyLabel(name: seq<Byte>) {
    && name != [] && name[0] != DOT && name[|name| - 1] != DOT
    && forall i :: 0 <= i < |name| - 1 ==> !(name[i] == DOT && name[i + 1] == DOT)
  }

  /** The label that begins here is the first or follows a dot. */
  predicate LabelStart(name: seq<Byte>, beg: nat) {
    beg <= |name| && (beg > 0 ==> name[beg - 1] == DOT)
  }

  /** The part of a name in front of the label that begins at beg. */
  function Before(name: seq<Byte>, beg: nat): seq<Byte>
    requires LabelStart(name, beg)
  {
    if beg == 0 then [] else name[..beg - 1]
  }

  lemma SubSlices(buf: seq<Byte>, p: nat, e: nat, k: nat)
    requires p < p + k <= e <= |buf|
    ensures buf[p..e][1..k] == buf[p + 1..p + k]
    ensures buf[p..e][k..] == buf[p + k..e]
  {
    var s := buf[p..e];
    forall i | 0 <= i < k - 1
      ensures s[1..k][i] == buf[p + 1..p + k][i]
    {
      assert s[1..k][i] == s[i + 1];
    }
    forall i | 0 <= i < e - p - k
      ensures s[k..][i] == buf[p + k..e][i]
    {
      assert s[k..][i] == s[k + i];
    }
  }

  /** Where the pieces of a coded name lie in a buffer. */
  lemma CodedLabel(name: seq<Byte>, buf: seq<Byte>, beg: nat)
    requires beg <= |name| && |name| + 2 <= |buf| && buf[beg..|name| + 2] == CodeFrom(name, beg)
    ensures var d := NextDot(name, beg);
            && buf[beg] == (d - beg) % 256
            && buf[beg + 1..d + 1] == name[beg..d]
            && (d == |name| ==> buf[d + 1] == 0)
            && (d < |name| ==> buf[d + 1..|name| + 2] == CodeFrom(name, d + 1))
  {
    hide CodeFrom, NextDot;
    var d := NextDot(name, beg);
    SubSlices(buf, beg, |name| + 2, d - beg + 1);
    if d == |name| {
      CodeFromLast(name, beg);
      ThreePieces(CodeFrom(name, beg), (d - beg) % 256, name[beg..d], [0]);
      assert buf[d + 1..|name| + 2][0] == buf[d + 1];
    } else {
      CodeFromDot(name, beg);
      ThreePieces(CodeFrom(name, beg), (d - beg) % 256, name[beg..d], CodeFrom(name, d + 1));
    }
    assert buf[beg..|name| + 2][0] == buf[beg];
  }

  lemma ThreePieces(c: seq<Byte>, l: Byte, text: seq<Byte>, rest: seq<Byte>)
    requires c == [l] + text + rest
    ensures c[0] == l && c[1..|text| + 1] == text && c[|text| + 1..] == rest
  {
  }

  /** The decoded part grows by a dot and the label. */
  lemma NextLabel(name: seq<Byte>, beg: nat, d: nat)
    requires LabelStart(name, beg) && beg != 1 && beg <= d <= |name|
    ensures var out := Before(name, beg);
            (if out != [] then out + [DOT] else out) + name[beg..d] == name[..d]
  {
    if beg > 0 {
      assert name[..beg - 1] + [DOT] == name[..beg];
    }
  }

  lemma LabelNotEmpty(name: seq<Byte>, beg: nat)
    requires NoEmptyLabel(name) && LabelStart(name, beg)
    ensures NextDot(name, beg) > beg
  {
  }

  /** One round of the decoding loop over a label that a dot follows. */
  lemma DecodeLabel(name: seq<Byte>, buf: seq<Byte>, size: nat, beg: nat, d: nat)
    requires |name| < NAME_BUFFER && LabelStart(name, beg) && beg != 1
    requires d == NextDot(name, beg) && beg < d < |name|
    requires |name| + 2 <= size < |buf| && buf[beg..|name| + 2] == CodeFrom(name, beg)
    ensures buf[d + 1..|name| + 2] == CodeFrom(name, d + 1)
    ensures |name[..d]| == d && DecodeFrom(buf, size, beg, Before(name, beg)) == DecodeFrom(buf, size, d + 1, name[..d])
  {
    hide CodeFrom, NextDot;
    CodedLabel(name, buf, beg);
    NextLabel(name, beg, d);
  }

  /** The last round: the label reaches to the end of the name. */
  lemma DecodeLast(name: seq<Byte>, buf: seq<Byte>, size: nat, beg: nat)
    requires |name| < NAME_BUFFER && LabelStart(name, beg) && beg != 1
    requires beg < |name| && NextDot(name, beg) == |name|
    requires |name| + 2 <= size < |buf| && buf[beg..|name| + 2] == CodeFrom(name, beg)
    ensures DecodeFrom(buf, size, beg, Before(name, beg)) == Some((name, |name| + 2))
  {
    hide CodeFrom, NextDot;
    CodedLabel(name, buf, beg);
    NextLabel(name, beg, |name|);
    assert name[..|name|] == name;
    assert DecodeFrom(buf, size, |name| + 1, name) == Some((name, |name| + 2));
  }

  lemma {:induction false} DecodesRest(name: seq<Byte>, buf: seq<Byte>, size: nat, beg: nat)
    requires |name| < NAME_BUFFER && NoEmptyLabel(name)
    requires LabelStart(name, beg) && beg != 1
    requires |name| + 2 <= size < |buf| && buf[beg..|name| + 2] == CodeFrom(name, beg)
    ensures DecodeFrom(buf, size, beg, Before(name, beg)) == Some((name, |name| + 2))
    decreases |name| - beg
  {
    hide CodeFrom, NoEmptyLabel, DecodeFrom;
    var d := NextDot(name, beg);
    LabelNotEmpty(name, beg);
    if d < |name| {
      DecodeLabel(name, buf, size, beg, d);
      DecodesRest(name, buf, size, d + 1);
    } else {
      DecodeLast(name, buf, size, beg);
    }
  }

  /** Every label that begins in front of beg has characters. */
  ghost predicate FullBefore(name: seq<Byte>, beg: nat) {
    forall b: nat :: LabelStart(name, b) && b < beg ==> NextDot(name, b) > b
  }

  lemma OneMoreFull(name: seq<Byte>, beg: nat)
    requires LabelStart(name, beg) && FullBefore(name, beg) && NextDot(name, beg) > beg
    ensures FullBefore(name, NextDot(name, beg) + 1)
  {
    forall b: nat | LabelStart(name, b) && b < NextDot(name, beg) + 1
      ensures NextDot(name, b) > b
    {
    }
  }

  /** An empty label reads as the end of the name: decoding stops in front of the coded end. */
  lemma {:induction false} StopsEarly(name: seq<Byte>, buf: seq<Byte>, size: nat, beg: nat)
    requires |name| < NAME_BUFFER && !NoEmptyLabel(name)
    requires LabelStart(name, beg) && beg != 1
    requires FullBefore(name, beg)
    requires |name| + 2 <= size < |buf| && buf[beg..|name| + 2] == CodeFrom(name, beg)
    ensures var r := DecodeFrom(buf, size, beg, Before(name, beg));
            r.Some? && r.value.1 < |name| + 2
    decreases |name| - beg
  {
    hide CodeFrom, NoEmptyLabel, FullBefore, NextDot;
    var d := NextDot(name, beg);
    if d == beg {
      CodedLabel(name, buf, beg);
    } else {
      if d == |name| {
        AllLabelsFull(name, beg);
        assert false;
      }
      hide DecodeFrom;
      DecodeLabel(name, buf, size, beg, d);
      OneMoreFull(name, beg);
      StopsEarly(name, buf, size, d + 1);
    }
  }

  lemma AllLabelsFull(name: seq<Byte>, beg: nat)
    requires LabelStart(name, beg) && beg < |name| && NextDot(name, beg) == |name|
    requires FullBefore(name, beg)
    ensures NoEmptyLabel(name)
  {
    forall i | 0 <= i < |name| - 1
      ensures !(name[i] == DOT && name[i + 1] == DOT)
    {
      assert name[i] == DOT ==> LabelStart(name, i + 1);
    }
    assert LabelStart(name, 0);
  }

  /** Decoding what was coded gives the name back, with the cursor behind its end, exactly for names
      of at most 255 characters without an empty label. */
  lemma CodeDecodeIff(name: seq<Byte>, suffix: seq<Byte>, size: nat)
    requires NoNul(name)
    requires |name| + 2 <= size < |Code(name) + suffix|
    ensures Decode(Code(name) + suffix, size) == Some((name, |name| + 2))
        <==> |name| <= 255 && NoEmptyLabel(name)
  {
    hide NoEmptyLabel;
    var buf := Code(name) + suffix;
    assert buf[0..|name| + 2] == CodeFrom(name, 0);
    if |name| < NAME_BUFFER {
      if NoEmptyLabel(name) {
        DecodesRest(name, buf, size, 0);
      } else {
        StopsEarly(name, buf, size, 0);
      }
    }
  }

  /** foo.bar.com is coded as its three labels, each behind its length, and a zero byte. */
  lemma CodeExample()
    ensures var name := [0x66, 0x6F, 0x6F, 0x2E, 0x62, 0x61, 0x72, 0x2E, 0x63, 0x6F, 0x6D];
            Code(name) == [3, 0x66, 0x6F, 0x6F, 3, 0x62, 0x61, 0x72, 3, 0x63, 0x6F, 0x6D, 0]
  {
    var name: seq<Byte> := [0x66, 0x6F, 0x6F, 0x2E, 0x62, 0x61, 0x72, 0x2E, 0x63, 0x6F, 0x6D];
    FirstDot(name, 0, 3);
    FirstDot(name, 4, 7);
    FirstDot(name, 8, 11);
    assert CodeFrom(name, 8) == [3] + name[8..11] + [0];
    assert CodeFrom(name, 4) == [3] + name[4..7] + CodeFrom(name, 8);
    assert Code(name) == [3] + name[0..3] + CodeFrom(name, 4);
  }

  lemma FirstDot(name: seq<Byte>, beg: nat, d: nat)
    requires beg <= d <= |name| && forall k :: beg <= k < d ==> name[k] != 0x2E
    requires d < |name| ==> name[d] == 0x2E
    ensures NextDot(name, beg) == d
  {
  }

  /** The name a..b comes back as a, with the cursor behind its end. */
  lemma EmptyLabelLost(suffix: seq<Byte>, size: nat)
    requires 6 <= size < 6 + |suffix|
    ensures var name := [0x61, DOT, DOT, 0x62];
            Decode(Code(name) + suffix, size) == Some(([0x61], 3))
  {
    var name: seq<Byte> := [0x61, DOT, DOT, 0x62];
    assert NextDot(name, 0) == 1 && NextDot(name, 2) == 2;
    assert CodeFrom(name, 2) == [0] + [] + CodeFrom(name, 3);
    assert Code(name) == [1] + [0x61] + CodeFrom(name, 2);
    var buf := Code(name) + suffix;
    assert buf[0] == 1 && buf[1] == 0x61 && buf[2] == 0;
    var none: seq<Byte> := [];
    assert none + buf[1..2] == [0x61];
    assert DecodeFrom(buf, size, 0, none) == DecodeFrom(buf, size, 2, none + buf[1..2]);
    assert DecodeFrom(buf, size, 2, [0x61]) == Some(([0x61], 3));
  }

  // ---- the two functions over byte buffers

  /** dns_code_domain: writes the coded name at the cursor and moves the cursor behind it. */
  method CodeDomain(buf: array<Byte>, at: nat, domain: seq<Byte>) returns (at': nat)
    requires at + |domain| + 2 <= buf.Length
    modifies buf
    ensures at' == at + |domain| + 2
    ensures Patched(old(buf[..]), buf[..], at, Code(domain))
  {
    hide Patched, CodeFrom;
    var i := at;
    var beg := 0;
    ghost var was: seq<Byte>, w: seq<Byte> := buf[..], [];
    assert Patched(was, buf[..], at, w) by { NothingPatched(was, at); }
    var pos := StrChr(domain, beg);
    while pos < |domain|
      invariant beg <= pos <= |domain| && pos == NextDot(domain, beg)
      invariant i == at + |w| && |w| == beg && Patched(was, buf[..], at, w)
      invariant w + CodeFrom(domain, beg) == Code(domain)
      decreases |domain| - beg
    {
      var len := pos - beg;
      CodeFromDot(domain, beg);
      assert w + ([len % 256] + domain[beg..pos] + CodeFrom(domain, pos + 1))
          == w + [len % 256] + domain[beg..pos] + CodeFrom(domain, pos + 1);
      i := PutLabel(buf, i, was, at, w, domain[beg..pos]);
      w := w + [len % 256] + domain[beg..pos];
      beg := pos + 1;
      pos := StrChr(domain, beg);
    }
    var len := |domain| - beg;
    CodeFromLast(domain, beg);
    assert w + ([len % 256] + domain[beg..] + [0]) == w + [len % 256] + domain[beg..] + [0];
    i := PutLabel(buf, i, was, at, w, domain[beg..]);
    i := WriteOn(buf, i, was, at, w + [len % 256] + domain[beg..], [0]);
    at' := i;
  }

  /** A length octet and the characters of a label. */
  method PutLabel(buf: array<Byte>, i: nat, ghost was: seq<Byte>, ghost at: nat, ghost w: seq<Byte>, chars: seq<Byte>)
    returns (i': nat)
    requires i == at + |w| && i + 1 + |chars| <= buf.Length && Patched(was, buf[..], at, w)
    modifies buf
    ensures i' == i + 1 + |chars| && Patched(was, buf[..], at, w + [|chars| % 256] + chars)
  {
    hide Patched;
    var len := |chars|;
    i' := WriteOn(buf, i, was, at, w, [len % 256]);
    i' := WriteOn(buf, i', was, at, w + [len % 256], chars);
  }

  method StrChr(name: seq<Byte>, beg: nat) returns (d: nat)
    requires beg <= |name|
    ensures d == NextDot(name, beg)
  {
    d := beg;
    while d < |name| && name[d] != DOT
      invariant beg <= d <= |name| && NextDot(name, beg) == NextDot(name, d)
    {
      d := d + 1;
    }
  }

  lemma NothingPatched(was: seq<Byte>, p: nat)
    requires p <= |was|
    ensures Patched(was, was, p, [])
  {
    assert was == was[..p] + [] + was[p..];
  }

  lemma CodeFromDot(name: seq<Byte>, beg: nat)
    requires beg <= |name| && NextDot(name, beg) < |name|
    ensures var d := NextDot(name, beg);
            CodeFrom(name, beg) == [(d - beg) % 256] + name[beg..d] + CodeFrom(name, d + 1)
  {
    hide NextDot;
  }

  lemma CodeFromLast(name: seq<Byte>, beg: nat)
    requires beg <= |name| && NextDot(name, beg) == |name|
    ensures CodeFrom(name, beg) == [(|name| - beg) % 256] + name[beg..] + [0]
  {
    hide NextDot;
  }

  lemma DecodeStart(buf: seq<Byte>, size: nat)
    requires size < |buf|
    ensures Decode(buf, size) == DecodeFrom(buf, size, 0, [])
  {
  }

  /** dns_decode_domain into a buffer of 256 bytes: the return value is the number of bytes read, or
      -1. One byte behind the counted ones may be looked at. */
  method DecodeDomain(domain: array<Byte>, buf: seq<Byte>, size: nat) returns (n: int)
    requires domain.Length == NAME_BUFFER && size < |buf|
    modifies domain
    ensures match Decode(buf, size)
            case None => n == -1
            case Some((name, q)) =>
              n == q && |name| < NAME_BUFFER && domain[..|name|] == name && domain[|name|] == 0
  {
    hide Decode;
    DecodeStart(buf, size);
    var p, i := 0, 0;
    while buf[p] != 0
      invariant 0 <= i < NAME_BUFFER && 0 <= p <= size && p == if i == 0 then 0 else i + 1
      invariant DecodeFrom(buf, size, p, domain[..i]) == Decode(buf, size)
      decreases size - p
    {
      ghost var out := domain[..i];
      if i != 0 {
        domain[i] := DOT;
        i := i + 1;
      }
      var len := buf[p];
      p := p + 1;
      if i + len >= NAME_BUFFER || i + len >= size {
        return -1;
      }
      ghost var out' := domain[..i];
      assert out' == if out != [] then out + [DOT] else out;
      ghost var was := domain[..];
      i := Write(domain, i, buf[p..p + len]);
      assert domain[..i] == out' + buf[p..p + len] by {
        assert was[..i - len] == out';
      }
      p := p + len;
    }
    domain[i] := 0;
    return p + 1;
  }
}
