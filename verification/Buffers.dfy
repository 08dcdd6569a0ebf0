/** Filling an output buffer piece by piece, as memcpy and a moving cursor do. */
module Buffers {
  import opened Ids

  /** now is was with the bytes s written at p. */
  predicate Patched(was: seq<Byte>, now: seq<Byte>, p: nat, s: seq<Byte>) {
    p + |s| <= |was| && now == was[..p] + s + was[p + |s|..]
  }

  lemma PatchMore(was: seq<Byte>, mid: seq<Byte>, now: seq<Byte>, p: nat, s: seq<Byte>, u: seq<Byte>)
    requires Patched(was, mid, p, s) && Patched(mid, now, p + |s|, u)
    ensures Patched(was, now, p, s + u)
  {
    assert mid[..p + |s|] == was[..p] + s;
    assert mid[p + |s| + |u|..] == was[p + |s| + |u|..];
  }

  /** memcpy to a position of the output buffer. */
  method Write(buf: array<Byte>, p: nat, s: seq<Byte>) returns (p': nat)
    requires p + |s| <= buf.Length
    modifies buf
    ensures p' == p + |s| && Patched(old(buf[..]), buf[..], p, s)
  {
    forall i | 0 <= i < |s| {
      buf[p + i] := s[i];
    }
    p' := p + |s|;
  }

  /** Write more bytes behind those that were written from position at on. */
  method WriteOn(buf: array<Byte>, p: nat, ghost was: seq<Byte>, ghost at: nat, ghost w: seq<Byte>, s: seq<Byte>)
    returns (p': nat)
    requires p == at + |w| && p + |s| <= buf.Length && Patched(was, buf[..], at, w)
    modifies buf
    ensures p' == p + |s| && Patched(was, buf[..], at, w + s)
  {
    hide Patched;
    ghost var mid := buf[..];
    p' := Write(buf, p, s);
    PatchMore(was, mid, buf[..], at, w, s);
  }
}
