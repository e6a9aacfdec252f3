/** Bytes and the little-endian integer fields of the wire structures (the library runs on
    little-endian ARM, and netlink headers are in host order). */
module Bytes {

  datatype Option<+T> = None | Some(value: T)

  type byte = x: int | 0 <= x < 256
  type u16 = x: int | 0 <= x < 0x1_0000
  type u32 = x: int | 0 <= x < 0x1_0000_0000

  function U16At(b: seq<byte>, i: nat): (v: u16)
    requires i + 2 <= |b|
  {
    b[i] as int + 0x100 * b[i + 1] as int
  }

  function U32At(b: seq<byte>, i: nat): (v: u32)
    requires i + 4 <= |b|
  {
    U16At(b, i) as int + 0x1_0000 * U16At(b, i + 2) as int
  }

  function Le16(v: u16): (b: seq<byte>)
    ensures |b| == 2 && U16At(b, 0) == v
  {
    [v % 0x100, v / 0x100]
  }

  function Le32(v: u32): (b: seq<byte>)
    ensures |b| == 4 && U32At(b, 0) == v
  {
    Le16(v % 0x1_0000) + Le16(v / 0x1_0000)
  }

  lemma U16Le(b: seq<byte>, i: nat)
    requires i + 2 <= |b|
    ensures Le16(U16At(b, i)) == b[i..i + 2]
  {
  }

  function Zeros(n: nat): (z: seq<byte>)
    ensures |z| == n && forall i :: 0 <= i < n ==> z[i] == 0
  {
    seq(n, _ => 0)
  }

  lemma Associate<T>(a: seq<T>, b: seq<T>, c: seq<T>)
    ensures (a + b) + c == a + (b + c)
  {
  }

  lemma SubSlice<T>(s: seq<T>, i: nat, j: nat, x: nat, y: nat)
    requires x <= y && i + y <= j <= |s|
    ensures s[i..j][x..y] == s[i + x..i + y]
  {
    var t, u := s[i..j][x..y], s[i + x..i + y];
    assert forall k :: 0 <= k < |u| ==> t[k] == s[i..j][x + k] == s[i + x + k] == u[k];
  }

  /** The first bytes of a sequence, at most `n` of them. */
  function Upto(s: seq<byte>, n: nat): (t: seq<byte>)
    ensures |t| == if |s| <= n then |s| else n
  {
    if |s| <= n then s else s[..n]
  }

  lemma BlockMoved<T>(a: seq<T>, b: seq<T>, dst: nat, src: nat, n: nat)
    requires |a| == |b| && dst <= src && src + n <= |a|
    requires forall k :: 0 <= k < dst || dst + n <= k < |a| ==> b[k] == a[k]
    requires forall k :: dst <= k < dst + n ==> b[k] == a[k + (src - dst)]
    ensures b[..dst] == a[..dst] && b[dst..dst + n] == a[src..src + n] && b[dst + n..] == a[dst + n..]
  {
    var x, y := b[dst..dst + n], a[src..src + n];
    assert forall k :: 0 <= k < n ==> x[k] == b[dst + k] == a[src + k] == y[k];
  }

  lemma BlockPut<T>(a: seq<T>, b: seq<T>, dst: nat, s: seq<T>)
    requires |a| == |b| && dst + |s| <= |a|
    requires forall k :: 0 <= k < dst || dst + |s| <= k < |a| ==> b[k] == a[k]
    requires forall k :: dst <= k < dst + |s| ==> b[k] == s[k - dst]
    ensures b[..dst] == a[..dst] && b[dst..dst + |s|] == s && b[dst + |s|..] == a[dst + |s|..]
  {
    var x := b[dst..dst + |s|];
    assert forall k :: 0 <= k < |s| ==> x[k] == b[dst + k] == s[k];
  }

  /** memcpy inside one buffer towards lower addresses, byte by byte upwards. */
  method CopyDown(buf: array<byte>, dst: nat, src: nat, n: nat)
    requires dst <= src && src + n <= buf.Length
    modifies buf
    ensures buf[..dst] == old(buf[..dst])
    ensures buf[dst..dst + n] == old(buf[src..src + n])
    ensures buf[dst + n..] == old(buf[dst + n..])
  {
    var i := 0;
    while i < n
      invariant i <= n
      invariant forall k :: 0 <= k < dst || dst + i <= k < buf.Length ==> buf[k] == old(buf[k])
      invariant forall k :: dst <= k < dst + i ==> buf[k] == old(buf[..])[k + (src - dst)]
    {
      buf[dst + i] := buf[src + i];
      i := i + 1;
    }
    BlockMoved(old(buf[..]), buf[..], dst, src, n);
  }

  /** memcpy of a whole block into a buffer. */
  method CopyIn<T>(buf: array<T>, dst: nat, s: seq<T>)
    requires dst + |s| <= buf.Length
    modifies buf
    ensures buf[..dst] == old(buf[..dst])
    ensures buf[dst..dst + |s|] == s
    ensures buf[dst + |s|..] == old(buf[dst + |s|..])
  {
    var i := 0;
    while i < |s|
      invariant i <= |s|
      invariant forall k :: 0 <= k < dst || dst + i <= k < buf.Length ==> buf[k] == old(buf[k])
      invariant forall k :: dst <= k < dst + i ==> buf[k] == s[k - dst]
    {
      buf[dst + i] := s[i];
      i := i + 1;
    }
    BlockPut(old(buf[..]), buf[..], dst, s);
  }

  // ---------------------------------------------------------------- blocks written one after the other

  function Overwrite<T>(c: seq<T>, k: nat, s: seq<T>): (c': seq<T>)
    requires k + |s| <= |c|
    ensures |c'| == |c|
  {
    c[..k] + s + c[k + |s|..]
  }

  /** `CopyIn`, described on the whole buffer. */
  method CopyOver<T>(buf: array<T>, dst: nat, s: seq<T>)
    requires dst + |s| <= buf.Length
    modifies buf
    ensures buf[..] == Overwrite(old(buf[..]), dst, s)
  {
    ghost var before := buf[..];
    CopyIn(buf, dst, s);
    ghost var after := buf[..];
    assert after == after[..dst] + after[dst..dst + |s|] + after[dst + |s|..];
  }

  lemma OverwriteTwice<T>(c: seq<T>, k: nat, a: seq<T>, b: seq<T>)
    requires k + |a| + |b| <= |c|
    ensures Overwrite(Overwrite(c, k, a), k + |a|, b) == Overwrite(c, k, a + b)
  {
    var c1 := Overwrite(c, k, a);
    assert c1[..k + |a|] == c[..k] + a;
    assert c1[k + |a| + |b|..] == c[k + |a| + |b|..];
    assert c[..k] + a + b + c[k + |a| + |b|..] == c[..k] + (a + b) + c[k + |a| + |b|..];
  }

  lemma OverwriteSame<T>(c: seq<T>, k: nat, s: seq<T>)
    requires k + |s| <= |c| && c[k..k + |s|] == s
    ensures Overwrite(c, k, s) == c
  {
    assert c == c[..k] + c[k..k + |s|] + c[k + |s|..];
  }

  lemma OverwriteParts<T>(c: seq<T>, k: nat, s: seq<T>, end: nat)
    requires k + |s| <= end <= |c|
    ensures Overwrite(c, k, s)[..k + |s|] == c[..k] + s
    ensures Overwrite(c, k, s)[k + |s|..end] == c[k + |s|..end]
  {
    var c1 := Overwrite(c, k, s);
    assert c1[..k + |s|] == c[..k] + s;
    assert c1[k + |s|..] == c[k + |s|..];
    SubSlice(c1, k + |s|, |c|, 0, end - k - |s|);
    SubSlice(c, k + |s|, |c|, 0, end - k - |s|);
  }
}
