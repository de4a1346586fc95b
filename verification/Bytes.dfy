/** Octets, the Option type and the one comparison of buffers the other modules share. */
module Bytes {
  type byte = x: int | 0 <= x < 256

  const WORD := 0x1_0000_0000

  /** A 32-bit difference as the signed arithmetic of the machine gives it. */
  function Signed32(v: int): (r: int)
    ensures -0x8000_0000 <= r < 0x8000_0000
  {
    var u := v % WORD;
    if u < 0x8000_0000 then u else u - WORD
  }

  datatype Option<+T> = None | Some(value: T)

  /** The two buffers hold the same octets below position `k`. */
  ghost predicate Agree(p: seq<byte>, q: seq<byte>, k: int) {
    k <= |p| && k <= |q| && forall i :: 0 <= i < k ==> p[i] == q[i]
  }

  /** The octets `bytes` stand in `q` at position `at`. */
  predicate StandsAt(q: seq<byte>, at: nat, bytes: seq<byte>) {
    at + |bytes| <= |q| && forall i :: at <= i < at + |bytes| ==> q[i] == bytes[i - at]
  }

  /** The buffer holds the text `t` closed by a NUL. */
  ghost predicate CString(b: seq<byte>, t: seq<byte>) {
    |t| < |b| && StandsAt(b, 0, t) && b[|t|] == 0 && forall k :: 0 <= k < |t| ==> t[k] != 0
  }

  /** `d` in front of what is still to be written, if that can be written. */
  function Prepend(d: seq<byte>, r: Option<seq<byte>>): Option<seq<byte>> {
    if r.None? then None else Some(d + r.value)
  }

  lemma PrependTwice(d: seq<byte>, t: seq<byte>, r: Option<seq<byte>>)
    ensures Prepend(d, Prepend(t, r)) == Prepend(d + t, r)
    ensures Prepend([], r) == r
  {
    if r.Some? {
      assert d + (t + r.value) == (d + t) + r.value;
      assert [] + r.value == r.value;
    }
  }

  lemma PrependEnds(d: seq<byte>, t: seq<byte>)
    ensures Prepend(d, None) == None && Prepend(d, Some(t)) == Some(d + t)
  {
  }

  lemma AgreeTrans(p: seq<byte>, q: seq<byte>, r: seq<byte>, j: int, k: int)
    requires Agree(p, q, j) && Agree(q, r, k) && j <= k
    ensures Agree(p, r, j)
  {
  }

  lemma StandsStill(p: seq<byte>, q: seq<byte>, at: nat, bytes: seq<byte>)
    requires StandsAt(p, at, bytes) && Agree(p, q, at + |bytes|)
    ensures StandsAt(q, at, bytes)
  {
  }

  /** The `len` octets of `p` from position `i`. */
  function Octets(p: seq<byte>, i: nat, len: nat): (r: seq<byte>)
    requires i + len <= |p|
    ensures |r| == len
    decreases len
  {
    if len == 0 then [] else Octets(p, i, len - 1) + [p[i + len - 1]]
  }

  lemma {:induction false} OctetsAre(p: seq<byte>, i: nat, len: nat)
    requires i + len <= |p|
    ensures StandsAt(p, i, Octets(p, i, len))
    decreases len
  {
    if len > 0 {
      OctetsAre(p, i, len - 1);
    }
  }

  lemma {:induction false} OctetsStand(p: seq<byte>, i: nat, l: seq<byte>)
    requires StandsAt(p, i, l)
    ensures Octets(p, i, |l|) == l
    decreases |l|
  {
    if l != [] {
      OctetsStand(p, i, l[..|l| - 1]);
      assert l == l[..|l| - 1] + [l[|l| - 1]];
    }
  }

  /** Buffer `p` after `bytes` have been stored at position `at`. */
  function Splice(p: seq<byte>, at: nat, bytes: seq<byte>): (q: seq<byte>)
    requires at + |bytes| <= |p|
    ensures |q| == |p|
    ensures Agree(p, q, at) && StandsAt(q, at, bytes)
    ensures forall i :: at + |bytes| <= i < |p| ==> q[i] == p[i]
  {
    p[..at] + bytes + p[at + |bytes|..]
  }

  /** Storing two runs of octets one behind the other is storing their concatenation. */
  lemma SpliceTwice(p: seq<byte>, at: nat, d: seq<byte>, t: seq<byte>)
    requires at + |d| + |t| <= |p|
    ensures Splice(Splice(p, at, d), at + |d|, t) == Splice(p, at, d + t)
  {
  }

  // ----- Numbers, most significant octet first

  function Big16(v: nat): (s: seq<byte>)
    ensures |s| == 2
  {
    [v / 0x100 % 0x100, v % 0x100]
  }

  function Big32(v: nat): (s: seq<byte>)
    ensures |s| == 4
  {
    [v / 0x100_0000 % 0x100, v / 0x1_0000 % 0x100, v / 0x100 % 0x100, v % 0x100]
  }

  function Read16(p: seq<byte>, i: nat): (v: nat)
    requires i + 2 <= |p|
    ensures v < 0x1_0000
  {
    var b0: int := p[i];
    b0 * 0x100 + p[i + 1]
  }

  function Read32(p: seq<byte>, i: nat): (v: nat)
    requires i + 4 <= |p|
    ensures v < WORD
  {
    var b0: int, b1: int, b2: int := p[i], p[i + 1], p[i + 2];
    b0 * 0x100_0000 + b1 * 0x1_0000 + b2 * 0x100 + p[i + 3]
  }

  lemma Read16Is(p: seq<byte>, i: nat, v: nat)
    requires v < 0x1_0000 && StandsAt(p, i, Big16(v))
    ensures Read16(p, i) == v
  {
    var t := Big16(v);
    assert p[i] == t[0] && p[i + 1] == t[1];
  }

  lemma Read32Is(p: seq<byte>, i: nat, v: nat)
    requires v < WORD && StandsAt(p, i, Big32(v))
    ensures Read32(p, i) == v
  {
    OctetsOfNumber(v);
    var t := Big32(v);
    assert p[i] == t[0] && p[i + 1] == t[1] && p[i + 2] == t[2] && p[i + 3] == t[3];
  }

  lemma OctetsOfNumber(v: nat)
    requires v < WORD
    ensures v / 0x100_0000 < 0x100
    ensures v == v % 0x100 + v / 0x100 % 0x100 * 0x100 + v / 0x1_0000 % 0x100 * 0x1_0000 + v / 0x100_0000 * 0x100_0000
  {
    var q1, q2 := v / 0x100, v / 0x100 / 0x100;
    assert v / 0x1_0000 == q2 && v / 0x100_0000 == q2 / 0x100;
    assert v == q1 * 0x100 + v % 0x100 && q1 == q2 * 0x100 + q1 % 0x100;
  }

  /** What stands somewhere in two parts. */
  lemma StandsParts(p: seq<byte>, i: nat, t: seq<byte>, u: seq<byte>)
    requires StandsAt(p, i, t + u)
    ensures StandsAt(p, i, t) && StandsAt(p, i + |t|, u)
  {
    assert forall k :: 0 <= k < |t| ==> p[i + k] == (t + u)[k];
    forall k | i + |t| <= k < i + |t| + |u| ensures p[k] == u[k - i - |t|] {
      assert p[k] == (t + u)[k - i];
    }
  }

  // ----- Characters, and a class several records share

  predicate IsDigit(c: byte) { 48 <= c <= 57 }

  const CLASS_ANY: nat := 255
}
