/**
 * Domain names as they are kept in memory: a run of length-prefixed labels closed by a zero
 * octet, in a 256-octet structure.  A `Name` is the list of its labels, root label left out.
 */
module DomainNames {
  import opened Bytes

  const MAX_DOMAIN_LABEL := 63
  const MAX_DOMAIN_NAME := 256

  /** A label as a length octet can announce it; only those of at most 63 octets are legal. */
  type Label = s: seq<byte> | 1 <= |s| <= 255 witness [0]

  type Name = seq<Label>

  function Wire(n: Name): (w: seq<byte>)
    ensures |w| == WireLength(n)
  {
    if n == [] then [0] else [|n[0]|] + n[0] + Wire(n[1..])
  }

  function WireLength(n: Name): (len: nat)
    ensures len >= 1
  {
    if n == [] then 1 else 1 + |n[0]| + WireLength(n[1..])
  }

  predicate LabelsValid(n: Name) {
    forall k :: 0 <= k < |n| ==> |n[k]| <= MAX_DOMAIN_LABEL
  }

  lemma NameStep(n: Name)
    requires n != []
    ensures WireLength(n) == 1 + |n[0]| + WireLength(n[1..])
    ensures LabelsValid(n) <==> |n[0]| <= MAX_DOMAIN_LABEL && LabelsValid(n[1..])
    ensures Wire(n) == [|n[0]|] + n[0] + Wire(n[1..])
  {
    assert n == [n[0]] + n[1..];
  }

  /** What section 2.3.4 of RFC 1035 allows, with the root octet counted. */
  predicate Valid(n: Name) {
    LabelsValid(n) && WireLength(n) <= MAX_DOMAIN_NAME
  }

  /** The octets `b`, read from position `i`, spell the name `n`. */
  ghost predicate Holds(b: seq<byte>, i: nat, n: Name)
    decreases |n|
  {
    i < |b| &&
    if n == [] then b[i] == 0 else
      b[i] == |n[0]| && StandsAt(b, i + 1, n[0]) && Holds(b, i + 1 + |n[0]|, n[1..])
  }

  /** Spelling a name is holding its wire form, octet for octet. */
  lemma {:induction false} HoldsIsWire(b: seq<byte>, i: nat, n: Name)
    ensures Holds(b, i, n) <==> StandsAt(b, i, Wire(n))
    decreases |n|
  {
    var w := Wire(n);
    if n != [] {
      var at := i + 1 + |n[0]|;
      var rest := Wire(n[1..]);
      assert w == [|n[0]|] + n[0] + rest;
      HoldsIsWire(b, at, n[1..]);
      if Holds(b, i, n) {
        forall k | i <= k < i + |w| ensures b[k] == w[k - i] {
          if k >= at { assert b[k] == rest[k - at]; }
        }
      }
      if StandsAt(b, i, w) {
        assert b[i] == w[0];
        forall k | i + 1 <= k < at ensures b[k] == n[0][k - i - 1] { assert b[k] == w[k - i]; }
        forall k | at <= k < at + |rest| ensures b[k] == rest[k - at] { assert b[k] == w[k - i]; }
      }
    } else if StandsAt(b, i, w) {
      assert b[i] == w[0];
    }
  }

  /** One buffer position spells one name only. */
  lemma {:induction false} HoldsUnique(b: seq<byte>, i: nat, m: Name, n: Name)
    requires Holds(b, i, m) && Holds(b, i, n)
    ensures m == n
    decreases |m|
  {
    if m != [] {
      forall k | 0 <= k < |m[0]| ensures m[0][k] == n[0][k] {
        assert b[i + 1 + k] == m[0][k];
      }
      assert m[0] == n[0];
      HoldsUnique(b, i + 1 + |m[0]|, m[1..], n[1..]);
      assert m == [m[0]] + m[1..] && n == [n[0]] + n[1..];
    }
  }

  /** Replacing the root octet of `n` by a label and a new root octet appends the label. */
  lemma {:induction false} HoldsAppend(b: seq<byte>, c: seq<byte>, i: nat, n: Name, l: Label, at: nat)
    requires Holds(b, i, n) && at == i + WireLength(n) - 1 && Agree(b, c, at)
    requires at + 1 + |l| < |c| && c[at] == |l| && StandsAt(c, at + 1, l) && c[at + 1 + |l|] == 0
    ensures Holds(c, i, n + [l])
    decreases |n|
  {
    if n == [] {
      assert (n + [l])[1..] == [];
      assert Holds(c, at + 1 + |l|, []);
    } else {
      HoldsAppend(b, c, i + 1 + |n[0]|, n[1..], l, at);
      assert (n + [l])[1..] == n[1..] + [l];
    }
  }

  lemma {:induction false} WireLengthAppend(m: Name, n: Name)
    ensures WireLength(m + n) == WireLength(m) + WireLength(n) - 1
  {
    if m == [] {
      assert m + n == n;
    } else {
      assert (m + n)[1..] == m[1..] + n;
      WireLengthAppend(m[1..], n);
    }
  }

  /** Every suffix of a valid name is a valid name. */
  lemma ValidSuffix(n: Name, k: nat)
    requires Valid(n) && k <= |n|
    ensures Valid(n[k..])
  {
    assert n == n[..k] + n[k..];
    WireLengthAppend(n[..k], n[k..]);
  }

  /** DomainNameLength: the wire length of a valid name, and 257 for every other. */
  method DomainNameLength(b: seq<byte>, at: nat, ghost n: Name) returns (len: nat)
    requires Holds(b, at, n)
    ensures len == if Valid(n) then WireLength(n) else MAX_DOMAIN_NAME + 1
  {
    var src: nat := at;
    ghost var u := n;
    while src < at + MAX_DOMAIN_NAME && b[src] <= MAX_DOMAIN_LABEL
      invariant at <= src && Holds(b, src, u)
      invariant src - at + WireLength(u) == WireLength(n)
      invariant LabelsValid(n) <==> LabelsValid(u)
      decreases |u|
    {
      if b[src] == 0 { return src - at + 1; }
      assert u == [u[0]] + u[1..];
      src := src + 1 + b[src];
      u := u[1..];
    }
    assert src < at + MAX_DOMAIN_NAME ==> u != [] && |u[0]| > MAX_DOMAIN_LABEL;
    return MAX_DOMAIN_NAME + 1;
  }

  // ----- Leading labels

  /** The name without its first `k` labels; the root once they are all gone. */
  function DropLabels(n: Name, k: nat): (r: Name)
    ensures |r| == if k < |n| then |n| - k else 0
  {
    if k < |n| then n[k..] else []
  }

  method CountLabels(b: seq<byte>, at: nat, ghost n: Name) returns (count: nat)
    requires Holds(b, at, n)
    ensures count == |n|
  {
    var ptr: nat := at;
    ghost var u := n;
    count := 0;
    while b[ptr] != 0
      invariant Holds(b, ptr, u) && count + |u| == |n|
      decreases |u|
    {
      ptr := ptr + 1 + b[ptr];
      u := u[1..];
      count := count + 1;
    }
  }

  method SkipLeadingLabels(b: seq<byte>, at: nat, skip: int, ghost n: Name) returns (d: nat)
    requires Holds(b, at, n)
    ensures Holds(b, d, DropLabels(n, if skip < 0 then 0 else skip))
  {
    d := at;
    var left := skip;
    ghost var u := n;
    while left > 0 && b[d] != 0
      invariant Holds(b, d, u)
      invariant left <= skip && (left >= 0 || left == skip)
      invariant skip > 0 ==> u == if skip - left < |n| then n[skip - left..] else []
      invariant skip <= 0 ==> u == n
      decreases left
    {
      d := d + 1 + b[d];
      u := u[1..];
      left := left - 1;
    }
  }

  // ----- Comparing names without regard to case

  function LowerByte(c: byte): byte {
    if 65 <= c <= 90 then c + 32 else c
  }

  function LowerLabel(l: seq<byte>): (r: seq<byte>)
    ensures |r| == |l|
    ensures forall k :: 0 <= k < |l| ==> r[k] == LowerByte(l[k])
  {
    seq(|l|, k requires 0 <= k < |l| => LowerByte(l[k]))
  }

  function Lower(n: Name): (r: Name)
    ensures |r| == |n|
    ensures forall k :: 0 <= k < |n| ==> r[k] == LowerLabel(n[k])
  {
    seq(|n|, k requires 0 <= k < |n| => LowerLabel(n[k]))
  }

  /** The names are equal once every upper-case ASCII letter is lowered. */
  predicate Same(m: Name, n: Name) {
    Lower(m) == Lower(n)
  }

  lemma {:induction false} LowerWireLength(n: Name)
    ensures WireLength(Lower(n)) == WireLength(n)
  {
    if n != [] {
      assert Lower(n)[1..] == Lower(n[1..]);
      LowerWireLength(n[1..]);
    }
  }

  /** Names that compare equal have the same labels' lengths, hence the same wire length. */
  lemma SameWireLength(m: Name, n: Name)
    requires Same(m, n)
    ensures WireLength(m) == WireLength(n) && |m| == |n|
  {
    LowerWireLength(m);
    LowerWireLength(n);
  }

  lemma SameReflexive(n: Name)
    ensures Same(n, n)
  {
  }

  lemma SameStep(m: Name, n: Name)
    requires m != [] && n != []
    ensures Same(m, n) <==> LowerLabel(m[0]) == LowerLabel(n[0]) && Same(m[1..], n[1..])
  {
    assert Lower(m) == [LowerLabel(m[0])] + Lower(m[1..]);
    assert Lower(n) == [LowerLabel(n[0])] + Lower(n[1..]);
  }

  /**
   * The comparison as the code runs it: a malformed first name (a label over 63 octets, or more
   * than 256 octets in all) compares equal to nothing, `off` octets having been passed.
   */
  function Compares(m: Name, n: Name, off: nat): bool {
    if m == [] || n == [] then m == [] && n == [] else
    off + 1 + |m[0]| < MAX_DOMAIN_NAME && |m[0]| <= MAX_DOMAIN_LABEL &&
    LowerLabel(m[0]) == LowerLabel(n[0]) && Compares(m[1..], n[1..], off + 1 + |m[0]|)
  }

  lemma {:induction false} ComparesMeansSame(m: Name, n: Name, off: nat)
    requires off <= 255
    ensures Compares(m, n, off) <==>
              Same(m, n) && (m == [] || (LabelsValid(m) && off + WireLength(m) <= MAX_DOMAIN_NAME))
  {
    if m == [] {
      assert Lower(m) == [];
      assert |Lower(n)| == |n|;
    } else if n == [] {
      assert |Lower(m)| == |m|;
      assert |Lower(n)| == |n|;
    } else {
      SameStep(m, n);
      assert m == [m[0]] + m[1..];
      if off + 1 + |m[0]| < MAX_DOMAIN_NAME {
        ComparesMeansSame(m[1..], n[1..], off + 1 + |m[0]|);
        assert LabelsValid(m) <==> |m[0]| <= MAX_DOMAIN_LABEL && LabelsValid(m[1..]);
      } else {
        assert WireLength(m[1..]) >= 1;
      }
    }
  }

  /** One octet, or the two cases of one letter from A to Z. */
  predicate SameOctet(c: byte, d: byte) {
    c == d || (65 <= c <= 90 && d == c + 32) || (65 <= d <= 90 && c == d + 32)
  }

  /** Labels compare equal if they are of one length and their octets differ in the case of ASCII letters at most. */
  lemma SameLabelMeans(l: seq<byte>, k: seq<byte>)
    ensures LowerLabel(l) == LowerLabel(k) <==>
              |l| == |k| && forall j :: 0 <= j < |l| ==> SameOctet(l[j], k[j])
  {
    SameLabels(l, k);
    if |l| == |k| {
      assert forall j :: 0 <= j < |l| ==> (SameOctet(l[j], k[j]) <==> LowerByte(l[j]) == LowerByte(k[j]));
    }
  }

  /** And so do names, label by label. */
  lemma SameMeans(m: Name, n: Name)
    ensures Same(m, n) <==>
              |m| == |n| &&
              forall k :: 0 <= k < |m| ==>
                            |m[k]| == |n[k]| && forall j :: 0 <= j < |m[k]| ==> SameOctet(m[k][j], n[k][j])
  {
    hide SameOctet, LowerByte;
    forall k | 0 <= k < |m| && |m| == |n| {
      SameLabelMeans(m[k], n[k]);
    }
    if Same(m, n) {
      assert |Lower(m)| == |Lower(n)|;
      assert forall k :: 0 <= k < |m| ==> Lower(m)[k] == Lower(n)[k];
    }
  }

  lemma SameLabels(l: seq<byte>, k: seq<byte>)
    ensures LowerLabel(l) == LowerLabel(k) <==>
              |l| == |k| && forall j :: 0 <= j < |l| ==> LowerByte(l[j]) == LowerByte(k[j])
  {
    if LowerLabel(l) == LowerLabel(k) {
      assert forall j :: 0 <= j < |l| ==> LowerLabel(l)[j] == LowerByte(k[j]);
    }
  }

  method SameDomainLabel(x: seq<byte>, a: nat, y: seq<byte>, b: nat, ghost l: seq<byte>, ghost k: seq<byte>)
    returns (same: bool)
    requires a < |x| && x[a] == |l| && StandsAt(x, a + 1, l)
    requires b < |y| && y[b] == |k| && StandsAt(y, b + 1, k)
    ensures same <==> |l| <= MAX_DOMAIN_LABEL && LowerLabel(l) == LowerLabel(k)
  {
    SameLabels(l, k);
    var len := x[a];
    if len > MAX_DOMAIN_LABEL { return false; }
    if len != y[b] { return false; }
    for i := 0 to len
      invariant forall j :: 0 <= j < i ==> LowerByte(l[j]) == LowerByte(k[j])
    {
      var ac := x[a + 1 + i];
      var bc := y[b + 1 + i];
      assert ac == l[i] && bc == k[i];
      if LowerByte(ac) != LowerByte(bc) { return false; }
    }
    return true;
  }

  /** What stands behind the length octet: the first label's octets, or nothing for the root. */
  ghost function Head(n: Name): seq<byte> {
    if n == [] then [] else n[0]
  }

  method SameDomainName(x: seq<byte>, d1: nat, y: seq<byte>, d2: nat, ghost m: Name, ghost n: Name)
    returns (same: bool)
    requires Holds(x, d1, m) && Holds(y, d2, n)
    ensures same <==> Compares(m, n, 0)
  {
    var a: nat, b: nat := d1, d2;
    ghost var u, v := m, n;
    while x[a] != 0 || y[b] != 0
      invariant d1 <= a && Holds(x, a, u) && Holds(y, b, v)
      invariant Compares(m, n, 0) == Compares(u, v, a - d1)
      decreases |u|
    {
      var len := x[a];
      if a + 1 + len >= d1 + MAX_DOMAIN_NAME { return false; }
      var sameLabel := SameDomainLabel(x, a, y, b, Head(u), Head(v));
      if !sameLabel { return false; }
      assert |LowerLabel(Head(v))| == |Head(v)| == len;
      a := a + 1 + len;
      b := b + 1 + len;
      u, v := u[1..], v[1..];
    }
    return true;
  }
}
