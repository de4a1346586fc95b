/**
 * The canonical order of names of section 6.1 of RFC 4034, in which the next names of NSEC records
 * are sorted: labels are compared from the right, as lower-cased strings of octets.
 */
module CanonicalOrder {
  import opened Bytes
  import opened DomainNames

  // ----- Lexicographic order over any order

  function Sign(d: int): int {
    if d < 0 then -1 else if d > 0 then 1 else 0
  }

  /** A three-way comparison that is a total order. */
  ghost predicate IsOrder<T(!new)>(c: (T, T) -> int) {
    && (forall x, y :: -1 <= c(x, y) <= 1 && c(x, y) == -c(y, x))
    && (forall x, y :: c(x, y) == 0 <==> x == y)
    && (forall x, y, z :: c(x, y) < 0 && c(y, z) < 0 ==> c(x, z) < 0)
  }

  function Lex<T>(c: (T, T) -> int, a: seq<T>, b: seq<T>): (r: int) {
    if a == [] || b == [] then Sign(|a| - |b|)
    else if c(a[0], b[0]) != 0 then c(a[0], b[0])
    else Lex(c, a[1..], b[1..])
  }

  /** The lists agree below `p`; there `a` ends or has the smaller element. */
  ghost predicate DivergeAt<T>(c: (T, T) -> int, a: seq<T>, b: seq<T>, p: nat) {
    && p <= |a| && p < |b| && a[..p] == b[..p]
    && (p < |a| ==> c(a[p], b[p]) < 0)
  }

  lemma {:induction false} LexDiverges<T(!new)>(c: (T, T) -> int, a: seq<T>, b: seq<T>)
    requires IsOrder(c)
    ensures Lex(c, a, b) < 0 <==> exists p :: DivergeAt(c, a, b, p)
    decreases |a|
  {
    if a == [] {
      if b != [] { assert DivergeAt(c, a, b, 0); }
    } else if b != [] {
      if c(a[0], b[0]) < 0 { assert DivergeAt(c, a, b, 0); }
      LexDiverges(c, a[1..], b[1..]);
      if p: nat :| DivergeAt(c, a, b, p) {
        if p > 0 {
          assert a[0] == a[..p][0] == b[..p][0] == b[0];
          assert a[1..][..p - 1] == a[..p][1..] && b[1..][..p - 1] == b[..p][1..];
          assert DivergeAt(c, a[1..], b[1..], p - 1);
        }
      }
      if c(a[0], b[0]) == 0 && Lex(c, a[1..], b[1..]) < 0 {
        var p: nat :| DivergeAt(c, a[1..], b[1..], p);
        assert a[..p + 1] == [a[0]] + a[1..][..p] && b[..p + 1] == [b[0]] + b[1..][..p];
        assert DivergeAt(c, a, b, p + 1);
      }
    }
  }

  lemma {:induction false} LexOpposite<T(!new)>(c: (T, T) -> int, a: seq<T>, b: seq<T>)
    requires IsOrder(c)
    ensures -1 <= Lex(c, a, b) <= 1 && Lex(c, a, b) == -Lex(c, b, a)
    ensures Lex(c, a, b) == 0 <==> a == b
    decreases |a|
  {
    if a != [] && b != [] {
      LexOpposite(c, a[1..], b[1..]);
      assert a == [a[0]] + a[1..] && b == [b[0]] + b[1..];
    }
  }

  lemma {:induction false} LexTransitive<T(!new)>(c: (T, T) -> int, x: seq<T>, y: seq<T>, z: seq<T>)
    requires IsOrder(c) && Lex(c, x, y) < 0 && Lex(c, y, z) < 0
    ensures Lex(c, x, z) < 0
    decreases |x|
  {
    if x != [] && y != [] && z != [] {
      if c(x[0], y[0]) == 0 && c(y[0], z[0]) == 0 {
        LexTransitive(c, x[1..], y[1..], z[1..]);
      }
    }
  }

  // ----- The order of names

  function OctetOrder(x: byte, y: byte): int {
    Sign(x - y)
  }

  function LabelOrder(x: seq<byte>, y: seq<byte>): int {
    Lex(OctetOrder, x, y)
  }

  /** The name's labels in lower case, from right to left. */
  function Key(n: Name): (r: seq<seq<byte>>)
    ensures |r| == |n| && forall k :: 0 <= k < |n| ==> r[k] == LowerLabel(n[|n| - 1 - k])
  {
    seq(|n|, k requires 0 <= k < |n| => LowerLabel(n[|n| - 1 - k]))
  }

  function NameOrder(m: Name, n: Name): int {
    Lex(LabelOrder, Key(m), Key(n))
  }

  lemma LabelOrderIsOrder()
    ensures IsOrder(OctetOrder) && IsOrder(LabelOrder)
  {
    hide Lex;
    assert IsOrder(OctetOrder);
    forall x, y
      ensures -1 <= LabelOrder(x, y) <= 1 && LabelOrder(x, y) == -LabelOrder(y, x)
      ensures LabelOrder(x, y) == 0 <==> x == y
    {
      LexOpposite(OctetOrder, x, y);
    }
    forall x, y, z | LabelOrder(x, y) < 0 && LabelOrder(y, z) < 0 ensures LabelOrder(x, z) < 0 {
      LexTransitive(OctetOrder, x, y, z);
    }
  }

  /** The three-way comparison is antisymmetric, and zero exactly for names that compare equal. */
  lemma OrderOpposite(m: Name, n: Name)
    ensures -1 <= NameOrder(m, n) <= 1 && NameOrder(m, n) == -NameOrder(n, m)
    ensures NameOrder(m, n) == 0 <==> Same(m, n)
  {
    hide Lex;
    LabelOrderIsOrder();
    LexOpposite(LabelOrder, Key(m), Key(n));
    SameKeys(m, n);
  }

  lemma SameKeys(m: Name, n: Name)
    ensures Key(m) == Key(n) <==> Same(m, n)
  {
    KeyReversesLower(m);
    KeyReversesLower(n);
    hide Key, Lower;
    if Key(m) == Key(n) {
      assert forall k :: 0 <= k < |m| ==> Lower(m)[k] == Lower(n)[k];
    }
    if Same(m, n) {
      assert forall k :: 0 <= k < |m| ==> Key(m)[k] == Key(n)[k];
    }
  }

  lemma KeyReversesLower(n: Name)
    ensures |Key(n)| == |Lower(n)| == |n|
    ensures forall k :: 0 <= k < |n| ==> Key(n)[k] == Lower(n)[|n| - 1 - k]
    ensures forall k :: 0 <= k < |n| ==> Lower(n)[k] == Key(n)[|n| - 1 - k]
  {
    hide LowerLabel;
  }

  lemma OrderTransitive(k: Name, m: Name, n: Name)
    requires NameOrder(k, m) <= 0 && NameOrder(m, n) <= 0
    ensures NameOrder(k, n) <= 0
    ensures NameOrder(k, n) == 0 ==> NameOrder(k, m) == 0 && NameOrder(m, n) == 0
  {
    hide Lex;
    LabelOrderIsOrder();
    LexOpposite(LabelOrder, Key(k), Key(m));
    LexOpposite(LabelOrder, Key(m), Key(n));
    LexOpposite(LabelOrder, Key(k), Key(n));
    if NameOrder(k, m) < 0 && NameOrder(m, n) < 0 {
      LexTransitive(LabelOrder, Key(k), Key(m), Key(n));
    }
  }

  /** What comes first: with `p` labels equal from the right, the name that ends or whose next label does. */
  ghost predicate Before(m: Name, n: Name, p: nat) {
    && p <= |m| && p < |n| && Same(m[|m| - p..], n[|n| - p..])
    && (p < |m| ==> LabelBefore(m[|m| - 1 - p], n[|n| - 1 - p]))
  }

  /** With `j` octets equal but for case, the label that ends or whose next octet is smaller. */
  ghost predicate LabelBefore(l: seq<byte>, k: seq<byte>) {
    exists j :: 0 <= j <= |l| && j < |k| && LowerLabel(l)[..j] == LowerLabel(k)[..j] &&
                (j < |l| ==> LowerByte(l[j]) < LowerByte(k[j]))
  }

  lemma LabelBeforeIs(l: seq<byte>, k: seq<byte>)
    ensures LabelBefore(l, k) <==> LabelOrder(LowerLabel(l), LowerLabel(k)) < 0
  {
    hide Lex;
    LabelOrderIsOrder();
    LexDiverges(OctetOrder, LowerLabel(l), LowerLabel(k));
    if LabelBefore(l, k) {
      var j: nat :| 0 <= j <= |l| && j < |k| && LowerLabel(l)[..j] == LowerLabel(k)[..j] &&
               (j < |l| ==> LowerByte(l[j]) < LowerByte(k[j]));
      assert DivergeAt(OctetOrder, LowerLabel(l), LowerLabel(k), j);
    }
    if j: nat :| DivergeAt(OctetOrder, LowerLabel(l), LowerLabel(k), j) {
      assert LowerLabel(l)[..j] == LowerLabel(k)[..j];
    }
  }

  lemma SuffixIsPrefix(n: Name, p: nat)
    requires p <= |n|
    ensures Key(n)[..p] == Key(n[|n| - p..])
  {
  }

  /** The comparison decides the order of RFC 4034. */
  lemma OrderIsCanonical(m: Name, n: Name)
    ensures NameOrder(m, n) < 0 <==> exists p :: Before(m, n, p)
  {
    hide Lex, LabelOrder, Same, LabelBefore;
    LabelOrderIsOrder();
    var a, b := Key(m), Key(n);
    LexDiverges(LabelOrder, a, b);
    forall p: nat ensures DivergeAt(LabelOrder, a, b, p) <==> Before(m, n, p) {
      if p <= |m| && p < |n| {
        DivergeIsBefore(m, n, p);
      }
    }
  }

  lemma DivergeIsBefore(m: Name, n: Name, p: nat)
    requires p <= |m| && p < |n|
    ensures DivergeAt(LabelOrder, Key(m), Key(n), p) <==> Before(m, n, p)
  {
    hide Lex, LabelOrder, LabelBefore, Same;
    SuffixIsPrefix(m, p);
    SuffixIsPrefix(n, p);
    SameKeys(m[|m| - p..], n[|n| - p..]);
    if p < |m| { LabelBeforeIs(m[|m| - 1 - p], n[|n| - 1 - p]); }
  }

  /** The second name is what is left of the first after at least one leading label. */
  predicate Below(m: Name, n: Name) {
    |m| > |n| && Same(m[|m| - |n|..], n)
  }

  // ----- The code

  /** The comparison of one pair of labels: letters first, then lengths. */
  method CompareLabels(x: seq<byte>, a: nat, y: seq<byte>, b: nat, ghost l: seq<byte>, ghost k: seq<byte>)
    returns (r: int)
    requires a < |x| && x[a] == |l| && StandsAt(x, a + 1, l)
    requires b < |y| && y[b] == |k| && StandsAt(y, b + 1, k)
    ensures r == LabelOrder(LowerLabel(l), LowerLabel(k))
  {
    hide Lex;
    ghost var u, v := LowerLabel(l), LowerLabel(k);
    assert u[0..] == u && v[0..] == v;
    var lena: int, lenb: int := x[a], y[b];
    var len := if lena < lenb then lena else lenb;
    for j := 0 to len
      invariant Lex(OctetOrder, u, v) == Lex(OctetOrder, u[j..], v[j..])
    {
      var ac := x[a + 1 + j];
      var bc := y[b + 1 + j];
      LexStep(OctetOrder, u, v, j);
      assert ac == l[j] && bc == k[j];
      if LowerByte(ac) != LowerByte(bc) {
        return if LowerByte(ac) < LowerByte(bc) then -1 else 1;
      }
    }
    LexStep(OctetOrder, u, v, len);
    if lena - lenb != 0 {
      return if lena < lenb then -1 else 1;
    }
    return 0;
  }

  lemma LexStep<T>(c: (T, T) -> int, a: seq<T>, b: seq<T>, j: nat)
    requires j <= |a| && j <= |b|
    ensures j == |a| || j == |b| ==> Lex(c, a[j..], b[j..]) == Sign(|a| - |b|)
    ensures j < |a| && j < |b| && c(a[j], b[j]) != 0 ==> Lex(c, a[j..], b[j..]) == c(a[j], b[j])
    ensures j < |a| && j < |b| && c(a[j], b[j]) == 0 ==> Lex(c, a[j..], b[j..]) == Lex(c, a[j + 1..], b[j + 1..])
  {
    if j < |a| && j < |b| {
      assert a[j..][1..] == a[j + 1..] && b[j..][1..] == b[j + 1..];
    }
  }

  /** The labels that are left when `skip1` and `skip2` labels are skipped, compared. */
  method CompareLeading(x: seq<byte>, d1: nat, y: seq<byte>, d2: nat, skip1: nat, skip2: nat,
                        ghost m: Name, ghost n: Name)
    returns (r: int)
    requires Holds(x, d1, m) && Holds(y, d2, n) && skip1 < |m| && skip2 < |n|
    ensures r == LabelOrder(LowerLabel(m[skip1]), LowerLabel(n[skip2]))
  {
    hide LabelOrder;
    var a := SkipLeadingLabels(x, d1, skip1, m);
    var b := SkipLeadingLabels(y, d2, skip2, n);
    r := CompareLabels(x, a, y, b, m[skip1], n[skip2]);
  }

  /** The last `p` labels are equal, and the labels before them decide. */
  ghost predicate Undecided(m: Name, n: Name, p: nat) {
    && p <= |m| && p <= |n| && Key(m)[..p] == Key(n)[..p]
    && NameOrder(m, n) == Lex(LabelOrder, Key(m)[p..], Key(n)[p..])
  }

  lemma NothingDecided(m: Name, n: Name)
    ensures Undecided(m, n, 0)
  {
    assert Key(m)[0..] == Key(m) && Key(n)[0..] == Key(n);
  }

  lemma OneMore(m: Name, n: Name, p: nat)
    requires Undecided(m, n, p) && p < |m| && p < |n|
    ensures var r := LabelOrder(LowerLabel(m[|m| - 1 - p]), LowerLabel(n[|n| - 1 - p]));
            if r != 0 then r == NameOrder(m, n) && !Below(m, n) else Undecided(m, n, p + 1)
  {
    hide Lex, LabelOrder, Below;
    var u, v := Key(m), Key(n);
    LexStep(LabelOrder, u, v, p);
    ZeroIfEqual(u[p], v[p]);
    if u[p] != v[p] {
      NotBelow(m, n, p);
    } else {
      assert u[..p + 1] == u[..p] + [u[p]] && v[..p + 1] == v[..p] + [v[p]];
    }
  }

  lemma AllCompared(m: Name, n: Name, p: nat)
    requires Undecided(m, n, p) && p == (if |m| < |n| then |m| else |n|)
    ensures NameOrder(m, n) == Sign(|m| - |n|) && (Below(m, n) <==> |m| > |n|)
  {
    hide Lex, LabelOrder, Below;
    LexStep(LabelOrder, Key(m), Key(n), p);
    AllEqual(m, n, p);
  }

  method DNSSECCanonicalOrder(x: seq<byte>, d1: nat, y: seq<byte>, d2: nat, ghost m: Name, ghost n: Name)
    returns (r: int, subdomain: bool)
    requires Holds(x, d1, m) && Holds(y, d2, n)
    ensures r == NameOrder(m, n) && subdomain == Below(m, n)
  {
    hide Undecided, NameOrder, LabelOrder, Below, Holds;
    var c1 := CountLabels(x, d1, m);
    var c2 := CountLabels(y, d2, n);
    var skip1: int, skip2: int := c1 as int - 1, c2 as int - 1;
    subdomain := false;
    var count := if c1 < c2 then c1 else c2;
    NothingDecided(m, n);
    for i := count downto 0
      invariant skip1 == c1 - 1 - (count - i) && skip2 == c2 - 1 - (count - i)
      invariant Undecided(m, n, count - i)
    {
      OneMore(m, n, count - 1 - i);
      r := CompareLeading(x, d1, y, d2, skip1, skip2, m, n);
      if r != 0 { return; }
      skip1 := skip1 - 1;
      skip2 := skip2 - 1;
    }
    AllCompared(m, n, count);
    if c1 > c2 { subdomain := true; }
    if c1 != c2 {
      r := if c1 < c2 then -1 else 1;
    } else {
      r := 0;
    }
  }

  lemma ZeroIfEqual(l: seq<byte>, k: seq<byte>)
    ensures LabelOrder(l, k) == 0 <==> l == k
  {
    LabelOrderIsOrder();
  }

  lemma NotBelow(m: Name, n: Name, j: nat)
    requires j < |m| && j < |n| && Key(m)[j] != Key(n)[j]
    ensures !Below(m, n)
  {
    if |m| > |n| {
      SuffixIsPrefix(m, |n|);
      SameKeys(m[|m| - |n|..], n);
      assert Key(m)[..|n|][j] == Key(m)[j];
    }
  }

  lemma AllEqual(m: Name, n: Name, p: nat)
    requires p == (if |m| < |n| then |m| else |n|) && Key(m)[..p] == Key(n)[..p]
    ensures Below(m, n) <==> |m| > |n|
  {
    if |m| > |n| {
      SuffixIsPrefix(m, p);
      SuffixIsPrefix(n, p);
      assert n[|n| - p..] == n;
      SameKeys(m[|m| - p..], n);
    }
  }
}
