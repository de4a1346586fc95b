/**
 * The lower-cased form of a name and its hash, which the cache compares before it compares names.
 */
module NameHash {
  import opened Bytes
  import opened DomainNames

  // ----- The lower-cased form

  /** The labels as they stand in memory, the root octet left out. */
  function Labels(n: Name): (w: seq<byte>)
    ensures |w| == WireLength(n) - 1
  {
    if n == [] then [] else [|n[0]|] + n[0] + Labels(n[1..])
  }

  lemma {:induction false} LabelsThenRoot(n: Name)
    ensures Wire(n) == Labels(n) + [0]
  {
    if n != [] { LabelsThenRoot(n[1..]); }
  }

  lemma {:induction false} LabelsAppend(n: Name, l: Label)
    ensures Labels(n + [l]) == Labels(n) + ([|l|] + l)
  {
    if n == [] {
      assert [l][1..] == [] && Labels([]) == [];
      assert n + [l] == [l];
    } else {
      LabelsAppend(n[1..], l);
      assert (n + [l])[1..] == n[1..] + [l];
      var h, t := [|n[0]|] + n[0], Labels(n[1..]);
      assert h + (t + ([|l|] + l)) == (h + t) + ([|l|] + l);
    }
  }

  lemma LowerAppend(n: Name, l: Label)
    ensures Lower(n + [l]) == Lower(n) + [LowerLabel(l)]
  {
  }

  method CopyLowered(b: seq<byte>, a: nat, result: array<byte>, at: nat, ghost l: Label)
    requires a < |b| && b[a] == |l| && StandsAt(b, a + 1, l) && at + 1 + |l| <= result.Length
    modifies result
    ensures result[..] == Splice(old(result[..]), at, [|l|] + LowerLabel(l))
  {
    var len := b[a];
    ghost var P := result[..];
    result[at] := len;
    for i := 0 to len
      invariant result[at] == len && forall k :: 0 <= k < i ==> result[at + 1 + k] == LowerByte(l[k])
      invariant forall k :: (0 <= k < at || at + 1 + i <= k < result.Length) ==> result[k] == P[k]
    {
      var ac := b[a + 1 + i];
      assert ac == l[i];
      result[at + 1 + i] := LowerByte(ac);
    }
    var t := [|l|] + LowerLabel(l);
    forall k | at <= k < at + |t| ensures result[k] == t[k - at] {
      if k > at { assert t[k - at] == LowerLabel(l)[k - at - 1]; }
    }
  }

  /** Fails for names of more than 256 octets only. */
  method DNSNameToLowerCase(d: seq<byte>, result: array<byte>, ghost n: Name) returns (ok: bool)
    requires Holds(d, 0, n) && result.Length >= MAX_DOMAIN_NAME
    modifies result
    ensures ok <==> WireLength(n) <= MAX_DOMAIN_NAME
    ensures ok ==> |Wire(Lower(n))| == WireLength(n) && result[..] == Splice(old(result[..]), 0, Wire(Lower(n)))
  {
    hide Splice, Labels, Wire, Lower, LowerLabel, WireLength;
    ghost var P := result[..];
    var a: nat := 0;
    ghost var done: Name, u := [], n;
    Start(P);
    while d[a] != 0
      invariant Holds(d, a, u) && n == done + u && a + 1 == WireLength(done) <= MAX_DOMAIN_NAME
      invariant |Labels(Lower(done))| == a && result[..] == Splice(P, 0, Labels(Lower(done)))
      decreases |u|
    {
      ghost var l := u[0];
      Lengths(done, u);
      if a + 1 + d[a] >= MAX_DOMAIN_NAME { return false; }
      CopyLowered(d, a, result, a, l);
      SpliceTwice(P, 0, Labels(Lower(done)), [|l|] + LowerLabel(l));
      LowerAppend(done, l);
      LabelsAppend(Lower(done), LowerLabel(l));
      a := a + 1 + d[a];
      done, u := done + [l], u[1..];
    }
    assert done == n;
    LowerWireLength(n);
    result[a] := 0;
    SpliceTwice(P, 0, Labels(Lower(n)), [0]);
    LabelsThenRoot(Lower(n));
    return true;
  }

  lemma Start(p: seq<byte>)
    ensures Lower([]) == [] && Labels([]) == [] && Splice(p, 0, []) == p && WireLength([]) == 1
  {
  }

  lemma Lengths(done: Name, u: Name)
    requires u != []
    ensures WireLength(done + u) == WireLength(done) + |u[0]| + WireLength(u[1..])
    ensures WireLength(done + [u[0]]) == WireLength(done) + 1 + |u[0]|
    ensures done + u == (done + [u[0]]) + u[1..]
  {
    WireLengthAppend(done, u);
    WireLengthAppend(done, [u[0]]);
    assert [u[0]][1..] == [];
  }

  /** Names compare equal exactly when their lower-cased forms are the same octets. */
  lemma SameIsLoweredEqual(m: Name, n: Name)
    ensures Same(m, n) <==> Wire(Lower(m)) == Wire(Lower(n))
  {
    if Wire(Lower(m)) == Wire(Lower(n)) {
      HoldsIsWire(Wire(Lower(m)), 0, Lower(m));
      HoldsIsWire(Wire(Lower(n)), 0, Lower(n));
      HoldsUnique(Wire(Lower(m)), 0, Lower(m), Lower(n));
    }
  }

  // ----- The hash

  /** Rotation of a 32-bit word to the left by three bits; the two parts share no bit. */
  function RotateLeft3(x: nat): (r: nat)
    requires x < WORD
    ensures r < WORD
  {
    (x * 8) % WORD + x / 0x2000_0000
  }

  function Mix(sum: nat, c0: byte, c1: byte): (r: nat)
    requires sum < WORD
    ensures r < WORD
  {
    var c0: nat := c0;
    RotateLeft3((sum + c0 * 256 + c1) % WORD)
  }

  function MixLast(sum: nat, c0: byte): (r: nat)
    ensures r < WORD
  {
    var c0: nat := c0;
    (sum + c0 * 256) % WORD
  }

  /** The rotation: what leaves at the top comes in at the bottom, so no two words become one. */
  lemma RotationIs(x: nat)
    requires x < WORD
    ensures RotateLeft3(x) % 8 == x / 0x2000_0000 && RotateLeft3(x) / 8 == x % 0x2000_0000
  {
    var hi, lo := x / 0x2000_0000, x % 0x2000_0000;
    assert x * 8 == lo * 8 + hi * WORD;
  }

  /** Octets by pairs, lowered, up to the first zero octet, whatever it stands for in the name. */
  function HashFrom(w: seq<byte>, i: nat, sum: nat): (r: nat)
    requires i <= |w| && sum < WORD
    ensures r < WORD
    decreases |w| - i
  {
    if i < |w| && w[i] != 0 then
      if i + 1 < |w| && w[i + 1] != 0 then HashFrom(w, i + 2, Mix(sum, LowerByte(w[i]), LowerByte(w[i + 1])))
      else MixLast(sum, LowerByte(w[i]))
    else sum
  }

  function NameHashValue(n: Name): (r: nat)
    ensures r < WORD
  {
    HashFrom(Wire(n), 0, 0)
  }

  /** The hash of "aBc.De", whose octets go in by pairs: 3 a, b c, 2 d, and e alone. */
  lemma KnownHash()
    ensures NameHashValue([[97, 66, 99], [68, 101]]) == ((0x0361 * 8 + 0x6263) * 8 + 0x0264) * 8 + 0x6500
  {
    WireOfTwo([97, 66, 99], [68, 101]);
    var w: seq<byte> := [3, 97, 66, 99, 2, 68, 101, 0];
    hide Wire;
    MixedPairs();
    hide Mix, MixLast;
    assert HashFrom(w, 6, 2059744) == 2085600;
    assert HashFrom(w, 4, 256856) == 2085600;
    assert HashFrom(w, 2, 6920) == 2085600;
  }

  lemma WireOfTwo(l: Label, m: Label)
    ensures Wire([l, m]) == [|l|] + l + ([|m|] + m + [0])
  {
    assert [l, m][1..] == [m] && [m][1..] == [];
    assert Wire([m]) == [|m|] + m + [0];
  }

  lemma MixedPairs()
    ensures Mix(0, 3, 97) == 6920 && Mix(6920, 98, 99) == 256856 && Mix(256856, 2, 100) == 2059744
    ensures MixLast(2059744, 101) == 2085600
  {
    SmallMix(0, 3, 97);
    SmallMix(6920, 98, 99);
    SmallMix(256856, 2, 100);
    SmallMix(2059744, 101, 0);
    hide Mix, MixLast;
  }

  /** Before anything is rotated out the hash is a number. */
  lemma SmallMix(sum: nat, c0: byte, c1: byte)
    requires sum < 0x1000_0000
    ensures Mix(sum, c0, c1) == 8 * (sum + 256 * c0 + c1) && MixLast(sum, c0) == sum + 256 * c0
  {
  }

  lemma {:induction false} WireEndsInRoot(n: Name)
    ensures Wire(n)[|Wire(n)| - 1] == 0
  {
    LabelsThenRoot(n);
  }

  method DomainNameHashValue(b: seq<byte>, at: nat, ghost n: Name) returns (sum: nat)
    requires Holds(b, at, n)
    ensures sum == NameHashValue(n)
  {
    ghost var w := Wire(n);
    HoldsIsWire(b, at, n);
    WireEndsInRoot(n);
    assert forall k :: 0 <= k < |w| ==> w[k] == b[at + k];
    sum := 0;
    var c := at;
    while b[c] != 0 && b[c + 1] != 0
      invariant at <= c < at + |w| && sum < WORD
      invariant HashFrom(w, 0, 0) == HashFrom(w, c - at, sum)
      invariant b[c] != 0 ==> c + 1 < at + |w|
      decreases |b| - c
    {
      assert w[c - at] == b[c] && w[c + 1 - at] == b[c + 1];
      sum := Mix(sum, LowerByte(b[c]), LowerByte(b[c + 1]));
      c := c + 2;
      assert w[c - at] == b[c];
    }
    assert w[c - at] == b[c];
    if b[c] != 0 {
      assert w[c + 1 - at] == b[c + 1];
      sum := MixLast(sum, LowerByte(b[c]));
    }
  }

  /** The octets are the same but for case. */
  ghost predicate SameOctets(v: seq<byte>, w: seq<byte>) {
    |v| == |w| && forall k :: 0 <= k < |v| ==> LowerByte(v[k]) == LowerByte(w[k])
  }

  lemma {:induction false} SameWires(m: Name, n: Name)
    requires Same(m, n)
    ensures SameOctets(Wire(m), Wire(n))
    decreases |m|
  {
    assert |Lower(m)| == |Lower(n)|;
    if m != [] {
      SameStep(m, n);
      SameLabels(m[0], n[0]);
      SameWires(m[1..], n[1..]);
      var r, s := Wire(m[1..]), Wire(n[1..]);
      forall k | 0 <= k < |Wire(m)| ensures LowerByte(Wire(m)[k]) == LowerByte(Wire(n)[k]) {
        var at := 1 + |m[0]|;
        if 0 < k < at {
          assert LowerByte(m[0][k - 1]) == LowerByte(n[0][k - 1]);
        } else if k >= at {
          assert LowerByte(r[k - at]) == LowerByte(s[k - at]);
        }
      }
    }
  }

  lemma {:induction false} SameOctetsHash(v: seq<byte>, w: seq<byte>, i: nat, sum: nat)
    requires SameOctets(v, w) && i <= |v| && sum < WORD
    ensures HashFrom(v, i, sum) == HashFrom(w, i, sum)
    decreases |v| - i
  {
    hide Mix, MixLast;
    if i < |v| && v[i] != 0 && i + 1 < |v| && v[i + 1] != 0 {
      SameOctetsHash(v, w, i + 2, Mix(sum, LowerByte(v[i]), LowerByte(v[i + 1])));
    }
  }

  /** The pre-check never misses: names that compare equal have equal hashes. */
  lemma SameNamesSameHash(m: Name, n: Name)
    requires Same(m, n)
    ensures NameHashValue(m) == NameHashValue(n)
  {
    SameWires(m, n);
    SameOctetsHash(Wire(m), Wire(n), 0, 0);
  }
}
