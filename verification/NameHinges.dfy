/**
 * Which octets the reading of a name hinges on: changing any one of them, to a value that is given
 * here, makes the reading fail or yield another name.
 */
module NameHinges {
  import opened Bytes
  import opened DomainNames
  import opened NameCodec

  /**
   * Reading the name at `i` looks at octet `x`: a length, a label's content, the closing zero, or one
   * of the two octets of a pointer -- the second one counting only where the pointer leads to a label.
   */
  ghost predicate Hinges(p: seq<byte>, i: nat, end: nat, used: nat, x: nat)
    requires i < end < |p| && used < MAX_DOMAIN_NAME
    decreases MAX_DOMAIN_NAME - used, if p[i] >= 0xC0 then 1 else 0
  {
    var len: nat := p[i];
    if x == i || len == 0 then x == i
    else if len < 0x40 then
      i + 1 + len < end && used + 1 + len < MAX_DOMAIN_NAME &&
      (i < x <= i + len || Hinges(p, i + 1 + len, end, used + 1 + len, x))
    else
      len >= 0xC0 && PointerTarget(p, i) < end && p[PointerTarget(p, i)] < 0x40 &&
      if x == i + 1 then p[PointerTarget(p, i)] != 0 else Hinges(p, PointerTarget(p, i), end, used, x)
  }

  /** Where reading succeeds, the three cases of the definition. */
  lemma HingesRoot(p: seq<byte>, i: nat, end: nat, used: nat, x: nat)
    requires i < end < |p| && used < MAX_DOMAIN_NAME && p[i] == 0
    ensures Hinges(p, i, end, used, x) <==> x == i
  {
  }

  lemma HingesLabel(p: seq<byte>, i: nat, end: nat, used: nat, x: nat)
    requires i < end < |p| && used < MAX_DOMAIN_NAME && 0 < p[i] < 0x40 && ReadName(p, i, end, used).Some?
    ensures i + 1 + p[i] < end && used + 1 + p[i] < MAX_DOMAIN_NAME
    ensures ReadName(p, i + 1 + p[i], end, used + 1 + p[i]).Some?
    ensures Hinges(p, i, end, used, x) <==> i <= x <= i + p[i] || Hinges(p, i + 1 + p[i], end, used + 1 + p[i], x)
  {
  }

  lemma HingesPointer(p: seq<byte>, i: nat, end: nat, used: nat, x: nat)
    requires i < end < |p| && used < MAX_DOMAIN_NAME && p[i] >= 0xC0 && ReadName(p, i, end, used).Some?
    ensures var t := PointerTarget(p, i);
            && t < end && p[t] < 0x40 && ReadName(p, t, end, used).Some?
            && ReadName(p, t, end, used).value.0 == ReadName(p, i, end, used).value.0
            && (Hinges(p, i, end, used, x) <==>
                x == i || if x == i + 1 then p[t] != 0 else Hinges(p, t, end, used, x))
  {
  }

  /** Reading fails or yields another name. */
  predicate Differs(r: Option<(Name, nat)>, s: Option<(Name, nat)>)
    requires s.Some?
  {
    r.None? || r.value.0 != s.value.0
  }

  /** A run of equal lengths that is longer than a name can be. */
  lemma {:induction false} RunOfLengths(p: seq<byte>, base: nat, j: nat, end: nat, used: nat)
    requires base <= j < base + 256 <= end < |p| && j - base <= used < MAX_DOMAIN_NAME && 0 < p[base] < 0x40
    requires forall k :: base <= k < base + 256 ==> p[k] == p[base]
    ensures ReadName(p, j, end, used) == None
    decreases base + 256 - j
  {
    var len: nat := p[base];
    if j + 1 + len < end && used + 1 + len < MAX_DOMAIN_NAME {
      RunOfLengths(p, base, j + 1 + len, end, used + 1 + len);
    }
  }

  /** Reading a name that begins with a label begins with that label. */
  lemma FirstLabel(p: seq<byte>, i: nat, end: nat, used: nat)
    requires i < end < |p| && used < MAX_DOMAIN_NAME && p[i] < 0x40 && ReadName(p, i, end, used).Some?
    ensures var n := ReadName(p, i, end, used).value.0;
            (p[i] == 0 ==> n == []) && (p[i] > 0 ==> i + p[i] < |p| && n != [] && n[0] == Octets(p, i + 1, p[i]))
  {
  }

  lemma TargetAt(p: seq<byte>, i: nat, v: byte)
    requires i + 1 < |p| && p[i] >= 0xC0
    ensures var q, hi: int := p[i + 1 := v], p[i];
            q[i] == p[i] && PointerTarget(q, i) == (hi - 0xC0) * 256 + v
  {
  }

  /** Not all of the 256 places a pointer could lead to spell the name. */
  lemma OtherTarget(p: seq<byte>, i: nat, end: nat, used: nat) returns (v: byte)
    requires i < end < |p| && used < MAX_DOMAIN_NAME && p[i] >= 0xC0 && ReadName(p, i, end, used).Some?
    requires p[PointerTarget(p, i)] != 0
    ensures Differs(ReadName(p[i + 1 := v], i, end, used), ReadName(p, i, end, used))
  {
    HingesPointer(p, i, end, used, i);
    var t := PointerTarget(p, i);
    FirstLabel(p, t, end, used);
    var hi: int := p[i];
    var base := (hi - 0xC0) * 256;
    if base <= i < base + 256 {
      v := i - base;
      TargetAt(p, i, v);
    } else if i + 1 == base {
      v := 0;
      TargetAt(p, i, v);
    } else if base + 256 > end {
      v := 255;
      TargetAt(p, i, v);
    } else if k :| base <= k < base + 256 && p[k] != p[t] {
      v := k - base;
      TargetAt(p, i, v);
      var q := p[i + 1 := v];
      if q[k] < 0x40 && ReadName(q, k, end, used).Some? { FirstLabel(q, k, end, used); }
    } else {
      v := 0;
      TargetAt(p, i, v);
      RunOfLengths(p[i + 1 := v], base, base, end, used);
    }
  }

  lemma ContentShows(p: seq<byte>, i: nat, end: nat, used: nat, x: nat, v: byte)
    requires i < end < |p| && used < MAX_DOMAIN_NAME && 0 < p[i] < 0x40 && ReadName(p, i, end, used).Some?
    requires i < x <= i + p[i] && x < |p| && v != p[x]
    ensures Differs(ReadName(p[x := v], i, end, used), ReadName(p, i, end, used))
  {
    var q, len: nat := p[x := v], p[i];
    OctetsAre(p, i + 1, len);
    OctetsAre(q, i + 1, len);
    FirstLabel(p, i, end, used);
    if ReadName(q, i, end, used).Some? { FirstLabel(q, i, end, used); }
    var k := x - (i + 1);
    assert q[x] == Octets(q, i + 1, len)[k] && p[x] == Octets(p, i + 1, len)[k];
  }

  /** A rest that differs makes the name differ. */
  lemma RestShows(p: seq<byte>, q: seq<byte>, i: nat, end: nat, used: nat)
    requires i < end < |p| == |q| && used < MAX_DOMAIN_NAME && 0 < p[i] < 0x40 && ReadName(p, i, end, used).Some?
    requires q[i] == p[i] && i + 1 + p[i] < end && used + 1 + p[i] < MAX_DOMAIN_NAME
    requires ReadName(p, i + 1 + p[i], end, used + 1 + p[i]).Some?
    requires Differs(ReadName(q, i + 1 + p[i], end, used + 1 + p[i]), ReadName(p, i + 1 + p[i], end, used + 1 + p[i]))
    ensures Differs(ReadName(q, i, end, used), ReadName(p, i, end, used))
  {
    var m, r := ReadName(p, i, end, used).value.0, ReadName(q, i, end, used);
    assert m[1..] == ReadName(p, i + 1 + p[i], end, used + 1 + p[i]).value.0;
    if r.Some? { assert r.value.0[1..] == ReadName(q, i + 1 + p[i], end, used + 1 + p[i]).value.0; }
  }

  /** So each octet the reading hinges on has a value that shows. */
  lemma {:induction false} ChangeShows(p: seq<byte>, i: nat, end: nat, used: nat, x: nat) returns (v: byte)
    requires i < end < |p| && used < MAX_DOMAIN_NAME && ReadName(p, i, end, used).Some?
    requires Hinges(p, i, end, used, x)
    ensures x < |p| && Differs(ReadName(p[x := v], i, end, used), ReadName(p, i, end, used))
    decreases MAX_DOMAIN_NAME - used, if p[i] >= 0xC0 then 1 else 0
  {
    var len: nat := p[i];
    if x == i {
      v := 0x80;
    } else if len < 0x40 {
      HingesLabel(p, i, end, used, x);
      if i < x <= i + len {
        v := if p[x] == 0 then 1 else 0;
        ContentShows(p, i, end, used, x, v);
      } else {
        v := ChangeShows(p, i + 1 + len, end, used + 1 + len, x);
        RestShows(p, p[x := v], i, end, used);
      }
    } else {
      HingesPointer(p, i, end, used, x);
      if x == i + 1 {
        v := OtherTarget(p, i, end, used);
      } else {
        v := ChangeShows(p, PointerTarget(p, i), end, used, x);
      }
    }
  }
}
