/**
 * A name that stands in the packet is found again, it and each of its suffixes, so that writing
 * it once more costs two octets; and what a child of it costs is what the size estimate says.
 */
module NameReuse {
  import opened Bytes
  import opened DomainNames
  import opened NameCodec
  import opened NameRoundTrip

  /** `n` can be matched in the packet without looking at the octet at `end`. */
  ghost predicate Present(q: seq<byte>, end: nat, n: Name) {
    end < |q| && n != [] && exists t: nat :: MatchAt(q, end, n, t).Some? && MatchAt(q, end, n, t).value < end
  }

  /** A match stays a match in every buffer that keeps the octets it was found in. */
  lemma {:induction false} MatchStays(p: seq<byte>, end: nat, n: Name, t: nat, q: seq<byte>, e: nat)
    requires end <= e < |q| && end < |p| && Agree(p, q, end) && n != []
    requires MatchAt(p, end, n, t).Some? && MatchAt(p, end, n, t).value < end
    ensures MatchAt(q, e, n, t) == MatchAt(p, end, n, t)
    decreases |n|
  {
    MatchStep(p, end, n, t);
    SameLabelAt(p, q, end, t, n[0]);
    if |n| > 1 {
      var u := t + 1 + |n[0]|;
      var v := Follow(p, end, u).value;
      assert Follow(q, e, u) == Some(v);
      MatchStays(p, end, n[1..], v, q, e);
    }
  }

  lemma MatchBuild(q: seq<byte>, e: nat, n: Name, t: nat)
    requires e < |q| && n != [] && LabelAt(q, e, t, n[0])
    ensures var u := t + 1 + |n[0]|;
            && (|n| == 1 && q[u] == 0 ==> MatchAt(q, e, n, t) == Some(u))
            && (|n| > 1 && Follow(q, e, u).Some? ==>
                  MatchAt(q, e, n, t) == MatchAt(q, e, n[1..], Follow(q, e, u).value))
  {
  }

  /** The walk that matches a name passes a place where each of its suffixes matches. */
  lemma {:induction false} SuffixMatches(q: seq<byte>, e: nat, n: Name, t: nat, k: nat) returns (s: nat)
    requires e < |q| && k < |n| && MatchAt(q, e, n, t).Some?
    ensures MatchAt(q, e, n[k..], s) == MatchAt(q, e, n, t)
    decreases k
  {
    if k == 0 {
      assert n[0..] == n;
      return t;
    }
    MatchStep(q, e, n, t);
    s := SuffixMatches(q, e, n[1..], Follow(q, e, t + 1 + |n[0]|).value, k - 1);
    assert n[1..][k - 1..] == n[k..];
  }

  /** What has been written matches, from where a reader would go to find its first label. */
  lemma {:induction false} WrittenMatches(
      p: seq<byte>, start: nat, n: Name, off: nat, room: int, b: seq<byte>, q: seq<byte>, at: nat, e: nat)
      returns (t: nat)
    requires start < |p| && start <= 0x4000 && Agree(p, q, start) && start <= at
    requires n != [] && LabelsValid(n) && off + WireLength(n) <= MAX_DOMAIN_NAME
    requires Encode(p, start, n, off, room, true) == Some(b)
    requires if off == 0 then !Overread(p, start, n) else p[start] != 0
    requires StandsAt(q, at, b) && at + |b| <= e < |q|
    ensures Follow(q, e, at) == Some(t)
    ensures MatchAt(q, e, n, t).Some? && MatchAt(q, e, n, t).value < e
    decreases |n|
  {
    hide Encode, ReadName, MatchAt;
    EncodeStep(p, start, n, off, room, true);
    if FindPointer(p, start, n).Some? {
      t := FindPointer(p, start, n).value;
      FoundMatches(p, start, n);
      MatchReads(p, start, n, t, q, e, off);
      PointerBytesRead(q, at, t);
      MatchStays(p, start, n, t, q, e);
    } else {
      var l: Label, v := n[0], View(p, start, n[0], off, true);
      var rest := Encode(v, start, n[1..], off + 1 + |l|, room - 1 - |l|, true).value;
      LiteralStands(q, at, l, rest);
      t := at;
      MatchBuild(q, e, n, at);
      if n[1..] == [] {
        EncodeRoot(v, start, off + 1 + |l|, room - 1 - |l|, true);
        assert q[at + 1 + |l|] == rest[0];
      } else {
        var s := WrittenMatches(v, start, n[1..], off + 1 + |l|, room - 1 - |l|, rest, q, at + 1 + |l|, e);
      }
    }
  }

  /** Presence is found by the search, and presence of a name is presence of its suffixes. */
  lemma PresentIsFound(q: seq<byte>, e: nat, n: Name)
    requires Present(q, e, n)
    ensures FindPointer(q, e, n).Some?
  {
    var t: nat :| MatchAt(q, e, n, t).Some?;
    SearchFindsLast(q, e, n, e - |n[0]| - 1);
  }

  lemma PresentSuffix(q: seq<byte>, e: nat, n: Name, k: nat)
    requires Present(q, e, n) && k < |n|
    ensures Present(q, e, n[k..])
  {
    var t: nat :| MatchAt(q, e, n, t).Some? && MatchAt(q, e, n, t).value < e;
    var s := SuffixMatches(q, e, n, t, k);
  }

  lemma PresentStays(p: seq<byte>, end: nat, n: Name, q: seq<byte>, e: nat)
    requires Present(p, end, n) && end <= e < |q| && Agree(p, q, end)
    ensures Present(q, e, n)
  {
    var t: nat :| MatchAt(p, end, n, t).Some? && MatchAt(p, end, n, t).value < end;
    MatchStays(p, end, n, t, q, e);
  }

  /**
   * Once a non-root name has been written, it and every non-root suffix of it is present from then
   * on, and is written again in two octets wherever there is room for them.
   */
  lemma RewritingCostsTwoOctets(
      p: seq<byte>, start: nat, n: Name, room: int, b: seq<byte>, q: seq<byte>, e: nat, k: nat, room': int)
    requires start < |p| && start <= 0x4000 && Agree(p, q, start) && Valid(n) && k < |n|
    requires Encode(p, start, n, 0, room, true) == Some(b) && !Overread(p, start, n)
    requires StandsAt(q, start, b) && start + |b| <= e < |q|
    ensures Present(q, e, n[k..])
    ensures room' >= 2 ==>
              Encode(q, e, n[k..], 0, room', true).Some? && |Encode(q, e, n[k..], 0, room', true).value| == 2
  {
    hide Encode;
    var t := WrittenMatches(p, start, n, 0, room, b, q, start, e);
    PresentSuffix(q, e, n, k);
    PresentIsFound(q, e, n[k..]);
    ValidSuffix(n, k);
    EncodeStep(q, e, n[k..], 0, room', true);
    assert WireLength(n[k..][1..]) >= 1;
  }

  // ----- The size estimate

  /** What CompressedDomainNameLength says from the label at `off` on; 257 for a malformed name. */
  function CompressedLength(n: Name, parent: Name, off: nat): (len: nat)
    decreases |n|
  {
    if n == [] then off + 1
    else if |n[0]| > MAX_DOMAIN_LABEL then MAX_DOMAIN_NAME + 1
    else if parent != [] && Compares(n, parent, 0) then off + 2
    else if off + 1 + |n[0]| >= MAX_DOMAIN_NAME then MAX_DOMAIN_NAME + 1
    else CompressedLength(n[1..], parent, off + 1 + |n[0]|)
  }

  method CompressedDomainNameLength(name: seq<byte>, parent: Option<seq<byte>>, ghost n: Name, ghost m: Name)
    returns (len: nat)
    requires Holds(name, 0, n) && (parent.Some? ==> Holds(parent.value, 0, m)) && (parent.None? ==> m == [])
    ensures len == CompressedLength(n, m, 0)
  {
    var src: nat := 0;
    ghost var u := n;
    var usable := parent.Some? && parent.value[0] != 0;
    while name[src] != 0
      invariant Holds(name, src, u)
      invariant CompressedLength(n, m, 0) == CompressedLength(u, m, src)
      decreases |u|
    {
      if name[src] > MAX_DOMAIN_LABEL { return MAX_DOMAIN_NAME + 1; }
      if usable {
        var same := SameDomainName(name, src, parent.value, 0, u, m);
        if same { return src + 2; }
      }
      src := src + 1 + name[src];
      u := u[1..];
      if src >= MAX_DOMAIN_NAME { return MAX_DOMAIN_NAME + 1; }
    }
    return src + 1;
  }

  lemma EstimateStep(n: Name, parent: Name, off: nat)
    requires n != []
    ensures CompressedLength(n, parent, off) ==
            if |n[0]| > MAX_DOMAIN_LABEL then MAX_DOMAIN_NAME + 1
            else if parent != [] && Compares(n, parent, 0) then off + 2
            else if off + 1 + |n[0]| >= MAX_DOMAIN_NAME then MAX_DOMAIN_NAME + 1
            else CompressedLength(n[1..], parent, off + 1 + |n[0]|)
  {
    hide Compares;
  }

  /** For a child of a non-root parent the estimate is the octets in front of the parent, plus two. */
  lemma {:induction false} CompressedLengthOfChild(prefix: Name, parent: Name, off: nat)
    requires parent != [] && LabelsValid(prefix + parent)
    requires off + WireLength(prefix + parent) <= MAX_DOMAIN_NAME
    ensures CompressedLength(prefix + parent, parent, off) == off + WireLength(prefix) - 1 + 2
    decreases |prefix|
  {
    hide Compares, Same, WireLength, CompressedLength, LabelsValid;
    var n := prefix + parent;
    WireLengthAppend(prefix, parent);
    NameStep(n);
    EstimateStep(n, parent, off);
    if prefix == [] {
      assert n == parent;
      SameReflexive(n);
      ComparesMeansSame(n, parent, 0);
      assert WireLength([]) == 1 by { RootLength(); }
    } else {
      NameStep(prefix);
      assert n[1..] == prefix[1..] + parent;
      if Compares(n, parent, 0) {
        ComparesMeansSame(n, parent, 0);
        SameWireLength(n, parent);
      }
      CompressedLengthOfChild(prefix[1..], parent, off + 1 + |prefix[0]|);
    }
  }

  /** Without a parent the estimate is the uncompressed length. */
  lemma {:induction false} UncompressedLength(n: Name, off: nat)
    requires LabelsValid(n) && off + WireLength(n) <= MAX_DOMAIN_NAME
    ensures CompressedLength(n, [], off) == off + WireLength(n)
    decreases |n|
  {
    if n != [] {
      hide Compares, WireLength, CompressedLength, LabelsValid;
      NameStep(n);
      EstimateStep(n, [], off);
      UncompressedLength(n[1..], off + 1 + |n[0]|);
    }
  }

  lemma RootLength()
    ensures WireLength([]) == 1
  {
  }

  /** Writing a child label by label: at the parent, at the latest, the search succeeds. */
  lemma {:induction false} ChildFits(q: seq<byte>, e: nat, prefix: Name, parent: Name, off: nat, room: int)
    requires Present(q, e, parent) && LabelsValid(prefix + parent)
    requires off + WireLength(prefix + parent) <= MAX_DOMAIN_NAME
    requires room >= WireLength(prefix) + 1
    ensures var r := Encode(q, e, prefix + parent, off, room, true);
            r.Some? && |r.value| <= WireLength(prefix) + 1
    decreases |prefix|
  {
    hide Encode;
    var n := prefix + parent;
    EncodeStep(q, e, n, off, room, true);
    WireLengthAppend(prefix, parent);
    if prefix == [] {
      assert n == parent;
      PresentIsFound(q, e, parent);
      assert WireLength(n[1..]) >= 1;
    } else {
      assert n[1..] == prefix[1..] + parent && n[0] == prefix[0];
      assert WireLength(n[1..]) >= 1;
      if FindPointer(q, e, n).None? {
        var v, len := View(q, e, n[0], off, true), |n[0]|;
        PresentStays(q, e, parent, v, e);
        ChildFits(v, e, prefix[1..], parent, off + 1 + len, room - 1 - len);
      }
    }
  }

  /**
   * The size bound: with the parent present octet for octet, the child is written in any room
   * that the estimate fits in, and takes no more octets than the estimate.
   */
  lemma EstimateIsEnough(q: seq<byte>, e: nat, prefix: Name, parent: Name, room: int)
    requires Present(q, e, parent) && Valid(prefix + parent)
    requires room >= CompressedLength(prefix + parent, parent, 0)
    ensures var r := Encode(q, e, prefix + parent, 0, room, true);
            r.Some? && |r.value| <= CompressedLength(prefix + parent, parent, 0)
  {
    CompressedLengthOfChild(prefix, parent, 0);
    ChildFits(q, e, prefix, parent, 0, room);
  }
}
