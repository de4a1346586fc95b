/**
 * What is written by `Encode` is what `ReadName` reads: over one name, over a whole message, and
 * exactly when not.  Then the other direction: what has been written is found again.
 */
module NameRoundTrip {
  import opened Bytes
  import opened DomainNames
  import opened NameCodec

  lemma FoundMatches(p: seq<byte>, end: nat, n: Name)
    requires end < |p| && FindPointer(p, end, n).Some?
    ensures n != [] && MatchAt(p, end, n, FindPointer(p, end, n).value).Some?
  {
    SearchFindsLast(p, end, n, end - |n[0]| - 1);
  }

  // ----- A match is a place to read the name from

  /**
   * The one way the search goes wrong: the zero octet closing the match it returns is the octet
   * at its own search limit, where the name is about to be written.
   */
  ghost predicate Overread(p: seq<byte>, start: nat, n: Name)
    requires start < |p|
  {
    var f := FindPointer(p, start, n);
    f.Some? && n != [] && MatchAt(p, start, n, f.value) == Some(start)
  }

  lemma NoOverread(p: seq<byte>, start: nat, n: Name)
    requires start < |p| && p[start] != 0
    ensures !Overread(p, start, n)
  {
  }

  /** Reading over the first label of `n`: it fails, or yields the label and what comes after. */
  lemma ReadLabel(q: seq<byte>, i: nat, n: Name, e: nat, used: nat)
    requires n != [] && i + 1 + |n[0]| < e < |q| && q[i] == |n[0]| < 0x40 && StandsAt(q, i + 1, n[0])
    requires used + 1 + |n[0]| < MAX_DOMAIN_NAME
    ensures var r, s := ReadName(q, i, e, used), ReadName(q, i + 1 + |n[0]|, e, used + 1 + |n[0]|);
            r.None? == s.None? && (s.Some? && s.value.0 == n[1..] ==> r == Some((n, s.value.1)))
  {
    OctetsStand(q, i + 1, n[0]);
    assert n == [n[0]] + n[1..];
  }

  /** Reading the octet that ends a name. */
  lemma ReadRoot(q: seq<byte>, i: nat, e: nat, used: nat)
    requires i < e < |q| && q[i] == 0 && used < MAX_DOMAIN_NAME
    ensures ReadName(q, i, e, used) == Some(([], i + 1))
  {
  }

  /** A label that does not fit into the name any more. */
  lemma ReadTooLong(q: seq<byte>, i: nat, e: nat, used: nat)
    requires i < e < |q| && 0 < q[i] < 0x40 && used < MAX_DOMAIN_NAME <= used + 1 + q[i]
    ensures ReadName(q, i, e, used) == None
  {
  }

  /** Reading through a pointer. */
  lemma ReadJump(q: seq<byte>, i: nat, e: nat, used: nat)
    requires i < e && e < |q| && used < MAX_DOMAIN_NAME && q[i] >= 0xC0
    requires PointerTarget(q, i) < e && q[PointerTarget(q, i)] < 0x40
    ensures var r := ReadName(q, PointerTarget(q, i), e, used);
            ReadName(q, i, e, used) == if r.None? then None else Some((r.value.0, i + 2))
  {
  }

  /** Reading goes where the search's walk went. */
  lemma ReadFollow(p: seq<byte>, end: nat, u: nat, q: seq<byte>, e: nat, used: nat)
    requires u < end < |p| && end <= e < |q| && Agree(p, q, end) && used < MAX_DOMAIN_NAME
    requires Follow(p, end, u).Some?
    ensures var v := Follow(p, end, u).value;
            v <= u &&
            var r, s := ReadName(q, u, e, used), ReadName(q, v, e, used);
            r.Some? == s.Some? && (r.Some? ==> r.value.0 == s.value.0)
  {
    var v := Follow(p, end, u).value;
    assert q[v] == p[v];
  }

  lemma MatchStep(p: seq<byte>, end: nat, n: Name, t: nat)
    requires end < |p| && n != [] && MatchAt(p, end, n, t).Some?
    ensures LabelAt(p, end, t, n[0])
    ensures var u := t + 1 + |n[0]|;
            if |n| == 1 then MatchAt(p, end, n, t) == Some(u)
            else u < end && Follow(p, end, u).Some? &&
                 MatchAt(p, end, n, t) == MatchAt(p, end, n[1..], Follow(p, end, u).value)
  {
  }

  lemma {:induction false} MatchReads(p: seq<byte>, end: nat, n: Name, t: nat, q: seq<byte>, e: nat, used: nat)
    requires end <= e < |q| && end < |p| && Agree(p, q, end) && n != [] && LabelsValid(n)
    requires MatchAt(p, end, n, t).Some? && MatchAt(p, end, n, t).value < end
    requires used + WireLength(n) <= MAX_DOMAIN_NAME
    ensures t < end && p[t] < 0x40
    ensures ReadName(q, t, e, used).Some? && ReadName(q, t, e, used).value.0 == n
    decreases |n|
  {
    hide ReadName, MatchAt;
    var l, u := n[0], t + 1 + |n[0]|;
    MatchStep(p, end, n, t);
    SameLabelAt(p, q, end, t, l);
    if |n| > 1 {
      var v := Follow(p, end, u).value;
      ReadFollow(p, end, u, q, e, used + 1 + |l|);
      MatchReads(p, end, n[1..], v, q, e, used + 1 + |l|);
      assert ReadName(q, u, e, used + 1 + |l|).Some?;
    } else {
      ReadRoot(q, u, e, used + 1 + |l|);
    }
    assert ReadName(q, u, e, used + 1 + |l|).value.0 == n[1..];
    ReadLabel(q, t, n, e, used);
  }

  lemma PointerBytesRead(q: seq<byte>, i: nat, offset: nat)
    requires offset < 0x4000 && StandsAt(q, i, PointerBytes(offset))
    ensures q[i] >= 0xC0 && PointerTarget(q, i) == offset
  {
    var b := PointerBytes(offset);
    assert q[i] == b[0] && q[i + 1] == b[1];
  }

  // ----- One name

  /** The pointer case: the two octets lead the reader to the match. */
  lemma PointerReads(p: seq<byte>, start: nat, n: Name, off: nat, q: seq<byte>, at: nat, e: nat)
    requires start < |p| && start <= 0x4000 && Agree(p, q, start) && start <= at
    requires LabelsValid(n) && off + WireLength(n) <= MAX_DOMAIN_NAME
    requires FindPointer(p, start, n).Some? && !Overread(p, start, n)
    requires StandsAt(q, at, PointerBytes(FindPointer(p, start, n).value)) && at + 2 <= e < |q|
    ensures ReadName(q, at, e, off) == Some((n, at + 2))
  {
    var f := FindPointer(p, start, n).value;
    FoundMatches(p, start, n);
    PointerBytesRead(q, at, f);
    MatchReads(p, start, n, f, q, e, off);
    ReadJump(q, at, e, off);
  }

  /**
   * Label by label: the octets `b` written at `at` for the rest `n` of a name read back as `n` and
   * end where the writer stopped, whatever is written behind them later.
   */
  lemma {:induction false} EncodeReads(
      p: seq<byte>, start: nat, n: Name, off: nat, room: int, b: seq<byte>, q: seq<byte>, at: nat, e: nat)
    requires start < |p| && start <= 0x4000 && Agree(p, q, start) && start <= at
    requires LabelsValid(n) && off + WireLength(n) <= MAX_DOMAIN_NAME
    requires Encode(p, start, n, off, room, true) == Some(b)
    requires if off == 0 then !Overread(p, start, n) else p[start] != 0
    requires StandsAt(q, at, b) && at + |b| <= e < |q|
    ensures ReadName(q, at, e, off) == Some((n, at + |b|))
    decreases |n|
  {
    hide ReadName, Encode;
    if n == [] {
      EncodeRoot(p, start, off, room, true);
      assert q[at] == b[0];
      ReadRoot(q, at, e, off);
    } else {
      EncodeStep(p, start, n, off, room, true);
      if FindPointer(p, start, n).Some? {
        PointerReads(p, start, n, off, q, at, e);
      } else {
        var l: Label, v := n[0], View(p, start, n[0], off, true);
        var rest := Encode(v, start, n[1..], off + 1 + |l|, room - 1 - |l|, true).value;
        LiteralStands(q, at, l, rest);
        EncodeReads(v, start, n[1..], off + 1 + |l|, room - 1 - |l|, rest, q, at + 1 + |l|, e);
        ReadLabel(q, at, n, e, off);
      }
    }
  }

  lemma LiteralStands(q: seq<byte>, at: nat, l: Label, rest: seq<byte>)
    requires StandsAt(q, at, LabelBytes(l) + rest)
    ensures q[at] == |l| && StandsAt(q, at + 1, l) && StandsAt(q, at + 1 + |l|, rest)
  {
    var b := LabelBytes(l) + rest;
    assert q[at] == b[0];
    forall k | at + 1 <= k < at + 1 + |l| ensures q[k] == l[k - at - 1] { assert q[k] == b[k - at]; }
    forall k | at + 1 + |l| <= k < at + |b| ensures q[k] == rest[k - at - 1 - |l|] { assert q[k] == b[k - at]; }
  }

  /** Walking a match that ends at `end` yields nothing when reading on from `end` yields nothing. */
  lemma {:induction false} WalkToLimit(p: seq<byte>, end: nat, n: Name, t: nat, q: seq<byte>, e: nat, used: nat)
    requires end < e < |q| && end < |p| && Agree(p, q, end) && n != [] && LabelsValid(n) && used < MAX_DOMAIN_NAME
    requires MatchAt(p, end, n, t) == Some(end)
    requires forall u :: used < u < MAX_DOMAIN_NAME ==> ReadName(q, end, e, u) == None
    ensures t < end
    ensures ReadName(q, t, e, used) == None
    decreases |n|
  {
    hide ReadName;
    var l, u := n[0], t + 1 + |n[0]|;
    MatchStep(p, end, n, t);
    SameLabelAt(p, q, end, t, l);
    if used + 1 + |l| < MAX_DOMAIN_NAME {
      if |n| > 1 {
        var v := Follow(p, end, u).value;
        ReadFollow(p, end, u, q, e, used + 1 + |l|);
        WalkToLimit(p, end, n[1..], v, q, e, used + 1 + |l|);
      }
      ReadLabel(q, t, n, e, used);
    } else {
      ReadTooLong(q, t, e, used);
    }
  }

  /** After an overread match the name written at `start` runs through the match back into `start`. */
  lemma {:induction false} OverreadLoops(p: seq<byte>, start: nat, n: Name, q: seq<byte>, e: nat, used: nat)
    requires start < |p| && start <= 0x4000 && Agree(p, q, start) && start < e < |q| && used < MAX_DOMAIN_NAME
    requires LabelsValid(n) && Overread(p, start, n) && StandsAt(q, start, PointerBytes(FindPointer(p, start, n).value))
    ensures ReadName(q, start, e, used) == None
    decreases MAX_DOMAIN_NAME - used
  {
    var f := FindPointer(p, start, n).value;
    PointerBytesRead(q, start, f);
    forall u | used < u < MAX_DOMAIN_NAME ensures ReadName(q, start, e, u) == None {
      OverreadLoops(p, start, n, q, e, u);
    }
    WalkToLimit(p, start, n, f, q, e, used);
  }

  /**
   * One valid name written at `start` is read back, with the writer's end position, from every
   * buffer that keeps the octets up to that position -- if and only if the search did not close
   * its match with the octet at the search limit.
   */
  lemma NameRoundTrip(p: seq<byte>, start: nat, n: Name, room: int, b: seq<byte>, q: seq<byte>, e: nat)
    requires start < |p| && start <= 0x4000 && Agree(p, q, start) && Valid(n)
    requires Encode(p, start, n, 0, room, true) == Some(b)
    requires StandsAt(q, start, b) && start + |b| <= e < |q|
    ensures ReadName(q, start, e, 0) == Some((n, start + |b|)) <==> !Overread(p, start, n)
  {
    if Overread(p, start, n) {
      OverreadLoops(p, start, n, q, e, 0);
    } else {
      EncodeReads(p, start, n, 0, room, b, q, start, e);
    }
  }

  /**
   * It does happen.  Behind the two octets of an MX record's preference or an SRV record's port of 353,
   * which are 1 and 'a' (97), and in front of a zero octet: the name "a" is written as a pointer to the two
   * octets, and cannot be read back.
   */
  lemma OverreadExample()
    ensures var p: seq<byte>, q: seq<byte> := [1, 97, 0, 0, 0], [1, 97, 0xC0, 0, 0];
            && StandsAt(p, 0, Big16(353))
            && Encode(p, 2, [[97]], 0, 2, true) == Some([0xC0, 0]) && q == Splice(p, 2, [0xC0, 0])
            && Overread(p, 2, [[97]])
            && ReadName(q, 2, 4, 0) == None
  {
    var p: seq<byte>, q: seq<byte>, n: Name := [1, 97, 0, 0, 0], [1, 97, 0xC0, 0, 0], [[97]];
    assert MatchAt(p, 2, n, 0) == Some(2);
    assert FindPointer(p, 2, n) == Some(0);
    assert PointerBytes(0) == [0xC0, 0];
    OverreadLoops(p, 2, n, q, 4, 0);
  }

  // ----- A whole message

  /** A message is built from names and from octets stored as they are (header, types, numbers). */
  datatype Item = Raw(octets: seq<byte>) | DomainName(name: Name)

  predicate ItemValid(item: Item) {
    item.DomainName? ==> Valid(item.name)
  }

  function ItemBytes(p: seq<byte>, ptr: nat, limit: nat, item: Item): (r: Option<seq<byte>>)
    requires ptr <= limit < |p|
    ensures r.Some? ==> ptr + |r.value| <= limit
  {
    match item
    case Raw(o) => if ptr + |o| > limit then None else Some(o)
    case DomainName(n) => Encode(p, ptr, n, 0, limit - ptr, true)
  }

  /** The packet after the items are written back to back, and where each of them starts and ends. */
  datatype Written = Written(packet: seq<byte>, stops: seq<nat>)

  function WriteItems(p: seq<byte>, ptr: nat, limit: nat, items: seq<Item>): (r: Option<Written>)
    requires ptr <= limit < |p|
    ensures r.Some? ==> |r.value.stops| == |items| + 1 && r.value.stops[0] == ptr
    decreases |items|
  {
    if items == [] then Some(Written(p, [ptr])) else
    match ItemBytes(p, ptr, limit, items[0])
    case None => None
    case Some(b) =>
      match WriteItems(Splice(p, ptr, b), ptr + |b|, limit, items[1..])
      case None => None
      case Some(w) => Some(Written(w.packet, [ptr] + w.stops))
  }

  /** No search along the way closes its match with the octet at its limit. */
  ghost predicate NeverOverreads(p: seq<byte>, ptr: nat, limit: nat, items: seq<Item>)
    requires ptr <= limit < |p| && WriteItems(p, ptr, limit, items).Some?
    decreases |items|
  {
    items == [] ||
    var b := ItemBytes(p, ptr, limit, items[0]).value;
    (items[0].DomainName? ==> !Overread(p, ptr, items[0].name)) &&
    NeverOverreads(Splice(p, ptr, b), ptr + |b|, limit, items[1..])
  }

  /** Reading at each place a name was written gives that name and the place where the next item is. */
  ghost predicate NamesReadBack(q: seq<byte>, e: nat, stops: seq<nat>, items: seq<Item>)
    requires e < |q| && |stops| == |items| + 1
  {
    forall k :: 0 <= k < |items| && items[k].DomainName? ==>
      stops[k] < e && ReadName(q, stops[k], e, 0) == Some((items[k].name, stops[k + 1]))
  }

  /** What is written later never reaches back. */
  lemma {:induction false} WritingGoesForward(p: seq<byte>, ptr: nat, limit: nat, items: seq<Item>)
    requires ptr <= limit < |p| && WriteItems(p, ptr, limit, items).Some?
    ensures var w := WriteItems(p, ptr, limit, items).value;
            && |w.packet| == |p| && Agree(p, w.packet, ptr)
            && ptr <= w.stops[|items|] <= limit
    decreases |items|
  {
    if items != [] {
      var b := ItemBytes(p, ptr, limit, items[0]).value;
      WritingGoesForward(Splice(p, ptr, b), ptr + |b|, limit, items[1..]);
    }
  }

  lemma NamesReadBackStep(q: seq<byte>, e: nat, stops: seq<nat>, items: seq<Item>)
    requires e < |q| && |stops| == |items| + 1 && items != []
    ensures NamesReadBack(q, e, stops, items) <==>
              && (items[0].DomainName? ==>
                    stops[0] < e && ReadName(q, stops[0], e, 0) == Some((items[0].name, stops[1])))
              && NamesReadBack(q, e, stops[1..], items[1..])
  {
    hide ReadName;
    if NamesReadBack(q, e, stops[1..], items[1..]) {
      forall k | 1 <= k < |items| && items[k].DomainName?
        ensures stops[k] < e && ReadName(q, stops[k], e, 0) == Some((items[k].name, stops[k + 1]))
      {
        assert items[1..][k - 1] == items[k];
      }
    }
  }

  lemma NamesReadBackNone(q: seq<byte>, e: nat, stops: seq<nat>)
    requires e < |q| && |stops| == 1
    ensures NamesReadBack(q, e, stops, [])
  {
  }

  /** A name with more of the message written behind it. */
  lemma NameStays(p: seq<byte>, ptr: nat, limit: nat, n: Name, b: seq<byte>, packet: seq<byte>, stop: nat,
                  q: seq<byte>, e: nat)
    requires ptr <= limit < |p| && limit <= 0x4000 && Valid(n) && Encode(p, ptr, n, 0, limit - ptr, true) == Some(b)
    requires ptr + |b| <= stop <= e < |q| && |packet| == |p| && stop <= |p|
    requires Agree(Splice(p, ptr, b), packet, ptr + |b|) && Agree(packet, q, stop)
    ensures ReadName(q, ptr, e, 0) == Some((n, ptr + |b|)) <==> !Overread(p, ptr, n)
  {
    hide ReadName, Encode, Splice, Agree, StandsAt;
    var p1 := Splice(p, ptr, b);
    AgreeTrans(p1, packet, q, ptr + |b|, stop);
    StandsStill(p1, q, ptr, b);
    AgreeTrans(p, p1, q, ptr, ptr + |b|);
    NameRoundTrip(p, ptr, n, limit - ptr, b, q, e);
  }

  /**
   * The round trip of a message: names and raw octets in any order, written back to back below the
   * 14-bit pointer range.  In every buffer `q` that keeps what was written, whatever follows, each
   * name reads back with the writer's end position -- exactly when no search overread.
   */
  lemma {:induction false} MessageRoundTrip(
      p: seq<byte>, ptr: nat, limit: nat, items: seq<Item>, w: Written, q: seq<byte>, e: nat)
    requires ptr <= limit < |p| && limit <= 0x4000
    requires forall k :: 0 <= k < |items| ==> ItemValid(items[k])
    requires WriteItems(p, ptr, limit, items) == Some(w)
    requires w.stops[|items|] <= e < |q| && Agree(w.packet, q, w.stops[|items|])
    ensures NamesReadBack(q, e, w.stops, items) <==> NeverOverreads(p, ptr, limit, items)
    decreases |items|
  {
    hide ReadName, Encode, Splice, NamesReadBack, Agree, StandsAt;
    if items == [] {
      NamesReadBackNone(q, e, w.stops);
    } else {
      var b := ItemBytes(p, ptr, limit, items[0]).value;
      var p1 := Splice(p, ptr, b);
      var w1 := WriteItems(p1, ptr + |b|, limit, items[1..]).value;
      assert w.stops[1..] == w1.stops;
      MessageRoundTrip(p1, ptr + |b|, limit, items[1..], w1, q, e);
      NamesReadBackStep(q, e, w.stops, items);
      if items[0].DomainName? {
        WritingGoesForward(p1, ptr + |b|, limit, items[1..]);
        NameStays(p, ptr, limit, items[0].name, b, w.packet, w.stops[|items|], q, e);
      }
    }
  }

  /** No search overreads in a buffer that holds no zero octet where the message is going to be. */
  lemma {:induction false} NonzeroIsEnough(p: seq<byte>, ptr: nat, limit: nat, items: seq<Item>)
    requires ptr <= limit < |p| && WriteItems(p, ptr, limit, items).Some?
    requires forall i :: ptr <= i <= limit ==> p[i] != 0
    ensures NeverOverreads(p, ptr, limit, items)
    decreases |items|
  {
    hide Encode;
    if items != [] {
      var b := ItemBytes(p, ptr, limit, items[0]).value;
      if items[0].DomainName? { NoOverread(p, ptr, items[0].name); }
      NonzeroIsEnough(Splice(p, ptr, b), ptr + |b|, limit, items[1..]);
    }
  }

  /** So every message written into such a buffer reads back. */
  lemma NonzeroRoundTrip(p: seq<byte>, ptr: nat, limit: nat, items: seq<Item>, w: Written, q: seq<byte>, e: nat)
    requires ptr <= limit < |p| && limit <= 0x4000
    requires forall k :: 0 <= k < |items| ==> ItemValid(items[k])
    requires WriteItems(p, ptr, limit, items) == Some(w)
    requires w.stops[|items|] <= e < |q| && Agree(w.packet, q, w.stops[|items|])
    requires forall i :: ptr <= i <= limit ==> p[i] != 0
    ensures NamesReadBack(q, e, w.stops, items)
  {
    MessageRoundTrip(p, ptr, limit, items, w, q, e);
    NonzeroIsEnough(p, ptr, limit, items);
  }
}
