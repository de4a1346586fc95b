/**
 * The length of a record's data is filled in after the data was written, while the search for
 * names in the data has already looked at whatever stood in its place.  Names read back all the
 * same unless a match that was used runs through such a place.
 */
module LengthsLater {
  import opened Bytes
  import opened DomainNames
  import opened NameCodec
  import opened NameRoundTrip
  import opened NameReuse
  import opened NameHinges

  /** The buffers are the same below `k`, but for the octets in `later`. */
  ghost predicate SameBut(p: seq<byte>, q: seq<byte>, k: nat, later: set<nat>) {
    k <= |p| && k <= |q| && forall i :: 0 <= i < k && i !in later ==> p[i] == q[i]
  }

  /** The walk over the match of `n` at `t` looks at none of the octets in `later`. */
  ghost predicate Avoids(p: seq<byte>, end: nat, n: Name, t: nat, later: set<nat>)
    requires end < |p| && n != [] && MatchAt(p, end, n, t).Some?
    decreases |n|
  {
    MatchStep(p, end, n, t);
    var u := t + 1 + |n[0]|;
    && (forall i :: t <= i <= u ==> i !in later)
    && (|n| > 1 ==> (p[u] >= 0xC0 ==> u + 1 !in later) && Avoids(p, end, n[1..], Follow(p, end, u).value, later))
  }

  lemma AvoidsStep(p: seq<byte>, end: nat, n: Name, t: nat, q: seq<byte>, later: set<nat>)
    requires end < |p| && end < |q| && n != [] && SameBut(p, q, end, later)
    requires MatchAt(p, end, n, t).Some? && MatchAt(p, end, n, t).value < end && Avoids(p, end, n, t, later)
    ensures t < end && q[t] == p[t] && LabelAt(q, end, t, n[0])
    ensures var u := t + 1 + |n[0]|;
            u < end && q[u] == p[u] &&
            (|n| > 1 ==> Follow(p, end, u).Some? && var v := Follow(p, end, u).value;
                         MatchAt(p, end, n[1..], v) == MatchAt(p, end, n, t) && Avoids(p, end, n[1..], v, later) &&
                         (q[v] == p[v] ==> Follow(q, end, u) == Some(v)))
  {
    MatchStep(p, end, n, t);
  }

  lemma {:induction false} AvoidingMatchStays(p: seq<byte>, end: nat, n: Name, t: nat, q: seq<byte>, later: set<nat>)
    requires end < |p| && end < |q| && n != [] && SameBut(p, q, end, later)
    requires MatchAt(p, end, n, t).Some? && MatchAt(p, end, n, t).value < end && Avoids(p, end, n, t, later)
    ensures MatchAt(q, end, n, t) == MatchAt(p, end, n, t)
    ensures t < end && q[t] == p[t]
    decreases |n|
  {
    hide Avoids, MatchAt, Follow, LabelAt, SameBut;
    AvoidsStep(p, end, n, t, q, later);
    MatchBuild(q, end, n, t);
    if |n| > 1 {
      AvoidingMatchStays(p, end, n[1..], Follow(p, end, t + 1 + |n[0]|).value, q, later);
    } else {
      MatchStep(p, end, n, t);
      MatchEndsInZero(p, end, n, t);
    }
  }

  lemma MatchEndsInZero(p: seq<byte>, end: nat, n: Name, t: nat)
    requires end < |p| && n != [] && MatchAt(p, end, n, t).Some?
    ensures p[MatchAt(p, end, n, t).value] == 0
  {
  }

  /** The pointer the writer ends `n` with, if it does, leads to a match that avoids the octets in `later`. */
  ghost predicate PointerAvoids(p: seq<byte>, start: nat, n: Name, off: nat, later: set<nat>)
    requires start < |p|
    decreases |n|
  {
    n == [] ||
    var f := FindPointer(p, start, n);
    if f.Some? then
      FoundMatches(p, start, n);
      MatchAt(p, start, n, f.value).value < start && Avoids(p, start, n, f.value, later)
    else PointerAvoids(View(p, start, n[0], off, true), start, n[1..], off + 1 + |n[0]|, later)
  }

  /** As EncodeReads, in a buffer where octets that no match runs through have changed. */
  lemma {:induction false} EncodeReadsBut(
      p: seq<byte>, start: nat, n: Name, off: nat, room: int, b: seq<byte>,
      q: seq<byte>, at: nat, e: nat, later: set<nat>)
    requires start < |p| && start <= 0x4000 && SameBut(p, q, start, later) && start <= at
    requires LabelsValid(n) && off + WireLength(n) <= MAX_DOMAIN_NAME
    requires Encode(p, start, n, off, room, true) == Some(b) && PointerAvoids(p, start, n, off, later)
    requires StandsAt(q, at, b) && at + |b| <= e < |q|
    ensures ReadName(q, at, e, off) == Some((n, at + |b|))
    decreases |n|
  {
    hide ReadName, Encode, MatchAt, Avoids;
    if n == [] {
      EncodeRoot(p, start, off, room, true);
      assert q[at] == b[0];
      ReadRoot(q, at, e, off);
    } else {
      EncodeStep(p, start, n, off, room, true);
      var f := FindPointer(p, start, n);
      if f.Some? {
        FoundMatches(p, start, n);
        AvoidingMatchStays(p, start, n, f.value, q, later);
        MatchReads(q, start, n, f.value, q, e, off);
        PointerBytesRead(q, at, f.value);
        ReadJump(q, at, e, off);
      } else {
        var l: Label, v := n[0], View(p, start, n[0], off, true);
        var rest := Encode(v, start, n[1..], off + 1 + |l|, room - 1 - |l|, true).value;
        LiteralStands(q, at, l, rest);
        EncodeReadsBut(v, start, n[1..], off + 1 + |l|, room - 1 - |l|, rest, q, at + 1 + |l|, e, later);
        ReadLabel(q, at, n, e, off);
      }
    }
  }

  /** None of the octets in `later` is a name's, and no match used along the way runs through one. */
  ghost predicate NeverThrough(p: seq<byte>, ptr: nat, limit: nat, items: seq<Item>, later: set<nat>)
    requires ptr <= limit < |p| && WriteItems(p, ptr, limit, items).Some?
    decreases |items|
  {
    items == [] ||
    var b := ItemBytes(p, ptr, limit, items[0]).value;
    && (items[0].DomainName? ==>
          PointerAvoids(p, ptr, items[0].name, 0, later) && forall i :: ptr <= i < ptr + |b| ==> i !in later)
    && NeverThrough(Splice(p, ptr, b), ptr + |b|, limit, items[1..], later)
  }

  lemma StillThere(p: seq<byte>, ptr: nat, b: seq<byte>, packet: seq<byte>, q: seq<byte>, stop: nat, later: set<nat>)
    requires ptr + |b| <= |p| && Agree(Splice(p, ptr, b), packet, ptr + |b|) && ptr + |b| <= stop
    requires SameBut(packet, q, stop, later) && forall i :: ptr <= i < ptr + |b| ==> i !in later
    ensures SameBut(p, q, ptr, later) && StandsAt(q, ptr, b)
  {
  }

  /**
   * The round trip of a message in which some octets -- the lengths of record data, or counts in the
   * header -- are filled in after names were written behind them.
   */
  lemma {:induction false} FilledInLater(
      p: seq<byte>, ptr: nat, limit: nat, items: seq<Item>, w: Written, q: seq<byte>, e: nat, later: set<nat>)
    requires ptr <= limit < |p| && limit <= 0x4000
    requires forall k :: 0 <= k < |items| ==> ItemValid(items[k])
    requires WriteItems(p, ptr, limit, items) == Some(w)
    requires w.stops[|items|] <= e < |q| && SameBut(w.packet, q, w.stops[|items|], later)
    requires NeverThrough(p, ptr, limit, items, later)
    ensures NamesReadBack(q, e, w.stops, items)
    decreases |items|
  {
    hide ReadName, Encode, Splice, NamesReadBack, PointerAvoids, StandsAt, Agree, SameBut;
    if items == [] {
      NamesReadBackNone(q, e, w.stops);
    } else {
      var b := ItemBytes(p, ptr, limit, items[0]).value;
      var p1 := Splice(p, ptr, b);
      var w1 := WriteItems(p1, ptr + |b|, limit, items[1..]).value;
      assert w.stops[1..] == w1.stops;
      FilledInLater(p1, ptr + |b|, limit, items[1..], w1, q, e, later);
      NamesReadBackStep(q, e, w.stops, items);
      if items[0].DomainName? {
        WritingGoesForward(p1, ptr + |b|, limit, items[1..]);
        StillThere(p, ptr, b, w.packet, q, w.stops[|items|], later);
        EncodeReadsBut(p, ptr, items[0].name, 0, limit - ptr, b, q, ptr, e, later);
      }
    }
  }

  // ----- The other half

  /** Reading the name at `i` hinges on none of the octets in `later`. */
  ghost predicate HingesOnNone(q: seq<byte>, i: nat, e: nat, used: nat, later: set<nat>)
    requires i < e < |q| && used < MAX_DOMAIN_NAME
  {
    forall x :: x in later ==> !Hinges(q, i, e, used, x)
  }

  lemma NoneAtLabel(q: seq<byte>, i: nat, e: nat, used: nat, later: set<nat>)
    requires i < e < |q| && used < MAX_DOMAIN_NAME && 0 < q[i] < 0x40 && ReadName(q, i, e, used).Some?
    requires HingesOnNone(q, i, e, used, later)
    ensures forall x :: i <= x <= i + q[i] ==> x !in later
    ensures i + 1 + q[i] < e && used + 1 + q[i] < MAX_DOMAIN_NAME
    ensures HingesOnNone(q, i + 1 + q[i], e, used + 1 + q[i], later)
  {
    forall x: nat | i <= x <= i + q[i] ensures x !in later { HingesLabel(q, i, e, used, x); }
    forall x | x in later ensures !Hinges(q, i + 1 + q[i], e, used + 1 + q[i], x) { HingesLabel(q, i, e, used, x); }
    HingesLabel(q, i, e, used, i);
  }

  lemma NoneAtPointer(q: seq<byte>, i: nat, e: nat, used: nat, later: set<nat>)
    requires i < e < |q| && used < MAX_DOMAIN_NAME && q[i] >= 0xC0 && ReadName(q, i, e, used).Some?
    requires HingesOnNone(q, i, e, used, later) && q[PointerTarget(q, i)] != 0
    ensures i !in later && i + 1 !in later && PointerTarget(q, i) < e
    ensures HingesOnNone(q, PointerTarget(q, i), e, used, later)
  {
    hide ReadName;
    HingesPointer(q, i, e, used, i);
    HingesPointer(q, i, e, used, i + 1);
    forall x | x in later ensures !Hinges(q, PointerTarget(q, i), e, used, x) { HingesPointer(q, i, e, used, x); }
  }

  lemma NoneAtRoot(q: seq<byte>, i: nat, e: nat, used: nat, later: set<nat>)
    requires i < e < |q| && used < MAX_DOMAIN_NAME && q[i] == 0 && HingesOnNone(q, i, e, used, later)
    ensures i !in later
  {
    HingesRoot(q, i, e, used, i);
  }

  /** What a match runs through, the reading of it hinges on. */
  lemma {:induction false} MatchHinges(
      p: seq<byte>, end: nat, n: Name, t: nat, q: seq<byte>, e: nat, used: nat, later: set<nat>)
    requires end <= e < |q| && end < |p| && Agree(p, q, end) && n != [] && LabelsValid(n)
    requires MatchAt(p, end, n, t).Some? && MatchAt(p, end, n, t).value < end
    requires used + WireLength(n) <= MAX_DOMAIN_NAME && t < end && HingesOnNone(q, t, e, used, later)
    ensures Avoids(p, end, n, t, later)
    decreases |n|
  {
    hide ReadName, MatchAt, HingesOnNone, PointerTarget;
    var l, u := n[0], t + 1 + |n[0]|;
    MatchReads(p, end, n, t, q, e, used);
    MatchStep(p, end, n, t);
    SameLabelAt(p, q, end, t, l);
    NoneAtLabel(q, t, e, used, later);
    if |n| > 1 {
      var v := Follow(p, end, u).value;
      MatchReads(p, end, n[1..], v, q, e, used + 1 + |l|);
      MatchStep(p, end, n[1..], v);
      FollowHinges(p, end, u, q, e, used + 1 + |l|, later);
      MatchHinges(p, end, n[1..], v, q, e, used + 1 + |l|, later);
    } else {
      MatchEndsInZero(p, end, n, t);
      NoneAtRoot(q, u, e, used + 1 + |l|, later);
    }
  }

  /** Where the search follows a pointer to a label, so does the reader. */
  lemma FollowHinges(p: seq<byte>, end: nat, u: nat, q: seq<byte>, e: nat, used: nat, later: set<nat>)
    requires u < end <= e < |q| && end < |p| && Agree(p, q, end) && used < MAX_DOMAIN_NAME
    requires Follow(p, end, u).Some? && p[Follow(p, end, u).value] != 0
    requires ReadName(q, Follow(p, end, u).value, e, used).Some? && HingesOnNone(q, u, e, used, later)
    ensures u !in later && (p[u] >= 0xC0 ==> u + 1 !in later)
    ensures HingesOnNone(q, Follow(p, end, u).value, e, used, later)
  {
    ReadFollow(p, end, u, q, e, used);
    if p[u] >= 0xC0 {
      NoneAtPointer(q, u, e, used, later);
    } else {
      NoneAtLabel(q, u, e, used, later);
    }
  }

  /** The pointer a name is written as, if reading it hinges on none of the octets. */
  lemma PointerHinges(p: seq<byte>, start: nat, n: Name, off: nat, q: seq<byte>, at: nat, e: nat, later: set<nat>)
    requires start < |p| && start <= 0x4000 && Agree(p, q, start) && start <= at && n != []
    requires LabelsValid(n) && off + WireLength(n) <= MAX_DOMAIN_NAME
    requires FindPointer(p, start, n).Some? && !Overread(p, start, n) && off < MAX_DOMAIN_NAME
    requires StandsAt(q, at, PointerBytes(FindPointer(p, start, n).value)) && at + 2 <= e < |q|
    requires HingesOnNone(q, at, e, off, later) && ReadName(q, at, e, off).Some?
    ensures PointerAvoids(p, start, n, off, later) && at !in later && at + 1 !in later
  {
    var f := FindPointer(p, start, n).value;
    FoundMatches(p, start, n);
    hide ReadName, HingesOnNone, Avoids, PointerTarget, FindPointer, MatchAt, StandsAt, LabelsValid;
    PointerBytesRead(q, at, f);
    MatchReads(p, start, n, f, q, e, off);
    MatchStep(p, start, n, f);
    NoneAtPointer(q, at, e, off, later);
    MatchHinges(p, start, n, f, q, e, off, later);
  }

  lemma RootHinges(p: seq<byte>, start: nat, off: nat, room: int, b: seq<byte>, q: seq<byte>, at: nat, e: nat,
                   later: set<nat>)
    requires start < |p| && Encode(p, start, [], off, room, true) == Some(b) && StandsAt(q, at, b)
    requires at + |b| <= e < |q| && off < MAX_DOMAIN_NAME && HingesOnNone(q, at, e, off, later)
    ensures PointerAvoids(p, start, [], off, later) && forall x :: at <= x < at + |b| ==> x !in later
  {
    EncodeRoot(p, start, off, room, true);
    assert q[at] == b[0];
    NoneAtRoot(q, at, e, off, later);
  }

  /** A label written out: its octets and those of the rest are in the way of nothing. */
  lemma LabelKept(p: seq<byte>, start: nat, n: Name, off: nat, at: nat, len: nat, later: set<nat>)
    requires start < |p| && n != [] && FindPointer(p, start, n).None?
    requires PointerAvoids(View(p, start, n[0], off, true), start, n[1..], off + 1 + |n[0]|, later)
    requires forall x :: at <= x <= at + |n[0]| ==> x !in later
    requires forall x :: at + 1 + |n[0]| <= x < at + 1 + |n[0]| + len ==> x !in later
    ensures PointerAvoids(p, start, n, off, later) && forall x :: at <= x < at + 1 + |n[0]| + len ==> x !in later
  {
    hide FindPointer, Avoids;
  }

  /** The same for what was written of a name: if reading it hinges on none of the octets, none of them is its own. */
  lemma {:induction false} EncodeHinges(
      p: seq<byte>, start: nat, n: Name, off: nat, room: int, b: seq<byte>,
      q: seq<byte>, at: nat, e: nat, later: set<nat>)
    requires start < |p| && start <= 0x4000 && Agree(p, q, start) && start <= at
    requires LabelsValid(n) && off + WireLength(n) <= MAX_DOMAIN_NAME
    requires Encode(p, start, n, off, room, true) == Some(b)
    requires if off == 0 then !Overread(p, start, n) else p[start] != 0
    requires StandsAt(q, at, b) && at + |b| <= e < |q| && HingesOnNone(q, at, e, off, later)
    ensures PointerAvoids(p, start, n, off, later) && forall x :: at <= x < at + |b| ==> x !in later
    decreases |n|
  {
    hide ReadName, Encode, HingesOnNone, Avoids, PointerTarget, FindPointer, PointerAvoids, PointerBytes, LabelBytes;
    EncodeReads(p, start, n, off, room, b, q, at, e);
    if n == [] {
      RootHinges(p, start, off, room, b, q, at, e, later);
    } else {
      EncodeStep(p, start, n, off, room, true);
      if FindPointer(p, start, n).Some? {
        PointerHinges(p, start, n, off, q, at, e, later);
      } else {
        var l: Label, v := n[0], View(p, start, n[0], off, true);
        var rest := Encode(v, start, n[1..], off + 1 + |l|, room - 1 - |l|, true).value;
        LiteralStands(q, at, l, rest);
        NoneAtLabel(q, at, e, off, later);
        EncodeHinges(v, start, n[1..], off + 1 + |l|, room - 1 - |l|, rest, q, at + 1 + |l|, e, later);
        LabelKept(p, start, n, off, at, |rest|, later);
      }
    }
  }

  /** Reading none of the names written hinges on an octet in `later`. */
  ghost predicate NamesHingeOnNone(q: seq<byte>, e: nat, stops: seq<nat>, items: seq<Item>, later: set<nat>)
    requires e < |q| && |stops| == |items| + 1
  {
    forall k :: 0 <= k < |items| && items[k].DomainName? ==> stops[k] < e && HingesOnNone(q, stops[k], e, 0, later)
  }

  lemma NamesHingeStep(q: seq<byte>, e: nat, stops: seq<nat>, items: seq<Item>, later: set<nat>)
    requires e < |q| && |stops| == |items| + 1 && items != [] && NamesHingeOnNone(q, e, stops, items, later)
    ensures items[0].DomainName? ==> stops[0] < e && HingesOnNone(q, stops[0], e, 0, later)
    ensures NamesHingeOnNone(q, e, stops[1..], items[1..], later)
  {
    hide HingesOnNone;
  }

  /** A name with more of the message written behind it. */
  lemma NameNotThrough(p: seq<byte>, ptr: nat, limit: nat, n: Name, b: seq<byte>, packet: seq<byte>, stop: nat,
                       q: seq<byte>, e: nat, later: set<nat>)
    requires ptr <= limit < |p| && limit <= 0x4000 && Valid(n) && Encode(p, ptr, n, 0, limit - ptr, true) == Some(b)
    requires ptr + |b| <= stop <= e < |q| && |packet| == |p| && stop <= |p| && ptr < e && !Overread(p, ptr, n)
    requires Agree(Splice(p, ptr, b), packet, ptr + |b|) && Agree(packet, q, stop) && HingesOnNone(q, ptr, e, 0, later)
    ensures PointerAvoids(p, ptr, n, 0, later) && forall i :: ptr <= i < ptr + |b| ==> i !in later
  {
    hide ReadName, Encode, Splice, Agree, StandsAt, HingesOnNone, PointerAvoids, Overread;
    var p1 := Splice(p, ptr, b);
    AgreeTrans(p1, packet, q, ptr + |b|, stop);
    StandsStill(p1, q, ptr, b);
    AgreeTrans(p, p1, q, ptr, ptr + |b|);
    EncodeHinges(p, ptr, n, 0, limit - ptr, b, q, ptr, e, later);
  }

  lemma {:induction false} ItemsHinge(
      p: seq<byte>, ptr: nat, limit: nat, items: seq<Item>, w: Written, q: seq<byte>, e: nat, later: set<nat>)
    requires ptr <= limit < |p| && limit <= 0x4000
    requires forall k :: 0 <= k < |items| ==> ItemValid(items[k])
    requires WriteItems(p, ptr, limit, items) == Some(w) && NeverOverreads(p, ptr, limit, items)
    requires w.stops[|items|] <= e < |q| && Agree(w.packet, q, w.stops[|items|])
    requires NamesHingeOnNone(q, e, w.stops, items, later)
    ensures NeverThrough(p, ptr, limit, items, later)
    decreases |items|
  {
    hide ReadName, Encode, Splice, HingesOnNone, PointerAvoids, StandsAt, Agree, NamesHingeOnNone, Overread;
    if items != [] {
      var b := ItemBytes(p, ptr, limit, items[0]).value;
      var p1 := Splice(p, ptr, b);
      var w1 := WriteItems(p1, ptr + |b|, limit, items[1..]).value;
      assert w.stops[1..] == w1.stops;
      NamesHingeStep(q, e, w.stops, items, later);
      ItemsHinge(p1, ptr + |b|, limit, items[1..], w1, q, e, later);
      if items[0].DomainName? {
        WritingGoesForward(p1, ptr + |b|, limit, items[1..]);
        NameNotThrough(p, ptr, limit, items[0].name, b, w.packet, w.stops[|items|], q, e, later);
      }
    }
  }

  /** What was written, and zeros behind it. */
  function Extended(p: seq<byte>, k: nat, e: nat): (q: seq<byte>)
    requires k <= |p| && k <= e
    ensures |q| == e + 1 && Agree(p, q, k)
  {
    p[..k] + seq(e + 1 - k, _ => 0)
  }

  lemma SameAlready(p: seq<byte>, q: seq<byte>, k: nat, later: set<nat>)
    requires Agree(p, q, k)
    ensures SameBut(p, q, k, later)
  {
  }

  lemma NameReadsBack(q: seq<byte>, e: nat, stops: seq<nat>, items: seq<Item>, k: nat)
    requires e < |q| && |stops| == |items| + 1 && NamesReadBack(q, e, stops, items)
    requires k < |items| && items[k].DomainName?
    ensures stops[k] < e && ReadName(q, stops[k], e, 0) == Some((items[k].name, stops[k + 1]))
  {
    hide ReadName;
  }

  lemma FillingKept(p: seq<byte>, q: seq<byte>, k: nat, later: set<nat>, x: nat, v: byte)
    requires Agree(p, q, k) && x < |q| && x in later
    ensures SameBut(p, q, k, later) && SameBut(p, q[x := v], k, later)
  {
  }

  /**
   * The exact condition.  The names of a message read back whatever is filled in at the places `later`,
   * if and only if none of these octets is a name's and no match that was used runs through one.
   */
  lemma FilledInExactly(p: seq<byte>, ptr: nat, limit: nat, items: seq<Item>, w: Written, e: nat, later: set<nat>)
    requires ptr <= limit < |p| && limit <= 0x4000
    requires forall k :: 0 <= k < |items| ==> ItemValid(items[k])
    requires WriteItems(p, ptr, limit, items) == Some(w) && w.stops[|items|] <= e
    ensures NeverThrough(p, ptr, limit, items, later) <==>
              forall q :: e < |q| && SameBut(w.packet, q, w.stops[|items|], later) ==>
                  NamesReadBack(q, e, w.stops, items)
  {
    hide WriteItems, NeverOverreads, NamesReadBack, ReadName, SameBut, Hinges, NeverThrough, ItemValid;
    var stop := w.stops[|items|];
    WritingGoesForward(p, ptr, limit, items);
    if NeverThrough(p, ptr, limit, items, later) {
      forall q | e < |q| && SameBut(w.packet, q, stop, later) ensures NamesReadBack(q, e, w.stops, items) {
        FilledInLater(p, ptr, limit, items, w, q, e, later);
      }
    }
    if forall q :: e < |q| && SameBut(w.packet, q, stop, later) ==> NamesReadBack(q, e, w.stops, items) {
      var q := Extended(w.packet, stop, e);
      assert SameBut(w.packet, q, stop, later) by { SameAlready(w.packet, q, stop, later); }
      MessageRoundTrip(p, ptr, limit, items, w, q, e);
      forall k | 0 <= k < |items| && items[k].DomainName?
        ensures w.stops[k] < e && HingesOnNone(q, w.stops[k], e, 0, later)
      {
        NameReadsBack(q, e, w.stops, items, k);
        forall x | x in later ensures !Hinges(q, w.stops[k], e, 0, x) {
          if Hinges(q, w.stops[k], e, 0, x) {
            var v := ChangeShows(q, w.stops[k], e, 0, x);
            FillingKept(w.packet, q, stop, later, x, v);
            NameReadsBack(q[x := v], e, w.stops, items, k);
          }
        }
      }
      ItemsHinge(p, ptr, limit, items, w, q, e, later);
    }
  }
}
