/**
 * Writing names into a packet with back-pointers and reading them out again (section 4.1.4 of
 * RFC 1035).  The functions say what one pass over the packet computes; the methods are the
 * loops over arrays and are proved to compute exactly that.
 *
 * A packet is an array whose position 0 is the first octet of the message header.  Positions run
 * up to `end`, and the octet at `end` itself must be readable: the code reads it.
 */
module NameCodec {
  import opened Bytes
  import opened DomainNames

  // ----- The search for a back-pointer

  /** Position `t` holds label `l`, all of it before `end`. */
  predicate LabelAt(p: seq<byte>, end: nat, t: nat, l: Label)
    requires end < |p|
  {
    t + |l| < end && p[t] == |l| && StandsAt(p, t + 1, l)
  }

  function PointerTarget(p: seq<byte>, t: nat): (q: nat)
    requires t + 1 < |p| && p[t] >= 0xC0
    ensures q < 0x4000
  {
    var hi: int := p[t];
    (hi - 0xC0) * 256 + p[t + 1]
  }

  /** Where the label after position `u` is: at `u`, or where a usable backward pointer at `u` leads. */
  function Follow(p: seq<byte>, end: nat, u: nat): (q: Option<nat>)
    requires u <= end < |p|
    ensures q.Some? ==> q.value <= u && p[q.value] < 0x40
  {
    if p[u] < 0x40 then Some(u)
    else if p[u] < 0xC0 || u + 1 >= end then None
    else
      var q := PointerTarget(p, u);
      if u < q || p[q] >= 0x40 then None else Some(q)
  }

  /**
   * Walks the packet from `t` along the labels of `n`, following backward pointers.  A full
   * match gives the position of the zero octet taken to be the end of the name, which may be `end`.
   */
  function MatchAt(p: seq<byte>, end: nat, n: Name, t: nat): (z: Option<nat>)
    requires end < |p| && n != []
    ensures z.Some? ==> z.value <= end && p[z.value] == 0
    decreases |n|
  {
    if !LabelAt(p, end, t, n[0]) then None else
    var u := t + 1 + |n[0]|;
    if |n| == 1 then (if p[u] == 0 then Some(u) else None)
    else
      match Follow(p, end, u)
      case None => None
      case Some(q) => MatchAt(p, end, n[1..], q)
  }

  /** The highest position not above `r` at which `n` matches. */
  function SearchDown(p: seq<byte>, end: nat, n: Name, r: int): (f: Option<nat>)
    requires end < |p| && n != []
    decreases r + 1
  {
    if r < 0 then None
    else if MatchAt(p, end, n, r).Some? then Some(r)
    else SearchDown(p, end, n, r - 1)
  }

  /** The search finds a match whenever there is one, and the one it finds is the last. */
  lemma {:induction false} SearchFindsLast(p: seq<byte>, end: nat, n: Name, r: int)
    requires end < |p| && n != []
    ensures var f := SearchDown(p, end, n, r);
            && (f.Some? ==> f.value <= r && MatchAt(p, end, n, f.value).Some?)
            && (forall t: nat :: (f.Some? ==> f.value < t) && t <= r ==> MatchAt(p, end, n, t).None?)
    decreases r + 1
  {
    if r >= 0 && MatchAt(p, end, n, r).None? {
      SearchFindsLast(p, end, n, r - 1);
    }
  }

  /** What the search returns: the last match in the packet, and none for the root. */
  function FindPointer(p: seq<byte>, end: nat, n: Name): (f: Option<nat>)
    requires end < |p|
  {
    if n == [] then None else SearchDown(p, end, n, end - |n[0]| - 1)
  }

  method MatchLabel(p: seq<byte>, end: nat, targ: nat, name: seq<byte>, at: nat, ghost l: Label)
    returns (same: bool)
    requires at < |name| && name[at] == |l| && StandsAt(name, at + 1, l)
    requires targ + |l| < end < |p|
    ensures same <==> LabelAt(p, end, targ, l)
  {
    var len: int := name[at];
    var i := 0;
    while i <= len && p[targ + i] == name[at + i]
      invariant i <= len + 1
      invariant i > 0 ==> p[targ] == len
      invariant forall k :: targ < k < targ + i ==> p[k] == l[k - targ - 1]
    {
      i := i + 1;
    }
    return i > len;
  }

  method FollowPointer(p: seq<byte>, end: nat, targ: nat) returns (q: Option<nat>)
    requires targ <= end < |p|
    ensures q == Follow(p, end, targ)
  {
    if p[targ] < 0x40 { return Some(targ); }
    if p[targ] < 0xC0 { return None; }
    if targ + 1 >= end { return None; }
    var high: int := p[targ];
    var pointertarget := (high - 0xC0) * 256 + p[targ + 1];
    if targ < pointertarget { return None; }
    if p[pointertarget] >= 0x40 { return None; }
    return Some(pointertarget);
  }

  /** One candidate position of the search below: the inner loop of FindCompressionPointer. */
  method MatchName(p: seq<byte>, end: nat, name: seq<byte>, np: nat, start: nat, ghost n: Name)
    returns (found: bool)
    requires end < |p| && n != [] && Holds(name, np, n)
    ensures found <==> MatchAt(p, end, n, start).Some?
  {
    hide Follow, StandsAt;
    var at: nat, targ: nat := np, start;
    ghost var u := n;
    while targ + name[at] < end
      invariant u != [] && Holds(name, at, u)
      invariant MatchAt(p, end, n, start).Some? == MatchAt(p, end, u, targ).Some?
      decreases |u|
    {
      var len := name[at];
      var same := MatchLabel(p, end, targ, name, at, u[0]);
      if !same { return false; }
      targ := targ + 1 + len;
      at := at + 1 + len;
      if name[at] == 0 { return p[targ] == 0; }
      var q := FollowPointer(p, end, targ);
      if q == None { return false; }
      targ := q.value;
      u := u[1..];
    }
    return false;
  }

  method FindCompressionPointer(p: seq<byte>, end: nat, name: seq<byte>, np: nat, ghost n: Name)
    returns (r: Option<nat>)
    requires end < |p| && Holds(name, np, n)
    ensures r == FindPointer(p, end, n)
  {
    if name[np] == 0 { return None; }
    var result: int := end - name[np] - 1;
    while result >= 0
      invariant result <= end - |n[0]| - 1
      invariant FindPointer(p, end, n) == SearchDown(p, end, n, result)
    {
      if p[result] == name[np] && p[result + 1] == name[np + 1] {
        var found := MatchName(p, end, name, np, result, n);
        if found { return Some(result); }
      }
      result := result - 1;
    }
    return None;
  }

  // ----- The search only looks at the octets up to its limit

  lemma {:induction false} MatchUpToLimit(p: seq<byte>, q: seq<byte>, end: nat, n: Name, t: nat)
    requires end < |p| && n != [] && Agree(p, q, end + 1)
    ensures MatchAt(p, end, n, t) == MatchAt(q, end, n, t)
    decreases |n|
  {
    SameLabelAt(p, q, end, t, n[0]);
    if LabelAt(p, end, t, n[0]) && |n| > 1 {
      var u := t + 1 + |n[0]|;
      var f := Follow(p, end, u);
      assert f == Follow(q, end, u);
      if f.Some? { MatchUpToLimit(p, q, end, n[1..], f.value); }
    }
  }

  lemma SameLabelAt(p: seq<byte>, q: seq<byte>, end: nat, t: nat, l: Label)
    requires end < |p| && end < |q| && Agree(p, q, end)
    ensures LabelAt(p, end, t, l) == LabelAt(q, end, t, l)
  {
  }

  lemma {:induction false} FindUpToLimit(p: seq<byte>, q: seq<byte>, end: nat, n: Name)
    requires end < |p| && Agree(p, q, end + 1)
    ensures FindPointer(p, end, n) == FindPointer(q, end, n)
  {
    hide MatchAt;
    if n != [] {
      var r := end - |n[0]| - 1;
      SearchFindsLast(p, end, n, r);
      SearchFindsLast(q, end, n, r);
      var f, g := FindPointer(p, end, n), FindPointer(q, end, n);
      if f.Some? { MatchUpToLimit(p, q, end, n, f.value); }
      if g.Some? { MatchUpToLimit(p, q, end, n, g.value); }
    }
  }

  // ----- Writing a name

  function PointerBytes(offset: nat): (b: seq<byte>)
    ensures |b| == 2
  {
    [0xC0 + (offset / 256) % 64, offset % 256]
  }

  function LabelBytes(l: Label): (b: seq<byte>)
    ensures |b| == 1 + |l|
  {
    [|l|] + l
  }

  /** What the search sees after a label was written: the first one changes the octet at its limit. */
  function View(p: seq<byte>, start: nat, l: Label, off: nat, compress: bool): (v: seq<byte>)
    requires compress ==> start < |p|
    ensures |v| == |p|
  {
    if compress && off == 0 then p[start := |l|] else p
  }

  function Found(p: seq<byte>, start: nat, n: Name, compress: bool): Option<nat>
    requires compress ==> start < |p|
  {
    if compress then FindPointer(p, start, n) else None
  }

  /**
   * The octets that stand for `n` when it is written at `start`, `off` octets of the whole name
   * being done and `room` octets being left; none when the name is malformed or does not fit.
   * The search limit stays at `start`, whose octet changes when the first label is written there.
   */
  function Encode(p: seq<byte>, start: nat, n: Name, off: nat, room: int, compress: bool): (r: Option<seq<byte>>)
    requires compress ==> start < |p|
    ensures r.Some? ==> 1 <= |r.value| <= room
    decreases |n|
  {
    if n == [] then (if room < 1 then None else Some([0]))
    else if |n[0]| > MAX_DOMAIN_LABEL || off + 1 + |n[0]| >= MAX_DOMAIN_NAME then None
    else if Found(p, start, n, compress).Some? then
      (if room < 2 then None else Some(PointerBytes(Found(p, start, n, compress).value)))
    else if room <= 1 + |n[0]| then None
    else
      Prepend(LabelBytes(n[0]), Encode(View(p, start, n[0], off, compress), start, n[1..],
                                       off + 1 + |n[0]|, room - 1 - |n[0]|, compress))
  }

  /** One turn of the writing loop. */
  lemma EncodeStep(p: seq<byte>, start: nat, n: Name, off: nat, room: int, compress: bool)
    requires n != [] && (compress ==> start < |p|)
    ensures var r, f := Encode(p, start, n, off, room, compress), Found(p, start, n, compress);
            && (|n[0]| > MAX_DOMAIN_LABEL || off + 1 + |n[0]| >= MAX_DOMAIN_NAME ==> r == None)
            && (|n[0]| <= MAX_DOMAIN_LABEL && off + 1 + |n[0]| < MAX_DOMAIN_NAME ==>
                  && (f.Some? ==> r == if room < 2 then None else Some(PointerBytes(f.value)))
                  && (f.None? && room <= 1 + |n[0]| ==> r == None)
                  && (f.None? && room > 1 + |n[0]| ==>
                        r == Prepend(LabelBytes(n[0]), Encode(View(p, start, n[0], off, compress), start, n[1..],
                                                              off + 1 + |n[0]|, room - 1 - |n[0]|, compress))))
  {
  }

  lemma EncodeRoot(p: seq<byte>, start: nat, off: nat, room: int, compress: bool)
    requires compress ==> start < |p|
    ensures Encode(p, start, [], off, room, compress) == if room < 1 then None else Some([0])
  {
  }

  method PutLabel(p: array<byte>, at: nat, name: seq<byte>, np: nat, ghost l: Label)
    requires np < |name| && name[np] == |l| && StandsAt(name, np + 1, l)
    requires at + 1 + |l| <= p.Length
    modifies p
    ensures p[..] == Splice(old(p[..]), at, LabelBytes(l))
  {
    ghost var P, w := p[..], LabelBytes(l);
    var len: int := name[np];
    p[at] := len;
    for i := 0 to len
      invariant forall k :: 0 <= k < p.Length ==> p[k] == if at <= k <= at + i then w[k - at] else P[k]
    {
      p[at + 1 + i] := name[np + 1 + i];
    }
  }

  method PutPointer(p: array<byte>, at: nat, offset: nat)
    requires at + 2 <= p.Length
    modifies p
    ensures p[..] == Splice(old(p[..]), at, PointerBytes(offset))
  {
    p[at] := 0xC0 + (offset / 256) % 64;
    p[at + 1] := offset % 256;
  }

  method PutRoot(p: array<byte>, at: nat)
    requires at < p.Length
    modifies p
    ensures p[..] == Splice(old(p[..]), at, [0])
  {
    p[at] := 0;
  }

  /** The octets outside [lo, hi) are the same in both buffers. */
  ghost predicate SameOutside(p: seq<byte>, q: seq<byte>, lo: nat, hi: int) {
    |p| == |q| && forall k :: 0 <= k < |p| && !(lo <= k < hi) ==> p[k] == q[k]
  }

  /** The view stays what the search sees of the buffer. */
  lemma ViewKept(q: seq<byte>, view: seq<byte>, start: nat, at: nat, l: Label, compress: bool)
    requires start <= at && at + 1 + |l| <= |q| && |view| == |q|
    requires compress ==> start < |q| && Agree(q, view, start + 1)
    ensures |View(view, start, l, at - start, compress)| == |q|
    ensures compress ==> Agree(Splice(q, at, LabelBytes(l)), View(view, start, l, at - start, compress), start + 1)
  {
    var s := Splice(q, at, LabelBytes(l));
    if compress && at == start { assert s[start] == LabelBytes(l)[0]; }
  }

  /** One label more is written, and the view of the search with it. */
  method PutLiteral(p: array<byte>, ptr: nat, limit: nat, name: seq<byte>, np: nat, compress: bool,
                    ghost P: seq<byte>, ghost done: seq<byte>, ghost view: seq<byte>, ghost u: Name)
    returns (ghost done': seq<byte>, ghost view': seq<byte>)
    requires u != [] && np < |name| && name[np] == |u[0]| && StandsAt(name, np + 1, u[0])
    requires np == |done| && ptr + np + 1 + |u[0]| < limit <= p.Length && |view| == |P| == p.Length
    requires p[..] == Splice(P, ptr, done) && (compress ==> ptr < |P| && Agree(p[..], view, ptr + 1))
    modifies p
    ensures done' == done + LabelBytes(u[0]) && |done'| == np + 1 + |u[0]| && |view'| == |P|
    ensures p[..] == Splice(P, ptr, done') && (compress ==> Agree(p[..], view', ptr + 1))
    ensures var at := ptr + np;
            Prepend(done, Prepend(LabelBytes(u[0]), Encode(View(view, ptr, u[0], np, compress), ptr, u[1..],
                                                           np + 1 + |u[0]|, limit - at - 1 - |u[0]|, compress)))
            == Prepend(done', Encode(view', ptr, u[1..], np + 1 + |u[0]|, limit - at - 1 - |u[0]|, compress))
  {
    hide Encode, Splice, Prepend, View, Agree, StandsAt;
    var at := ptr + np;
    ghost var q, l := p[..], LabelBytes(u[0]);
    PutLabel(p, at, name, np, u[0]);
    ViewKept(q, view, ptr, at, u[0], compress);
    view' := View(view, ptr, u[0], np, compress);
    PrependTwice(done, l, Encode(view', ptr, u[1..], np + 1 + |u[0]|, limit - at - 1 - |u[0]|, compress));
    SpliceTwice(P, ptr, done, l);
    done' := done + l;
  }

  /**
   * A name is either written whole, as `Encode` says, every other octet keeping its value; or the
   * result is null and nothing outside the room allowed has been touched.
   */
  method PutDomainNameAsLabels(p: array<byte>, ptr: nat, limit: nat, name: seq<byte>, compress: bool, ghost n: Name)
    returns (r: Option<nat>)
    requires limit <= p.Length && ptr <= p.Length && (compress ==> ptr < p.Length) && Holds(name, 0, n)
    modifies p
    ensures var b := Encode(old(p[..]), ptr, n, 0, limit - ptr, compress);
            if b.None? then r == None && SameOutside(old(p[..]), p[..], ptr, limit)
            else r == Some(ptr + |b.value|) && p[..] == Splice(old(p[..]), ptr, b.value)
  {
    hide Encode, Splice, Prepend, FindPointer, PointerBytes, View, LabelBytes;
    ghost var P := p[..];
    ghost var whole := Encode(P, ptr, n, 0, limit - ptr, compress);
    ghost var u: Name, done: seq<byte>, view: seq<byte> := n, [], P;
    var np: nat, at: nat := 0, ptr;
    EncodeRoot(P, ptr, 0, limit - ptr, compress);
    if name[0] == 0 && ptr >= limit { return None; }
    PrependTwice([], [], whole);
    while name[np] != 0
      invariant Holds(name, np, u) && at == ptr + np == ptr + |done| <= p.Length
      invariant at <= limit || done == []
      invariant u == [] ==> at < limit
      invariant np == 0 ==> done == []
      invariant |view| == |P| && p[..] == Splice(P, ptr, done)
      invariant compress ==> Agree(p[..], view, ptr + 1)
      invariant whole == Prepend(done, Encode(view, ptr, u, np, limit - at, compress))
      decreases |u|
    {
      EncodeStep(view, ptr, u, np, limit - at, compress);
      PrependEnds(done, []);
      if name[np] > MAX_DOMAIN_LABEL { return None; }
      if np + 1 + name[np] >= MAX_DOMAIN_NAME { return None; }
      var pointer: Option<nat> := None;
      if compress {
        pointer := FindCompressionPointer(p[..], ptr, name, np, u);
        FindUpToLimit(p[..], view, ptr, u);
      }
      if pointer.Some? {
        if at + 2 > limit { return None; }
        PutPointer(p, at, pointer.value);
        SpliceTwice(P, ptr, done, PointerBytes(pointer.value));
        PrependEnds(done, PointerBytes(pointer.value));
        return Some(at + 2);
      }
      var len: nat := name[np];
      if at + 1 + len >= limit { return None; }
      done, view := PutLiteral(p, ptr, limit, name, np, compress, P, done, view, u);
      np := np + 1 + len;
      at := at + 1 + len;
      u := u[1..];
    }
    PutRoot(p, at);
    SpliceTwice(P, ptr, done, [0]);
    EncodeRoot(view, ptr, np, limit - at, compress);
    PrependEnds(done, [0]);
    return Some(at + 1);
  }

  // ----- Reading a name

  /**
   * The name that reading from `i` yields, `used` octets of name being stored already, and the
   * position after it in the message.  Pointers may go forward; what makes the reading end is
   * that a pointer must lead to a label, and a label uses up name space.
   */
  function ReadName(p: seq<byte>, i: nat, end: nat, used: nat): (r: Option<(Name, nat)>)
    requires i < end < |p| && used < MAX_DOMAIN_NAME
    decreases MAX_DOMAIN_NAME - used, if p[i] >= 0xC0 then 1 else 0
  {
    var len := p[i];
    if len == 0 then Some(([], i + 1))
    else if len < 0x40 then
      if i + 1 + len >= end || used + 1 + len >= MAX_DOMAIN_NAME then None else
      var l: Label := Octets(p, i + 1, len);
      (match ReadName(p, i + 1 + len, end, used + 1 + len)
       case None => None
       case Some((n, next)) => Some(([l] + n, next)))
    else if len < 0xC0 then None
    else
      var q := PointerTarget(p, i);
      if q >= end || p[q] >= 0x40 then None else
      match ReadName(p, q, end, used)
      case None => None
      case Some((n, _)) => Some((n, i + 2))
  }

  /** What getDomainName returns is a legal name: labels of at most 63 octets, 256 octets in all. */
  lemma {:induction false} ReadIsValid(p: seq<byte>, i: nat, end: nat, used: nat)
    requires i < end < |p| && used < MAX_DOMAIN_NAME && ReadName(p, i, end, used).Some?
    ensures var n := ReadName(p, i, end, used).value.0;
            LabelsValid(n) && used + WireLength(n) <= MAX_DOMAIN_NAME
    decreases MAX_DOMAIN_NAME - used, if p[i] >= 0xC0 then 1 else 0
  {
    if p[i] >= 0xC0 {
      ReadIsValid(p, PointerTarget(p, i), end, used);
    } else if p[i] > 0 {
      var len := p[i];
      ReadIsValid(p, i + 1 + len, end, used + 1 + len);
      var n := ReadName(p, i, end, used).value.0;
      assert n[1..] == ReadName(p, i + 1 + len, end, used + 1 + len).value.0;
    }
  }

  /** How many pointers the reading follows, whether or not it succeeds. */
  function PointersFollowed(p: seq<byte>, i: nat, end: nat, used: nat): (k: nat)
    requires i < end < |p| && used < MAX_DOMAIN_NAME
    decreases MAX_DOMAIN_NAME - used, if p[i] >= 0xC0 then 1 else 0
  {
    var len := p[i];
    if len == 0 || 0x40 <= len < 0xC0 then 0
    else if len < 0x40 then
      if i + 1 + len >= end || used + 1 + len >= MAX_DOMAIN_NAME then 0 else
      PointersFollowed(p, i + 1 + len, end, used + 1 + len)
    else
      var q := PointerTarget(p, i);
      if q >= end || p[q] >= 0x40 then 0 else 1 + PointersFollowed(p, q, end, used)
  }

  /** On every buffer, hostile or not, at most 128 pointers are followed. */
  lemma {:induction false} FewPointers(p: seq<byte>, i: nat, end: nat, used: nat)
    requires i < end < |p| && used < MAX_DOMAIN_NAME
    ensures PointersFollowed(p, i, end, used) <= (255 - used) / 2 + (if p[i] >= 0xC0 then 1 else 0)
    ensures PointersFollowed(p, i, end, used) <= 128
    decreases MAX_DOMAIN_NAME - used, if p[i] >= 0xC0 then 1 else 0
  {
    var len := p[i];
    if 0 < len < 0x40 && i + 1 + len < end && used + 1 + len < MAX_DOMAIN_NAME {
      FewPointers(p, i + 1 + len, end, used + 1 + len);
    } else if len >= 0xC0 {
      var q := PointerTarget(p, i);
      if q < end && p[q] < 0x40 { FewPointers(p, q, end, used); }
    }
  }

  /** The labels read so far, and the position noted at the first pointer, joined with the rest. */
  ghost function Resume(got: Name, next: Option<nat>, r: Option<(Name, nat)>): Option<(Name, nat)> {
    if r.None? then None
    else Some((got + r.value.0, if next.Some? then next.value else r.value.1))
  }

  /** Copies the label at `i` over the root octet at `used` and puts a new root octet behind it. */
  method StoreLabel(p: seq<byte>, i: nat, name: array<byte>, used: nat, ghost got: Name)
    requires i < |p| && 0 < p[i] < 0x40 && i + 1 + p[i] <= |p|
    requires used + 1 + p[i] < name.Length && used + 1 == WireLength(got) && Holds(name[..], 0, got)
    modifies name
    ensures Holds(name[..], 0, got + [Octets(p, i + 1, p[i])])
    ensures WireLength(got + [Octets(p, i + 1, p[i])]) == used + 1 + p[i] + 1
  {
    ghost var before, l: Label := name[..], Octets(p, i + 1, p[i]);
    OctetsAre(p, i + 1, p[i]);
    PutLabel(name, used, p, i, l);
    name[used + 1 + p[i]] := 0;
    LabelAppended(before, name[..], got, l, used);
  }

  method GetDomainName(p: seq<byte>, start: int, end: nat, name: array<byte>) returns (r: Option<nat>)
    requires end < |p| && name.Length == MAX_DOMAIN_NAME
    modifies name
    ensures !(0 <= start < end) ==> r == None && name[..] == old(name[..])
    ensures 0 <= start < end ==>
              var s := ReadName(p, start, end, 0);
              if s.None? then r == None else r == Some(s.value.1) && Holds(name[..], 0, s.value.0)
  {
    if start < 0 || start >= end { return None; }
    hide ReadName, Holds, Resume, Splice, StandsAt, WireLength;
    var i: nat, used: nat, nextbyte: Option<nat> := start, 0, None;
    name[0] := 0;
    ghost var got: Name := [];
    HoldsRoot(name[..]);
    ResumeNothing(ReadName(p, start, end, 0));
    while p[i] != 0
      invariant i < end && used < MAX_DOMAIN_NAME
      invariant used + 1 == WireLength(got) && Holds(name[..], 0, got)
      invariant ReadName(p, start, end, 0) == Resume(got, nextbyte, ReadName(p, i, end, used))
      decreases MAX_DOMAIN_NAME - used, if p[i] >= 0xC0 then 1 else 0
    {
      ReadStep(p, i, end, used);
      ResumeEnds(got, nextbyte, i + 1);
      var len: nat := p[i];
      if len < 0x40 {
        if i + 1 + len >= end { return None; }
        if used + 1 + len >= MAX_DOMAIN_NAME { return None; }
        ghost var l: Label := Octets(p, i + 1, len);
        StoreLabel(p, i, name, used, got);
        ResumeLabel(got, nextbyte, l, ReadName(p, i + 1 + len, end, used + 1 + len));
        got := got + [l];
        i, used := i + 1 + len, used + 1 + len;
      } else if len < 0xC0 {
        return None;
      } else {
        var high: int := len;
        var offset := (high - 0xC0) * 256 + p[i + 1];
        ResumePointer(got, nextbyte, i + 2,
                      if offset < end && p[offset] < 0x40 then ReadName(p, offset, end, used) else None);
        if nextbyte == None { nextbyte := Some(i + 2); }
        i := offset;
        if i >= end { return None; }
        if p[i] >= 0x40 { return None; }
      }
    }
    ReadStep(p, i, end, used);
    ResumeEnds(got, nextbyte, i + 1);
    if nextbyte.Some? { return nextbyte; }
    return Some(i + 1);
  }

  lemma HoldsRoot(b: seq<byte>)
    requires |b| > 0 && b[0] == 0
    ensures Holds(b, 0, []) && WireLength([]) == 1
  {
  }

  lemma ResumeNothing(r: Option<(Name, nat)>)
    ensures Resume([], None, r) == r
  {
    if r.Some? { assert [] + r.value.0 == r.value.0; }
  }

  lemma ResumeEnds(got: Name, next: Option<nat>, i: nat)
    ensures Resume(got, next, None) == None
    ensures Resume(got, next, Some(([], i))) == Some((got, if next.Some? then next.value else i))
  {
    assert got + [] == got;
  }

  lemma ResumePointer(got: Name, next: Option<nat>, i: nat, r: Option<(Name, nat)>)
    ensures Resume(got, next, if r.None? then None else Some((r.value.0, i)))
            == Resume(got, if next == None then Some(i) else next, r)
  {
  }

  lemma ResumeLabel(got: Name, next: Option<nat>, l: Label, r: Option<(Name, nat)>)
    ensures Resume(got, next, if r.None? then None else Some(([l] + r.value.0, r.value.1))) ==
            Resume(got + [l], next, r)
  {
    if r.Some? { assert got + ([l] + r.value.0) == (got + [l]) + r.value.0; }
  }

  lemma LabelAppended(b: seq<byte>, c: seq<byte>, got: Name, l: Label, at: nat)
    requires Holds(b, 0, got) && at + 1 == WireLength(got) && at + 1 + |l| < |b|
    requires c == Splice(b, at, LabelBytes(l))[at + 1 + |l| := 0]
    ensures Holds(c, 0, got + [l]) && WireLength(got + [l]) == at + 1 + |l| + 1
  {
    var w, s := LabelBytes(l), Splice(b, at, LabelBytes(l));
    assert s[at] == w[0];
    forall k | at + 1 <= k < at + 1 + |l| ensures c[k] == l[k - at - 1] {
      assert s[k] == w[k - at];
    }
    HoldsAppend(b, c, 0, got, l, at);
    WireLengthAppend(got, [l]);
  }

  /** One turn of the reading loop. */
  lemma ReadStep(p: seq<byte>, i: nat, end: nat, used: nat)
    requires i < end < |p| && used < MAX_DOMAIN_NAME
    ensures var r, len := ReadName(p, i, end, used), p[i];
            && (len == 0 ==> r == Some(([], i + 1)))
            && (0 < len < 0x40 && (i + 1 + len >= end || used + 1 + len >= MAX_DOMAIN_NAME) ==> r == None)
            && (0 < len < 0x40 && i + 1 + len < end && used + 1 + len < MAX_DOMAIN_NAME ==>
                  var l: Label, s := Octets(p, i + 1, len), ReadName(p, i + 1 + len, end, used + 1 + len);
                  r == if s.None? then None else Some(([l] + s.value.0, s.value.1)))
            && (0x40 <= len < 0xC0 ==> r == None)
            && (len >= 0xC0 ==>
                  var q := PointerTarget(p, i);
                  if q >= end || p[q] >= 0x40 then r == None
                  else var s := ReadName(p, q, end, used);
                       r == if s.None? then None else Some((s.value.0, i + 2)))
  {
  }

  // ----- Skipping a name

  /** Where skipDomainName says the name at `i` ends; `total` octets of it have been passed. */
  function SkipName(p: seq<byte>, i: nat, end: nat, total: nat): (r: Option<nat>)
    requires i < end < |p|
    decreases |p| - i
  {
    var len := p[i];
    if len == 0 then Some(i + 1)
    else if len < 0x40 then
      if i + 1 + len >= end || total + 1 + len >= MAX_DOMAIN_NAME then None
      else SkipName(p, i + 1 + len, end, total + 1 + len)
    else if len < 0xC0 then None
    else Some(i + 2)
  }

  method SkipDomainName(p: seq<byte>, start: int, end: nat) returns (r: Option<nat>)
    requires end < |p|
    ensures r == if 0 <= start < end then SkipName(p, start, end, 0) else None
  {
    var total: nat := 0;
    if start < 0 || start >= end { return None; }
    var ptr: nat := start;
    while true
      invariant ptr < end
      invariant SkipName(p, start, end, 0) == SkipName(p, ptr, end, total)
      decreases |p| - ptr
    {
      var len: nat := p[ptr];
      if len == 0 { return Some(ptr + 1); }
      if len < 0x40 {
        if ptr + 1 + len >= end { return None; }
        if total + 1 + len >= MAX_DOMAIN_NAME { return None; }
        ptr, total := ptr + 1 + len, total + 1 + len;
      } else if len < 0xC0 {
        return None;
      } else {
        return Some(ptr + 2);
      }
    }
  }

  /** Skipping agrees with reading wherever reading succeeds. */
  lemma {:induction false} SkipRefinesRead(p: seq<byte>, i: nat, end: nat, used: nat)
    requires i < end < |p| && used < MAX_DOMAIN_NAME && ReadName(p, i, end, used).Some?
    ensures SkipName(p, i, end, used) == Some(ReadName(p, i, end, used).value.1)
    decreases MAX_DOMAIN_NAME - used, if p[i] >= 0xC0 then 1 else 0
  {
    if 0 < p[i] < 0x40 {
      SkipRefinesRead(p, i + 1 + p[i], end, used + 1 + p[i]);
    }
  }

  /** Labels of at most 63 octets are passed, and a root octet or a pointer ends the name, if the limits allow. */
  lemma {:induction false} SkipsLabels(p: seq<byte>, i: nat, end: nat, total: nat, n: Name)
    requires i < end < |p| && LabelsValid(n) && i + WireLength(n) <= |p|
    requires var at := i + WireLength(n) - 1;
             Holds(p[at := 0], i, n) && (p[at] == 0 || p[at] >= 192)
    ensures var at := i + WireLength(n) - 1;
            SkipName(p, i, end, total) ==
            if n == [] || (total + WireLength(n) <= 256 && at < end) then Some(at + if p[at] == 0 then 1 else 2)
            else None
    decreases |n|
  {
    var at := i + WireLength(n) - 1;
    if n != [] {
      NameStep(n);
      assert p[i] == p[at := 0][i] == |n[0]|;
      var j := i + 1 + |n[0]|;
      assert WireLength(n[1..]) >= 1;
      if j < end && total + 1 + |n[0]| < 256 { SkipsLabels(p, j, end, total + 1 + |n[0]|, n[1..]); }
    }
  }
}
