/**
 * Record data written into a message, its names compressed, or into a buffer of its own, and read
 * back: out of a message with names decompressed, or out of the verifier's copy.
 */
module RdataCodec {
  import opened Bytes
  import opened DomainNames
  import opened Rdata
  import NameCodec
  import opened NameRoundTrip

  // ----- What is written, item by item

  function ItemOctets(p: seq<byte>, ptr: nat, limit: nat, item: Item, compress: bool): (r: Option<seq<byte>>)
    requires ptr <= limit <= |p| && (compress ==> limit < |p|)
    ensures r.Some? ==> ptr + |r.value| <= limit
  {
    match item
    case Raw(o) => if ptr + |o| > limit then None else Some(o)
    case DomainName(n) => NameCodec.Encode(p, ptr, n, 0, limit - ptr, compress)
  }

  /** The buffer after the items have been written back to back, and the position behind them. */
  function Outcome(p: seq<byte>, ptr: nat, limit: nat, items: seq<Item>, compress: bool): (r: Option<(seq<byte>, nat)>)
    requires ptr <= limit <= |p| && (compress ==> limit < |p|)
    ensures r.Some? ==> |r.value.0| == |p| && ptr <= r.value.1 <= limit
    decreases |items|
  {
    if items == [] then Some((p, ptr)) else
    match ItemOctets(p, ptr, limit, items[0], compress)
    case None => None
    case Some(b) => Outcome(Splice(p, ptr, b), ptr + |b|, limit, items[1..], compress)
  }

  /** In a message that is `WriteItems`. */
  lemma {:induction false} OutcomeInMessage(p: seq<byte>, ptr: nat, limit: nat, items: seq<Item>)
    requires ptr <= limit < |p|
    ensures var r, w := Outcome(p, ptr, limit, items, true), WriteItems(p, ptr, limit, items);
            if w.None? then r == None else r == Some((w.value.packet, w.value.stops[|items|]))
    decreases |items|
  {
    hide NameCodec.Encode, Splice;
    if items != [] && ItemBytes(p, ptr, limit, items[0]).Some? {
      var b := ItemBytes(p, ptr, limit, items[0]).value;
      OutcomeInMessage(Splice(p, ptr, b), ptr + |b|, limit, items[1..]);
    }
  }

  lemma {:induction false} OutcomeAppend(
      p: seq<byte>, ptr: nat, limit: nat, xs: seq<Item>, ys: seq<Item>, compress: bool)
    requires ptr <= limit <= |p| && (compress ==> limit < |p|)
    ensures Outcome(p, ptr, limit, xs + ys, compress) ==
            match Outcome(p, ptr, limit, xs, compress)
            case None => None
            case Some((q, at)) => Outcome(q, at, limit, ys, compress)
    decreases |xs|
  {
    hide ItemOctets, Splice;
    if xs == [] {
      assert xs + ys == ys;
    } else {
      assert (xs + ys)[0] == xs[0] && (xs + ys)[1..] == xs[1..] + ys;
      match ItemOctets(p, ptr, limit, xs[0], compress)
      case None =>
      case Some(b) => OutcomeAppend(Splice(p, ptr, b), ptr + |b|, limit, xs[1..], ys, compress);
    }
  }

  lemma {:induction false} OutcomeInside(p: seq<byte>, ptr: nat, limit: nat, items: seq<Item>, compress: bool)
    requires ptr <= limit <= |p| && (compress ==> limit < |p|) && Outcome(p, ptr, limit, items, compress).Some?
    ensures var (q, at) := Outcome(p, ptr, limit, items, compress).value; NameCodec.SameOutside(p, q, ptr, at)
    decreases |items|
  {
    hide NameCodec.Encode;
    if items != [] {
      var b := ItemOctets(p, ptr, limit, items[0], compress).value;
      OutcomeInside(Splice(p, ptr, b), ptr + |b|, limit, items[1..], compress);
    }
  }

  /** Either the items are written at `ptr`, or the result is null and nothing outside the room is touched. */
  ghost predicate Put(p: seq<byte>, q: seq<byte>, ptr: nat, limit: nat, items: seq<Item>, compress: bool,
                      r: Option<nat>)
    requires limit <= |p| && (compress ==> limit < |p|)
  {
    if ptr > limit || Outcome(p, ptr, limit, items, compress).None?
    then r == None && NameCodec.SameOutside(p, q, ptr, limit)
    else var (s, at) := Outcome(p, ptr, limit, items, compress).value; r == Some(at) && q == s
  }

  lemma PutThen(p: seq<byte>, q: seq<byte>, s: seq<byte>, ptr: nat, at: nat, limit: nat, xs: seq<Item>, ys: seq<Item>,
                compress: bool, r: Option<nat>)
    requires limit <= |p| == |q| && (compress ==> limit < |p|)
    requires Put(p, q, ptr, limit, xs, compress, Some(at)) && Put(q, s, at, limit, ys, compress, r)
    ensures Put(p, s, ptr, limit, xs + ys, compress, r)
  {
    hide Outcome;
    OutcomeAppend(p, ptr, limit, xs, ys, compress);
    OutcomeInside(p, ptr, limit, xs, compress);
  }

  lemma PutFails(p: seq<byte>, q: seq<byte>, ptr: nat, limit: nat, xs: seq<Item>, ys: seq<Item>, compress: bool)
    requires limit <= |p| && (compress ==> limit < |p|) && Put(p, q, ptr, limit, xs, compress, None)
    ensures Put(p, q, ptr, limit, xs + ys, compress, None)
  {
    hide Outcome;
    if ptr <= limit { OutcomeAppend(p, ptr, limit, xs, ys, compress); }
  }

  /** The data as items: a name for each name, and fixed octets between them. */
  function BodyItems(b: Body): seq<Item> {
    match b
    case Address(o) => [Raw(o)]
    case Target(n) => [DomainName(n)]
    case Soa(m, r, v, w, x, y, z) => [DomainName(m)] + [DomainName(r), Raw(Five(v, w, x, y, z))]
    case Exchange(p, n) => [Raw(Big16(p))] + [DomainName(n)]
    case Mailboxes(m, t) => [DomainName(m)] + [DomainName(t)]
    case Px(p, m, x) => [Raw(Big16(p))] + [DomainName(m), DomainName(x)]
    case Service(p, w, port, t) => [Raw(Big16(p) + (Big16(w) + port))] + [DomainName(t)]
    case Nsec(n, m) => [DomainName(n)] + [Raw(m)]
    case HostInfo(d) => [Raw(d)]
    case Plain(d) => [Raw(d)]
  }

  // ----- Without a message

  function ItemText(item: Item): seq<byte> {
    match item case Raw(o) => o case DomainName(n) => Wire(n)
  }

  function ItemsOctets(items: seq<Item>): (t: seq<byte>) {
    if items == [] then [] else ItemText(items[0]) + ItemsOctets(items[1..])
  }

  predicate ItemsValid(items: seq<Item>) {
    forall k :: 0 <= k < |items| ==> ItemValid(items[k])
  }

  lemma {:induction false} EncodedWhole(p: seq<byte>, start: nat, n: Name, off: nat, room: int)
    requires off <= 255
    ensures NameCodec.Encode(p, start, n, off, room, false) ==
            if LabelsValid(n) && off + WireLength(n) <= MAX_DOMAIN_NAME && WireLength(n) <= room
            then Some(Wire(n)) else None
    decreases |n|
  {
    if n != [] {
      assert WireLength(n[1..]) >= 1;
      assert LabelsValid(n) <==> |n[0]| <= MAX_DOMAIN_LABEL && LabelsValid(n[1..]) by { assert n == [n[0]] + n[1..]; }
      if off + 1 + |n[0]| < MAX_DOMAIN_NAME {
        EncodedWhole(p, start, n[1..], off + 1 + |n[0]|, room - 1 - |n[0]|);
      }
    }
  }

  /**
   * Every name is written whole: the octets of the items stand in the buffer if the names are valid and
   * there is room.
   */
  lemma {:induction false} OutcomeWhole(p: seq<byte>, ptr: nat, limit: nat, items: seq<Item>)
    requires ptr <= limit <= |p|
    ensures Outcome(p, ptr, limit, items, false) ==
            if ItemsValid(items) && ptr + |ItemsOctets(items)| <= limit
            then Some((Splice(p, ptr, ItemsOctets(items)), ptr + |ItemsOctets(items)|)) else None
    decreases |items|
  {
    hide NameCodec.Encode, Splice, Wire, Valid;
    if items == [] {
      SplicedNothing(p, ptr);
    } else {
      assert ItemsValid(items) <==> ItemValid(items[0]) && ItemsValid(items[1..]) by {
        assert items == [items[0]] + items[1..];
      }
      if items[0].DomainName? {
        EncodedWhole(p, ptr, items[0].name, 0, limit - ptr);
        ValidMeans(items[0].name);
      }
      var b := ItemOctets(p, ptr, limit, items[0], false);
      if b.Some? {
        OutcomeWhole(Splice(p, ptr, b.value), ptr + |b.value|, limit, items[1..]);
        if ptr + |b.value| + |ItemsOctets(items[1..])| <= limit {
          SpliceTwice(p, ptr, b.value, ItemsOctets(items[1..]));
        }
      }
    }
  }

  lemma SplicedNothing(p: seq<byte>, at: nat)
    requires at <= |p|
    ensures Splice(p, at, []) == p
  {
  }

  lemma ValidMeans(n: Name)
    ensures Valid(n) <==> LabelsValid(n) && WireLength(n) <= MAX_DOMAIN_NAME
    ensures |Wire(n)| == WireLength(n)
  {
  }

  lemma ItemsTwo(x: Item, y: Item)
    ensures ItemsOctets([x]) == ItemText(x) && ItemsOctets([x] + [y]) == ItemText(x) + ItemText(y)
    ensures ItemsValid([x]) <==> ItemValid(x)
    ensures ItemsValid([x] + [y]) <==> ItemValid(x) && ItemValid(y)
  {
    hide Wire, Valid;
    assert [x][1..] == [] && ([x] + [y])[1..] == [y] && [y][1..] == [];
    assert [x][0] == x && ([x] + [y])[0] == x && ([x] + [y])[1] == y;
  }

  lemma ItemsThree(x: Item, y: Item, z: Item)
    ensures ItemsOctets([x] + [y, z]) == ItemText(x) + (ItemText(y) + ItemText(z))
    ensures ItemsValid([x] + [y, z]) <==> ItemValid(x) && ItemValid(y) && ItemValid(z)
  {
    hide Wire, Valid;
    ItemsTwo(y, z);
    var t := [x] + [y, z];
    assert t[1..] == [y] + [z] && t[0] == x && t[1] == y && t[2] == z;
  }

  /** Together these are the octets of the data. */
  lemma BodyOctets(b: Body)
    ensures ItemsOctets(BodyItems(b)) == DataOctets(b)
    ensures ItemsValid(BodyItems(b)) <==> NamesValid(b)
  {
    NamesAre(b);
    hide Valid, Wire, Big16, Five, ItemsOctets, ItemsValid, NamesValid;
    match b
    case Address(o) => ItemsTwo(Raw(o), Raw(o));
    case Target(n) => ItemsTwo(DomainName(n), DomainName(n));
    case Soa(m, r, v, w, x, y, z) => ItemsThree(DomainName(m), DomainName(r), Raw(Five(v, w, x, y, z)));
    case Exchange(p, n) => ItemsTwo(Raw(Big16(p)), DomainName(n));
    case Mailboxes(m, t) => ItemsTwo(DomainName(m), DomainName(t));
    case Px(p, m, x) => ItemsThree(Raw(Big16(p)), DomainName(m), DomainName(x));
    case Service(p, w, port, t) =>
      ItemsTwo(Raw(Big16(p) + (Big16(w) + port)), DomainName(t));
      assert Big16(p) + (Big16(w) + port) + Wire(t) == Big16(p) + (Big16(w) + (port + Wire(t)));
    case Nsec(n, m) => ItemsTwo(DomainName(n), Raw(m));
    case HostInfo(d) => ItemsTwo(Raw(d), Raw(d));
    case Plain(d) => ItemsTwo(Raw(d), Raw(d));
  }

  // ----- Writing

  method PutName(p: array<byte>, ptr: nat, limit: nat, n: Name, compress: bool) returns (r: Option<nat>)
    requires ptr <= p.Length && limit <= p.Length && (compress ==> ptr < p.Length && limit < p.Length)
    modifies p
    ensures Put(old(p[..]), p[..], ptr, limit, [DomainName(n)], compress, r)
  {
    HoldsIsWire(Wire(n), 0, n);
    if ptr > limit { NoRoom(p[..], ptr, n, limit - ptr, compress); }
    OneItem(p[..], ptr, limit, DomainName(n), compress);
    r := NameCodec.PutDomainNameAsLabels(p, ptr, limit, Wire(n), compress, n);
  }

  lemma NoRoom(p: seq<byte>, ptr: nat, n: Name, room: int, compress: bool)
    requires room < 1 && (compress ==> ptr < |p|)
    ensures NameCodec.Encode(p, ptr, n, 0, room, compress) == None
  {
  }

  lemma OneItem(p: seq<byte>, ptr: nat, limit: nat, item: Item, compress: bool)
    requires limit <= |p| && (compress ==> limit < |p|)
    ensures ptr <= limit ==>
              Outcome(p, ptr, limit, [item], compress) ==
              match ItemOctets(p, ptr, limit, item, compress)
              case None => None
              case Some(b) => Some((Splice(p, ptr, b), ptr + |b|))
  {
    hide ItemOctets, Splice;
    assert [item][1..] == [] && [item][0] == item;
  }

  method PutOctets(p: array<byte>, ptr: nat, limit: nat, t: seq<byte>, ghost compress: bool) returns (next: nat)
    requires ptr + |t| <= limit <= p.Length && (compress ==> limit < p.Length)
    modifies p
    ensures next == ptr + |t| && Put(old(p[..]), p[..], ptr, limit, [Raw(t)], compress, Some(next))
  {
    ghost var P := p[..];
    OneItem(P, ptr, limit, Raw(t), compress);
    for i := 0 to |t|
      invariant forall k :: 0 <= k < p.Length ==> p[k] == if ptr <= k < ptr + i then t[k - ptr] else P[k]
    {
      p[ptr + i] := t[i];
    }
    return ptr + |t|;
  }

  /** Fixed octets with something behind them that do not fit. */
  lemma TooLong(p: seq<byte>, ptr: nat, limit: nat, t: seq<byte>, compress: bool)
    requires limit <= |p| && (compress ==> limit < |p|) && ptr + |t| > limit
    ensures Put(p, p, ptr, limit, [Raw(t)], compress, None)
  {
    OneItem(p, ptr, limit, Raw(t), compress);
  }

  /** Fixed octets and a name of which not even the root's octet fits. */
  lemma TooTight(p: seq<byte>, ptr: nat, limit: nat, t: seq<byte>, n: Name, compress: bool)
    requires limit <= |p| && (compress ==> limit < |p|) && ptr + |t| + 1 > limit
    ensures Put(p, p, ptr, limit, [Raw(t)] + [DomainName(n)], compress, None)
  {
    if ptr + |t| > limit {
      TooLong(p, ptr, limit, t, compress);
      PutFails(p, p, ptr, limit, [Raw(t)], [DomainName(n)], compress);
    } else {
      OutcomeAppend(p, ptr, limit, [Raw(t)], [DomainName(n)], compress);
      OneItem(p, ptr, limit, Raw(t), compress);
      var q := Splice(p, ptr, t);
      OneItem(q, ptr + |t|, limit, DomainName(n), compress);
      NoRoom(q, ptr + |t|, n, limit - ptr - |t|, compress);
      hide Outcome, Splice;
    }
  }

  /** Two names one behind the other. */
  method PutNames(p: array<byte>, ptr: nat, limit: nat, m: Name, n: Name, compress: bool) returns (r: Option<nat>)
    requires ptr <= p.Length && limit <= p.Length && (compress ==> ptr < p.Length && limit < p.Length)
    modifies p
    ensures Put(old(p[..]), p[..], ptr, limit, [DomainName(m)] + [DomainName(n)], compress, r)
  {
    ghost var P := p[..];
    r := PutName(p, ptr, limit, m, compress);
    if r.None? {
      PutFails(P, p[..], ptr, limit, [DomainName(m)], [DomainName(n)], compress);
      return;
    }
    PutWithin(P, p[..], ptr, limit, [DomainName(m)], compress, r.value);
    hide Put;
    ghost var Q := p[..];
    var at := r.value;
    r := PutName(p, at, limit, n, compress);
    PutThen(P, Q, p[..], ptr, at, limit, [DomainName(m)], [DomainName(n)], compress, r);
  }

  lemma PutWithin(p: seq<byte>, q: seq<byte>, ptr: nat, limit: nat, items: seq<Item>, compress: bool, at: nat)
    requires limit <= |p| && (compress ==> limit < |p|) && Put(p, q, ptr, limit, items, compress, Some(at))
    ensures ptr <= at <= limit && |q| == |p|
  {
    hide Outcome;
  }

  /** Fixed octets and a name behind them. */
  method PutThenName(p: array<byte>, ptr: nat, limit: nat, t: seq<byte>, n: Name, compress: bool)
    returns (r: Option<nat>)
    requires ptr + |t| <= limit <= p.Length && (compress ==> limit < p.Length)
    modifies p
    ensures Put(old(p[..]), p[..], ptr, limit, [Raw(t)] + [DomainName(n)], compress, r)
  {
    hide Put;
    ghost var P := p[..];
    var at := PutOctets(p, ptr, limit, t, compress);
    ghost var Q := p[..];
    r := PutName(p, at, limit, n, compress);
    PutThen(P, Q, p[..], ptr, at, limit, [Raw(t)], [DomainName(n)], compress, r);
  }

  /** A name and fixed octets behind it. */
  method PutNameThen(p: array<byte>, ptr: nat, limit: nat, n: Name, t: seq<byte>, compress: bool)
    returns (r: Option<nat>)
    requires ptr <= p.Length && limit <= p.Length && (compress ==> ptr < p.Length && limit < p.Length)
    modifies p
    ensures Put(old(p[..]), p[..], ptr, limit, [DomainName(n)] + [Raw(t)], compress, r)
  {
    hide Put;
    ghost var P := p[..];
    r := PutName(p, ptr, limit, n, compress);
    ghost var Q := p[..];
    if r.None? {
      PutFails(P, Q, ptr, limit, [DomainName(n)], [Raw(t)], compress);
      return;
    }
    var at := r.value;
    PutWithin(P, Q, ptr, limit, [DomainName(n)], compress, at);
    if at + |t| > limit {
      TooLong(Q, at, limit, t, compress);
      PutThen(P, Q, Q, ptr, at, limit, [DomainName(n)], [Raw(t)], compress, None);
      return None;
    }
    var next := PutOctets(p, at, limit, t, compress);
    PutThen(P, Q, p[..], ptr, at, limit, [DomainName(n)], [Raw(t)], compress, Some(next));
    return Some(next);
  }

  method PutSoa(p: array<byte>, ptr: nat, limit: nat, b: Body, compress: bool) returns (r: Option<nat>)
    requires ptr <= p.Length && limit <= p.Length && b.Soa? && (compress ==> ptr < p.Length && limit < p.Length)
    modifies p
    ensures Put(old(p[..]), p[..], ptr, limit, BodyItems(b), compress, r)
  {
    hide Put, Five;
    ghost var P := p[..];
    var numbers := Five(b.serial, b.refresh, b.retry, b.expire, b.min);
    ghost var rest := [DomainName(b.rname)] + [Raw(numbers)];
    assert rest == [DomainName(b.rname), Raw(numbers)];
    r := PutName(p, ptr, limit, b.mname, compress);
    ghost var Q := p[..];
    if r.None? {
      PutFails(P, Q, ptr, limit, [DomainName(b.mname)], rest, compress);
      return;
    }
    var at := r.value;
    PutWithin(P, Q, ptr, limit, [DomainName(b.mname)], compress, at);
    r := PutNameThen(p, at, limit, b.rname, numbers, compress);
    PutThen(P, Q, p[..], ptr, at, limit, [DomainName(b.mname)], rest, compress, r);
  }

  /** PX between two root names has four octets and asks for room for five. */
  ghost predicate PutBody(p: seq<byte>, q: seq<byte>, ptr: nat, limit: nat, b: Body, compress: bool, r: Option<nat>)
    requires limit <= |p| && (compress ==> limit < |p|)
  {
    if b.Px? && ptr + 5 > limit then r == None && NameCodec.SameOutside(p, q, ptr, limit)
    else Put(p, q, ptr, limit, BodyItems(b), compress, r)
  }

  method PutPx(p: array<byte>, ptr: nat, limit: nat, b: Body, compress: bool) returns (r: Option<nat>)
    requires ptr <= p.Length && limit <= p.Length && b.Px? && (compress ==> limit < p.Length)
    modifies p
    ensures PutBody(old(p[..]), p[..], ptr, limit, b, compress, r)
  {
    hide Put;
    ghost var P := p[..];
    if ptr + 5 > limit { return None; }
    var at := PutOctets(p, ptr, limit, Big16(b.preference), compress);
    ghost var Q := p[..];
    ghost var names := [DomainName(b.map822)] + [DomainName(b.mapx400)];
    assert names == [DomainName(b.map822), DomainName(b.mapx400)];
    r := PutNames(p, at, limit, b.map822, b.mapx400, compress);
    PutThen(P, Q, p[..], ptr, at, limit, [Raw(Big16(b.preference))], names, compress, r);
  }

  /** Either the octets are written at `ptr` or the result is null and nothing outside the room is touched. */
  ghost predicate WrittenWhole(p: seq<byte>, q: seq<byte>, ptr: nat, limit: nat, t: seq<byte>, ok: bool, r: Option<nat>)
  {
    if ok then ptr + |t| <= |p| && r == Some(ptr + |t|) && q == Splice(p, ptr, t)
    else r == None && NameCodec.SameOutside(p, q, ptr, limit)
  }

  /** There is room unless the data does not fit, or for PX if it is four octets and only these are left. */
  predicate RoomFor(b: Body, room: int) {
    |DataOctets(b)| <= room && (b.Px? ==> room >= 5)
  }

  /** Without a message all of it is written whole. */
  lemma BodyWhole(p: seq<byte>, q: seq<byte>, ptr: nat, limit: nat, b: Body, r: Option<nat>)
    requires limit <= |p| && PutBody(p, q, ptr, limit, b, false, r)
    ensures WrittenWhole(p, q, ptr, limit, DataOctets(b), NamesValid(b) && RoomFor(b, limit - ptr), r)
  {
    BodyOctets(b);
    hide Outcome, NamesValid, Splice, DataOctets, BodyItems, ItemsOctets, ItemsValid;
    if ptr <= limit { OutcomeWhole(p, ptr, limit, BodyItems(b)); }
  }

  /**
   * Writes the data, names compressed or not.  NSEC and OPT are left out.
   */
  method PutRData(p: array<byte>, ptr: nat, limit: nat, b: Body, rdlength: nat, compress: bool) returns (r: Option<nat>)
    requires ptr <= p.Length && limit <= p.Length && (compress ==> ptr < p.Length && limit < p.Length)
    requires Formed(b) && !b.Nsec? && LengthStored(b, rdlength)
    modifies p
    ensures if b.Address? && rdlength != |b.octets| then r == None && p[..] == old(p[..])
            else PutBody(old(p[..]), p[..], ptr, limit, b, compress, r)
    ensures !compress ==>
              WrittenWhole(old(p[..]), p[..], ptr, limit, DataOctets(b),
                           NamesValid(b) && RoomFor(b, limit - ptr) && (b.Address? ==> rdlength == |b.octets|), r)
  {
    if b.Address? && rdlength != |b.octets| { return None; }
    r := PutFormed(p, ptr, limit, b, rdlength, compress);
    if !compress { BodyWhole(old(p[..]), p[..], ptr, limit, b, r); }
  }

  method PutFormed(p: array<byte>, ptr: nat, limit: nat, b: Body, rdlength: nat, compress: bool)
    returns (r: Option<nat>)
    requires ptr <= p.Length && limit <= p.Length && (compress ==> ptr < p.Length && limit < p.Length)
    requires Formed(b) && !b.Nsec? && LengthStored(b, rdlength) && (b.Address? ==> rdlength == |b.octets|)
    modifies p
    ensures PutBody(old(p[..]), p[..], ptr, limit, b, compress, r)
  {
    hide Put, Five;
    match b
    case Address(o) => r := PutRun(p, ptr, limit, o, compress);
    case Target(n) => r := PutName(p, ptr, limit, n, compress);
    case Soa(_, _, _, _, _, _, _) => r := PutSoa(p, ptr, limit, b, compress);
    case Exchange(preference, n) =>
      if ptr + 3 > limit {
        TooTight(p[..], ptr, limit, Big16(preference), n, compress);
        return None;
      }
      r := PutThenName(p, ptr, limit, Big16(preference), n, compress);
    case Mailboxes(m, t) => r := PutNames(p, ptr, limit, m, t, compress);
    case Px(_, _, _) => r := PutPx(p, ptr, limit, b, compress);
    case Service(priority, weight, port, t) =>
      var fixed := Big16(priority) + (Big16(weight) + port);
      if ptr + 7 > limit {
        TooTight(p[..], ptr, limit, fixed, t, compress);
        return None;
      }
      r := PutThenName(p, ptr, limit, fixed, t, compress);
    case HostInfo(d) => r := PutRun(p, ptr, limit, d, compress);
    case Plain(d) => r := PutRun(p, ptr, limit, d, compress);
  }

  /** Octets copied as they are. */
  method PutRun(p: array<byte>, ptr: nat, limit: nat, t: seq<byte>, ghost compress: bool) returns (r: Option<nat>)
    requires ptr <= p.Length && limit <= p.Length && (compress ==> limit < p.Length)
    modifies p
    ensures Put(old(p[..]), p[..], ptr, limit, [Raw(t)], compress, r)
  {
    hide Put;
    if ptr + |t| > limit {
      TooLong(p[..], ptr, limit, t, compress);
      return None;
    }
    var next := PutOctets(p, ptr, limit, t, compress);
    return Some(next);
  }

  // ----- Reading

  /** A name in a message whose last octet is in front of `end`, and the position behind it. */
  function NameAt(p: seq<byte>, i: nat, end: nat): Option<(Name, nat)>
    requires end < |p|
  {
    if i < end then NameCodec.ReadName(p, i, end, 0) else None
  }

  /** The data of a record out of a message: `end` is where its length says it ends. */
  function ReadBody(p: seq<byte>, ptr: nat, end: nat, kind: Kind): (r: Option<Body>)
    requires ptr <= end < |p|
  {
    match kind
    case AddressKind(size) => if end - ptr != size then None else Some(Address(p[ptr..end]))
    case TargetKind =>
      (match NameAt(p, ptr, end)
       case None => None
       case Some((n, i)) => if i != end then None else Some(Target(n)))
    case SoaKind =>
      (match NameAt(p, ptr, end)
       case None => None
       case Some((m, i)) =>
         match NameAt(p, i, end)
         case None => None
         case Some((n, j)) =>
           if j + 20 != end then None
           else Some(Soa(m, n, Read32(p, j), Read32(p, j + 4), Read32(p, j + 8), Read32(p, j + 12),
                         Read32(p, j + 16))))
    case ExchangeKind =>
      if end - ptr < 3 then None else
      (match NameAt(p, ptr + 2, end)
       case None => None
       case Some((n, i)) => if i != end then None else Some(Exchange(Read16(p, ptr), n)))
    case MailboxesKind =>
      (match NameAt(p, ptr, end)
       case None => None
       case Some((m, i)) =>
         match NameAt(p, i, end)
         case None => None
         case Some((n, j)) => if j != end then None else Some(Mailboxes(m, n)))
    case PxKind =>
      if end - ptr < 4 then None else
      (match NameAt(p, ptr + 2, end)
       case None => None
       case Some((m, i)) =>
         match NameAt(p, i, end)
         case None => None
         case Some((n, j)) => if j != end then None else Some(Px(Read16(p, ptr), m, n)))
    case ServiceKind =>
      if end - ptr < 7 then None else
      (match NameAt(p, ptr + 6, end)
       case None => None
       case Some((n, i)) =>
         if i != end then None
         else Some(Service(Read16(p, ptr), Read16(p, ptr + 2), p[ptr + 4..ptr + 6], n)))
    case HostInfoKind => Some(HostInfo(p[ptr..end]))
    case PlainKind => Some(Plain(p[ptr..end]))
  }

  /** The labels that stand at a position. */
  method ReadLabels(p: seq<byte>, i: nat, ghost n: Name) returns (r: Name)
    requires Holds(p, i, n)
    ensures r == n
  {
    var at: nat := i;
    ghost var u := n;
    r := [];
    while p[at] != 0
      invariant Holds(p, at, u) && n == r + u
      decreases |u|
    {
      var l := p[at + 1..at + 1 + p[at]];
      assert l == u[0];
      r := r + [l];
      at := at + 1 + p[at];
      u := u[1..];
    }
  }

  /**
   * A name of record data: getDomainName in a message; without one AssignDomainName, and the position
   * behind the name that was copied.
   */
  method TakeName(p: seq<byte>, i: nat, end: nat, message: bool, ghost n: Name) returns (r: Name, next: Option<nat>)
    requires message ==> end < |p|
    requires !message ==> StandsAt(p, i, Wire(n)) && Valid(n)
    ensures message ==>
              match NameAt(p, i, end)
              case None => next == None
              case Some((m, j)) => r == m && next == Some(j)
    ensures !message ==> r == n && next == Some(i + WireLength(n))
  {
    r, next := [], None;
    if message {
      hide Holds, NameCodec.ReadName;
      var name := new byte[MAX_DOMAIN_NAME];
      next := NameCodec.GetDomainName(p, i, end, name);
      if next.Some? { r := ReadLabels(name[..], 0, NameAt(p, i, end).value.0); }
    } else {
      HoldsIsWire(p, i, n);
      var len := DomainNameLength(p, i, n);
      r := ReadLabels(p, i, n);
      next := Some(i + len);
    }
  }

  lemma StandsSlice(p: seq<byte>, i: nat, t: seq<byte>)
    requires StandsAt(p, i, t)
    ensures i + |t| <= |p| && p[i..i + |t|] == t
  {
  }

  lemma FiveAre(p: seq<byte>, i: nat, v: u32, w: u32, x: u32, y: u32, z: u32)
    requires StandsAt(p, i, Five(v, w, x, y, z))
    ensures i + 20 <= |p| && Read32(p, i) == v && Read32(p, i + 4) == w && Read32(p, i + 8) == x
    ensures Read32(p, i + 12) == y && Read32(p, i + 16) == z
  {
    hide StandsAt, Big32, Read32;
    StandsParts(p, i, Big32(v), Big32(w) + (Big32(x) + (Big32(y) + Big32(z))));
    StandsParts(p, i + 4, Big32(w), Big32(x) + (Big32(y) + Big32(z)));
    StandsParts(p, i + 8, Big32(x), Big32(y) + Big32(z));
    StandsParts(p, i + 12, Big32(y), Big32(z));
    Read32Is(p, i, v);
    Read32Is(p, i + 4, w);
    Read32Is(p, i + 8, x);
    Read32Is(p, i + 12, y);
    Read32Is(p, i + 16, z);
  }

  lemma SoaParts(p: seq<byte>, ptr: nat, b: Body)
    requires b.Soa? && StandsAt(p, ptr, DataOctets(b))
    ensures var i, j := ptr + |Wire(b.mname)|, ptr + |Wire(b.mname)| + |Wire(b.rname)|;
            && StandsAt(p, ptr, Wire(b.mname)) && StandsAt(p, i, Wire(b.rname))
            && StandsAt(p, j, Five(b.serial, b.refresh, b.retry, b.expire, b.min))
  {
    hide StandsAt, Five, Wire;
    var five := Five(b.serial, b.refresh, b.retry, b.expire, b.min);
    StandsParts(p, ptr, Wire(b.mname), Wire(b.rname) + five);
    StandsParts(p, ptr + |Wire(b.mname)|, Wire(b.rname), five);
  }

  /** What the verifier's copy holds at `ptr`, for which the names have been validated before. */
  ghost predicate CopyOf(p: seq<byte>, ptr: nat, b: Body, kind: Kind) {
    !b.Nsec? && kind == KindOf(b) && Formed(b) && NamesValid(b) && StandsAt(p, ptr, DataOctets(b))
  }

  /**
   * The two ways data is read.  Out of a message: what `ReadBody` says.  Out of a copy: it is taken
   * exactly if it ends where it should, and then it is what was written.
   */
  ghost predicate Taken(p: seq<byte>, ptr: nat, end: nat, kind: Kind, message: bool, b: Body, r: Option<Body>)
    requires ptr <= end && (message ==> end < |p|)
  {
    r == if message then ReadBody(p, ptr, end, kind) else if end == ptr + |DataOctets(b)| then Some(b) else None
  }

  method SetSoa(p: seq<byte>, ptr: nat, end: nat, message: bool, ghost b: Body) returns (r: Option<Body>)
    requires ptr <= end <= |p| && (message ==> end < |p|) && (!message ==> CopyOf(p, ptr, b, SoaKind))
    ensures Taken(p, ptr, end, SoaKind, message, b, r)
  {
    hide Valid, StandsAt, Five, Wire, WireLength, NameAt, Read32;
    if !message {
      NamesAre(b);
      SoaParts(p, ptr, b);
    }
    var mname, at := TakeName(p, ptr, end, message, if message then [] else b.mname);
    if at == None { return None; }
    var rname, i := TakeName(p, at.value, end, message, if message then [] else b.rname);
    if i == None || i.value + 0x14 != end { return None; }
    var j := i.value;
    if !message { FiveAre(p, j, b.serial, b.refresh, b.retry, b.expire, b.min); }
    return Some(Soa(mname, rname, Read32(p, j), Read32(p, j + 4), Read32(p, j + 8), Read32(p, j + 12),
                    Read32(p, j + 16)));
  }

  method SetExchange(p: seq<byte>, ptr: nat, end: nat, message: bool, ghost b: Body) returns (r: Option<Body>)
    requires ptr <= end <= |p| && (message ==> end < |p|) && (!message ==> CopyOf(p, ptr, b, ExchangeKind))
    ensures Taken(p, ptr, end, ExchangeKind, message, b, r)
  {
    hide Valid, StandsAt, Wire, WireLength, NameAt, Read16;
    if end - ptr < 3 {
      if !message { WireNotEmpty(b.exchange); }
      return None;
    }
    if !message {
      NamesAre(b);
      StandsParts(p, ptr, Big16(b.preference), Wire(b.exchange));
      Read16Is(p, ptr, b.preference);
    }
    var n, i := TakeName(p, ptr + 2, end, message, if message then [] else b.exchange);
    if i != Some(end) { return None; }
    return Some(Exchange(Read16(p, ptr), n));
  }

  lemma WireNotEmpty(n: Name)
    ensures |Wire(n)| == WireLength(n) >= 1
  {
  }

  method SetMailboxes(p: seq<byte>, ptr: nat, end: nat, message: bool, ghost b: Body) returns (r: Option<Body>)
    requires ptr <= end <= |p| && (message ==> end < |p|) && (!message ==> CopyOf(p, ptr, b, MailboxesKind))
    ensures Taken(p, ptr, end, MailboxesKind, message, b, r)
  {
    hide Valid, StandsAt, Wire, WireLength, NameAt;
    if !message {
      NamesAre(b);
      StandsParts(p, ptr, Wire(b.mbox), Wire(b.txt));
    }
    var m, at := TakeName(p, ptr, end, message, if message then [] else b.mbox);
    if at == None { return None; }
    var t, i := TakeName(p, at.value, end, message, if message then [] else b.txt);
    if i != Some(end) { return None; }
    return Some(Mailboxes(m, t));
  }

  lemma PxParts(p: seq<byte>, ptr: nat, b: Body)
    requires CopyOf(p, ptr, b, PxKind)
    ensures b.Px? && Valid(b.map822) && Valid(b.mapx400) && ptr + 2 <= |p| && Read16(p, ptr) == b.preference
    ensures StandsAt(p, ptr + 2, Wire(b.map822)) && StandsAt(p, ptr + 2 + WireLength(b.map822), Wire(b.mapx400))
    ensures |DataOctets(b)| == 2 + WireLength(b.map822) + WireLength(b.mapx400) >= 4
  {
    hide Valid, StandsAt, Wire, WireLength, Read16, NamesValid;
    NamesAre(b);
    StandsParts(p, ptr, Big16(b.preference), Wire(b.map822) + Wire(b.mapx400));
    StandsParts(p, ptr + 2, Wire(b.map822), Wire(b.mapx400));
    Read16Is(p, ptr, b.preference);
    WireNotEmpty(b.map822);
    WireNotEmpty(b.mapx400);
  }

  method SetPx(p: seq<byte>, ptr: nat, end: nat, message: bool, ghost b: Body) returns (r: Option<Body>)
    requires ptr <= end <= |p| && (message ==> end < |p|) && (!message ==> CopyOf(p, ptr, b, PxKind))
    ensures Taken(p, ptr, end, PxKind, message, b, r)
  {
    hide Valid, StandsAt, Wire, WireLength, NameAt, Read16, CopyOf, DataOctets;
    if !message { PxParts(p, ptr, b); }
    if end - ptr < 4 { return None; }
    var m, at := TakeName(p, ptr + 2, end, message, if message then [] else b.map822);
    if at == None { return None; }
    var x, i := TakeName(p, at.value, end, message, if message then [] else b.mapx400);
    if i != Some(end) { return None; }
    return Some(Px(Read16(p, ptr), m, x));
  }

  lemma ServiceParts(p: seq<byte>, ptr: nat, b: Body)
    requires CopyOf(p, ptr, b, ServiceKind)
    ensures b.Service? && Valid(b.target) && ptr + 6 <= |p| && p[ptr + 4..ptr + 6] == b.port
    ensures Read16(p, ptr) == b.priority && Read16(p, ptr + 2) == b.weight
    ensures StandsAt(p, ptr + 6, Wire(b.target)) && |DataOctets(b)| == 6 + WireLength(b.target) >= 7
  {
    hide Valid, StandsAt, Wire, WireLength, Read16, NamesValid;
    NamesAre(b);
    StandsParts(p, ptr, Big16(b.priority), Big16(b.weight) + (b.port + Wire(b.target)));
    StandsParts(p, ptr + 2, Big16(b.weight), b.port + Wire(b.target));
    StandsParts(p, ptr + 4, b.port, Wire(b.target));
    Read16Is(p, ptr, b.priority);
    Read16Is(p, ptr + 2, b.weight);
    StandsSlice(p, ptr + 4, b.port);
    WireNotEmpty(b.target);
  }

  method SetService(p: seq<byte>, ptr: nat, end: nat, message: bool, ghost b: Body) returns (r: Option<Body>)
    requires ptr <= end <= |p| && (message ==> end < |p|) && (!message ==> CopyOf(p, ptr, b, ServiceKind))
    ensures Taken(p, ptr, end, ServiceKind, message, b, r)
  {
    hide Valid, StandsAt, Wire, WireLength, NameAt, Read16, CopyOf, DataOctets;
    if !message { ServiceParts(p, ptr, b); }
    if end - ptr < 7 { return None; }
    var target, i := TakeName(p, ptr + 6, end, message, if message then [] else b.target);
    if i != Some(end) { return None; }
    return Some(Service(Read16(p, ptr), Read16(p, ptr + 2), p[ptr + 4..ptr + 6], target));
  }

  method SetTarget(p: seq<byte>, ptr: nat, end: nat, message: bool, ghost b: Body) returns (r: Option<Body>)
    requires ptr <= end <= |p| && (message ==> end < |p|) && (!message ==> CopyOf(p, ptr, b, TargetKind))
    ensures Taken(p, ptr, end, TargetKind, message, b, r)
  {
    hide Valid, StandsAt, Wire, WireLength, NameAt;
    if !message { NamesAre(b); }
    var n, i := TakeName(p, ptr, end, message, if message then [] else b.name);
    if i != Some(end) { return None; }
    return Some(Target(n));
  }

  method SetRData(p: seq<byte>, ptr: nat, end: nat, kind: Kind, message: bool, ghost b: Body) returns (r: Option<Body>)
    requires ptr <= end <= |p| && (message ==> end < |p|) && (!message ==> CopyOf(p, ptr, b, kind))
    requires !message ==> LengthStored(b, end - ptr)
    ensures Taken(p, ptr, end, kind, message, b, r)
  {
    hide Valid, NamesValid, StandsAt, NameAt;
    match kind
    case AddressKind(size) =>
      if !message { StandsSlice(p, ptr, b.octets); }
      if end - ptr != size { return None; }
      return Some(Address(p[ptr..end]));
    case TargetKind => r := SetTarget(p, ptr, end, message, b);
    case SoaKind => r := SetSoa(p, ptr, end, message, b);
    case ExchangeKind => r := SetExchange(p, ptr, end, message, b);
    case MailboxesKind => r := SetMailboxes(p, ptr, end, message, b);
    case PxKind => r := SetPx(p, ptr, end, message, b);
    case ServiceKind => r := SetService(p, ptr, end, message, b);
    case HostInfoKind =>
      if !message { StandsSlice(p, ptr, b.strings); }
      return Some(HostInfo(p[ptr..end]));
    case PlainKind =>
      if !message { StandsSlice(p, ptr, b.data); }
      return Some(Plain(p[ptr..end]));
  }

  // ----- The verifier's copy

  /** Of the layouts written here only PX between two roots does not fit into its own length. */
  lemma ExactRoom(b: Body)
    ensures RoomFor(b, |DataOctets(b)|) <==> !(b.Px? && b.map822 == [] && b.mapx400 == [])
  {
    if b.Px? {
      assert b.map822 != [] ==> WireLength(b.map822[1..]) >= 1;
      assert b.mapx400 != [] ==> WireLength(b.mapx400[1..]) >= 1;
    }
  }

  /** The verifier's copy of a record's data: a fresh buffer of exactly the record's length. */
  method AllocateRRVerifier(b: Body, rdlength: nat) returns (r: Option<array<byte>>)
    requires Formed(b) && !b.Nsec? && rdlength == |DataOctets(b)|
    ensures r.Some? <==> NamesValid(b) && !(b.Px? && b.map822 == [] && b.mapx400 == [])
    ensures r.Some? ==> fresh(r.value) && r.value[..] == DataOctets(b)
  {
    ExactRoom(b);
    var rdata := new byte[rdlength];
    var put := PutRData(rdata, 0, rdlength, b, rdlength, false);
    if put.None? { return None; }
    assert rdata[..] == DataOctets(b);
    return Some(rdata);
  }

  /**
   * The way of a validated record: its length, its octets for the signature, and back again for the
   * comparison with the cached record, which finds it unchanged.  Only PX between two roots is lost.
   */
  method ThroughVerifier(b: Body, rrclass: nat, stored: nat) returns (r: Option<Body>)
    requires Formed(b) && NamesValid(b) && !b.Nsec? && LengthStored(b, stored)
    requires SelfDescribed(b) && rrclass != CLASS_ANY
    ensures r.Some? <==> !(b.Px? && b.map822 == [] && b.mapx400 == [])
    ensures r.Some? ==> r == Some(b) && SameBody(b, r.value)
  {
    hide Valid, NamesValid, SameBody;
    SameAsItself(b);
    var rdlength := GetRDLength(b, rrclass, stored);
    var rdata := AllocateRRVerifier(b, rdlength);
    if rdata.None? { return None; }
    assert StandsAt(rdata.value[..], 0, DataOctets(b));
    r := SetRData(rdata.value[..], 0, rdlength, KindOf(b), false, b);
  }
}
