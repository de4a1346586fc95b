/**
 * Ordinary records whose name is lost.  The search for a pointer takes an octet for the end of a name
 * that is none: one in the place of the length, which is filled in afterwards, or the one at the
 * search limit, which the pointer itself is written over.
 */
module RecordsLost {
  import opened Bytes
  import opened DomainNames
  import opened NameCodec
  import opened NameRoundTrip
  import opened Rdata
  import opened RdataCodec
  import opened Records
  import opened RecordRoundTrip
  import Sections

  /** The message with the owner's name and the fixed part in it. */
  ghost function WithFront(p: seq<byte>, ptr: nat, limit: nat, r: Resource, at: nat): (v: seq<byte>)
    requires ptr <= limit < |p| && HeadAt(p, ptr, limit, r) == Some(at) && at + 10 <= limit
    ensures |v| == |p| && StandsAt(v, at, FixedPart(r)) && forall i :: at + 8 <= i < |p| ==> v[i] == p[i]
  {
    Splice(Splice(p, ptr, ItemBytes(p, ptr, limit, DomainName(r.name)).value), at, FixedPart(r))
  }

  /** Writing the items into the message gives `w`. */
  ghost predicate Writes(p: seq<byte>, ptr: nat, limit: nat, items: seq<Item>, w: Written) {
    ptr <= limit < |p| && WriteItems(p, ptr, limit, items) == Some(w)
  }

  lemma WriteStep(p: seq<byte>, ptr: nat, limit: nat, first: Item, rest: seq<Item>, b: seq<byte>, w: Written)
    requires ptr <= limit < |p| && ItemBytes(p, ptr, limit, first) == Some(b)
    requires Writes(Splice(p, ptr, b), ptr + |b|, limit, rest, w)
    ensures Writes(p, ptr, limit, [first] + rest, Written(w.packet, [ptr] + w.stops))
  {
    var items := [first] + rest;
    assert items[0] == first && items[1..] == rest;
    hide ItemBytes, Splice;
  }

  lemma RawStep(p: seq<byte>, q: seq<byte>, ptr: nat, limit: nat, o: seq<byte>, rest: seq<Item>, w: Written)
    requires ptr + |o| <= limit < |p| && q == Splice(p, ptr, o) && Writes(q, ptr + |o|, limit, rest, w)
    ensures Writes(p, ptr, limit, [Raw(o)] + rest, Written(w.packet, [ptr] + w.stops))
  {
    hide Writes;
    WriteStep(p, ptr, limit, Raw(o), rest, o, w);
  }

  lemma WriteNone(p: seq<byte>, ptr: nat, limit: nat)
    requires ptr <= limit < |p|
    ensures Writes(p, ptr, limit, [], Written(p, [ptr]))
  {
  }

  /** A name of one label of one octet is written as a pointer. */
  lemma PointerWritten(v: seq<byte>, i: nat, limit: nat, c: byte, t: nat)
    requires i + 2 <= limit < |v| && FindPointer(v, i, [[c]]) == Some(t)
    ensures Writes(v, i, limit, [DomainName([[c]])], Written(Splice(v, i, PointerBytes(t)), [i, i + 2]))
  {
    var n: Name := [[c]];
    EncodeStep(v, i, n, 0, limit - i, true);
    assert ItemBytes(v, i, limit, DomainName(n)) == Some(PointerBytes(t));
    hide Writes, Encode, FindPointer, Splice, ItemBytes, PointerBytes;
    var m := Splice(v, i, PointerBytes(t));
    WriteNone(m, i + 2, limit);
    WriteStep(v, i, limit, DomainName(n), [], PointerBytes(t), Written(m, [i + 2]));
    assert [DomainName(n)] + [] == [DomainName(n)] && [i] + [i + 2] == [i, i + 2];
  }

  lemma StaleOver(p: seq<byte>, v: seq<byte>, at: nat)
    requires at + 10 <= |p| == |v| && forall i :: at + 8 <= i < |p| ==> v[i] == p[i]
    ensures Splice(v, at + 8, Stale(p, at)) == v
  {
    assert Stale(p, at) == [v[at + 8], v[at + 9]];
  }

  /** The items of a record, in the message whose items up to the data have been written. */
  lemma FrontWritten(p: seq<byte>, p1: seq<byte>, v: seq<byte>, ptr: nat, limit: nat, r: Resource, at: nat,
                     stale: seq<byte>, b: seq<byte>, w: Written)
    requires ptr <= limit < |p| && ItemBytes(p, ptr, limit, DomainName(r.name)) == Some(b) && at == ptr + |b|
    requires p1 == Splice(p, ptr, b) && at + 10 <= limit && v == Splice(p1, at, FixedPart(r))
    requires |stale| == 2 && Splice(v, at + 8, stale) == v && Writes(v, at + 10, limit, BodyItems(r.body), w)
    ensures Writes(p, ptr, limit, RecordItems(r, stale, true), Written(w.packet, [ptr] + ([at] + ([at + 8] + w.stops))))
  {
    hide Writes, ItemBytes, Splice, BodyItems, FixedPart;
    var data := BodyItems(r.body);
    var w0 := Written(w.packet, [at + 8] + w.stops);
    RawStep(v, v, at + 8, limit, stale, data, w);
    RawStep(p1, v, at, limit, FixedPart(r), [Raw(stale)] + data, w0);
    var w1 := Written(w.packet, [at] + w0.stops);
    WriteStep(p, ptr, limit, DomainName(r.name), [Raw(FixedPart(r))] + ([Raw(stale)] + data), b, w1);
  }

  lemma FromItems(p: seq<byte>, ptr: nat, limit: nat, r: Resource, at: nat, w: Written, stop: nat)
    requires ptr <= limit < |p| && HeadAt(p, ptr, limit, r) == Some(at) && at + 10 < limit
    requires Writes(p, ptr, limit, RecordItems(r, Stale(p, at), true), w)
    requires w.stops != [] && w.stops[|w.stops| - 1] == stop && at + 10 <= stop && |w.packet| == |p|
    ensures WriteFrom(p, ptr, limit, r, true, at) == Some((Splice(w.packet, at + 8, Big16(stop - at - 10)), stop))
  {
    hide WriteItems, Splice, HeadAt, RecordItems, Big16, Stale, WriteFrom;
    WriteFromIs(p, w.packet, ptr, limit, r, true, at, Some(stop));
  }

  lemma LastOfFour(a: nat, b: nat, c: nat, stops: seq<nat>)
    requires stops != []
    ensures var s := [a] + ([b] + ([c] + stops)); |s| == |stops| + 3 && s[|s| - 1] == stops[|stops| - 1]
  {
  }

  lemma FrontIs(p: seq<byte>, ptr: nat, limit: nat, r: Resource, at: nat) returns (p1: seq<byte>, b: seq<byte>)
    requires ptr <= limit < |p| && HeadAt(p, ptr, limit, r) == Some(at) && at + 10 <= limit
    ensures ItemBytes(p, ptr, limit, DomainName(r.name)) == Some(b) && at == ptr + |b| && p1 == Splice(p, ptr, b)
    ensures WithFront(p, ptr, limit, r, at) == Splice(p1, at, FixedPart(r))
  {
    hide Encode, Splice, FixedPart;
    b := ItemBytes(p, ptr, limit, DomainName(r.name)).value;
    p1 := Splice(p, ptr, b);
  }

  lemma RecordFrom(p: seq<byte>, ptr: nat, limit: nat, r: Resource, update: bool, at: nat)
    requires ptr <= limit < |p| && HeadAt(p, ptr, limit, r) == Some(at) && at + 10 < limit
    requires Compressed(r, update) && !r.body.Px?
    ensures WriteRecord(p, ptr, limit, r, update) == WriteFrom(p, ptr, limit, r, true, at)
  {
    hide HeadAt, WriteFrom;
  }

  /** A record is written when its data is. */
  lemma WrittenWith(p: seq<byte>, ptr: nat, limit: nat, r: Resource, update: bool, at: nat, v: seq<byte>, w: Written,
                    stop: nat)
    requires ptr <= limit < |p| && HeadAt(p, ptr, limit, r) == Some(at) && at + 10 < limit
    requires v == WithFront(p, ptr, limit, r, at) && Compressed(r, update) && !r.body.Px?
    requires Writes(v, at + 10, limit, BodyItems(r.body), w) && |w.packet| == |p|
    requires w.stops != [] && w.stops[|w.stops| - 1] == stop && at + 10 <= stop
    ensures WriteRecord(p, ptr, limit, r, update) == Some((Splice(w.packet, at + 8, Big16(stop - at - 10)), stop))
  {
    StaleOver(p, v, at);
    RecordFrom(p, ptr, limit, r, update, at);
    hide *;
    var p1, b := FrontIs(p, ptr, limit, r, at);
    FrontWritten(p, p1, v, ptr, limit, r, at, Stale(p, at), b, w);
    LastOfFour(ptr, at, at + 8, w.stops);
    FromItems(p, ptr, limit, r, at, Written(w.packet, [ptr] + ([at] + ([at + 8] + w.stops))), stop);
  }

  /** The record is seen without its data. */
  lemma SeenUnparsed(q: seq<byte>, ptr: nat, at: nat, stop: nat, e: nat, r: Resource, oneSecond: nat)
    requires ptr < e < |q| && at + 10 < stop <= e && stop - at - 10 <= MAXIMUM_RD_SIZE && oneSecond > 0
    requires ReadName(q, ptr, e, 0) == Some((r.name, at)) && ResourceFormed(r)
    requires StandsAt(q, at, FixedPart(r)) && StandsAt(q, at + 8, Big16(stop - at - 10))
    requires ReadBody(q, at + 10, stop, KindOf(r.body)) == None
    ensures ReadResource(q, ptr, e, oneSecond) == Some((SeenOf(r, oneSecond).(data := Unparsed), stop))
  {
    FrontReads(q, ptr, at, stop, e, r);
    hide ReadName, ReadBody, StandsAt, FixedPart, Big16, Sections.ReadRecord, KindOf, KindOfType, Lifetime, DataOctets,
      Formed;
  }

  /** The owner's name is read back all the same. */
  lemma OwnerReads(p: seq<byte>, ptr: nat, limit: nat, r: Resource, at: nat, f: seq<byte>, q: seq<byte>, e: nat)
    requires ptr <= limit < |p| && limit <= 0x4000 && HeadAt(p, ptr, limit, r) == Some(at) && at + 10 <= limit
    requires Valid(r.name) && !Overread(p, ptr, r.name)
    requires Agree(WithFront(p, ptr, limit, r, at), f, at) && Agree(f, q, at) && at <= e < |q|
    ensures ReadName(q, ptr, e, 0) == Some((r.name, at))
  {
    hide Encode, ReadName, Splice, Agree, StandsAt, FixedPart, Overread;
    var p1, b := FrontIs(p, ptr, limit, r, at);
    var v := WithFront(p, ptr, limit, r, at);
    AgreeTrans(p1, v, f, at, at);
    AgreeTrans(p1, f, q, at, at);
    StandsStill(p1, q, ptr, b);
    AgreeTrans(p, p1, q, ptr, at);
    NameRoundTrip.NameRoundTrip(p, ptr, r.name, limit - ptr, b, q, e);
  }

  // ----- Lost to the length

  /** A time to live ending in 1, and behind it whatever was there before: an octet and a zero. */
  lemma StaleMatch(v: seq<byte>, at: nat, c: byte)
    requires at + 10 < |v| && v[at + 7] == 1 && v[at + 8] == c && v[at + 9] == 0
    ensures FindPointer(v, at + 10, [[c]]) == Some(at + 7)
  {
    var n: Name := [[c]];
    assert n[0] == [c];
    assert !LabelAt(v, at + 10, at + 8, [c]);
    assert MatchAt(v, at + 10, n, at + 8) == None;
    assert MatchAt(v, at + 10, n, at + 7) == Some(at + 9);
    assert SearchDown(v, at + 10, n, at + 7) == Some(at + 7);
  }

  lemma LengthRead(q: seq<byte>, at: nat)
    requires at + 12 < |q| && at + 7 < 0x4000 && q[at + 7] == 1 && q[at + 9] == 2
    requires StandsAt(q, at + 10, PointerBytes(at + 7))
    ensures ReadName(q, at + 10, at + 12, 0) == None
  {
    PointerBytesRead(q, at + 10, at + 7);
    assert ReadName(q, at + 9, at + 12, 2) == None;
    assert ReadName(q, at + 7, at + 12, 0) == None;
  }

  /** What stands in a message that keeps the record. */
  lemma RecordStands(v: seq<byte>, d: seq<byte>, at: nat, i: nat, pair: seq<byte>, len: nat, f: seq<byte>, q: seq<byte>)
    requires at + 10 <= i && i + |pair| <= |v| && f == Splice(Splice(v, i, pair), at + 8, Big16(len))
    requires |d| == 8 && StandsAt(v, at, d) && Agree(f, q, i + |pair|)
    ensures StandsAt(q, at, d) && StandsAt(q, at + 8, Big16(len)) && StandsAt(q, i, pair)
    ensures forall x :: at + 10 <= x < i ==> q[x] == v[x]
    ensures q[at + 8] == Big16(len)[0] && q[at + 9] == Big16(len)[1]
  {
    var m := Splice(v, i, pair);
    StandsStill(v, m, at, d);
    StandsStill(m, f, at, d);
    StandsStill(f, q, at, d);
    StandsStill(f, q, at + 8, Big16(len));
    assert f[at + 8] == Big16(len)[0] && f[at + 9] == Big16(len)[1];
  }

  lemma FixedEnd(v: seq<byte>, at: nat, r: Resource)
    requires StandsAt(v, at, FixedPart(r))
    ensures at + 7 < |v| && v[at + 7] == r.ttl % 0x100
  {
    var d := FixedPart(r);
    assert v[at + 7] == d[7];
  }

  /**
   * A record whose data is a name of one label of one octet, like "a", and whose time to live ends in the
   * octet 1.  If the places of the length happen to hold that octet and a zero, then the name is written
   * as a pointer to the end of the time to live; the length, 2, is filled in behind that; and the
   * record is read without its data.
   */
  lemma LostToLength(p: seq<byte>, ptr: nat, limit: nat, r: Resource, c: byte, at: nat, update: bool)
    returns (f: seq<byte>)
    requires ptr <= limit < |p| && limit <= 0x4000 && HeadAt(p, ptr, limit, r) == Some(at) && at + 12 <= limit
    requires Valid(r.name) && !Overread(p, ptr, r.name)
    requires ResourceFormed(r) && r.body == Target([[c]]) && r.ttl % 0x100 == 1 && Stale(p, at) == [c, 0]
    ensures WriteRecord(p, ptr, limit, r, update) == Some((f, at + 12))
    ensures forall q, e, oneSecond: nat ::
              Agree(f, q, at + 12) && at + 12 <= e < |q| && oneSecond > 0 ==>
              ReadResource(q, ptr, e, oneSecond) == Some((SeenOf(r, oneSecond).(data := Unparsed), at + 12))
  {
    var v, pair := WithFront(p, ptr, limit, r, at), PointerBytes(at + 7);
    f := Splice(Splice(v, at + 10, pair), at + 8, Big16(2));
    LengthWritten(p, ptr, limit, r, c, at, update, v);
    forall q, e, oneSecond: nat |
      Agree(f, q, at + 12) && at + 12 <= e < |q| && oneSecond > 0
      ensures ReadResource(q, ptr, e, oneSecond) == Some((SeenOf(r, oneSecond).(data := Unparsed), at + 12))
    {
      LengthSeen(p, ptr, limit, r, c, at, f, q, e, oneSecond);
    }
  }

  lemma TargetItems(r: Resource, c: byte, update: bool)
    requires ResourceFormed(r) && r.body == Target([[c]])
    ensures Compressed(r, update) && BodyItems(r.body) == [DomainName([[c]])]
  {
  }

  lemma StaleOctets(p: seq<byte>, v: seq<byte>, at: nat, c: byte)
    requires at + 10 <= |p| == |v| && Stale(p, at) == [c, 0] && forall i :: at + 8 <= i < |p| ==> v[i] == p[i]
    ensures v[at + 8] == c && v[at + 9] == 0
  {
    assert v[at + 8] == Stale(p, at)[0] && v[at + 9] == Stale(p, at)[1];
  }

  /** The data on its own. */
  lemma TargetWritten(v: seq<byte>, i: nat, limit: nat, c: byte, t: nat) returns (w: Written)
    requires i + 2 <= limit < |v| && FindPointer(v, i, [[c]]) == Some(t)
    ensures Writes(v, i, limit, [DomainName([[c]])], w) && w.packet == Splice(v, i, PointerBytes(t))
    ensures w.stops != [] && w.stops[|w.stops| - 1] == i + 2
  {
    hide *;
    PointerWritten(v, i, limit, c, t);
    w := Written(Splice(v, i, PointerBytes(t)), [i, i + 2]);
  }

  lemma LengthWritten(p: seq<byte>, ptr: nat, limit: nat, r: Resource, c: byte, at: nat, update: bool, v: seq<byte>)
    requires ptr <= limit < |p| && limit <= 0x4000 && HeadAt(p, ptr, limit, r) == Some(at) && at + 12 <= limit
    requires ResourceFormed(r) && r.body == Target([[c]]) && r.ttl % 0x100 == 1 && Stale(p, at) == [c, 0]
    requires v == WithFront(p, ptr, limit, r, at)
    ensures WriteRecord(p, ptr, limit, r, update) ==
            Some((Splice(Splice(v, at + 10, PointerBytes(at + 7)), at + 8, Big16(2)), at + 12))
  {
    hide *;
    TargetItems(r, c, update);
    FixedEnd(v, at, r);
    StaleOctets(p, v, at, c);
    StaleMatch(v, at, c);
    var w := TargetWritten(v, at + 10, limit, c, at + 7);
    WrittenWith(p, ptr, limit, r, update, at, v, w, at + 12);
  }

  lemma LengthSeen(p: seq<byte>, ptr: nat, limit: nat, r: Resource, c: byte, at: nat, f: seq<byte>,
                   q: seq<byte>, e: nat, oneSecond: nat)
    requires ptr <= limit < |p| && limit <= 0x4000 && HeadAt(p, ptr, limit, r) == Some(at) && at + 12 <= limit
    requires Valid(r.name) && !Overread(p, ptr, r.name)
    requires ResourceFormed(r) && r.body == Target([[c]]) && r.ttl % 0x100 == 1
    requires f == Splice(Splice(WithFront(p, ptr, limit, r, at), at + 10, PointerBytes(at + 7)), at + 8, Big16(2))
    requires Agree(f, q, at + 12) && at + 12 <= e < |q| && oneSecond > 0
    ensures ReadResource(q, ptr, e, oneSecond) == Some((SeenOf(r, oneSecond).(data := Unparsed), at + 12))
  {
    hide *;
    var u := WithFront(p, ptr, limit, r, at);
    AgreeLess(f, q, at, at + 12);
    TargetKindOf(r);
    LengthStands(u, FixedPart(r), at, f, q);
    FixedEnd(q, at, r);
    OwnerReads(p, ptr, limit, r, at, f, q, e);
    HeadForward(p, ptr, limit, r, at);
    LengthRead(q, at);
    TargetLost(q, at);
    SeenUnparsed(q, ptr, at, at + 12, e, r, oneSecond);
  }

  /** What stands in a message that keeps such a record. */
  lemma LengthStands(u: seq<byte>, d: seq<byte>, at: nat, f: seq<byte>, q: seq<byte>)
    requires at + 12 < |u| && |d| == 8 && StandsAt(u, at, d)
    requires f == Splice(Splice(u, at + 10, PointerBytes(at + 7)), at + 8, Big16(2)) && Agree(f, q, at + 12)
    ensures StandsAt(q, at, d) && StandsAt(q, at + 8, Big16(2)) && StandsAt(q, at + 10, PointerBytes(at + 7))
    ensures q[at + 9] == 2 && Agree(u, f, at)
  {
    hide StandsAt, PointerBytes;
    RecordStands(u, d, at, at + 10, PointerBytes(at + 7), 2, f, q);
  }

  lemma AgreeLess(p: seq<byte>, q: seq<byte>, j: nat, k: nat)
    requires Agree(p, q, k) && j <= k
    ensures Agree(p, q, j)
  {
  }

  lemma TargetKindOf(r: Resource)
    requires r.body.Target?
    ensures KindOf(r.body) == TargetKind && 2 <= MAXIMUM_RD_SIZE
  {
  }

  lemma TargetLost(q: seq<byte>, at: nat)
    requires at + 12 < |q| && ReadName(q, at + 10, at + 12, 0) == None
    ensures ReadBody(q, at + 10, at + 12, TargetKind) == None
  {
  }

  // ----- Lost to the search limit

  /** The preference of an MX record and its like, and a zero where the name is going to be. */
  lemma LimitMatch(v: seq<byte>, at: nat, c: byte)
    requires at + 12 < |v| && v[at + 10] == 1 && v[at + 11] == c && v[at + 12] == 0
    ensures FindPointer(v, at + 12, [[c]]) == Some(at + 10) && Overread(v, at + 12, [[c]])
  {
    var n: Name := [[c]];
    assert n[0] == [c];
    assert MatchAt(v, at + 12, n, at + 10) == Some(at + 12);
  }

  /**
   * A record with a preference of 256 and some and the name that is that one octet, like 353 and "a", written
   * into a buffer with a zero where the name goes: it is read without its data.
   */
  lemma LostToLimit(p: seq<byte>, ptr: nat, limit: nat, r: Resource, c: byte, at: nat, update: bool)
    returns (f: seq<byte>)
    requires ptr <= limit < |p| && limit <= 0x4000 && HeadAt(p, ptr, limit, r) == Some(at) && at + 14 <= limit
    requires Valid(r.name) && !Overread(p, ptr, r.name)
    requires ResourceFormed(r) && r.body == Exchange(0x100 + c, [[c]]) && p[at + 12] == 0
    ensures WriteRecord(p, ptr, limit, r, update) == Some((f, at + 14))
    ensures forall q, e, oneSecond: nat ::
              Agree(f, q, at + 14) && at + 14 <= e < |q| && oneSecond > 0 ==>
              ReadResource(q, ptr, e, oneSecond) == Some((SeenOf(r, oneSecond).(data := Unparsed), at + 14))
  {
    var v := Splice(WithFront(p, ptr, limit, r, at), at + 10, Big16(0x100 + c));
    f := Splice(Splice(v, at + 12, PointerBytes(at + 10)), at + 8, Big16(4));
    LimitWritten(p, ptr, limit, r, c, at, update, v);
    forall q, e, oneSecond: nat |
      Agree(f, q, at + 14) && at + 14 <= e < |q| && oneSecond > 0
      ensures ReadResource(q, ptr, e, oneSecond) == Some((SeenOf(r, oneSecond).(data := Unparsed), at + 14))
    {
      LimitSeen(p, ptr, limit, r, c, at, v, f, q, e, oneSecond);
    }
  }

  lemma Preferred(v: seq<byte>, w: seq<byte>, at: nat, c: byte)
    requires at + 12 < |v| && w == Splice(v, at + 10, Big16(0x100 + c))
    ensures |w| == |v| && w[at + 10] == 1 && w[at + 11] == c && w[at + 12] == v[at + 12]
  {
    var t := Big16(0x100 + c);
    assert w[at + 10] == t[0] && w[at + 11] == t[1];
  }

  lemma ExchangeItems(r: Resource, c: byte, update: bool)
    requires ResourceFormed(r) && r.body == Exchange(0x100 + c, [[c]])
    ensures Compressed(r, update) && BodyItems(r.body) == [Raw(Big16(0x100 + c))] + [DomainName([[c]])]
  {
  }

  /** The data on its own. */
  lemma ExchangeWritten(u: seq<byte>, v: seq<byte>, i: nat, limit: nat, c: byte, t: nat) returns (w: Written)
    requires i + 4 <= limit < |u| && v == Splice(u, i, Big16(0x100 + c)) && FindPointer(v, i + 2, [[c]]) == Some(t)
    ensures Writes(u, i, limit, [Raw(Big16(0x100 + c))] + [DomainName([[c]])], w)
    ensures w.packet == Splice(v, i + 2, PointerBytes(t)) && w.stops != [] && w.stops[|w.stops| - 1] == i + 4
  {
    hide *;
    var w0 := TargetWritten(v, i + 2, limit, c, t);
    RawStep(u, v, i, limit, Big16(0x100 + c), [DomainName([[c]])], w0);
    w := Written(w0.packet, [i] + w0.stops);
  }

  lemma LimitWritten(p: seq<byte>, ptr: nat, limit: nat, r: Resource, c: byte, at: nat, update: bool, v: seq<byte>)
    requires ptr <= limit < |p| && limit <= 0x4000 && HeadAt(p, ptr, limit, r) == Some(at) && at + 14 <= limit
    requires ResourceFormed(r) && r.body == Exchange(0x100 + c, [[c]]) && p[at + 12] == 0
    requires v == Splice(WithFront(p, ptr, limit, r, at), at + 10, Big16(0x100 + c))
    ensures WriteRecord(p, ptr, limit, r, update) ==
            Some((Splice(Splice(v, at + 12, PointerBytes(at + 10)), at + 8, Big16(4)), at + 14))
  {
    hide *;
    var u := WithFront(p, ptr, limit, r, at);
    ExchangeItems(r, c, update);
    Preferred(u, v, at, c);
    LimitMatch(v, at, c);
    var w := ExchangeWritten(u, v, at + 10, limit, c, at + 10);
    WrittenWith(p, ptr, limit, r, update, at, u, w, at + 14);
  }

  /** What stands in a message that keeps such a record. */
  lemma LimitStands(u: seq<byte>, d: seq<byte>, at: nat, c: byte, v: seq<byte>, f: seq<byte>, q: seq<byte>)
    requires at + 14 < |u| && |d| == 8 && StandsAt(u, at, d) && u[at + 12] == 0
    requires v == Splice(u, at + 10, Big16(0x100 + c))
    requires f == Splice(Splice(v, at + 12, PointerBytes(at + 10)), at + 8, Big16(4)) && Agree(f, q, at + 14)
    ensures StandsAt(q, at, d) && StandsAt(q, at + 8, Big16(4)) && StandsAt(q, at + 12, PointerBytes(at + 10))
    ensures q[at + 10] == 1 && q[at + 11] == c && Agree(u, f, at)
  {
    hide StandsAt, Big16, PointerBytes;
    Preferred(u, v, at, c);
    StandsStill(u, v, at, d);
    RecordStands(v, d, at, at + 12, PointerBytes(at + 10), 4, f, q);
  }

  lemma ExchangeKindOf(r: Resource)
    requires r.body.Exchange?
    ensures KindOf(r.body) == ExchangeKind && 4 <= MAXIMUM_RD_SIZE
  {
  }

  lemma ExchangeLost(q: seq<byte>, at: nat)
    requires at + 14 < |q| && ReadName(q, at + 12, at + 14, 0) == None
    ensures ReadBody(q, at + 10, at + 14, ExchangeKind) == None
  {
  }

  lemma LimitSeen(p: seq<byte>, ptr: nat, limit: nat, r: Resource, c: byte, at: nat, v: seq<byte>, f: seq<byte>,
                  q: seq<byte>, e: nat, oneSecond: nat)
    requires ptr <= limit < |p| && limit <= 0x4000 && HeadAt(p, ptr, limit, r) == Some(at) && at + 14 <= limit
    requires Valid(r.name) && !Overread(p, ptr, r.name)
    requires ResourceFormed(r) && r.body == Exchange(0x100 + c, [[c]]) && p[at + 12] == 0
    requires v == Splice(WithFront(p, ptr, limit, r, at), at + 10, Big16(0x100 + c))
    requires f == Splice(Splice(v, at + 12, PointerBytes(at + 10)), at + 8, Big16(4))
    requires Agree(f, q, at + 14) && at + 14 <= e < |q| && oneSecond > 0
    ensures ReadResource(q, ptr, e, oneSecond) == Some((SeenOf(r, oneSecond).(data := Unparsed), at + 14))
  {
    hide *;
    var u := WithFront(p, ptr, limit, r, at);
    AgreeLess(f, q, at, at + 14);
    ExchangeKindOf(r);
    LimitStands(u, FixedPart(r), at, c, v, f, q);
    OwnerReads(p, ptr, limit, r, at, f, q, e);
    HeadForward(p, ptr, limit, r, at);
    LimitRead(q, at, c);
    ExchangeLost(q, at);
    SeenUnparsed(q, ptr, at, at + 14, e, r, oneSecond);
  }

  lemma LimitRead(q: seq<byte>, at: nat, c: byte)
    requires at + 14 < |q| && at + 12 <= 0x4000
    requires q[at + 10] == 1 && q[at + 11] == c && StandsAt(q, at + 12, PointerBytes(at + 10))
    ensures ReadName(q, at + 12, at + 14, 0) == None
  {
    var s := q[at + 12 := 0];
    LimitMatch(s, at, c);
    OverreadLoops(s, at + 12, [[c]], q, at + 14, 0);
  }

  // ----- Two such records

  /** A record of the root's, its fixed part at octet 13. */
  lemma RootOwner(p: seq<byte>, r: Resource)
    requires |p| == 40 && r.name == []
    ensures HeadAt(p, 12, 39, r) == Some(13) && Valid(r.name) && !Overread(p, 12, r.name)
  {
    assert Encode(p, 12, [], 0, 27, true) == Some([0]);
  }

  /**
   * A PTR record to "a" of one second, into a buffer of zeros but for an "a" where the length will be: the
   * reader finds the record without its data.
   */
  lemma LengthExample() returns (f: seq<byte>)
    ensures var p, r := seq(40, i => if i == 21 then 97 else 0), Resource([], 12, 1, 1, Target([[97]]));
            && ResourceValid(r) && WriteRecord(p, 12, 39, r, false) == Some((f, 25))
            && |f| == 40 && ReadResource(f, 12, 25, 1000) == Some((Seen([], 12, 1, 1, Unparsed), 25))
  {
    var p: seq<byte>, r := seq(40, i => if i == 21 then 97 else 0), Resource([], 12, 1, 1, Target([[97]]));
    RootOwner(p, r);
    assert Stale(p, 13) == [97, 0];
    assert ResourceValid(r) && SeenOf(r, 1000).(data := Unparsed) == Seen([], 12, 1, 1, Unparsed);
    hide HeadAt, WriteRecord, ReadResource, SeenOf, Valid, Overread, Stale, ResourceValid, ResourceFormed;
    f := LostToLength(p, 12, 39, r, 97, 13, false);
    RecordForward(p, 12, 39, r, false);
  }

  /** An MX record of preference 353 to "a", into a buffer of zeros. */
  lemma LimitExample() returns (f: seq<byte>)
    ensures var p, r := seq(40, _ => 0), Resource([], 15, 1, 120, Exchange(353, [[97]]));
            && ResourceValid(r) && WriteRecord(p, 12, 39, r, false) == Some((f, 27))
            && |f| == 40 && ReadResource(f, 12, 27, 1000) == Some((Seen([], 15, 1, 120, Unparsed), 27))
  {
    var p: seq<byte>, r := seq(40, _ => 0), Resource([], 15, 1, 120, Exchange(353, [[97]]));
    RootOwner(p, r);
    assert ResourceValid(r) && SeenOf(r, 1000).(data := Unparsed) == Seen([], 15, 1, 120, Unparsed);
    hide HeadAt, WriteRecord, ReadResource, SeenOf, Valid, Overread, ResourceValid, ResourceFormed;
    f := LostToLimit(p, 12, 39, r, 97, 13, false);
    RecordForward(p, 12, 39, r, false);
  }
}
