/**
 * What is written as resource records is read back as the same records, one after the other, with
 * the lengths of their data filled in behind each and the counts in the header changing meanwhile.
 */
module RecordRoundTrip {
  import opened Bytes
  import opened DomainNames
  import opened NameCodec
  import opened NameRoundTrip
  import opened LengthsLater
  import opened Rdata
  import opened RdataCodec
  import opened Records
  import Sections

  // ----- Fixed octets

  lemma RawHere(p: seq<byte>, ptr: nat, limit: nat, o: seq<byte>, packet: seq<byte>, q: seq<byte>, stop: nat,
                later: set<nat>)
    requires ptr + |o| <= limit < |p| && ptr + |o| <= stop && Agree(Splice(p, ptr, o), packet, ptr + |o|)
    requires SameBut(packet, q, stop, later) && forall x :: ptr <= x < ptr + |o| ==> x !in later
    ensures StandsAt(q, ptr, o)
  {
  }

  /** Fixed octets stand where they were written if none of them was to be filled in later. */
  lemma {:induction false} RawStands(
      p: seq<byte>, ptr: nat, limit: nat, items: seq<Item>, w: Written, q: seq<byte>, later: set<nat>, k: nat)
    requires ptr <= limit < |p| && WriteItems(p, ptr, limit, items) == Some(w)
    requires SameBut(w.packet, q, w.stops[|items|], later)
    requires k < |items| && items[k].Raw?
    requires forall x :: w.stops[k] <= x < w.stops[k] + |items[k].octets| ==> x !in later
    ensures w.stops[k + 1] == w.stops[k] + |items[k].octets| && StandsAt(q, w.stops[k], items[k].octets)
    decreases |items|
  {
    hide *;
    StopsStep(p, ptr, limit, items);
    var b := ItemBytes(p, ptr, limit, items[0]).value;
    var p1 := Splice(p, ptr, b);
    var w1 := WriteItems(p1, ptr + |b|, limit, items[1..]).value;
    AllStops(p1, ptr + |b|, limit, items[1..]);
    if k == 0 {
      WritingGoesForward(p1, ptr + |b|, limit, items[1..]);
      RawBytes(p, ptr, limit, items[0].octets);
      RawHere(p, ptr, limit, b, w.packet, q, w.stops[|items|], later);
    } else {
      RawStands(p1, ptr + |b|, limit, items[1..], w1, q, later, k - 1);
    }
  }

  ghost predicate RawsStand(q: seq<byte>, stops: seq<nat>, items: seq<Item>)
    requires |stops| == |items| + 1
  {
    forall k :: 0 <= k < |items| && items[k].Raw? ==>
        stops[k + 1] == stops[k] + |items[k].octets| && StandsAt(q, stops[k], items[k].octets)
  }

  // ----- Record data

  lemma {:induction false} ReadingMovesOn(p: seq<byte>, i: nat, end: nat, used: nat)
    requires i < end < |p| && used < MAX_DOMAIN_NAME && ReadName(p, i, end, used).Some?
    ensures ReadName(p, i, end, used).value.1 > i
    decreases MAX_DOMAIN_NAME - used, if p[i] >= 0xC0 then 1 else 0
  {
    var len: nat := p[i];
    if 0 < len < 0x40 { ReadingMovesOn(p, i + 1 + len, end, used + 1 + len); }
  }

  lemma NameThere(q: seq<byte>, end: nat, stops: seq<nat>, items: seq<Item>, k: nat)
    requires end < |q| && |stops| == |items| + 1 && NamesReadBack(q, end, stops, items)
    requires k < |items| && items[k].DomainName?
    ensures stops[k] < end && NameAt(q, stops[k], end) == Some((items[k].name, stops[k + 1]))
    ensures stops[k] < stops[k + 1]
  {
    hide ReadName;
    NameReadsBack(q, end, stops, items, k);
    ReadingMovesOn(q, stops[k], end, 0);
  }

  lemma RawThere(q: seq<byte>, stops: seq<nat>, items: seq<Item>, k: nat)
    requires |stops| == |items| + 1 && RawsStand(q, stops, items) && k < |items| && items[k].Raw?
    ensures stops[k + 1] == stops[k] + |items[k].octets| && StandsAt(q, stops[k], items[k].octets)
  {
  }

  /** Data whose names read back and whose fixed octets stand is read back. */
  lemma BodyReadsBack(q: seq<byte>, stops: seq<nat>, end: nat, b: Body)
    requires |stops| == |BodyItems(b)| + 1 && stops[|stops| - 1] == end < |q| && stops[0] <= end
    requires NamesReadBack(q, end, stops, BodyItems(b)) && RawsStand(q, stops, BodyItems(b)) && Formed(b) && !b.Nsec?
    ensures ReadBody(q, stops[0], end, KindOf(b)) == Some(b)
  {
    hide NameAt, NamesReadBack, RawsStand, StandsAt, Big16, Five, Read16, Read32;
    var items := BodyItems(b);
    match b
    case Address(o) =>
      RawThere(q, stops, items, 0);
      StandsSlice(q, stops[0], o);
    case Target(n) => NameThere(q, end, stops, items, 0);
    case Soa(m, r, v, w, x, y, z) =>
      NameThere(q, end, stops, items, 0);
      NameThere(q, end, stops, items, 1);
      RawThere(q, stops, items, 2);
      FiveAre(q, stops[2], v, w, x, y, z);
    case Exchange(p, n) =>
      RawThere(q, stops, items, 0);
      Read16Is(q, stops[0], p);
      NameThere(q, end, stops, items, 1);
    case Mailboxes(m, t) =>
      NameThere(q, end, stops, items, 0);
      NameThere(q, end, stops, items, 1);
    case Px(p, m, x) =>
      RawThere(q, stops, items, 0);
      Read16Is(q, stops[0], p);
      NameThere(q, end, stops, items, 1);
      NameThere(q, end, stops, items, 2);
    case Service(p, w, port, t) =>
      RawThere(q, stops, items, 0);
      NameThere(q, end, stops, items, 1);
      ServiceHead(q, stops[0], p, w, port);
    case HostInfo(d) =>
      RawThere(q, stops, items, 0);
      StandsSlice(q, stops[0], d);
    case Plain(d) =>
      RawThere(q, stops, items, 0);
      StandsSlice(q, stops[0], d);
  }

  lemma ServiceHead(q: seq<byte>, i: nat, p: u16, w: u16, port: seq<byte>)
    requires StandsAt(q, i, Big16(p) + (Big16(w) + port)) && |port| == 2
    ensures i + 6 <= |q| && Read16(q, i) == p && Read16(q, i + 2) == w && q[i + 4..i + 6] == port
  {
    hide StandsAt, Big16, Read16;
    StandsParts(q, i, Big16(p), Big16(w) + port);
    StandsParts(q, i + 2, Big16(w), port);
    Read16Is(q, i, p);
    Read16Is(q, i + 2, w);
    StandsSlice(q, i + 4, port);
  }

  lemma WireStep(n: Name)
    requires n != [] && LabelsValid(n)
    ensures Wire(n) == LabelBytes(n[0]) + Wire(n[1..]) && LabelsValid(n[1..]) && 1 <= |n[0]| < 0x40
    ensures WireLength(n) == 1 + |n[0]| + WireLength(n[1..]) && WireLength(n[1..]) >= 1
  {
  }

  /** A name that was written whole is read back. */
  lemma {:induction false} WholeNameReads(q: seq<byte>, i: nat, n: Name, end: nat, used: nat)
    requires StandsAt(q, i, Wire(n)) && LabelsValid(n) && used + WireLength(n) <= MAX_DOMAIN_NAME
    requires i + WireLength(n) <= end < |q|
    ensures ReadName(q, i, end, used) == Some((n, i + WireLength(n)))
    decreases |n|
  {
    if n == [] {
      assert q[i] == Wire(n)[0];
    } else {
      var l := n[0];
      WireStep(n);
      hide ReadName, StandsAt, Wire, LabelsValid, WireLength;
      LiteralStands(q, i, l, Wire(n[1..]));
      WholeNameReads(q, i + 1 + |l|, n[1..], end, used + 1 + |l|);
      ReadLabel(q, i, n, end, used);
    }
  }

  /** SRV data from its parts. */
  lemma ServiceRead(q: seq<byte>, ptr: nat, end: nat, b: Body)
    requires b.Service? && ptr + 7 <= end < |q| && ReadName(q, ptr + 6, end, 0) == Some((b.target, end))
    requires Read16(q, ptr) == b.priority && Read16(q, ptr + 2) == b.weight && q[ptr + 4..ptr + 6] == b.port
    ensures ReadBody(q, ptr, end, ServiceKind) == Some(b)
  {
    hide ReadName, Read16;
  }

  lemma ServiceCopied(q: seq<byte>, ptr: nat, b: Body)
    requires b.Service? && Formed(b) && NamesValid(b) && StandsAt(q, ptr, DataOctets(b))
    ensures CopyOf(q, ptr, b, ServiceKind)
  {
    hide StandsAt, DataOctets, NamesValid;
  }

  /** SRV data that was written whole. */
  lemma WholeServiceReads(q: seq<byte>, ptr: nat, end: nat, b: Body)
    requires b.Service? && Formed(b) && NamesValid(b) && StandsAt(q, ptr, DataOctets(b))
    requires end == ptr + |DataOctets(b)| < |q|
    ensures ReadBody(q, ptr, end, ServiceKind) == Some(b)
  {
    hide *;
    ServiceCopied(q, ptr, b);
    ServiceParts(q, ptr, b);
    ValidMeans(b.target);
    WholeNameReads(q, ptr + 6, b.target, end, 0);
    ServiceRead(q, ptr, end, b);
  }

  // ----- The length of the data

  lemma {:induction false} EncodeNoLonger(p: seq<byte>, start: nat, n: Name, off: nat, room: int)
    requires start < |p| && Encode(p, start, n, off, room, true).Some?
    ensures 1 <= |Encode(p, start, n, off, room, true).value| <= |Wire(n)|
    decreases |n|
  {
    if n != [] && FindPointer(p, start, n).None? {
      EncodeNoLonger(View(p, start, n[0], off, true), start, n[1..], off + 1 + |n[0]|, room - 1 - |n[0]|);
    }
    if n != [] { assert |Wire(n)| == 1 + |n[0]| + |Wire(n[1..])| && |Wire(n[1..])| >= 1; }
  }

  lemma ItemNoLonger(p: seq<byte>, ptr: nat, limit: nat, item: Item, b: seq<byte>)
    requires ptr <= limit < |p| && ItemBytes(p, ptr, limit, item) == Some(b)
    ensures |b| <= |ItemText(item)| && (b == [] <==> ItemText(item) == [])
  {
    hide Encode, Wire;
    if item.DomainName? { EncodeNoLonger(p, ptr, item.name, 0, limit - ptr); }
  }

  lemma TextStep(items: seq<Item>)
    requires items != []
    ensures |ItemsOctets(items)| == |ItemText(items[0])| + |ItemsOctets(items[1..])|
  {
    hide ItemText;
  }

  lemma NothingWritten(p: seq<byte>, ptr: nat, limit: nat)
    requires ptr <= limit < |p|
    ensures WriteItems(p, ptr, limit, []) == Some(Written(p, [ptr])) && ItemsOctets([]) == []
  {
  }

  /** Compressed data is no longer than the data written whole, and empty only if that is. */
  lemma {:induction false} WrittenNoLonger(p: seq<byte>, ptr: nat, limit: nat, items: seq<Item>)
    requires ptr <= limit < |p| && WriteItems(p, ptr, limit, items).Some?
    ensures var w := WriteItems(p, ptr, limit, items).value;
            && |w.stops| == |items| + 1
            && ptr <= w.stops[|items|] <= ptr + |ItemsOctets(items)|
            && (w.stops[|items|] == ptr <==> ItemsOctets(items) == [])
    decreases |items|
  {
    hide *;
    AllStops(p, ptr, limit, items);
    if items == [] {
      NothingWritten(p, ptr, limit);
    } else {
      StopsStep(p, ptr, limit, items);
      TextStep(items);
      var b := ItemBytes(p, ptr, limit, items[0]).value;
      WrittenNoLonger(Splice(p, ptr, b), ptr + |b|, limit, items[1..]);
      ItemNoLonger(p, ptr, limit, items[0], b);
    }
  }

  // ----- One record

  /** The record as the reader sees it: class without its top bit, time to live limited. */
  function SeenOf(r: Resource, oneSecond: nat): Seen
    requires oneSecond > 0
  {
    var rrclass := r.rrclass % CLASS_MASK;
    Seen(r.name, r.rrtype, rrclass, Lifetime(r.ttl, oneSecond),
         if rrclass == CLASS_ANY && DataOctets(r.body) == [] then Empty else Parsed(r.body))
  }

  /** The parts of a record written: its items, where they are, and the length behind them. */
  lemma RecordParts(p: seq<byte>, ptr: nat, limit: nat, r: Resource, update: bool) returns (at: nat, w: Written)
    requires ptr <= limit < |p| && WriteRecord(p, ptr, limit, r, update).Some?
    ensures HeadAt(p, ptr, limit, r) == Some(at) && at + 10 < limit
    ensures var items := RecordItems(r, Stale(p, at), Compressed(r, update));
            var n, stop := |DataItems(r.body, Compressed(r, update))|, WriteRecord(p, ptr, limit, r, update).value.1;
            && WriteItems(p, ptr, limit, items) == Some(w) && |items| == n + 3 && |w.packet| == |p|
            && |w.stops| == n + 4 && w.stops[0] == ptr && w.stops[1] == at && w.stops[2] == at + 8
            && w.stops[3] == at + 10 && w.stops[n + 3] == stop && at + 10 <= stop <= limit
            && WriteRecord(p, ptr, limit, r, update).value.0 == Splice(w.packet, at + 8, Big16(stop - at - 10))
  {
    hide WriteItems, DataItems, FixedPart, Splice;
    at := HeadAt(p, ptr, limit, r).value;
    w := WriteItems(p, ptr, limit, RecordItems(r, Stale(p, at), Compressed(r, update))).value;
    WrittenRoom(p, ptr, limit, r, Stale(p, at), Compressed(r, update), at);
  }

  /** The octets of the length that filling it in has changed. */
  function LengthChanged(p: seq<byte>, f: seq<byte>, at: nat): (c: set<nat>)
    requires at + 10 <= |p| && at + 10 <= |f|
    ensures c <= {at + 8, at + 9}
  {
    set x | x in {at + 8, at + 9} && p[x] != f[x]
  }

  lemma RecordSized(p: seq<byte>, ptr: nat, limit: nat, r: Resource, update: bool)
    requires ptr <= limit < |p| && WriteRecord(p, ptr, limit, r, update).Some?
    ensures HeadAt(p, ptr, limit, r).Some? && HeadAt(p, ptr, limit, r).value + 10 < limit
    ensures |WriteRecord(p, ptr, limit, r, update).value.0| == |p|
  {
    var at, w := RecordParts(p, ptr, limit, r, update);
  }

  /**
   * No match that was used runs through an octet in `later`, or through one that the length changed when
   * it was filled in at the end.
   */
  ghost predicate Quiet(p: seq<byte>, ptr: nat, limit: nat, r: Resource, update: bool, later: set<nat>)
    requires ptr <= limit < |p| && WriteRecord(p, ptr, limit, r, update).Some?
  {
    RecordSized(p, ptr, limit, r, update);
    var at := HeadAt(p, ptr, limit, r).value;
    NeverThrough(p, ptr, limit, RecordItems(r, Stale(p, at), Compressed(r, update)),
                 later + LengthChanged(p, WriteRecord(p, ptr, limit, r, update).value.0, at))
  }

  /** Filling in the length changes at most its two octets. */
  lemma LengthFilled(p: seq<byte>, w: seq<byte>, f: seq<byte>, q: seq<byte>, at: nat, stop: nat, later: set<nat>,
                     len: nat)
    requires at + 10 <= stop <= |w| == |p| && f == Splice(w, at + 8, Big16(len)) && SameBut(f, q, stop, later)
    requires StandsAt(w, at + 8, Stale(p, at)) && forall x :: x in later ==> x < at
    ensures SameBut(w, q, stop, later + LengthChanged(p, f, at)) && StandsAt(q, at + 8, Big16(len))
  {
    var t, o := Big16(len), Stale(p, at);
    assert w[at + 8] == o[0] && w[at + 9] == o[1];
    assert f[at + 8] == t[0] && f[at + 9] == t[1];
    assert q[at + 8] == f[at + 8] && q[at + 9] == f[at + 9];
  }

  lemma FixedPartReads(q: seq<byte>, at: nat, r: Resource)
    requires StandsAt(q, at, FixedPart(r))
    ensures at + 8 <= |q| && Read16(q, at) == r.rrtype && Read16(q, at + 2) == r.rrclass && Read32(q, at + 4) == r.ttl
  {
    hide StandsAt, Big16, Big32, Read16, Read32;
    StandsParts(q, at, Big16(r.rrtype), Big16(r.rrclass) + Big32(r.ttl));
    StandsParts(q, at + 2, Big16(r.rrclass), Big32(r.ttl));
    Read16Is(q, at, r.rrtype);
    Read16Is(q, at + 2, r.rrclass);
    Read32Is(q, at + 4, r.ttl);
    StandsWithin(q, at + 4, Big32(r.ttl));
  }

  lemma StandsWithin(q: seq<byte>, at: nat, t: seq<byte>)
    requires StandsAt(q, at, t)
    ensures at + |t| <= |q|
  {
  }

  /** The record in front of its data. */
  lemma FrontReads(q: seq<byte>, ptr: nat, at: nat, stop: nat, e: nat, r: Resource)
    requires ptr < e < |q| && at + 10 <= stop <= e && stop - at - 10 < 0x1_0000
    requires ReadName(q, ptr, e, 0) == Some((r.name, at))
    requires StandsAt(q, at, FixedPart(r)) && StandsAt(q, at + 8, Big16(stop - at - 10))
    ensures Sections.ReadRecord(q, ptr, e) ==
            Some((Sections.Record(r.name, r.rrtype, r.rrclass % CLASS_MASK, r.ttl, at + 10, stop - at - 10), stop))
  {
    hide ReadName, StandsAt, Big16, Read16, Read32;
    FixedPartReads(q, at, r);
    Read16Is(q, at + 8, stop - at - 10);
  }

  lemma TailStands(q: seq<byte>, stops: seq<nat>, items: seq<Item>, front: seq<Item>, back: seq<Item>, e: nat)
    requires |stops| == |items| + 1 && items == front + back && e < |q|
    requires NamesReadBack(q, e, stops, items)
    ensures NamesReadBack(q, e, stops[|front|..], back)
  {
    hide ReadName;
    forall k | 0 <= k < |back| && back[k].DomainName?
      ensures stops[|front|..][k] < e &&
              ReadName(q, stops[|front|..][k], e, 0) == Some((back[k].name, stops[|front|..][k + 1]))
    {
      assert items[|front| + k] == back[k];
    }
  }

  /** The data of a record written is read back. */
  lemma DataReads(q: seq<byte>, stops: seq<nat>, end: nat, r: Resource, compress: bool)
    requires ResourceValid(r) && (compress || r.rrtype == TYPE_SRV)
    requires |stops| == |DataItems(r.body, compress)| + 1 && stops[0] <= stops[|stops| - 1] == end < |q|
    requires NamesReadBack(q, end, stops, DataItems(r.body, compress))
    requires RawsStand(q, stops, DataItems(r.body, compress))
    ensures ReadBody(q, stops[0], end, KindOf(r.body)) == Some(r.body)
  {
    hide NamesReadBack, ReadBody, RawsStand, NamesValid, BodyItems;
    if compress {
      BodyReadsBack(q, stops, end, r.body);
    } else {
      RawThere(q, stops, DataItems(r.body, compress), 0);
      WholeServiceReads(q, stops[0], end, r.body);
    }
  }

  /** The items from some point on are written like items of their own. */
  lemma {:induction false} TailWritten(p: seq<byte>, ptr: nat, limit: nat, front: seq<Item>, back: seq<Item>)
    returns (q: seq<byte>)
    requires ptr <= limit < |p| && WriteItems(p, ptr, limit, front + back).Some?
    ensures var w := WriteItems(p, ptr, limit, front + back).value;
            && |w.stops| == |front| + |back| + 1 && w.stops[|front|] <= limit < |q|
            && WriteItems(q, w.stops[|front|], limit, back) == Some(Written(w.packet, w.stops[|front|..]))
    decreases |front|
  {
    hide *;
    AllStops(p, ptr, limit, front + back);
    if front == [] {
      assert front + back == back;
      WholeTail(p, ptr, limit, back);
      q := p;
    } else {
      assert (front + back)[0] == front[0] && (front + back)[1..] == front[1..] + back;
      StopsStep(p, ptr, limit, front + back);
      var b := ItemBytes(p, ptr, limit, front[0]).value;
      q := TailWritten(Splice(p, ptr, b), ptr + |b|, limit, front[1..], back);
      var w1 := WriteItems(Splice(p, ptr, b), ptr + |b|, limit, front[1..] + back).value;
      assert ([ptr] + w1.stops)[|front|..] == w1.stops[|front| - 1..];
    }
  }

  lemma WholeTail(p: seq<byte>, ptr: nat, limit: nat, back: seq<Item>)
    requires ptr <= limit < |p| && WriteItems(p, ptr, limit, back).Some?
    ensures var w := WriteItems(p, ptr, limit, back).value;
            |w.stops| == |back| + 1 && w.stops[0] == ptr && w == Written(w.packet, w.stops[0..])
  {
  }

  lemma {:induction false} StopsGrow(p: seq<byte>, ptr: nat, limit: nat, items: seq<Item>, k: nat)
    requires ptr <= limit < |p| && WriteItems(p, ptr, limit, items).Some? && k <= |items|
    ensures |WriteItems(p, ptr, limit, items).value.stops| == |items| + 1
    ensures WriteItems(p, ptr, limit, items).value.stops[k] >= ptr
    decreases |items|
  {
    AllStops(p, ptr, limit, items);
    if k > 0 {
      StopsStep(p, ptr, limit, items);
      hide WriteItems, Splice;
      var b := ItemBytes(p, ptr, limit, items[0]).value;
      StopsGrow(Splice(p, ptr, b), ptr + |b|, limit, items[1..], k - 1);
    }
  }

  /** The first three items: the owner's name, the fixed part and the place of the length. */
  function Front(r: Resource, stale: seq<byte>): seq<Item> {
    [DomainName(r.name), Raw(FixedPart(r)), Raw(stale)]
  }

  lemma FrontAndData(r: Resource, stale: seq<byte>, compress: bool)
    ensures RecordItems(r, stale, compress) == Front(r, stale) + DataItems(r.body, compress)
    ensures ResourceValid(r) ==> forall k :: 0 <= k < |RecordItems(r, stale, compress)| ==>
                                   ItemValid(RecordItems(r, stale, compress)[k])
  {
    FourParts(DomainName(r.name), Raw(FixedPart(r)), Raw(stale), DataItems(r.body, compress));
    if ResourceValid(r) {
      OwnerValid(r);
      DataValid(r, compress);
      hide *;
      FourValid(DomainName(r.name), Raw(FixedPart(r)), Raw(stale), DataItems(r.body, compress));
    }
  }

  lemma FourParts(a: Item, b: Item, c: Item, data: seq<Item>)
    ensures [a] + ([b] + ([c] + data)) == [a, b, c] + data
  {
  }

  lemma FourValid(a: Item, b: Item, c: Item, data: seq<Item>)
    requires ItemValid(a) && b.Raw? && c.Raw? && forall k :: 0 <= k < |data| ==> ItemValid(data[k])
    ensures forall k :: 0 <= k < |[a, b, c] + data| ==> ItemValid(([a, b, c] + data)[k])
  {
    hide Valid;
    forall k | 0 <= k < |[a, b, c] + data| ensures ItemValid(([a, b, c] + data)[k]) {
      if k >= 3 { assert ([a, b, c] + data)[k] == data[k - 3]; }
    }
  }

  lemma OwnerValid(r: Resource)
    requires ResourceValid(r)
    ensures ItemValid(DomainName(r.name))
  {
  }

  lemma DataValid(r: Resource, compress: bool)
    requires ResourceValid(r)
    ensures forall k :: 0 <= k < |DataItems(r.body, compress)| ==> ItemValid(DataItems(r.body, compress)[k])
  {
    BodyOctets(r.body);
    hide BodyItems, NamesValid, Valid, DataOctets, ResourceFormed;
  }

  /** The data is as long as the stops say, and never too long to be read. */
  lemma DataLength(p: seq<byte>, ptr: nat, limit: nat, r: Resource, stale: seq<byte>, compress: bool, w: Written)
    requires ptr <= limit < |p| && WriteItems(p, ptr, limit, RecordItems(r, stale, compress)) == Some(w)
    ensures |w.stops| == |DataItems(r.body, compress)| + 4
    ensures forall k :: 3 <= k < |w.stops| ==> w.stops[3] <= w.stops[k]
    ensures var len := w.stops[|w.stops| - 1] - w.stops[3];
            len <= |DataOctets(r.body)| && (len == 0 <==> DataOctets(r.body) == [])
  {
    var data := DataItems(r.body, compress);
    FrontAndData(r, stale, compress);
    BodyOctets(r.body);
    ItemsTwo(Raw(DataOctets(r.body)), Raw([]));
    hide WriteItems, FixedPart, DataOctets, BodyItems, ItemsOctets, RecordItems;
    var q := TailWritten(p, ptr, limit, Front(r, stale), data);
    WrittenNoLonger(q, w.stops[3], limit, data);
    forall k | 3 <= k < |w.stops| ensures w.stops[3] <= w.stops[k] {
      StopsGrow(q, w.stops[3], limit, data, k - 3);
    }
  }

  /** The fixed octets of the data stand behind the place of the length. */
  lemma DataStands(p: seq<byte>, ptr: nat, limit: nat, items: seq<Item>, w: Written, q: seq<byte>, later: set<nat>,
                   front: seq<Item>, back: seq<Item>)
    requires ptr <= limit < |p| && WriteItems(p, ptr, limit, items) == Some(w) && items == front + back
    requires |w.stops| == |items| + 1 && SameBut(w.packet, q, w.stops[|items|], later)
    requires forall k :: |front| <= k < |w.stops| ==> w.stops[|front|] <= w.stops[k]
    requires forall x :: x in later ==> x < w.stops[|front|]
    ensures RawsStand(q, w.stops[|front|..], back)
  {
    hide WriteItems, SameBut, StandsAt;
    forall k | 0 <= k < |back| && back[k].Raw?
      ensures w.stops[|front|..][k + 1] == w.stops[|front|..][k] + |back[k].octets|
      ensures StandsAt(q, w.stops[|front|..][k], back[k].octets)
    {
      assert items[|front| + k] == back[k];
      RawStands(p, ptr, limit, items, w, q, later, |front| + k);
    }
  }

  /** Owner, fixed part and length of a record written are read back. */
  lemma FrontIsRead(p: seq<byte>, ptr: nat, limit: nat, r: Resource, stale: seq<byte>, compress: bool, w: Written,
                    q: seq<byte>, e: nat, more: set<nat>, at: nat, next: nat)
    requires ptr <= limit < |p| && limit <= 0x4000 && ResourceValid(r) && |stale| == 2
    requires WriteItems(p, ptr, limit, RecordItems(r, stale, compress)) == Some(w)
    requires NeverThrough(p, ptr, limit, RecordItems(r, stale, compress), more)
    requires |w.stops| == |RecordItems(r, stale, compress)| + 1 && w.stops[0] == ptr && w.stops[1] == at
    requires w.stops[|w.stops| - 1] == next <= e < |q| && SameBut(w.packet, q, next, more)
    requires ptr < e && at + 10 <= next && next - at - 10 < 0x1_0000 && StandsAt(q, at + 8, Big16(next - at - 10))
    requires forall x :: x in more ==> x < at || x >= at + 8
    ensures Sections.ReadRecord(q, ptr, e) ==
            Some((Sections.Record(r.name, r.rrtype, r.rrclass % CLASS_MASK, r.ttl, at + 10, next - at - 10), next))
  {
    FrontAndData(r, stale, compress);
    var items := RecordItems(r, stale, compress);
    assert items[0] == DomainName(r.name) && items[1] == Raw(FixedPart(r));
    hide WriteItems, FixedPart, DataItems, SameBut, NeverThrough, ReadName, NamesReadBack, ItemValid, RecordItems,
      StandsAt, ResourceFormed, Valid, NamesValid, DataOctets, Big16;
    FilledInLater(p, ptr, limit, items, w, q, e, more);
    NameReadsBack(q, e, w.stops, items, 0);
    RawStands(p, ptr, limit, items, w, q, more, 1);
    FrontReads(q, ptr, at, next, e, r);
  }

  /** The data of a record written is read back. */
  lemma DataIsRead(p: seq<byte>, ptr: nat, limit: nat, r: Resource, stale: seq<byte>, compress: bool, w: Written,
                   q: seq<byte>, more: set<nat>, next: nat)
    requires ptr <= limit < |p| && limit <= 0x4000 && ResourceValid(r) && (compress || r.rrtype == TYPE_SRV)
    requires WriteItems(p, ptr, limit, RecordItems(r, stale, compress)) == Some(w)
    requires NeverThrough(p, ptr, limit, RecordItems(r, stale, compress), more)
    requires |w.stops| == |DataItems(r.body, compress)| + 4
    requires w.stops[|w.stops| - 1] == next < |q| && SameBut(w.packet, q, next, more)
    requires forall x :: x in more ==> x < w.stops[3]
    ensures w.stops[3] <= next && ReadBody(q, w.stops[3], next, KindOf(r.body)) == Some(r.body)
  {
    FrontAndData(r, stale, compress);
    DataLength(p, ptr, limit, r, stale, compress, w);
    hide WriteItems, FixedPart, DataItems, SameBut, NeverThrough, NamesReadBack, ItemValid, RecordItems, RawsStand,
      ReadBody, ResourceFormed, Valid, NamesValid, DataOctets;
    var items, data, front := RecordItems(r, stale, compress), DataItems(r.body, compress), Front(r, stale);
    FilledInLater(p, ptr, limit, items, w, q, next, more);
    TailStands(q, w.stops, items, front, data, next);
    DataStands(p, ptr, limit, items, w, q, more, front, data);
    DataReads(q, w.stops[3..], next, r, compress);
  }

  /** A record whose parts are read is seen. */
  lemma PartsSeen(q: seq<byte>, ptr: nat, e: nat, oneSecond: nat, r: Resource, at: nat, next: nat)
    requires e < |q| && at + 10 <= next <= e && oneSecond > 0 && ResourceFormed(r)
    requires Sections.ReadRecord(q, ptr, e) ==
             Some((Sections.Record(r.name, r.rrtype, r.rrclass % CLASS_MASK, r.ttl, at + 10, next - at - 10), next))
    requires ReadBody(q, at + 10, next, KindOf(r.body)) == Some(r.body)
    requires next - at - 10 <= MAXIMUM_RD_SIZE && (next == at + 10 <==> DataOctets(r.body) == [])
    ensures ReadResource(q, ptr, e, oneSecond) == Some((SeenOf(r, oneSecond), next))
  {
    hide ReadBody, DataOctets, KindOfType, KindOf, Lifetime, Sections.ReadRecord, Formed;
  }

  /** What being quiet means for the items. */
  lemma QuietMeans(p: seq<byte>, ptr: nat, limit: nat, r: Resource, update: bool, later: set<nat>, at: nat, w: Written)
    requires ptr <= limit < |p| && WriteRecord(p, ptr, limit, r, update).Some? && Quiet(p, ptr, limit, r, update, later)
    requires HeadAt(p, ptr, limit, r) == Some(at) && at + 10 < limit
    requires WriteItems(p, ptr, limit, RecordItems(r, Stale(p, at), Compressed(r, update))) == Some(w)
    ensures |WriteRecord(p, ptr, limit, r, update).value.0| == |p|
    ensures NeverThrough(p, ptr, limit, RecordItems(r, Stale(p, at), Compressed(r, update)),
                         later + LengthChanged(p, WriteRecord(p, ptr, limit, r, update).value.0, at))
  {
    RecordSized(p, ptr, limit, r, update);
    hide WriteItems, RecordItems, NeverThrough, HeadAt, LengthChanged, WriteRecord;
  }

  lemma HeadForward(p: seq<byte>, ptr: nat, limit: nat, r: Resource, at: nat)
    requires ptr <= limit < |p| && HeadAt(p, ptr, limit, r) == Some(at)
    ensures ptr <= at
  {
    hide Encode;
  }

  /** Writing the data leaves the place of the length alone. */
  lemma StaleStands(p: seq<byte>, ptr: nat, limit: nat, r: Resource, stale: seq<byte>, compress: bool, w: Written)
    requires ptr <= limit < |p| && WriteItems(p, ptr, limit, RecordItems(r, stale, compress)) == Some(w)
    requires |w.stops| == |RecordItems(r, stale, compress)| + 1 && w.stops[|w.stops| - 1] <= |w.packet|
    ensures StandsAt(w.packet, w.stops[2], stale)
  {
    FrontAndData(r, stale, compress);
    var items := RecordItems(r, stale, compress);
    assert items[2] == Raw(stale);
    hide WriteItems, RecordItems, StandsAt;
    RawStands(p, ptr, limit, items, w, w.packet, {}, 2);
  }

  /** Nothing about the record changes on the way but the top bit of its class. */
  predicate Ordinary(r: Resource, oneSecond: nat) {
    && (r.ttl * oneSecond <= 0x7000_0000 || r.ttl == 0xFFFF_FFFF)
    && (DataOctets(r.body) != [] || r.rrclass % 0x8000 != 255)
  }

  lemma OrdinarySeen(r: Resource, oneSecond: nat)
    requires oneSecond > 0 && Ordinary(r, oneSecond)
    ensures SeenOf(r, oneSecond) ==
            Seen(r.name, r.rrtype, if r.rrclass < 0x8000 then r.rrclass else r.rrclass - 0x8000, r.ttl,
                   Parsed(r.body))
  {
    LifetimeFits(r.ttl, oneSecond);
    hide DataOctets, Lifetime;
  }

  lemma ValidParts(r: Resource, update: bool)
    requires ResourceValid(r)
    ensures ResourceFormed(r) && |DataOctets(r.body)| <= MAXIMUM_RD_SIZE < 0x1_0000
    ensures Compressed(r, update) || r.rrtype == TYPE_SRV
  {
  }

  /** A record in a message that keeps it: its items are there, but for `later` and for the length filled in. */
  lemma RecordKept(p: seq<byte>, ptr: nat, limit: nat, r: Resource, update: bool, q: seq<byte>, later: set<nat>)
    returns (f: seq<byte>, next: nat, at: nat, w: Written, more: set<nat>)
    requires ptr <= limit < |p| && WriteRecord(p, ptr, limit, r, update).Some? && Quiet(p, ptr, limit, r, update, later)
    requires var (f, next) := WriteRecord(p, ptr, limit, r, update).value; next < |q| && SameBut(f, q, next, later)
    requires forall x :: x in later ==> x < ptr
    ensures WriteRecord(p, ptr, limit, r, update).value == (f, next)
    ensures ptr <= at && at + 10 < limit && at + 10 <= next <= limit
    ensures var items := RecordItems(r, Stale(p, at), Compressed(r, update));
            && WriteItems(p, ptr, limit, items) == Some(w) && |w.stops| == |items| + 1 && |w.packet| == |p|
            && |items| == |DataItems(r.body, Compressed(r, update))| + 3 && w.stops[0] == ptr && w.stops[1] == at
            && w.stops[3] == at + 10 && w.stops[|w.stops| - 1] == next && NeverThrough(p, ptr, limit, items, more)
    ensures next - at - 10 <= |DataOctets(r.body)| && (next == at + 10 <==> DataOctets(r.body) == [])
    ensures SameBut(w.packet, q, next, more) && StandsAt(q, at + 8, Big16(next - at - 10))
    ensures forall x :: x in more ==> x < at || at + 8 <= x < at + 10
  {
    hide *;
    f, next := WriteRecord(p, ptr, limit, r, update).value.0, WriteRecord(p, ptr, limit, r, update).value.1;
    at, w := RecordParts(p, ptr, limit, r, update);
    QuietMeans(p, ptr, limit, r, update, later, at, w);
    more := later + LengthChanged(p, f, at);
    DataLength(p, ptr, limit, r, Stale(p, at), Compressed(r, update), w);
    HeadForward(p, ptr, limit, r, at);
    StaleStands(p, ptr, limit, r, Stale(p, at), Compressed(r, update), w);
    LengthFilled(p, w.packet, f, q, at, next, later, next - at - 10);
  }

  /**
   * A record written is read back from every message that keeps it, whatever becomes of the octets in
   * `later`, which are in front of it.
   */
  lemma RecordReadsBack(p: seq<byte>, ptr: nat, limit: nat, r: Resource, update: bool,
                        q: seq<byte>, e: nat, later: set<nat>, oneSecond: nat)
    requires ptr <= limit < |p| && limit <= 0x4000 && ResourceValid(r) && oneSecond > 0
    requires WriteRecord(p, ptr, limit, r, update).Some? && Quiet(p, ptr, limit, r, update, later)
    requires var (f, next) := WriteRecord(p, ptr, limit, r, update).value;
             next <= e < |q| && SameBut(f, q, next, later)
    requires forall x :: x in later ==> x < ptr
    ensures ReadResource(q, ptr, e, oneSecond) ==
            Some((SeenOf(r, oneSecond), WriteRecord(p, ptr, limit, r, update).value.1))
    ensures Ordinary(r, oneSecond) ==>
              SeenOf(r, oneSecond) ==
              Seen(r.name, r.rrtype, if r.rrclass < 0x8000 then r.rrclass else r.rrclass - 0x8000, r.ttl,
                   Parsed(r.body))
  {
    hide *;
    if Ordinary(r, oneSecond) { OrdinarySeen(r, oneSecond); }
    var f, next, at, w, more := RecordKept(p, ptr, limit, r, update, q, later);
    ValidParts(r, update);
    FrontIsRead(p, ptr, limit, r, Stale(p, at), Compressed(r, update), w, q, e, more, at, next);
    DataIsRead(p, ptr, limit, r, Stale(p, at), Compressed(r, update), w, q, more, next);
    PartsSeen(q, ptr, e, oneSecond, r, at, next);
  }

  // ----- One record after the other

  lemma RecordForward(p: seq<byte>, ptr: nat, limit: nat, r: Resource, update: bool)
    requires ptr <= limit < |p| && WriteRecord(p, ptr, limit, r, update).Some?
    ensures var (f, next) := WriteRecord(p, ptr, limit, r, update).value;
            |f| == |p| && Agree(p, f, ptr) && ptr < next <= limit
  {
    var at, w := RecordParts(p, ptr, limit, r, update);
    HeadForward(p, ptr, limit, r, at);
    hide WriteItems, RecordItems, WriteRecord, DataItems;
    WritingGoesForward(p, ptr, limit, RecordItems(r, Stale(p, at), Compressed(r, update)));
  }

  /**
   * The records are written one after the other, `bufs[k]` being the message in front of the k-th.  In
   * between, the octets in `later` change and so may everything behind what has been written.
   */
  ghost predicate RecordsWritten(bufs: seq<seq<byte>>, stops: seq<nat>, limit: nat, rs: seq<Resource>, update: bool,
                                 later: set<nat>)
    requires |bufs| == |stops| == |rs| + 1
  {
    forall k :: 0 <= k < |rs| ==>
      && stops[k] <= limit < |bufs[k]| && WriteRecord(bufs[k], stops[k], limit, rs[k], update).Some?
      && var (f, next) := WriteRecord(bufs[k], stops[k], limit, rs[k], update).value;
         next == stops[k + 1] && SameBut(f, bufs[k + 1], next, later)
  }

  lemma RecordStep(bufs: seq<seq<byte>>, stops: seq<nat>, limit: nat, rs: seq<Resource>, update: bool, later: set<nat>,
                   k: nat)
    returns (f: seq<byte>)
    requires |bufs| == |stops| == |rs| + 1 && RecordsWritten(bufs, stops, limit, rs, update, later) && k < |rs|
    ensures stops[k] <= limit < |bufs[k]|
    ensures WriteRecord(bufs[k], stops[k], limit, rs[k], update) == Some((f, stops[k + 1]))
    ensures SameBut(f, bufs[k + 1], stops[k + 1], later) && SameBut(bufs[k], bufs[k + 1], stops[k], later)
    ensures stops[k] < stops[k + 1]
  {
    hide WriteRecord;
    f := WriteRecord(bufs[k], stops[k], limit, rs[k], update).value.0;
    RecordForward(bufs[k], stops[k], limit, rs[k], update);
  }

  /** None of the searches made for the records went through an octet changed later. */
  ghost predicate AllQuiet(bufs: seq<seq<byte>>, stops: seq<nat>, limit: nat, rs: seq<Resource>, update: bool,
                           later: set<nat>)
    requires |bufs| == |stops| == |rs| + 1 && RecordsWritten(bufs, stops, limit, rs, update, later)
  {
    forall k :: 0 <= k < |rs| ==> Quiet(bufs[k], stops[k], limit, rs[k], update, later)
  }

  function SeenAll(rs: seq<Resource>, oneSecond: nat): seq<Seen>
    requires oneSecond > 0
  {
    if rs == [] then [] else [SeenOf(rs[0], oneSecond)] + SeenAll(rs[1..], oneSecond)
  }

  lemma {:induction false} SeenEach(rs: seq<Resource>, oneSecond: nat)
    requires oneSecond > 0
    ensures |SeenAll(rs, oneSecond)| == |rs|
    ensures forall k :: 0 <= k < |rs| ==> SeenAll(rs, oneSecond)[k] == SeenOf(rs[k], oneSecond)
  {
    hide SeenOf;
    if rs != [] { SeenEach(rs[1..], oneSecond); }
  }

  lemma SameButTrans(p: seq<byte>, q: seq<byte>, s: seq<byte>, j: nat, k: nat, later: set<nat>)
    requires SameBut(p, q, j, later) && SameBut(q, s, k, later) && j <= k
    ensures SameBut(p, s, j, later)
  {
  }

  lemma {:induction false} StopsAscend(bufs: seq<seq<byte>>, stops: seq<nat>, limit: nat, rs: seq<Resource>,
                                       update: bool, later: set<nat>, k: nat)
    requires |bufs| == |stops| == |rs| + 1 && RecordsWritten(bufs, stops, limit, rs, update, later) && k <= |rs|
    ensures stops[0] <= stops[k]
    decreases k
  {
    hide RecordsWritten;
    if k > 0 {
      StopsAscend(bufs, stops, limit, rs, update, later, k - 1);
      var f := RecordStep(bufs, stops, limit, rs, update, later, k - 1);
    }
  }

  lemma {:induction false} RecordsReadFrom(
      bufs: seq<seq<byte>>, stops: seq<nat>, limit: nat, rs: seq<Resource>, update: bool, later: set<nat>,
      q: seq<byte>, e: nat, oneSecond: nat, k: nat)
    requires |bufs| == |stops| == |rs| + 1 && RecordsWritten(bufs, stops, limit, rs, update, later)
    requires AllQuiet(bufs, stops, limit, rs, update, later) && limit <= 0x4000 && oneSecond > 0 && k <= |rs|
    requires forall r :: r in rs ==> ResourceValid(r)
    requires forall x :: x in later ==> x < stops[0]
    requires stops[|rs|] <= e < |q| && SameBut(bufs[|rs|], q, stops[|rs|], later)
    ensures stops[k] <= stops[|rs|] && SameBut(bufs[k], q, stops[k], later)
    ensures ReadResources(q, stops[k], e, oneSecond, |rs| - k) == Some((SeenAll(rs[k..], oneSecond), stops[|rs|]))
    decreases |rs| - k
  {
    hide WriteRecord, ReadResource, Quiet, RecordsWritten, SameBut, ResourceValid, SeenOf;
    if k < |rs| {
      RecordsReadFrom(bufs, stops, limit, rs, update, later, q, e, oneSecond, k + 1);
      var f := RecordStep(bufs, stops, limit, rs, update, later, k);
      StopsAscend(bufs, stops, limit, rs, update, later, k);
      SameButTrans(bufs[k], bufs[k + 1], q, stops[k], stops[k + 1], later);
      SameButTrans(f, bufs[k + 1], q, stops[k + 1], stops[k + 1], later);
      RecordReadsBack(bufs[k], stops[k], limit, rs[k], update, q, e, later, oneSecond);
      assert rs[k..][0] == rs[k] && rs[k..][1..] == rs[k + 1..];
    }
  }

  /**
   * The round trip of a message of records: in every message that keeps what was written, but for the
   * octets in `later` -- the counts in the header --, reading yields the records in their order and
   * ends where writing ended.
   */
  lemma RecordsReadBack(bufs: seq<seq<byte>>, stops: seq<nat>, limit: nat, rs: seq<Resource>, update: bool,
                        later: set<nat>, q: seq<byte>, e: nat, oneSecond: nat)
    requires |bufs| == |stops| == |rs| + 1 && RecordsWritten(bufs, stops, limit, rs, update, later)
    requires AllQuiet(bufs, stops, limit, rs, update, later) && limit <= 0x4000 && oneSecond > 0
    requires forall r :: r in rs ==> ResourceValid(r)
    requires forall x :: x in later ==> x < stops[0]
    requires stops[|rs|] <= e < |q| && SameBut(bufs[|rs|], q, stops[|rs|], later)
    ensures ReadResources(q, stops[0], e, oneSecond, |rs|) == Some((SeenAll(rs, oneSecond), stops[|rs|]))
    ensures |SeenAll(rs, oneSecond)| == |rs|
    ensures forall k :: 0 <= k < |rs| && Ordinary(rs[k], oneSecond) ==>
              var r, s := rs[k], SeenAll(rs, oneSecond)[k];
              s == Seen(r.name, r.rrtype, if r.rrclass < 0x8000 then r.rrclass else r.rrclass - 0x8000, r.ttl,
                   Parsed(r.body))
  {
    SeenEach(rs, oneSecond);
    hide Ordinary, SeenOf, SeenAll;
    forall k | 0 <= k < |rs| && Ordinary(rs[k], oneSecond)
      ensures var r, s := rs[k], SeenAll(rs, oneSecond)[k];
              s == Seen(r.name, r.rrtype, if r.rrclass < 0x8000 then r.rrclass else r.rrclass - 0x8000, r.ttl,
                   Parsed(r.body))
    {
      OrdinarySeen(rs[k], oneSecond);
    }
    RecordsReadFrom(bufs, stops, limit, rs, update, later, q, e, oneSecond, 0);
    assert rs[0..] == rs;
  }
}
