/**
 * Whole resource records: written with their names compressed and the length of the data filled in
 * behind it, and read back, record after record.
 */
module Records {
  import opened Bytes
  import opened DomainNames
  import opened NameCodec
  import opened NameRoundTrip
  import opened LengthsLater
  import opened Rdata
  import opened RdataCodec
  import Sections

  const TYPE_SRV: nat := 33
  const CLASS_MASK: nat := 0x8000
  /** MaximumRDSize. */
  const MAXIMUM_RD_SIZE: nat := 8192

  /**
   * The layout a type's data has; none for the types whose writing and reading do not line up or are
   * not modelled.
   */
  function KindOfType(rrtype: nat): Option<Kind> {
    if rrtype == 1 then Some(AddressKind(4))
    else if rrtype == 28 then Some(AddressKind(16))
    else if rrtype in {2, 5, 12, 39} then Some(TargetKind)
    else if rrtype == 6 then Some(SoaKind)
    else if rrtype in {15, 18, 21, 36} then Some(ExchangeKind)
    else if rrtype == 17 then Some(MailboxesKind)
    else if rrtype == 26 then Some(PxKind)
    else if rrtype == TYPE_SRV then Some(ServiceKind)
    else if rrtype == 13 then Some(HostInfoKind)
    else if rrtype in {3, 4, 7, 8, 9, 14, 23, 35, 41, 43, 46, 47, 48, 50, 249, 250} then None
    else Some(PlainKind)
  }

  datatype Resource = Resource(name: Name, rrtype: u16, rrclass: u16, ttl: u32, body: Body)

  predicate ResourceFormed(r: Resource) {
    Formed(r.body) && !r.body.Nsec? && KindOfType(r.rrtype) == Some(KindOf(r.body))
  }

  predicate ResourceValid(r: Resource) {
    ResourceFormed(r) && Valid(r.name) && NamesValid(r.body) && |DataOctets(r.body)| <= 8192
  }

  // ----- What is written

  /** Type, class and time to live. */
  function FixedPart(r: Resource): (t: seq<byte>)
    ensures |t| == 8
  {
    Big16(r.rrtype) + (Big16(r.rrclass) + Big32(r.ttl))
  }

  /** SRV data in an update is not compressed. */
  predicate Compressed(r: Resource, update: bool) {
    !(update && r.rrtype == TYPE_SRV)
  }

  /** Only type 33 in an update is. */
  lemma CompressedIs(r: Resource, update: bool)
    ensures Compressed(r, update) <==> !update || r.rrtype != 33
    ensures DataItems(r.body, Compressed(r, update)) ==
            if update && r.rrtype == 33 then [Raw(DataOctets(r.body))] else BodyItems(r.body)
  {
  }

  function DataItems(b: Body, compress: bool): seq<Item> {
    if compress then BodyItems(b) else [Raw(DataOctets(b))]
  }

  /** The record as items; `stale` are the octets that happen to stand in the place of the length. */
  function RecordItems(r: Resource, stale: seq<byte>, compress: bool): seq<Item> {
    [DomainName(r.name)] + ([Raw(FixedPart(r))] + ([Raw(stale)] + DataItems(r.body, compress)))
  }

  /** The position behind the owner's name. */
  function HeadAt(p: seq<byte>, ptr: nat, limit: nat, r: Resource): (at: Option<nat>)
    requires ptr <= limit < |p|
    ensures at.Some? ==> at.value <= limit
  {
    match ItemBytes(p, ptr, limit, DomainName(r.name))
    case None => None
    case Some(b) => Some(ptr + |b|)
  }

  function Stale(p: seq<byte>, at: nat): (s: seq<byte>)
    requires at + 10 <= |p|
    ensures |s| == 2
  {
    [p[at + 8], p[at + 9]]
  }

  /** The message with the record in it whose owner's name ends at `at`, and the position behind the record. */
  function WriteFrom(p: seq<byte>, ptr: nat, limit: nat, r: Resource, compress: bool, at: nat): Option<(seq<byte>, nat)>
    requires ptr <= limit < |p| && HeadAt(p, ptr, limit, r) == Some(at) && at + 10 < limit
  {
    var stale := Stale(p, at);
    match WriteItems(p, ptr, limit, RecordItems(r, stale, compress))
    case None => None
    case Some(w) =>
      WrittenRoom(p, ptr, limit, r, stale, compress, at);
      var stop := w.stops[|w.stops| - 1];
      Some((Splice(w.packet, at + 8, Big16(stop - at - 10)), stop))
  }

  function WriteRecord(p: seq<byte>, ptr: nat, limit: nat, r: Resource, update: bool): Option<(seq<byte>, nat)>
    requires ptr <= limit < |p|
  {
    match HeadAt(p, ptr, limit, r)
    case None => None
    case Some(at) =>
      if at + 10 >= limit || (r.body.Px? && at + 15 > limit) then None
      else if !Compressed(r, update) && !NamesValid(r.body) then None
      else WriteFrom(p, ptr, limit, r, Compressed(r, update), at)
  }

  /** Where the parts of a record are. */
  lemma WrittenRoom(p: seq<byte>, ptr: nat, limit: nat, r: Resource, stale: seq<byte>, compress: bool, at: nat)
    requires ptr <= limit < |p| && HeadAt(p, ptr, limit, r) == Some(at) && |stale| == 2
    requires WriteItems(p, ptr, limit, RecordItems(r, stale, compress)).Some?
    ensures var w, n := WriteItems(p, ptr, limit, RecordItems(r, stale, compress)).value, |DataItems(r.body, compress)|;
            && |w.packet| == |p| && |w.stops| == n + 4
            && w.stops[0] == ptr && w.stops[1] == at && w.stops[2] == at + 8 && w.stops[3] == at + 10
            && at + 10 <= w.stops[n + 3] <= limit
  {
    hide Encode, Splice, FixedPart, DataItems, WriteItems, ItemBytes;
    var data := DataItems(r.body, compress);
    var tail := [Raw(stale)] + data;
    var rest := [Raw(FixedPart(r))] + tail;
    var items := [DomainName(r.name)] + rest;
    assert items[0] == DomainName(r.name) && items[1..] == rest && rest[0] == Raw(FixedPart(r)) && rest[1..] == tail;
    assert tail[0] == Raw(stale) && tail[1..] == data;
    WritingGoesForward(p, ptr, limit, items);
    StopsStep(p, ptr, limit, items);
    var p1 := Splice(p, ptr, ItemBytes(p, ptr, limit, items[0]).value);
    StopsStep(p1, at, limit, rest);
    RawBytes(p1, at, limit, FixedPart(r));
    var p2 := Splice(p1, at, FixedPart(r));
    StopsStep(p2, at + 8, limit, tail);
    RawBytes(p2, at + 8, limit, stale);
    WritingGoesForward(Splice(p2, at + 8, stale), at + 10, limit, data);
    AllStops(p, ptr, limit, items);
  }

  lemma RawBytes(p: seq<byte>, ptr: nat, limit: nat, o: seq<byte>)
    requires ptr <= limit < |p| && ItemBytes(p, ptr, limit, Raw(o)).Some?
    ensures ItemBytes(p, ptr, limit, Raw(o)) == Some(o) && ptr + |o| <= limit
  {
  }

  lemma AllStops(p: seq<byte>, ptr: nat, limit: nat, items: seq<Item>)
    requires ptr <= limit < |p| && WriteItems(p, ptr, limit, items).Some?
    ensures |WriteItems(p, ptr, limit, items).value.stops| == |items| + 1
  {
  }

  lemma StopsStep(p: seq<byte>, ptr: nat, limit: nat, items: seq<Item>)
    requires ptr <= limit < |p| && items != [] && WriteItems(p, ptr, limit, items).Some?
    ensures ItemBytes(p, ptr, limit, items[0]).Some?
    ensures var b := ItemBytes(p, ptr, limit, items[0]).value;
            var w := WriteItems(Splice(p, ptr, b), ptr + |b|, limit, items[1..]);
            w.Some? && WriteItems(p, ptr, limit, items) == Some(Written(w.value.packet, [ptr] + w.value.stops))
  {
  }

  // ----- Writing

  /** Data that is not compressed is one run of octets. */
  lemma WholeIsRaw(p: seq<byte>, q: seq<byte>, ptr: nat, limit: nat, b: Body, r: Option<nat>)
    requires limit < |p| && Put(p, q, ptr, limit, BodyItems(b), false, r) && NamesValid(b)
    ensures Put(p, q, ptr, limit, [Raw(DataOctets(b))], true, r)
  {
    BodyOctets(b);
    hide Outcome, NamesValid, Splice, DataOctets, BodyItems, ItemsOctets, ItemsValid;
    if ptr <= limit {
      OutcomeWhole(p, ptr, limit, BodyItems(b));
      OneItem(p, ptr, limit, Raw(DataOctets(b)), true);
    }
  }

  /** Data with a malformed name is not written. */
  lemma MalformedIsNot(p: seq<byte>, q: seq<byte>, ptr: nat, limit: nat, b: Body, r: Option<nat>)
    requires limit < |p| && PutBody(p, q, ptr, limit, b, false, r) && !NamesValid(b)
    ensures r == None && SameOutside(p, q, ptr, limit)
  {
    BodyWhole(p, q, ptr, limit, b, r);
  }

  /** Octets stored over themselves. */
  lemma StaleStays(p: seq<byte>, at: nat, limit: nat)
    requires at + 10 <= limit < |p|
    ensures Put(p, p, at + 8, limit, [Raw(Stale(p, at))], true, Some(at + 10))
  {
    OneItem(p, at + 8, limit, Raw(Stale(p, at)), true);
    assert Splice(p, at + 8, Stale(p, at)) == p;
  }

  lemma StaleKept(p: seq<byte>, q: seq<byte>, lo: nat, at: nat)
    requires at + 10 <= |p| && SameOutside(p, q, lo, at + 8)
    ensures |q| == |p| && Stale(q, at) == Stale(p, at)
  {
  }

  lemma PutInside(p: seq<byte>, q: seq<byte>, ptr: nat, limit: nat, items: seq<Item>, at: nat)
    requires limit < |p| && Put(p, q, ptr, limit, items, true, Some(at))
    ensures ptr <= at <= limit && SameOutside(p, q, ptr, at)
  {
    hide Outcome;
    OutcomeInside(p, ptr, limit, items, true);
  }

  lemma SameOutsideThen(p: seq<byte>, q: seq<byte>, s: seq<byte>, lo: nat, mid: nat, hi: nat)
    requires SameOutside(p, q, lo, mid) && SameOutside(q, s, mid, hi) && lo <= mid <= hi
    ensures SameOutside(p, s, lo, hi)
  {
  }

  /** Where the owner's name ends, as the writing of it tells. */
  lemma HeadIs(p: seq<byte>, q: seq<byte>, ptr: nat, limit: nat, r: Resource, at: Option<nat>)
    requires ptr <= limit < |p| && Put(p, q, ptr, limit, [DomainName(r.name)], true, at)
    ensures HeadAt(p, ptr, limit, r) == at
  {
    hide Encode;
    OneItem(p, ptr, limit, DomainName(r.name), true);
  }

  /** What has been written of a record when its data has been, the length aside. */
  lemma RecordPut(p: seq<byte>, q: seq<byte>, ptr: nat, limit: nat, r: Resource, stale: seq<byte>, compress: bool,
                  next: Option<nat>)
    requires ptr <= limit < |p| && Put(p, q, ptr, limit, RecordItems(r, stale, compress), true, next)
    ensures var w := WriteItems(p, ptr, limit, RecordItems(r, stale, compress));
            if next.None? then w.None? && SameOutside(p, q, ptr, limit)
            else w.Some? && w.value.packet == q && w.value.stops[|w.value.stops| - 1] == next.value
  {
    hide Outcome, WriteItems, RecordItems;
    var items := RecordItems(r, stale, compress);
    OutcomeInMessage(p, ptr, limit, items);
    if next.Some? { AllStops(p, ptr, limit, items); }
  }

  /** Data put where it belongs, in the two ways it may be. */
  method PutData(p: array<byte>, ptr: nat, limit: nat, r: Resource, rdlength: nat, update: bool)
    returns (next: Option<nat>)
    requires ptr <= limit < p.Length && ResourceFormed(r) && LengthStored(r.body, rdlength)
    requires r.body.Address? ==> rdlength == |r.body.octets|
    modifies p
    ensures if (r.body.Px? && ptr + 5 > limit) || (!Compressed(r, update) && !NamesValid(r.body))
            then next == None && SameOutside(old(p[..]), p[..], ptr, limit)
            else Put(old(p[..]), p[..], ptr, limit, DataItems(r.body, Compressed(r, update)), true, next)
  {
    hide Put, NamesValid, KindOfType, BodyItems;
    ghost var P := p[..];
    var compress := !(update && r.rrtype == TYPE_SRV);
    next := PutRData(p, ptr, limit, r.body, rdlength, compress);
    if !compress {
      if NamesValid(r.body) {
        if !(r.body.Px? && ptr + 5 > limit) { WholeIsRaw(P, p[..], ptr, limit, r.body, next); }
      } else {
        MalformedIsNot(P, p[..], ptr, limit, r.body, next);
      }
    }
  }

  /** A record is not written if its head is not, or if there is no room behind it. */
  lemma NoRoom(p: seq<byte>, ptr: nat, limit: nat, r: Resource, update: bool)
    requires ptr <= limit < |p|
    requires var at := HeadAt(p, ptr, limit, r); at.None? || at.value + 10 >= limit
    ensures WriteRecord(p, ptr, limit, r, update) == None
  {
    hide HeadAt;
  }

  /** The record in front of its data, in the buffer. */
  lemma HeadPut(P: seq<byte>, P1: seq<byte>, P2: seq<byte>, ptr: nat, limit: nat, r: Resource, at: nat)
    requires ptr <= limit < |P| == |P1| && at + 10 < limit
    requires Put(P, P1, ptr, limit, [DomainName(r.name)], true, Some(at))
    requires Put(P1, P2, at, limit, [Raw(FixedPart(r))], true, Some(at + 8))
    ensures |P2| == |P| && SameOutside(P, P2, ptr, at + 8) && Stale(P2, at) == Stale(P, at)
    ensures Put(P2, P2, at + 8, limit, [Raw(Stale(P, at))], true, Some(at + 10))
  {
    hide Put, FixedPart;
    PutInside(P, P1, ptr, limit, [DomainName(r.name)], at);
    PutInside(P1, P2, at, limit, [Raw(FixedPart(r))], at + 8);
    SameOutsideThen(P, P1, P2, ptr, at, at + 8);
    StaleKept(P, P2, ptr, at);
    StaleStays(P2, at, limit);
  }

  lemma RecordIs(p: seq<byte>, ptr: nat, limit: nat, r: Resource, update: bool, at: nat)
    requires ptr <= limit < |p| && HeadAt(p, ptr, limit, r) == Some(at) && at + 10 < limit
    ensures WriteRecord(p, ptr, limit, r, update) ==
            if (r.body.Px? && at + 15 > limit) || (!Compressed(r, update) && !NamesValid(r.body)) then None
            else WriteFrom(p, ptr, limit, r, Compressed(r, update), at)
  {
    hide HeadAt, WriteFrom, NamesValid, Compressed;
  }

  lemma WriteFromIs(p: seq<byte>, q: seq<byte>, ptr: nat, limit: nat, r: Resource, compress: bool, at: nat,
                    next: Option<nat>)
    requires ptr <= limit < |p| && HeadAt(p, ptr, limit, r) == Some(at) && at + 10 < limit
    requires var w := WriteItems(p, ptr, limit, RecordItems(r, Stale(p, at), compress));
             if next.None? then w.None?
             else w.Some? && w.value.packet == q && w.value.stops[|w.value.stops| - 1] == next.value
    ensures next.None? ==> WriteFrom(p, ptr, limit, r, compress, at) == None
    ensures next.Some? ==>
              && at + 10 <= next.value <= limit && |q| == |p|
              && var len := next.value - at - 10;
                 WriteFrom(p, ptr, limit, r, compress, at) == Some((Splice(q, at + 8, Big16(len)), next.value))
  {
    hide WriteItems, RecordItems, HeadAt, Stale, Splice, Big16, DataItems;
    if next.Some? { WrittenRoom(p, ptr, limit, r, Stale(p, at), compress, at); }
  }

  lemma InsideToo(p: seq<byte>, q: seq<byte>, lo: nat, less: nat, hi: nat)
    requires SameOutside(p, q, lo, hi) && less <= lo
    ensures SameOutside(p, q, less, hi)
  {
  }

  /** What data written or not makes of the record, its length not being filled in. */
  lemma DataPut(P: seq<byte>, P1: seq<byte>, P2: seq<byte>, P3: seq<byte>, ptr: nat, limit: nat, r: Resource,
                update: bool, at: nat, next: Option<nat>)
    requires ptr <= limit < |P| == |P1| == |P2| && HeadAt(P, ptr, limit, r) == Some(at) && at + 10 < limit && ptr <= at
    requires Put(P, P1, ptr, limit, [DomainName(r.name)], true, Some(at))
    requires Put(P1, P2, at, limit, [Raw(FixedPart(r))], true, Some(at + 8))
    requires if (r.body.Px? && at + 15 > limit) || (!Compressed(r, update) && !NamesValid(r.body))
             then next == None && SameOutside(P2, P3, at + 10, limit)
             else Put(P2, P3, at + 10, limit, DataItems(r.body, Compressed(r, update)), true, next)
    ensures next.None? ==> WriteRecord(P, ptr, limit, r, update) == None && SameOutside(P, P3, ptr, limit)
    ensures next.Some? ==>
              && at + 10 <= next.value <= limit && |P3| == |P|
              && var len := next.value - at - 10;
                 WriteRecord(P, ptr, limit, r, update) == Some((Splice(P3, at + 8, Big16(len)), next.value))
  {
    hide *;
    HeadPut(P, P1, P2, ptr, limit, r, at);
    RecordIs(P, ptr, limit, r, update, at);
    var stale, compress := Stale(P, at), Compressed(r, update);
    if (r.body.Px? && at + 15 > limit) || (!compress && !NamesValid(r.body)) {
      InsideToo(P2, P3, at + 10, at + 8, limit);
      SameOutsideThen(P, P2, P3, ptr, at + 8, limit);
    } else {
      PutParts(P, P1, P2, P3, ptr, at, limit, r, stale, compress, next);
      RecordPut(P, P3, ptr, limit, r, stale, compress, next);
      WriteFromIs(P, P3, ptr, limit, r, compress, at, next);
    }
  }

  lemma LengthStore(p: seq<byte>, q: seq<byte>, i: nat, v: nat)
    requires i + 2 <= |p| && q == p[i := v / 0x100 % 0x100][i + 1 := v % 0x100]
    ensures q == Splice(p, i, Big16(v))
  {
  }

  /** The length of the data is filled in when the data has been written. */
  method PutResourceRecord(p: array<byte>, ptr: nat, limit: nat, r: Resource, rdlength: nat, update: bool)
    returns (next: Option<nat>)
    requires ptr <= limit < p.Length && ResourceFormed(r) && LengthStored(r.body, rdlength)
    requires r.body.Address? ==> rdlength == |r.body.octets|
    modifies p
    ensures match WriteRecord(old(p[..]), ptr, limit, r, update)
            case None => next == None && SameOutside(old(p[..]), p[..], ptr, limit)
            case Some((q, stop)) => next == Some(stop) && p[..] == q
  {
    hide Put, NamesValid, DataItems, HeadAt, ResourceFormed, LengthStored, WriteRecord, FixedPart, Compressed, Splice;
    ghost var P := p[..];
    next := PutName(p, ptr, limit, r.name, true);
    HeadIs(P, p[..], ptr, limit, r, next);
    if next.None? || next.value + 10 >= limit {
      NoRoom(P, ptr, limit, r, update);
      NotPut(P, p[..], ptr, limit, [DomainName(r.name)], next);
      return None;
    }
    var at := next.value;
    ghost var P1 := p[..];
    NotPut(P, P1, ptr, limit, [DomainName(r.name)], next);
    var head := PutOctets(p, at, limit, FixedPart(r), true);
    ghost var P2 := p[..];
    next := PutData(p, at + 10, limit, r, rdlength, update);
    ghost var P3 := p[..];
    DataPut(P, P1, P2, P3, ptr, limit, r, update, at, next);
    if next.None? { return; }
    var actualLength := next.value - at - 10;
    p[at + 8] := actualLength / 0x100 % 0x100;
    p[at + 9] := actualLength % 0x100;
    LengthStore(P3, p[..], at + 8, actualLength);
  }

  /** Whatever comes of it, nothing outside the room is touched. */
  lemma NotPut(p: seq<byte>, q: seq<byte>, ptr: nat, limit: nat, items: seq<Item>, next: Option<nat>)
    requires limit < |p| && Put(p, q, ptr, limit, items, true, next)
    ensures |q| == |p| && SameOutside(p, q, ptr, limit) && (next.Some? ==> ptr <= next.value <= limit)
  {
    hide Outcome;
    if next.Some? { PutInside(p, q, ptr, limit, items, next.value); }
  }

  lemma PutParts(P: seq<byte>, P1: seq<byte>, P2: seq<byte>, P3: seq<byte>, ptr: nat, at: nat, limit: nat, r: Resource,
                 stale: seq<byte>, compress: bool, next: Option<nat>)
    requires ptr <= limit < |P| == |P1| == |P2|
    requires Put(P, P1, ptr, limit, [DomainName(r.name)], true, Some(at))
    requires Put(P1, P2, at, limit, [Raw(FixedPart(r))], true, Some(at + 8))
    requires Put(P2, P2, at + 8, limit, [Raw(stale)], true, Some(at + 10))
    requires Put(P2, P3, at + 10, limit, DataItems(r.body, compress), true, next)
    ensures Put(P, P3, ptr, limit, RecordItems(r, stale, compress), true, next)
  {
    hide Put, DataItems, FixedPart;
    var data := DataItems(r.body, compress);
    PutThen(P2, P2, P3, at + 8, at + 10, limit, [Raw(stale)], data, true, next);
    PutThen(P1, P2, P3, at, at + 8, limit, [Raw(FixedPart(r))], [Raw(stale)] + data, true, next);
    PutThen(P, P1, P3, ptr, at, limit, [DomainName(r.name)], [Raw(FixedPart(r))] + ([Raw(stale)] + data), true, next);
  }

  // ----- Reading

  /** Data, or none: of class ANY and length zero, or too long, malformed or of a type left out here. */
  datatype Data = Empty | Unparsed | Parsed(body: Body)

  datatype Seen = Seen(name: Name, rrtype: u16, rrclass: u16, ttl: u32, data: Data)

  /** The time to live in seconds is limited to what fits the clock, all ones aside. */
  function Lifetime(ttl: u32, oneSecond: nat): (t: u32)
    requires oneSecond > 0
    ensures t <= ttl
  {
    if ttl > 0x7000_0000 / oneSecond && ttl != 0xFFFF_FFFF then 0x7000_0000 / oneSecond else ttl
  }

  /** So it is left alone if it fits, and otherwise becomes the longest that does. */
  lemma LifetimeFits(ttl: u32, oneSecond: nat)
    requires oneSecond > 0
    ensures ttl * oneSecond <= 0x7000_0000 || ttl == 0xFFFF_FFFF ==> Lifetime(ttl, oneSecond) == ttl
    ensures ttl * oneSecond > 0x7000_0000 && ttl != 0xFFFF_FFFF ==>
              Lifetime(ttl, oneSecond) * oneSecond <= 0x7000_0000 < (Lifetime(ttl, oneSecond) + 1) * oneSecond
  {
    var q := 0x7000_0000 / oneSecond;
    var t := Lifetime(ttl, oneSecond);
    if ttl > q {
      Longest(oneSecond, q);
      Grows(q + 1, ttl, oneSecond);
    } else {
      Longest(oneSecond, q);
      Grows(ttl, q, oneSecond);
    }
  }

  lemma Longest(d: nat, q: nat)
    requires d > 0 && q == 0x7000_0000 / d
    ensures q * d <= 0x7000_0000 < (q + 1) * d
  {
  }

  lemma Grows(a: nat, b: nat, d: nat)
    requires a <= b
    ensures a * d <= b * d
  {
  }

  function ReadData(p: seq<byte>, ptr: nat, end: nat, rrtype: nat, rrclass: nat): Data
    requires ptr <= end < |p|
  {
    if end - ptr > MAXIMUM_RD_SIZE then Unparsed
    else if rrclass == CLASS_ANY && end == ptr then Empty
    else
      match KindOfType(rrtype)
      case None => Unparsed
      case Some(kind) =>
        match ReadBody(p, ptr, end, kind)
        case None => Unparsed
        case Some(b) => Parsed(b)
  }

  /** The record at `i`, and the position behind it, which data that cannot be parsed does not move. */
  function ReadResource(p: seq<byte>, i: int, end: nat, oneSecond: nat): (r: Option<(Seen, nat)>)
    requires end < |p| && oneSecond > 0
    ensures r.Some? ==> r.value.1 <= end
  {
    match Sections.ReadRecord(p, i, end)
    case None => None
    case Some((r, j)) =>
      var data := ReadData(p, r.rdata, j, r.rrtype, r.rrclass);
      Some((Seen(r.name, r.rrtype, r.rrclass, Lifetime(r.ttl, oneSecond), data), j))
  }

  /** The time to live of a record is the one in the message, unless that does not fit the clock. */
  lemma TimeToLiveRead(p: seq<byte>, i: int, end: nat, oneSecond: nat)
    requires end < |p| && oneSecond > 0 && ReadResource(p, i, end, oneSecond).Some?
    ensures Sections.ReadRecord(p, i, end).Some?
    ensures var ttl, t := Sections.ReadRecord(p, i, end).value.0.ttl, ReadResource(p, i, end, oneSecond).value.0.ttl;
            && (ttl * oneSecond <= 0x7000_0000 || ttl == 0xFFFF_FFFF ==> t == ttl)
            && (ttl * oneSecond > 0x7000_0000 && ttl != 0xFFFF_FFFF ==>
                  t * oneSecond <= 0x7000_0000 < (t + 1) * oneSecond)
  {
    hide Sections.ReadRecord, ReadData, Lifetime;
    LifetimeFits(Sections.ReadRecord(p, i, end).value.0.ttl, oneSecond);
  }

  /** Data of more than 8192 octets is not taken over. */
  lemma LongDataUnread(p: seq<byte>, i: int, end: nat, oneSecond: nat)
    requires end < |p| && oneSecond > 0 && ReadResource(p, i, end, oneSecond).Some?
    ensures Sections.ReadRecord(p, i, end).Some?
    ensures Sections.ReadRecord(p, i, end).value.0.rdlength > 8192 ==>
              ReadResource(p, i, end, oneSecond).value.0.data == Unparsed
  {
    hide Sections.ReadRecord, ReadBody;
  }

  function ReadResources(p: seq<byte>, i: int, end: nat, oneSecond: nat, count: nat): (r: Option<(seq<Seen>, int)>)
    requires end < |p| && oneSecond > 0
    decreases count
  {
    if count == 0 then Some(([], i)) else
    match ReadResource(p, i, end, oneSecond)
    case None => None
    case Some((x, j)) =>
      match ReadResources(p, j, end, oneSecond, count - 1)
      case None => None
      case Some((xs, k)) => Some(([x] + xs, k))
  }

  method GetLargeResourceRecord(p: seq<byte>, i: int, end: nat, oneSecond: nat) returns (next: Option<nat>, seen: Seen)
    requires end < |p| && oneSecond > 0
    ensures match ReadResource(p, i, end, oneSecond)
            case None => next == None
            case Some((s, j)) => next == Some(j) && seen == s
  {
    hide ReadName, Holds, ReadBody, KindOfType, Lifetime;
    seen := Seen([], 0, 0, 0, Unparsed);
    var name := new byte[MAX_DOMAIN_NAME];
    var at := GetDomainName(p, i, end, name);
    if at == None { return None, seen; }
    var ptr := at.value;
    var n := ReadLabels(name[..], 0, ReadName(p, i, end, 0).value.0);
    if ptr + 10 > end { return None, seen; }
    var rrtype, rrclass := Read16(p, ptr), Read16(p, ptr + 2) % CLASS_MASK;
    var ttl, pktrdlength := Lifetime(Read32(p, ptr + 4), oneSecond), Read16(p, ptr + 8);
    ptr := ptr + 10;
    if ptr + pktrdlength > end { return None, seen; }
    var rdend := ptr + pktrdlength;
    seen := Seen(n, rrtype, rrclass, ttl, Unparsed);
    if pktrdlength > MAXIMUM_RD_SIZE { return Some(rdend), seen; }
    if rrclass == CLASS_ANY && pktrdlength == 0 { return Some(rdend), seen.(data := Empty); }
    var kind := KindOfType(rrtype);
    if kind == None { return Some(rdend), seen; }
    var body := SetRData(p, ptr, rdend, kind.value, true, Plain([]));
    if body == None { return Some(rdend), seen; }
    return Some(rdend), seen.(data := Parsed(body.value));
  }
}
