/**
 * Record data: its form in memory, with numbers in host order and names whole, its octets in
 * network order, its length, the comparison of two bodies and the hash that goes before it.
 */
module Rdata {
  import opened Bytes
  import opened DomainNames
  import opened NameHash
  import NameReuse

  type u16 = x: int | 0 <= x < 0x1_0000
  type u32 = x: int | 0 <= x < WORD

  /** One constructor for each layout; the record types that share one are named beside it. */
  datatype Body =
    | Address(octets: seq<byte>)                                            // A, AAAA
    | Target(name: Name)                                                    // NS, CNAME, PTR, DNAME
    | Soa(mname: Name, rname: Name, serial: u32, refresh: u32, retry: u32, expire: u32, min: u32)
    | Exchange(preference: u16, exchange: Name)                             // MX, AFSDB, RT, KX
    | Mailboxes(mbox: Name, txt: Name)                                      // RP
    | Px(preference: u16, map822: Name, mapx400: Name)
    | Service(priority: u16, weight: u16, port: seq<byte>, target: Name)    // SRV
    | Nsec(next: Name, bitmap: seq<byte>)
    | HostInfo(strings: seq<byte>)                                          // HINFO
    | Plain(data: seq<byte>)                                                // NULL, TXT, X25, ISDN, LOC, DHCID

  /** What the structures in memory guarantee. */
  predicate Formed(b: Body) {
    match b
    case Address(o) => |o| == 4 || |o| == 16
    case Service(_, _, port, _) => |port| == 2
    case HostInfo(s) => StringsThere(s)
    case _ => true
  }

  /** Both length octets of the two strings are there. */
  predicate StringsThere(s: seq<byte>) {
    |s| > 0 && var first: int := s[0]; |s| > 1 + first
  }

  /** What the length octets say. */
  function StringsLength(s: seq<byte>): nat
    requires StringsThere(s)
  {
    var first: int := s[0];
    var second: int := s[1 + first];
    2 + first + second
  }

  function Names(b: Body): seq<Name> {
    match b
    case Target(n) => [n]
    case Soa(m, r, _, _, _, _, _) => [m, r]
    case Exchange(_, n) => [n]
    case Mailboxes(m, t) => [m, t]
    case Px(_, m, x) => [m, x]
    case Service(_, _, _, t) => [t]
    case Nsec(n, _) => [n]
    case _ => []
  }

  predicate NamesValid(b: Body) {
    forall k :: 0 <= k < |Names(b)| ==> Valid(Names(b)[k])
  }

  /** The five numbers of an SOA record. */
  function Five(v: u32, w: u32, x: u32, y: u32, z: u32): (t: seq<byte>)
    ensures |t| == 20
  {
    Big32(v) + (Big32(w) + (Big32(x) + (Big32(y) + Big32(z))))
  }

  /** The octets of the data, every name written out. */
  function DataOctets(b: Body): seq<byte> {
    match b
    case Address(o) => o
    case Target(n) => Wire(n)
    case Soa(m, r, v, w, x, y, z) => Wire(m) + (Wire(r) + Five(v, w, x, y, z))
    case Exchange(p, n) => Big16(p) + Wire(n)
    case Mailboxes(m, t) => Wire(m) + Wire(t)
    case Px(p, m, x) => Big16(p) + (Wire(m) + Wire(x))
    case Service(p, w, port, t) => Big16(p) + (Big16(w) + (port + Wire(t)))
    case Nsec(n, m) => Wire(n) + m
    case HostInfo(d) => d
    case Plain(d) => d
  }

  /** The stored length is that of data that does not tell its own. */
  predicate LengthStored(b: Body, rdlength: nat) {
    (b.Plain? ==> rdlength == |b.data|) && (b.HostInfo? ==> rdlength == |b.strings|)
  }

  /** Data is what its own length says: only the strings of HINFO may say something else. */
  predicate SelfDescribed(b: Body)
    requires Formed(b)
  {
    b.HostInfo? ==> StringsLength(b.strings) == |b.strings|
  }

  // ----- Length

  /** The name's length as it is computed when there is no parent to compress against. */
  method NameLength(n: Name) returns (len: nat)
    requires Valid(n)
    ensures len == WireLength(n)
  {
    HoldsIsWire(Wire(n), 0, n);
    len := NameReuse.CompressedDomainNameLength(Wire(n), None, n, []);
    NameReuse.UncompressedLength(n, 0);
  }

  /**
   * Without estimate the length is that of the octets.  For plain data the stored length is trusted,
   * as it is for every record of class ANY; HINFO is believed what it says of itself.
   */
  method GetRDLength(b: Body, rrclass: nat, rdlength: nat) returns (len: nat)
    requires Formed(b) && NamesValid(b) && !b.Nsec? && (b.Plain? && rrclass != CLASS_ANY ==> rdlength == |b.data|)
    ensures rrclass == CLASS_ANY ==> len == rdlength
    ensures rrclass != CLASS_ANY ==> (len == |DataOctets(b)| <==> SelfDescribed(b))
    ensures rrclass != CLASS_ANY && b.HostInfo? ==> len == StringsLength(b.strings)
  {
    if rrclass == CLASS_ANY { return rdlength; }
    assert forall k :: 0 <= k < |Names(b)| ==> Valid(Names(b)[k]);
    match b
    case Address(o) => return |o|;
    case Target(n) =>
      assert Valid(Names(b)[0]);
      len := NameLength(n);
    case Soa(m, r, _, _, _, _, _) =>
      assert Valid(Names(b)[0]) && Valid(Names(b)[1]);
      var x := NameLength(m);
      var y := NameLength(r);
      return x + y + 20;
    case Exchange(_, n) =>
      assert Valid(Names(b)[0]);
      var x := NameLength(n);
      return 2 + x;
    case Mailboxes(m, t) =>
      assert Valid(Names(b)[0]) && Valid(Names(b)[1]);
      var x := NameLength(m);
      var y := NameLength(t);
      return x + y;
    case Px(_, m, t) =>
      assert Valid(Names(b)[0]) && Valid(Names(b)[1]);
      var x := NameLength(m);
      var y := NameLength(t);
      return 2 + x + y;
    case Service(_, _, _, t) =>
      assert Valid(Names(b)[0]);
      var x := NameLength(t);
      return 6 + x;
    case HostInfo(s) => return StringsLength(s);
    case Plain(_) => return rdlength;
  }

  lemma NamesAre(b: Body)
    ensures NamesValid(b) <==>
            match b
            case Target(n) => Valid(n)
            case Soa(m, r, _, _, _, _, _) => Valid(m) && Valid(r)
            case Exchange(_, n) => Valid(n)
            case Mailboxes(m, t) => Valid(m) && Valid(t)
            case Px(_, m, x) => Valid(m) && Valid(x)
            case Service(_, _, _, t) => Valid(t)
            case Nsec(n, _) => Valid(n)
            case _ => true
  {
    hide Valid;
    var k := Names(b);
    if b.Soa? || b.Mailboxes? || b.Px? {
      assert NamesValid(b) <==> Valid(k[0]) && Valid(k[1]);
    } else if !b.Address? && !b.HostInfo? && !b.Plain? {
      assert NamesValid(b) <==> Valid(k[0]);
    }
  }

  /** What the type of a record says about the layout of its data. */
  datatype Kind =
    | AddressKind(size: nat) | TargetKind | SoaKind | ExchangeKind | MailboxesKind | PxKind | ServiceKind
    | HostInfoKind | PlainKind

  function KindOf(b: Body): Kind
    requires !b.Nsec?
  {
    match b
    case Address(o) => AddressKind(|o|)
    case Target(_) => TargetKind
    case Soa(_, _, _, _, _, _, _) => SoaKind
    case Exchange(_, _) => ExchangeKind
    case Mailboxes(_, _) => MailboxesKind
    case Px(_, _, _) => PxKind
    case Service(_, _, _, _) => ServiceKind
    case HostInfo(_) => HostInfoKind
    case Plain(_) => PlainKind
  }

  // ----- Comparing and hashing

  /** The default case: octets by pairs, as they are. */
  function DataHash(d: seq<byte>, i: nat, sum: nat): (r: nat)
    requires i <= |d| && sum < WORD
    ensures r < WORD
    decreases |d| - i
  {
    if i + 1 < |d| then DataHash(d, i + 2, Mix(sum, d[i], d[i + 1]))
    else if i < |d| then MixLast(sum, d[i])
    else sum
  }

  /** The octets go in by pairs as they are, a last single one as the higher of a pair. */
  lemma KnownDataHash()
    ensures DataHash([65, 2, 3], 0, 1) == (1 + 0x4102) * 8 + 0x0300
    ensures DataHash([1, 2], 0, 0) == 0x0102 * 8 && DataHash([], 0, 7) == 7
  {
    var d := [65, 2, 3];
    assert Mix(1, 65, 2) == (1 + 0x4102) * 8;
    assert DataHash(d, 2, (1 + 0x4102) * 8) == (1 + 0x4102) * 8 + 0x0300;
    assert DataHash([1, 2], 2, 0x0102 * 8) == 0x0102 * 8;
  }

  method HashData(d: seq<byte>, from: nat, sum0: nat) returns (sum: nat)
    requires from <= |d| && sum0 < WORD
    ensures sum == DataHash(d[from..], 0, sum0)
  {
    sum := sum0;
    var i := 0;
    ghost var t := d[from..];
    while from + i + 1 < |d|
      invariant from + i <= |d| && sum < WORD && DataHash(t, 0, sum0) == DataHash(t, i, sum)
    {
      sum := Mix(sum, d[from + i], d[from + i + 1]);
      i := i + 2;
    }
    if from + i < |d| { sum := MixLast(sum, d[from + i]); }
  }

  /** The hash of a body, in 32 bits. */
  function HashValue(b: Body): (r: nat)
    ensures r < WORD
  {
    match b
    case Address(o) => DataHash(o, 0, 0)
    case Target(n) => NameHashValue(n)
    case Soa(m, r, v, w, x, y, z) => (v + w + x + y + z + NameHashValue(m) + NameHashValue(r)) % WORD
    case Exchange(_, n) => NameHashValue(n)
    case Mailboxes(m, t) => (NameHashValue(m) + NameHashValue(t)) % WORD
    case Px(_, m, x) => (NameHashValue(m) + NameHashValue(x)) % WORD
    case Service(_, _, _, t) => NameHashValue(t)
    case Nsec(n, m) => DataHash(m, 0, NameHashValue(n))
    case HostInfo(d) => DataHash(d, 0, 0)
    case Plain(d) => DataHash(d, 0, 0)
  }

  /** Octets hash alike whatever they are, a name like the name it is, and two names and numbers as their sum. */
  lemma HashesAlike(d: seq<byte>, n: Name, m: Name, p: u16, w: u16, port: seq<byte>)
    ensures HashValue(Plain(d)) == HashValue(HostInfo(d)) == HashValue(Address(d)) == DataHash(d, 0, 0)
    ensures HashValue(Target(n)) == HashValue(Exchange(p, n)) == HashValue(Service(p, w, port, n)) == NameHashValue(n)
    ensures HashValue(Mailboxes(m, n)) == HashValue(Px(p, m, n)) == (NameHashValue(m) + NameHashValue(n)) % WORD
    ensures HashValue(Soa(m, n, 1, 20, 300, 4000, 50000)) == (NameHashValue(m) + NameHashValue(n) + 54321) % WORD
    ensures HashValue(Nsec(n, d)) == DataHash(d, 0, NameHashValue(n))
  {
  }

  method HashOfName(n: Name) returns (sum: nat)
    ensures sum == NameHashValue(n)
  {
    HoldsIsWire(Wire(n), 0, n);
    sum := DomainNameHashValue(Wire(n), 0, n);
  }

  method RDataHashValue(b: Body) returns (sum: nat)
    requires NamesValid(b)
    ensures sum == HashValue(b)
  {
    match b
    case Address(o) =>
      sum := HashData(o, 0, 0);
      assert o[0..] == o;
    case Target(n) => sum := HashOfName(n);
    case Soa(m, r, v, w, x, y, z) =>
      var hm := HashOfName(m);
      var hr := HashOfName(r);
      return (v + w + x + y + z + hm + hr) % WORD;
    case Exchange(_, n) => sum := HashOfName(n);
    case Mailboxes(m, t) =>
      var hm := HashOfName(m);
      var ht := HashOfName(t);
      return (hm + ht) % WORD;
    case Px(_, m, x) =>
      var hm := HashOfName(m);
      var hx := HashOfName(x);
      return (hm + hx) % WORD;
    case Service(_, _, _, t) => sum := HashOfName(t);
    case Nsec(n, m) =>
      var w := Wire(n) + m;
      HoldsIsWire(w, 0, n);
      NamesAre(b);
      var dlen := DomainNameLength(w, 0, n);
      sum := DomainNameHashValue(w, 0, n);
      assert w[dlen..] == m;
      sum := HashData(w, dlen, sum);
    case HostInfo(d) =>
      sum := HashData(d, 0, 0);
      assert d[0..] == d;
    case Plain(d) =>
      sum := HashData(d, 0, 0);
      assert d[0..] == d;
  }

  /** Equal but for the case of letters in names; the names as the code compares them. */
  predicate SameBody(a: Body, b: Body) {
    match (a, b)
    case (Address(o), Address(p)) => o == p
    case (Target(m), Target(n)) => Compares(m, n, 0)
    case (Soa(m, r, v, w, x, y, z), Soa(m', r', v', w', x', y', z')) =>
      v == v' && w == w' && x == x' && y == y' && z == z' && Compares(m, m', 0) && Compares(r, r', 0)
    case (Exchange(p, m), Exchange(q, n)) => p == q && Compares(m, n, 0)
    case (Mailboxes(m, t), Mailboxes(m', t')) => Compares(m, m', 0) && Compares(t, t', 0)
    case (Px(p, m, x), Px(q, m', x')) => p == q && Compares(m, m', 0) && Compares(x, x', 0)
    case (Service(p, w, o, t), Service(p', w', o', t')) => p == p' && w == w' && o == o' && Compares(t, t', 0)
    case (Nsec(m, x), Nsec(n, y)) => WireLength(m) == WireLength(n) && Compares(m, n, 0) && x == y
    case (HostInfo(x), HostInfo(y)) => x == y
    case (Plain(x), Plain(y)) => x == y
    case _ => false
  }

  /** The same body with every upper-case letter in its names lowered. */
  function LowerBody(b: Body): Body {
    match b
    case Target(n) => Target(Lower(n))
    case Soa(m, r, v, w, x, y, z) => Soa(Lower(m), Lower(r), v, w, x, y, z)
    case Exchange(p, n) => Exchange(p, Lower(n))
    case Mailboxes(m, t) => Mailboxes(Lower(m), Lower(t))
    case Px(p, m, x) => Px(p, Lower(m), Lower(x))
    case Service(p, w, o, t) => Service(p, w, o, Lower(t))
    case Nsec(n, x) => Nsec(Lower(n), x)
    case _ => b
  }

  lemma ComparedExactly(m: Name, n: Name)
    ensures Compares(m, n, 0) <==> Lower(m) == Lower(n) && Valid(m)
    ensures Lower(m) == Lower(n) ==> WireLength(m) == WireLength(n)
  {
    RootIsValid();
    ComparesMeansSame(m, n, 0);
    if Same(m, n) { SameWireLength(m, n); }
  }

  /** Bodies compare equal if and only if their names are valid and they are equal once these are lowered. */
  lemma SameBodyExactly(a: Body, b: Body)
    ensures SameBody(a, b) <==> NamesValid(a) && LowerBody(a) == LowerBody(b)
  {
    hide Compares, Valid, Lower, NamesValid, WireLength;
    NamesAre(a);
    match (a, b)
    case (Target(m), Target(n)) => ComparedExactly(m, n);
    case (Soa(m, r, _, _, _, _, _), Soa(m', r', _, _, _, _, _)) =>
      ComparedExactly(m, m');
      ComparedExactly(r, r');
    case (Exchange(_, m), Exchange(_, n)) => ComparedExactly(m, n);
    case (Mailboxes(m, t), Mailboxes(m', t')) =>
      ComparedExactly(m, m');
      ComparedExactly(t, t');
    case (Px(_, m, x), Px(_, m', x')) =>
      ComparedExactly(m, m');
      ComparedExactly(x, x');
    case (Service(_, _, _, t), Service(_, _, _, t')) => ComparedExactly(t, t');
    case (Nsec(m, _), Nsec(n, _)) => ComparedExactly(m, n);
    case _ =>
  }

  lemma ComparesItself(n: Name)
    ensures Compares(n, n, 0) <==> n == [] || Valid(n)
  {
    ComparesMeansSame(n, n, 0);
  }

  /** A body compares equal to itself exactly if its names are valid: what SetRData reads back is accepted. */
  lemma SameAsItself(b: Body)
    ensures SameBody(b, b) <==> NamesValid(b)
  {
    hide Compares, Valid;
    NamesAre(b);
    RootIsValid();
    match b
    case Target(n) => ComparesItself(n);
    case Soa(m, r, _, _, _, _, _) =>
      ComparesItself(m);
      ComparesItself(r);
    case Exchange(_, n) => ComparesItself(n);
    case Mailboxes(m, t) =>
      ComparesItself(m);
      ComparesItself(t);
    case Px(_, m, x) =>
      ComparesItself(m);
      ComparesItself(x);
    case Service(_, _, _, t) => ComparesItself(t);
    case Nsec(n, _) => ComparesItself(n);
    case _ =>
  }

  lemma RootIsValid()
    ensures Valid([])
  {
  }

  lemma ComparedHash(m: Name, n: Name)
    requires Compares(m, n, 0)
    ensures NameHashValue(m) == NameHashValue(n)
  {
    ComparesMeansSame(m, n, 0);
    SameNamesSameHash(m, n);
  }

  /** Bodies that compare equal have equal hashes, whatever their layout. */
  lemma SameBodySameHash(a: Body, b: Body)
    requires SameBody(a, b)
    ensures HashValue(a) == HashValue(b)
  {
    hide Compares, NameHashValue, DataHash;
    match (a, b)
    case (Target(m), Target(n)) => ComparedHash(m, n);
    case (Soa(m, r, _, _, _, _, _), Soa(m', r', _, _, _, _, _)) =>
      ComparedHash(m, m');
      ComparedHash(r, r');
    case (Exchange(_, m), Exchange(_, n)) => ComparedHash(m, n);
    case (Mailboxes(m, t), Mailboxes(m', t')) =>
      ComparedHash(m, m');
      ComparedHash(t, t');
    case (Px(_, m, x), Px(_, m', x')) =>
      ComparedHash(m, m');
      ComparedHash(x, x');
    case (Service(_, _, _, t), Service(_, _, _, t')) => ComparedHash(t, t');
    case (Nsec(m, _), Nsec(n, _)) => ComparedHash(m, n);
    case _ =>
  }

  /** A record as the cache keeps it, with the hashes that were computed when it was stored. */
  datatype Record =
    Record(name: Name, rrtype: u16, rrclass: u16, body: Body, rdlength: nat, namehash: nat, rdatahash: nat)

  /** What SetNewRData and the setting of the name leave in the record. */
  predicate Stored(r: Record) {
    r.namehash == NameHashValue(r.name) && r.rdatahash == HashValue(r.body)
  }

  /** The name a record points to, if that is what its data is for. */
  function Destination(b: Body): Option<Name> {
    match b
    case Target(n) => Some(n)
    case Exchange(_, n) => Some(n)
    case Service(_, _, _, n) => Some(n)
    case _ => None
  }

  /** A record in memory; the hash of its data is taken of the name it points to, or else of the data. */
  class ResourceRecord {
    const name: Name
    const rrtype: u16
    const rrclass: u16
    const namehash: nat
    var body: Body
    var rdlength: nat
    var rdatahash: nat

    function Value(): Record
      reads this
    {
      Record(name, rrtype, rrclass, body, rdlength, namehash, rdatahash)
    }

    constructor (name: Name, rrtype: u16, rrclass: u16, body: Body, rdlength: nat)
      requires Formed(body) && NamesValid(body) && !body.Nsec? && LengthStored(body, rdlength) && SelfDescribed(body)
      ensures this.name == name && this.rrtype == rrtype && this.rrclass == rrclass
      ensures this.body == body && Stored(Value())
    {
      var hash := HashOfName(name);
      this.name, this.rrtype, this.rrclass, namehash := name, rrtype, rrclass, hash;
      this.body, this.rdlength, rdatahash := body, rdlength, 0;
      new;
      SetNewRData(None);
    }

    /** The data is replaced, or only taken stock of; whichever hash is computed, it is that of the data. */
    method SetNewRData(data: Option<(Body, nat)>)
      requires var (b, len) := if data.Some? then data.value else (body, rdlength);
               Formed(b) && NamesValid(b) && !b.Nsec? && LengthStored(b, len) && SelfDescribed(b)
      requires namehash == NameHashValue(name)
      modifies this`body, this`rdlength, this`rdatahash
      ensures body == if data.Some? then data.value.0 else old(body)
      ensures Stored(Value())
      ensures rrclass == CLASS_ANY ==> rdlength == if data.Some? then data.value.1 else old(rdlength)
      ensures rrclass != CLASS_ANY ==> rdlength == |DataOctets(body)|
    {
      hide Valid, NameHashValue, DataHash, NamesValid;
      if data.Some? { body, rdlength := data.value.0, data.value.1; }
      rdlength := GetRDLength(body, rrclass, rdlength);
      match Destination(body)
      case Some(n) => rdatahash := HashOfName(n);
      case None => rdatahash := RDataHashValue(body);
    }
  }

  /** The comparison with its pre-checks. */
  predicate IdenticalResourceRecord(r: Record, s: Record) {
    && r.rrtype == s.rrtype && r.rrclass == s.rrclass && r.namehash == s.namehash
    && r.rdlength == s.rdlength && r.rdatahash == s.rdatahash
    && SameBody(r.body, s.body) && Compares(r.name, s.name, 0)
  }

  /** The hashes only save work: the comparison has the result it would have without them. */
  lemma PreChecksNeverMiss(r: Record, s: Record)
    requires Stored(r) && Stored(s)
    ensures IdenticalResourceRecord(r, s) <==>
              r.rrtype == s.rrtype && r.rrclass == s.rrclass && r.rdlength == s.rdlength &&
              SameBody(r.body, s.body) && Compares(r.name, s.name, 0)
  {
    if SameBody(r.body, s.body) { SameBodySameHash(r.body, s.body); }
    if Compares(r.name, s.name, 0) { ComparedHash(r.name, s.name); }
  }
}
