/**
 * The formats of section 4.1 of RFC 1035 octet by octet: questions, records and record data laid out
 * as the standard says are read as what they are, wherever in a message they stand.
 */
module WireFormat {
  import opened Bytes
  import opened DomainNames
  import opened NameCodec
  import opened Rdata
  import RdataCodec
  import Records
  import RecordRoundTrip
  import Sections

  lemma LastOctet(x: nat, d: byte)
    ensures (256 * x + d) / 256 == x && (256 * x + d) % 256 == d
  {
  }

  /** Numbers have their most significant octet first. */
  lemma NetworkOrder(a: byte, b: byte, c: byte, d: byte)
    ensures Big16(256 * a + b) == [a, b] && Read16([a, b], 0) == 256 * a + b
    ensures var v := 0x100_0000 * a + 0x1_0000 * b + 0x100 * c + d;
            Big32(v) == [a, b, c, d] && Read32([a, b, c, d], 0) == v
  {
    var ab: nat := 256 * a + b;
    var abc: nat := 256 * ab + c;
    var v: nat := 256 * abc + d;
    LastOctet(a, b);
    LastOctet(ab, c);
    LastOctet(abc, d);
    Shifted(v);
  }

  lemma Shifted(v: nat)
    ensures v / 0x1_0000 == v / 256 / 256 && v / 0x100_0000 == v / 256 / 256 / 256
  {
  }

  /** A pointer is two octets: two bits set, then the position. */
  lemma PointerLayout(q: nat, p: seq<byte>, t: nat)
    requires q < 0x4000
    ensures PointerBytes(q) == [192 + q / 256, q % 256]
    ensures StandsAt(p, t, [192 + q / 256, q % 256]) ==> PointerTarget(p, t) == q
  {
    if StandsAt(p, t, [192 + q / 256, q % 256]) {
      assert p[t] == [192 + q / 256, q % 256][0] && p[t + 1] == [192 + q / 256, q % 256][1];
    }
  }

  /** The octets of a question. */
  function QuestionOctets(n: Name, qtype: u16, qclass: u16): (t: seq<byte>) {
    Wire(n) + [qtype / 256, qtype % 256, qclass / 256, qclass % 256]
  }

  /** A question is read as it is laid out. */
  lemma QuestionLaidOut(p: seq<byte>, i: nat, end: nat, n: Name, qtype: u16, qclass: u16)
    requires Valid(n) && StandsAt(p, i, QuestionOctets(n, qtype, qclass))
    requires i + |QuestionOctets(n, qtype, qclass)| <= end < |p|
    ensures Sections.ReadQuestion(p, i, end) ==
            Some((Sections.Question(n, qtype, qclass), i + |QuestionOctets(n, qtype, qclass)|))
  {
    var t := [qtype / 256, qtype % 256, qclass / 256, qclass % 256];
    StandsParts(p, i, Wire(n), t);
    RecordRoundTrip.WholeNameReads(p, i, n, end, 0);
    hide Wire, ReadName, WireLength;
    var j := i + |Wire(n)|;
    assert p[j] == t[0] && p[j + 1] == t[1] && p[j + 2] == t[2] && p[j + 3] == t[3];
  }

  /** Type, class with the cache flush bit, time to live and length, as they stand between owner and data. */
  function FixedOctets(rrtype: u16, rrclass: u16, flush: bool, ttl: u32, len: u16): (t: seq<byte>)
    requires rrclass < 0x8000
    ensures |t| == 10
  {
    [rrtype / 256, rrtype % 256, rrclass / 256 + (if flush then 128 else 0), rrclass % 256,
     ttl / 0x100_0000, ttl / 0x1_0000 % 256, ttl / 256 % 256, ttl % 256, len / 256, len % 256]
  }

  /** A record is read as it is laid out, and its data found where it is. */
  lemma RecordLaidOut(p: seq<byte>, i: nat, end: nat, n: Name, rrtype: u16, rrclass: u16, flush: bool, ttl: u32,
                      data: seq<byte>)
    requires Valid(n) && rrclass < 0x8000 && |data| < 0x1_0000
    requires StandsAt(p, i, Wire(n) + (FixedOctets(rrtype, rrclass, flush, ttl, |data|) + data))
    requires i + WireLength(n) + 10 + |data| <= end < |p|
    ensures var at := i + WireLength(n) + 10;
            && Sections.ReadRecord(p, i, end) ==
               Some((Sections.Record(n, rrtype, rrclass, ttl, at, |data|), at + |data|))
            && StandsAt(p, at, data)
  {
    hide *;
    var t := FixedOctets(rrtype, rrclass, flush, ttl, |data|);
    var j := i + |Wire(n)|;
    StandsParts(p, i, Wire(n), t + data);
    StandsParts(p, j, t, data);
    RdataCodec.ValidMeans(n);
    RecordRoundTrip.WholeNameReads(p, i, n, end, 0);
    FixedRead(p, j, rrtype, rrclass, flush, ttl, |data|);
    RecordIs(p, i, end, n, j);
  }

  lemma RecordIs(p: seq<byte>, i: nat, end: nat, n: Name, j: nat)
    requires i < end < |p| && ReadName(p, i, end, 0) == Some((n, j))
    requires j + 10 <= end && j + 10 + Read16(p, j + 8) <= end
    ensures var at, len := j + 10, Read16(p, j + 8);
            Sections.ReadRecord(p, i, end) ==
            Some((Sections.Record(n, Read16(p, j), Read16(p, j + 2) % 0x8000, Read32(p, j + 4), at, len), at + len))
  {
    hide ReadName, Read16, Read32;
  }

  lemma FixedRead(p: seq<byte>, j: nat, rrtype: u16, rrclass: u16, flush: bool, ttl: u32, len: u16)
    requires rrclass < 0x8000 && StandsAt(p, j, FixedOctets(rrtype, rrclass, flush, ttl, len))
    ensures Read16(p, j) == rrtype && Read16(p, j + 2) % 0x8000 == rrclass && Read32(p, j + 4) == ttl
    ensures Read16(p, j + 8) == len
  {
    var t := FixedOctets(rrtype, rrclass, flush, ttl, len);
    assert forall k :: 0 <= k < 10 ==> p[j + k] == t[k];
    OctetsOfNumber(ttl);
  }

  /** What is written of a record between its owner and the length: type, class and time to live. */
  lemma FixedLaidOut(r: Records.Resource)
    requires r.rrclass < 0x8000
    ensures Records.FixedPart(r) == FixedOctets(r.rrtype, r.rrclass, false, r.ttl, 0)[..8]
  {
    OctetsOfNumber(r.ttl);
  }

  /** Where each field of record data stands, by sections 3.3 of RFC 1035, 2 of RFC 1183 and of RFC 2782. */
  lemma DataLaidOut(b: Body)
    requires Formed(b)
    ensures var o := DataOctets(b);
            match b
            case Soa(m, r, v, w, x, y, z) =>
              && |o| >= 20 && o[..|o| - 20] == Wire(m) + Wire(r)
              && Read32(o, |o| - 20) == v && Read32(o, |o| - 16) == w && Read32(o, |o| - 12) == x
              && Read32(o, |o| - 8) == y && Read32(o, |o| - 4) == z
            case Exchange(p, n) => |o| >= 2 && Read16(o, 0) == p && o[2..] == Wire(n)
            case Px(p, m, x) => |o| >= 2 && Read16(o, 0) == p && o[2..] == Wire(m) + Wire(x)
            case Service(p, w, port, t) =>
              |o| >= 6 && Read16(o, 0) == p && Read16(o, 2) == w && o[4..6] == port && o[6..] == Wire(t)
            case Target(n) => o == Wire(n)
            case Mailboxes(m, t) => o == Wire(m) + Wire(t)
            case Nsec(n, m) => o == Wire(n) + m
            case Address(d) => o == d
            case HostInfo(d) => o == d
            case Plain(d) => o == d
  {
    hide Wire;
    var o := DataOctets(b);
    match b
    case Soa(m, r, v, w, x, y, z) => SoaLaidOut(o, Wire(m), Wire(r), v, w, x, y, z);
    case Exchange(p, n) => Read16Is(o, 0, p);
    case Px(p, m, x) => Read16Is(o, 0, p);
    case Service(p, w, port, t) =>
      Read16Is(o, 0, p);
      assert o[2..] == Big16(w) + (port + Wire(t));
      Read16Is(o, 2, w);
    case _ =>
  }

  lemma SoaLaidOut(o: seq<byte>, m: seq<byte>, r: seq<byte>, v: u32, w: u32, x: u32, y: u32, z: u32)
    requires o == m + (r + Five(v, w, x, y, z))
    ensures |o| >= 20 && o[..|o| - 20] == m + r
    ensures Read32(o, |o| - 20) == v && Read32(o, |o| - 16) == w && Read32(o, |o| - 12) == x
    ensures Read32(o, |o| - 8) == y && Read32(o, |o| - 4) == z
  {
    hide Read32, Big32;
    var f, at := Five(v, w, x, y, z), |m| + |r|;
    assert o == (m + r) + f;
    assert StandsAt(o, at, Big32(v)) && StandsAt(o, at + 4, Big32(w)) && StandsAt(o, at + 8, Big32(x));
    assert StandsAt(o, at + 12, Big32(y)) && StandsAt(o, at + 16, Big32(z));
    Read32Is(o, at, v);
    Read32Is(o, at + 4, w);
    Read32Is(o, at + 8, x);
    Read32Is(o, at + 12, y);
    Read32Is(o, at + 16, z);
  }

  /**
   * Which types have which layout: A, AAAA; NS, CNAME, PTR, DNAME; SOA; MX, AFSDB, RT, KX; RP; PX; SRV;
   * HINFO; and which are not modelled.  All others are rows of octets.
   */
  lemma TypeNumbers(rrtype: u16)
    ensures var k := Records.KindOfType(rrtype);
            && (k == Some(AddressKind(4)) <==> rrtype == 1) && (k == Some(AddressKind(16)) <==> rrtype == 28)
            && (k == Some(TargetKind) <==> rrtype == 2 || rrtype == 5 || rrtype == 12 || rrtype == 39)
            && (k == Some(SoaKind) <==> rrtype == 6)
            && (k == Some(ExchangeKind) <==> rrtype == 15 || rrtype == 18 || rrtype == 21 || rrtype == 36)
            && (k == Some(MailboxesKind) <==> rrtype == 17) && (k == Some(PxKind) <==> rrtype == 26)
            && (k == Some(ServiceKind) <==> rrtype == 33) && (k == Some(HostInfoKind) <==> rrtype == 13)
            && (k == None <==> rrtype == 3 || rrtype == 4 || 7 <= rrtype <= 9 || rrtype == 14 || rrtype == 23 ||
                               rrtype == 35 || rrtype == 41 || rrtype == 43 || 46 <= rrtype <= 48 || rrtype == 50 ||
                               rrtype == 249 || rrtype == 250)
  {
  }
}
