/**
 * HMAC-MD5 (RFC 2104) over the streaming digest, and the transaction signatures made with it
 * (RFC 2845).  The digest is that of module Md5 over any block function.
 */
module Tsig {
  import opened Bytes
  import opened DomainNames
  import opened Md5
  import Base64

  const HMAC_LEN := 64
  const MD5_LEN := 16
  const FUDGE := 300

  const RC_NOT_AUTH := 9
  const ERR_BAD_SIG := 16
  const ERR_BAD_KEY := 17
  const ERR_BAD_TIME := 18

  /** hmac-md5.sig-alg.reg.int */
  const HMAC_MD5: Name :=
    [[104, 109, 97, 99, 45, 109, 100, 53], [115, 105, 103, 45, 97, 108, 103], [114, 101, 103], [105, 110, 116]]

  function XorByte(a: byte, b: byte): (r: byte) {
    ((a as bv8) ^ (b as bv8)) as int
  }

  // ----- Keys

  /** Every octet of `s` combined with `pad`. */
  function Masked(s: seq<byte>, pad: byte): (r: seq<byte>)
    ensures |r| == |s| && forall i :: 0 <= i < |s| ==> r[i] == XorByte(s[i], pad)
  {
    seq(|s|, i requires 0 <= i < |s| => XorByte(s[i], pad))
  }

  /** The key of section 2 of RFC 2104: hashed if longer than a block, then filled up with zeros. */
  function BlockKey(f: BlockFunction, key: seq<byte>): (k: seq<byte>)
    ensures |k| == HMAC_LEN
  {
    var short := if |key| > HMAC_LEN then Digest(f, key) else key;
    short + Zeros(HMAC_LEN - |short|)
  }

  function Hmac(f: BlockFunction, key: seq<byte>, text: seq<byte>): (mac: seq<byte>)
    ensures |mac| == MD5_LEN
  {
    var k := BlockKey(f, key);
    Digest(f, Masked(k, 0x5c) + Digest(f, Masked(k, 0x36) + text))
  }

  /** The key material as DomainAuthInfo keeps it. */
  class AuthInfo {
    const keyname: Name
    const ipad: array<byte>
    const opad: array<byte>

    constructor (n: Name)
      ensures keyname == n && ipad.Length == HMAC_LEN && opad.Length == HMAC_LEN
      ensures fresh(ipad) && fresh(opad) && ipad != opad
    {
      keyname := n;
      ipad := new byte[HMAC_LEN](_ => 0);
      opad := new byte[HMAC_LEN](_ => 0);
    }

    ghost predicate HasKey(f: BlockFunction, key: seq<byte>)
      reads ipad, opad
    {
      ipad[..] == Masked(BlockKey(f, key), 0x36) && opad[..] == Masked(BlockKey(f, key), 0x5c)
    }
  }

  /** The key at the start of the pad, zeros behind it. */
  method FillPad(pad: array<byte>, k: seq<byte>)
    requires |k| <= pad.Length
    modifies pad
    ensures forall i :: 0 <= i < pad.Length ==> pad[i] == if i < |k| then k[i] else 0
  {
    forall i | 0 <= i < pad.Length { pad[i] := 0; }
    forall i | 0 <= i < |k| { pad[i] := k[i]; }
  }

  method ConstructHmacKey(f: BlockFunction, info: AuthInfo, key: seq<byte>)
    requires info.ipad.Length == HMAC_LEN && info.opad.Length == HMAC_LEN && info.ipad != info.opad
    modifies info.ipad, info.opad
    ensures info.HasKey(f, key)
  {
    hide Digest, XorByte;
    var k := key;
    if |k| > HMAC_LEN {
      var c := new Context(f);
      c.Update(k);
      assert [] + k == k;
      k := c.Final();
    }
    ghost var full := BlockKey(f, key);
    FillPad(info.ipad, k);
    FillPad(info.opad, k);
    for i := 0 to HMAC_LEN
      invariant forall j :: 0 <= j < HMAC_LEN ==>
                  info.ipad[j] == if j < i then XorByte(full[j], 0x36) else full[j]
      invariant forall j :: 0 <= j < HMAC_LEN ==>
                  info.opad[j] == if j < i then XorByte(full[j], 0x5c) else full[j]
    {
      info.ipad[i] := XorByte(info.ipad[i], 0x36);
      info.opad[i] := XorByte(info.opad[i], 0x5c);
    }
  }

  /** The key given as base64 text: its length, or -1 if the text is no encoding or longer than the buffer allows. */
  method ConstructHmacKeyFromBase64(f: BlockFunction, info: AuthInfo, b64key: seq<byte>, ghost text: seq<byte>)
    returns (keylen: int)
    requires info.ipad.Length == HMAC_LEN && info.opad.Length == HMAC_LEN && info.ipad != info.opad
    requires CString(b64key, text)
    modifies info.ipad, info.opad
    ensures forall key :: Base64.Rest(text, 0) == Base64.Encode(key) && Base64.Needed(|key|) <= 1024 ==>
                            keylen == |key| && info.HasKey(f, key)
    ensures (forall key :: Base64.Rest(text, 0) == Base64.Encode(key) ==> Base64.Needed(|key|) > 1024) ==>
              keylen == -1 && info.ipad[..] == old(info.ipad[..]) && info.opad[..] == old(info.opad[..])
  {
    hide AuthInfo.HasKey, Base64.Decode, Base64.Rest, Base64.Encode;
    var keybuf := new byte[1024];
    keylen := Base64.Base64ToBin(b64key, keybuf, text);
    forall key ensures Base64.Decode(text, 1024) == Some(key) <==>
                         Base64.Rest(text, 0) == Base64.Encode(key) && Base64.Needed(|key|) <= 1024 {
      Base64.DecodesExactly(text, 1024, key);
    }
    ghost var d := Base64.Decode(text, 1024);
    if keylen < 0 { return; }
    assert d.Some? && d == Some(d.value);
    var key := keybuf[..keylen];
    assert key == d.value;
    ConstructHmacKey(f, info, key);
  }

  /** The outer hash over the inner one: what both signing and verifying end with. */
  method FinishHmac(c: Context, info: AuthInfo, ghost key: seq<byte>, ghost text: seq<byte>) returns (mac: seq<byte>)
    requires c.Valid() && info.HasKey(c.block, key)
    requires c.input == Masked(BlockKey(c.block, key), 0x36) + text
    requires c.data != info.ipad as object && c.data != info.opad as object
    modifies c, c.data
    ensures mac == Hmac(c.block, key, text)
  {
    hide Digest, BlockKey, Digested, Counts;
    var inner := c.Final();
    c.Init();
    c.Update(info.opad[..]);
    assert [] + info.opad[..] == info.opad[..];
    c.Update(inner);
    mac := c.Final();
  }

  // ----- What is signed

  /** A 32-bit time as the 48-bit number of the record. */
  function Time48(t: nat): (s: seq<byte>)
    ensures |s| == 6
  {
    [0, 0, t / 0x100_0000 % 256, t / 0x1_0000 % 256, t / 0x100 % 256, t % 256]
  }

  /** The message and the TSIG variables of section 3.4.2 of RFC 2845, other data being empty. */
  function SignedText(
      msg: seq<byte>, keyname: Name, rrclass: nat, ttl: seq<byte>, algorithm: Name, time: seq<byte>, fudge: nat,
      tcode: nat)
    : seq<byte>
  {
    msg + Wire(keyname) + Big16(rrclass) + ttl + Wire(algorithm) + time + Big16(fudge) + Big16(tcode) + [0, 0]
  }

  /**
   * The time to live is as its field stands in memory, and is digested that way, unswapped.  And here
   * `rdata` is the storage of the record's data, which is longer than the data: the verifier reads the
   * fields at their places in it whatever the length of the data is said to be.
   */
  datatype TsigRecord = TsigRecord(name: Name, rrclass: nat, ttl: seq<byte>, rdata: seq<byte>)

  const NO_TTL: seq<byte> := [0, 0, 0, 0]

  function Rdata(algorithm: Name, time: seq<byte>, fudge: nat, mac: seq<byte>, id: seq<byte>, tcode: nat): seq<byte> {
    Wire(algorithm) + (time + Big16(fudge) + Big16(|mac|) + mac + id + Big16(tcode) + [0, 0])
  }

  method SignMessage(f: BlockFunction, msg: seq<byte>, info: AuthInfo, utc: nat, tcode: nat, ghost key: seq<byte>)
    returns (tsig: TsigRecord)
    requires |msg| >= 12 && utc < WORD && info.HasKey(f, key) && Valid(info.keyname)
    ensures var text := SignedText(msg, info.keyname, CLASS_ANY, NO_TTL, HMAC_MD5, Time48(utc), FUDGE, tcode);
            tsig == TsigRecord(info.keyname, CLASS_ANY, NO_TTL,
                               Rdata(HMAC_MD5, Time48(utc), FUDGE, Hmac(f, key, text), msg[..2], tcode))
  {
    var time := Time48(utc);
    var mac := SignatureOf(f, msg, info, time, tcode, key);
    tsig := TsigRecord(info.keyname, CLASS_ANY, NO_TTL, Rdata(HMAC_MD5, time, FUDGE, mac, msg[..2], tcode));
  }

  /** The digest of SignMessage. */
  method SignatureOf(f: BlockFunction, msg: seq<byte>, info: AuthInfo, time: seq<byte>, tcode: nat,
                     ghost key: seq<byte>)
    returns (mac: seq<byte>)
    requires info.HasKey(f, key)
    ensures mac == Hmac(f, key, SignedText(msg, info.keyname, CLASS_ANY, NO_TTL, HMAC_MD5, time, FUDGE, tcode))
  {
    hide Wire, Hmac, BlockKey, Masked, Digested, Counts, AuthInfo.HasKey;
    ghost var pad := Masked(BlockKey(f, key), 0x36);
    var c := StartHmac(f, info, msg, key);
    ghost var text := msg;
    text := AddVariables(c, info.keyname, CLASS_ANY, NO_TTL, Wire(HMAC_MD5), time, FUDGE, pad, text);
    text := Add(c, Big16(tcode), pad, text);
    text := Add(c, [0, 0], pad, text);
    mac := FinishHmac(c, info, key, text);
  }

  /** The inner hash is begun with the pad and the message. */
  method StartHmac(f: BlockFunction, info: AuthInfo, msg: seq<byte>, ghost key: seq<byte>) returns (c: Context)
    requires info.HasKey(f, key)
    ensures fresh(c) && fresh(c.data) && c.Valid() && c.block == f
    ensures c.input == Masked(BlockKey(f, key), 0x36) + msg
  {
    hide Digested, Counts, BlockKey;
    c := new Context(f);
    c.Update(info.ipad[..]);
    assert c.input == info.ipad[..];
    c.Update(msg);
  }

  /** One more piece of the text behind the pad. */
  method Add(c: Context, x: seq<byte>, ghost pad: seq<byte>, ghost text: seq<byte>) returns (ghost more: seq<byte>)
    requires c.Valid() && c.input == pad + text
    modifies c, c.data
    ensures c.Valid() && more == text + x && c.input == pad + more
  {
    hide Digested, Counts;
    c.Update(x);
    assert pad + text + x == pad + (text + x);
    more := text + x;
  }

  /** The variables of the record, up to the fudge. */
  method AddVariables(c: Context, keyname: Name, rrclass: nat, ttl: seq<byte>, algo: seq<byte>, time: seq<byte>,
                      fudge: nat, ghost pad: seq<byte>, ghost text: seq<byte>)
    returns (ghost more: seq<byte>)
    requires c.Valid() && c.input == pad + text
    modifies c, c.data
    ensures c.Valid() && c.input == pad + more
    ensures more == text + Wire(keyname) + Big16(rrclass) + ttl + algo + time + Big16(fudge)
  {
    hide Wire, Big16, Digested, Counts;
    more := Add(c, Wire(keyname), pad, text);
    more := Add(c, Big16(rrclass), pad, more);
    more := Add(c, ttl, pad, more);
    more := Add(c, algo, pad, more);
    more := Add(c, time, pad, more);
    more := Add(c, Big16(fudge), pad, more);
  }

  // ----- Verifying

  datatype Verdict = Accepted | Rejected(rcode: nat, tcode: nat)

  /** The fields behind the algorithm name: time (6 octets), fudge, MAC size, MAC. */
  predicate BodyReadable(tsig: TsigRecord, algorithm: Name) {
    |tsig.rdata| >= WireLength(algorithm) + 10 + MD5_LEN
  }

  /** The clocks, as signed 32-bit numbers, are no further apart than the record allows. */
  predicate TimeAllows(body: seq<byte>, now: int)
    requires |body| >= 8
  {
    var signed := Signed32(Read32(body, 2));
    now != -1 && Signed32(if now > signed then now - signed else signed - now) <= Read16(body, 6)
  }

  /** The verdict on a record: its algorithm, then its time, then its MAC. */
  function Judge(f: BlockFunction, msg: seq<byte>, tsig: TsigRecord, algorithm: Name, key: seq<byte>, now: int)
    : (v: Verdict)
    requires BodyReadable(tsig, algorithm)
  {
    var body := tsig.rdata[WireLength(algorithm)..];
    if !Compares(algorithm, HMAC_MD5, 0) then Rejected(RC_NOT_AUTH, ERR_BAD_KEY)
    else if !TimeAllows(body, now) then Rejected(RC_NOT_AUTH, ERR_BAD_TIME)
    else if Hmac(f, key, SignedText(msg, tsig.name, tsig.rrclass, tsig.ttl, algorithm, body[..6], Read16(body, 6), 0))
            != body[10..10 + MD5_LEN] then Rejected(RC_NOT_AUTH, ERR_BAD_SIG)
    else Accepted
  }

  method VerifyMessage(f: BlockFunction, msg: seq<byte>, tsig: TsigRecord, info: AuthInfo, now: int,
                       ghost algorithm: Name, ghost key: seq<byte>)
    returns (v: Verdict)
    requires -0x8000_0000 <= now < 0x8000_0000 && info.HasKey(f, key)
    requires Holds(tsig.rdata, 0, algorithm) && BodyReadable(tsig, algorithm) && Valid(tsig.name)
    ensures v == Judge(f, msg, tsig, algorithm, key, now)
  {
    hide Wire, Hmac, BlockKey, Masked, Compares, Holds, Signed32, Read32, Valid;
    WireHolds(HMAC_MD5);
    var ok := SameDomainName(tsig.rdata, 0, Wire(HMAC_MD5), 0, algorithm, HMAC_MD5);
    if !ok { return Rejected(RC_NOT_AUTH, ERR_BAD_KEY); }
    ComparedIsValid(algorithm, HMAC_MD5);
    var len := DomainNameLength(tsig.rdata, 0, algorithm);
    var body := tsig.rdata[len..];
    if now == -1 { return Rejected(RC_NOT_AUTH, ERR_BAD_TIME); }
    var time := body[..6];
    var signed := Signed32(Read32(body, 2));
    var fudge := Read16(body, 6);
    var delta := Signed32(if now > signed then now - signed else signed - now);
    if delta > fudge { return Rejected(RC_NOT_AUTH, ERR_BAD_TIME); }
    HoldsIsWire(tsig.rdata, 0, algorithm);
    assert tsig.rdata[..len] == Wire(algorithm);
    var mac := MacOf(f, msg, tsig, info, tsig.rdata[..len], time, fudge, algorithm, key);
    if mac != body[10..10 + MD5_LEN] { return Rejected(RC_NOT_AUTH, ERR_BAD_SIG); }
    return Accepted;
  }

  /** The digest of VerifyMessage: the same text, its error field zero. */
  method MacOf(f: BlockFunction, msg: seq<byte>, tsig: TsigRecord, info: AuthInfo, algo: seq<byte>, time: seq<byte>,
               fudge: nat, ghost algorithm: Name, ghost key: seq<byte>)
    returns (mac: seq<byte>)
    requires info.HasKey(f, key) && algo == Wire(algorithm)
    ensures mac == Hmac(f, key, SignedText(msg, tsig.name, tsig.rrclass, tsig.ttl, algorithm, time, fudge, 0))
  {
    hide Wire, Hmac, BlockKey, Masked, Digested, Counts, AuthInfo.HasKey;
    ghost var pad := Masked(BlockKey(f, key), 0x36);
    var c := StartHmac(f, info, msg, key);
    ghost var text := msg;
    text := AddVariables(c, tsig.name, tsig.rrclass, tsig.ttl, algo, time, fudge, pad, text);
    text := Add(c, [0, 0], pad, text);
    assert [0, 0] == Big16(0);
    text := Add(c, [0, 0], pad, text);
    mac := FinishHmac(c, info, key, text);
  }

  lemma WireHolds(n: Name)
    ensures Holds(Wire(n), 0, n)
  {
    HoldsIsWire(Wire(n), 0, n);
  }

  /** What compares equal to the algorithm name is a valid name. */
  lemma ComparedIsValid(m: Name, n: Name)
    requires Compares(m, n, 0)
    ensures Valid(m)
  {
    ComparesMeansSame(m, n, 0);
  }

  // ----- Octet by octet

  /** A key longer than 64 octets is as good as its digest; zeros at the end of a shorter one do nothing. */
  lemma KeysAlike(f: BlockFunction, key: seq<byte>, k: nat, text: seq<byte>)
    ensures |key| > 64 ==> Hmac(f, key, text) == Hmac(f, Digest(f, key), text)
    ensures |key| + k <= 64 ==> Hmac(f, key + Zeros(k), text) == Hmac(f, key, text)
  {
    hide Digest, Masked;
    if |key| > 64 { assert BlockKey(f, key) == BlockKey(f, Digest(f, key)); }
    if |key| + k <= 64 { assert BlockKey(f, key + Zeros(k)) == BlockKey(f, key); }
  }

  /** The two pads as they are for the empty key. */
  lemma EmptyKey(f: BlockFunction, text: seq<byte>)
    ensures Hmac(f, [], text) == Digest(f, seq(64, _ => 0x5c) + Digest(f, seq(64, _ => 0x36) + text))
  {
    hide Digest, XorByte;
    XorZero(0x36);
    XorZero(0x5c);
    var k := BlockKey(f, []);
    assert Masked(k, 0x36) == seq(64, _ => 0x36) && Masked(k, 0x5c) == seq(64, _ => 0x5c);
  }

  lemma XorZero(pad: byte)
    ensures XorByte(0, pad) == pad
  {
    hide *;
    var x, p := BitsOf(0, pad);
    SameBits(x, 0);
    ZeroXor(p);
  }

  lemma ZeroXor(p: bv8)
    ensures 0 ^ p == p
  {
  }

  lemma Time48Is(t: nat)
    ensures Time48(t) == [0, 0] + Big32(t)
  {
  }

  lemma AlgorithmOctets()
    ensures Wire(HMAC_MD5) ==
            [8, 104, 109, 97, 99, 45, 109, 100, 53] +
            ([7, 115, 105, 103, 45, 97, 108, 103] + ([3, 114, 101, 103] + ([3, 105, 110, 116] + [0])))
    ensures |HMAC_MD5| == 4
  {
    var n := HMAC_MD5;
    FourLabels(n[0], n[1], n[2], n[3]);
    hide Wire;
    assert n == [n[0], n[1], n[2], n[3]];
    assert [|n[0]|] + n[0] == [8, 104, 109, 97, 99, 45, 109, 100, 53];
    assert [|n[1]|] + n[1] == [7, 115, 105, 103, 45, 97, 108, 103];
    assert [|n[2]|] + n[2] == [3, 114, 101, 103] && [|n[3]|] + n[3] == [3, 105, 110, 116];
  }

  lemma FourLabels(a: Label, b: Label, c: Label, d: Label)
    ensures Wire([a, b, c, d]) == [|a|] + a + ([|b|] + b + ([|c|] + c + ([|d|] + d + [0])))
  {
    hide Wire;
    WireOf(d, []);
    WireOf(c, [d]);
    WireOf(b, [c, d]);
    WireOf(a, [b, c, d]);
    assert [d] + [] == [d] && [c] + [d] == [c, d] && [b] + [c, d] == [b, c, d] && [a] + [b, c, d] == [a, b, c, d];
  }

  lemma WireOf(l: Label, n: Name)
    ensures Wire([l] + n) == [|l|] + l + Wire(n) && Wire([]) == [0]
  {
    assert ([l] + n)[1..] == n;
  }

  /** What is signed of an update, with class ANY, no time to live, and 300 seconds. */
  lemma SignedOctets(msg: seq<byte>, keyname: Name, utc: nat, tcode: nat)
    ensures SignedText(msg, keyname, CLASS_ANY, NO_TTL, HMAC_MD5, Time48(utc), FUDGE, tcode) ==
            msg + Wire(keyname) + [0, 255] + [0, 0, 0, 0] + Wire(HMAC_MD5) + ([0, 0] + Big32(utc)) + [1, 44] +
            Big16(tcode) + [0, 0]
  {
    hide Wire;
    assert Big16(CLASS_ANY) == [0, 255] && Big16(FUDGE) == [1, 44];
    Time48Is(utc);
  }

  /**
   * The verdict: BADKEY unless the algorithm is HMAC-MD5, BADTIME if the clocks are too far apart, BADSIG
   * unless the MAC is that of the text, NOTAUTH with each.
   */
  lemma JudgedExactly(f: BlockFunction, msg: seq<byte>, tsig: TsigRecord, algorithm: Name, key: seq<byte>, now: nat)
    requires BodyReadable(tsig, algorithm) && now < 0x8000_0000
    ensures var v, at := Judge(f, msg, tsig, algorithm, key, now), WireLength(algorithm);
            var signed, fudge := Read32(tsig.rdata, at + 2), Read16(tsig.rdata, at + 6);
            var text := SignedText(msg, tsig.name, tsig.rrclass, tsig.ttl, algorithm, tsig.rdata[at..at + 6], fudge, 0);
            && (v == Rejected(9, 17) <==> !Same(algorithm, HMAC_MD5))
            && (signed < 0x8000_0000 && Same(algorithm, HMAC_MD5) ==>
                  && (v == Rejected(9, 18) <==> Distance(now, signed) > fudge)
                  && (v == Accepted <==> Distance(now, signed) <= fudge &&
                                         Hmac(f, key, text) == tsig.rdata[at + 10..at + 26])
                  && (v == Rejected(9, 16) <==> Distance(now, signed) <= fudge &&
                                                Hmac(f, key, text) != tsig.rdata[at + 10..at + 26]))
  {
    hide Hmac, SignedText, Signed32, Compares, WireLength, Same;
    var at := WireLength(algorithm);
    var body := tsig.rdata[at..];
    assert Read32(body, 2) == Read32(tsig.rdata, at + 2) && Read16(body, 6) == Read16(tsig.rdata, at + 6);
    hide Read32, Read16;
    assert body[..6] == tsig.rdata[at..at + 6] && body[10..26] == tsig.rdata[at + 10..at + 26];
    IsAlgorithm(algorithm);
    var signed := Read32(body, 2);
    if signed < 0x8000_0000 {
      SmallIsItself(signed);
      SmallIsItself(if now > signed then now - signed else signed - now);
    }
  }

  lemma IsAlgorithm(n: Name)
    ensures Compares(n, HMAC_MD5, 0) <==> Same(n, HMAC_MD5)
  {
    ComparesMeansSame(n, HMAC_MD5, 0);
    if Same(n, HMAC_MD5) {
      SameWireLength(n, HMAC_MD5);
      AlgorithmOctets();
      hide Wire, WireLength;
      assert |Lower(n)| == |Lower(HMAC_MD5)|;
      forall k | 0 <= k < |n| ensures |n[k]| <= MAX_DOMAIN_LABEL {
        assert |Lower(n)[k]| == |Lower(HMAC_MD5)[k]| == |HMAC_MD5[k]|;
      }
    }
  }

  // ----- Signing and verifying agree

  function Distance(a: int, b: int): (d: nat) {
    if a > b then a - b else b - a
  }

  lemma Time48Read(t: nat)
    requires t < WORD
    ensures Read32(Time48(t), 2) == t
  {
    OctetsOfNumber(t);
    var s := Time48(t);
    assert s[2] == t / 0x100_0000 && s[3] == t / 0x1_0000 % 256 && s[4] == t / 0x100 % 256 && s[5] == t % 256;
  }

  /** The verifier finds each field of the rdata where the signer put it. */
  lemma RdataFields(algorithm: Name, time: seq<byte>, mac: seq<byte>, id: seq<byte>, tcode: nat)
    requires |time| == 6 && |mac| == MD5_LEN
    ensures var rdata := Rdata(algorithm, time, FUDGE, mac, id, tcode);
            && |rdata| >= WireLength(algorithm) + 10 + MD5_LEN && Holds(rdata, 0, algorithm)
            && (var body := rdata[WireLength(algorithm)..];
                body[..6] == time && body[10..10 + MD5_LEN] == mac &&
                Read32(body, 2) == Read32(time, 2) && Read16(body, 6) == FUDGE)
  {
    hide Wire;
    var rdata, w := Rdata(algorithm, time, FUDGE, mac, id, tcode), Wire(algorithm);
    var body := time + Big16(FUDGE) + Big16(|mac|) + mac + id + Big16(tcode) + [0, 0];
    assert rdata == w + body && rdata[|w|..] == body;
    HoldsIsWire(rdata, 0, algorithm);
    assert body[2..6] == time[2..6] && Big16(FUDGE) == body[6..8] == [1, 44];
  }

  /**
   * A message signed at time `utc` with error code `tcode` and verified at time `now` with the same
   * key, the message having become `late` and the time to live in the record `ttl` on the way: accepted
   * exactly when the clocks are at most 300 seconds apart and the MAC that was computed, over the error code
   * and a zero time to live, equals the one the verifier computes, over what has arrived and a zero error
   * code.  For another message that takes two different texts of one MAC.
   */
  lemma SignThenVerify(f: BlockFunction, msg: seq<byte>, late: seq<byte>, keyname: Name, key: seq<byte>, utc: nat,
                       now: nat, tcode: nat, ttl: seq<byte>)
    requires |msg| >= 12 && utc < 0x8000_0000 && now < 0x8000_0000
    ensures var text := SignedText(msg, keyname, CLASS_ANY, NO_TTL, HMAC_MD5, Time48(utc), FUDGE, tcode);
            var text0 := SignedText(late, keyname, CLASS_ANY, ttl, HMAC_MD5, Time48(utc), FUDGE, 0);
            var rdata := Rdata(HMAC_MD5, Time48(utc), FUDGE, Hmac(f, key, text), msg[..2], tcode);
            var tsig := TsigRecord(keyname, CLASS_ANY, ttl, rdata);
            && BodyReadable(tsig, HMAC_MD5)
            && Judge(f, late, tsig, HMAC_MD5, key, now)
               == (if Distance(utc, now) > FUDGE then Rejected(RC_NOT_AUTH, ERR_BAD_TIME)
                   else if Hmac(f, key, text) != Hmac(f, key, text0) then Rejected(RC_NOT_AUTH, ERR_BAD_SIG)
                   else Accepted)
            && (Judge(f, late, tsig, HMAC_MD5, key, now) == Accepted && |ttl| == 4 && tcode < 0x1_0000 &&
                (late != msg || ttl != NO_TTL || tcode != 0) ==>
                  text != text0 && Hmac(f, key, text) == Hmac(f, key, text0))
  {
    hide Hmac, SignedText, Wire, WireLength, Rdata, Time48, Read32, Read16, Compares, Judge, TimeAllows, BodyReadable,
      Distance;
    var text := SignedText(msg, keyname, CLASS_ANY, NO_TTL, HMAC_MD5, Time48(utc), FUDGE, tcode);
    var mac := Hmac(f, key, text);
    var tsig := TsigRecord(keyname, CLASS_ANY, ttl, Rdata(HMAC_MD5, Time48(utc), FUDGE, mac, msg[..2], tcode));
    RdataFields(HMAC_MD5, Time48(utc), mac, msg[..2], tcode);
    AlgorithmCompares();
    Time48Read(utc);
    Judged(f, late, tsig, key, now, Time48(utc), mac);
    TimeWithin(tsig.rdata[WireLength(HMAC_MD5)..], utc, now);
    var text0 := SignedText(late, keyname, CLASS_ANY, ttl, HMAC_MD5, Time48(utc), FUDGE, 0);
    if |ttl| == 4 && tcode < 0x1_0000 && text == text0 {
      SignedTextTells(msg, late, keyname, HMAC_MD5, CLASS_ANY, CLASS_ANY, NO_TTL, ttl, Time48(utc), Time48(utc),
                      FUDGE, FUDGE, tcode, 0);
    }
  }

  // ----- What a signature covers

  lemma Cancel(a: seq<byte>, b: seq<byte>, c: seq<byte>, d: seq<byte>)
    requires a + b == c + d && |b| == |d|
    ensures a == c && b == d
  {
    assert |a| == |c|;
    assert a == (a + b)[..|a|] && c == (c + d)[..|c|];
    assert b == (a + b)[|a|..] && d == (c + d)[|c|..];
  }

  lemma Big16Tells(u: nat, v: nat)
    requires u < 0x1_0000 && v < 0x1_0000 && Big16(u) == Big16(v)
    ensures u == v
  {
    assert Big16(u)[0] == Big16(v)[0] && Big16(u)[1] == Big16(v)[1];
  }

  /** The text that is signed tells the message and each of the variables. */
  lemma SignedTextTells(
      msg: seq<byte>, late: seq<byte>, keyname: Name, algorithm: Name, c: nat, d: nat, ttl: seq<byte>, ttl0: seq<byte>,
      time: seq<byte>, time0: seq<byte>, fudge: nat, fudge0: nat, tcode: nat, tcode0: nat)
    requires c < 0x1_0000 && d < 0x1_0000 && fudge < 0x1_0000 && fudge0 < 0x1_0000
    requires tcode < 0x1_0000 && tcode0 < 0x1_0000 && |ttl| == |ttl0| && |time| == |time0|
    requires SignedText(msg, keyname, c, ttl, algorithm, time, fudge, tcode) ==
             SignedText(late, keyname, d, ttl0, algorithm, time0, fudge0, tcode0)
    ensures msg == late && c == d && ttl == ttl0 && time == time0 && fudge == fudge0 && tcode == tcode0
  {
    var k, a := Wire(keyname), Wire(algorithm);
    hide Wire, Big16;
    var s1, t1 := msg + k, late + k;
    var s2, t2 := s1 + Big16(c), t1 + Big16(d);
    var s3, t3 := s2 + ttl, t2 + ttl0;
    var s4, t4 := s3 + a, t3 + a;
    var s5, t5 := s4 + time, t4 + time0;
    var s6, t6 := s5 + Big16(fudge), t5 + Big16(fudge0);
    var s7, t7 := s6 + Big16(tcode), t6 + Big16(tcode0);
    Cancel(s7, [0, 0], t7, [0, 0]);
    Cancel(s6, Big16(tcode), t6, Big16(tcode0));
    Cancel(s5, Big16(fudge), t5, Big16(fudge0));
    Cancel(s4, time, t4, time0);
    Cancel(s3, a, t3, a);
    Cancel(s2, ttl, t2, ttl0);
    Cancel(s1, Big16(c), t1, Big16(d));
    Cancel(msg, k, late, k);
    Big16Tells(c, d);
    Big16Tells(fudge, fudge0);
    Big16Tells(tcode, tcode0);
  }

  /** Different texts have one MAC only if different octets have one digest. */
  lemma HmacCovers(f: BlockFunction, key: seq<byte>, text: seq<byte>, other: seq<byte>)
    requires Hmac(f, key, text) == Hmac(f, key, other) && text != other
    ensures exists x: seq<byte>, y: seq<byte> :: x != y && Digest(f, x) == Digest(f, y)
  {
    hide Digest, BlockKey, Masked;
    var k := BlockKey(f, key);
    var inner, outer := Masked(k, 0x36), Masked(k, 0x5c);
    var x, y := inner + text, inner + other;
    assert x[|inner|..] == text && y[|inner|..] == other;
    if Digest(f, x) != Digest(f, y) {
      assert (outer + Digest(f, x))[|outer|..] == Digest(f, x) && (outer + Digest(f, y))[|outer|..] == Digest(f, y);
      assert outer + Digest(f, x) != outer + Digest(f, y);
    }
  }

  /** The same for keys: short ones of one length have one MAC only if different octets have one digest. */
  lemma HmacTellsKey(f: BlockFunction, key: seq<byte>, other: seq<byte>, text: seq<byte>)
    requires |key| == |other| <= HMAC_LEN && key != other && Hmac(f, key, text) == Hmac(f, other, text)
    ensures exists x: seq<byte>, y: seq<byte> :: x != y && Digest(f, x) == Digest(f, y)
  {
    hide Digest, XorByte;
    var i :| 0 <= i < |key| && key[i] != other[i];
    var k, l := BlockKey(f, key), BlockKey(f, other);
    assert k[i] == key[i] && l[i] == other[i];
    if XorByte(k[i], 0x5c) == XorByte(l[i], 0x5c) { XorTells(k[i], l[i], 0x5c); }
    var x := Masked(k, 0x5c) + Digest(f, Masked(k, 0x36) + text);
    var y := Masked(l, 0x5c) + Digest(f, Masked(l, 0x36) + text);
    assert x[i] == XorByte(k[i], 0x5c) && y[i] == XorByte(l[i], 0x5c);
    assert Digest(f, x) == Digest(f, y);
  }

  lemma XorTells(a: byte, b: byte, pad: byte)
    requires XorByte(a, pad) == XorByte(b, pad)
    ensures a == b
  {
    hide *;
    var x, p := BitsOf(a, pad);
    var y, q := BitsOf(b, pad);
    SameBits(p, q);
    XorBits(a, b, x, y, p);
  }

  lemma BitsOf(a: byte, pad: byte) returns (x: bv8, p: bv8)
    ensures x as int == a && p as int == pad && XorByte(a, pad) == (x ^ p) as int
  {
    x, p := a as bv8, pad as bv8;
    ByteBits(a);
    ByteBits(pad);
  }

  lemma ByteBits(a: int)
    requires 0 <= a < 256
    ensures (a as bv8) as int == a
  {
    assert a % 256 == a;
  }

  lemma XorBits(a: byte, b: byte, x: bv8, y: bv8, p: bv8)
    requires x as int == a && y as int == b && (x ^ p) as int == (y ^ p) as int
    ensures a == b
  {
    XorUndone(x, y, p);
  }

  lemma XorUndone(x: bv8, y: bv8, p: bv8)
    requires (x ^ p) as int == (y ^ p) as int
    ensures x == y
  {
    SameBits(x ^ p, y ^ p);
    assert (x ^ p) ^ p == x && (y ^ p) ^ p == y;
  }

  lemma SameBits(x: bv8, y: bv8)
    requires x as int == y as int
    ensures x == y
  {
  }

  /** The verdict on a record of the right algorithm whose fields are known. */
  lemma Judged(f: BlockFunction, msg: seq<byte>, tsig: TsigRecord, key: seq<byte>, now: int,
               time: seq<byte>, mac: seq<byte>)
    requires |tsig.rdata| >= WireLength(HMAC_MD5) + 10 + MD5_LEN && Compares(HMAC_MD5, HMAC_MD5, 0)
    requires var body := tsig.rdata[WireLength(HMAC_MD5)..];
             body[..6] == time && body[10..10 + MD5_LEN] == mac && Read16(body, 6) == FUDGE
    ensures BodyReadable(tsig, HMAC_MD5)
    ensures Judge(f, msg, tsig, HMAC_MD5, key, now) ==
            if !TimeAllows(tsig.rdata[WireLength(HMAC_MD5)..], now) then Rejected(RC_NOT_AUTH, ERR_BAD_TIME)
            else if Hmac(f, key, SignedText(msg, tsig.name, tsig.rrclass, tsig.ttl, HMAC_MD5, time, FUDGE, 0)) != mac
            then Rejected(RC_NOT_AUTH, ERR_BAD_SIG)
            else Accepted
  {
    hide TimeAllows, Hmac, SignedText, Compares, WireLength, Read16;
  }

  lemma TimeWithin(body: seq<byte>, utc: nat, now: nat)
    requires |body| >= 8 && Read32(body, 2) == utc && Read16(body, 6) == FUDGE
    requires utc < 0x8000_0000 && now < 0x8000_0000
    ensures TimeAllows(body, now) <==> Distance(utc, now) <= FUDGE
  {
    hide Read32, Read16;
    SmallIsItself(utc);
    SmallIsItself(Distance(utc, now));
    hide Signed32;
  }

  lemma SmallIsItself(v: nat)
    requires v < 0x8000_0000
    ensures Signed32(v) == v
  {
  }

  lemma AlgorithmCompares()
    ensures Compares(HMAC_MD5, HMAC_MD5, 0)
  {
    ComparesMeansSame(HMAC_MD5, HMAC_MD5, 0);
  }

  /** With error code zero, as updates are signed: accepted exactly when the clocks are close. */
  lemma SignedIsAccepted(f: BlockFunction, msg: seq<byte>, keyname: Name, key: seq<byte>, utc: nat, now: nat)
    requires |msg| >= 12 && utc < 0x8000_0000 && now < 0x8000_0000
    ensures var mac := Hmac(f, key, SignedText(msg, keyname, CLASS_ANY, NO_TTL, HMAC_MD5, Time48(utc), FUDGE, 0));
            var tsig := TsigRecord(keyname, CLASS_ANY, NO_TTL, Rdata(HMAC_MD5, Time48(utc), FUDGE, mac, msg[..2], 0));
            && BodyReadable(tsig, HMAC_MD5)
            && (Judge(f, msg, tsig, HMAC_MD5, key, now) == Accepted <==> -300 <= now - utc <= 300)
  {
    hide Hmac, SignedText, Judge, Rdata;
    SignThenVerify(f, msg, msg, keyname, key, utc, now, 0, NO_TTL);
  }
}
