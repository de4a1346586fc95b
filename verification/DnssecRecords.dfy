/**
 * The records the DNSSEC verifier works on, the checks of section 5.3.1 of RFC 4035 on a
 * signature, and how keys are vouched for.  Signature and digest arithmetic are parameters:
 * nothing here depends on what they compute.
 */
module DnssecRecords {
  import opened Bytes
  import opened DomainNames

  const TYPE_NS: nat := 2
  const TYPE_CNAME: nat := 5
  const TYPE_SOA: nat := 6
  const TYPE_DS: nat := 43
  const TYPE_RRSIG: nat := 46
  const TYPE_NSEC: nat := 47
  const TYPE_DNSKEY: nat := 48
  const TYPE_ANY: nat := 255
  const CLASS_IN: nat := 1
  const SHA1_DIGEST: nat := 1
  const SHA256_DIGEST: nat := 2

  /** The rdata of a DNSKEY: flags, protocol, algorithm, key. */
  type KeyOctets = s: seq<byte> | |s| >= 4 witness [0, 0, 0, 0]

  /** A type whose rdata stays a row of octets. */
  type OtherType = t: nat | t != TYPE_DS && t != TYPE_RRSIG && t != TYPE_DNSKEY witness 1

  datatype Rdata =
    | Sig(typeCovered: nat, alg: nat, labels: nat, expire: nat, incept: nat, keyTag: nat,
          signer: Name, signature: seq<byte>)
    | Key(octets: KeyOctets)
    | Ds(keyTag: nat, alg: nat, digestType: nat, digest: seq<byte>)
    | Other(rrtype: OtherType, data: seq<byte>)

  /** A record with the resolver group it was received from. */
  datatype RR = RR(name: Name, rrclass: nat, group: nat, rdata: Rdata) {
    function Type(): nat {
      match rdata
      case Sig(_, _, _, _, _, _, _, _) => TYPE_RRSIG
      case Key(_) => TYPE_DNSKEY
      case Ds(_, _, _, _) => TYPE_DS
      case Other(t, _) => t
    }
  }

  type SigRR = r: RR | r.rdata.Sig? witness RR([], 0, 0, Sig(0, 0, 0, 0, 0, 0, [], []))
  type KeyRR = r: RR | r.rdata.Key? witness RR([], 0, 0, Key([0, 0, 0, 0]))
  type DsRR = r: RR | r.rdata.Ds? witness RR([], 0, 0, Ds(0, 0, 0, []))

  datatype TrustAnchor =
    TrustAnchor(zone: Name, keyTag: nat, digestType: nat, digest: seq<byte>, validFrom: nat, validUntil: nat)

  /**
   * What is outside: which algorithms exist, whether a signature over a record set verifies under a
   * key, whether a digest is that of a key owned by a name, the anchors, the server of a name.
   */
  datatype World = World(
    supports: nat -> bool,
    verifies: (seq<RR>, KeyRR, SigRR) -> bool,
    hashes: (Name, KeyRR, nat, seq<byte>) -> bool,
    anchors: seq<TrustAnchor>,
    serverGroup: Name -> nat)

  // ----- Keys (appendix B of RFC 4034)

  function TagSum(k: seq<byte>): nat {
    if k == [] then 0 else
    var i := |k| - 1;
    var b: int := k[i];
    TagSum(k[..i]) + (if i % 2 == 1 then b else b * 256)
  }

  function Tag(key: KeyRR): (t: nat)
    ensures t < 0x1_0000
  {
    var ac := TagSum(key.rdata.octets);
    (ac + (ac / 0x1_0000) % 0x1_0000) % 0x1_0000
  }

  function KeyAlg(key: KeyRR): nat { key.rdata.octets[3] }

  predicate ZoneKey(key: KeyRR) {
    var high: int := key.rdata.octets[0];
    high % 2 == 1
  }

  predicate DigestSupported(digestType: nat) {
    digestType == SHA1_DIGEST || digestType == SHA256_DIGEST
  }

  lemma LastOfTag(k: seq<byte>, a: byte)
    ensures TagSum(k + [a]) == TagSum(k) + if |k| % 2 == 1 then a else 256 * a
  {
    assert (k + [a])[..|k|] == k;
  }

  /** Octets in even places count 256 times, those in odd places once. */
  lemma TagOfPair(k: seq<byte>, a: byte, b: byte)
    requires |k| % 2 == 0
    ensures TagSum(k + [a, b]) == TagSum(k) + 256 * a + b
  {
    hide TagSum;
    LastOfTag(k, a);
    LastOfTag(k + [a], b);
    assert k + [a, b] == (k + [a]) + [b];
  }

  /** What goes over 16 bits is added at the bottom. */
  lemma TagFolds(key: KeyRR)
    requires TagSum(key.rdata.octets) < WORD
    ensures var ac := TagSum(key.rdata.octets);
            Tag(key) == (ac % 0x1_0000 + ac / 0x1_0000) % 0x1_0000
  {
    hide TagSum;
  }

  /** The zone key flag is the bit of weight 256 in the flags, and the algorithm the fourth octet. */
  lemma FlagIs(key: KeyRR)
    ensures ZoneKey(key) <==> (Read16(key.rdata.octets, 0) / 256) % 2 == 1
  {
  }

  // ----- Signatures

  predicate SerialLess(a: nat, b: nat) {
    Signed32(a - b) < 0
  }

  /** The order of RFC 1982, but for two numbers 2^31 apart, each of which is less than the other. */
  lemma SerialOrder(a: nat, b: nat)
    requires a < WORD && b < WORD
    ensures SerialLess(a, b) <==> 0 < (b - a) % WORD <= 0x8000_0000
  {
    if a <= b {
      assert (b - a) % WORD == b - a;
      assert a < b ==> (a - b) % WORD == a - b + WORD;
    } else {
      assert (b - a) % WORD == b - a + WORD && (a - b) % WORD == a - b;
    }
  }

  predicate InWindow(sig: SigRR, now: nat) {
    !SerialLess(sig.rdata.expire, now) && !SerialLess(now, sig.rdata.incept)
  }

  /** `parent` is `n` with some number of leading labels taken off. */
  predicate Suffix(n: Name, parent: Name) {
    |parent| <= |n| && Same(n[|n| - |parent|..], parent)
  }

  /** The signer the owner and type of a record set allow: its zone, and for a DS the zone above. */
  predicate SignerAllowed(rv: RR, signer: Name) {
    if rv.Type() == TYPE_NS || rv.Type() == TYPE_SOA || rv.Type() == TYPE_DNSKEY then Same(rv.name, signer)
    else (rv.Type() == TYPE_DS ==> !Same(rv.name, signer)) && Suffix(rv.name, signer)
  }

  /** Requirements 1 to 4 of section 5.3.1 of RFC 4035 on a signature over the set that `rv` is in. */
  predicate Covers(rv: RR, sig: SigRR) {
    && Same(rv.name, sig.name) && rv.rrclass == sig.rrclass
    && sig.rdata.typeCovered == rv.Type()
    && sig.rdata.labels <= |rv.name|
    && SignerAllowed(rv, sig.rdata.signer)
  }

  /** Every one of them and nothing else: types 2, 6 and 48 are signed by their own zone, type 43 by one above. */
  lemma CoversExactly(rv: RR, sig: SigRR)
    ensures var n, s := |rv.name|, sig.rdata;
            Covers(rv, sig) <==>
            && Same(rv.name, sig.name) && rv.rrclass == sig.rrclass && s.typeCovered == rv.Type() && s.labels <= n
            && |s.signer| <= n && Same(rv.name[n - |s.signer|..], s.signer)
            && (rv.Type() == 2 || rv.Type() == 6 || rv.Type() == 48 ==> |s.signer| == n)
            && (rv.Type() == 43 ==> |s.signer| < n)
  {
    var n, signer := |rv.name|, sig.rdata.signer;
    assert rv.name[0..] == rv.name;
    if Same(rv.name, signer) { SameWireLength(rv.name, signer); }
    if |signer| == n { assert n - |signer| == 0; }
  }

  /** Requirements 7 and 8: the signature and the key name each other. */
  predicate KeyMatches(key: KeyRR, sig: SigRR) {
    && Same(sig.rdata.signer, key.name)
    && KeyAlg(key) == sig.rdata.alg
    && Tag(key) == sig.rdata.keyTag
    && ZoneKey(key)
  }

  predicate Verifies(w: World, rrset: seq<RR>, key: KeyRR, sig: SigRR) {
    w.supports(sig.rdata.alg) && w.verifies(rrset, key, sig)
  }

  /** A record set, the signature over it and the key that verified it. */
  datatype AuthElement = AuthElement(rrset: seq<RR>, sig: SigRR, key: KeyRR)

  predicate ElementVerified(w: World, e: AuthElement) {
    && e.rrset != []
    && Covers(e.rrset[0], e.sig)
    && KeyMatches(e.key, e.sig)
    && Verifies(w, e.rrset, e.key, e.sig)
  }

  // ----- Links

  /** Some signature of the list, with the key's tag, verifies the key set under key `k`. */
  predicate SelfSigned(w: World, keys: seq<RR>, k: KeyRR, sigs: seq<SigRR>) {
    exists s :: s in sigs && Tag(k) == s.rdata.keyTag && Verifies(w, keys, k, s)
  }

  /** A DNSKEY set of the zone `signer`: every key belongs to it and `key` is one of them. */
  predicate KeySetOf(keys: seq<KeyRR>, signer: Name, key: KeyRR) {
    key in keys && forall k :: k in keys ==> Same(signer, k.name)
  }

  /** Signatures over a key set, acceptable as such. */
  predicate CoverKeys(keys: seq<KeyRR>, sigs: seq<SigRR>) {
    keys != [] && forall s :: s in sigs ==> Covers(keys[0], s)
  }

  /** Key `k` is the one the DS record stands for. */
  predicate Hashed(w: World, signer: Name, k: KeyRR, d: DsRR) {
    && DigestSupported(d.rdata.digestType) && Tag(k) == d.rdata.keyTag
    && w.hashes(Lower(signer), k, d.rdata.digestType, d.rdata.digest)
  }

  /** A DS record a validating question for its owner would be answered with. */
  predicate Visible(w: World, rr: RR) {
    rr.group == w.serverGroup(Lower(rr.name)) && rr.rrclass == CLASS_IN
  }

  /** DS record `d` stands for key `k`, and that key signed the key set that the key of `e` is in. */
  predicate DsVouches(w: World, e: AuthElement, keys: seq<KeyRR>, sigs: seq<SigRR>, k: KeyRR, d: DsRR) {
    && KeySetOf(keys, e.sig.rdata.signer, e.key) && CoverKeys(keys, sigs) && k in keys
    && Same(e.sig.rdata.signer, d.name) && Hashed(w, e.sig.rdata.signer, k, d)
    && SelfSigned(w, keys, k, sigs)
  }

  predicate AnchorValid(ta: TrustAnchor, now: nat) {
    !SerialLess(ta.validUntil, now) && !SerialLess(now, ta.validFrom)
  }

  /** Within less than 2^31 seconds of each other, times are in the window exactly if they are in the interval. */
  lemma WindowIsInterval(sig: SigRR, ta: TrustAnchor, now: nat)
    ensures var e, i := sig.rdata.expire, sig.rdata.incept;
            -0x8000_0000 < e - now < 0x8000_0000 && -0x8000_0000 < i - now < 0x8000_0000 ==>
              (InWindow(sig, now) <==> i <= now <= e)
    ensures var u, f := ta.validUntil, ta.validFrom;
            -0x8000_0000 < u - now < 0x8000_0000 && -0x8000_0000 < f - now < 0x8000_0000 ==>
              (AnchorValid(ta, now) <==> f <= now <= u)
  {
    LessNearby(sig.rdata.expire, now);
    LessNearby(now, sig.rdata.incept);
    LessNearby(ta.validUntil, now);
    LessNearby(now, ta.validFrom);
  }

  lemma LessNearby(a: nat, b: nat)
    ensures -0x8000_0000 < a - b < 0x8000_0000 ==> (SerialLess(a, b) <==> a < b)
  {
    if -0x8000_0000 < a - b < 0 { assert (a - b) % WORD == a - b + WORD; }
    if 0 <= a - b < 0x8000_0000 { assert (a - b) % WORD == a - b; }
  }

  predicate AnchorMatches(w: World, signer: Name, k: KeyRR, ta: TrustAnchor, now: nat) {
    && DigestSupported(ta.digestType) && Tag(k) == ta.keyTag && Same(k.name, ta.zone)
    && AnchorValid(ta, now)
    && w.hashes(Lower(signer), k, ta.digestType, ta.digest)
  }

  predicate AnchorVouches(
      w: World, e: AuthElement, keys: seq<KeyRR>, sigs: seq<SigRR>, k: KeyRR, ta: TrustAnchor, now: nat) {
    && KeySetOf(keys, e.sig.rdata.signer, e.key) && CoverKeys(keys, sigs) && k in keys
    && ta in w.anchors && AnchorMatches(w, e.sig.rdata.signer, k, ta, now)
    && SelfSigned(w, keys, k, sigs)
  }

  /** A DS record or an anchor stands for a key by digest type 1 or 2, tag and digest, an anchor by its zone too. */
  lemma HashedExactly(w: World, signer: Name, k: KeyRR, d: DsRR, ta: TrustAnchor, now: nat)
    ensures Hashed(w, signer, k, d) <==>
              d.rdata.digestType in {1, 2} && Tag(k) == d.rdata.keyTag &&
              w.hashes(Lower(signer), k, d.rdata.digestType, d.rdata.digest)
    ensures AnchorMatches(w, signer, k, ta, now) <==>
              ta.digestType in {1, 2} && Tag(k) == ta.keyTag && Same(k.name, ta.zone) && AnchorValid(ta, now) &&
              w.hashes(Lower(signer), k, ta.digestType, ta.digest)
  {
    hide Tag, AnchorValid, Same;
  }

  /** A key fits a signature by name, algorithm, tag and zone flag. */
  lemma KeyMatchesExactly(key: KeyRR, sig: SigRR)
    ensures KeyMatches(key, sig) <==>
              Same(sig.rdata.signer, key.name) && key.rdata.octets[3] == sig.rdata.alg &&
              Tag(key) == sig.rdata.keyTag && Read16(key.rdata.octets, 0) / 256 % 2 == 1
  {
    FlagIs(key);
    hide Tag, Same;
  }

  lemma SignerNoLonger(rv: RR, sig: SigRR)
    requires Covers(rv, sig)
    ensures |sig.rdata.signer| <= |rv.name|
    ensures rv.Type() == TYPE_DS ==> |sig.rdata.signer| < |rv.name|
  {
    var signer := sig.rdata.signer;
    if Same(rv.name, signer) {
      SameWireLength(rv.name, signer);
    } else if |signer| == |rv.name| {
      assert rv.name[0..] == rv.name;
    }
  }
}
