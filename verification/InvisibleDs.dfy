/**
 * A run in which Secure is delivered although no DS record of the set that was verified hashes a
 * key: the lookup by owner alone goes over a DS record that was received from another resolver
 * group, and that no question for its owner would be answered with.
 */
module InvisibleDs {
  import opened Bytes
  import opened DomainNames
  import opened DnssecRecords
  import opened DnssecCache
  import opened DnssecChain
  import opened DnssecProgress
  import opened DnssecVerifier

  const ZONE: Name := [[97]]
  const TAG: nat := 1029
  const NOW: nat := 50

  const ZONE_KEY: KeyRR := RR(ZONE, CLASS_IN, 0, Key([1, 0, 3, 5]))
  const ZONE_KEY_SIG: SigRR := RR(ZONE, CLASS_IN, 0, Sig(TYPE_DNSKEY, 5, 1, 100, 0, TAG, ZONE, []))
  /** The DS record from group 1, which hashes the key, and the one of the zone above, which does not. */
  const HIDDEN_DS: DsRR := RR(ZONE, CLASS_IN, 1, Ds(TAG, 5, SHA256_DIGEST, [1]))
  const SHOWN_DS: DsRR := RR(ZONE, CLASS_IN, 0, Ds(TAG, 5, SHA256_DIGEST, [2]))
  const DS_SIG: SigRR := RR(ZONE, CLASS_IN, 0, Sig(TYPE_DS, 5, 1, 100, 0, TAG, [], []))
  const ROOT_KEY: KeyRR := RR([], CLASS_IN, 0, Key([1, 0, 3, 5]))
  const ROOT_KEY_SIG: SigRR := RR([], CLASS_IN, 0, Sig(TYPE_DNSKEY, 5, 0, 100, 0, TAG, [], []))

  const ANCHOR := TrustAnchor([], TAG, SHA256_DIGEST, [1], 0, 100)

  /** Every signature verifies, the digest of every key is [1], and all names belong to resolver group 0. */
  const WORLD := World(_ => true, (_, _, _) => true, (_, _, _, digest) => digest == [1], [ANCHOR], _ => 0)

  function Cached(r: RR): CacheRecord { Positive(r, true) }

  const ONE: Cache := [Cached(ZONE_KEY)]
  const TWO: Cache := ONE + [Cached(ZONE_KEY_SIG)]
  const THREE: Cache := TWO + [Cached(HIDDEN_DS)]
  const FOUR: Cache := THREE + [Cached(SHOWN_DS)]
  const FIVE: Cache := FOUR + [Cached(DS_SIG)]
  const SIX: Cache := FIVE + [Cached(ROOT_KEY)]
  const CACHE: Cache := SIX + [Cached(ROOT_KEY_SIG)]

  // ----- Single records

  lemma NamesDiffer()
    ensures Same(ZONE, ZONE) && Same([], []) && !Same(ZONE, []) && !Same([], ZONE)
    ensures Suffix(ZONE, []) && Suffix(ZONE, ZONE) && Suffix([], [])
  {
    assert |Lower(ZONE)| == 1 && |Lower([])| == 0;
    assert ZONE[1..] == [] && ZONE[0..] == ZONE;
  }

  lemma Tags()
    ensures Tag(ZONE_KEY) == TAG && Tag(ROOT_KEY) == TAG
    ensures KeyAlg(ZONE_KEY) == 5 && KeyAlg(ROOT_KEY) == 5 && ZoneKey(ZONE_KEY) && ZoneKey(ROOT_KEY)
  {
    var k: seq<byte> := [1, 0, 3, 5];
    assert k[..3] == [1, 0, 3] && k[..3][..2] == [1, 0] && k[..3][..2][..1] == [1] && k[..3][..2][..1][..0] == [];
    assert TagSum([1]) == 256 && TagSum([1, 0]) == 256 && TagSum([1, 0, 3]) == 1024 && TagSum(k) == 1029;
  }

  lemma Windows(sig: SigRR)
    requires sig.rdata.expire == 100 && sig.rdata.incept == 0
    ensures InWindow(sig, NOW)
  {
  }

  /** Which signature covers which set. */
  lemma Coverage()
    ensures Covers(ZONE_KEY, ZONE_KEY_SIG) && !Covers(ZONE_KEY, DS_SIG)
    ensures Covers(SHOWN_DS, DS_SIG) && !Covers(SHOWN_DS, ZONE_KEY_SIG)
    ensures Covers(ROOT_KEY, ROOT_KEY_SIG)
    ensures !Covers(ZONE_KEY, ROOT_KEY_SIG) && !Covers(SHOWN_DS, ROOT_KEY_SIG)
  {
    NamesDiffer();
  }

  // ----- The walks over the cache

  lemma SigsNext(front: Cache, c: CacheRecord, owner: Name, rv: RR)
    ensures SigsFor(front + [c], owner, rv, NOW) ==
            SigsFor(front, owner, rv, NOW) + if Same(c.Owner(), owner) && IsSigFor(c, rv, NOW) then [c.rr] else []
  {
    assert (front + [c])[..|front|] == front;
  }

  lemma KeysNext(front: Cache, c: CacheRecord, signer: Name)
    ensures KeysFor(front + [c], signer) ==
            KeysFor(front, signer) +
            if Same(c.Owner(), signer) && c.Positive? && c.rr.rdata.Key? && Same(signer, c.rr.name) then [c.rr] else []
  {
    assert (front + [c])[..|front|] == front;
  }

  lemma DsNext(front: Cache, c: CacheRecord, signer: Name, keys: seq<KeyRR>)
    ensures DsFor(front + [c], signer, keys) ==
            if Same(c.Owner(), signer) && c.Positive? && c.rr.rdata.Ds? && Same(signer, c.rr.name)
            then DsFor(front, signer, keys) + DsForKeys(c.rr, keys) else DsFor(front, signer, keys)
  {
    assert (front + [c])[..|front|] == front;
  }

  lemma AnswerNext(front: Cache, c: CacheRecord, qname: Name, qtype: nat)
    ensures AnswerSet(WORLD, front + [c], qname, qtype) ==
            AnswerSet(WORLD, front, qname, qtype) +
            if Answers(WORLD, c, qname, qtype) && c.Positive? then [c.rr] else []
  {
    assert (front + [c])[..|front|] == front;
  }

  lemma SigsThere()
    ensures SigsFor(CACHE, ZONE, ZONE_KEY, NOW) == [ZONE_KEY_SIG]
    ensures SigsFor(CACHE, ZONE, SHOWN_DS, NOW) == [DS_SIG]
    ensures SigsFor(CACHE, [], ROOT_KEY, NOW) == [ROOT_KEY_SIG]
  {
    NamesDiffer();
    Coverage();
    Windows(ZONE_KEY_SIG);
    Windows(DS_SIG);
    Windows(ROOT_KEY_SIG);
    hide Same, Covers, InWindow, SigsFor;
    NoSigs(ZONE, ZONE_KEY);
    NoSigs(ZONE, SHOWN_DS);
    NoSigs([], ROOT_KEY);
    SigsAlong(ZONE, ZONE_KEY);
    SigsAlong(ZONE, SHOWN_DS);
    SigsAlong([], ROOT_KEY);
  }

  lemma NoSigs(owner: Name, rv: RR)
    ensures SigsFor([], owner, rv, NOW) == []
  {
  }

  lemma SigsAlong(owner: Name, rv: RR)
    ensures var s1 := if Same(ZONE, owner) && Covers(rv, ZONE_KEY_SIG) && InWindow(ZONE_KEY_SIG, NOW)
                      then [ZONE_KEY_SIG] else [];
            var s2 := if Same(ZONE, owner) && Covers(rv, DS_SIG) && InWindow(DS_SIG, NOW) then [DS_SIG] else [];
            var s3 := if Same([], owner) && Covers(rv, ROOT_KEY_SIG) && InWindow(ROOT_KEY_SIG, NOW)
                      then [ROOT_KEY_SIG] else [];
            SigsFor(CACHE, owner, rv, NOW) == s1 + s2 + s3
  {
    NoSigs(owner, rv);
    hide Same, Covers, InWindow, SigsFor;
    assert [] + [Cached(ZONE_KEY)] == ONE;
    SigsNext([], Cached(ZONE_KEY), owner, rv);
    SigsNext(ONE, Cached(ZONE_KEY_SIG), owner, rv);
    SigsNext(TWO, Cached(HIDDEN_DS), owner, rv);
    SigsNext(THREE, Cached(SHOWN_DS), owner, rv);
    SigsNext(FOUR, Cached(DS_SIG), owner, rv);
    SigsNext(FIVE, Cached(ROOT_KEY), owner, rv);
    SigsNext(SIX, Cached(ROOT_KEY_SIG), owner, rv);
  }

  lemma KeysThere()
    ensures KeysFor(CACHE, ZONE) == [ZONE_KEY] && KeysFor(CACHE, []) == [ROOT_KEY]
  {
    KeysAlong(ZONE);
    KeysAlong([]);
    NamesDiffer();
  }

  lemma KeysAlong(signer: Name)
    ensures KeysFor(CACHE, signer) ==
            (if Same(ZONE, signer) && Same(signer, ZONE) then [ZONE_KEY] else []) +
            (if Same([], signer) && Same(signer, []) then [ROOT_KEY] else [])
  {
    assert KeysFor([], signer) == [];
    hide Same, KeysFor;
    assert [] + [Cached(ZONE_KEY)] == ONE;
    KeysNext([], Cached(ZONE_KEY), signer);
    KeysNext(ONE, Cached(ZONE_KEY_SIG), signer);
    KeysNext(TWO, Cached(HIDDEN_DS), signer);
    KeysNext(THREE, Cached(SHOWN_DS), signer);
    KeysNext(FOUR, Cached(DS_SIG), signer);
    KeysNext(FIVE, Cached(ROOT_KEY), signer);
    KeysNext(SIX, Cached(ROOT_KEY_SIG), signer);
  }

  lemma DsForOne(d: DsRR)
    requires d.rdata.keyTag == TAG && d.rdata.alg == 5
    ensures DsForKeys(d, [ZONE_KEY]) == [d]
  {
    Tags();
    var keys := [ZONE_KEY];
    hide Tag;
    assert keys[..0] == [] && DsForKeys(d, keys[..0]) == [];
  }

  lemma DsStep(front: Cache, cache: Cache, r: RR, more: seq<DsRR>)
    requires cache == front + [Cached(r)]
    requires more == if r.rdata.Ds? then [r] else []
    requires r.rdata.Ds? ==> Same(r.name, ZONE) && Same(ZONE, r.name) && r.rdata.keyTag == TAG && r.rdata.alg == 5
    ensures DsFor(cache, ZONE, [ZONE_KEY]) == DsFor(front, ZONE, [ZONE_KEY]) + more
  {
    if r.rdata.Ds? { DsForOne(r); }
    hide Same, DsFor, DsForKeys;
    DsNext(front, Cached(r), ZONE, [ZONE_KEY]);
  }

  lemma DsFour()
    ensures DsFor(FOUR, ZONE, [ZONE_KEY]) == [HIDDEN_DS, SHOWN_DS]
  {
    NamesDiffer();
    assert DsFor([], ZONE, [ZONE_KEY]) == [];
    hide Same, DsFor;
    DsStep([], ONE, ZONE_KEY, []);
    DsStep(ONE, TWO, ZONE_KEY_SIG, []);
    DsStep(TWO, THREE, HIDDEN_DS, [HIDDEN_DS]);
    DsStep(THREE, FOUR, SHOWN_DS, [SHOWN_DS]);
  }

  lemma DsThere()
    ensures DsFor(CACHE, ZONE, [ZONE_KEY]) == [HIDDEN_DS, SHOWN_DS]
  {
    DsFour();
    hide Same, DsFor, FOUR;
    DsStep(FOUR, FIVE, DS_SIG, []);
    DsStep(FIVE, SIX, ROOT_KEY, []);
    DsStep(SIX, CACHE, ROOT_KEY_SIG, []);
  }

  lemma AnswersThere()
    ensures AnswerSet(WORLD, CACHE, ZONE, TYPE_DNSKEY) == [ZONE_KEY]
    ensures AnswerSet(WORLD, CACHE, ZONE, TYPE_DS) == [SHOWN_DS]
  {
    AnswersAlong(TYPE_DNSKEY);
    AnswersAlong(TYPE_DS);
  }

  lemma Answering(r: RR, qtype: nat)
    requires qtype == TYPE_DNSKEY || qtype == TYPE_DS
    requires r.Type() == TYPE_DNSKEY || r.Type() == TYPE_DS || r.Type() == TYPE_RRSIG
    ensures Answers(WORLD, Cached(r), ZONE, qtype) <==>
              Same(r.name, ZONE) && r.group == 0 && r.rrclass == CLASS_IN && r.Type() == qtype
  {
    hide Same;
  }

  lemma AnswersTwo(qtype: nat)
    requires qtype == TYPE_DNSKEY || qtype == TYPE_DS
    ensures AnswerSet(WORLD, TWO, ZONE, qtype) == if qtype == TYPE_DNSKEY then [ZONE_KEY] else []
  {
    NamesDiffer();
    assert AnswerSet(WORLD, [], ZONE, qtype) == [];
    hide Same, AnswerSet, Answers, WORLD;
    AnswerStep([], ONE, ZONE_KEY, qtype, if qtype == TYPE_DNSKEY then [ZONE_KEY] else []);
    AnswerStep(ONE, TWO, ZONE_KEY_SIG, qtype, []);
  }

  lemma AnswersFour(qtype: nat)
    requires qtype == TYPE_DNSKEY || qtype == TYPE_DS
    ensures AnswerSet(WORLD, FOUR, ZONE, qtype) == if qtype == TYPE_DNSKEY then [ZONE_KEY] else [SHOWN_DS]
  {
    NamesDiffer();
    AnswersTwo(qtype);
    hide Same, AnswerSet, Answers, WORLD, ONE, TWO;
    AnswerStep(TWO, THREE, HIDDEN_DS, qtype, []);
    AnswerStep(THREE, FOUR, SHOWN_DS, qtype, if qtype == TYPE_DNSKEY then [] else [SHOWN_DS]);
  }

  lemma AnswersAlong(qtype: nat)
    requires qtype == TYPE_DNSKEY || qtype == TYPE_DS
    ensures AnswerSet(WORLD, CACHE, ZONE, qtype) == if qtype == TYPE_DNSKEY then [ZONE_KEY] else [SHOWN_DS]
  {
    NamesDiffer();
    hide Same, AnswerSet, Answers, WORLD, FOUR;
    AnswersFour(qtype);
    AnswerStep(FOUR, FIVE, DS_SIG, qtype, []);
    AnswerStep(FIVE, SIX, ROOT_KEY, qtype, []);
    AnswerStep(SIX, CACHE, ROOT_KEY_SIG, qtype, []);
  }

  lemma AnswerStep(front: Cache, cache: Cache, r: RR, qtype: nat, more: seq<RR>)
    requires cache == front + [Cached(r)] && (qtype == TYPE_DNSKEY || qtype == TYPE_DS)
    requires r.Type() == TYPE_DNSKEY || r.Type() == TYPE_DS || r.Type() == TYPE_RRSIG
    requires more ==
             if Same(r.name, ZONE) && r.group == 0 && r.rrclass == CLASS_IN && r.Type() == qtype then [r] else []
    ensures AnswerSet(WORLD, cache, ZONE, qtype) == AnswerSet(WORLD, front, ZONE, qtype) + more
  {
    hide Same, Answers, AnswerSet;
    AnswerNext(front, Cached(r), ZONE, qtype);
    Answering(r, qtype);
  }

  lemma NothingNegative()
    ensures forall i :: 0 <= i < |CACHE| ==> CACHE[i].Positive?
  {
  }

  lemma {:induction false} NoneDenied(cache: Cache, owner: Name, rrtype: nat)
    requires forall i :: 0 <= i < |cache| ==> cache[i].Positive?
    ensures FirstNegative(cache, owner, rrtype) == None
    decreases |cache|
  {
    if cache != [] { NoneDenied(cache[..|cache| - 1], owner, rrtype); }
  }

  // ----- The run

  lemma RootStocked()
    ensures StockFor(CACHE, NOW, [SHOWN_DS]) == RootStock() && InStock(CACHE, [SHOWN_DS], RootStock())
  {
    SigsThere();
    KeysThere();
    NothingNegative();
    NoneDenied(CACHE, ZONE, TYPE_RRSIG);
    NoneDenied(CACHE, [], TYPE_DNSKEY);
    NoneDenied(CACHE, [], TYPE_RRSIG);
    NoneDenied(CACHE, [], TYPE_DS);
    assert RootStock().sigs[0] == DS_SIG && DS_SIG.rdata.signer == [];
    hide SigsFor, KeysFor, DsFor, FirstNegative, CACHE;
  }

  /** The key set of the root, signed by itself, is what the anchor stands for. */
  lemma RootReached(steps: nat)
    ensures Reaches(WORLD, CACHE, NOW, [SHOWN_DS], steps)
  {
    RootStocked();
    RootSigned();
    assert [SHOWN_DS] != [] && RootStock().sigs != [] && RootStock().sigs[0].rdata.signer == [];
    hide *;
    ReachesByAnchor(WORLD, CACHE, NOW, [SHOWN_DS], steps, RootStock());
  }

  function RootStock(): Stock {
    Stock([DS_SIG], [ROOT_KEY], [ROOT_KEY_SIG], DsFor(CACHE, [], [ROOT_KEY]))
  }

  lemma RootSigned()
    ensures Signed(WORLD, [SHOWN_DS], RootStock()) && Trusted(WORLD, [], RootStock(), NOW)
  {
    Tags();
    NamesDiffer();
    var t := RootStock();
    hide Tag, Same, DsFor, CACHE;
    assert ROOT_KEY in t.keys && DS_SIG in t.sigs && ROOT_KEY_SIG in t.keySigs && ANCHOR in WORLD.anchors;
    assert KeyMatches(ROOT_KEY, DS_SIG) && Verifies(WORLD, [SHOWN_DS], ROOT_KEY, DS_SIG);
    assert SelfSigned(WORLD, t.keys, ROOT_KEY, t.keySigs) by { assert Verifies(WORLD, t.keys, ROOT_KEY, ROOT_KEY_SIG); }
    assert AnchorMatches(WORLD, [], ROOT_KEY, ANCHOR, NOW);
  }

  function ZoneStock(): Stock {
    Stock([ZONE_KEY_SIG], [ZONE_KEY], [ZONE_KEY_SIG], [HIDDEN_DS, SHOWN_DS])
  }

  lemma ZoneStocked()
    ensures StockFor(CACHE, NOW, [ZONE_KEY]) == ZoneStock() && InStock(CACHE, [ZONE_KEY], ZoneStock())
  {
    SigsThere();
    KeysThere();
    DsThere();
    NothingNegative();
    NoneDenied(CACHE, ZONE, TYPE_RRSIG);
    NoneDenied(CACHE, ZONE, TYPE_DNSKEY);
    NoneDenied(CACHE, ZONE, TYPE_DS);
    hide SigsFor, KeysFor, DsFor, FirstNegative;
  }

  lemma ZoneSigned()
    ensures Signed(WORLD, [ZONE_KEY], ZoneStock())
    ensures FirstToSign(WORLD, ZONE, ZoneStock().keys, ZoneStock().keySigs, ZoneStock().ds, 0)
  {
    Tags();
    NamesDiffer();
    var t := ZoneStock();
    hide Tag, Same;
    assert ZONE_KEY in t.keys && ZONE_KEY_SIG in t.sigs;
    assert Verifies(WORLD, [ZONE_KEY], ZONE_KEY, ZONE_KEY_SIG) && KeyMatches(ZONE_KEY, ZONE_KEY_SIG);
    assert SelfSigned(WORLD, t.keys, ZONE_KEY, t.keySigs);
    assert Hashed(WORLD, ZONE, ZONE_KEY, HIDDEN_DS);
    assert t.ds[..0 + 1] == [HIDDEN_DS];
  }

  lemma ZoneIsSigner()
    ensures [ZONE_KEY] != [] && ZoneStock().sigs != [] && ZoneStock().sigs[0].rdata.signer == ZONE
  {
  }

  lemma AheadThere(steps: nat)
    ensures Ahead(WORLD, CACHE, NOW, ZONE, steps)
  {
    AnswersThere();
    NothingNegative();
    RootReached(steps);
    assert AllPositive(WORLD, CACHE, ZONE, TYPE_DS) by { hide Answers; }
    hide AllPositive, AnswerSet, Reaches, CACHE;
  }

  /** The key of the zone is vouched for over the hidden record. */
  lemma AnchorReached(steps: nat)
    requires steps > 0
    ensures Reaches(WORLD, CACHE, NOW, [ZONE_KEY], steps)
  {
    hide *;
    ZoneStocked();
    ZoneSigned();
    ZoneIsSigner();
    AheadThere(steps - 1);
    ReachesByLink(WORLD, CACHE, NOW, [ZONE_KEY], steps, ZoneStock(), 0);
  }

  /** Whatever chain a Secure result comes with, its second set is the one DS record that hashes nothing. */
  lemma NotStrong(chain: seq<AuthElement>, links: seq<Link>, at: Moment)
    requires SecureChain(WORLD, [ZONE_KEY], chain, links, {Moment(CACHE, NOW)}, at)
    ensures |chain| >= 2 && !StrongLink(WORLD, chain[0], chain[1].rrset)
  {
    var moments := {Moment(CACHE, NOW)};
    var e := chain[0];
    assert ElementVerified(WORLD, e) && Timely(e.sig, moments);
    FirstSigner(e);
    NotAnchored(e, {Moment(CACHE, NOW)}, at.now);
    hide Anchored, Timely, ElementVerified, StrongLink;
    var l := links[0];
    assert VouchedOver(WORLD, e, l, moments) && chain[1].rrset == NextSet(WORLD, l);
    SecondSet(e, l);
  }

  lemma FirstSigner(e: AuthElement)
    requires e.rrset == [ZONE_KEY] && ElementVerified(WORLD, e) && Timely(e.sig, {Moment(CACHE, NOW)})
    ensures e.sig == ZONE_KEY_SIG
  {
    Coverage();
    hide Covers, InWindow, KeyMatches, Verifies;
    var m, i :| m in {Moment(CACHE, NOW)} && 0 <= i < |m.cache| && m.cache[i] == Positive(e.sig, m.cache[i].asked);
    assert CACHE[i].rr == e.sig;
  }

  lemma NotAnchored(e: AuthElement, moments: set<Moment>, now: nat)
    requires e.sig == ZONE_KEY_SIG
    ensures !Anchored(WORLD, e, moments, now)
  {
    hide Tag, AnchorValid, SelfSigned, CoverKeys, Same;
    forall keys: seq<KeyRR>, sigs: seq<SigRR>, k: KeyRR, ta: TrustAnchor
      ensures !AnchorVouches(WORLD, e, keys, sigs, k, ta, now)
    {
      NoCommonKey(k);
    }
  }

  /** No key belongs both to the zone and to the root. */
  lemma NoCommonKey(k: KeyRR)
    ensures !(Same(ZONE, k.name) && Same(k.name, []))
  {
    assert |Lower(ZONE)| == 1 && |Lower([])| == 0;
  }

  lemma SecondSet(e: AuthElement, l: Link)
    requires e.sig == ZONE_KEY_SIG && VouchedOver(WORLD, e, l, {Moment(CACHE, NOW)})
    ensures !StrongLink(WORLD, e, NextSet(WORLD, l))
  {
    hide DsVouches, StepsOver, AllTimely, Same;
    assert l.moment == Moment(CACHE, NOW);
    AnswerSetSame(WORLD, CACHE, l.signer, ZONE, TYPE_DS);
    AnswersThere();
    assert NextSet(WORLD, l) == [SHOWN_DS];
    forall keys: seq<KeyRR>, sigs: seq<SigRR>, k: KeyRR, d: DsRR
      ensures !(DsVouches(WORLD, e, keys, sigs, k, d) && d in [SHOWN_DS])
    {
      HashesKey(e, keys, sigs, k, d);
    }
  }

  lemma HashesKey(e: AuthElement, keys: seq<KeyRR>, sigs: seq<SigRR>, k: KeyRR, d: DsRR)
    ensures DsVouches(WORLD, e, keys, sigs, k, d) ==> d.rdata.digest == [1]
  {
    hide Tag, SelfSigned, KeySetOf, CoverKeys, Same;
  }

  lemma Prepared()
    ensures AnswerSet(WORLD, CACHE, ZONE, TYPE_DNSKEY) == [ZONE_KEY] && AllPositive(WORLD, CACHE, ZONE, TYPE_DNSKEY)
    ensures Reaches(WORLD, CACHE, NOW, [ZONE_KEY], MAX_RECURSE_COUNT - 1)
  {
    AnswersThere();
    NothingNegative();
    AnchorReached(MAX_RECURSE_COUNT - 1);
    hide Answers, AnswerSet, Reaches;
  }

  lemma OneMoment(e: Event)
    ensures MomentsOf([e]) == {Moment(e.cache, e.now)}
  {
    assert forall m :: m in MomentsOf([e]) ==> m == Moment(e.cache, e.now);
    assert Moment([e][0].cache, [e][0].now) in MomentsOf([e]);
  }

  /** The run: one callback, everything in the cache, and a Secure result without the strong link. */
  method SecureOverInvisible() returns (v: Verifier)
    ensures fresh(v) && v.w == WORLD && v.delivered == [Secure]
    ensures |v.ac| >= 2 && !StrongLink(WORLD, v.ac[0], v.ac[1].rrset)
  {
    Prepared();
    hide AnswerSet, Reaches, SecureChain, StrongLink, CACHE, Answers, WORLD, AllPositive, Verifier.Valid, MomentsOf;
    v := new Verifier(WORLD, ZONE, TYPE_DNSKEY);
    v.Begin(CACHE);
    var e := Event(CACHE, NOW, None, false);
    v.Run([e]);
    OneMoment(e);
    assert v.moments == {Moment(CACHE, NOW)};
    NotStrong(v.ac, v.links, v.securedAt);
  }
}
