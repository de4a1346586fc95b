/**
 * A run in which Secure is delivered over an answer that was expanded from a wildcard, without the
 * proof that nothing closer exists: the first of two signatures over the key set fails its check,
 * and that clears the note of the expansion.
 */
module LostNote {
  import opened Bytes
  import opened DomainNames
  import opened DnssecRecords
  import opened DnssecCache
  import opened DnssecChain
  import opened DnssecProgress
  import opened DnssecVerifier
  import opened InvisibleDs

  /** x.a, expanded from *.a. */
  const OWNER: Name := [[120], [97]]
  const TYPE_A: nat := 1

  const ADDRESS: RR := RR(OWNER, CLASS_IN, 0, Other(TYPE_A, []))
  const ADDRESS_SIG: SigRR := RR(OWNER, CLASS_IN, 0, Sig(TYPE_A, 5, 1, 100, 0, TAG, ZONE, []))
  const FAILING_SIG: SigRR := RR(ZONE, CLASS_IN, 0, Sig(TYPE_DNSKEY, 5, 1, 100, 0, TAG, ZONE, [9]))

  const ZONE_ANCHOR := TrustAnchor(ZONE, TAG, SHA256_DIGEST, [1], 0, 100)

  /** The empty signatures verify, every digest is that of every key, and all names belong to resolver group 0. */
  const EMPTY_VERIFIES := World(_ => true, (_, _, s: SigRR) => s.rdata.signature == [], (_, _, _, _) => true,
                                [ZONE_ANCHOR], _ => 0)

  const FIRST: Cache := [Cached(ADDRESS)]
  const SECOND: Cache := FIRST + [Cached(ADDRESS_SIG)]
  const THIRD: Cache := SECOND + [Cached(ZONE_KEY)]
  const FOURTH: Cache := THIRD + [Cached(FAILING_SIG)]
  const WHOLE: Cache := FOURTH + [Cached(ZONE_KEY_SIG)]

  lemma OwnersDiffer()
    ensures Same(OWNER, OWNER) && Same(ZONE, ZONE) && !Same(OWNER, ZONE) && !Same(ZONE, OWNER) && Suffix(OWNER, ZONE)
  {
    assert |Lower(ZONE)| == 1 && |Lower(OWNER)| == 2;
    assert OWNER[1..] == ZONE;
  }

  lemma WhatCovers()
    ensures Covers(ADDRESS, ADDRESS_SIG) && !Covers(ADDRESS, FAILING_SIG) && !Covers(ADDRESS, ZONE_KEY_SIG)
    ensures Covers(ZONE_KEY, FAILING_SIG) && Covers(ZONE_KEY, ZONE_KEY_SIG) && !Covers(ZONE_KEY, ADDRESS_SIG)
  {
    OwnersDiffer();
  }

  lemma SigsFound(owner: Name, rv: RR)
    ensures var s1 := if Same(OWNER, owner) && Covers(rv, ADDRESS_SIG) && InWindow(ADDRESS_SIG, NOW)
                      then [ADDRESS_SIG] else [];
            var s2 := if Same(ZONE, owner) && Covers(rv, FAILING_SIG) && InWindow(FAILING_SIG, NOW)
                      then [FAILING_SIG] else [];
            var s3 := if Same(ZONE, owner) && Covers(rv, ZONE_KEY_SIG) && InWindow(ZONE_KEY_SIG, NOW)
                      then [ZONE_KEY_SIG] else [];
            SigsFor(WHOLE, owner, rv, NOW) == s1 + s2 + s3
  {
    NoSigs(owner, rv);
    hide Same, Covers, InWindow, SigsFor;
    assert [] + [Cached(ADDRESS)] == FIRST;
    SigsNext([], Cached(ADDRESS), owner, rv);
    SigsNext(FIRST, Cached(ADDRESS_SIG), owner, rv);
    SigsNext(SECOND, Cached(ZONE_KEY), owner, rv);
    SigsNext(THIRD, Cached(FAILING_SIG), owner, rv);
    SigsNext(FOURTH, Cached(ZONE_KEY_SIG), owner, rv);
  }

  lemma BothSigs()
    ensures SigsFor(WHOLE, OWNER, ADDRESS, NOW) == [ADDRESS_SIG]
    ensures SigsFor(WHOLE, ZONE, ZONE_KEY, NOW) == [FAILING_SIG, ZONE_KEY_SIG]
  {
    OwnersDiffer();
    WhatCovers();
    Windows(ADDRESS_SIG);
    Windows(FAILING_SIG);
    Windows(ZONE_KEY_SIG);
    SigsFound(OWNER, ADDRESS);
    SigsFound(ZONE, ZONE_KEY);
    hide Same, Covers, InWindow, SigsFor;
  }

  lemma OneKey()
    ensures KeysFor(WHOLE, ZONE) == [ZONE_KEY]
  {
    OwnersDiffer();
    hide Same, KeysFor, WHOLE;
    NoKeys();
    KeyStep([], FIRST, ADDRESS, []);
    KeyStep(FIRST, SECOND, ADDRESS_SIG, []);
    KeyStep(SECOND, THIRD, ZONE_KEY, [ZONE_KEY]);
    KeyStep(THIRD, FOURTH, FAILING_SIG, []);
    LastRecord();
    KeyStep(FOURTH, WHOLE, ZONE_KEY_SIG, []);
  }

  lemma LastRecord()
    ensures WHOLE == FOURTH + [Cached(ZONE_KEY_SIG)]
  {
  }

  lemma NoKeys()
    ensures KeysFor([], ZONE) == []
  {
  }

  lemma KeyStep(front: Cache, cache: Cache, r: RR, more: seq<KeyRR>)
    requires cache == front + [Cached(r)]
    requires more == if r.rdata.Key? && Same(r.name, ZONE) && Same(ZONE, r.name) then [r] else []
    ensures KeysFor(cache, ZONE) == KeysFor(front, ZONE) + more
  {
    hide Same, KeysFor;
    KeysNext(front, Cached(r), ZONE);
  }

  lemma SetNext(front: Cache, c: CacheRecord)
    ensures AnswerSet(EMPTY_VERIFIES, front + [c], OWNER, TYPE_A) ==
            AnswerSet(EMPTY_VERIFIES, front, OWNER, TYPE_A) +
            if Answers(EMPTY_VERIFIES, c, OWNER, TYPE_A) && c.Positive? then [c.rr] else []
  {
    assert (front + [c])[..|front|] == front;
  }

  lemma SetFound()
    ensures AnswerSet(EMPTY_VERIFIES, WHOLE, OWNER, TYPE_A) == [ADDRESS]
    ensures AllPositive(EMPTY_VERIFIES, WHOLE, OWNER, TYPE_A)
  {
    OwnersDiffer();
    NoSet();
    AllAreThere();
    hide Same, AnswerSet, Answers, WHOLE;
    SetStep([], FIRST, ADDRESS, [ADDRESS]);
    SetStep(FIRST, SECOND, ADDRESS_SIG, []);
    SetStep(SECOND, THIRD, ZONE_KEY, []);
    SetStep(THIRD, FOURTH, FAILING_SIG, []);
    LastRecord();
    SetStep(FOURTH, WHOLE, ZONE_KEY_SIG, []);
  }

  lemma NoSet()
    ensures AnswerSet(EMPTY_VERIFIES, [], OWNER, TYPE_A) == []
  {
  }

  lemma AllAreThere()
    ensures forall i :: 0 <= i < |WHOLE| ==> WHOLE[i].Positive?
  {
  }

  lemma SetStep(front: Cache, cache: Cache, r: RR, more: seq<RR>)
    requires cache == front + [Cached(r)] && r.group == 0 && r.rrclass == CLASS_IN
    requires r.Type() != TYPE_CNAME
    requires more == if Same(r.name, OWNER) && r.Type() == TYPE_A then [r] else []
    ensures AnswerSet(EMPTY_VERIFIES, cache, OWNER, TYPE_A) == AnswerSet(EMPTY_VERIFIES, front, OWNER, TYPE_A) + more
  {
    assert Answers(EMPTY_VERIFIES, Cached(r), OWNER, TYPE_A) <==> Same(r.name, OWNER) && r.Type() == TYPE_A;
    hide Same, AnswerSet, Answers;
    SetNext(front, Cached(r));
  }

  function Collects(): Stock {
    Stock([ADDRESS_SIG], [ZONE_KEY], [FAILING_SIG, ZONE_KEY_SIG], DsFor(WHOLE, ZONE, [ZONE_KEY]))
  }

  lemma AllThere()
    ensures Gathered(Moment(WHOLE, NOW), [ADDRESS], NextRrsig, NOTHING) == Collects()
    ensures Complete(EMPTY_VERIFIES, Moment(WHOLE, NOW), [ADDRESS], NextRrsig, NOTHING, false)
  {
    BothSigs();
    OneKey();
    AnchorThere();
    AllAreThere();
    NoneDenied(WHOLE, OWNER, TYPE_RRSIG);
    NoneDenied(WHOLE, ZONE, TYPE_DNSKEY);
    NoneDenied(WHOLE, ZONE, TYPE_RRSIG);
    NoneDenied(WHOLE, ZONE, TYPE_DS);
    hide SigsFor, KeysFor, DsFor, FirstNegative, WHOLE, AnchorPresent;
  }

  lemma AnchorThere()
    ensures AnchorPresent(EMPTY_VERIFIES, [ZONE_KEY])
  {
    Tags();
    OwnersDiffer();
    hide Tag, Same;
    assert ZONE_ANCHOR in EMPTY_VERIFIES.anchors && ZONE_KEY in [ZONE_KEY];
  }

  lemma SetSigned()
    ensures Signed(EMPTY_VERIFIES, [ADDRESS], Collects()) && Trusted(EMPTY_VERIFIES, ZONE, Collects(), NOW)
  {
    Tags();
    OwnersDiffer();
    var t := Collects();
    hide Tag, Same, DsFor, WHOLE;
    assert ZONE_KEY in t.keys && ADDRESS_SIG in t.sigs && ZONE_KEY_SIG in t.keySigs;
    assert ZONE_ANCHOR in EMPTY_VERIFIES.anchors;
    assert KeyMatches(ZONE_KEY, ADDRESS_SIG) && Verifies(EMPTY_VERIFIES, [ADDRESS], ZONE_KEY, ADDRESS_SIG);
    assert Verifies(EMPTY_VERIFIES, t.keys, ZONE_KEY, ZONE_KEY_SIG);
    assert SelfSigned(EMPTY_VERIFIES, t.keys, ZONE_KEY, t.keySigs);
    assert AnchorMatches(EMPTY_VERIFIES, ZONE, ZONE_KEY, ZONE_ANCHOR, NOW);
  }

  lemma NoteIsLost()
    ensures NoteLost(EMPTY_VERIFIES, Collects())
  {
    Tags();
    var t := Collects();
    hide Tag, DsFor, WHOLE;
    assert Failing(EMPTY_VERIFIES, t.keys, ZONE_KEY, t.keySigs[0]);
    assert Spoils(EMPTY_VERIFIES, t.keys, ZONE_KEY, t.keySigs);
  }

  lemma EndsAssured(steps: nat)
    ensures EndOf(EMPTY_VERIFIES, Moment(WHOLE, NOW), [ADDRESS], Collects(), steps) == Assured
  {
    SetSigned();
    NoteIsLost();
    assert Collects().sigs == [ADDRESS_SIG] && ADDRESS_SIG.rdata.signer == ZONE;
    hide *;
    EndIs(EMPTY_VERIFIES, Moment(WHOLE, NOW), [ADDRESS], Collects(), steps);
  }

  /** The only signature over the set in that cache is the expanded one. */
  lemma ChainExpanded(chain: seq<AuthElement>, links: seq<Link>, at: Moment)
    requires SecureChain(EMPTY_VERIFIES, [ADDRESS], chain, links, {Moment(WHOLE, NOW)}, at)
    ensures AnyExpanded(chain)
  {
    hide Timely, Anchored, VouchedOver, ElementVerified, WHOLE;
    var e := chain[0];
    assert ElementVerified(EMPTY_VERIFIES, e) && Timely(e.sig, {Moment(WHOLE, NOW)});
    OnlySig(e);
    assert e in chain && Expanded(e.rrset[0].name, e.sig);
  }

  lemma OnlySig(e: AuthElement)
    requires e.rrset == [ADDRESS] && ElementVerified(EMPTY_VERIFIES, e) && Timely(e.sig, {Moment(WHOLE, NOW)})
    ensures e.sig == ADDRESS_SIG
  {
    WhatCovers();
    hide Covers, InWindow, KeyMatches, Verifies;
    var m, i :| m in {Moment(WHOLE, NOW)} && 0 <= i < |m.cache| && m.cache[i] == Positive(e.sig, m.cache[i].asked);
    assert WHOLE[i].rr == e.sig;
  }

  /** The run: one callback, everything in the cache, and Secure without a proof. */
  method SecureOverExpanded() returns (v: Verifier)
    ensures fresh(v) && v.w == EMPTY_VERIFIES && v.First() == [ADDRESS]
    ensures v.delivered == [Secure] && AnyExpanded(v.ac) && v.slipped
  {
    hide *;
    v := StartOver();
    var e := Event(WHOLE, NOW, None, false);
    AllThere();
    EndsAssured(9);
    RecursionLimit();
    v.Run([e]);
    OneMoment(e);
    v.EndsMeans(Assured);
    assert v.delivered == [Secure];
    assert v.moments == {Moment(WHOLE, NOW)};
    ChainExpanded(v.ac, v.links, v.securedAt);
  }

  method StartOver() returns (v: Verifier)
    ensures fresh(v) && v.w == EMPTY_VERIFIES && v.Valid() && v.mode == Dispatched
    ensures v.moments == {} && v.First() == [ADDRESS] && v.delivered == [] && v.begun == WHOLE
    ensures v.origName == OWNER && v.origType == TYPE_A
  {
    SetFound();
    hide AnswerSet, Answers, AllPositive, FirstDenial, WHOLE, SecureChain, Linked, Verifier.Active;
    v := new Verifier(EMPTY_VERIFIES, OWNER, TYPE_A);
    v.Begin(WHOLE);
  }
}
