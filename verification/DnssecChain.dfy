/**
 * Authentication chains: record sets, each verified under a key that the next set vouches for, up
 * to a trust anchor.  Each step keeps the DS record it went over and the cache this came from.
 */
module DnssecChain {
  import opened Bytes
  import opened DomainNames
  import opened DnssecRecords
  import opened DnssecCache

  /** The cache and the clock at one callback. */
  datatype Moment = Moment(cache: Cache, now: nat)

  /** The signature was in the cache, and within its window, at one of the moments. */
  ghost predicate Timely(sig: SigRR, moments: set<Moment>) {
    exists m, i ::
      m in moments && 0 <= i < |m.cache| && m.cache[i] == Positive(sig, m.cache[i].asked) && InWindow(sig, m.now)
  }

  ghost predicate AllTimely(sigs: seq<SigRR>, moments: set<Moment>) {
    forall s :: s in sigs ==> Timely(s, moments)
  }

  // ----- One link

  /** Key `k` is what DS record `d` stands for, and it signed the key set. */
  ghost predicate DsSigns(w: World, signer: Name, keys: seq<KeyRR>, sigs: seq<SigRR>, d: DsRR) {
    exists k :: k in keys && Hashed(w, signer, k, d) && SelfSigned(w, keys, k, sigs)
  }

  /** Walking the DS records in order, record `i` is the first one that does, and none before it ends the walk. */
  ghost predicate FirstToSign(w: World, signer: Name, keys: seq<KeyRR>, sigs: seq<SigRR>, ds: seq<DsRR>, i: nat) {
    && i < |ds| && AllSupported(ds[..i + 1]) && DsSigns(w, signer, keys, sigs, ds[i])
    && forall j :: 0 <= j < i ==> !DsSigns(w, signer, keys, sigs, ds[j])
  }

  /** How an element was vouched for: over which DS record, by which keys, and out of which cache. */
  datatype Link = Link(moment: Moment, signer: Name, keys: seq<KeyRR>, sigs: seq<SigRR>, k: KeyRR, d: DsRR)

  /** The DS records the walk of link `l` went over. */
  function Walked(l: Link): seq<DsRR> {
    DsFor(l.moment.cache, l.signer, l.keys)
  }

  /** The set that answers the DS question of link `l`: the one to be verified next. */
  function NextSet(w: World, l: Link): seq<RR> {
    AnswerSet(w, l.moment.cache, l.signer, TYPE_DS)
  }

  /** Record `i` of that walk is the one it went over. */
  ghost predicate StepsOver(w: World, l: Link, i: nat) {
    FirstToSign(w, l.signer, l.keys, l.sigs, Walked(l), i)
  }

  /**
   * The element was vouched for as the link says: its zone's key set signs itself under the key that
   * the first such DS hashes.
   */
  ghost predicate VouchedOver(w: World, e: AuthElement, l: Link, moments: set<Moment>) {
    && l.moment in moments && AllTimely(l.sigs, moments) && Same(l.signer, e.sig.rdata.signer)
    && DsVouches(w, e, l.keys, l.sigs, l.k, l.d)
    && exists i: nat :: i < |Walked(l)| && StepsOver(w, l, i) && Walked(l)[i] == l.d
  }

  /** A DS record of the set `parent` hashes a key that signed the key set of the element's zone. */
  ghost predicate StrongLink(w: World, e: AuthElement, parent: seq<RR>) {
    exists keys: seq<KeyRR>, sigs: seq<SigRR>, k: KeyRR, d: DsRR :: DsVouches(w, e, keys, sigs, k, d) && d in parent
  }

  /** Every DS record of the cache is one a question for its owner would be answered with. */
  predicate AllVisible(w: World, cache: Cache) {
    forall i :: 0 <= i < |cache| && cache[i].Positive? && cache[i].rr.rdata.Ds? ==> Visible(w, cache[i].rr)
  }

  /** The lookup by owner alone: the first DS record that signs is not one the question is answered with. */
  ghost predicate InvisibleFirst(w: World, l: Link) {
    exists i: nat :: i < |Walked(l)| && StepsOver(w, l, i) && !Visible(w, Walked(l)[i])
  }

  lemma FirstIsOne(w: World, signer: Name, keys: seq<KeyRR>, sigs: seq<SigRR>, ds: seq<DsRR>, i: nat, j: nat)
    requires FirstToSign(w, signer, keys, sigs, ds, i) && FirstToSign(w, signer, keys, sigs, ds, j)
    ensures i == j
  {
    hide DsSigns;
  }

  /** A DS record that was walked over is in the next set if and only if it is visible. */
  lemma WalkedIsAnswered(w: World, l: Link, d: DsRR)
    requires d in Walked(l)
    ensures d in NextSet(w, l) <==> Visible(w, d)
  {
    hide Same, DsFor, AnswerSet;
    DsCached(l.moment.cache, l.signer, l.keys);
    var i :| 0 <= i < |l.moment.cache| && l.moment.cache[i].Positive? && l.moment.cache[i].rr == d;
    SameIsSymmetric(l.signer, d.name);
    SameLower(l.signer, d.name);
    if Visible(w, d) { AnswerSetHas(w, l.moment.cache, l.signer, TYPE_DS, i); }
    AnswerSetIsVisible(w, l.moment.cache, l.signer);
  }

  lemma SameIsSymmetric(m: Name, n: Name)
    ensures Same(m, n) <==> Same(n, m)
  {
  }

  lemma SameLower(m: Name, n: Name)
    ensures Same(m, n) <==> Lower(m) == Lower(n)
  {
  }

  lemma {:induction false} AnswerSetIsVisible(w: World, cache: Cache, qname: Name)
    ensures forall r :: r in AnswerSet(w, cache, qname, TYPE_DS) ==> r.rdata.Ds? ==> Visible(w, r)
    decreases |cache|
  {
    if cache != [] { AnswerSetIsVisible(w, cache[..|cache| - 1], qname); }
  }

  /**
   * Exactly when the DS record that vouched is missing from the set verified next: when the first
   * record of the walk that signs is an invisible one.
   */
  lemma MissingExactly(w: World, e: AuthElement, l: Link, moments: set<Moment>)
    requires VouchedOver(w, e, l, moments)
    ensures l.d !in NextSet(w, l) <==> InvisibleFirst(w, l)
    ensures !InvisibleFirst(w, l) ==> StrongLink(w, e, NextSet(w, l))
  {
    hide StepsOver, DsVouches, Walked, NextSet, Visible;
    var i: nat :| i < |Walked(l)| && StepsOver(w, l, i) && Walked(l)[i] == l.d;
    WalkedIsAnswered(w, l, l.d);
    if InvisibleFirst(w, l) {
      var j: nat :| j < |Walked(l)| && StepsOver(w, l, j) && !Visible(w, Walked(l)[j]);
      StepsOverOne(w, l, i, j);
    }
  }

  lemma StepsOverOne(w: World, l: Link, i: nat, j: nat)
    requires StepsOver(w, l, i) && StepsOver(w, l, j)
    ensures i == j
  {
    FirstIsOne(w, l.signer, l.keys, l.sigs, Walked(l), i, j);
  }

  /** With nothing invisible in the cache the link is strong. */
  lemma VisibleIsStrong(w: World, e: AuthElement, l: Link, moments: set<Moment>)
    requires VouchedOver(w, e, l, moments) && AllVisible(w, l.moment.cache)
    ensures l.d in NextSet(w, l) && StrongLink(w, e, NextSet(w, l))
  {
    hide StepsOver, DsVouches, Timely, NextSet, Visible, StrongLink, DsFor;
    MissingExactly(w, e, l, moments);
    DsCached(l.moment.cache, l.signer, l.keys);
    forall d | d in Walked(l) ensures Visible(w, d) {
      var i :| 0 <= i < |l.moment.cache| && l.moment.cache[i].Positive? && l.moment.cache[i].rr == d;
    }
  }

  // ----- Chains

  /**
   * Every element verifies under a signature that was timely, and is vouched for over its link; the
   * next set is the link's.
   */
  ghost predicate Linked(w: World, chain: seq<AuthElement>, links: seq<Link>, moments: set<Moment>) {
    && |links| <= |chain| <= |links| + 1
    && (forall i :: 0 <= i < |chain| ==> ElementVerified(w, chain[i]) && Timely(chain[i].sig, moments))
    && (forall i :: 0 <= i < |links| ==> VouchedOver(w, chain[i], links[i], moments))
    && (forall i :: 0 <= i < |links| && i + 1 < |chain| ==> chain[i + 1].rrset == NextSet(w, links[i]))
  }

  /**
   * The zone of the key of `e` has a key set that is signed, timely, by a key that an anchor valid at
   * `now` hashes.
   */
  ghost predicate Anchored(w: World, e: AuthElement, moments: set<Moment>, now: nat) {
    exists keys: seq<KeyRR>, sigs: seq<SigRR>, k: KeyRR, ta: TrustAnchor ::
      AnchorVouches(w, e, keys, sigs, k, ta, now) && AllTimely(sigs, moments)
  }

  /** From the set `first`, link by link, to a trust anchor valid at the moment `at`. */
  ghost predicate SecureChain(
      w: World, first: seq<RR>, chain: seq<AuthElement>, links: seq<Link>, moments: set<Moment>, at: Moment) {
    && chain != [] && |chain| == |links| + 1 && Linked(w, chain, links, moments)
    && chain[0].rrset == first
    && at in moments && Anchored(w, chain[|chain| - 1], moments, at.now)
  }

  lemma LinkedNext(w: World, chain: seq<AuthElement>, links: seq<Link>, moments: set<Moment>, e: AuthElement)
    requires Linked(w, chain, links, moments) && |links| == |chain|
    requires ElementVerified(w, e) && Timely(e.sig, moments)
    requires chain != [] ==> e.rrset == NextSet(w, links[|links| - 1])
    ensures Linked(w, chain + [e], links, moments)
  {
    hide ElementVerified, Timely, VouchedOver, NextSet;
  }

  lemma LinkedOver(w: World, chain: seq<AuthElement>, links: seq<Link>, moments: set<Moment>, l: Link)
    requires Linked(w, chain, links, moments) && |chain| == |links| + 1
    requires VouchedOver(w, chain[|links|], l, moments)
    ensures Linked(w, chain, links + [l], moments)
  {
    hide ElementVerified, Timely, VouchedOver, NextSet;
  }

  /** Later moments take nothing back. */
  lemma TimelyLater(sigs: seq<SigRR>, moments: set<Moment>, more: set<Moment>)
    requires AllTimely(sigs, moments) && moments <= more
    ensures AllTimely(sigs, more)
  {
    hide InWindow;
    forall s | s in sigs ensures Timely(s, more) {
      var m, i :|
        m in moments && 0 <= i < |m.cache| && m.cache[i] == Positive(s, m.cache[i].asked) && InWindow(s, m.now);
      assert m in more;
    }
  }

  lemma VouchedLater(w: World, e: AuthElement, l: Link, moments: set<Moment>, more: set<Moment>)
    requires VouchedOver(w, e, l, moments) && moments <= more
    ensures VouchedOver(w, e, l, more)
  {
    hide Timely, DsVouches, FirstToSign, Walked, Same;
    TimelyLater(l.sigs, moments, more);
  }

  lemma LinkedLater(w: World, chain: seq<AuthElement>, links: seq<Link>, moments: set<Moment>, more: set<Moment>)
    requires Linked(w, chain, links, moments) && moments <= more
    ensures Linked(w, chain, links, more)
  {
    hide ElementVerified, Timely, VouchedOver, NextSet;
    forall i | 0 <= i < |chain| ensures Timely(chain[i].sig, more) {
      assert AllTimely([chain[i].sig], moments);
      TimelyLater([chain[i].sig], moments, more);
      assert chain[i].sig in [chain[i].sig];
    }
    forall i | 0 <= i < |links| ensures VouchedOver(w, chain[i], links[i], more) {
      VouchedLater(w, chain[i], links[i], moments, more);
    }
  }

  lemma SecureLater(w: World, first: seq<RR>, chain: seq<AuthElement>, links: seq<Link>, moments: set<Moment>,
                    more: set<Moment>, at: Moment)
    requires SecureChain(w, first, chain, links, moments, at) && moments <= more
    ensures SecureChain(w, first, chain, links, more, at)
  {
    LinkedLater(w, chain, links, moments, more);
    hide Linked, AnchorVouches, AllTimely;
    var e := chain[|chain| - 1];
    var keys: seq<KeyRR>, sigs: seq<SigRR>, k: KeyRR, ta: TrustAnchor :|
      AnchorVouches(w, e, keys, sigs, k, ta, at.now) && AllTimely(sigs, moments);
    TimelyLater(sigs, moments, more);
  }

  /**
   * If all DS records in the caches of the run are visible, then at every step the DS record that was
   * gone over is in the next set: it hashes a key that signed the key set of the zone before.
   */
  lemma SecureIsStrong(
      w: World, first: seq<RR>, chain: seq<AuthElement>, links: seq<Link>, moments: set<Moment>, at: Moment, i: nat)
    requires SecureChain(w, first, chain, links, moments, at) && i + 1 < |chain|
    requires forall m :: m in moments ==> AllVisible(w, m.cache)
    ensures var l := links[i];
            l.d in chain[i + 1].rrset && DsVouches(w, chain[i], l.keys, l.sigs, l.k, l.d) && AllTimely(l.sigs, moments)
    ensures StrongLink(w, chain[i], chain[i + 1].rrset)
  {
    hide DsVouches, AllTimely, ElementVerified, Timely, NextSet, Anchored, StrongLink, VouchedOver, AllVisible;
    assert VouchedOver(w, chain[i], links[i], moments);
    MomentKept(w, chain[i], links[i], moments);
    VisibleIsStrong(w, chain[i], links[i], moments);
  }

  lemma MomentKept(w: World, e: AuthElement, l: Link, moments: set<Moment>)
    requires VouchedOver(w, e, l, moments)
    ensures l.moment in moments && DsVouches(w, e, l.keys, l.sigs, l.k, l.d) && AllTimely(l.sigs, moments)
  {
    hide DsVouches, AllTimely, StepsOver;
  }

  // ----- What Secure means

  /**
   * What section 5.3 of RFC 4035 demands of a set, the signature over it and the key: one owner, class and type;
   * no more labels than the owner has; a signer the owner is in, and not the owner itself for DS records; a key of
   * the signer with the signature's algorithm and tag and the zone flag; a supported algorithm, and the check.
   */
  lemma VerifiedMeans(w: World, e: AuthElement)
    requires ElementVerified(w, e)
    ensures e.rrset != []
    ensures var rv, s, n := e.rrset[0], e.sig.rdata, |e.rrset[0].name|;
            && Same(rv.name, e.sig.name) && rv.rrclass == e.sig.rrclass && s.typeCovered == rv.Type()
            && s.labels <= n && |s.signer| <= n && Same(rv.name[n - |s.signer|..], s.signer)
            && (rv.Type() == 43 ==> |s.signer| < n)
            && (rv.Type() == 2 || rv.Type() == 6 || rv.Type() == 48 ==> Same(rv.name, s.signer))
    ensures var k, s := e.key.rdata.octets, e.sig.rdata;
            && Same(s.signer, e.key.name) && k[3] == s.alg && Tag(e.key) == s.keyTag && Read16(k, 0) / 256 % 2 == 1
            && w.supports(s.alg) && w.verifies(e.rrset, e.key, e.sig)
  {
    var rv, signer := e.rrset[0], e.sig.rdata.signer;
    SignerNoLonger(rv, e.sig);
    FlagIs(e.key);
    if Same(rv.name, signer) {
      SameWireLength(rv.name, signer);
      assert rv.name[0..] == rv.name;
    }
  }

  /**
   * What the way up demands: a DS record of the signer, with digest type 1 or 2 and the tag of a key of the
   * signer's key set, is its digest, and a signature over the key set checks under that key.
   */
  lemma VouchedMeans(w: World, e: AuthElement, keys: seq<KeyRR>, sigs: seq<SigRR>, k: KeyRR, d: DsRR)
    requires DsVouches(w, e, keys, sigs, k, d)
    ensures e.key in keys && k in keys && forall key :: key in keys ==> Same(e.sig.rdata.signer, key.name)
    ensures Same(e.sig.rdata.signer, d.name) && d.rdata.digestType in {1, 2} && Tag(k) == d.rdata.keyTag
    ensures w.hashes(Lower(e.sig.rdata.signer), k, d.rdata.digestType, d.rdata.digest)
    ensures keys != [] && exists s :: s in sigs && Covers(keys[0], s) && Tag(k) == s.rdata.keyTag &&
                                      w.supports(s.rdata.alg) && w.verifies(keys, k, s)
  {
    var s :| s in sigs && Tag(k) == s.rdata.keyTag && Verifies(w, keys, k, s);
  }

  /** And what the anchor does, in whose interval the clock is. */
  lemma AnchoredMeans(w: World, e: AuthElement, keys: seq<KeyRR>, sigs: seq<SigRR>, k: KeyRR, ta: TrustAnchor, now: nat)
    requires AnchorVouches(w, e, keys, sigs, k, ta, now)
    ensures e.key in keys && k in keys && forall key :: key in keys ==> Same(e.sig.rdata.signer, key.name)
    ensures ta in w.anchors && Same(k.name, ta.zone) && ta.digestType in {1, 2} && Tag(k) == ta.keyTag
    ensures w.hashes(Lower(e.sig.rdata.signer), k, ta.digestType, ta.digest)
    ensures -0x8000_0000 < ta.validUntil - now < 0x8000_0000 && -0x8000_0000 < ta.validFrom - now < 0x8000_0000 ==>
              ta.validFrom <= now <= ta.validUntil
    ensures keys != [] && exists s :: s in sigs && Covers(keys[0], s) && Tag(k) == s.rdata.keyTag &&
                                      w.supports(s.rdata.alg) && w.verifies(keys, k, s)
  {
    WindowIsInterval(e.sig, ta, now);
    hide SerialLess;
    var s :| s in sigs && Tag(k) == s.rdata.keyTag && Verifies(w, keys, k, s);
  }

  // ----- The chain climbs

  function SignerLabels(e: AuthElement): nat { |e.sig.rdata.signer| }

  /** The next set is a DS set of the zone that signed the element. */
  lemma NextSetIsDs(w: World, e: AuthElement, l: Link, moments: set<Moment>)
    requires VouchedOver(w, e, l, moments)
    ensures forall r :: r in NextSet(w, l) ==> r.Type() == TYPE_DS && |r.name| == SignerLabels(e)
  {
    hide Timely, DsVouches, FirstToSign, Walked, Same;
    AnswerSetIsDs(w, l.moment.cache, l.signer);
    SameWireLength(l.signer, e.sig.rdata.signer);
    forall r | r in NextSet(w, l) ensures |r.name| == SignerLabels(e) {
      SameWireLength(r.name, l.signer);
    }
  }

  /** Each element is signed by a zone with strictly fewer labels than the one before. */
  lemma SignersClimb(w: World, chain: seq<AuthElement>, links: seq<Link>, moments: set<Moment>, i: nat)
    requires Linked(w, chain, links, moments) && i + 1 < |chain|
    ensures SignerLabels(chain[i + 1]) < SignerLabels(chain[i])
  {
    hide Timely, VouchedOver, KeyMatches, Verifies, Covers;
    var e, next := chain[i], chain[i + 1];
    assert VouchedOver(w, e, links[i], moments) && ElementVerified(w, next);
    NextSetIsDs(w, e, links[i], moments);
    var rv := next.rrset[0];
    assert rv in next.rrset;
    SignerNoLonger(rv, next.sig);
  }

  lemma {:induction false} SignersBelow(
      w: World, chain: seq<AuthElement>, links: seq<Link>, moments: set<Moment>, i: nat)
    requires Linked(w, chain, links, moments) && i < |chain|
    ensures SignerLabels(chain[i]) + i <= SignerLabels(chain[0])
  {
    hide Linked;
    if i > 0 {
      SignersBelow(w, chain, links, moments, i - 1);
      SignersClimb(w, chain, links, moments, i - 1);
    }
  }

  /** So the chain is no longer than the labels of the name in question allow. */
  lemma ChainBounded(w: World, origName: Name, chain: seq<AuthElement>, links: seq<Link>, moments: set<Moment>)
    requires chain != [] && Linked(w, chain, links, moments)
    requires chain[0].rrset != [] ==> |chain[0].rrset[0].name| == |origName|
    ensures |chain| <= |origName| + 1
    ensures SignerLabels(chain[|chain| - 1]) + |chain| <= |origName| + 1
  {
    hide Timely, VouchedOver, KeyMatches, Verifies, Covers;
    SignersBelow(w, chain, links, moments, |chain| - 1);
    assert ElementVerified(w, chain[0]);
    SignerNoLonger(chain[0].rrset[0], chain[0].sig);
  }
}
