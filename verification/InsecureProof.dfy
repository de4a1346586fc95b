/**
 * The proof that a zone is insecurely delegated: from the trust anchor downwards, one label longer
 * each time, DS records are asked for until a break in the chain of trust is found.  It is started
 * when the climb of the verifier ended in a bogus result, at most once.
 */
module InsecureProof {
  import opened Bytes
  import opened DomainNames
  import opened DnssecRecords
  import DnssecVerifier

  type Status = DnssecVerifier.Status

  // ----- Choosing the anchor

  predicate SuffixesMatch(m: Name, n: Name, k: nat)
    requires k <= |m| && k <= |n|
  {
    Same(m[|m| - k..], n[|n| - k..])
  }

  /** How many labels match, counted from the right. */
  function MatchFrom(m: Name, n: Name, k: nat): (r: nat)
    requires k <= |m| && k <= |n|
    ensures k <= r <= |m| && r <= |n|
    ensures r > k ==> SuffixesMatch(m, n, r)
    ensures r < |m| && r < |n| ==> !SuffixesMatch(m, n, r + 1)
    decreases |m| - k
  {
    if k < |m| && k < |n| && SuffixesMatch(m, n, k + 1) then MatchFrom(m, n, k + 1) else k
  }

  method CountLabelsMatch(m: Name, n: Name) returns (found: nat)
    ensures found == MatchFrom(m, n, 0)
  {
    hide SuffixesMatch;
    var count := if |m| < |n| then |m| else |n|;
    found := 0;
    for i := 0 to count
      invariant found == i && MatchFrom(m, n, 0) == MatchFrom(m, n, i)
    {
      if !SuffixesMatch(m, n, i + 1) { return; }
      found := found + 1;
    }
  }

  /** How the walk stands: the best match so far, the anchor it was with, and the last root anchor. */
  datatype Choice = Choice(best: nat, at: Option<TrustAnchor>, root: Option<TrustAnchor>)

  /** One anchor more: it is taken if more labels match than so far. */
  function Considered(c: Choice, ta: TrustAnchor, name: Name, now: nat): (r: Choice)
    ensures c.best <= r.best && (c.root.Some? ==> r.root.Some?)
    ensures AnchorValid(ta, now) ==> MatchFrom(ta.zone, name, 0) <= r.best && (ta.zone == [] ==> r.root.Some?)
  {
    if !AnchorValid(ta, now) then c else
    var root := if ta.zone == [] then Some(ta) else c.root;
    var found := MatchFrom(ta.zone, name, 0);
    if found > c.best then Choice(found, Some(ta), root) else Choice(c.best, c.at, root)
  }

  /**
   * The anchor the walk would choose among the first `i`: the first with the most labels matching,
   * or, if none matches a label, the last root anchor.
   */
  function Chosen(anchors: seq<TrustAnchor>, i: nat, name: Name, now: nat): (r: Choice)
    requires i <= |anchors|
  {
    if i == 0 then Choice(0, None, None) else Considered(Chosen(anchors, i - 1, name, now), anchors[i - 1], name, now)
  }

  /** What was chosen is there, valid, and matches as it is said to. */
  ghost predicate Sound(c: Choice, anchors: seq<TrustAnchor>, name: Name, now: nat) {
    && (c.at.Some? ==>
          c.at.value in anchors && AnchorValid(c.at.value, now) && c.best == MatchFrom(c.at.value.zone, name, 0) > 0)
    && (c.root.Some? ==> c.root.value in anchors && AnchorValid(c.root.value, now) && c.root.value.zone == [])
    && (c.at.None? ==> c.best == 0)
  }

  lemma SoundStill(c: Choice, ta: TrustAnchor, anchors: seq<TrustAnchor>, name: Name, now: nat)
    requires Sound(c, anchors, name, now) && ta in anchors
    ensures Sound(Considered(c, ta, name, now), anchors, name, now)
  {
    hide AnchorValid, MatchFrom;
  }

  lemma {:induction false} ChosenSome(anchors: seq<TrustAnchor>, i: nat, name: Name, now: nat)
    requires i <= |anchors|
    ensures Sound(Chosen(anchors, i, name, now), anchors, name, now)
  {
    hide AnchorValid, MatchFrom, Considered;
    if i > 0 {
      ChosenSome(anchors, i - 1, name, now);
      SoundStill(Chosen(anchors, i - 1, name, now), anchors[i - 1], anchors, name, now);
    }
  }

  function AnchorFor(anchors: seq<TrustAnchor>, name: Name, now: nat): (r: Option<TrustAnchor>)
    ensures r.Some? ==> r.value in anchors
  {
    ChosenSome(anchors, |anchors|, name, now);
    var c := Chosen(anchors, |anchors|, name, now);
    if c.at.Some? then c.at else c.root
  }

  lemma ChosenNext(anchors: seq<TrustAnchor>, i: nat, name: Name, now: nat)
    requires i < |anchors|
    ensures Chosen(anchors, i + 1, name, now) == Considered(Chosen(anchors, i, name, now), anchors[i], name, now)
  {
    hide Considered;
  }

  method FindTrustAnchor(anchors: seq<TrustAnchor>, name: Name, now: nat) returns (r: Option<TrustAnchor>)
    ensures r == AnchorFor(anchors, name, now)
  {
    hide AnchorValid, MatchFrom, Chosen;
    var matchTA: Option<TrustAnchor>, rootTA: Option<TrustAnchor>, currmatch: nat := None, None, 0;
    NoneChosen(anchors, name, now);
    for i := 0 to |anchors|
      invariant Chosen(anchors, i, name, now) == Choice(currmatch, matchTA, rootTA)
    {
      ChosenNext(anchors, i, name, now);
      var ta := anchors[i];
      if AnchorValid(ta, now) {
        if ta.zone == [] { rootTA := Some(ta); }
        var found := CountLabelsMatch(ta.zone, name);
        if found > currmatch { currmatch, matchTA := found, Some(ta); }
      }
    }
    if matchTA.Some? { return matchTA; }
    return rootTA;
  }

  lemma NoneChosen(anchors: seq<TrustAnchor>, name: Name, now: nat)
    ensures Chosen(anchors, 0, name, now) == Choice(0, None, None)
  {
  }

  /** The walk over the anchors passes over no valid anchor that matches better. */
  lemma {:induction false} ChosenIsBest(anchors: seq<TrustAnchor>, i: nat, name: Name, now: nat, k: nat)
    requires k < i <= |anchors| && AnchorValid(anchors[k], now)
    ensures MatchFrom(anchors[k].zone, name, 0) <= Chosen(anchors, i, name, now).best
    ensures anchors[k].zone == [] ==> Chosen(anchors, i, name, now).root.Some?
    decreases i
  {
    hide AnchorValid, MatchFrom, Chosen, Considered;
    ChosenNext(anchors, i - 1, name, now);
    if k < i - 1 {
      ChosenIsBest(anchors, i - 1, name, now, k);
    }
  }

  /** Anchor `k` is the first of those valid that match the most labels, and it matches one. */
  ghost predicate FirstBest(anchors: seq<TrustAnchor>, name: Name, now: nat, k: nat) {
    k < |anchors| && AnchorValid(anchors[k], now) && MatchFrom(anchors[k].zone, name, 0) > 0 &&
    forall j :: 0 <= j < |anchors| && AnchorValid(anchors[j], now) ==>
                  MatchFrom(anchors[j].zone, name, 0) <= MatchFrom(anchors[k].zone, name, 0) &&
                  (j < k ==> MatchFrom(anchors[j].zone, name, 0) < MatchFrom(anchors[k].zone, name, 0))
  }

  /** Anchor `k` is the last one for the root, and no valid anchor shares a label with the name. */
  ghost predicate LastRoot(anchors: seq<TrustAnchor>, name: Name, now: nat, k: nat) {
    k < |anchors| && AnchorValid(anchors[k], now) && anchors[k].zone == [] &&
    forall j :: 0 <= j < |anchors| && AnchorValid(anchors[j], now) ==>
                  MatchFrom(anchors[j].zone, name, 0) == 0 && (j > k ==> anchors[j].zone != [])
  }

  lemma {:induction false} BestStays(anchors: seq<TrustAnchor>, name: Name, now: nat, k: nat, i: nat)
    requires FirstBest(anchors, name, now, k) && i <= |anchors|
    ensures var c := Chosen(anchors, i, name, now);
            if i <= k then c.best < MatchFrom(anchors[k].zone, name, 0)
            else c.at == Some(anchors[k]) && c.best == MatchFrom(anchors[k].zone, name, 0)
    decreases i
  {
    hide AnchorValid, MatchFrom, Chosen;
    if i == 0 {
      NoneChosen(anchors, name, now);
    } else {
      BestStays(anchors, name, now, k, i - 1);
      ChosenNext(anchors, i - 1, name, now);
    }
  }

  lemma {:induction false} RootStays(anchors: seq<TrustAnchor>, name: Name, now: nat, k: nat, i: nat)
    requires LastRoot(anchors, name, now, k) && i <= |anchors|
    ensures var c := Chosen(anchors, i, name, now);
            c.at == None && c.best == 0 && (i > k ==> c.root == Some(anchors[k]))
    decreases i
  {
    hide AnchorValid, MatchFrom, Chosen;
    if i == 0 {
      NoneChosen(anchors, name, now);
    } else {
      RootStays(anchors, name, now, k, i - 1);
      ChosenNext(anchors, i - 1, name, now);
    }
  }

  /** The anchor found is the first of the best; or if none matches a label the last for the root. */
  lemma ChosenExactly(anchors: seq<TrustAnchor>, name: Name, now: nat, k: nat)
    ensures FirstBest(anchors, name, now, k) || LastRoot(anchors, name, now, k) ==>
              AnchorFor(anchors, name, now) == Some(anchors[k])
  {
    hide FirstBest, LastRoot, Chosen;
    if FirstBest(anchors, name, now, k) {
      BestIsThere(anchors, name, now, k);
      BestStays(anchors, name, now, k, |anchors|);
    }
    if LastRoot(anchors, name, now, k) {
      BestIsThere(anchors, name, now, k);
      RootStays(anchors, name, now, k, |anchors|);
    }
  }

  lemma BestIsThere(anchors: seq<TrustAnchor>, name: Name, now: nat, k: nat)
    ensures FirstBest(anchors, name, now, k) || LastRoot(anchors, name, now, k) ==> k < |anchors|
  {
  }

  /** No anchor is found exactly when no valid one shares a label with the name or is a root anchor. */
  lemma NoAnchorFound(anchors: seq<TrustAnchor>, name: Name, now: nat)
    ensures AnchorFor(anchors, name, now) == None <==>
              forall ta :: ta in anchors && AnchorValid(ta, now) ==> ta.zone != [] && MatchFrom(ta.zone, name, 0) == 0
  {
    hide AnchorValid, MatchFrom, Chosen, Considered;
    ChosenSome(anchors, |anchors|, name, now);
    if AnchorFor(anchors, name, now) == None {
      forall ta | ta in anchors && AnchorValid(ta, now) ensures ta.zone != [] && MatchFrom(ta.zone, name, 0) == 0 {
        var k :| 0 <= k < |anchors| && anchors[k] == ta;
        ChosenIsBest(anchors, |anchors|, name, now, k);
      }
    }
  }

  // ----- The walk

  const TYPE_NSEC3: nat := 50
  const RSA_SHA1: nat := 5
  const RSA_NSEC3_SHA1: nat := 7
  const RSA_SHA256: nat := 8
  const RSA_SHA512: nat := 10

  predicate AlgorithmSupported(d: DsRR) {
    DigestSupported(d.rdata.digestType) && d.rdata.alg in {RSA_NSEC3_SHA1, RSA_SHA1, RSA_SHA256, RSA_SHA512}
  }

  /**
   * What came back for the DS question: a status, with the authentication chain that led to it, and
   * whether the cached denial shows a delegation.
   */
  datatype Reply = Reply(status: Status, chain: seq<AuthElement>, delegation: bool, timedOut: bool)

  /** A reply ends the proof or calls for one question more. */
  datatype Verdict = Ends(status: Status) | OneMore

  /** The verdict on a reply, given whether the name in question has been reached. */
  function VerdictOn(r: Reply, reached: bool): (v: Verdict)
    ensures v.Ends? ==> v.status == DnssecVerifier.Insecure || v.status == DnssecVerifier.Bogus
    ensures r.timedOut || reached ==> v.Ends?
    ensures v == Ends(DnssecVerifier.Insecure) ==> r.chain != [] && r.chain[0].rrset != []
  {
    if r.timedOut || (r.status != DnssecVerifier.Secure && r.status != DnssecVerifier.Insecure)
    then Ends(DnssecVerifier.Bogus)
    else if r.chain == [] || r.chain[0].rrset == [] then Ends(DnssecVerifier.Bogus)
    else
      var rr := r.chain[0].rrset[0];
      var broken := if rr.rdata.Ds? then !AlgorithmSupported(rr) else r.delegation;
      if rr.Type() !in {TYPE_DS, TYPE_NSEC, TYPE_NSEC3} then Ends(DnssecVerifier.Bogus)
      else if broken then Ends(DnssecVerifier.Insecure)
      else if reached then Ends(DnssecVerifier.Bogus)
      else OneMore
  }

  /**
   * What shows that the chain of trust is broken on purpose: a validated DS record whose digest is neither
   * SHA-1 (1) nor SHA-256 (2) or whose algorithm is none of the RSA ones 5, 7, 8 and 10, or a validated NSEC
   * (47) or NSEC3 (50) record that denies the DS record at a delegation.
   */
  predicate ShowsBreak(r: Reply) {
    && !r.timedOut && (r.status.Secure? || r.status.Insecure?) && r.chain != [] && r.chain[0].rrset != []
    && match r.chain[0].rrset[0].rdata
       case Ds(_, alg, digestType, _) =>
         !((digestType == 1 || digestType == 2) && (alg == 5 || alg == 7 || alg == 8 || alg == 10))
       case Other(t, _) => (t == 47 || t == 50) && r.delegation
       case _ => false
  }

  /** What leads one level down: a signed delegation that can be verified, or a denial at no delegation. */
  predicate LeadsDown(r: Reply) {
    && !r.timedOut && (r.status.Secure? || r.status.Insecure?) && r.chain != [] && r.chain[0].rrset != []
    && match r.chain[0].rrset[0].rdata
       case Ds(_, alg, digestType, _) =>
         (digestType == 1 || digestType == 2) && (alg == 5 || alg == 7 || alg == 8 || alg == 10)
       case Other(t, _) => (t == 47 || t == 50) && !r.delegation
       case _ => false
  }

  /** The verdict case by case. */
  lemma VerdictIs(r: Reply, reached: bool)
    ensures var v := VerdictOn(r, reached);
            if r.timedOut || (r.status != DnssecVerifier.Secure && r.status != DnssecVerifier.Insecure) ||
               r.chain == [] || r.chain[0].rrset == []
            then v == Ends(DnssecVerifier.Bogus)
            else
              var rr := r.chain[0].rrset[0];
              if rr.Type() == TYPE_DS then
                v == if !AlgorithmSupported(rr) then Ends(DnssecVerifier.Insecure)
                     else if reached then Ends(DnssecVerifier.Bogus) else OneMore
              else if rr.Type() == TYPE_NSEC || rr.Type() == TYPE_NSEC3 then
                v == if r.delegation then Ends(DnssecVerifier.Insecure)
                     else if reached then Ends(DnssecVerifier.Bogus) else OneMore
              else v == Ends(DnssecVerifier.Bogus)
  {
  }

  /** Which replies end a proof as Insecure, and which call for one question more. */
  lemma VerdictExactly(r: Reply, reached: bool)
    ensures VerdictOn(r, reached) == Ends(DnssecVerifier.Insecure) <==> ShowsBreak(r)
    ensures VerdictOn(r, reached) == OneMore <==> LeadsDown(r) && !reached
    ensures VerdictOn(r, reached) == Ends(DnssecVerifier.Bogus) <==> !ShowsBreak(r) && (LeadsDown(r) ==> reached)
  {
  }

  /** A delegation to a zone whose signatures can be verified, validated. */
  predicate SignedDelegation(r: Reply) {
    && r.status.Secure? && r.chain != [] && r.chain[0].rrset != []
    && var d := r.chain[0].rrset[0].rdata;
       d.Ds? && d.digestType in {1, 2} && d.alg in {5, 7, 8, 10}
  }

  lemma NoBreakInSigned(name: Name, skip: nat, trigger: nat, replies: seq<Reply>)
    ensures BreakShown(name, skip, trigger, replies) ==>
              exists n :: 0 <= n < |replies| && n <= skip && ShowsBreak(replies[n]) && !SignedDelegation(replies[n])
  {
    hide LeadOn, VerdictOn;
    if BreakShown(name, skip, trigger, replies) {
      var n: nat :| BreakAt(name, skip, trigger, replies, n);
      LedLength(name, skip, trigger, replies, n);
      VerdictExactly(replies[n], Same(DropLabels(name, skip - n), name));
    }
  }

  lemma LedLength(name: Name, skip: nat, trigger: nat, replies: seq<Reply>, n: nat)
    requires LeadOn(name, skip, trigger, replies, n)
    ensures n <= skip
  {
  }

  /**
   * The questions so far: for the name with `first` - 1 labels skipped, then one fewer each time, and
   * none of a name beyond the trigger.
   */
  ghost predicate Walked(name: Name, asked: seq<Name>, first: nat, skip: nat, trigger: nat) {
    && first < 256 && |asked| + skip == first
    && (forall i :: 0 <= i < |asked| ==>
          asked[i] == DropLabels(name, first - 1 - i) && |asked[i]| <= trigger)
  }

  lemma WalkBegins(name: Name, first: nat, trigger: nat)
    requires first < 256
    ensures Walked(name, [], first, first, trigger)
  {
  }

  lemma WalkOn(name: Name, asked: seq<Name>, first: nat, skip: nat, trigger: nat)
    requires Walked(name, asked, first, skip, trigger) && skip > 0
    requires |DropLabels(name, skip - 1)| <= trigger
    ensures Walked(name, asked + [DropLabels(name, skip - 1)], first, skip - 1, trigger)
  {
  }

  /** With nothing left to skip, the name asked for is the name in question. */
  lemma WalkedToName(name: Name, asked: seq<Name>, first: nat, skip: nat, trigger: nat)
    requires Walked(name, asked, first, skip, trigger) && asked != []
    ensures skip < first
    ensures skip == 0 ==> asked[|asked| - 1] == name
  {
    assert asked[|asked| - 1] == DropLabels(name, skip);
  }

  /**
   * From an anchor that has no more labels than the name -- a suffix of it in particular -- every
   * name asked for is longer by one label than the one before, and a suffix of the name; and only then:
   * below a longer anchor, which the choice of the anchor does not rule out, `skip` wraps around and
   * the first two questions are both for the root.
   */
  lemma NamesGrow(name: Name, asked: seq<Name>, zone: Name, skip: nat, trigger: nat)
    requires |name| < 128 && |zone| < 128 && |asked| >= 2
    requires Walked(name, asked, (|name| - |zone|) % 256, skip, trigger)
    ensures |zone| <= |name| <==> forall i :: 0 <= i < |asked| - 1 ==> |asked[i + 1]| == |asked[i]| + 1
    ensures |zone| <= |name| ==> |asked[0]| == |zone| + 1
  {
    var first := (|name| - |zone|) % 256;
    FirstSkip(|name|, |zone|);
    forall i | 0 <= i < |asked| ensures |asked[i]| == if first - 1 - i < |name| then |name| - (first - 1 - i) else 0 {
      AskedLength(name, asked, first, skip, trigger, i);
    }
    hide Walked;
    if |zone| > |name| { assert |asked[0]| == |asked[0 + 1]| == 0; }
  }

  lemma FirstSkip(n: nat, z: nat)
    requires n < 128 && z < 128
    ensures (n - z) % 256 == if z <= n then n - z else n - z + 256
  {
  }

  lemma AskedLength(name: Name, asked: seq<Name>, first: nat, skip: nat, trigger: nat, i: nat)
    requires Walked(name, asked, first, skip, trigger) && i < |asked|
    ensures i < first && |asked[i]| == if first - 1 - i < |name| then |name| - (first - 1 - i) else 0
  {
    assert asked[i] == DropLabels(name, first - 1 - i);
  }

  class Proof {
    const anchors: seq<TrustAnchor>
    const origName: Name
    /** The chain of the verifier the proof is for, and the one put aside while the proof goes on. */
    var ac: seq<AuthElement>
    var saveac: seq<AuthElement>
    var skip: nat
    var triggerLabelCount: nat
    var qName: Name
    var asking: bool
    var results: seq<Status>
    /** The names asked for so far, and the value `skip` had before the first question. */
    ghost var asked: seq<Name>
    ghost var first: nat
    ghost const before: seq<AuthElement>

    ghost predicate Valid()
      reads this
    {
      && Walked(origName, asked, first, skip, triggerLabelCount)
      && (asking ==> results == [] && asked != [] && qName == asked[|asked| - 1] && saveac == before)
      && (!asking ==> results == [DnssecVerifier.Insecure] || (results == [DnssecVerifier.Bogus] && ac == before))
    }

    method Deliver(status: Status)
      requires status == DnssecVerifier.Insecure || status == DnssecVerifier.Bogus
      requires results == [] && saveac == before && Walked(origName, asked, first, skip, triggerLabelCount)
      modifies this`ac, this`saveac, this`asking, this`results
      ensures Valid() && !asking && results == [status] && saveac == []
      ensures status == DnssecVerifier.Insecure ==> ac == old(ac)
    {
      // a bogus result restores the chain the verifier had before the proof
      if status == DnssecVerifier.Bogus { ac := saveac; }
      saveac := [];
      results, asking := results + [status], false;
    }

    /** How a proof begins: without an anchor, at the anchor, beyond the trigger or with a question. */
    ghost predicate Begun(ta: Option<TrustAnchor>)
      reads this
    {
      if ta.None? then !asking && results == [DnssecVerifier.Insecure] && asked == []
      else
        && first == (|origName| - |ta.value.zone|) % 256
        && if first == 0 || |DropLabels(origName, first - 1)| > triggerLabelCount
           then !asking && results == [DnssecVerifier.Bogus]
           else asking && ac == [] && asked == [DropLabels(origName, first - 1)]
    }

    /** ProveInsecure for a proof that begins. */
    constructor (anchors: seq<TrustAnchor>, name: Name, chain: seq<AuthElement>, trigger: Option<Name>, now: nat)
      requires |name| < 128 && forall ta :: ta in anchors ==> |ta.zone| < 128
      ensures Valid() && this.anchors == anchors && origName == name && before == chain
      ensures triggerLabelCount == if trigger.Some? then |trigger.value| else |name|
      ensures Begun(AnchorFor(anchors, name, now))
    {
      hide AnchorFor, Walked, DropLabels;
      this.anchors, origName := anchors, name;
      ac, saveac, before := [], chain, chain;
      triggerLabelCount := if trigger.Some? then |trigger.value| else |name|;
      asked, results, asking, qName := [], [], false, [];
      skip, first := 0, 0;
      new;
      WalkBegins(name, 0, triggerLabelCount);
      var ta := FindTrustAnchor(anchors, name, now);
      if ta == None {
        Deliver(DnssecVerifier.Insecure);
      } else {
        skip := (|name| - |ta.value.zone|) % 256;
        first := skip;
        WalkBegins(name, first, triggerLabelCount);
        if skip == 0 {
          Deliver(DnssecVerifier.Bogus);
        } else {
          Ask();
        }
      }
    }

    /** The effect of one question more: for the name one label longer, unless that is beyond the trigger. */
    twostate predicate AskedOn(chain: seq<AuthElement>)
      requires old(skip) > 0
      reads this
    {
      var s := DropLabels(origName, old(skip) - 1);
      if |s| > triggerLabelCount
      then !asking && results == [DnssecVerifier.Bogus] && skip == old(skip) && asked == old(asked)
      else asking && skip == old(skip) - 1 && asked == old(asked) + [s] && ac == chain
    }

    /** ProveInsecure from the question on. */
    method Ask()
      requires Walked(origName, asked, first, skip, triggerLabelCount)
      requires results == [] && saveac == before && skip > 0
      modifies this`ac, this`saveac, this`asking, this`results, this`skip, this`qName, this`asked
      ensures Valid() && AskedOn(old(ac))
    {
      hide Walked;
      // the code has a case for a zero skip here; it does not arise
      var sname := DropLabels(origName, skip - 1);
      if |sname| > triggerLabelCount { Deliver(DnssecVerifier.Bogus); return; }
      WalkOn(origName, asked, first, skip, triggerLabelCount);
      skip, qName, asking := skip - 1, sname, true;
      asked := asked + [sname];
    }

    /** ProveInsecureCallback: each reply ends the proof or leads to one question more, `skip` going down. */
    method Answer(r: Reply)
      requires Valid() && asking
      modifies this`ac, this`saveac, this`asking, this`results, this`skip, this`qName, this`asked
      ensures Valid()
      ensures match VerdictOn(r, Same(old(qName), origName))
              case Ends(status) =>
                && !asking && results == [status] && asked == old(asked)
                && (status == DnssecVerifier.Insecure ==> ac == old(ac) + r.chain)
              case OneMore => old(skip) > 0 && AskedOn(old(ac) + r.chain)
      ensures results == [DnssecVerifier.Insecure] <==> ShowsBreak(r)
    {
      ghost var v := VerdictOn(r, Same(qName, origName));
      VerdictExactly(r, Same(qName, origName));
      VerdictIs(r, Same(qName, origName));
      hide Walked, Same, AlgorithmSupported, ShowsBreak, LeadsDown, VerdictOn;
      WalkedToName(origName, asked, first, skip, triggerLabelCount);
      SameReflexive(origName);
      if r.timedOut { Deliver(DnssecVerifier.Bogus); return; }
      if r.status != DnssecVerifier.Secure && r.status != DnssecVerifier.Insecure {
        Deliver(DnssecVerifier.Bogus);
        return;
      }
      if r.chain == [] || r.chain[0].rrset == [] { Deliver(DnssecVerifier.Bogus); return; }
      var rr := r.chain[0].rrset[0];
      var t := rr.Type();
      if t != TYPE_DS && t != TYPE_NSEC && t != TYPE_NSEC3 { Deliver(DnssecVerifier.Bogus); return; }
      ac := ac + r.chain;
      if t == TYPE_DS {
        if !AlgorithmSupported(rr) { Deliver(DnssecVerifier.Insecure); return; }
        if Same(qName, origName) { Deliver(DnssecVerifier.Bogus); return; }
        Ask();
      } else {
        if r.delegation { Deliver(DnssecVerifier.Insecure); return; }
        if !Same(qName, origName) {
          Ask();
        } else {
          Deliver(DnssecVerifier.Bogus);
        }
      }
    }

    /**
     * Any run of replies.  At most one result comes out, Insecure or Bogus, and it has come out once
     * there were as many replies as labels to skip.  It is Insecure if and only if some reply shows the
     * break and each one before it leads on to a name within the trigger.
     */
    method Run(replies: seq<Reply>)
      requires Valid() && asking
      modifies this`ac, this`saveac, this`asking, this`results, this`skip, this`qName, this`asked
      ensures Valid() && (asking ==> |replies| + skip == old(skip))
      ensures |replies| > old(skip) ==> !asking
      ensures results == [DnssecVerifier.Insecure] <==> BreakShown(origName, old(skip), triggerLabelCount, replies)
      ensures results == [DnssecVerifier.Insecure] ==> exists n :: 0 <= n < |replies| && ShowsBreak(replies[n])
      ensures (forall n :: 0 <= n < |replies| ==> SignedDelegation(replies[n])) ==> DnssecVerifier.Insecure !in results
      ensures asking ==> LeadOn(origName, old(skip), triggerLabelCount, replies, |replies|)
      ensures (forall n :: 0 <= n < |replies| ==> SignedDelegation(replies[n]) && !replies[n].timedOut) &&
              |replies| <= old(skip) < |origName| <= triggerLabelCount ==>
                asking && qName == DropLabels(origName, old(skip) - |replies|)
    {
      hide Walked, Same, VerdictOn, LeadOn, BreakShown, DropLabels, ShowsBreak, SignedDelegation;
      var i := 0;
      AskedIs();
      NothingLed(origName, skip, triggerLabelCount, replies);
      while i < |replies| && asking
        invariant Valid() && 0 <= i <= |replies|
        invariant asking ==> i + skip == old(skip) && qName == DropLabels(origName, skip)
        invariant asking ==> LeadOn(origName, old(skip), triggerLabelCount, replies, i)
        invariant !asking ==>
            (results == [DnssecVerifier.Insecure] <==> BreakShown(origName, old(skip), triggerLabelCount, replies))
        invariant ((forall n :: 0 <= n < |replies| ==> SignedDelegation(replies[n]) && !replies[n].timedOut) &&
                   |replies| <= old(skip) < |origName| <= triggerLabelCount) ==>
                    asking
      {
        SignedLeadsOn(replies[i], qName, skip, origName, triggerLabelCount);
        Answer(replies[i]);
        if asking {
          AskedIs();
          LedOn(origName, old(skip), triggerLabelCount, replies, i);
        } else {
          BreakExactly(origName, old(skip), triggerLabelCount, replies, i);
        }
        i := i + 1;
      }
      if asking { NoBreakYet(origName, old(skip), triggerLabelCount, replies); }
      NoBreakInSigned(origName, old(skip), triggerLabelCount, replies);
    }

    /** Without a trigger a proof begins with a question unless there is no anchor or it is no shorter. */
    lemma BegunAt(ta: Option<TrustAnchor>)
      requires Valid() && Begun(ta) && triggerLabelCount == |origName|
      ensures ta.None? ==> !asking && results == [DnssecVerifier.Insecure]
      ensures ta.Some? ==>
                var k := (|origName| - |ta.value.zone|) % 256;
                if k == 0 then !asking && results == [DnssecVerifier.Bogus] else asking && skip == k - 1
    {
      if ta.Some? && (|origName| - |ta.value.zone|) % 256 > 0 {
        FirstQuestion(ta.value, (|origName| - |ta.value.zone|) % 256);
      }
    }

    lemma FirstQuestion(ta: TrustAnchor, k: nat)
      requires Valid() && Begun(Some(ta)) && k == (|origName| - |ta.zone|) % 256 > 0
      requires |DropLabels(origName, k - 1)| <= triggerLabelCount
      ensures asking && asked == [DropLabels(origName, k - 1)] && qName == asked[0] && skip == k - 1
    {
      hide DropLabels;
    }

    lemma AskedIs()
      requires Valid() && asking
      ensures qName == DropLabels(origName, skip)
    {
    }
  }

  /** A signed delegation above the name leads on, and the next name is within the labels of the name. */
  lemma SignedLeadsOn(r: Reply, qName: Name, skip: nat, name: Name, trigger: nat)
    ensures SignedDelegation(r) && !r.timedOut && qName == DropLabels(name, skip) && 0 < skip < |name| ==>
              VerdictOn(r, Same(qName, name)) == OneMore
    ensures 0 < skip && |name| <= trigger ==> |DropLabels(name, skip - 1)| <= trigger
  {
    if SignedDelegation(r) && 0 < skip < |name| {
      var above := DropLabels(name, skip);
      assert |Lower(above)| < |Lower(name)|;
      assert !Same(above, name);
      VerdictExactly(r, false);
    }
  }

  /** The verdict on a reply that comes when `skip` labels are still to be skipped. */
  function VerdictAt(name: Name, skip: nat, r: Reply): Verdict {
    VerdictOn(r, Same(DropLabels(name, skip), name))
  }

  /** The reply calls for one question more, and not for one beyond the trigger. */
  predicate Further(name: Name, skip: nat, trigger: nat, r: Reply) {
    skip > 0 && VerdictAt(name, skip, r) == OneMore && |DropLabels(name, skip - 1)| <= trigger
  }

  /** The first `n` replies, `skip` being what it was before them, each lead on. */
  ghost predicate LeadOn(name: Name, skip: nat, trigger: nat, replies: seq<Reply>, n: nat) {
    n <= skip && n <= |replies| && forall i :: 0 <= i < n ==> Further(name, skip - i, trigger, replies[i])
  }

  lemma NothingLed(name: Name, skip: nat, trigger: nat, replies: seq<Reply>)
    ensures LeadOn(name, skip, trigger, replies, 0)
  {
  }

  lemma LedOn(name: Name, skip: nat, trigger: nat, replies: seq<Reply>, n: nat)
    requires n < |replies| && n < skip && LeadOn(name, skip, trigger, replies, n)
    requires Further(name, skip - n, trigger, replies[n])
    ensures LeadOn(name, skip, trigger, replies, n + 1)
  {
    hide Further;
  }

  /** Reply `n` shows the break, and those before it lead to its question. */
  ghost predicate BreakAt(name: Name, skip: nat, trigger: nat, replies: seq<Reply>, n: nat) {
    n < |replies| && LeadOn(name, skip, trigger, replies, n) &&
    VerdictAt(name, skip - n, replies[n]) == Ends(DnssecVerifier.Insecure)
  }

  ghost predicate BreakShown(name: Name, skip: nat, trigger: nat, replies: seq<Reply>) {
    exists n: nat :: BreakAt(name, skip, trigger, replies, n)
  }

  lemma NoBreakYet(name: Name, skip: nat, trigger: nat, replies: seq<Reply>)
    requires LeadOn(name, skip, trigger, replies, |replies|)
    ensures !BreakShown(name, skip, trigger, replies)
  {
    hide VerdictAt;
    forall n: nat ensures !BreakAt(name, skip, trigger, replies, n) {
      assert n < |replies| ==> Further(name, skip - n, trigger, replies[n]);
    }
  }

  lemma LedThrough(name: Name, skip: nat, trigger: nat, replies: seq<Reply>, n: nat, m: nat)
    requires n < |replies| && n <= skip && n < m
    ensures LeadOn(name, skip, trigger, replies, m) ==> Further(name, skip - n, trigger, replies[n])
  {
    hide Further;
  }

  /** A walk that gets no further than reply `n` shows the break there or nowhere. */
  lemma BreakExactly(name: Name, skip: nat, trigger: nat, replies: seq<Reply>, n: nat)
    requires n < |replies| && LeadOn(name, skip, trigger, replies, n) && !Further(name, skip - n, trigger, replies[n])
    ensures BreakShown(name, skip, trigger, replies) <==>
              VerdictAt(name, skip - n, replies[n]) == Ends(DnssecVerifier.Insecure)
  {
    hide VerdictAt;
    forall m: nat | m != n ensures !BreakAt(name, skip, trigger, replies, m) {
      if m < n {
        assert Further(name, skip - m, trigger, replies[m]);
      } else {
        LedThrough(name, skip, trigger, replies, n, m);
      }
    }
    assert VerdictAt(name, skip - n, replies[n]) == Ends(DnssecVerifier.Insecure) ==>
        BreakAt(name, skip, trigger, replies, n);
  }

  /**
   * What a proof comes to that no trigger limits: Insecure if there is no anchor to start from, or if a
   * reply shows the break below the anchor and each one before it leads on.
   */
  ghost predicate ProofShows(anchors: seq<TrustAnchor>, name: Name, now: nat, replies: seq<Reply>) {
    match AnchorFor(anchors, name, now)
    case None => true
    case Some(ta) =>
      var skip := (|name| - |ta.zone|) % 256;
      skip > 0 && BreakShown(name, skip - 1, |name|, replies)
  }
}
