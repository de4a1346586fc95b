/**
 * What becomes of the result of a verification: it may start the proof of an insecure delegation,
 * and it reaches the questions only if the records that were validated are still the ones cached.
 */
module ValidationCallback {
  import opened Bytes
  import opened DomainNames
  import opened DnssecRecords
  import opened DnssecCache
  import opened DnssecChain
  import DnssecProgress
  import DnssecVerifier
  import InsecureProof

  type Status = DnssecVerifier.Status

  datatype Need = Optional | Required | ForInsecureProof

  /**
   * What is outside: which cached records answer the question that was asked first, when the data of
   * a validated record are those of a cached one, and whether a validated denial is still cached.
   */
  datatype Lookup = Lookup(
    answers: CacheRecord -> bool,
    same: (RR, CacheRecord) -> bool,
    denialStands: (Cache, seq<AuthElement>) -> bool)

  // ----- The validated set against the cached one

  /** The cached record is of the type and class that were validated. */
  predicate Comparable(rrset: seq<RR>, c: CacheRecord)
    requires rrset != []
  {
    c.Type() == rrset[0].Type() && c.Class() == rrset[0].rrclass
  }

  /** Record `j` is the first of the set with the data of the cached one. */
  predicate Finds(l: Lookup, rrset: seq<RR>, c: CacheRecord, j: nat) {
    j < |rrset| && l.same(rrset[j], c) && forall k :: 0 <= k < j ==> !l.same(rrset[k], c)
  }

  /** Each comparable record is in the validated set, and none of that set was left without a find. */
  ghost predicate SetStands(l: Lookup, rrset: seq<RR>, group: Cache)
    requires rrset != []
  {
    && (forall i :: 0 <= i < |group| && Comparable(rrset, group[i]) ==> exists r :: r in rrset && l.same(r, group[i]))
    && (forall j :: 0 <= j < |rrset| ==> FoundIn(l, rrset, group, j))
  }

  ghost predicate FoundIn(l: Lookup, rrset: seq<RR>, group: Cache, j: nat)
    requires rrset != []
  {
    exists i :: 0 <= i < |group| && Comparable(rrset, group[i]) && Finds(l, rrset, group[i], j)
  }

  /** The comparison of DNSSECPositiveValidationCB: `found` marks the validated records that were met. */
  method SameAsCached(l: Lookup, rrset: seq<RR>, group: Cache) returns (ok: bool)
    requires rrset != []
    ensures ok <==> SetStands(l, rrset, group)
  {
    var found := new bool[|rrset|](_ => false);
    for i := 0 to |group|
      invariant forall k :: 0 <= k < i && Comparable(rrset, group[k]) ==> exists r :: r in rrset && l.same(r, group[k])
      invariant forall j :: 0 <= j < |rrset| ==> (found[j] <==> FoundIn(l, rrset, group[..i], j))
    {
      FoundStep(l, rrset, group, i);
      if Comparable(rrset, group[i]) {
        var j := 0;
        while j < |rrset| && !l.same(rrset[j], group[i])
          invariant 0 <= j <= |rrset| && forall k :: 0 <= k < j ==> !l.same(rrset[k], group[i])
        {
          j := j + 1;
        }
        if j == |rrset| { return false; }
        assert rrset[j] in rrset && Finds(l, rrset, group[i], j);
        found[j] := true;
      }
    }
    assert group[..|group|] == group;
    for j := 0 to |rrset|
      invariant forall k :: 0 <= k < j ==> found[k]
    {
      if !found[j] { return false; }
    }
    return true;
  }

  lemma FoundStep(l: Lookup, rrset: seq<RR>, group: Cache, i: nat)
    requires rrset != [] && i < |group|
    ensures forall j :: 0 <= j < |rrset| ==>
              (FoundIn(l, rrset, group[..i + 1], j) <==>
               FoundIn(l, rrset, group[..i], j) || (Comparable(rrset, group[i]) && Finds(l, rrset, group[i], j)))
  {
    hide Comparable, Finds;
    forall j | 0 <= j < |rrset|
      ensures FoundIn(l, rrset, group[..i + 1], j) <==>
              FoundIn(l, rrset, group[..i], j) || (Comparable(rrset, group[i]) && Finds(l, rrset, group[i], j))
    {
      if FoundIn(l, rrset, group[..i], j) {
        var k :| 0 <= k < i && Comparable(rrset, group[..i][k]) && Finds(l, rrset, group[..i][k], j);
        assert group[..i + 1][k] == group[k];
      }
      if Comparable(rrset, group[i]) && Finds(l, rrset, group[i], j) { assert group[..i + 1][i] == group[i]; }
    }
  }

  /**
   * With data compared by equality and no record twice, the sets agree if and only if the validated
   * records are exactly the comparable ones in the cache.
   */
  lemma StandsIsEqual(l: Lookup, rrset: seq<RR>, group: Cache)
    requires rrset != [] && forall r: RR, c: CacheRecord :: l.same(r, c) <==> c.Positive? && c.rr == r
    requires forall j, k :: 0 <= j < k < |rrset| ==> rrset[j] != rrset[k]
    requires forall r :: r in rrset ==> r.Type() == rrset[0].Type() && r.rrclass == rrset[0].rrclass
    ensures SetStands(l, rrset, group) <==>
              (forall c :: c in group && c.Type() == rrset[0].Type() && c.Class() == rrset[0].rrclass ==>
                             c.Positive? && c.rr in rrset) &&
              (forall r :: r in rrset ==> exists c :: c in group && c.Positive? && c.rr == r)
  {
    if forall r :: r in rrset ==> exists c :: c in group && c.Positive? && c.rr == r {
      forall j | 0 <= j < |rrset| ensures FoundIn(l, rrset, group, j) {
        assert rrset[j] in rrset;
        var c :| c in group && c.Positive? && c.rr == rrset[j];
        var i :| 0 <= i < |group| && group[i] == c;
        assert Comparable(rrset, group[i]) && Finds(l, rrset, group[i], j);
      }
    }
    if SetStands(l, rrset, group) {
      forall r | r in rrset ensures exists c :: c in group && c.Positive? && c.rr == r {
        var j :| 0 <= j < |rrset| && rrset[j] == r;
        assert FoundIn(l, rrset, group, j);
      }
    }
  }

  // ----- The callback

  /** The record that answers comes first among those of the name that do. */
  predicate FirstAnswer(l: Lookup, group: Cache, i: nat) {
    i < |group| && l.answers(group[i]) && forall k :: 0 <= k < i ==> !l.answers(group[k])
  }

  /** Some record of the name answers the question, and what was validated is what is cached. */
  ghost predicate Stands(l: Lookup, group: Option<Cache>, chain: seq<AuthElement>, status: Status) {
    group.Some? && exists i :: FirstAnswer(l, group.value, i) && Unchanged(l, group.value, i, chain, status)
  }

  ghost predicate Unchanged(l: Lookup, group: Cache, i: nat, chain: seq<AuthElement>, status: Status)
    requires i < |group|
  {
    // for Insecure the chain starts from the anchor, and has nothing to do with the set
    chain != [] && status != DnssecVerifier.Insecure ==>
      chain[0].rrset != [] &&
      if group[i].Positive? then SetStands(l, chain[0].rrset, group) else l.denialStands(group, chain)
  }

  lemma OneFirst(l: Lookup, group: Cache, i: nat, chain: seq<AuthElement>, status: Status)
    requires FirstAnswer(l, group, i)
    ensures Stands(l, Some(group), chain, status) <==> Unchanged(l, group, i, chain, status)
  {
    hide Unchanged;
    forall k: nat | FirstAnswer(l, group, k) ensures k == i {
    }
  }

  /** DNSSECValidationCB as far as results go. */
  class Callback {
    const need: Need
    const lookup: Lookup
    var insecureProofDone: bool
    /** Proofs started, and the results that reached the questions. */
    var proofs: nat
    var reported: seq<Status>
    var noResponse: bool
    /** The verifier is given back. */
    var freed: bool

    constructor (need: Need, lookup: Lookup)
      ensures this.need == need && this.lookup == lookup
      ensures !insecureProofDone && proofs == 0 && reported == [] && !noResponse && !freed
    {
      this.need, this.lookup := need, lookup;
      insecureProofDone, proofs, reported, noResponse, freed := false, 0, [], false, false;
    }

    ghost predicate Valid()
      reads this
    {
      && proofs == (if insecureProofDone then 1 else 0)
      && (insecureProofDone ==> need == Required)
    }

    /** DNSSECPositiveValidationCB and DNSSECNegativeValidationCB: report unless the cache has changed. */
    method Compare(status: Status, group: Cache, i: nat, chain: seq<AuthElement>)
      requires i < |group|
      modifies this`reported, this`freed
      ensures freed
      ensures reported == old(reported) + if Unchanged(lookup, group, i, chain, status) then [status] else []
    {
      freed := true;
      if chain != [] && status != DnssecVerifier.Insecure {
        if chain[0].rrset == [] { return; }
        if group[i].Positive? {
          var same := SameAsCached(lookup, chain[0].rrset, group);
          if !same { return; }
        } else {
          if !lookup.denialStands(group, chain) { return; }
        }
      }
      reported := reported + [status];
    }

    /**
     * The caller is the verifier, and then, if a proof was started, the proof; `group` holds the
     * cached records of the name, if there are any.
     */
    method Result(status: Status, group: Option<Cache>, chain: seq<AuthElement>)
      requires Valid()
      modifies this`insecureProofDone, this`proofs, this`reported, this`noResponse, this`freed
      ensures Valid()
      ensures if need == Optional && status != DnssecVerifier.Secure then
                noResponse && reported == old(reported) && proofs == old(proofs) && freed
              else if need == Required && !old(insecureProofDone) && status == DnssecVerifier.Bogus then
                reported == old(reported) && proofs == old(proofs) + 1 == 1 && insecureProofDone && freed == old(freed)
              else
                && proofs == old(proofs)
                && reported == old(reported) + (if Stands(lookup, group, chain, status) then [status] else [])
                && (freed <==> old(freed) || group.None? || exists c :: c in group.value && lookup.answers(c))
    {
      hide Stands, Unchanged;
      if need == Optional && status != DnssecVerifier.Secure {
        noResponse, freed := true, true;
        return;
      }
      if need == Required && !insecureProofDone && status == DnssecVerifier.Bogus {
        insecureProofDone, proofs := true, proofs + 1;
        return;
      }
      if group == None {
        NothingStands(lookup, group, chain, status);
        freed := true;
        return;
      }
      var i := 0;
      while i < |group.value| && !lookup.answers(group.value[i])
        invariant 0 <= i <= |group.value| && forall k :: 0 <= k < i ==> !lookup.answers(group.value[k])
      {
        i := i + 1;
      }
      if i == |group.value| {
        // the walk ends without a word, and the verifier is not given back
        NothingStands(lookup, group, chain, status);
        return;
      }
      assert group.value[i] in group.value;
      OneFirst(lookup, group.value, i, chain, status);
      Compare(status, group.value, i, chain);
    }
  }

  lemma NothingStands(l: Lookup, group: Option<Cache>, chain: seq<AuthElement>, status: Status)
    requires group.Some? ==> forall c :: c in group.value ==> !l.answers(c)
    ensures !Stands(l, group, chain, status)
  {
    hide Unchanged;
    if group.Some? {
      forall i: nat | i < |group.value| ensures !FirstAnswer(l, group.value, i) {
        assert group.value[i] in group.value;
      }
    }
  }

  /**
   * A verification that ends with `status`, its proof if there is one fed with any replies.  With
   * validation required at most one result is reported: the one the verification, or else the proof,
   * comes to, provided that what it validated still stands in the cache, and only then.  A bogus
   * verification is never made secure, and without a break shown it stays bogus with its own chain.
   */
  method ReportAtMostOnce(
    l: Lookup, status: Status, anchors: seq<TrustAnchor>, name: Name, chain: seq<AuthElement>, now: nat,
    replies: seq<InsecureProof.Reply>, group: Option<Cache>, later: Option<Cache>)
    returns (reported: seq<Status>, proofs: nat, result: Status, ac: seq<AuthElement>)
    requires |name| < 128 && forall ta :: ta in anchors ==> |ta.zone| < 128
    requires |replies| >= 256
    ensures proofs == if status == DnssecVerifier.Bogus then 1 else 0
    ensures status != DnssecVerifier.Bogus ==> result == status && ac == chain
    ensures status == DnssecVerifier.Bogus ==>
              result == DnssecVerifier.Insecure || (result == DnssecVerifier.Bogus && ac == chain)
    ensures status == DnssecVerifier.Bogus ==>
              (result == DnssecVerifier.Insecure <==> InsecureProof.ProofShows(anchors, name, now, replies))
    ensures reported ==
            if Stands(l, if proofs == 1 then later else group, ac, result) then [result] else []
  {
    hide InsecureProof.AnchorFor, InsecureProof.BreakShown, Stands;
    var cb := new Callback(Required, l);
    cb.Result(status, group, chain);
    result, ac := status, chain;
    if cb.proofs == 1 {
      var p := new InsecureProof.Proof(anchors, name, chain, None, now);
      p.BegunAt(InsecureProof.AnchorFor(anchors, name, now));
      if p.asking { p.Run(replies); }
      result, ac := p.results[0], p.ac;
      cb.Result(result, later, ac);
    }
    reported, proofs := cb.reported, cb.proofs;
  }

  /** The question is answered, and if it is by records, then by no others than those of the set. */
  ghost predicate Answered(l: Lookup, group: Option<Cache>, rrset: seq<RR>) {
    group.Some? && rrset != [] &&
    exists i: nat :: FirstAnswer(l, group.value, i) && (group.value[i].Positive? ==> SetStands(l, rrset, group.value))
  }

  /**
   * From the callbacks to the report: a Secure result that is reported for cached records means that
   * each cached record of the type and class is one of a set that is linked up to an anchor, and that
   * nothing of that set has gone from the cache.
   */
  method VerifyAndReport(v: DnssecVerifier.Verifier, events: seq<DnssecVerifier.Event>, l: Lookup, group: Option<Cache>)
    returns (reported: seq<Status>)
    requires v.Valid() && v.mode != DnssecVerifier.Idle
    modifies v
    ensures v.Valid() && v.begun == old(v.begun) && |v.delivered| <= 1
    ensures reported ==
            if v.delivered != [] && v.delivered[0] != DnssecVerifier.Bogus && Stands(l, group, v.ac, v.delivered[0])
            then v.delivered else []
    ensures reported == [] || reported == [DnssecVerifier.Secure]
    ensures DnssecVerifier.Secure in reported ==>
              SecureChain(v.w, v.First(), v.ac, v.links, v.moments, v.securedAt) && Answered(l, group, v.First())
  {
    hide DnssecVerifier.Verifier.Valid, SecureChain, Stands, SetStands, DnssecProgress.Reaches, Answered;
    v.Run(events);
    reported := [];
    if v.delivered == [] { return; }
    var cb := new Callback(Required, l);
    cb.Result(v.delivered[0], group, v.ac);
    reported := cb.reported;
    assert v.delivered[0] in v.delivered && v.delivered == [v.delivered[0]];
    if DnssecVerifier.Secure in reported {
      assert DnssecVerifier.Secure in v.delivered;
      SecureStands(v.w, v.First(), v.ac, v.links, v.moments, v.securedAt, l, group);
    }
  }

  lemma SecureStands(w: World, first: seq<RR>, chain: seq<AuthElement>, links: seq<Link>, moments: set<Moment>,
                     at: Moment,
                     l: Lookup, group: Option<Cache>)
    requires SecureChain(w, first, chain, links, moments, at) && Stands(l, group, chain, DnssecVerifier.Secure)
    ensures Answered(l, group, first)
  {
    hide SetStands, Anchored;
    assert chain != [] && chain[0].rrset == first && ElementVerified(w, chain[0]) by {
      hide ElementVerified, VouchedOver;
    }
    hide SecureChain, FirstAnswer;
    var i: nat :|
      i < |group.value| && FirstAnswer(l, group.value, i) &&
      Unchanged(l, group.value, i, chain, DnssecVerifier.Secure);
  }
}
