/**
 * The cache as the DNSSEC verifier sees it: what each walk over the records of a name collects, and
 * which records answer a question.
 */
module DnssecCache {
  import opened Bytes
  import opened DomainNames
  import opened DnssecRecords

  /** A cached record; a negative one says that name and type do not exist. */
  datatype CacheRecord =
    | Positive(rr: RR, asked: bool)
    | Negative(name: Name, rrtype: nat, rrclass: nat, group: nat, nsec: bool, asked: bool)
  {
    function Owner(): Name { if Positive? then rr.name else name }
    function Type(): nat { if Positive? then rr.Type() else rrtype }
    function Class(): nat { if Positive? then rr.rrclass else rrclass }
    function Group(): nat { if Positive? then rr.group else group }
  }

  type Cache = seq<CacheRecord>

  // ----- What each walk over the cache group of a name collects

  predicate IsSigFor(c: CacheRecord, rv: RR, now: nat) {
    c.Positive? && c.rr.rdata.Sig? && Covers(rv, c.rr) && InWindow(c.rr, now)
  }

  /** The acceptable signatures among the records of `owner`. */
  function SigsFor(cache: Cache, owner: Name, rv: RR, now: nat): (s: seq<SigRR>) {
    if cache == [] then [] else
    var c := cache[|cache| - 1];
    SigsFor(cache[..|cache| - 1], owner, rv, now)
    + if Same(c.Owner(), owner) && IsSigFor(c, rv, now) then [c.rr] else []
  }

  /** Exactly the signatures among the owner's cached records that cover the set and are in their window. */
  lemma {:induction false} SigsForHas(cache: Cache, owner: Name, rv: RR, now: nat, s: SigRR)
    ensures s in SigsFor(cache, owner, rv, now) <==>
              Same(s.name, owner) && Covers(rv, s) && InWindow(s, now) &&
              exists i :: 0 <= i < |cache| && cache[i].Positive? && cache[i].rr == s
    decreases |cache|
  {
    hide Covers, InWindow, Same;
    if cache != [] {
      var front, c := cache[..|cache| - 1], cache[|cache| - 1];
      SigsForHas(front, owner, rv, now, s);
      if i :| 0 <= i < |front| && front[i].Positive? && front[i].rr == s { assert cache[i] == front[i]; }
      if i :| 0 <= i < |cache| && cache[i].Positive? && cache[i].rr == s {
        if i < |front| { assert front[i] == cache[i]; }
      }
    }
  }

  lemma SigsForNext(cache: Cache, i: nat, owner: Name, rv: RR, now: nat)
    requires i < |cache|
    ensures SigsFor(cache[..i + 1], owner, rv, now) ==
            SigsFor(cache[..i], owner, rv, now)
            + if Same(cache[i].Owner(), owner) && IsSigFor(cache[i], rv, now) then [cache[i].rr] else []
  {
    hide IsSigFor, Same;
    assert cache[..i + 1][..i] == cache[..i];
  }

  function KeysFor(cache: Cache, signer: Name): (s: seq<KeyRR>) {
    if cache == [] then [] else
    var c := cache[|cache| - 1];
    KeysFor(cache[..|cache| - 1], signer)
    + if Same(c.Owner(), signer) && c.Positive? && c.rr.rdata.Key? && Same(signer, c.rr.name) then [c.rr] else []
  }

  /** Exactly the cached keys of the signer's name. */
  lemma {:induction false} KeysForHas(cache: Cache, signer: Name, k: KeyRR)
    ensures k in KeysFor(cache, signer) <==>
              Same(signer, k.name) && exists i :: 0 <= i < |cache| && cache[i].Positive? && cache[i].rr == k
    decreases |cache|
  {
    SameBothWays(signer, k.name);
    hide Same;
    if cache != [] {
      var front, c := cache[..|cache| - 1], cache[|cache| - 1];
      KeysForHas(front, signer, k);
      if i :| 0 <= i < |front| && front[i].Positive? && front[i].rr == k { assert cache[i] == front[i]; }
      if i :| 0 <= i < |cache| && cache[i].Positive? && cache[i].rr == k {
        if i < |front| { assert front[i] == cache[i]; }
      }
    }
  }

  lemma SameBothWays(m: Name, n: Name)
    ensures Same(m, n) <==> Same(n, m)
  {
  }

  /** CheckOneDSForKey: the record once for every key with its tag and algorithm. */
  function DsForKeys(d: DsRR, keys: seq<KeyRR>): (s: seq<DsRR>) {
    if keys == [] then [] else
    var k := keys[|keys| - 1];
    DsForKeys(d, keys[..|keys| - 1])
    + if Tag(k) == d.rdata.keyTag && KeyAlg(k) == d.rdata.alg then [d] else []
  }

  function DsFor(cache: Cache, signer: Name, keys: seq<KeyRR>): (s: seq<DsRR>) {
    if cache == [] then [] else
    var c := cache[|cache| - 1];
    var rest := DsFor(cache[..|cache| - 1], signer, keys);
    if Same(c.Owner(), signer) && c.Positive? && c.rr.rdata.Ds? && Same(signer, c.rr.name)
    then rest + DsForKeys(c.rr, keys)
    else rest
  }

  /** A DS record is taken once for each key with its tag and algorithm. */
  lemma {:induction false} DsForKeysCount(d: DsRR, keys: seq<KeyRR>)
    ensures |DsForKeys(d, keys)| == |MatchingKeys(d, keys)|
    ensures forall k :: k in MatchingKeys(d, keys) <==>
                        k in keys && Tag(k) == d.rdata.keyTag && KeyAlg(k) == d.rdata.alg
  {
    hide Tag, KeyAlg;
    if keys != [] { DsForKeysCount(d, keys[..|keys| - 1]); }
  }

  function MatchingKeys(d: DsRR, keys: seq<KeyRR>): seq<KeyRR> {
    if keys == [] then [] else
    var k := keys[|keys| - 1];
    MatchingKeys(d, keys[..|keys| - 1]) + if Tag(k) == d.rdata.keyTag && KeyAlg(k) == d.rdata.alg then [k] else []
  }

  /** Exactly the signer's cached DS records for which there is such a key. */
  lemma {:induction false} DsForHas(cache: Cache, signer: Name, keys: seq<KeyRR>, d: DsRR)
    ensures d in DsFor(cache, signer, keys) <==>
              Same(signer, d.name) && (exists k :: k in keys && Tag(k) == d.rdata.keyTag && KeyAlg(k) == d.rdata.alg) &&
              exists i :: 0 <= i < |cache| && cache[i].Positive? && cache[i].rr == d
    decreases |cache|
  {
    SameBothWays(signer, d.name);
    hide Same, Tag, KeyAlg;
    if cache != [] {
      var front, c := cache[..|cache| - 1], cache[|cache| - 1];
      DsForHas(front, signer, keys, d);
      if i :| 0 <= i < |front| && front[i].Positive? && front[i].rr == d { assert cache[i] == front[i]; }
      if i :| 0 <= i < |cache| && cache[i].Positive? && cache[i].rr == d {
        if i < |front| { assert front[i] == cache[i]; }
      }
      if c.Positive? && c.rr.rdata.Ds? {
        DsForKeysOnly(c.rr, keys);
        DsForKeysCount(c.rr, keys);
        if c.rr == d && DsForKeys(d, keys) != [] {
          assert MatchingKeys(d, keys)[0] in MatchingKeys(d, keys);
          assert DsForKeys(d, keys)[0] in DsForKeys(d, keys);
        }
      }
    }
  }

  lemma {:induction false} SigsCover(cache: Cache, owner: Name, rv: RR, now: nat)
    ensures forall s :: s in SigsFor(cache, owner, rv, now) ==> Covers(rv, s)
  {
    hide Covers;
    if cache != [] { SigsCover(cache[..|cache| - 1], owner, rv, now); }
  }

  lemma {:induction false} KeysBelong(cache: Cache, signer: Name)
    ensures forall k :: k in KeysFor(cache, signer) ==> Same(signer, k.name)
  {
    if cache != [] { KeysBelong(cache[..|cache| - 1], signer); }
  }

  lemma {:induction false} DsForKeysOnly(d: DsRR, keys: seq<KeyRR>)
    ensures forall r :: r in DsForKeys(d, keys) ==> r == d
  {
    if keys != [] { DsForKeysOnly(d, keys[..|keys| - 1]); }
  }

  /** The records are cached records of the signer's name. */
  ghost predicate DsFromCache(ds: seq<DsRR>, cache: Cache, signer: Name) {
    forall d :: d in ds ==>
        Same(signer, d.name) && exists i :: 0 <= i < |cache| && cache[i].Positive? && cache[i].rr == d
  }

  lemma {:induction false} DsCached(cache: Cache, signer: Name, keys: seq<KeyRR>)
    ensures DsFromCache(DsFor(cache, signer, keys), cache, signer)
  {
    if cache != [] {
      var front, c := cache[..|cache| - 1], cache[|cache| - 1];
      DsCached(front, signer, keys);
      forall d | d in DsFor(front, signer, keys)
        ensures Same(signer, d.name) && exists i :: 0 <= i < |cache| && cache[i].Positive? && cache[i].rr == d
      {
        var i :| 0 <= i < |front| && front[i].Positive? && front[i].rr == d;
        assert cache[i] == front[i];
      }
      if c.Positive? && c.rr.rdata.Ds? { DsForKeysOnly(c.rr, keys); }
    }
  }

  predicate AllSupported(ds: seq<DsRR>) {
    forall d :: d in ds ==> DigestSupported(d.rdata.digestType)
  }

  predicate IsNegative(c: CacheRecord, owner: Name, rrtype: nat) {
    c.Negative? && c.rrtype == rrtype && Same(c.Owner(), owner)
  }

  function FirstNegative(cache: Cache, owner: Name, rrtype: nat): (r: Option<CacheRecord>)
    ensures r.Some? ==> r.value.Negative?
  {
    if cache == [] then None
    else
      var r := FirstNegative(cache[..|cache| - 1], owner, rrtype);
      if r.Some? then r
      else if IsNegative(cache[|cache| - 1], owner, rrtype) then Some(cache[|cache| - 1]) else None
  }

  /** It is the first negative record of the name and type, if there is one. */
  lemma {:induction false} FirstNegativeIs(cache: Cache, owner: Name, rrtype: nat)
    ensures var r := FirstNegative(cache, owner, rrtype);
            if r.None? then forall i :: 0 <= i < |cache| ==> !IsNegative(cache[i], owner, rrtype)
            else exists i :: 0 <= i < |cache| && cache[i] == r.value && IsNegative(cache[i], owner, rrtype) &&
                             forall j :: 0 <= j < i ==> !IsNegative(cache[j], owner, rrtype)
    decreases |cache|
  {
    hide IsNegative;
    if cache != [] {
      var front := cache[..|cache| - 1];
      FirstNegativeIs(front, owner, rrtype);
      assert forall j :: 0 <= j < |front| ==> front[j] == cache[j];
    }
  }

  lemma NothingYet(owner: Name, rv: RR, now: nat, rrtype: nat)
    ensures SigsFor([], owner, rv, now) == [] && FirstNegative([], owner, rrtype) == None
  {
  }

  lemma FirstNegativeNext(cache: Cache, i: nat, owner: Name, rrtype: nat)
    requires i < |cache|
    ensures var r := FirstNegative(cache[..i], owner, rrtype);
            FirstNegative(cache[..i + 1], owner, rrtype) ==
            if r.Some? then r else if IsNegative(cache[i], owner, rrtype) then Some(cache[i]) else None
  {
    hide IsNegative;
    assert cache[..i + 1][..i] == cache[..i];
  }

  /** Whether signatures should be in the cache already: the last record of the type was asked for with DO set. */
  function SigsDue(cache: Cache, owner: Name, rrtype: nat): bool {
    if cache == [] then false
    else if Same(cache[|cache| - 1].Owner(), owner) && cache[|cache| - 1].Type() == rrtype then cache[|cache| - 1].asked
    else SigsDue(cache[..|cache| - 1], owner, rrtype)
  }

  /** It is the last cached record of the owner and the type that decides. */
  lemma {:induction false} SigsDueIs(cache: Cache, owner: Name, rrtype: nat)
    ensures SigsDue(cache, owner, rrtype) <==>
              exists i :: 0 <= i < |cache| && cache[i].asked &&
                          Same(cache[i].Owner(), owner) && cache[i].Type() == rrtype &&
                          forall j :: i < j < |cache| ==> !(Same(cache[j].Owner(), owner) && cache[j].Type() == rrtype)
    decreases |cache|
  {
    hide Same;
    if cache != [] {
      var front := cache[..|cache| - 1];
      SigsDueIs(front, owner, rrtype);
      assert forall j :: 0 <= j < |front| ==> front[j] == cache[j];
    }
  }

  // ----- Answers to a validating question

  predicate Answers(w: World, c: CacheRecord, qname: Name, qtype: nat) {
    && Same(c.Owner(), qname) && c.Group() == w.serverGroup(Lower(qname)) && c.Class() == CLASS_IN
    && (c.Type() == qtype ||
        (qtype != TYPE_DS && qtype != TYPE_DNSKEY && c.Type() != TYPE_RRSIG && c.Type() != TYPE_NSEC &&
         ((c.Type() == TYPE_CNAME && c.Positive?) || (qtype == TYPE_ANY && c.Type() != TYPE_CNAME))))
  }

  /** The DS question of a name is answered by its DS records of class IN from its own server, and their denials. */
  lemma AnswersDs(w: World, c: CacheRecord, qname: Name)
    ensures Answers(w, c, qname, 43) <==>
              Same(c.Owner(), qname) && c.Type() == 43 && c.Class() == 1 && c.Group() == w.serverGroup(Lower(qname))
  {
  }

  /** Any other question also by an alias, and one for any type by everything but denial and signature records. */
  lemma AnswersOthers(w: World, c: CacheRecord, qname: Name, qtype: nat)
    requires qtype != 43 && qtype != 48
    ensures Answers(w, c, qname, qtype) <==>
              && Same(c.Owner(), qname) && c.Class() == 1 && c.Group() == w.serverGroup(Lower(qname))
              && (c.Type() == qtype || (c.Type() == 5 && c.Positive?) ||
                  (qtype == 255 && c.Type() != 5 && c.Type() != 46 && c.Type() != 47))
  {
  }

  predicate AllPositive(w: World, cache: Cache, qname: Name, qtype: nat) {
    forall i :: 0 <= i < |cache| && Answers(w, cache[i], qname, qtype) ==> cache[i].Positive?
  }

  /** The first negative record that answers. */
  function FirstDenial(w: World, cache: Cache, qname: Name, qtype: nat): (r: Option<CacheRecord>)
    ensures r.Some? ==> r.value.Negative?
    ensures r == None <==> AllPositive(w, cache, qname, qtype)
  {
    if cache == [] then None
    else
      var r := FirstDenial(w, cache[..|cache| - 1], qname, qtype);
      if r.Some? then r
      else if Answers(w, cache[|cache| - 1], qname, qtype) && cache[|cache| - 1].Negative?
      then Some(cache[|cache| - 1]) else None
  }

  function AnswerSet(w: World, cache: Cache, qname: Name, qtype: nat): (s: seq<RR>)
    ensures forall r :: r in s ==> Same(r.name, qname)
  {
    if cache == [] then [] else
    var c := cache[|cache| - 1];
    AnswerSet(w, cache[..|cache| - 1], qname, qtype)
    + if Answers(w, c, qname, qtype) && c.Positive? then [c.rr] else []
  }

  lemma {:induction false} AnswerSetHas(w: World, cache: Cache, qname: Name, qtype: nat, i: nat)
    requires i < |cache| && Answers(w, cache[i], qname, qtype) && cache[i].Positive?
    ensures cache[i].rr in AnswerSet(w, cache, qname, qtype)
    decreases |cache|
  {
    if i < |cache| - 1 {
      AnswerSetHas(w, cache[..|cache| - 1], qname, qtype, i);
    }
  }

  /** What answers does not depend on the case of the name asked for. */
  lemma {:induction false} AnswerSetSame(w: World, cache: Cache, m: Name, n: Name, qtype: nat)
    requires Same(m, n)
    ensures AnswerSet(w, cache, m, qtype) == AnswerSet(w, cache, n, qtype)
    ensures AllPositive(w, cache, m, qtype) <==> AllPositive(w, cache, n, qtype)
    ensures FirstDenial(w, cache, m, qtype) == FirstDenial(w, cache, n, qtype)
    decreases |cache|
  {
    if cache != [] {
      AnswerSetSame(w, cache[..|cache| - 1], m, n, qtype);
    }
    assert forall c :: Answers(w, c, m, qtype) <==> Answers(w, c, n, qtype);
  }

  lemma {:induction false} AnswerSetIsDs(w: World, cache: Cache, qname: Name)
    ensures forall r :: r in AnswerSet(w, cache, qname, TYPE_DS) ==> r.Type() == TYPE_DS && Same(r.name, qname)
    decreases |cache|
  {
    if cache != [] {
      AnswerSetIsDs(w, cache[..|cache| - 1], qname);
    }
  }

  method AreSigsDue(cache: Cache, owner: Name, rrtype: nat) returns (due: bool)
    ensures due == SigsDue(cache, owner, rrtype)
  {
    due := false;
    for i := 0 to |cache|
      invariant due == SigsDue(cache[..i], owner, rrtype)
    {
      assert cache[..i + 1][..i] == cache[..i];
      if Same(cache[i].Owner(), owner) && cache[i].Type() == rrtype { due := cache[i].asked; }
    }
    assert cache[..|cache|] == cache;
  }
}
