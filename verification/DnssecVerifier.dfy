/**
 * The DNSSEC verifier: it collects the signatures, keys and DS records for a record set phase by
 * phase, out of the cache or through queries, and climbs zone by zone until it meets a trust
 * anchor.  The cache and the clock may be different at every callback.
 */
module DnssecVerifier {
  import opened Bytes
  import opened DomainNames
  import opened DnssecRecords
  import opened DnssecCache
  import opened DnssecChain
  import opened DnssecProgress

  datatype Status = Secure | Insecure | Indeterminate | Bogus

  /**
   * Dispatched: about to start.  Querying: a question is out.  Proving: handed to the NSEC code.
   * Finished: the result has been delivered.  Stalled: the recursion limit was met.
   */
  datatype Mode = Idle | Dispatched | Querying | Proving | Finished | Stalled

  datatype Err = NoError | NoSuchRecord | BadParam

  // ----- What the verifier keeps

  /** The lists belong to one another: signatures to the set, keys to their signer, signatures to the keys. */
  ghost predicate Collected(rrset: seq<RR>, rrsig: seq<SigRR>, key: seq<KeyRR>, rrsigKey: seq<SigRR>) {
    && rrset != []
    && (forall s :: s in rrsig ==> Covers(rrset[0], s))
    && (key != [] ==> rrsig != [] && forall k :: k in key ==> Same(rrsig[0].rdata.signer, k.name))
    && (rrsigKey != [] ==> key != [] && forall s :: s in rrsigKey ==> Covers(key[0], s))
  }

  lemma CollectedRrsig(rrset: seq<RR>, rrsig: seq<SigRR>, key: seq<KeyRR>, rrsigKey: seq<SigRR>, cache: Cache, now: nat)
    requires Collected(rrset, rrsig, key, rrsigKey)
    ensures rrset != []
    ensures Collected(rrset, rrsig + SigsFor(cache, rrset[0].name, rrset[0], now), key, rrsigKey)
  {
    hide Covers;
    SigsCover(cache, rrset[0].name, rrset[0], now);
  }

  lemma CollectedKey(rrset: seq<RR>, rrsig: seq<SigRR>, key: seq<KeyRR>, rrsigKey: seq<SigRR>, cache: Cache)
    requires Collected(rrset, rrsig, key, rrsigKey)
    ensures rrsig != [] ==> Collected(rrset, rrsig, key + KeysFor(cache, rrsig[0].rdata.signer), rrsigKey)
  {
    hide Covers, Same;
    if rrsig != [] { KeysBelong(cache, rrsig[0].rdata.signer); }
  }

  lemma CollectedRrsigKey(
      rrset: seq<RR>, rrsig: seq<SigRR>, key: seq<KeyRR>, rrsigKey: seq<SigRR>, cache: Cache, now: nat)
    requires Collected(rrset, rrsig, key, rrsigKey)
    ensures key != [] ==> rrsig != []
    ensures key != [] ==> Collected(rrset, rrsig, key, rrsigKey + SigsFor(cache, rrsig[0].rdata.signer, key[0], now))
  {
    hide Covers, Same;
    if key != [] { SigsCover(cache, rrsig[0].rdata.signer, key[0], now); }
  }

  lemma CollectedNone(rrset: seq<RR>)
    requires rrset != []
    ensures Collected(rrset, [], [], [])
  {
  }

  /** The chain so far is linked, and the set at hand is its start or the set that its last link leads to. */
  ghost predicate Pending(
      w: World, first: seq<RR>, ac: seq<AuthElement>, links: seq<Link>, moments: set<Moment>, rrset: seq<RR>) {
    && Linked(w, ac, links, moments) && |links| == |ac| && rrset != []
    && (ac == [] ==> rrset == first)
    && (ac != [] ==> ac[0].rrset == first && rrset == NextSet(w, links[|links| - 1]))
  }

  /** What the walks collect was in the cache and within its window. */
  lemma {:induction false} SigsTimely(cache: Cache, owner: Name, rv: RR, now: nat, front: Cache, moments: set<Moment>)
    requires front <= cache && Moment(cache, now) in moments
    ensures AllTimely(SigsFor(front, owner, rv, now), moments)
    decreases |front|
  {
    hide Covers, InWindow, Same;
    if front != [] {
      var i := |front| - 1;
      SigsTimely(cache, owner, rv, now, front[..i], moments);
      var c := front[i];
      if IsSigFor(c, rv, now) {
        assert Moment(cache, now).cache[i] == Positive(c.rr, c.asked);
      }
    }
  }

  /** So a list of timely signatures stays one when more are collected. */
  lemma StillTimely(sigs: seq<SigRR>, cache: Cache, owner: Name, rv: RR, now: nat, moments: set<Moment>)
    requires AllTimely(sigs, moments) && Moment(cache, now) in moments
    ensures AllTimely(sigs + SigsFor(cache, owner, rv, now), moments)
  {
    hide Timely, SigsFor;
    SigsTimely(cache, owner, rv, now, cache, moments);
  }

  datatype Event = Event(cache: Cache, now: nat, answer: Option<CacheRecord>, timedOut: bool)

  /** The way a phase goes on when its records have been looked up with the outcome `err`. */
  function Taken(err: Err, neg: Option<CacheRecord>, found: bool): Step
    requires neg.Some? ==> neg.value.Negative?
  {
    if err == BadParam then Fail
    else if neg.Some? && neg.value.nsec then Denied
    else if found then Go else Ask
  }

  lemma TakenIs(err: Err, neg: Option<CacheRecord>, found: bool)
    requires neg.Some? ==> neg.value.Negative?
    ensures Taken(err, neg, found) ==
            if err == BadParam then Fail
            else if neg.Some? && neg.value.nsec then Denied
            else if found then Go else Ask
  {
  }

  lemma StepTaken(err: Err, found: bool, due: bool, neg: Option<CacheRecord>)
    requires neg.Some? ==> neg.value.Negative?
    requires err == BadParam <==> (neg.Some? && found) || (neg.None? && !found && due)
    ensures Taken(err, neg, found) == StepOf(found, due, neg)
  {
  }

  /** What a resolver gets to know of the verifier: the question, what it is for, and how many went before. */
  datatype View = View(rrset: seq<RR>, next: Phase, qName: Name, qType: nat, kept: Lists, packets: nat)

  /** Nothing has come for the question, or too late. */
  predicate Silent(e: Event) {
    e.answer == None || e.timedOut
  }

  lemma SilentIs(e: Event)
    ensures Silent(e) <==> e.answer == None || e.timedOut
  {
  }

  /** The record is of the type asked for; to the DS question any is an answer. */
  predicate Answering(next: Phase, c: CacheRecord) {
    c.Positive? &&
    match next
    case NextRrsig => false
    case NextKey => c.Type() == TYPE_RRSIG
    case NextRrsigKey => c.Type() == TYPE_DNSKEY
    case NextDs => c.Type() == TYPE_RRSIG
    case Done => true
  }

  /**
   * Asked for what the cache of `goal` has, the resolver answers with a record of the type, the cache then
   * holding all that was asked for.
   */
  ghost predicate Honest(w: World, resolver: View -> Event, goal: Moment) {
    forall v: View :: v.next != NextRrsig && !Lacks(v.rrset, v.next, v.kept, goal.cache, goal.now) ==>
      GoodAnswer(w, v, resolver(v), goal)
  }

  ghost predicate GoodAnswer(w: World, v: View, e: Event, goal: Moment) {
    && Agrees(w, e.cache, e.now, goal) && !Lacks(v.rrset, v.next, v.kept, e.cache, e.now)
    && e.answer.Some? && !e.timedOut && Answering(v.next, e.answer.value)
  }

  lemma HonestMeans(w: World, resolver: View -> Event, goal: Moment, v: View)
    requires Honest(w, resolver, goal) && v.next != NextRrsig && !Lacks(v.rrset, v.next, v.kept, goal.cache, goal.now)
    ensures var e := resolver(v);
            && Agrees(w, e.cache, e.now, goal) && !Lacks(v.rrset, v.next, v.kept, e.cache, e.now)
            && e.answer.Some? && !e.timedOut && Answering(v.next, e.answer.value)
  {
    hide Agrees, Lacks, Answering;
    assert GoodAnswer(w, v, resolver(v), goal);
  }

  lemma AnsweringIs(next: Phase, c: CacheRecord)
    ensures Answering(next, c) <==>
              c.Positive? &&
              match next
              case NextRrsig => false
              case NextKey => c.Type() == TYPE_RRSIG
              case NextRrsigKey => c.Type() == TYPE_DNSKEY
              case NextDs => c.Type() == TYPE_RRSIG
              case Done => true
  {
  }

  lemma KeysAlone(c: CacheRecord)
    requires c.Positive?
    ensures c.rr.rdata.Key? <==> c.Type() == TYPE_DNSKEY
  {
  }

  lemma TypesDiffer()
    ensures TYPE_RRSIG == 46 && TYPE_DNSKEY == 48
  {
  }

  lemma RecursionLimit()
    ensures MAX_RECURSE_COUNT == 10
  {
  }

  lemma RankBound(next: Phase)
    ensures Rank(next) <= 4
  {
  }

  function MomentsOf(events: seq<Event>): set<Moment> {
    set i | 0 <= i < |events| :: Moment(events[i].cache, events[i].now)
  }

  class Verifier {
    const w: World
    const origName: Name
    const origType: nat
    var currQtype: nat
    var qName: Name
    var qType: nat
    var next: Phase
    var mode: Mode
    var rrset: seq<RR>
    var rrsig: seq<SigRR>
    var key: seq<KeyRR>
    var rrsigKey: seq<SigRR>
    var ds: seq<DsRR>
    var ac: seq<AuthElement>
    var recursed: nat
    var packets: nat
    var wildcard: bool
    /** The results handed to the callback. */
    var delivered: seq<Status>
    /** The cache the set in question was gathered from, and the moments of the callbacks since. */
    ghost var begun: Cache
    ghost var moments: set<Moment>
    /** How each element but the last was vouched for, and when a Secure result was delivered. */
    ghost var links: seq<Link>
    ghost var securedAt: Moment
    /** A check failed while an expanded answer was noted, and the note was cleared. */
    ghost var slipped: bool

    /** The record set in question. */
    ghost function First(): seq<RR>
      reads this`begun
    {
      AnswerSet(w, begun, origName, origType)
    }

    /** What the phase promises about the lists. */
    ghost predicate PhaseOk()
      reads this`next, this`rrsig, this`key, this`qName, this`qType
    {
      && (next == NextRrsigKey || next == NextDs || next == Done ==> rrsig != [])
      && (next == NextDs || next == Done ==> key != [])
      && (next == NextRrsigKey || next == NextDs ==> qType == TYPE_DNSKEY)
      && (next == Done ==> qType == TYPE_DS && Same(qName, rrsig[0].rdata.signer))
    }

    /** An element that was expanded from a wildcard has been noted, and still is unless a later check failed. */
    ghost predicate Noted()
      reads this`ac, this`wildcard, this`slipped
    {
      AnyExpanded(ac) ==> wildcard || slipped
    }

    lemma NotedIs()
      ensures Noted() <==> (AnyExpanded(ac) ==> wildcard || slipped)
      ensures ac == [] ==> Noted()
    {
      hide Expanded;
    }

    /** Where the climb has got to, nothing being delivered yet. */
    ghost predicate Grounded()
      reads this`delivered, this`recursed, this`rrset, this`ac, this`links, this`moments, this`begun
      reads this`wildcard, this`slipped
    {
      && delivered == [] && recursed == |ac| == |links| < MAX_RECURSE_COUNT && Noted()
      && Pending(w, First(), ac, links, moments, rrset)
    }

    ghost predicate Active()
      reads this
    {
      && Grounded() && Collected(rrset, rrsig, key, rrsigKey) && PhaseOk()
      && AllTimely(rrsig, moments) && AllTimely(rrsigKey, moments)
    }

    lemma ActiveIs()
      ensures Active() <==>
                Grounded() && Collected(rrset, rrsig, key, rrsigKey) && PhaseOk() &&
                AllTimely(rrsig, moments) && AllTimely(rrsigKey, moments)
      ensures Active() ==> delivered == [] && rrset != []
    {
      hide Pending, AllTimely;
    }

    lemma PhaseIs()
      ensures PhaseOk() <==>
                && (next == NextRrsigKey || next == NextDs || next == Done ==> rrsig != [])
                && (next == NextDs || next == Done ==> key != [])
                && (next == NextRrsigKey || next == NextDs ==> qType == TYPE_DNSKEY)
                && (next == Done ==> qType == TYPE_DS && Same(qName, rrsig[0].rdata.signer))
    {
    }

    ghost predicate NothingCollected()
      reads this`rrsig, this`key, this`rrsigKey, this`ds
    {
      rrsig == [] && key == [] && rrsigKey == [] && ds == []
    }

    ghost function Kept(): Lists
      reads this`rrsig, this`key, this`rrsigKey
    {
      Lists(rrsig, key, rrsigKey)
    }

    ghost function All(): Stock
      reads this`rrsig, this`key, this`rrsigKey, this`ds
    {
      Stock(rrsig, key, rrsigKey, ds)
    }

    /** How many more links the recursion limit allows. */
    ghost function StepsLeft(): int
      reads this`ac
    {
      MAX_RECURSE_COUNT - 1 - |ac|
    }

    /** The records asked for are not in the cache. */
    ghost predicate Lacking(cache: Cache, now: nat)
      reads this`rrset, this`next, this`rrsig, this`key, this`rrsigKey
    {
      Lacks(rrset, next, Kept(), cache, now)
    }

    /** What a phase has come to. */
    ghost predicate Follows(go: bool, step: Step)
      reads this`mode, this`delivered
    {
      match step
      case Go => go
      case Ask => !go && mode == Querying && delivered == []
      case Denied => !go && mode == Proving && delivered == []
      case Fail => !go && mode == Finished && delivered == [Bogus]
    }

    /**
     * Secure, or waiting for records that the cache of `goal` has, and that with all that is kept lead on
     * to an anchor.
     */
    ghost predicate OnCourse(goal: Moment)
      reads this
    {
      || delivered == [Secure]
      || (mode == Querying && !wildcard && Promising(w, goal, rrset, Fetching(next), Kept(), StepsLeft())
          && !Lacking(goal.cache, goal.now))
    }

    ghost predicate Ends(e: Ending)
      reads this`mode, this`delivered, this`wildcard
    {
      match e
      case Refused => mode == Finished && delivered == [Bogus]
      case Exhausted => mode == Stalled && delivered == []
      case Accepted =>
        if wildcard then mode == Proving && delivered == [] else mode == Finished && delivered == [Secure]
      case Assured => mode == Finished && delivered == [Secure]
      case Deferred => mode == Proving && delivered == []
      case Open => true
    }

    ghost predicate Valid()
      reads this
    {
      && (mode == Idle ==>
            delivered == [] && ac == [] && links == [] && recursed == 0 && rrset == [] && NothingCollected() &&
            qName == origName && qType == origType && !wildcard && !slipped)
      && (mode == Dispatched ==>
            Active() && next == NextRrsig && NothingCollected() && !wildcard && !slipped && ac == [] &&
            rrset == First())
      && (mode == Querying ==> Active() && next != NextRrsig && ds == [] && Unfetched(Fetching(next), Kept()))
      && (mode == Proving ==> delivered == [])
      && (mode == Stalled ==> delivered == [] && recursed == |ac| == MAX_RECURSE_COUNT && Linked(w, ac, links, moments))
      && (mode == Finished ==> |delivered| == 1)
      && (delivered != [] ==> mode == Finished && (delivered == [Secure] || delivered == [Bogus]))
      && (delivered == [Secure] ==> SecureChain(w, First(), ac, links, moments, securedAt) && !wildcard && Noted())
      && |ac| <= |origName| + 1
    }

    constructor (w: World, name: Name, rrtype: nat)
      ensures Valid() && mode == Idle && this.w == w && origName == name && origType == rrtype
      ensures moments == {}
    {
      this.w, origName, origType := w, name, rrtype;
      currQtype, qName, qType, next, mode := rrtype, name, rrtype, NextRrsig, Idle;
      rrset, rrsig, key, rrsigKey, ds, ac := [], [], [], [], [], [];
      recursed, packets, wildcard, delivered := 0, 0, false, [];
      begun, moments, links, securedAt, slipped := [], {}, [], Moment([], 0), false;
    }

    method DeliverBogus()
      requires delivered == [] && |ac| <= |origName| + 1
      modifies this`mode, this`delivered
      ensures Valid() && mode == Finished && delivered == [Bogus]
    {
      mode, delivered := Finished, [Bogus];
    }

    // ----- Collecting

    method CheckRrsigForRrset(cache: Cache, now: nat) returns (err: Err, neg: Option<CacheRecord>)
      requires rrset != []
      modifies this`rrsig
      ensures rrsig == old(rrsig) + SigsFor(cache, rrset[0].name, rrset[0], now)
      ensures neg == FirstNegative(cache, rrset[0].name, TYPE_RRSIG)
      ensures err == if neg.Some? && rrsig != [] then BadParam
                     else if neg.Some? || rrsig != [] then NoError
                     else if SigsDue(cache, rrset[0].name, rrset[0].Type()) then BadParam else NoSuchRecord
    {
      hide Covers;
      var rv := rrset[0];
      neg := None;
      ghost var before := rrsig;
      for i := 0 to |cache|
        invariant rrsig == before + SigsFor(cache[..i], rv.name, rv, now)
        invariant neg == FirstNegative(cache[..i], rv.name, TYPE_RRSIG)
      {
        var c := cache[i];
        assert cache[..i + 1][..i] == cache[..i];
        if Same(c.Owner(), rv.name) {
          if c.Negative? {
            if c.rrtype == TYPE_RRSIG && neg == None { neg := Some(c); }
          } else if IsSigFor(c, rv, now) {
            rrsig := rrsig + [c.rr];
          }
        }
      }
      assert cache[..|cache|] == cache;
      if neg.Some? && rrsig != [] { return BadParam, neg; }
      if rrsig != [] || neg.Some? { return NoError, neg; }
      var due := AreSigsDue(cache, rv.name, rv.Type());
      if due { return BadParam, neg; }
      return NoSuchRecord, neg;
    }

    method CheckKeyForRrsig(cache: Cache) returns (err: Err, neg: Option<CacheRecord>)
      modifies this`key
      ensures rrsig == [] ==> err == BadParam && neg == None && key == old(key)
      ensures rrsig != [] ==>
                var signer := rrsig[0].rdata.signer;
                && key == old(key) + KeysFor(cache, signer)
                && neg == FirstNegative(cache, signer, TYPE_DNSKEY)
                && err == if neg.Some? && key != [] then BadParam
                          else if neg.Some? || key != [] then NoError else NoSuchRecord
    {
      neg := None;
      if rrsig == [] { return BadParam, None; }
      var signer := rrsig[0].rdata.signer;
      ghost var before := key;
      for i := 0 to |cache|
        invariant key == before + KeysFor(cache[..i], signer)
        invariant neg == FirstNegative(cache[..i], signer, TYPE_DNSKEY)
      {
        var c := cache[i];
        assert cache[..i + 1][..i] == cache[..i];
        if Same(c.Owner(), signer) {
          if c.Negative? {
            if c.rrtype == TYPE_DNSKEY && neg == None { neg := Some(c); }
          } else if c.rr.rdata.Key? {
            CheckOneKeyForRrsig(c.rr);
          }
        }
      }
      assert cache[..|cache|] == cache;
      if neg.Some? && key != [] { return BadParam, neg; }
      if neg.Some? || key != [] { return NoError, neg; }
      return NoSuchRecord, neg;
    }

    method CheckOneKeyForRrsig(rr: KeyRR)
      modifies this`key
      ensures key == if rrsig != [] && Same(rrsig[0].rdata.signer, rr.name) then old(key) + [rr] else old(key)
    {
      if rrsig == [] { return; }
      if !Same(rrsig[0].rdata.signer, rr.name) { return; }
      key := key + [rr];
    }

    method CheckRrsigForKey(cache: Cache, now: nat) returns (err: Err, neg: Option<CacheRecord>)
      modifies this`rrsigKey
      ensures rrsig == [] || key == [] ==> err == BadParam && neg == None && rrsigKey == old(rrsigKey)
      ensures rrsig != [] && key != [] ==>
                var signer := rrsig[0].rdata.signer;
                && rrsigKey == old(rrsigKey) + SigsFor(cache, signer, key[0], now)
                && neg == FirstNegative(cache, signer, TYPE_RRSIG)
                && err == if neg.Some? && rrsigKey != [] then BadParam
                          else if neg.Some? || rrsigKey != [] then NoError
                          else if SigsDue(cache, signer, TYPE_DNSKEY) then BadParam else NoSuchRecord
    {
      hide Covers, InWindow, Same, SigsFor, FirstNegative, SigsDue;
      neg := None;
      if rrsig == [] || key == [] { return BadParam, None; }
      var signer, rv := rrsig[0].rdata.signer, key[0];
      ghost var before := rrsigKey;
      NothingYet(signer, rv, now, TYPE_RRSIG);
      for i := 0 to |cache|
        invariant rrsigKey == before + SigsFor(cache[..i], signer, rv, now)
        invariant neg == FirstNegative(cache[..i], signer, TYPE_RRSIG)
      {
        var c := cache[i];
        SigsForNext(cache, i, signer, rv, now);
        FirstNegativeNext(cache, i, signer, TYPE_RRSIG);
        if Same(c.Owner(), signer) {
          if c.Negative? {
            if c.rrtype == TYPE_RRSIG && neg == None { neg := Some(c); }
          } else if IsSigFor(c, rv, now) {
            rrsigKey := rrsigKey + [c.rr];
          }
        }
      }
      assert cache[..|cache|] == cache;
      if neg.Some? && rrsigKey != [] { return BadParam, neg; }
      if neg.Some? || rrsigKey != [] { return NoError, neg; }
      var due := AreSigsDue(cache, signer, TYPE_DNSKEY);
      if due { return BadParam, neg; }
      return NoSuchRecord, neg;
    }

    method CheckOneDsForKey(d: DsRR)
      requires rrsig != []
      modifies this`ds
      ensures ds == if Same(rrsig[0].rdata.signer, d.name) then old(ds) + DsForKeys(d, key) else old(ds)
    {
      if !Same(rrsig[0].rdata.signer, d.name) { return; }
      ghost var before := ds;
      for i := 0 to |key|
        invariant ds == before + DsForKeys(d, key[..i])
      {
        assert key[..i + 1][..i] == key[..i];
        if Tag(key[i]) == d.rdata.keyTag {
          if KeyAlg(key[i]) == d.rdata.alg { ds := ds + [d]; }
        }
      }
      assert key[..|key|] == key;
    }

    method CheckDsForKey(cache: Cache) returns (err: Err, neg: Option<CacheRecord>)
      modifies this`ds
      ensures rrsig == [] || key == [] ==> err == BadParam && neg == None && ds == old(ds)
      ensures rrsig != [] && key != [] ==>
                var signer := rrsig[0].rdata.signer;
                && ds == old(ds) + DsFor(cache, signer, key)
                && neg == FirstNegative(cache, signer, TYPE_DS)
                && err == if neg.Some? && ds != [] then BadParam
                          else if neg.Some? || ds != [] then NoError else NoSuchRecord
    {
      hide DsForKeys;
      neg := None;
      if rrsig == [] || key == [] { return BadParam, None; }
      var signer := rrsig[0].rdata.signer;
      ghost var before := ds;
      for i := 0 to |cache|
        invariant ds == before + DsFor(cache[..i], signer, key)
        invariant neg == FirstNegative(cache[..i], signer, TYPE_DS)
      {
        var c := cache[i];
        assert cache[..i + 1][..i] == cache[..i];
        if Same(c.Owner(), signer) {
          if c.Negative? {
            if c.rrtype == TYPE_DS && neg == None { neg := Some(c); }
          } else if c.rr.rdata.Ds? {
            AppendAgain(before, DsFor(cache[..i], signer, key), DsForKeys(c.rr, key));
            CheckOneDsForKey(c.rr);
          }
        }
      }
      assert cache[..|cache|] == cache;
      if neg.Some? && ds != [] { return BadParam, neg; }
      if neg.Some? || ds != [] { return NoError, neg; }
      return NoSuchRecord, neg;
    }

    // ----- Checking

    /** ValidateSignatureWithKey, with its note that the answer was expanded from a wildcard. */
    method ValidateSignatureWithKey(rrs: seq<RR>, k: KeyRR, sig: SigRR) returns (ok: bool)
      requires rrs != []
      modifies this`wildcard, this`slipped
      ensures ok == Verifies(w, rrs, k, sig)
      ensures wildcard == if !w.supports(sig.rdata.alg) then old(wildcard)
                          else ok && (old(wildcard) || Expanded(rrs[0].name, sig))
      ensures slipped == (old(slipped) || (old(wildcard) && !wildcard))
      ensures ok && Expanded(rrs[0].name, sig) ==> wildcard
    {
      if !w.supports(sig.rdata.alg) { return false; }
      var name := rrs[0].name;
      ghost var noted := wildcard;
      if |name| > sig.rdata.labels && name[0] != [42] { wildcard := true; }
      if !w.verifies(rrs, k, sig) {
        wildcard := false;
        slipped := slipped || noted;
        return false;
      }
      return true;
    }

    /** Walk all the keys and for each key all the signatures; the first pair that validates. */
    method ValidateSignature() returns (r: Option<(nat, nat)>)
      requires rrset != []
      modifies this`wildcard, this`slipped
      ensures r.Some? ==> var (i, j) := r.value;
                i < |key| && j < |rrsig| && KeyMatches(key[i], rrsig[j]) && Verifies(w, rrset, key[i], rrsig[j])
      ensures r.None? ==> forall k, s :: k in key && s in rrsig ==> !(KeyMatches(k, s) && Verifies(w, rrset, k, s))
      ensures r.Some? ==> (Expanded(rrset[0].name, rrsig[r.value.1]) ==> wildcard)
      ensures Unexpanded(rrset[0].name, rrsig) && wildcard ==> old(wildcard)
      ensures (old(wildcard || slipped) ==> wildcard || slipped) && (slipped ==> old(wildcard || slipped))
    {
      hide KeyMatches, Verifies, Expanded;
      for i := 0 to |key|
        invariant wildcard ==> old(wildcard)
        invariant (old(wildcard || slipped) ==> wildcard || slipped) && (slipped ==> old(wildcard || slipped))
        invariant forall k, s :: k in key[..i] && s in rrsig ==> !(KeyMatches(k, s) && Verifies(w, rrset, k, s))
      {
        for j := 0 to |rrsig|
          invariant wildcard ==> old(wildcard)
          invariant (old(wildcard || slipped) ==> wildcard || slipped) && (slipped ==> old(wildcard || slipped))
          invariant forall s :: s in rrsig[..j] ==> !(KeyMatches(key[i], s) && Verifies(w, rrset, key[i], s))
        {
          if KeyMatches(key[i], rrsig[j]) {
            var ok := ValidateSignatureWithKey(rrset, key[i], rrsig[j]);
            if ok { return Some((i, j)); }
          }
        }
      }
      return None;
    }

    method ValidateSignatureWithKeyForAllRrsigs(k: KeyRR) returns (ok: bool)
      requires key != []
      modifies this`wildcard, this`slipped
      ensures ok <==> SelfSigned(w, key, k, rrsigKey)
      ensures Unexpanded(key[0].name, rrsigKey) && wildcard ==> old(wildcard)
      ensures !ok && wildcard ==> old(wildcard)
      ensures Unexpanded(key[0].name, rrsigKey) && Spoils(w, key, k, rrsigKey) ==> !wildcard
      ensures (old(wildcard || slipped) ==> wildcard || slipped) && (slipped ==> old(wildcard || slipped))
    {
      hide Verifies, Expanded, Failing, Tag;
      for j := 0 to |rrsigKey|
        invariant wildcard ==> old(wildcard)
        invariant (old(wildcard || slipped) ==> wildcard || slipped) && (slipped ==> old(wildcard || slipped))
        invariant forall s :: s in rrsigKey[..j] ==> !(Tag(k) == s.rdata.keyTag && Verifies(w, key, k, s))
        invariant (exists x :: 0 <= x < j && Failing(w, key, k, rrsigKey[x])) ==> !wildcard
      {
        FailingIs(w, key, k, rrsigKey[j]);
        if Tag(k) == rrsigKey[j].rdata.keyTag {
          ok := ValidateSignatureWithKey(key, k, rrsigKey[j]);
          if ok {
            assert !Failing(w, key, k, rrsigKey[j]);
            assert rrsigKey[j] in rrsigKey;
            return true;
          }
        }
      }
      return false;
    }

    /** An unsupported digest type ends the walk, whatever the records behind it say. */
    method ValidateDs() returns (r: Option<(nat, nat)>)
      requires rrsig != [] && key != []
      modifies this`wildcard, this`slipped
      ensures r.Some? ==> var (i, j) := r.value;
                && FirstToSign(w, rrsig[0].rdata.signer, key, rrsigKey, ds, i)
                && i < |ds| && j < |key|
                && Hashed(w, rrsig[0].rdata.signer, key[j], ds[i]) && SelfSigned(w, key, key[j], rrsigKey)
      ensures r.None? ==> !Delegated(w, rrsig[0].rdata.signer, All())
      ensures Unexpanded(key[0].name, rrsigKey) && wildcard ==> old(wildcard)
      ensures (old(wildcard || slipped) ==> wildcard || slipped) && (slipped ==> old(wildcard || slipped))
    {
      hide SelfSigned, Tag, DigestSupported, Unexpanded;
      var signer := rrsig[0].rdata.signer;
      for i := 0 to |ds|
        invariant AllSupported(ds[..i])
        invariant forall x :: 0 <= x < i ==> !DsSigns(w, signer, key, rrsigKey, ds[x])
        invariant wildcard ==> old(wildcard)
        invariant (old(wildcard || slipped) ==> wildcard || slipped) && (slipped ==> old(wildcard || slipped))
      {
        if !DigestSupported(ds[i].rdata.digestType) {
          assert ds[i] in ds[..i + 1];
          NoneBehind(w, signer, key, rrsigKey, ds, i);
          return None;
        }
        assert ds[..i + 1] == ds[..i] + [ds[i]];
        for j := 0 to |key|
          invariant forall k :: k in key[..j] ==> !(Hashed(w, signer, k, ds[i]) && SelfSigned(w, key, k, rrsigKey))
          invariant wildcard ==> old(wildcard)
          invariant (old(wildcard || slipped) ==> wildcard || slipped) && (slipped ==> old(wildcard || slipped))
        {
          if Tag(key[j]) == ds[i].rdata.keyTag {
            if w.hashes(Lower(signer), key[j], ds[i].rdata.digestType, ds[i].rdata.digest) {
              var ok := ValidateSignatureWithKeyForAllRrsigs(key[j]);
              if ok {
                assert key[j] in key;
                return Some((i, j));
              }
            }
          }
        }
      }
      return None;
    }

    method TrustedKeyPresent() returns (present: bool)
      ensures present <==> AnchorPresent(w, key)
    {
      hide Tag;
      for i := 0 to |w.anchors|
        invariant forall ta, k :: ta in w.anchors[..i] && k in key ==>
                    !(DigestSupported(ta.digestType) && Tag(k) == ta.keyTag && Same(k.name, ta.zone))
      {
        var ta := w.anchors[i];
        if DigestSupported(ta.digestType) {
          for j := 0 to |key|
            invariant forall k :: k in key[..j] ==> !(Tag(k) == ta.keyTag && Same(k.name, ta.zone))
          {
            if Tag(key[j]) == ta.keyTag && Same(key[j].name, ta.zone) {
              assert ta in w.anchors && key[j] in key;
              return true;
            }
          }
        }
      }
      return false;
    }

    method TrustedKey(now: nat) returns (r: Option<(nat, nat)>)
      requires rrsig != []
      modifies this`wildcard, this`slipped
      ensures r.Some? ==> var (i, j) := r.value;
                && i < |w.anchors| && j < |key|
                && AnchorMatches(w, rrsig[0].rdata.signer, key[j], w.anchors[i], now)
                && SelfSigned(w, key, key[j], rrsigKey)
      ensures r.Some? && NoteLost(w, All()) ==> !wildcard
      ensures r.None? ==> forall ta, k :: ta in w.anchors && k in key ==>
                !(AnchorMatches(w, rrsig[0].rdata.signer, k, ta, now) && SelfSigned(w, key, k, rrsigKey))
      ensures key != [] && Unexpanded(key[0].name, rrsigKey) && wildcard ==> old(wildcard)
      ensures (old(wildcard || slipped) ==> wildcard || slipped) && (slipped ==> old(wildcard || slipped))
    {
      hide SelfSigned, Tag, AnchorValid, Unexpanded, Spoils;
      var signer := rrsig[0].rdata.signer;
      for i := 0 to |w.anchors|
        invariant wildcard ==> old(wildcard)
        invariant (old(wildcard || slipped) ==> wildcard || slipped) && (slipped ==> old(wildcard || slipped))
        invariant forall ta, k :: ta in w.anchors[..i] && k in key ==>
                    !(AnchorMatches(w, signer, k, ta, now) && SelfSigned(w, key, k, rrsigKey))
      {
        var ta := w.anchors[i];
        if DigestSupported(ta.digestType) {
          for j := 0 to |key|
            invariant wildcard ==> old(wildcard)
            invariant (old(wildcard || slipped) ==> wildcard || slipped) && (slipped ==> old(wildcard || slipped))
            invariant forall k :: k in key[..j] ==>
                        !(AnchorMatches(w, signer, k, ta, now) && SelfSigned(w, key, k, rrsigKey))
          {
            if Tag(key[j]) == ta.keyTag && Same(key[j].name, ta.zone) && AnchorValid(ta, now) {
              if w.hashes(Lower(signer), key[j], ta.digestType, ta.digest) {
                var ok := ValidateSignatureWithKeyForAllRrsigs(key[j]);
                if ok { return Some((i, j)); }
              }
            }
          }
        }
      }
      return None;
    }

    // ----- The phases

    method InitializeQuestion(name: Name, rrtype: nat)
      modifies this`qName, this`qType
      ensures qName == name && qType == rrtype
    {
      qName, qType := name, rrtype;
    }

    method Fetch()
      requires Active() && next != NextRrsig && ds == [] && |ac| <= |origName| + 1 && Unfetched(Fetching(next), Kept())
      modifies this`packets, this`mode
      ensures Valid() && mode == Querying && packets == old(packets) + 1
    {
      hide Pending, SecureChain, Collected, AllTimely, Linked;
      packets, mode := packets + 1, Querying;
    }

    /** The recursion limit is met: nothing is delivered. */
    method Stall()
      requires delivered == [] && recursed == |ac| == MAX_RECURSE_COUNT && Linked(w, ac, links, moments)
      requires |ac| <= |origName| + 1
      modifies this`mode
      ensures Valid() && mode == Stalled
    {
      mode := Stalled;
    }

    /** The NSEC code takes over. */
    method Prove()
      requires delivered == [] && |ac| <= |origName| + 1
      modifies this`mode
      ensures Valid() && mode == Proving
    {
      mode := Proving;
    }

    /** The steps that all phases but the last take once their records have been looked up. */
    method Proceed(err: Err, neg: Option<CacheRecord>, found: bool, name: Name, rrtype: nat, to: Phase)
      returns (go: bool)
      requires Active() && ds == [] && |ac| <= |origName| + 1 && to != NextRrsig && to != Done
      requires neg.Some? ==> neg.value.Negative?
      requires err != BadParam ==>
                 && (to == NextRrsigKey || to == NextDs ==> rrsig != [] && rrtype == TYPE_DNSKEY)
                 && (to == NextDs ==> key != [])
                 && (!found ==> Unfetched(Fetching(to), Kept()))
      modifies this`next, this`mode, this`qName, this`qType, this`packets, this`delivered
      ensures Follows(go, Taken(err, neg, found))
      ensures delivered == [] ==> qName == name && qType == rrtype
      ensures packets == old(packets) + (if !go && mode == Querying then 1 else 0)
      ensures go ==> Active() && next == to
      ensures !go ==> Valid() && (mode == Querying ==> next == to && !found)
    {
      hide *;
      TakenIs(err, neg, found);
      ActiveIs();
      if err == BadParam { DeliverBogus(); FollowsIs(); return false; }
      InitializeQuestion(name, rrtype);
      if neg.Some? && neg.value.nsec { Prove(); FollowsIs(); return false; }
      next := to;
      ActiveIs();
      PhaseIs();
      if !found { Fetch(); FollowsIs(); return false; }
      FollowsIs();
      return true;
    }

    /** The signatures of the set, from the cache or by asking for the set again. */
    method RrsigPhase(cache: Cache, now: nat) returns (go: bool)
      requires Active() && ds == [] && |ac| <= |origName| + 1 && next == NextRrsig && Moment(cache, now) in moments
      requires Kept() == NOTHING
      modifies this`rrsig, this`next, this`mode, this`qName, this`qType, this`packets, this`delivered
      ensures rrset != [] && rrsig == SigsFor(cache, rrset[0].name, rrset[0], now)
      ensures Follows(go, StepOf(rrsig != [], SigsDue(cache, rrset[0].name, rrset[0].Type()),
                                 FirstNegative(cache, rrset[0].name, TYPE_RRSIG)))
      ensures delivered == [] ==> qName == rrset[0].name && qType == currQtype
      ensures packets == old(packets) + (if !go && mode == Querying then 1 else 0)
      ensures go ==> Active() && next == NextKey
      ensures !go ==> Valid()
      ensures !go && mode == Querying ==> next == NextKey && rrsig == []
    {
      hide *;
      KeptIs();
      PhaseRanks();
      ActiveIs();
      PhaseIs();
      CollectedRrsig(rrset, rrsig, key, rrsigKey, cache, now);
      StillTimely(rrsig, cache, rrset[0].name, rrset[0], now, moments);
      var err, neg := CheckRrsigForRrset(cache, now);
      assert rrsig == SigsFor(cache, rrset[0].name, rrset[0], now);
      ActiveIs();
      PhaseIs();
      KeptIs();
      StepTaken(err, rrsig != [], SigsDue(cache, rrset[0].name, rrset[0].Type()), neg);
      go := Proceed(err, neg, rrsig != [], rrset[0].name, currQtype, NextKey);
    }

    /** What that means for where the verification leads. */
    lemma RrsigFared(cache: Cache, now: nat, goal: Moment, go: bool)
      requires rrset != [] && key == [] && rrsigKey == [] && rrsig == SigsFor(cache, rrset[0].name, rrset[0], now)
      requires Follows(go, StepOf(rrsig != [], SigsDue(cache, rrset[0].name, rrset[0].Type()),
                                  FirstNegative(cache, rrset[0].name, TYPE_RRSIG)))
      ensures Agrees(w, cache, now, goal) && Promising(w, goal, rrset, NextRrsig, NOTHING, StepsLeft()) ==>
                if go then Promising(w, goal, rrset, NextKey, Kept(), StepsLeft())
                else mode == Querying && Promising(w, goal, rrset, NextRrsig, Kept(), StepsLeft())
      ensures Complete(w, Moment(cache, now), rrset, NextRrsig, NOTHING, false) ==>
                && go && Complete(w, Moment(cache, now), rrset, NextKey, Kept(), false)
                && Gathered(Moment(cache, now), rrset, NextKey, Kept()) ==
                   Gathered(Moment(cache, now), rrset, NextRrsig, NOTHING)
    {
      hide *;
      KeptIs();
      PhaseRanks();
      StepIs(rrsig != [], SigsDue(cache, rrset[0].name, rrset[0].Type()),
             FirstNegative(cache, rrset[0].name, TYPE_RRSIG));
      FollowsMeans(go, StepOf(rrsig != [], SigsDue(cache, rrset[0].name, rrset[0].Type()),
                              FirstNegative(cache, rrset[0].name, TYPE_RRSIG)));
      if Agrees(w, cache, now, goal) && Promising(w, goal, rrset, NextRrsig, NOTHING, StepsLeft()) {
        PromiseSigs(w, cache, now, goal, rrset, StepsLeft());
      }
      if Complete(w, Moment(cache, now), rrset, NextRrsig, NOTHING, false) {
        CompleteSigs(w, Moment(cache, now), rrset, false);
      }
    }

    /** The keys of the signer. */
    method KeyPhase(cache: Cache) returns (go: bool)
      requires Active() && ds == [] && |ac| <= |origName| + 1 && next == NextKey && Unfetched(NextKey, Kept())
      modifies this`key, this`next, this`mode, this`qName, this`qType, this`packets, this`delivered
      ensures rrsig != [] ==> key == KeysFor(cache, rrsig[0].rdata.signer)
      ensures Follows(go, if rrsig == [] then Fail
                          else StepOf(key != [], false, FirstNegative(cache, rrsig[0].rdata.signer, TYPE_DNSKEY)))
      ensures delivered == [] ==> rrsig != [] && qName == rrsig[0].rdata.signer && qType == TYPE_DNSKEY
      ensures packets == old(packets) + (if !go && mode == Querying then 1 else 0)
      ensures go ==> Active() && next == NextRrsigKey
      ensures !go ==> Valid()
      ensures !go && mode == Querying ==> next == NextRrsigKey && rrsig != [] && key == []
    {
      hide *;
      KeptIs();
      PhaseRanks();
      ActiveIs();
      PhaseIs();
      CollectedKey(rrset, rrsig, key, rrsigKey, cache);
      var err, neg := CheckKeyForRrsig(cache);
      ActiveIs();
      PhaseIs();
      KeptIs();
      if rrsig == [] { DeliverBogus(); FollowsIs(); return false; }
      assert key == KeysFor(cache, rrsig[0].rdata.signer);
      StepTaken(err, key != [], false, neg);
      go := Proceed(err, neg, key != [], rrsig[0].rdata.signer, TYPE_DNSKEY, NextRrsigKey);
    }

    lemma KeyFared(cache: Cache, now: nat, goal: Moment, go: bool)
      requires rrsig != [] && rrsigKey == [] && key == KeysFor(cache, rrsig[0].rdata.signer)
      requires Follows(go, StepOf(key != [], false, FirstNegative(cache, rrsig[0].rdata.signer, TYPE_DNSKEY)))
      ensures Agrees(w, cache, now, goal) && Promising(w, goal, rrset, NextKey, Lists(rrsig, [], []), StepsLeft()) ==>
                if go then Promising(w, goal, rrset, NextRrsigKey, Kept(), StepsLeft())
                else mode == Querying && Promising(w, goal, rrset, NextKey, Kept(), StepsLeft())
      ensures Complete(w, Moment(cache, now), rrset, NextKey, Lists(rrsig, [], []), false) ==>
                && go && Complete(w, Moment(cache, now), rrset, NextRrsigKey, Kept(), false)
                && Gathered(Moment(cache, now), rrset, NextRrsigKey, Kept()) ==
                   Gathered(Moment(cache, now), rrset, NextKey, Lists(rrsig, [], []))
    {
      hide *;
      KeptIs();
      PhaseRanks();
      StepIs(key != [], false, FirstNegative(cache, rrsig[0].rdata.signer, TYPE_DNSKEY));
      FollowsMeans(go, StepOf(key != [], false, FirstNegative(cache, rrsig[0].rdata.signer, TYPE_DNSKEY)));
      if Agrees(w, cache, now, goal) && Promising(w, goal, rrset, NextKey, Lists(rrsig, [], []), StepsLeft()) {
        PromiseKeys(w, cache, now, goal, rrset, rrsig, StepsLeft());
      }
      if Complete(w, Moment(cache, now), rrset, NextKey, Lists(rrsig, [], []), false) {
        CompleteKeys(w, Moment(cache, now), rrset, rrsig, false);
      }
    }

    /** The signatures of the keys. */
    method RrsigKeyPhase(cache: Cache, now: nat) returns (go: bool)
      requires Active() && ds == [] && |ac| <= |origName| + 1 && next == NextRrsigKey && Moment(cache, now) in moments
      requires Unfetched(NextRrsigKey, Kept())
      modifies this`rrsigKey, this`next, this`mode, this`qName, this`qType, this`packets, this`delivered
      ensures rrsig != [] && (key != [] ==> rrsigKey == SigsFor(cache, rrsig[0].rdata.signer, key[0], now))
      ensures Follows(go, if key == [] then Fail
                          else StepOf(rrsigKey != [], SigsDue(cache, rrsig[0].rdata.signer, TYPE_DNSKEY),
                                      FirstNegative(cache, rrsig[0].rdata.signer, TYPE_RRSIG)))
      ensures delivered == [] ==> rrsig != [] && key != [] && qName == rrsig[0].rdata.signer && qType == TYPE_DNSKEY
      ensures packets == old(packets) + (if !go && mode == Querying then 1 else 0)
      ensures go ==> Active() && next == NextDs
      ensures !go ==> Valid()
      ensures !go && mode == Querying ==> next == NextDs && rrsig != [] && key != [] && rrsigKey == []
    {
      hide *;
      KeptIs();
      PhaseRanks();
      ActiveIs();
      PhaseIs();
      CollectedRrsigKey(rrset, rrsig, key, rrsigKey, cache, now);
      if key != [] { StillTimely(rrsigKey, cache, rrsig[0].rdata.signer, key[0], now, moments); }
      var err, neg := CheckRrsigForKey(cache, now);
      ActiveIs();
      PhaseIs();
      KeptIs();
      if key == [] { DeliverBogus(); FollowsIs(); return false; }
      assert rrsigKey == SigsFor(cache, rrsig[0].rdata.signer, key[0], now);
      StepTaken(err, rrsigKey != [], SigsDue(cache, rrsig[0].rdata.signer, TYPE_DNSKEY), neg);
      go := Proceed(err, neg, rrsigKey != [], rrsig[0].rdata.signer, TYPE_DNSKEY, NextDs);
    }

    lemma RrsigKeyFared(cache: Cache, now: nat, goal: Moment, go: bool)
      requires rrsig != [] && key != [] && rrsigKey == SigsFor(cache, rrsig[0].rdata.signer, key[0], now)
      requires Follows(go, StepOf(rrsigKey != [], SigsDue(cache, rrsig[0].rdata.signer, TYPE_DNSKEY),
                                  FirstNegative(cache, rrsig[0].rdata.signer, TYPE_RRSIG)))
      ensures Agrees(w, cache, now, goal) &&
              Promising(w, goal, rrset, NextRrsigKey, Lists(rrsig, key, []), StepsLeft()) ==>
                if go then Promising(w, goal, rrset, NextDs, Kept(), StepsLeft())
                else mode == Querying && Promising(w, goal, rrset, NextRrsigKey, Kept(), StepsLeft())
      ensures Complete(w, Moment(cache, now), rrset, NextRrsigKey, Lists(rrsig, key, []), false) ==>
                && go && Complete(w, Moment(cache, now), rrset, NextDs, Kept(), false)
                && Gathered(Moment(cache, now), rrset, NextDs, Kept()) ==
                   Gathered(Moment(cache, now), rrset, NextRrsigKey, Lists(rrsig, key, []))
    {
      hide *;
      KeptIs();
      PhaseRanks();
      StepIs(rrsigKey != [], SigsDue(cache, rrsig[0].rdata.signer, TYPE_DNSKEY),
             FirstNegative(cache, rrsig[0].rdata.signer, TYPE_RRSIG));
      FollowsMeans(go, StepOf(rrsigKey != [], SigsDue(cache, rrsig[0].rdata.signer, TYPE_DNSKEY),
                              FirstNegative(cache, rrsig[0].rdata.signer, TYPE_RRSIG)));
      if Agrees(w, cache, now, goal) && Promising(w, goal, rrset, NextRrsigKey, Lists(rrsig, key, []), StepsLeft()) {
        PromiseKeySigs(w, cache, now, goal, rrset, rrsig, key, StepsLeft());
      }
      if Complete(w, Moment(cache, now), rrset, NextRrsigKey, Lists(rrsig, key, []), false) {
        CompleteKeySigs(w, Moment(cache, now), rrset, rrsig, key, false);
      }
    }

    /** The DS records of the signer, unless a trust anchor makes them unnecessary. */
    method DsPhase(cache: Cache) returns (go: bool)
      requires Active() && ds == [] && |ac| <= |origName| + 1 && next == NextDs && rrsig != [] && key != []
      modifies this`ds, this`next, this`mode, this`qName, this`qType, this`packets, this`delivered
      ensures ds == DsFor(cache, rrsig[0].rdata.signer, key)
      ensures Follows(go, DsStep(ds != [], AnchorPresent(w, key), Same(rrsig[0].rdata.signer, []),
                                 FirstNegative(cache, rrsig[0].rdata.signer, TYPE_DS)))
      ensures delivered == [] ==> qName == rrsig[0].rdata.signer && qType == TYPE_DS
      ensures packets == old(packets) + (if !go && mode == Querying then 1 else 0)
      ensures go ==> Active() && next == Done
      ensures !go ==> Valid()
      ensures !go && mode == Querying ==> next == Done && ds == []
    {
      hide *;
      ActiveIs();
      PhaseIs();
      var qname := rrsig[0].rdata.signer;
      var err, neg := CheckDsForKey(cache);
      assert ds == DsFor(cache, qname, key);
      ghost var step := DsStep(ds != [], AnchorPresent(w, key), Same(qname, []), FirstNegative(cache, qname, TYPE_DS));
      DsStepIs(ds != [], AnchorPresent(w, key), Same(qname, []), FirstNegative(cache, qname, TYPE_DS));
      assert err == BadParam ==> step == Fail;
      if err == BadParam {
        DeliverBogus();
        go := false;
      } else {
        InitializeQuestion(qname, TYPE_DS);
        assert (step == Denied) == (neg.Some? && neg.value.nsec);
        if neg.Some? && neg.value.nsec {
          Prove();
          go := false;
        } else {
          go := DsGathered();
        }
      }
      FollowsIs();
    }

    lemma DsFared(cache: Cache, now: nat, goal: Moment, go: bool)
      requires rrsig != [] && key != [] && ds == DsFor(cache, rrsig[0].rdata.signer, key)
      requires Follows(go, DsStep(ds != [], AnchorPresent(w, key), Same(rrsig[0].rdata.signer, []),
                                  FirstNegative(cache, rrsig[0].rdata.signer, TYPE_DS)))
      ensures Agrees(w, cache, now, goal) && Promising(w, goal, rrset, NextDs, Kept(), StepsLeft()) ==>
                if go then LeadsOn(w, goal, rrset, All(), StepsLeft()) && Plain(rrset, All())
                else mode == Querying && DsFor(goal.cache, rrsig[0].rdata.signer, key) != []
      ensures Complete(w, Moment(cache, now), rrset, NextDs, Kept(), false) ==>
                go && All() == Gathered(Moment(cache, now), rrset, NextDs, Kept())
    {
      hide *;
      KeptIs();
      AllIs();
      DsStepIs(ds != [], AnchorPresent(w, key), Same(rrsig[0].rdata.signer, []),
               FirstNegative(cache, rrsig[0].rdata.signer, TYPE_DS));
      FollowsMeans(go, DsStep(ds != [], AnchorPresent(w, key), Same(rrsig[0].rdata.signer, []),
                              FirstNegative(cache, rrsig[0].rdata.signer, TYPE_DS)));
      if Agrees(w, cache, now, goal) && Promising(w, goal, rrset, NextDs, Kept(), StepsLeft()) {
        PromiseDs(w, cache, now, goal, rrset, Kept(), StepsLeft());
      }
      if Complete(w, Moment(cache, now), rrset, NextDs, Kept(), false) {
        CompleteDs(w, Moment(cache, now), rrset, Kept(), false);
      }
    }

    /** Without DS records, an anchor for one of the keys is enough; nothing is above the root. */
    method DsGathered() returns (go: bool)
      requires rrsig != [] && key != [] && Grounded() && Collected(rrset, rrsig, key, rrsigKey)
      requires AllTimely(rrsig, moments) && AllTimely(rrsigKey, moments)
      requires qName == rrsig[0].rdata.signer && qType == TYPE_DS && |ac| <= |origName| + 1
      modifies this`next, this`mode, this`packets, this`delivered
      ensures Follows(go, if ds != [] || AnchorPresent(w, key) then Go else if Same(qName, []) then Fail else Ask)
      ensures go ==> Active() && next == Done
      ensures !go ==> Valid() && (mode == Querying ==> next == Done && ds == [])
      ensures packets == old(packets) + (if !go && mode == Querying then 1 else 0)
    {
      hide *;
      PhaseRanks();
      KeptIs();
      SameReflexive(qName);
      next := Done;
      ActiveIs();
      PhaseIs();
      if ds != [] { FollowsIs(); return true; }
      var present := TrustedKeyPresent();
      if present { FollowsIs(); return true; }
      if Same(qName, []) { DeliverBogus(); FollowsIs(); return false; }
      Fetch();
      ActiveIs();
      FollowsIs();
      return false;
    }

    lemma KeptIs()
      ensures Kept() == Lists(rrsig, key, rrsigKey) && StepsLeft() == MAX_RECURSE_COUNT - 1 - |ac|
      ensures forall from :: Unfetched(from, Kept()) <==>
                && (from == NextRrsig ==> rrsig == [] && key == [] && rrsigKey == [])
                && (from == NextKey ==> key == [] && rrsigKey == [])
                && (from == NextRrsigKey ==> rrsigKey == [])
    {
    }

    lemma AllIs()
      ensures All() == Stock(rrsig, key, rrsigKey, ds)
    {
    }

    lemma FollowsIs()
      ensures Follows(true, Go)
      ensures mode == Querying && delivered == [] ==> Follows(false, Ask)
      ensures mode == Proving && delivered == [] ==> Follows(false, Denied)
      ensures mode == Finished && delivered == [Bogus] ==> Follows(false, Fail)
    {
    }

    lemma FollowsMeans(go: bool, step: Step)
      requires Follows(go, step)
      ensures !go ==> mode in {Querying, Proving, Finished} && Secure !in delivered
      ensures go <==> step == Go
      ensures step == Ask ==> mode == Querying
    {
    }

    /** What it means to wait for records of `cache`. */
    lemma WaitingIs(cache: Cache, now: nat)
      ensures Lacking(cache, now) <==>
                match next
                case NextRrsig => false
                case NextKey => rrset != [] && SigsFor(cache, rrset[0].name, rrset[0], now) == []
                case NextRrsigKey => rrsig != [] && KeysFor(cache, rrsig[0].rdata.signer) == []
                case NextDs => rrsig != [] && key != [] && SigsFor(cache, rrsig[0].rdata.signer, key[0], now) == []
                case Done => rrsig != [] && key != [] && DsFor(cache, rrsig[0].rdata.signer, key) == []
      ensures next != NextRrsig && next != Done &&
              Promising(w, Moment(cache, now), rrset, Fetching(next), Kept(), StepsLeft()) ==>
                !Lacking(cache, now)
    {
      hide SigsFor, KeysFor, DsFor, Promising, Fetching;
      if next != NextRrsig && next != Done &&
         Promising(w, Moment(cache, now), rrset, Fetching(next), Kept(), StepsLeft()) {
        PromisingHas(w, Moment(cache, now), rrset, next, Kept(), StepsLeft());
      }
    }

    /** Where the phases have led. */
    ghost predicate Led(goal: Moment, done: bool)
      reads this
    {
      if done then LeadsOn(w, goal, rrset, All(), StepsLeft()) && Plain(rrset, All())
      else
        && mode == Querying && Promising(w, goal, rrset, Fetching(next), Kept(), StepsLeft())
        && !Lacking(goal.cache, goal.now)
    }

    lemma LedIs(goal: Moment, done: bool)
      ensures Led(goal, done) <==>
                if done then LeadsOn(w, goal, rrset, All(), StepsLeft()) && Plain(rrset, All())
                else
                  && mode == Querying && Promising(w, goal, rrset, Fetching(next), Kept(), StepsLeft())
                  && !Lacking(goal.cache, goal.now)
    {
      hide Promising, LeadsOn, Plain, Lacking;
    }

    /** The last phase, and what it means. */
    method FromDs(cache: Cache, ghost now: nat, ghost goal: Moment) returns (done: bool)
      requires Active() && ds == [] && |ac| <= |origName| + 1 && next == NextDs
      modifies this`ds, this`next, this`mode, this`qName, this`qType, this`packets, this`delivered
      ensures rrsig != [] && ds == DsFor(cache, rrsig[0].rdata.signer, key)
      ensures done ==> Active() && next == Done
      ensures !done ==> Valid() && mode in {Querying, Proving, Finished} && Secure !in delivered
      ensures !done && mode == Querying ==> Lacking(cache, now) && next == Done
      ensures Agrees(w, cache, now, goal) && Promising(w, goal, rrset, NextDs, Kept(), StepsLeft()) ==> Led(goal, done)
      ensures Complete(w, Moment(cache, now), rrset, NextDs, Kept(), false) ==>
                done && All() == Gathered(Moment(cache, now), rrset, NextDs, Kept())
    {
      hide *;
      PhaseRanks();
      ActiveIs();
      PhaseIs();
      done := DsPhase(cache);
      FollowsMeans(done, DsStep(ds != [], AnchorPresent(w, key), Same(rrsig[0].rdata.signer, []),
                                FirstNegative(cache, rrsig[0].rdata.signer, TYPE_DS)));
      DsFared(cache, now, goal, done);
      WaitingIs(cache, now);
      WaitingIs(goal.cache, goal.now);
      LedIs(goal, done);
    }

    method FromRrsigKey(cache: Cache, now: nat, ghost goal: Moment, ghost l: Lists) returns (done: bool)
      requires Active() && ds == [] && |ac| <= |origName| + 1 && next == NextRrsigKey && Moment(cache, now) in moments
      requires l == Kept() && Unfetched(NextRrsigKey, l)
      modifies this`rrsigKey, this`ds, this`next, this`mode, this`qName, this`qType, this`packets, this`delivered
      ensures done ==> Active() && next == Done && ds == DsFor(cache, rrsig[0].rdata.signer, key)
      ensures !done ==> Valid() && mode in {Querying, Proving, Finished} && Secure !in delivered
      ensures !done && mode == Querying ==> Lacking(cache, now) && (next == NextDs || next == Done)
      ensures Agrees(w, cache, now, goal) && Promising(w, goal, rrset, NextRrsigKey, l, StepsLeft()) ==>
                Led(goal, done)
      ensures rrset != []
      ensures Complete(w, Moment(cache, now), rrset, NextRrsigKey, l, false) ==>
                done && All() == Gathered(Moment(cache, now), rrset, NextRrsigKey, l)
    {
      hide *;
      ActiveIs();
      PhaseRanks();
      KeptIs();
      PromiseHasSigs(w, goal, rrset, NextRrsigKey, l, StepsLeft());
      CompleteHasSigs(w, Moment(cache, now), rrset, NextRrsigKey, l, false);
      done := RrsigKeyPhase(cache, now);
      FollowsMeans(done, if key == [] then Fail
                         else StepOf(rrsigKey != [], SigsDue(cache, rrsig[0].rdata.signer, TYPE_DNSKEY),
                                     FirstNegative(cache, rrsig[0].rdata.signer, TYPE_RRSIG)));
      if key != [] { RrsigKeyFared(cache, now, goal, done); }
      KeptIs();
      if done {
        done := FromDs(cache, now, goal);
      } else {
        WaitingIs(cache, now);
        WaitingIs(goal.cache, goal.now);
        LedIs(goal, false);
      }
    }

    method FromKey(cache: Cache, now: nat, ghost goal: Moment, ghost l: Lists) returns (done: bool)
      requires Active() && ds == [] && |ac| <= |origName| + 1 && next == NextKey && Moment(cache, now) in moments
      requires l == Kept() && Unfetched(NextKey, l)
      modifies this`key, this`rrsigKey, this`ds, this`next
      modifies this`mode, this`qName, this`qType, this`packets, this`delivered
      ensures done ==> Active() && next == Done && ds == DsFor(cache, rrsig[0].rdata.signer, key)
      ensures !done ==> Valid() && mode in {Querying, Proving, Finished} && Secure !in delivered
      ensures !done && mode == Querying ==> Lacking(cache, now) && Rank(next) > 1
      ensures Agrees(w, cache, now, goal) && Promising(w, goal, rrset, NextKey, l, StepsLeft()) ==>
                Led(goal, done)
      ensures rrset != []
      ensures Complete(w, Moment(cache, now), rrset, NextKey, l, false) ==>
                done && All() == Gathered(Moment(cache, now), rrset, NextKey, l)
    {
      hide *;
      ActiveIs();
      PhaseRanks();
      KeptIs();
      PromiseHasSigs(w, goal, rrset, NextKey, l, StepsLeft());
      CompleteHasSigs(w, Moment(cache, now), rrset, NextKey, l, false);
      done := KeyPhase(cache);
      FollowsMeans(done, if rrsig == [] then Fail
                         else StepOf(key != [], false, FirstNegative(cache, rrsig[0].rdata.signer, TYPE_DNSKEY)));
      if rrsig != [] { KeyFared(cache, now, goal, done); }
      KeptIs();
      if done {
        done := FromRrsigKey(cache, now, goal, Kept());
      } else {
        WaitingIs(cache, now);
        WaitingIs(goal.cache, goal.now);
        LedIs(goal, false);
      }
    }

    /**
     * True when everything is there; otherwise a question is out, for what the cache lacks, or a proof has
     * begun or the result is delivered.  Each phase falls through to the next.
     */
    method GetAllRRSetsForVerification(cache: Cache, now: nat, ghost goal: Moment, ghost l: Lists)
      returns (done: bool)
      requires Active() && ds == [] && |ac| <= |origName| + 1 && Moment(cache, now) in moments 
      requires l == Kept() && Unfetched(next, l)
      modifies this`rrsig, this`key, this`rrsigKey, this`ds, this`next
      modifies this`mode, this`qName, this`qType, this`packets, this`delivered
      ensures rrset != []
      ensures done ==> Active() && next == Done
      ensures done && old(next) != Done ==> ds == DsFor(cache, rrsig[0].rdata.signer, key)
      ensures !done ==> Valid() && mode in {Querying, Proving, Finished} && Secure !in delivered
      ensures !done && mode == Querying ==> Lacking(cache, now) && Rank(next) > Rank(old(next))
      ensures old(next) != Done && Agrees(w, cache, now, goal) &&
              Promising(w, goal, rrset, old(next), l, StepsLeft()) ==>
                Led(goal, done)
      ensures old(next) != Done && Complete(w, Moment(cache, now), rrset, old(next), l, false) ==>
                done && All() == Gathered(Moment(cache, now), rrset, old(next), l)
    {
      hide *;
      ActiveIs();
      PhaseRanks();
      KeptIs();
      match next {
        case Done => return true;
        case NextRrsig =>
          done := RrsigPhase(cache, now);
          FollowsMeans(done, StepOf(rrsig != [], SigsDue(cache, rrset[0].name, rrset[0].Type()),
                                    FirstNegative(cache, rrset[0].name, TYPE_RRSIG)));
          RrsigFared(cache, now, goal, done);
          KeptIs();
          if done {
            done := FromKey(cache, now, goal, Kept());
          } else {
            WaitingIs(cache, now);
            WaitingIs(goal.cache, goal.now);
            LedIs(goal, false);
          }
        case NextKey => done := FromKey(cache, now, goal, Kept());
        case NextRrsigKey => done := FromRrsigKey(cache, now, goal, Kept());
        case NextDs => done := FromDs(cache, now, goal);
      }
    }

    // ----- Climbing

    /** Unlinks the key and the signature and stores them with the set as the next element. */
    method AuthChainAdd(i: nat, j: nat)
      requires i < |key| && j < |rrsig|
      modifies this`ac, this`key, this`rrsig, this`rrset
      ensures ac == old(ac) + [AuthElement(old(rrset), old(rrsig)[j], old(key)[i])] && rrset == []
      ensures key == old(key)[..i] + old(key)[i + 1..] && rrsig == old(rrsig)[..j] + old(rrsig)[j + 1..]
    {
      ac := ac + [AuthElement(rrset, rrsig[j], key[i])];
      rrset := [];
      key := key[..i] + key[i + 1..];
      rrsig := rrsig[..j] + rrsig[j + 1..];
    }

    method FreeRRSets()
      modifies this`rrset, this`rrsig, this`key, this`rrsigKey, this`ds
      ensures rrset == [] && NothingCollected()
    {
      rrset, rrsig, key, rrsigKey, ds := [], [], [], [], [];
    }

    /** Gathers the set that answers the question; a negative answer ends or diverts the verification. */
    method BuildSet(cache: Cache) returns (go: bool)
      requires delivered == [] && rrset == [] && |ac| <= |origName| + 1
      modifies this`currQtype, this`rrset, this`mode, this`delivered, this`next
      ensures go ==> rrset == AnswerSet(w, cache, qName, qType) && next == NextRrsig && delivered == []
      ensures go ==> mode == old(mode) && currQtype == qType
      ensures !go ==> Valid() && mode in {Proving, Finished} && Secure !in delivered
      ensures match FirstDenial(w, cache, qName, qType)
              case Some(c) =>
                !go && if c.nsec then mode == Proving && delivered == [] else mode == Finished && delivered == [Bogus]
              case None =>
                if AnswerSet(w, cache, qName, qType) == [] then !go && mode == Finished && delivered == [Bogus] else go
    {
      hide Answers, Valid;
      currQtype := qType;
      for i := 0 to |cache|
        invariant rrset == AnswerSet(w, cache[..i], qName, qType)
        invariant delivered == [] && mode == old(mode) && currQtype == qType
        invariant FirstDenial(w, cache[..i], qName, qType) == None
      {
        assert cache[..i + 1][..i] == cache[..i];
        if Answers(w, cache[i], qName, qType) {
          if cache[i].Negative? {
            DenialStays(w, cache, qName, qType, i + 1);
            if !cache[i].nsec { DeliverBogus(); return false; }
            Prove();
            return false;
          }
          rrset := rrset + [cache[i].rr];
        }
      }
      assert cache[..|cache|] == cache;
      if rrset == [] { DeliverBogus(); return false; }
      next := NextRrsig;
      return true;
    }

    /** VerifySignature for the question that started the verification. */
    method Begin(cache: Cache)
      requires Valid() && mode == Idle
      modifies this
      ensures Valid() && mode != Idle && begun == cache && moments == old(moments)
      ensures match FirstDenial(w, cache, origName, origType)
              case Some(c) => if c.nsec then mode == Proving && delivered == [] else delivered == [Bogus]
              case None => if First() == [] then delivered == [Bogus] else mode == Dispatched && rrset == First()
    {
      hide Same, AnswerSet, AllPositive, FirstDenial;
      begun := cache;
      var go := BuildSet(cache);
      if go {
        CollectedNone(rrset);
        mode := Dispatched;
      }
    }

    /** The labels left to climb: those of the set at hand, and one more before the first DS set. */
    ghost function Height(): nat
      reads this`rrset, this`ac
    {
      if rrset == [] then 0 else |rrset[0].name| + (if ac == [] then 1 else 0)
    }

    /** The chain ends in an element that was vouched for out of this cache. */
    ghost predicate Climbing(cache: Cache)
      reads this`recursed, this`ac, this`wildcard, this`slipped, this`links, this`moments, this`begun, this`qName
      reads this`qType, this`rrsig, this`key, this`rrsigKey, this`ds
    {
      && recursed == |ac| < MAX_RECURSE_COUNT && Noted()
      && ac != [] && |links| == |ac| && Linked(w, ac, links, moments) && ac[0].rrset == First()
      && (var l := links[|links| - 1];
          l.moment.cache == cache && Same(qName, l.signer) && |qName| == SignerLabels(ac[|ac| - 1]))
      && qType == TYPE_DS && NothingCollected()
    }

    /** With the next set gathered the verification goes on. */
    lemma NextActive(cache: Cache)
      requires Climbing(cache) && delivered == [] && next == NextRrsig
      requires qType == TYPE_DS ==> rrset == AnswerSet(w, cache, qName, TYPE_DS)
      requires rrset != []
      ensures Active() && ds == [] && Kept() == NOTHING && Unfetched(next, Kept()) && next != Done
      ensures |rrset[0].name| == |qName| && Height() == |qName|
    {
      hide Linked, Same, AnswerSet, AllTimely, SignerLabels, AnyExpanded;
      NoneTimely(moments);
      AnswerSetSame(w, cache, qName, links[|links| - 1].signer, TYPE_DS);
      CollectedNone(rrset);
      assert rrset[0] in rrset;
      SameWireLength(rrset[0].name, qName);
    }

    lemma ClimbingOn(cache: Cache)
      requires recursed == |ac| < MAX_RECURSE_COUNT && Noted()
      requires ac != [] && |links| == |ac| && Linked(w, ac, links, moments) && ac[0].rrset == First()
      requires var l := links[|links| - 1];
               l.moment.cache == cache && Same(qName, l.signer) && |qName| == SignerLabels(ac[|ac| - 1])
      requires qType == TYPE_DS && NothingCollected()
      ensures Climbing(cache)
    {
      hide Linked, Same, SignerLabels, AnyExpanded;
    }

    lemma ClimbingIs(cache: Cache)
      requires Climbing(cache)
      ensures qType == TYPE_DS && recursed == |ac| < MAX_RECURSE_COUNT && StepsLeft() >= 0
    {
      hide Linked, Same, SignerLabels, AnyExpanded;
    }

    /** VerifySignature on the way up: the DS set of the zone just passed is the next set to verify. */
    method VerifySignature(cache: Cache, now: nat, ghost goal: Moment)
      requires Climbing(cache) && delivered == [] && rrset == []
      requires |ac| <= |origName| + 1 && Moment(cache, now) in moments
      modifies this
      ensures Valid() && mode in {Querying, Proving, Finished, Stalled}
      ensures moments == old(moments) && begun == old(begun) && old(ac) <= ac && old(links) <= links
      ensures delivered == [Secure] ==> securedAt == Moment(cache, now)
      ensures mode == Querying ==> Lacking(cache, now)
      ensures !old(wildcard) && Agrees(w, cache, now, goal) &&
              AnswerSet(w, cache, old(qName), TYPE_DS) == AnswerSet(w, goal.cache, old(qName), TYPE_DS) &&
              Ahead(w, goal.cache, goal.now, old(qName), old(StepsLeft())) ==>
                OnCourse(goal)
      ensures Ends(EndAbove(w, Moment(cache, now), old(qName), old(StepsLeft())))
      decreases |qName|, 5
    {
      hide *;
      ClimbingIs(cache);
      PhaseRanks();
      ghost var m, qname, steps := Moment(cache, now), qName, StepsLeft();
      EndAboveIs(w, m, qname, steps);
      ghost var ahead := Agrees(w, cache, now, goal) && Ahead(w, goal.cache, goal.now, qname, steps);
      if ahead {
        AheadMeans(w, goal, qname, steps);
        AgreesOnKeys(w, cache, now, goal, qname);
      }
      var go := BuildSet(cache);
      EndsIs();
      if !go { return; }
      NextActive(cache);
      Start(cache, now, goal);
      EndsIs();
    }

    /** StartDNSSECVerification. */
    method Start(cache: Cache, now: nat, ghost goal: Moment)
      requires Active() && ds == [] && |ac| <= |origName| + 1 && next != Done && Moment(cache, now) in moments
      requires Unfetched(next, Kept())
      modifies this
      ensures Valid() && mode in {Querying, Proving, Finished, Stalled}
      ensures moments == old(moments) && begun == old(begun) && old(ac) <= ac && old(links) <= links
      ensures delivered == [Secure] ==> securedAt == Moment(cache, now)
      ensures mode == Querying ==> Lacking(cache, now) && (|ac| > old(|ac|) || Rank(next) > Rank(old(next)))
      ensures Agrees(w, cache, now, goal) && old(!wildcard && Promising(w, goal, rrset, next, Kept(), StepsLeft())) ==>
                OnCourse(goal)
      ensures old(rrset) != []
      ensures old(Complete(w, Moment(cache, now), rrset, next, Kept(), false)) ==>
                Ends(EndOf(w, Moment(cache, now), old(rrset), old(Gathered(Moment(cache, now), rrset, next, Kept())),
                           old(StepsLeft())))
      decreases Height(), 4
    {
      hide *;
      StepsLeftIs();
      ghost var l, noted := Kept(), wildcard;
      var done := GetAllRRSetsForVerification(cache, now, goal, l);
      LedIs(goal, done);
      OnCourseIs(goal);
      if done { Finish(cache, now, goal); }
    }

    /**
     * FinishDNSSECVerification.  It is entered only with the phase done and with a set, signatures
     * and keys at hand; it comes back with a result, a question, a proof begun, or at the limit.
     */
    method Finish(cache: Cache, now: nat, ghost goal: Moment)
      requires Active() && next == Done && |ac| <= |origName| + 1 && Moment(cache, now) in moments
      requires ds == DsFor(cache, rrsig[0].rdata.signer, key)
      modifies this
      ensures Valid() && mode in {Querying, Proving, Finished, Stalled}
      ensures moments == old(moments) && begun == old(begun) && old(ac) <= ac && old(links) <= links
      ensures delivered == [Secure] ==> securedAt == Moment(cache, now)
      ensures mode == Querying ==> Lacking(cache, now) && |ac| > old(|ac|)
      ensures Agrees(w, cache, now, goal) &&
              old(!wildcard && Plain(rrset, All()) && LeadsOn(w, goal, rrset, All(), StepsLeft())) ==>
                OnCourse(goal)
      ensures Ends(EndOf(w, Moment(cache, now), old(rrset), old(All()), old(StepsLeft())))
      decreases Height(), 3
    {
      hide *;
      DoneMeans();
      ActiveIs();
      AllIs();
      ghost var steps, t, m := StepsLeft(), All(), Moment(cache, now);
      EndIs(w, m, rrset, t, steps);
      SignedPair(w, rrset, t);
      ghost var led := Agrees(w, cache, now, goal) && Plain(rrset, t) && LeadsOn(w, goal, rrset, t, steps);
      if led { LedByNow(w, cache, now, goal, rrset, t, steps); }
      NotedIs();
      var pair := ValidateSignature();
      NotedIs();
      GroundedIs();
      if pair.Some? { PairSigns(w, rrset, t, pair.value.0, pair.value.1); }
      assert (pair == None) == !Signed(w, rrset, t);
      if pair == None {
        DeliverBogus();
        EndsIs();
        return;
      }
      var (i, j) := pair.value;
      ActiveIs();
      FinishSigned(cache, now, i, j, goal);
    }

    /** A key and a signature verify the set: is there an anchor for the keys? */
    method FinishSigned(cache: Cache, now: nat, i: nat, j: nat, ghost goal: Moment)
      requires j < |rrsig| && rrset != [] && (Expanded(rrset[0].name, rrsig[j]) ==> wildcard)
      requires i < |key| && j < |rrsig| && KeyMatches(key[i], rrsig[j]) && Verifies(w, rrset, key[i], rrsig[j])
      requires Active() && next == Done && |ac| <= |origName| + 1 && Moment(cache, now) in moments
      requires ds == DsFor(cache, rrsig[0].rdata.signer, key)
      modifies this
      ensures Valid() && mode in {Querying, Proving, Finished, Stalled}
      ensures moments == old(moments) && begun == old(begun) && old(ac) <= ac && old(links) <= links
      ensures delivered == [Secure] ==> securedAt == Moment(cache, now)
      ensures mode == Querying ==> Lacking(cache, now) && |ac| > old(|ac|)
      ensures Agrees(w, cache, now, goal) &&
              old(!wildcard && key != [] && Unexpanded(key[0].name, rrsigKey) &&
                  (Trusted(w, rrsig[0].rdata.signer, All(), now) ||
                   (StepsLeft() >= 1 && Delegated(w, rrsig[0].rdata.signer, All()) &&
                    Ahead(w, goal.cache, goal.now, rrsig[0].rdata.signer, StepsLeft() - 1)))) ==>
                OnCourse(goal)
      ensures old(rrsig) != []
      ensures Ends(if old(Trusted(w, rrsig[0].rdata.signer, All(), now)) 
                   then (if old(NoteLost(w, All())) then Assured else Accepted)
                   else if !old(Delegated(w, rrsig[0].rdata.signer, All())) then Refused
                   else if old(StepsLeft()) < 1 then Exhausted
                   else EndAbove(w, Moment(cache, now), old(rrsig)[0].rdata.signer, old(StepsLeft()) - 1))
      decreases Height(), 2
    {
      hide *;
      DoneMeans();
      ActiveIs();
      AllIs();
      ghost var t, e := All(), AuthElement(rrset, rrsig[j], key[i]);
      TrustedPair(w, rrsig[0].rdata.signer, t, now);
      ElementJoins(w, origName, First(), ac, links, moments, rrset, rrsig, key, rrsigKey, i, j);
      NotedIs();
      var trusted := TrustedKey(now);
      NotedIs();
      GroundedIs();
      if trusted.Some? { PairTrusts(w, rrsig[0].rdata.signer, t, now, trusted.value.0, trusted.value.1); }
      assert trusted.Some? == Trusted(w, rrsig[0].rdata.signer, t, now);
      if trusted.Some? {
        AnchorFound(w, rrset, rrsig, key, rrsigKey, i, j, trusted.value.0, trusted.value.1, moments, now);
        SecureNow(w, First(), ac, links, moments, e, Moment(cache, now));
        Conclude(i, j, Moment(cache, now));
        OnCourseIs(goal);
        EndsIs();
        return;
      }
      ActiveIs();
      FinishByDs(cache, now, i, j, goal);
    }

    /** The second half: no anchor vouches for the key set, a DS record has to. */
    method FinishByDs(cache: Cache, now: nat, i: nat, j: nat, ghost goal: Moment)
      requires j < |rrsig| && rrset != [] && (Expanded(rrset[0].name, rrsig[j]) ==> wildcard || slipped)
      requires i < |key| && j < |rrsig| && KeyMatches(key[i], rrsig[j])
      requires Active() && next == Done && |ac| <= |origName| + 1 && Moment(cache, now) in moments
      requires ds == DsFor(cache, rrsig[0].rdata.signer, key)
      requires Linked(w, ac + [AuthElement(rrset, rrsig[j], key[i])], links, moments)
      requires (ac + [AuthElement(rrset, rrsig[j], key[i])])[0].rrset == First() && |ac| <= |origName|
      modifies this
      ensures Valid() && mode in {Querying, Proving, Finished, Stalled}
      ensures moments == old(moments) && begun == old(begun) && old(ac) <= ac && old(links) <= links
      ensures delivered == [Secure] ==> securedAt == Moment(cache, now)
      ensures mode == Querying ==> Lacking(cache, now) && |ac| > old(|ac|)
      ensures Agrees(w, cache, now, goal) &&
              old(!wildcard && key != [] && Unexpanded(key[0].name, rrsigKey) && StepsLeft() >= 1 &&
                  Delegated(w, rrsig[0].rdata.signer, All()) &&
                  Ahead(w, goal.cache, goal.now, rrsig[0].rdata.signer, StepsLeft() - 1)) ==>
                OnCourse(goal)
      ensures old(rrsig) != []
      ensures Ends(if !old(Delegated(w, rrsig[0].rdata.signer, All())) then Refused
                   else if old(StepsLeft()) < 1 then Exhausted
                   else EndAbove(w, Moment(cache, now), old(rrsig)[0].rdata.signer, old(StepsLeft()) - 1))
      decreases Height(), 1
    {
      hide *;
      DoneMeans();
      AllIs();
      KeptIs();
      ghost var signer, t := rrsig[0].rdata.signer, All();
      DelegatedAt(w, signer, t);
      NotedIs();
      var validated := ValidateDs();
      NotedIs();
      if validated == None {
        DeliverBogus();
        EndsIs();
        return;
      }
      var (a, b) := validated.value;
      ghost var l := Link(Moment(cache, now), signer, key, rrsigKey, key[b], ds[a]);
      DsFound(w, rrset, rrsig, key, rrsigKey, i, j, ds, l, moments, a, b);
      AheadSame(w, Moment(cache, now), qName, signer, StepsLeft() - 1);
      AheadSame(w, goal, qName, signer, StepsLeft() - 1);
      if Agrees(w, cache, now, goal) { AgreesOnDs(w, cache, now, goal, signer, key); }
      SignerBelow(rrset, rrsig, key, rrsigKey, ac, links, moments, w, First(), i, j, qName);
      Climb(cache, now, i, j, l, goal);
    }

    /** The set is vouched for by a DS record: on to the DS set. */
    method Climb(cache: Cache, now: nat, i: nat, j: nat, ghost l: Link, ghost goal: Moment)
      requires i < |key| && j < |rrsig| && delivered == [] && recursed == |ac| < MAX_RECURSE_COUNT && rrset != []
      requires |links| == |ac| && l.moment == Moment(cache, now) && l.moment in moments
      requires var e := AuthElement(rrset, rrsig[j], key[i]);
               && Linked(w, ac + [e], links, moments) && (ac + [e])[0].rrset == First() && |ac + [e]| <= |origName| + 1
               && VouchedOver(w, e, l, moments)
               && qType == TYPE_DS && Same(qName, l.signer) && |qName| == SignerLabels(e)
      requires |qName| < Height() && Noted() && (Expanded(rrset[0].name, rrsig[j]) ==> wildcard || slipped)
      modifies this
      ensures Valid() && mode in {Querying, Proving, Finished, Stalled}
      ensures moments == old(moments) && begun == old(begun) && old(ac) <= ac && old(links) <= links
      ensures delivered == [Secure] ==> securedAt == Moment(cache, now)
      ensures mode == Querying ==> Lacking(cache, now) && |ac| > old(|ac|)
      ensures !old(wildcard) && old(StepsLeft()) >= 1 && Agrees(w, cache, now, goal) &&
              AnswerSet(w, cache, old(qName), TYPE_DS) == AnswerSet(w, goal.cache, old(qName), TYPE_DS) &&
              Ahead(w, goal.cache, goal.now, old(qName), old(StepsLeft()) - 1) ==>
                OnCourse(goal)
      ensures Ends(if old(StepsLeft()) < 1 then Exhausted
                   else EndAbove(w, Moment(cache, now), old(qName), old(StepsLeft()) - 1))
      decreases Height(), 0
    {
      hide *;
      RecursionLimit();
      StepsLeftIs();
      NotedIs();
      LinkedOver(w, ac + [AuthElement(rrset, rrsig[j], key[i])], links, moments, l);
      AnyMore(ac, AuthElement(rrset, rrsig[j], key[i]));
      AuthChainAdd(i, j);
      links := links + [l];
      FreeRRSets();
      recursed := recursed + 1;
      NotedIs();
      StepsLeftIs();
      if recursed < MAX_RECURSE_COUNT {
        ClimbingOn(cache);
        VerifySignature(cache, now, goal);
      } else {
        Stall();
        EndsIs();
      }
    }

    lemma StepsLeftIs()
      ensures StepsLeft() == MAX_RECURSE_COUNT - 1 - |ac|
    {
    }

    lemma OnCourseIs(goal: Moment)
      ensures OnCourse(goal) <==>
                || delivered == [Secure]
                || (mode == Querying && !wildcard && Promising(w, goal, rrset, Fetching(next), Kept(), StepsLeft())
                    && !Lacking(goal.cache, goal.now))
    {
      hide Promising, Lacking;
    }

    lemma EndsIs()
      ensures mode == Finished && delivered == [Bogus] ==> Ends(Refused)
      ensures mode == Stalled && delivered == [] ==> Ends(Exhausted)
      ensures (if wildcard then mode == Proving && delivered == [] else mode == Finished && delivered == [Secure]) ==>
                Ends(Accepted)
      ensures mode == Finished && delivered == [Secure] ==> Ends(Assured)
      ensures mode == Proving && delivered == [] ==> Ends(Deferred)
      ensures Ends(Open)
    {
    }

    /** A trust anchor was met: Secure, unless a wildcard answer has to be proved first. */
    method Conclude(i: nat, j: nat, ghost at: Moment)
      requires i < |key| && j < |rrsig| && delivered == [] && rrset != []
      requires Noted() && (Expanded(rrset[0].name, rrsig[j]) ==> wildcard || slipped)
      requires var e := AuthElement(rrset, rrsig[j], key[i]);
               SecureChain(w, First(), ac + [e], links, moments, at) && |ac + [e]| <= |origName| + 1
      modifies this
      ensures Valid() && ac == old(ac) + [AuthElement(old(rrset), old(rrsig)[j], old(key)[i])]
      ensures moments == old(moments) && begun == old(begun) && old(ac) <= ac && old(links) <= links
      ensures if wildcard then mode == Proving && delivered == []
              else mode == Finished && delivered == [Secure] && securedAt == at
      ensures wildcard == old(wildcard)
    {
      hide SecureChain, Expanded, AnyExpanded;
      AnyMore(ac, AuthElement(rrset, rrsig[j], key[i]));
      AuthChainAdd(i, j);
      if wildcard { mode := Proving; return; }
      securedAt := at;
      mode, delivered := Finished, [Secure];
    }

    lemma DoneMeans()
      requires Active() && next == Done
      ensures delivered == [] && recursed == |ac| == |links| < MAX_RECURSE_COUNT && Noted()
      ensures rrset != [] && rrsig != [] && key != [] && qType == TYPE_DS && Same(qName, rrsig[0].rdata.signer)
      ensures Collected(rrset, rrsig, key, rrsigKey) && Pending(w, First(), ac, links, moments, rrset)
      ensures AllTimely(rrsig, moments) && AllTimely(rrsigKey, moments)
      ensures Height() == |rrset[0].name| + (if ac == [] then 1 else 0)
      ensures forall r :: r in First() ==> Same(r.name, origName)
    {
      hide AllTimely, Linked, Same;
    }

    lemma Questioned()
      requires Valid() && mode == Querying
      ensures Active() && next != NextRrsig && ds == [] && |ac| <= |origName| + 1
      ensures Unfetched(Fetching(next), Kept())
    {
      hide Active, SecureChain;
    }

    /** While signatures of the keys are awaited, another key may come. */
    method OneMoreKey(rr: KeyRR)
      requires Valid() && mode == Querying && next == NextDs && rrsig != []
      modifies this`key
      ensures Valid()
      ensures key == old(key) + if Same(rrsig[0].rdata.signer, rr.name) then [rr] else []
    {
      hide Collected, Pending, AllTimely, SecureChain, Linked;
      CollectedOneKey(rrset, rrsig, key, rrsigKey, rr);
      CheckOneKeyForRrsig(rr);
    }

    // ----- Answers

    ghost predicate Heard(answer: Option<CacheRecord>, timedOut: bool)
      reads this`next
    {
      answer.Some? && !timedOut && Answering(next, answer.value)
    }

    lemma HeardIs(answer: Option<CacheRecord>, timedOut: bool)
      ensures Heard(answer, timedOut) <==> answer.Some? && !timedOut && Answering(next, answer.value)
    {
    }

    /** What was asked for is neither there nor denied, or both; or the DS records are denied without a proof. */
    ghost predicate Confused(cache: Cache, now: nat)
      reads this`next, this`rrset, this`rrsig, this`key
    {
      match next
      case NextRrsig => false
      case NextKey =>
        rrset != [] &&
        ((SigsFor(cache, rrset[0].name, rrset[0], now) == []) <==>
         FirstNegative(cache, rrset[0].name, TYPE_RRSIG).None?)
      case NextRrsigKey =>
        rrsig != [] &&
        ((KeysFor(cache, rrsig[0].rdata.signer) == []) <==>
         FirstNegative(cache, rrsig[0].rdata.signer, TYPE_DNSKEY).None?)
      case NextDs =>
        rrsig != [] && key != [] &&
        ((SigsFor(cache, rrsig[0].rdata.signer, key[0], now) == []) <==>
         FirstNegative(cache, rrsig[0].rdata.signer, TYPE_RRSIG).None?)
      case Done => DsDenied(cache) == Some(false)
    }

    /** Whether a denial of the DS records has a proof, if there is one. */
    ghost function DsDenied(cache: Cache): Option<bool>
      reads this`rrsig
    {
      if rrsig == [] then None
      else
        match FirstNegative(cache, rrsig[0].rdata.signer, TYPE_DS)
        case None => None
        case Some(c) => Some(c.nsec)
    }

    lemma ConfusedIs(cache: Cache, now: nat)
      ensures next == NextKey && rrset != [] ==>
                (Confused(cache, now) <==> ((SigsFor(cache, rrset[0].name, rrset[0], now) == []) <==>
                                            FirstNegative(cache, rrset[0].name, TYPE_RRSIG).None?))
      ensures next == NextRrsigKey && rrsig != [] ==>
                (Confused(cache, now) <==> ((KeysFor(cache, rrsig[0].rdata.signer) == []) <==>
                                            FirstNegative(cache, rrsig[0].rdata.signer, TYPE_DNSKEY).None?))
      ensures next == NextDs && rrsig != [] && key != [] ==>
                (Confused(cache, now) <==> ((SigsFor(cache, rrsig[0].rdata.signer, key[0], now) == []) <==>
                                            FirstNegative(cache, rrsig[0].rdata.signer, TYPE_RRSIG).None?))
      ensures next == Done ==> (Confused(cache, now) <==> DsDenied(cache) == Some(false))
      ensures rrsig != [] ==>
                var neg := FirstNegative(cache, rrsig[0].rdata.signer, TYPE_DS);
                DsDenied(cache) == if neg == None then None else Some(neg.value.nsec)
    {
      hide SigsFor, KeysFor, FirstNegative;
    }

    /**
     * VerifySigCallback: a record, or nothing, has come for the question that is out.  If it is what was
     * asked for, and with it the cache leads on to an anchor, the result is Secure.
     */
    method Answer(cache: Cache, now: nat, answer: Option<CacheRecord>, timedOut: bool, ghost goal: Moment)
      requires Valid() && mode == Querying && Moment(cache, now) in moments
      modifies this
      ensures Valid() && mode in {Querying, Proving, Finished, Stalled}
      ensures moments == old(moments) && begun == old(begun) && old(ac) <= ac && old(links) <= links
      ensures delivered == [Secure] ==> securedAt == Moment(cache, now)
      ensures answer == None || timedOut ==> delivered == [Bogus]
      ensures answer.Some? && !timedOut && answer.value.Negative? ==>
                if answer.value in cache && answer.value.nsec then mode == Proving else delivered == [Bogus]
      ensures answer.Some? && !timedOut && answer.value.Positive? && !Answering(old(next), answer.value) ==>
                && mode == Querying && next == old(next) && ac == old(ac) && rrset == old(rrset) && qName == old(qName)
                && rrsig == old(rrsig) && rrsigKey == old(rrsigKey) && qType == old(qType) && delivered == []
                && key == old(key) +
                          if next == NextDs && answer.value.rr.rdata.Key? && rrsig != [] &&
                             Same(rrsig[0].rdata.signer, answer.value.rr.name)
                          then [answer.value.rr] else []
      ensures old(Heard(answer, timedOut) && Confused(cache, now)) ==> delivered == [Bogus]
      ensures old(Heard(answer, timedOut) && next == Done && DsDenied(cache) == Some(true)) ==> mode == Proving
      ensures old(Heard(answer, timedOut)) ==>
                && (mode == Querying ==> |ac| > old(|ac|) || Rank(next) > Rank(old(next)))
                && (old(!wildcard && Promising(w, Moment(cache, now), rrset, Fetching(next), Kept(), StepsLeft())) ==>
                      delivered == [Secure])
                && (Agrees(w, cache, now, goal) && old(!Lacking(cache, now)) &&
                    old(!wildcard && Promising(w, goal, rrset, Fetching(next), Kept(), StepsLeft())) ==>
                      OnCourse(goal))
                && old(rrset) != []
                && (old(Complete(w, Moment(cache, now), rrset, Fetching(next), Kept(), next == Done)) ==>
                      Ends(EndOf(w, Moment(cache, now), old(rrset),
                                 old(Gathered(Moment(cache, now), rrset, Fetching(next), Kept())), old(StepsLeft()))))
    {
      hide *;
      PhaseRanks();
      Questioned();
      ActiveIs();
      PhaseIs();
      ConfusedIs(cache, now);
      HeardIs(answer, timedOut);
      if answer == None || timedOut { DeliverBogus(); return; }
      var c := answer.value;
      AnsweringIs(next, c);
      if c.Negative? {
        if c in cache && c.nsec { Prove(); } else { DeliverBogus(); }
        return;
      }
      if next == NextRrsig { return; }
      ghost var m := Moment(cache, now);
      ghost var own := Promising(w, m, rrset, Fetching(next), Kept(), StepsLeft());
      ghost var aim := if own then m else goal;
      if own { AgreesItself(w, m); }
      WaitingIs(cache, now);
      if next == Done {
        DoneAnswer(cache, now, aim);
      } else {
        var go := Awaited(cache, now, c, aim);
        if go { Start(cache, now, aim); }
      }
      OnCourseIs(aim);
      OnCourseIs(goal);
    }

    /** Signatures of the set were asked for. */
    method AwaitedRrsig(cache: Cache, now: nat, c: CacheRecord, ghost goal: Moment) returns (go: bool)
      requires Valid() && mode == Querying && next == NextKey && c.Positive? && Moment(cache, now) in moments
      modifies this`rrsig, this`mode, this`delivered
      ensures rrset != []
      ensures go ==> Active() && ds == [] && |ac| <= |origName| + 1 && Unfetched(next, Kept())
      ensures !Answering(next, c) ==>
                && !go && Valid() && mode == Querying && delivered == []
                && rrsig == old(rrsig) && rrsigKey == old(rrsigKey)
                && key == old(key)
      ensures Answering(next, c) ==> go == !old(Confused(cache, now))
      ensures Answering(next, c) && !go ==> Valid() && mode == Finished && delivered == [Bogus]
      ensures Answering(next, c) && Agrees(w, cache, now, goal) && old(!Lacking(cache, now)) &&
              old(Promising(w, goal, rrset, NextRrsig, Kept(), StepsLeft())) ==>
                go && Promising(w, goal, rrset, NextKey, Kept(), StepsLeft())
      ensures Answering(next, c) && old(Complete(w, Moment(cache, now), rrset, NextRrsig, Kept(), false)) ==>
                && go && Complete(w, Moment(cache, now), rrset, NextKey, Kept(), false)
                && Gathered(Moment(cache, now), rrset, NextKey, Kept()) ==
                   old(Gathered(Moment(cache, now), rrset, NextRrsig, Kept()))
    {
      hide *;
      PhaseRanks();
      TypesDiffer();
      Questioned();
      ActiveIs();
      PhaseIs();
      ConfusedIs(cache, now);
      KeptIs();
      AnsweringIs(next, c);
      WaitingIs(cache, now);
      ghost var m, l := Moment(cache, now), Kept();
      if c.Type() != TYPE_RRSIG { return false; }
      CollectedRrsig(rrset, rrsig, key, rrsigKey, cache, now);
      StillTimely(rrsig, cache, rrset[0].name, rrset[0], now, moments);
      if Agrees(w, cache, now, goal) && Promising(w, goal, rrset, NextRrsig, l, StepsLeft()) {
        PromiseSigs(w, cache, now, goal, rrset, StepsLeft());
      }
      if Complete(w, m, rrset, NextRrsig, l, false) { CompleteSigs(w, m, rrset, false); }
      var err, _ := CheckRrsigForRrset(cache, now);
      assert rrsig == SigsFor(cache, rrset[0].name, rrset[0], now);
      if err != NoError { DeliverBogus(); return false; }
      ActiveIs();
      PhaseIs();
      KeptIs();
      return true;
    }

    /** Keys were asked for. */
    method AwaitedKey(cache: Cache, now: nat, c: CacheRecord, ghost goal: Moment) returns (go: bool)
      requires Valid() && mode == Querying && next == NextRrsigKey && c.Positive? && Moment(cache, now) in moments
      modifies this`key, this`mode, this`delivered
      ensures rrset != []
      ensures go ==> Active() && ds == [] && |ac| <= |origName| + 1 && Unfetched(next, Kept())
      ensures !Answering(next, c) ==>
                && !go && Valid() && mode == Querying && delivered == []
                && rrsig == old(rrsig) && rrsigKey == old(rrsigKey)
                && key == old(key)
      ensures Answering(next, c) ==> go == !old(Confused(cache, now))
      ensures Answering(next, c) && !go ==> Valid() && mode == Finished && delivered == [Bogus]
      ensures Answering(next, c) && Agrees(w, cache, now, goal) && old(!Lacking(cache, now)) &&
              old(Promising(w, goal, rrset, NextKey, Kept(), StepsLeft())) ==>
                go && Promising(w, goal, rrset, NextRrsigKey, Kept(), StepsLeft())
      ensures Answering(next, c) && old(Complete(w, Moment(cache, now), rrset, NextKey, Kept(), false)) ==>
                && go && Complete(w, Moment(cache, now), rrset, NextRrsigKey, Kept(), false)
                && Gathered(Moment(cache, now), rrset, NextRrsigKey, Kept()) ==
                   old(Gathered(Moment(cache, now), rrset, NextKey, Kept()))
    {
      hide *;
      PhaseRanks();
      TypesDiffer();
      Questioned();
      ActiveIs();
      PhaseIs();
      ConfusedIs(cache, now);
      KeptIs();
      AnsweringIs(next, c);
      WaitingIs(cache, now);
      ghost var m, l := Moment(cache, now), Kept();
      if c.Type() == TYPE_RRSIG || c.Type() != qType { return false; }
      CollectedKey(rrset, rrsig, key, rrsigKey, cache);
      if Agrees(w, cache, now, goal) && Promising(w, goal, rrset, NextKey, l, StepsLeft()) {
        PromiseKeys(w, cache, now, goal, rrset, rrsig, StepsLeft());
      }
      if Complete(w, m, rrset, NextKey, l, false) { CompleteKeys(w, m, rrset, rrsig, false); }
      var err, _ := CheckKeyForRrsig(cache);
      assert key == KeysFor(cache, rrsig[0].rdata.signer);
      if err != NoError { DeliverBogus(); return false; }
      ActiveIs();
      PhaseIs();
      KeptIs();
      return true;
    }

    /** Signatures of the keys were asked for; another key may come first. */
    method AwaitedRrsigKey(cache: Cache, now: nat, c: CacheRecord, ghost goal: Moment) returns (go: bool)
      requires Valid() && mode == Querying && next == NextDs && c.Positive? && Moment(cache, now) in moments
      modifies this`key, this`rrsigKey, this`mode, this`delivered
      ensures rrset != []
      ensures go ==> Active() && ds == [] && |ac| <= |origName| + 1 && Unfetched(next, Kept())
      ensures !Answering(next, c) ==>
                && !go && Valid() && mode == Querying && delivered == []
                && rrsig == old(rrsig) && rrsigKey == old(rrsigKey)
                && key == old(key) +
                          if c.rr.rdata.Key? && rrsig != [] && Same(rrsig[0].rdata.signer, c.rr.name)
                          then [c.rr] else []
      ensures Answering(next, c) ==> go == !old(Confused(cache, now))
      ensures Answering(next, c) && !go ==> Valid() && mode == Finished && delivered == [Bogus]
      ensures Answering(next, c) && Agrees(w, cache, now, goal) && old(!Lacking(cache, now)) &&
              old(Promising(w, goal, rrset, NextRrsigKey, Kept(), StepsLeft())) ==>
                go && Promising(w, goal, rrset, NextDs, Kept(), StepsLeft())
      ensures Answering(next, c) && old(Complete(w, Moment(cache, now), rrset, NextRrsigKey, Kept(), false)) ==>
                && go && Complete(w, Moment(cache, now), rrset, NextDs, Kept(), false)
                && Gathered(Moment(cache, now), rrset, NextDs, Kept()) ==
                   old(Gathered(Moment(cache, now), rrset, NextRrsigKey, Kept()))
    {
      hide *;
      PhaseRanks();
      TypesDiffer();
      Questioned();
      ActiveIs();
      PhaseIs();
      ConfusedIs(cache, now);
      KeptIs();
      AnsweringIs(next, c);
      WaitingIs(cache, now);
      ghost var m, l := Moment(cache, now), Kept();
      KeysAlone(c);
      if c.Type() == qType {
        if c.rr.rdata.Key? { OneMoreKey(c.rr); }
        Questioned();
        ActiveIs();
        return false;
      }
      if c.Type() != TYPE_RRSIG { return false; }
      CollectedRrsigKey(rrset, rrsig, key, rrsigKey, cache, now);
      StillTimely(rrsigKey, cache, rrsig[0].rdata.signer, key[0], now, moments);
      if Agrees(w, cache, now, goal) && Promising(w, goal, rrset, NextRrsigKey, l, StepsLeft()) {
        PromiseKeySigs(w, cache, now, goal, rrset, rrsig, key, StepsLeft());
      }
      if Complete(w, m, rrset, NextRrsigKey, l, false) { CompleteKeySigs(w, m, rrset, rrsig, key, false); }
      var err, _ := CheckRrsigForKey(cache, now);
      assert rrsigKey == SigsFor(cache, rrsig[0].rdata.signer, key[0], now);
      if err != NoError { DeliverBogus(); return false; }
      ActiveIs();
      PhaseIs();
      KeptIs();
      return true;
    }

    /** What the answer was waited for is collected; true if the phases can go on. */
    method Awaited(cache: Cache, now: nat, c: CacheRecord, ghost goal: Moment) returns (go: bool)
      requires Valid() && mode == Querying && next != NextRrsig && next != Done
      requires c.Positive? && Moment(cache, now) in moments
      modifies this`rrsig, this`key, this`rrsigKey, this`mode, this`delivered
      ensures rrset != []
      ensures go ==> Active() && ds == [] && |ac| <= |origName| + 1 && Unfetched(next, Kept())
      ensures !Answering(next, c) ==>
                && !go && Valid() && mode == Querying && delivered == []
                && rrsig == old(rrsig) && rrsigKey == old(rrsigKey)
                && key == old(key) +
                          if next == NextDs && c.rr.rdata.Key? && rrsig != [] && Same(rrsig[0].rdata.signer, c.rr.name)
                          then [c.rr] else []
      ensures Answering(next, c) ==> go == !old(Confused(cache, now))
      ensures Answering(next, c) && !go ==> Valid() && mode == Finished && delivered == [Bogus]
      ensures Answering(next, c) && Agrees(w, cache, now, goal) && old(!Lacking(cache, now)) &&
              old(Promising(w, goal, rrset, Fetching(next), Kept(), StepsLeft())) ==>
                go && Promising(w, goal, rrset, next, Kept(), StepsLeft())
      ensures Answering(next, c) && old(Complete(w, Moment(cache, now), rrset, Fetching(next), Kept(), false)) ==>
                && go && Complete(w, Moment(cache, now), rrset, next, Kept(), false)
                && Gathered(Moment(cache, now), rrset, next, Kept()) ==
                   old(Gathered(Moment(cache, now), rrset, Fetching(next), Kept()))
    {
      hide *;
      PhaseRanks();
      if next == NextKey {
        go := AwaitedRrsig(cache, now, c, goal);
      } else if next == NextRrsigKey {
        go := AwaitedKey(cache, now, c, goal);
      } else {
        go := AwaitedRrsigKey(cache, now, c, goal);
      }
    }

    /** The answer to the DS question. */
    method DoneAnswer(cache: Cache, now: nat, ghost goal: Moment)
      requires Valid() && mode == Querying && next == Done && Moment(cache, now) in moments
      modifies this
      ensures Valid() && mode in {Querying, Proving, Finished, Stalled}
      ensures moments == old(moments) && begun == old(begun) && old(ac) <= ac && old(links) <= links
      ensures delivered == [Secure] ==> securedAt == Moment(cache, now)
      ensures mode == Querying ==> Lacking(cache, now) && |ac| > old(|ac|)
      ensures old(DsDenied(cache)) == Some(true) ==> mode == Proving
      ensures old(DsDenied(cache)) == Some(false) ==> delivered == [Bogus]
      ensures old(rrset) != []
      ensures Agrees(w, cache, now, goal) && (goal == Moment(cache, now) || old(!Lacking(cache, now))) &&
              old(!wildcard && Promising(w, goal, rrset, NextDs, Kept(), StepsLeft())) ==>
                OnCourse(goal)
      ensures old(Complete(w, Moment(cache, now), rrset, NextDs, Kept(), true)) ==>
                Ends(EndOf(w, Moment(cache, now), old(rrset), old(Gathered(Moment(cache, now), rrset, NextDs, Kept())),
                           old(StepsLeft())))
    {
      hide *;
      PhaseRanks();
      Questioned();
      ActiveIs();
      PhaseIs();
      ConfusedIs(cache, now);
      KeptIs();
      AllIs();
      WaitingIs(cache, now);
      ghost var m := Moment(cache, now);
      if Agrees(w, cache, now, goal) && Promising(w, goal, rrset, NextDs, Kept(), StepsLeft()) {
        PromiseDs(w, cache, now, goal, rrset, Kept(), StepsLeft());
        if goal == m {
          PromiseMeans(w, m, rrset, NextDs, Kept(), StepsLeft());
          DsOf(m, rrset, Kept());
        }
      }
      if Complete(w, m, rrset, NextDs, Kept(), true) { CompleteDs(w, m, rrset, Kept(), true); }
      var _, neg := CheckDsForKey(cache);
      assert ds == DsFor(cache, rrsig[0].rdata.signer, key);
      AllIs();
      if neg.Some? {
        if neg.value.nsec { Prove(); } else { DeliverBogus(); }
        return;
      }
      ActiveIs();
      Finish(cache, now, goal);
    }

    /** A callback happens: what was so at the moments before is so still. */
    ghost method Note(m: Moment)
      requires Valid()
      modifies this`moments
      ensures Valid() && moments == old(moments) + {m}
    {
      hide *;
      ValidParts();
      ActiveIs();
      GroundedIs();
      ghost var more := moments + {m};
      if Active() {
        TimelyLater(rrsig, moments, more);
        TimelyLater(rrsigKey, moments, more);
        PendingLater(w, First(), ac, links, moments, rrset, more);
      }
      if Linked(w, ac, links, moments) { LinkedLater(w, ac, links, moments, more); }
      if SecureChain(w, First(), ac, links, moments, securedAt) {
        SecureLater(w, First(), ac, links, moments, more, securedAt);
      }
      moments := more;
      GroundedIs();
      ActiveIs();
      ValidParts();
    }

    lemma GroundedIs()
      ensures Grounded() <==>
                && delivered == [] && recursed == |ac| == |links| < MAX_RECURSE_COUNT && Noted()
                && Pending(w, First(), ac, links, moments, rrset)
    {
      hide Pending;
    }

    lemma ValidParts()
      ensures Valid() <==>
                && (mode == Idle ==>
                      delivered == [] && ac == [] && links == [] && recursed == 0 && rrset == [] &&
                      NothingCollected() &&
                      qName == origName && qType == origType && !wildcard && !slipped)
                && (mode == Dispatched ==>
                      Active() && next == NextRrsig && NothingCollected() && !wildcard && !slipped && ac == [] &&
                      rrset == First())
                && (mode == Querying ==>
                      Active() && next != NextRrsig && ds == [] && Unfetched(Fetching(next), Kept()))
                && (mode == Proving ==> delivered == [])
                && (mode == Stalled ==>
                      delivered == [] && recursed == |ac| == MAX_RECURSE_COUNT && Linked(w, ac, links, moments))
                && (mode == Finished ==> |delivered| == 1)
                && (delivered != [] ==> mode == Finished && (delivered == [Secure] || delivered == [Bogus]))
                && (delivered == [Secure] ==>
                      SecureChain(w, First(), ac, links, moments, securedAt) && !wildcard && Noted())
                && |ac| <= |origName| + 1
    {
      hide Active, NothingCollected, SecureChain, Linked, Unfetched;
    }

    /** What the first callback was bound to come to. */
    ghost predicate Settled(m: Moment, first: seq<RR>)
      reads this`mode, this`delivered, this`wildcard
    {
      && (Reaches(w, m.cache, m.now, first, MAX_RECURSE_COUNT - 1) ==> delivered == [Secure])
      && (first != [] && Complete(w, m, first, NextRrsig, NOTHING, false) ==>
            Ends(EndOf(w, m, first, StockFor(m.cache, m.now, first), MAX_RECURSE_COUNT - 1)))
    }

    lemma SettledIs(m: Moment, first: seq<RR>)
      requires first != []
      ensures Settled(m, first) <==>
                && (Reaches(w, m.cache, m.now, first, MAX_RECURSE_COUNT - 1) ==> delivered == [Secure])
                && (Complete(w, m, first, NextRrsig, NOTHING, false) ==>
                      Ends(EndOf(w, m, first, Gathered(m, first, NextRrsig, NOTHING), MAX_RECURSE_COUNT - 1)))
    {
      hide Reaches, Complete, EndOf, Gathered, Ends;
      assert Moment(m.cache, m.now) == m;
    }

    lemma EndsMeans(e: Ending)
      ensures Ends(e) && mode == Querying ==> e == Open
      ensures Ends(Refused) ==> delivered == [Bogus]
      ensures Ends(Assured) ==> delivered == [Secure]
      ensures Ends(Accepted) ==> delivered == [Secure] || (mode == Proving && delivered == [] && wildcard)
      ensures Ends(Open)
    {
    }

    /** The first callback. */
    method FirstCallback(cache: Cache, now: nat)
      requires Valid() && mode == Dispatched && Moment(cache, now) in moments
      modifies this
      ensures Valid() && mode in {Querying, Proving, Finished, Stalled}
      ensures begun == old(begun) && moments == old(moments)
      ensures delivered == [Secure] ==> securedAt == Moment(cache, now)
      ensures old(rrset) != [] && Settled(Moment(cache, now), old(rrset))
    {
      hide *;
      ValidIs();
      ActiveIs();
      KeptIs();
      PhaseRanks();
      ghost var m, first := Moment(cache, now), rrset;
      ReachesPromise(w, m, rrset, MAX_RECURSE_COUNT - 1);
      AgreesItself(w, m);
      FreshLists();
      Start(cache, now, m);
      OnCourseIs(m);
      SettledIs(m, first);
    }

    /**
     * Any sequence of callbacks, each with the cache and the clock of its moment.  At most one result
     * comes out, and it is Secure or Bogus.  It is Secure only for a chain from the record set in question
     * that is linked step by step and anchored at the moment of the callback that delivered it.  If the
     * first callback finds everything in its cache, it is Secure if that leads up to an anchor, and Bogus if
     * no signature verifies the set, or if neither an anchor nor a DS record vouches for the keys.
     */
    method Run(events: seq<Event>)
      requires Valid() && mode != Idle
      modifies this
      ensures Valid() && moments == old(moments) + MomentsOf(events) && begun == old(begun)
      ensures |delivered| <= 1 && |ac| <= |origName| + 1 && forall s :: s in delivered ==> s == Secure || s == Bogus
      ensures Secure in delivered ==> SecureChain(w, First(), ac, links, moments, securedAt) && !wildcard
      ensures Secure in delivered && AnyExpanded(ac) ==> slipped
      ensures old(delivered) == [] && Secure in delivered ==>
                exists i :: 0 <= i < |events| && securedAt == Moment(events[i].cache, events[i].now)
      ensures old(mode) == Dispatched ==> old(First()) != []
      ensures (exists i :: (if old(mode) == Dispatched then 1 else 0) <= i < |events| && Silent(events[i])) ==>
                mode != Querying
      ensures events != [] && old(mode) == Dispatched ==>
                var m, first := Moment(events[0].cache, events[0].now), old(First());
                && (Reaches(w, m.cache, m.now, first, MAX_RECURSE_COUNT - 1) ==> delivered == [Secure])
                && (Complete(w, m, first, NextRrsig, NOTHING, false) ==>
                      var t := Gathered(m, first, NextRrsig, NOTHING);
                      && (!Signed(w, first, t) ==> delivered == [Bogus])
                      && (Unvouched(w, t, m.now) ==> delivered == [Bogus])
                      && (Signed(w, first, t) && Trusted(w, t.sigs[0].rdata.signer, t, m.now) ==>
                            delivered == [Secure] || (mode == Proving && wildcard))
                      && Ends(EndOf(w, m, first, t, MAX_RECURSE_COUNT - 1)))
    {
      hide *;
      ValidIs();
      assert events[..0] == [] && MomentsOf([]) == {} by { NoMoments(); }
      ghost var m := if events == [] then Moment([], 0) else Moment(events[0].cache, events[0].now);
      ghost var first, starts := rrset, events != [] && mode == Dispatched;
      if mode == Dispatched { ActiveIs(); }
      for i := 0 to |events|
        invariant Valid() && mode != Idle && moments == old(moments) + MomentsOf(events[..i]) && begun == old(begun)
        invariant old(delivered) == [] && Secure in delivered ==>
                    exists k :: 0 <= k < i && securedAt == Moment(events[k].cache, events[k].now)
        invariant i == 0 ==> mode == old(mode) && rrset == old(rrset)
        invariant (exists k :: (if old(mode) == Dispatched then 1 else 0) <= k < i && Silent(events[k])) ==>
                    mode != Querying && mode != Dispatched
        invariant i > 0 ==> mode != Dispatched && (starts ==> Settled(m, first))
      {
        var e := events[i];
        ValidIs();
        Note(Moment(e.cache, e.now));
        ValidIs();
        assert events[..i + 1] == events[..i] + [e];
        MomentAdded(events[..i], e);
        if mode == Dispatched {
          FirstCallback(e.cache, e.now);
        } else if mode == Querying {
          SilentIs(e);
          if starts { SettledWhile(m, first); }
          Answer(e.cache, e.now, e.answer, e.timedOut, m);
          if starts { SettledIs(m, first); EndsMeans(Open); }
        }
        ValidIs();
      }
      assert events[..|events|] == events;
      ValidIs();
      if starts {
        SettledIs(m, first);
        var t := Gathered(m, first, NextRrsig, NOTHING);
        EndIs(w, m, first, t, MAX_RECURSE_COUNT - 1);
        UnvouchedMeans(w, t, m.now);
        if Signed(w, first, t) { SignedHas(w, first, t); }
        EndsMeans(Refused);
        EndsMeans(Accepted);
      }
    }

    /** While a question is out nothing was bound to come. */
    lemma SettledWhile(m: Moment, first: seq<RR>)
      requires Settled(m, first) && mode == Querying && delivered == [] && first != []
      ensures !Reaches(w, m.cache, m.now, first, MAX_RECURSE_COUNT - 1)
      ensures Complete(w, m, first, NextRrsig, NOTHING, false) ==>
                EndOf(w, m, first, Gathered(m, first, NextRrsig, NOTHING), MAX_RECURSE_COUNT - 1) == Open
    {
      hide *;
      SettledIs(m, first);
      EndsMeans(EndOf(w, m, first, Gathered(m, first, NextRrsig, NOTHING), MAX_RECURSE_COUNT - 1));
    }

    /**
     * The verification against a resolver that may answer each question out of another cache.  If whatever
     * is asked for and exists in the end comes whole, and in the end there is a way up to an anchor, then the
     * result is Secure after at most four questions for each link of the chain.
     */
    method Resolve(begin: Event, resolver: View -> Event, limit: nat, ghost goal: Moment)
      requires Valid() && mode == Dispatched
      modifies this
      ensures Valid() && begun == old(begun) && |delivered| <= 1
      ensures Secure in delivered ==> SecureChain(w, First(), ac, links, moments, securedAt) && !wildcard
      ensures Secure in delivered && AnyExpanded(ac) ==> slipped
      ensures limit >= 4 * MAX_RECURSE_COUNT && Agrees(w, begin.cache, begin.now, goal) && Honest(w, resolver, goal) &&
              Reaches(w, goal.cache, goal.now, old(First()), MAX_RECURSE_COUNT - 1) ==>
                delivered == [Secure]
    {
      hide *;
      RecursionLimit();
      ghost var good := Agrees(w, begin.cache, begin.now, goal) && Honest(w, resolver, goal) &&
                        Reaches(w, goal.cache, goal.now, First(), MAX_RECURSE_COUNT - 1);
      ValidIs();
      KeptIs();
      PhaseRanks();
      Note(Moment(begin.cache, begin.now));
      ValidIs();
      ReachesPromise(w, goal, rrset, MAX_RECURSE_COUNT - 1);
      FreshLists();
      RecursionLimit();
      Start(begin.cache, begin.now, goal);
      var asked: nat := 0;
      QueryRank();
      while asked < limit && mode == Querying
        invariant Valid() && begun == old(begun) && mode in {Querying, Proving, Finished, Stalled}
        invariant good ==> OnCourse(goal)
        invariant good && mode == Querying ==> asked < 4 * |ac| + Rank(next)
      {
        ValidIs();
        Questioned();
        OnCourseIs(goal);
        ghost var v := View(rrset, next, qName, qType, Kept(), packets);
        LackingIs(goal.cache, goal.now);
        var e := resolver(View(rrset, next, qName, qType, Lists(rrsig, key, rrsigKey), packets));
        KeptIs();
        if good { HonestMeans(w, resolver, goal, v); }
        ValidIs();
        Note(Moment(e.cache, e.now));
        HeardIs(e.answer, e.timedOut);
        LackingIs(e.cache, e.now);
        OnCourseIs(goal);
        RankBound(next);
        Answer(e.cache, e.now, e.answer, e.timedOut, goal);
        OnCourseIs(goal);
        QueryRank();
        asked := asked + 1;
      }
      ValidIs();
      OnCourseIs(goal);
      if mode == Querying { QueryRank(); }
    }

    lemma FreshLists()
      requires NothingCollected()
      ensures Kept() == NOTHING
    {
    }

    lemma LackingIs(cache: Cache, now: nat)
      ensures Lacking(cache, now) <==> Lacks(rrset, next, Kept(), cache, now)
    {
      hide Lacks;
    }

    lemma QueryRank()
      requires Valid()
      ensures mode == Querying ==> 1 <= Rank(next) <= 4 && |ac| < MAX_RECURSE_COUNT
    {
      hide Pending, Collected, AllTimely, SecureChain, Linked;
    }

    lemma ValidIs()
      requires Valid()
      ensures |delivered| <= 1 && |ac| <= |origName| + 1 && (delivered != [] ==> mode == Finished)
      ensures delivered == [] || delivered == [Secure] || delivered == [Bogus]
      ensures Secure in delivered ==> SecureChain(w, First(), ac, links, moments, securedAt) && !wildcard
      ensures Secure in delivered && AnyExpanded(ac) ==> slipped
      ensures mode == Dispatched ==> Active() && next == NextRrsig && NothingCollected() && ds == []
      ensures mode == Dispatched ==> !wildcard && ac == [] && rrset == First()
    {
      ActiveIs();
      hide Active, SecureChain, Linked, AnyExpanded;
    }
  }

  lemma NoMoments()
    ensures MomentsOf([]) == {}
  {
  }

  lemma MomentAdded(events: seq<Event>, e: Event)
    ensures MomentsOf(events + [e]) == MomentsOf(events) + {Moment(e.cache, e.now)}
  {
    var all := events + [e];
    forall m | m in MomentsOf(events) ensures m in MomentsOf(all) {
      var i :| 0 <= i < |events| && m == Moment(events[i].cache, events[i].now);
      assert all[i] == events[i];
    }
    assert all[|events|] == e;
  }

  // ----- The steps of the climb

  lemma RrsetNotEmpty(rrset: seq<RR>, rrsig: seq<SigRR>, key: seq<KeyRR>, rrsigKey: seq<SigRR>)
    requires Collected(rrset, rrsig, key, rrsigKey)
    ensures rrset != []
  {
  }

  lemma PairSigns(w: World, rrset: seq<RR>, t: Stock, i: nat, j: nat)
    requires i < |t.keys| && j < |t.sigs| && KeyMatches(t.keys[i], t.sigs[j])
    requires Verifies(w, rrset, t.keys[i], t.sigs[j])
    ensures Signed(w, rrset, t)
  {
    hide KeyMatches, Verifies;
    assert t.keys[i] in t.keys && t.sigs[j] in t.sigs;
  }

  lemma PairTrusts(w: World, signer: Name, t: Stock, now: nat, a: nat, b: nat)
    requires a < |w.anchors| && b < |t.keys| && AnchorMatches(w, signer, t.keys[b], w.anchors[a], now)
    requires SelfSigned(w, t.keys, t.keys[b], t.keySigs)
    ensures Trusted(w, signer, t, now)
  {
    hide AnchorMatches, SelfSigned;
    assert w.anchors[a] in w.anchors && t.keys[b] in t.keys;
  }

  lemma PendingLater(w: World, first: seq<RR>, ac: seq<AuthElement>, links: seq<Link>, moments: set<Moment>,
                     rrset: seq<RR>, more: set<Moment>)
    requires Pending(w, first, ac, links, moments, rrset) && moments <= more
    ensures Pending(w, first, ac, links, more, rrset)
  {
    LinkedLater(w, ac, links, moments, more);
    hide Linked, NextSet;
  }

  /** What lists that lead on mean for this cache. */
  lemma LedByNow(w: World, cache: Cache, now: nat, goal: Moment, rrset: seq<RR>, t: Stock, steps: int)
    requires Agrees(w, cache, now, goal) && Plain(rrset, t) && LeadsOn(w, goal, rrset, t, steps)
    ensures rrset != [] && t.keys != [] && t.sigs != [] && Signed(w, rrset, t)
    ensures Unexpanded(rrset[0].name, t.sigs) && Unexpanded(t.keys[0].name, t.keySigs)
    ensures var signer := t.sigs[0].rdata.signer;
            Trusted(w, signer, t, now) ||
            (steps >= 1 && Delegated(w, signer, t) && Ahead(w, goal.cache, goal.now, signer, steps - 1))
  {
    LeadMeans(w, goal, rrset, t, steps);
    hide Unexpanded, LeadsOn, Trusted, Delegated, Agrees, Ahead, Signed;
    if Trusted(w, t.sigs[0].rdata.signer, t, goal.now) {
      TrustedThen(w, cache, now, goal, t.sigs[0].rdata.signer, t);
    }
  }

  lemma {:induction false} DenialStays(w: World, cache: Cache, qname: Name, qtype: nat, i: nat)
    requires i <= |cache| && FirstDenial(w, cache[..i], qname, qtype).Some?
    ensures FirstDenial(w, cache, qname, qtype) == FirstDenial(w, cache[..i], qname, qtype)
    decreases |cache|
  {
    hide Answers;
    if i == |cache| {
      assert cache[..i] == cache;
    } else {
      assert cache[..|cache| - 1][..i] == cache[..i];
      DenialStays(w, cache[..|cache| - 1], qname, qtype, i);
    }
  }

  lemma NoneTimely(moments: set<Moment>)
    ensures AllTimely([], moments)
  {
  }

  /** The validated set is an element of the chain. */
  lemma ElementJoins(
      w: World, origName: Name, first: seq<RR>, ac: seq<AuthElement>, links: seq<Link>, moments: set<Moment>,
      rrset: seq<RR>, rrsig: seq<SigRR>, key: seq<KeyRR>, rrsigKey: seq<SigRR>, i: nat, j: nat)
    requires Collected(rrset, rrsig, key, rrsigKey) && Pending(w, first, ac, links, moments, rrset)
    requires AllTimely(rrsig, moments) && forall r :: r in first ==> Same(r.name, origName)
    requires i < |key| && j < |rrsig| && KeyMatches(key[i], rrsig[j]) && Verifies(w, rrset, key[i], rrsig[j])
    ensures var e := AuthElement(rrset, rrsig[j], key[i]);
            Linked(w, ac + [e], links, moments) && (ac + [e])[0].rrset == first && |ac + [e]| <= |origName| + 1
  {
    hide KeyMatches, Verifies, Linked, Covers, VouchedOver, NextSet, Same, Timely;
    var e := AuthElement(rrset, rrsig[j], key[i]);
    assert ElementVerified(w, e);
    LinkedNext(w, ac, links, moments, e);
    if first != [] {
      assert first[0] in first;
      SameWireLength(first[0].name, origName);
    }
    ChainBounded(w, origName, ac + [e], links, moments);
  }

  /** The signers of the validated signature and of the first one are the same name. */
  lemma SignersSame(rrset: seq<RR>, rrsig: seq<SigRR>, key: seq<KeyRR>, rrsigKey: seq<SigRR>, i: nat, j: nat)
    requires Collected(rrset, rrsig, key, rrsigKey)
    requires i < |key| && j < |rrsig| && KeyMatches(key[i], rrsig[j])
    ensures Same(rrsig[0].rdata.signer, rrsig[j].rdata.signer)
    ensures KeySetOf(key, rrsig[j].rdata.signer, key[i]) && CoverKeys(key, rrsigKey)
  {
    hide Covers;
    assert Same(rrsig[0].rdata.signer, key[i].name);
  }

  lemma AnchorFound(w: World, rrset: seq<RR>, rrsig: seq<SigRR>, key: seq<KeyRR>, rrsigKey: seq<SigRR>,
                    i: nat, j: nat, a: nat, b: nat, moments: set<Moment>, now: nat)
    requires Collected(rrset, rrsig, key, rrsigKey) && AllTimely(rrsigKey, moments)
    requires i < |key| && j < |rrsig| && KeyMatches(key[i], rrsig[j])
    requires a < |w.anchors| && b < |key| && AnchorMatches(w, rrsig[0].rdata.signer, key[b], w.anchors[a], now)
    requires SelfSigned(w, key, key[b], rrsigKey)
    ensures Anchored(w, AuthElement(rrset, rrsig[j], key[i]), moments, now)
  {
    SignersSame(rrset, rrsig, key, rrsigKey, i, j);
    hide Collected, KeyMatches, SelfSigned, CoverKeys, KeySetOf, Tag, AnchorValid, AllTimely;
    assert AnchorVouches(w, AuthElement(rrset, rrsig[j], key[i]), key, rrsigKey, key[b], w.anchors[a], now);
  }

  lemma DsFound(w: World, rrset: seq<RR>, rrsig: seq<SigRR>, key: seq<KeyRR>, rrsigKey: seq<SigRR>,
                i: nat, j: nat, ds: seq<DsRR>, l: Link, moments: set<Moment>, a: nat, b: nat)
    requires Collected(rrset, rrsig, key, rrsigKey) && AllTimely(rrsigKey, moments) && l.moment in moments
    requires i < |key| && j < |rrsig| && KeyMatches(key[i], rrsig[j])
    requires a < |ds| && b < |key| && Hashed(w, rrsig[0].rdata.signer, key[b], ds[a])
    requires SelfSigned(w, key, key[b], rrsigKey)
    requires ds == DsFor(l.moment.cache, rrsig[0].rdata.signer, key)
    requires FirstToSign(w, rrsig[0].rdata.signer, key, rrsigKey, ds, a)
    requires l == Link(l.moment, rrsig[0].rdata.signer, key, rrsigKey, key[b], ds[a])
    ensures VouchedOver(w, AuthElement(rrset, rrsig[j], key[i]), l, moments)
  {
    SignersSame(rrset, rrsig, key, rrsigKey, i, j);
    DsCached(l.moment.cache, l.signer, key);
    hide Collected, KeyMatches, SelfSigned, CoverKeys, KeySetOf, Tag, FirstToSign, DsFor, AllTimely, Covers, Hashed;
    assert ds[a] in ds && Walked(l) == ds && StepsOver(w, l, a);
    assert DsVouches(w, AuthElement(rrset, rrsig[j], key[i]), key, rrsigKey, key[b], ds[a]);
  }

  lemma SecureNow(w: World, first: seq<RR>, ac: seq<AuthElement>, links: seq<Link>, moments: set<Moment>,
                  e: AuthElement, at: Moment)
    requires Linked(w, ac + [e], links, moments) && |links| == |ac| && (ac + [e])[0].rrset == first
    requires Anchored(w, e, moments, at.now) && at in moments
    ensures SecureChain(w, first, ac + [e], links, moments, at)
  {
  }

  lemma CollectedOneKey(rrset: seq<RR>, rrsig: seq<SigRR>, key: seq<KeyRR>, rrsigKey: seq<SigRR>, rr: RR)
    requires Collected(rrset, rrsig, key, rrsigKey)
    ensures rrsig != [] && rr.rdata.Key? && Same(rrsig[0].rdata.signer, rr.name) ==>
              Collected(rrset, rrsig, key + [rr], rrsigKey)
  {
    hide Covers, Same;
  }

  /** The climb goes down in labels: the question asked next is for a shorter name than the set at hand. */
  lemma SignerBelow(rrset: seq<RR>, rrsig: seq<SigRR>, key: seq<KeyRR>, rrsigKey: seq<SigRR>,
                    ac: seq<AuthElement>, links: seq<Link>, moments: set<Moment>, w: World, first: seq<RR>,
                    i: nat, j: nat, qName: Name)
    requires Collected(rrset, rrsig, key, rrsigKey) && Pending(w, first, ac, links, moments, rrset)
    requires i < |key| && j < |rrsig| && KeyMatches(key[i], rrsig[j]) && Same(qName, rrsig[0].rdata.signer)
    ensures Same(qName, rrsig[j].rdata.signer) && |qName| == SignerLabels(AuthElement(rrset, rrsig[j], key[i]))
    ensures |qName| <= |rrset[0].name| && (ac != [] ==> |qName| < |rrset[0].name|)
  {
    SignersSame(rrset, rrsig, key, rrsigKey, i, j);
    hide Covers, VouchedOver, KeyMatches, CoverKeys, KeySetOf, ElementVerified, Timely, NextSet;
    var signer := rrsig[j].rdata.signer;
    SameWireLength(qName, signer);
    assert Covers(rrset[0], rrsig[j]);
    SignerNoLonger(rrset[0], rrsig[j]);
    assert rrset[0] in rrset;
    if ac != [] {
      var n := |links| - 1;
      assert VouchedOver(w, ac[n], links[n], moments);
      NextSetIsDs(w, ac[n], links[n], moments);
    }
  }

  /** In front of a record with an unsupported digest nothing signs, behind it nothing is looked at. */
  lemma NoneBehind(w: World, signer: Name, keys: seq<KeyRR>, sigs: seq<SigRR>, ds: seq<DsRR>, i: nat)
    requires i < |ds| && !DigestSupported(ds[i].rdata.digestType)
    requires forall x :: 0 <= x < i ==> !DsSigns(w, signer, keys, sigs, ds[x])
    ensures forall x: nat :: !FirstToSign(w, signer, keys, sigs, ds, x)
  {
    hide DsSigns, DigestSupported;
    forall x: nat ensures !FirstToSign(w, signer, keys, sigs, ds, x) {
      if i <= x < |ds| { assert ds[..x + 1][i] == ds[i]; }
    }
  }

  lemma AppendAgain<T>(a: seq<T>, b: seq<T>, c: seq<T>)
    ensures a + b + c == a + (b + c)
  {
  }
}
