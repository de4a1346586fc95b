/**
 * Where a verification leads: what the phases collect out of a cache, when that reaches a trust
 * anchor, when it is refused, and what the caches of several callbacks must have in common so that
 * what was collected early and what is collected late fit together.
 */
module DnssecProgress {
  import opened Bytes
  import opened DomainNames
  import opened DnssecRecords
  import opened DnssecCache
  import opened DnssecChain

  const MAX_RECURSE_COUNT: nat := 10

  /** What is being fetched next; `RRVS_rr`, which never occurs, is left out. */
  datatype Phase = NextRrsig | NextKey | NextRrsigKey | NextDs | Done

  /** While a question is out, what it was asked for: the phase is one ahead. */
  function Fetching(next: Phase): Phase {
    match next
    case NextRrsigKey => NextKey
    case NextDs => NextRrsigKey
    case Done => NextDs
    case _ => NextRrsig
  }

  function Rank(next: Phase): nat {
    match next
    case NextRrsig => 0
    case NextKey => 1
    case NextRrsigKey => 2
    case NextDs => 3
    case Done => 4
  }

  // ----- One phase

  /** What a phase comes to: the next phase, a question, a proof of denial, or the end. */
  datatype Step = Go | Ask | Denied | Fail

  function StepOf(found: bool, due: bool, neg: Option<CacheRecord>): Step
    requires neg.Some? ==> neg.value.Negative?
  {
    if neg.Some? && found then Fail
    else if neg.None? && !found && due then Fail
    else if neg.Some? && neg.value.nsec then Denied
    else if found then Go else Ask
  }

  /** For DS records: an anchor for a key does as well, and the root has none. */
  function DsStep(found: bool, anchor: bool, root: bool, neg: Option<CacheRecord>): Step
    requires neg.Some? ==> neg.value.Negative?
  {
    if neg.Some? && found then Fail
    else if neg.Some? && neg.value.nsec then Denied
    else if found || anchor then Go
    else if root then Fail else Ask
  }

  /** Which case is which: found and denied is an error, and so is not found although asked for with DO set. */
  lemma StepsExactly(found: bool, due: bool, neg: Option<CacheRecord>)
    requires neg.Some? ==> neg.value.Negative?
    ensures StepOf(found, due, neg) == Go <==> found && neg.None?
    ensures StepOf(found, due, neg) == Denied <==> !found && neg.Some? && neg.value.nsec
    ensures StepOf(found, due, neg) == Ask <==> !found && ((neg.Some? && !neg.value.nsec) || (neg.None? && !due))
    ensures StepOf(found, due, neg) == Fail <==> if neg.Some? then found else !found && due
    ensures DsStep(found, due, false, neg) == Denied <==> !found && neg.Some? && neg.value.nsec
    ensures DsStep(found, due, false, neg) == Fail <==> found && neg.Some?
    ensures DsStep(found, due, false, neg) == Ask <==> !found && !due && (neg.None? || !neg.value.nsec)
    ensures DsStep(found, due, true, neg) == Fail <==>
            (found && neg.Some?) || (!found && !due && (neg.None? || !neg.value.nsec))
  {
  }

  // ----- What is collected

  /** The lists kept from phase to phase, and with the DS records all there is to collect for a set. */
  datatype Lists = Lists(rrsig: seq<SigRR>, key: seq<KeyRR>, rrsigKey: seq<SigRR>)

  datatype Stock = Stock(sigs: seq<SigRR>, keys: seq<KeyRR>, keySigs: seq<SigRR>, ds: seq<DsRR>)

  const NOTHING: Lists := Lists([], [], [])

  /** Nothing is kept of what phase `from` and those after it collect. */
  predicate Unfetched(from: Phase, l: Lists) {
    && (from == NextRrsig ==> l == NOTHING)
    && (from == NextKey ==> l.key == [] && l.rrsigKey == [])
    && (from == NextRrsigKey ==> l.rrsigKey == [])
  }

  /** The lists, completed out of the cache from phase `from` on. */
  function Gathered(m: Moment, rrset: seq<RR>, from: Phase, l: Lists): (t: Stock)
    requires rrset != []
  {
    var sigs := if from == NextRrsig then SigsFor(m.cache, rrset[0].name, rrset[0], m.now) else l.rrsig;
    if sigs == [] then Stock([], [], [], []) else
    var signer := sigs[0].rdata.signer;
    var keys := if from == NextRrsig || from == NextKey then KeysFor(m.cache, signer) else l.key;
    if keys == [] then Stock(sigs, [], [], []) else
    var keySigs := if from == NextDs || from == Done then l.rrsigKey else SigsFor(m.cache, signer, keys[0], m.now);
    Stock(sigs, keys, keySigs, DsFor(m.cache, signer, keys))
  }

  /** What the phases collect for the set `rrset` when all of it is in the cache. */
  function StockFor(cache: Cache, now: nat, rrset: seq<RR>): (t: Stock)
    requires rrset != []
  {
    Gathered(Moment(cache, now), rrset, NextRrsig, NOTHING)
  }

  predicate Filled(t: Stock) {
    t.sigs != [] && t.keys != [] && t.keySigs != []
  }

  /** Nothing that is looked up from phase `from` on is denied. */
  predicate Undenied(cache: Cache, rrset: seq<RR>, from: Phase, t: Stock)
    requires rrset != [] && t.sigs != []
  {
    var signer := t.sigs[0].rdata.signer;
    && (from == NextRrsig ==> FirstNegative(cache, rrset[0].name, TYPE_RRSIG) == None)
    && (from == NextRrsig || from == NextKey ==> FirstNegative(cache, signer, TYPE_DNSKEY) == None)
    && (from != NextDs && from != Done ==> FirstNegative(cache, signer, TYPE_RRSIG) == None)
    && FirstNegative(cache, signer, TYPE_DS) == None
  }

  /** The signature says that its owner's name was expanded from a wildcard; the owner `*` itself was not. */
  predicate Expanded(owner: Name, sig: SigRR) {
    |owner| > sig.rdata.labels && owner[0] != [42]
  }

  predicate Unexpanded(owner: Name, sigs: seq<SigRR>) {
    forall s :: s in sigs ==> !Expanded(owner, s)
  }

  ghost predicate AnyExpanded(chain: seq<AuthElement>) {
    exists e :: e in chain && e.rrset != [] && Expanded(e.rrset[0].name, e.sig)
  }

  lemma AnyMore(chain: seq<AuthElement>, e: AuthElement)
    ensures AnyExpanded([]) <==> false
    ensures AnyExpanded(chain + [e]) <==> AnyExpanded(chain) || (e.rrset != [] && Expanded(e.rrset[0].name, e.sig))
  {
    hide Expanded;
    if AnyExpanded(chain) {
      var x :| x in chain && x.rrset != [] && Expanded(x.rrset[0].name, x.sig);
      assert x in chain + [e];
    }
    if e.rrset != [] && Expanded(e.rrset[0].name, e.sig) { assert e in chain + [e]; }
  }

  predicate Plain(rrset: seq<RR>, t: Stock) {
    rrset != [] && t.keys != [] && Unexpanded(rrset[0].name, t.sigs) && Unexpanded(t.keys[0].name, t.keySigs)
  }

  /** Signatures, keys and their signatures are there, nothing is denied, and nothing is expanded from a wildcard. */
  predicate InStock(cache: Cache, rrset: seq<RR>, t: Stock) {
    rrset != [] && Filled(t) && Undenied(cache, rrset, NextRrsig, t) && Plain(rrset, t)
  }

  // ----- Where it leads

  ghost predicate Signed(w: World, rrset: seq<RR>, t: Stock) {
    exists k, s :: k in t.keys && s in t.sigs && KeyMatches(k, s) && Verifies(w, rrset, k, s)
  }

  /** Some anchor, valid or not, has the zone and the tag of a key. */
  ghost predicate AnchorPresent(w: World, keys: seq<KeyRR>) {
    exists ta, k ::
      ta in w.anchors && k in keys && DigestSupported(ta.digestType) && Tag(k) == ta.keyTag && Same(k.name, ta.zone)
  }

  /** An anchor valid now hashes a key that signed the key set. */
  ghost predicate Trusted(w: World, signer: Name, t: Stock, now: nat) {
    exists ta, k ::
      ta in w.anchors && k in t.keys && AnchorMatches(w, signer, k, ta, now) && SelfSigned(w, t.keys, k, t.keySigs)
  }

  /** Some DS record of the walk is the first that signs. */
  ghost predicate Delegated(w: World, signer: Name, t: Stock) {
    exists i: nat :: FirstToSign(w, signer, t.keys, t.keySigs, t.ds, i)
  }

  /** Neither an anchor valid now nor a DS record of the walk vouches for the keys. */
  ghost predicate Unvouched(w: World, t: Stock, now: nat) {
    t.sigs != [] && !Trusted(w, t.sigs[0].rdata.signer, t, now) && !Delegated(w, t.sigs[0].rdata.signer, t)
  }

  lemma UnvouchedMeans(w: World, t: Stock, now: nat)
    ensures Unvouched(w, t, now) <==>
              t.sigs != [] && !Trusted(w, t.sigs[0].rdata.signer, t, now) && !Delegated(w, t.sigs[0].rdata.signer, t)
  {
    hide Trusted, Delegated;
  }

  /** From the set, with its lists, up to an anchor in at most `steps` links, the rest of it out of one cache. */
  ghost predicate LeadsOn(w: World, m: Moment, rrset: seq<RR>, t: Stock, steps: int)
    decreases steps, 0
  {
    && t.sigs != [] && Signed(w, rrset, t)
    && var signer := t.sigs[0].rdata.signer;
       Trusted(w, signer, t, m.now) ||
       (steps >= 1 && Delegated(w, signer, t) && Ahead(w, m.cache, m.now, signer, steps - 1))
  }

  /** All of it out of one cache. */
  ghost predicate Reaches(w: World, cache: Cache, now: nat, rrset: seq<RR>, steps: int)
    decreases steps, 1
  {
    steps >= 0 && rrset != [] && InStock(cache, rrset, StockFor(cache, now, rrset)) &&
    LeadsOn(w, Moment(cache, now), rrset, StockFor(cache, now, rrset), steps)
  }

  /** The set that answers the DS question, all of it positive, reaches an anchor. */
  ghost predicate Ahead(w: World, cache: Cache, now: nat, qname: Name, steps: int)
    decreases steps, 2
  {
    AllPositive(w, cache, qname, TYPE_DS) && Reaches(w, cache, now, AnswerSet(w, cache, qname, TYPE_DS), steps)
  }

  /** The lists so far, with the cache of `m` from phase `from` on, lead on to an anchor. */
  ghost predicate Promising(w: World, m: Moment, rrset: seq<RR>, from: Phase, l: Lists, steps: int) {
    rrset != [] &&
    var t := Gathered(m, rrset, from, l);
    Filled(t) && Undenied(m.cache, rrset, from, t) && Plain(rrset, t) && LeadsOn(w, m, rrset, t, steps)
  }

  /** Everything is there; `asked` tells that the DS question has been asked, so that no more is asked. */
  ghost predicate Complete(w: World, m: Moment, rrset: seq<RR>, from: Phase, l: Lists, asked: bool) {
    rrset != [] &&
    var t := Gathered(m, rrset, from, l);
    Filled(t) && Undenied(m.cache, rrset, from, t) && (asked || t.ds != [] || AnchorPresent(w, t.keys))
  }

  /** Under key `k` a check of the key set fails before one succeeds. */
  ghost predicate Spoils(w: World, keys: seq<RR>, k: KeyRR, sigs: seq<SigRR>) {
    exists j :: 0 <= j < |sigs| && Failing(w, keys, k, sigs[j]) &&
                forall x :: 0 <= x < j ==> !(Tag(k) == sigs[x].rdata.keyTag && Verifies(w, keys, k, sigs[x]))
  }

  predicate Failing(w: World, keys: seq<RR>, k: KeyRR, s: SigRR) {
    Tag(k) == s.rdata.keyTag && w.supports(s.rdata.alg) && !w.verifies(keys, k, s)
  }

  lemma FailingIs(w: World, keys: seq<RR>, k: KeyRR, s: SigRR)
    ensures Failing(w, keys, k, s) <==>
              Tag(k) == s.rdata.keyTag && w.supports(s.rdata.alg) && !Verifies(w, keys, k, s)
  {
    hide Tag;
  }

  /** Whichever key the check of the key set is made with, the note of an expanded answer does not survive it. */
  ghost predicate NoteLost(w: World, t: Stock) {
    t.keys != [] && Unexpanded(t.keys[0].name, t.keySigs) && forall k :: k in t.keys ==> Spoils(w, t.keys, k, t.keySigs)
  }

  lemma NoteLostIs(w: World, t: Stock)
    ensures NoteLost(w, t) <==>
              t.keys != [] && Unexpanded(t.keys[0].name, t.keySigs) &&
              forall k :: k in t.keys ==> Spoils(w, t.keys, k, t.keySigs)
  {
    hide Unexpanded, Spoils;
  }

  /** How a verification that has everything ends, if not with Secure or in the hands of the NSEC code. */
  datatype Ending = Refused | Exhausted | Accepted | Assured | Deferred | Open

  ghost function EndOf(w: World, m: Moment, rrset: seq<RR>, t: Stock, steps: int): Ending
    decreases steps, 0
  {
    if !Signed(w, rrset, t) then Refused
    else if t.sigs == [] then Open
    else if Trusted(w, t.sigs[0].rdata.signer, t, m.now) then (if NoteLost(w, t) then Assured else Accepted)
    else if !Delegated(w, t.sigs[0].rdata.signer, t) then Refused
    else if steps < 1 then Exhausted
    else EndAbove(w, m, t.sigs[0].rdata.signer, steps - 1)
  }

  /** Of the set that answers the DS question. */
  ghost function EndAbove(w: World, m: Moment, qname: Name, steps: int): Ending
    decreases steps, 1
  {
    match FirstDenial(w, m.cache, qname, TYPE_DS)
    case Some(c) => if c.nsec then Deferred else Refused
    case None =>
      var above := AnswerSet(w, m.cache, qname, TYPE_DS);
      if above == [] then Refused
      else if steps >= 0 && Complete(w, m, above, NextRrsig, NOTHING, false) then
        EndOf(w, m, above, StockFor(m.cache, m.now, above), steps)
      else Open
  }

  /** The records that were asked for, `next` being one phase ahead, are not in the cache. */
  predicate Lacks(rrset: seq<RR>, next: Phase, l: Lists, cache: Cache, now: nat) {
    match next
    case NextRrsig => false
    case NextKey => rrset != [] && SigsFor(cache, rrset[0].name, rrset[0], now) == []
    case NextRrsigKey => l.rrsig != [] && KeysFor(cache, l.rrsig[0].rdata.signer) == []
    case NextDs => l.rrsig != [] && l.key != [] && SigsFor(cache, l.rrsig[0].rdata.signer, l.key[0], now) == []
    case Done => l.rrsig != [] && l.key != [] && DsFor(cache, l.rrsig[0].rdata.signer, l.key) == []
  }

  // ----- Caches that fit together

  /**
   * The cache agrees with that of `goal`: what it has of a set it has whole, it denies nothing that is
   * not denied there, and what it lacks has not been asked for in vain.  Anchors are valid at both times or
   * at neither.  Where an anchor names a key the DS records are not asked for, so they must not be lacking.
   */
  ghost predicate Agrees(w: World, cache: Cache, now: nat, goal: Moment) {
    && (forall owner, rv :: WholeSigs(cache, now, goal, owner, rv))
    && (forall zone :: KeysFor(cache, zone) == [] || KeysFor(cache, zone) == KeysFor(goal.cache, zone))
    && (forall zone, keys :: WholeDs(w, cache, goal, zone, keys))
    && (forall owner, rrtype ::
          FirstNegative(goal.cache, owner, rrtype) == None ==> FirstNegative(cache, owner, rrtype) == None)
    && (forall zone :: AllPositive(w, goal.cache, zone, TYPE_DS) ==> AllPositive(w, cache, zone, TYPE_DS))
    && (forall ta :: ta in w.anchors ==> AnchorValid(ta, now) == AnchorValid(ta, goal.now))
  }

  ghost predicate WholeSigs(cache: Cache, now: nat, goal: Moment, owner: Name, rv: RR) {
    SigsFor(cache, owner, rv, now) == SigsFor(goal.cache, owner, rv, goal.now) ||
    (SigsFor(cache, owner, rv, now) == [] && !SigsDue(cache, owner, rv.Type()))
  }

  ghost predicate WholeDs(w: World, cache: Cache, goal: Moment, zone: Name, keys: seq<KeyRR>) {
    if DsFor(cache, zone, keys) == [] then DsFor(goal.cache, zone, keys) == [] || !AnchorPresent(w, keys)
    else
      DsFor(cache, zone, keys) == DsFor(goal.cache, zone, keys) &&
      AnswerSet(w, cache, zone, TYPE_DS) == AnswerSet(w, goal.cache, zone, TYPE_DS)
  }

  lemma AgreesItself(w: World, m: Moment)
    ensures Agrees(w, m.cache, m.now, m)
  {
    hide SigsFor, KeysFor, DsFor, AnswerSet, AllPositive, FirstNegative, AnchorPresent, SigsDue, AnchorValid;
  }

  lemma AgreesOnSigs(w: World, cache: Cache, now: nat, goal: Moment, owner: Name, rv: RR)
    requires Agrees(w, cache, now, goal)
    ensures SigsFor(cache, owner, rv, now) == SigsFor(goal.cache, owner, rv, goal.now) ||
            (SigsFor(cache, owner, rv, now) == [] && !SigsDue(cache, owner, rv.Type()))
    ensures forall t :: FirstNegative(goal.cache, owner, t) == None ==> FirstNegative(cache, owner, t) == None
  {
    hide SigsFor, KeysFor, DsFor, AnswerSet, AllPositive, FirstNegative, AnchorPresent, SigsDue, AnchorValid, WholeDs;
    assert WholeSigs(cache, now, goal, owner, rv);
  }

  lemma AgreesOnKeys(w: World, cache: Cache, now: nat, goal: Moment, zone: Name)
    requires Agrees(w, cache, now, goal)
    ensures KeysFor(cache, zone) == [] || KeysFor(cache, zone) == KeysFor(goal.cache, zone)
    ensures forall t :: FirstNegative(goal.cache, zone, t) == None ==> FirstNegative(cache, zone, t) == None
    ensures AllPositive(w, goal.cache, zone, TYPE_DS) ==> AllPositive(w, cache, zone, TYPE_DS)
    ensures forall ta :: ta in w.anchors ==> AnchorValid(ta, now) == AnchorValid(ta, goal.now)
  {
    hide SigsFor, KeysFor, DsFor, AnswerSet, AllPositive, FirstNegative, AnchorValid, WholeDs, WholeSigs;
  }

  lemma AgreesOnDs(w: World, cache: Cache, now: nat, goal: Moment, zone: Name, keys: seq<KeyRR>)
    requires Agrees(w, cache, now, goal)
    ensures if DsFor(cache, zone, keys) == [] then DsFor(goal.cache, zone, keys) == [] || !AnchorPresent(w, keys)
            else
              DsFor(cache, zone, keys) == DsFor(goal.cache, zone, keys) &&
              AnswerSet(w, cache, zone, TYPE_DS) == AnswerSet(w, goal.cache, zone, TYPE_DS)
    ensures FirstNegative(goal.cache, zone, TYPE_DS) == None ==> FirstNegative(cache, zone, TYPE_DS) == None
  {
    hide SigsFor, KeysFor, DsFor, AnswerSet, AllPositive, FirstNegative, AnchorPresent, AnchorValid, WholeSigs;
    assert WholeDs(w, cache, goal, zone, keys);
  }

  lemma TrustedThen(w: World, cache: Cache, now: nat, goal: Moment, signer: Name, t: Stock)
    requires Agrees(w, cache, now, goal) && Trusted(w, signer, t, goal.now)
    ensures Trusted(w, signer, t, now)
  {
    AgreesOnKeys(w, cache, now, goal, signer);
    hide Agrees, AnchorValid, SelfSigned, Tag;
  }

  // ----- From phase to phase

  lemma GatheredSigs(m: Moment, rrset: seq<RR>, s: seq<SigRR>)
    requires rrset != [] && s == SigsFor(m.cache, rrset[0].name, rrset[0], m.now)
    ensures Gathered(m, rrset, NextRrsig, NOTHING) == Gathered(m, rrset, NextKey, Lists(s, [], []))
  {
    hide SigsFor, KeysFor, DsFor;
  }

  lemma GatheredKeys(m: Moment, rrset: seq<RR>, s: seq<SigRR>, k: seq<KeyRR>)
    requires rrset != [] && s != [] && k == KeysFor(m.cache, s[0].rdata.signer)
    ensures Gathered(m, rrset, NextKey, Lists(s, [], [])) == Gathered(m, rrset, NextRrsigKey, Lists(s, k, []))
  {
    hide SigsFor, KeysFor, DsFor;
  }

  lemma GatheredKeySigs(m: Moment, rrset: seq<RR>, s: seq<SigRR>, k: seq<KeyRR>, ks: seq<SigRR>)
    requires rrset != [] && s != [] && k != [] && ks == SigsFor(m.cache, s[0].rdata.signer, k[0], m.now)
    ensures Gathered(m, rrset, NextRrsigKey, Lists(s, k, [])) == Gathered(m, rrset, NextDs, Lists(s, k, ks))
  {
    hide SigsFor, KeysFor, DsFor;
  }

  /** What a later phase does not look up need not be undenied. */
  lemma LaterPromise(w: World, m: Moment, rrset: seq<RR>, from: Phase, l: Lists, to: Phase, k: Lists, steps: int)
    requires Promising(w, m, rrset, from, l, steps) && Rank(to) == Rank(from) + 1 <= 3
    requires Gathered(m, rrset, from, l) == Gathered(m, rrset, to, k)
    ensures Promising(w, m, rrset, to, k, steps)
  {
    hide LeadsOn, Gathered, Plain, FirstNegative;
  }

  lemma LaterComplete(w: World, m: Moment, rrset: seq<RR>, from: Phase, l: Lists, to: Phase, k: Lists, asked: bool)
    requires Complete(w, m, rrset, from, l, asked) && Rank(to) == Rank(from) + 1 <= 3
    requires Gathered(m, rrset, from, l) == Gathered(m, rrset, to, k)
    ensures Complete(w, m, rrset, to, k, asked)
  {
    hide Gathered, FirstNegative, AnchorPresent;
  }

  lemma PromiseMeans(w: World, m: Moment, rrset: seq<RR>, from: Phase, l: Lists, steps: int)
    requires Promising(w, m, rrset, from, l, steps)
    ensures rrset != []
    ensures var t := Gathered(m, rrset, from, l);
            && Filled(t) && Undenied(m.cache, rrset, from, t) && Plain(rrset, t) && LeadsOn(w, m, rrset, t, steps)
  {
    hide Gathered, Undenied, Plain, LeadsOn;
  }

  /** The parts of what is gathered, phase by phase. */
  lemma SigsOf(m: Moment, rrset: seq<RR>)
    requires rrset != [] && Filled(Gathered(m, rrset, NextRrsig, NOTHING))
    ensures Gathered(m, rrset, NextRrsig, NOTHING).sigs == SigsFor(m.cache, rrset[0].name, rrset[0], m.now) != []
  {
    hide SigsFor, KeysFor, DsFor;
  }

  lemma KeysOf(m: Moment, rrset: seq<RR>, s: seq<SigRR>)
    requires rrset != [] && Filled(Gathered(m, rrset, NextKey, Lists(s, [], [])))
    ensures var t := Gathered(m, rrset, NextKey, Lists(s, [], []));
            s != [] && t.sigs == s && t.keys == KeysFor(m.cache, s[0].rdata.signer) != []
  {
    hide SigsFor, KeysFor, DsFor;
  }

  lemma KeySigsOf(m: Moment, rrset: seq<RR>, s: seq<SigRR>, k: seq<KeyRR>)
    requires rrset != [] && Filled(Gathered(m, rrset, NextRrsigKey, Lists(s, k, [])))
    ensures var t := Gathered(m, rrset, NextRrsigKey, Lists(s, k, []));
            s != [] && k != [] && t.sigs == s && t.keys == k
            && t.keySigs == SigsFor(m.cache, s[0].rdata.signer, k[0], m.now) != []
  {
    hide SigsFor, KeysFor, DsFor;
  }

  lemma DsOf(m: Moment, rrset: seq<RR>, l: Lists)
    requires rrset != [] && Filled(Gathered(m, rrset, NextDs, l))
    ensures l.rrsig != [] && l.key != []
    ensures Gathered(m, rrset, NextDs, l) ==
            Stock(l.rrsig, l.key, l.rrsigKey, DsFor(m.cache, l.rrsig[0].rdata.signer, l.key))
  {
    hide SigsFor, KeysFor, DsFor;
  }

  lemma NotDenied(cache: Cache, rrset: seq<RR>, from: Phase, t: Stock)
    requires rrset != [] && t.sigs != [] && Undenied(cache, rrset, from, t)
    ensures var signer := t.sigs[0].rdata.signer;
            && (from == NextRrsig ==> FirstNegative(cache, rrset[0].name, TYPE_RRSIG) == None)
            && (from == NextRrsig || from == NextKey ==> FirstNegative(cache, signer, TYPE_DNSKEY) == None)
            && (from != NextDs && from != Done ==> FirstNegative(cache, signer, TYPE_RRSIG) == None)
            && FirstNegative(cache, signer, TYPE_DS) == None
  {
    hide FirstNegative;
  }

  /** What is asked for is there in the end. */
  lemma PromisingHas(w: World, m: Moment, rrset: seq<RR>, next: Phase, l: Lists, steps: int)
    requires Promising(w, m, rrset, Fetching(next), l, steps) && next != NextRrsig && next != Done
    ensures !Lacks(rrset, next, l, m.cache, m.now)
  {
    hide SigsFor, KeysFor, DsFor, Undenied, Plain, LeadsOn;
  }

  lemma PromiseHasSigs(w: World, m: Moment, rrset: seq<RR>, from: Phase, l: Lists, steps: int)
    requires from != NextRrsig
    ensures Promising(w, m, rrset, from, l, steps) ==> l.rrsig != [] && (from != NextKey ==> l.key != [])
  {
    hide SigsFor, KeysFor, DsFor, Undenied, Plain, LeadsOn;
  }

  lemma CompleteHasSigs(w: World, m: Moment, rrset: seq<RR>, from: Phase, l: Lists, asked: bool)
    requires from != NextRrsig
    ensures Complete(w, m, rrset, from, l, asked) ==> l.rrsig != [] && (from != NextKey ==> l.key != [])
  {
    hide SigsFor, KeysFor, DsFor, Undenied, AnchorPresent;
  }

  lemma StepIs(found: bool, due: bool, neg: Option<CacheRecord>)
    requires neg.Some? ==> neg.value.Negative?
    ensures StepOf(found, due, neg) ==
            if neg.Some? && found then Fail
            else if neg.None? && !found && due then Fail
            else if neg.Some? && neg.value.nsec then Denied
            else if found then Go else Ask
  {
  }

  lemma DsStepIs(found: bool, anchor: bool, root: bool, neg: Option<CacheRecord>)
    requires neg.Some? ==> neg.value.Negative?
    ensures DsStep(found, anchor, root, neg) ==
            if neg.Some? && found then Fail
            else if neg.Some? && neg.value.nsec then Denied
            else if found || anchor then Go
            else if root then Fail else Ask
  {
  }

  /** The signatures are there as they will be, or still to be asked for. */
  lemma PromiseSigs(w: World, cache: Cache, now: nat, goal: Moment, rrset: seq<RR>, steps: int)
    requires Agrees(w, cache, now, goal) && Promising(w, goal, rrset, NextRrsig, NOTHING, steps)
    ensures rrset != [] && FirstNegative(cache, rrset[0].name, TYPE_RRSIG) == None
    ensures var s := SigsFor(cache, rrset[0].name, rrset[0], now);
            if s == [] then !SigsDue(cache, rrset[0].name, rrset[0].Type())
            else Promising(w, goal, rrset, NextKey, Lists(s, [], []), steps)
  {
    PhaseRanks();
    FilledMeans(Gathered(goal, rrset, NextRrsig, NOTHING));
    hide *;
    PromiseMeans(w, goal, rrset, NextRrsig, NOTHING, steps);
    SigsOf(goal, rrset);
    NotDenied(goal.cache, rrset, NextRrsig, Gathered(goal, rrset, NextRrsig, NOTHING));
    AgreesOnSigs(w, cache, now, goal, rrset[0].name, rrset[0]);
    var s := SigsFor(cache, rrset[0].name, rrset[0], now);
    if s != [] {
      GatheredSigs(goal, rrset, s);
      LaterPromise(w, goal, rrset, NextRrsig, NOTHING, NextKey, Lists(s, [], []), steps);
    }
  }

  lemma PhaseRanks()
    ensures Fetching(NextKey) == NextRrsig && Fetching(NextRrsigKey) == NextKey && Fetching(NextDs) == NextRrsigKey
    ensures Fetching(Done) == NextDs && NOTHING == Lists([], [], [])
    ensures Rank(NextRrsig) == 0 && Rank(NextKey) == 1 && Rank(NextRrsigKey) == 2
    ensures Rank(NextDs) == 3 && Rank(Done) == 4
  {
  }

  lemma FilledMeans(t: Stock)
    ensures Filled(t) <==> t.sigs != [] && t.keys != [] && t.keySigs != []
  {
  }

  lemma PromiseKeys(w: World, cache: Cache, now: nat, goal: Moment, rrset: seq<RR>, sigs: seq<SigRR>, steps: int)
    requires Agrees(w, cache, now, goal) && Promising(w, goal, rrset, NextKey, Lists(sigs, [], []), steps)
    ensures sigs != [] && FirstNegative(cache, sigs[0].rdata.signer, TYPE_DNSKEY) == None
    ensures var k := KeysFor(cache, sigs[0].rdata.signer);
            k != [] ==> Promising(w, goal, rrset, NextRrsigKey, Lists(sigs, k, []), steps)
  {
    PhaseRanks();
    hide *;
    var l := Lists(sigs, [], []);
    PromiseMeans(w, goal, rrset, NextKey, l, steps);
    FilledMeans(Gathered(goal, rrset, NextKey, l));
    KeysOf(goal, rrset, sigs);
    NotDenied(goal.cache, rrset, NextKey, Gathered(goal, rrset, NextKey, l));
    AgreesOnKeys(w, cache, now, goal, sigs[0].rdata.signer);
    var k := KeysFor(cache, sigs[0].rdata.signer);
    if k != [] {
      GatheredKeys(goal, rrset, sigs, k);
      LaterPromise(w, goal, rrset, NextKey, l, NextRrsigKey, Lists(sigs, k, []), steps);
    }
  }

  lemma PromiseKeySigs(w: World, cache: Cache, now: nat, goal: Moment, rrset: seq<RR>, sigs: seq<SigRR>,
                       keys: seq<KeyRR>, steps: int)
    requires Agrees(w, cache, now, goal) && Promising(w, goal, rrset, NextRrsigKey, Lists(sigs, keys, []), steps)
    ensures sigs != [] && keys != [] && FirstNegative(cache, sigs[0].rdata.signer, TYPE_RRSIG) == None
    ensures var s := SigsFor(cache, sigs[0].rdata.signer, keys[0], now);
            if s == [] then !SigsDue(cache, sigs[0].rdata.signer, TYPE_DNSKEY)
            else Promising(w, goal, rrset, NextDs, Lists(sigs, keys, s), steps)
  {
    PhaseRanks();
    hide *;
    var l := Lists(sigs, keys, []);
    PromiseMeans(w, goal, rrset, NextRrsigKey, l, steps);
    FilledMeans(Gathered(goal, rrset, NextRrsigKey, l));
    KeySigsOf(goal, rrset, sigs, keys);
    NotDenied(goal.cache, rrset, NextRrsigKey, Gathered(goal, rrset, NextRrsigKey, l));
    AgreesOnSigs(w, cache, now, goal, sigs[0].rdata.signer, keys[0]);
    KeyType(keys[0]);
    var s := SigsFor(cache, sigs[0].rdata.signer, keys[0], now);
    if s != [] {
      GatheredKeySigs(goal, rrset, sigs, keys, s);
      LaterPromise(w, goal, rrset, NextRrsigKey, l, NextDs, Lists(sigs, keys, s), steps);
    }
  }

  lemma KeyType(k: KeyRR)
    ensures k.Type() == TYPE_DNSKEY
  {
  }

  /** With DS records or an anchor there, all is as it will be; otherwise there are DS records to ask for. */
  lemma PromiseDs(w: World, cache: Cache, now: nat, goal: Moment, rrset: seq<RR>, l: Lists, steps: int)
    requires Agrees(w, cache, now, goal) && Promising(w, goal, rrset, NextDs, l, steps)
    ensures rrset != [] && l.rrsig != [] && l.key != []
    ensures var signer := l.rrsig[0].rdata.signer;
            var ds := DsFor(cache, signer, l.key);
            && FirstNegative(cache, signer, TYPE_DS) == None
            && (ds != [] || AnchorPresent(w, l.key) ==>
                  LeadsOn(w, goal, rrset, Stock(l.rrsig, l.key, l.rrsigKey, ds), steps) &&
                  Plain(rrset, Stock(l.rrsig, l.key, l.rrsigKey, ds)))
            && (ds == [] && !AnchorPresent(w, l.key) ==>
                  !Same(signer, []) && DsFor(goal.cache, signer, l.key) != [])
  {
    var signer := l.rrsig[0].rdata.signer;
    AgreesOnDs(w, cache, now, goal, signer, l.key);
    if !AnchorPresent(w, l.key) {
      var t := Gathered(goal, rrset, NextDs, l);
      hide *;
      NotAnchored(w, goal, rrset, t, steps);
    }
    hide Agrees, LeadsOn, SigsFor, KeysFor, DsFor, FirstNegative, AnchorPresent, AnswerSet, Same;
  }

  lemma TrustedIsPresent(w: World, signer: Name, t: Stock, now: nat)
    requires Trusted(w, signer, t, now)
    ensures AnchorPresent(w, t.keys)
  {
    hide Tag, SelfSigned, AnchorValid;
  }

  lemma DelegatedHasDs(w: World, signer: Name, t: Stock)
    requires Delegated(w, signer, t)
    ensures t.ds != []
  {
    hide DsSigns, AllSupported;
  }

  /** Without an anchor the way leads over DS records, which the root does not have. */
  lemma NotAnchored(w: World, m: Moment, rrset: seq<RR>, t: Stock, steps: int)
    requires LeadsOn(w, m, rrset, t, steps) && !AnchorPresent(w, t.keys)
    ensures t.sigs != [] && !Same(t.sigs[0].rdata.signer, []) && t.ds != []
  {
    hide *;
    LeadMeans(w, m, rrset, t, steps);
    var signer := t.sigs[0].rdata.signer;
    if Trusted(w, signer, t, m.now) {
      TrustedIsPresent(w, signer, t, m.now);
    } else {
      DelegatedHasDs(w, signer, t);
      NothingAboveRoot(w, m, signer, steps - 1);
    }
  }

  lemma NothingAboveRoot(w: World, m: Moment, zone: Name, steps: int)
    requires Ahead(w, m.cache, m.now, zone, steps)
    ensures !Same(zone, [])
  {
    var above := AnswerSet(w, m.cache, zone, TYPE_DS);
    AnswerSetIsDs(w, m.cache, zone);
    assert above[0] in above;
    var sigs := SigsFor(m.cache, above[0].name, above[0], m.now);
    SigsCover(m.cache, above[0].name, above[0], m.now);
    assert sigs != [];
    assert sigs[0] in sigs;
    if Same(zone, []) {
      SameWireLength(above[0].name, zone);
      SameWireLength(zone, []);
      SignerNoLonger(above[0], sigs[0]);
    }
  }

  // ----- When everything is there

  lemma CompleteSigs(w: World, m: Moment, rrset: seq<RR>, asked: bool)
    requires Complete(w, m, rrset, NextRrsig, NOTHING, asked)
    ensures rrset != [] && FirstNegative(m.cache, rrset[0].name, TYPE_RRSIG) == None
    ensures var s := SigsFor(m.cache, rrset[0].name, rrset[0], m.now);
            && s != [] && Complete(w, m, rrset, NextKey, Lists(s, [], []), asked)
            && Gathered(m, rrset, NextKey, Lists(s, [], [])) == Gathered(m, rrset, NextRrsig, NOTHING)
  {
    PhaseRanks();
    hide *;
    CompleteMeans(w, m, rrset, NextRrsig, NOTHING, asked);
    SigsOf(m, rrset);
    var s := SigsFor(m.cache, rrset[0].name, rrset[0], m.now);
    GatheredSigs(m, rrset, s);
    LaterComplete(w, m, rrset, NextRrsig, NOTHING, NextKey, Lists(s, [], []), asked);
  }

  lemma CompleteMeans(w: World, m: Moment, rrset: seq<RR>, from: Phase, l: Lists, asked: bool)
    requires Complete(w, m, rrset, from, l, asked)
    ensures rrset != []
    ensures var t := Gathered(m, rrset, from, l);
            && Filled(t) && t.sigs != [] && (asked || t.ds != [] || AnchorPresent(w, t.keys))
            && var signer := t.sigs[0].rdata.signer;
               && (from == NextRrsig ==> FirstNegative(m.cache, rrset[0].name, TYPE_RRSIG) == None)
               && (from == NextRrsig || from == NextKey ==> FirstNegative(m.cache, signer, TYPE_DNSKEY) == None)
               && (from != NextDs && from != Done ==> FirstNegative(m.cache, signer, TYPE_RRSIG) == None)
               && FirstNegative(m.cache, signer, TYPE_DS) == None
  {
    hide Gathered, FirstNegative, AnchorPresent;
  }

  lemma CompleteKeys(w: World, m: Moment, rrset: seq<RR>, sigs: seq<SigRR>, asked: bool)
    requires Complete(w, m, rrset, NextKey, Lists(sigs, [], []), asked)
    ensures sigs != [] && FirstNegative(m.cache, sigs[0].rdata.signer, TYPE_DNSKEY) == None && rrset != []
    ensures var k := KeysFor(m.cache, sigs[0].rdata.signer);
            && k != [] && Complete(w, m, rrset, NextRrsigKey, Lists(sigs, k, []), asked)
            && Gathered(m, rrset, NextRrsigKey, Lists(sigs, k, [])) == Gathered(m, rrset, NextKey, Lists(sigs, [], []))
  {
    PhaseRanks();
    hide *;
    CompleteMeans(w, m, rrset, NextKey, Lists(sigs, [], []), asked);
    KeysOf(m, rrset, sigs);
    var k := KeysFor(m.cache, sigs[0].rdata.signer);
    GatheredKeys(m, rrset, sigs, k);
    LaterComplete(w, m, rrset, NextKey, Lists(sigs, [], []), NextRrsigKey, Lists(sigs, k, []), asked);
  }

  lemma CompleteKeySigs(w: World, m: Moment, rrset: seq<RR>, sigs: seq<SigRR>, keys: seq<KeyRR>, asked: bool)
    requires Complete(w, m, rrset, NextRrsigKey, Lists(sigs, keys, []), asked)
    ensures sigs != [] && keys != [] && FirstNegative(m.cache, sigs[0].rdata.signer, TYPE_RRSIG) == None && rrset != []
    ensures var s := SigsFor(m.cache, sigs[0].rdata.signer, keys[0], m.now);
            && s != [] && Complete(w, m, rrset, NextDs, Lists(sigs, keys, s), asked)
            && Gathered(m, rrset, NextDs, Lists(sigs, keys, s)) ==
               Gathered(m, rrset, NextRrsigKey, Lists(sigs, keys, []))
  {
    PhaseRanks();
    hide *;
    CompleteMeans(w, m, rrset, NextRrsigKey, Lists(sigs, keys, []), asked);
    KeySigsOf(m, rrset, sigs, keys);
    var s := SigsFor(m.cache, sigs[0].rdata.signer, keys[0], m.now);
    GatheredKeySigs(m, rrset, sigs, keys, s);
    LaterComplete(w, m, rrset, NextRrsigKey, Lists(sigs, keys, []), NextDs, Lists(sigs, keys, s), asked);
  }

  lemma CompleteDs(w: World, m: Moment, rrset: seq<RR>, l: Lists, asked: bool)
    requires Complete(w, m, rrset, NextDs, l, asked)
    ensures rrset != [] && l.rrsig != [] && l.key != []
    ensures var signer := l.rrsig[0].rdata.signer;
            var ds := DsFor(m.cache, signer, l.key);
            && FirstNegative(m.cache, signer, TYPE_DS) == None && (asked || ds != [] || AnchorPresent(w, l.key))
            && Gathered(m, rrset, NextDs, l) == Stock(l.rrsig, l.key, l.rrsigKey, ds)
  {
    hide *;
    CompleteMeans(w, m, rrset, NextDs, l, asked);
    DsOf(m, rrset, l);
  }

  // ----- Up the chain

  lemma LeadMeans(w: World, m: Moment, rrset: seq<RR>, t: Stock, steps: int)
    requires LeadsOn(w, m, rrset, t, steps)
    ensures t.sigs != [] && Signed(w, rrset, t)
    ensures var signer := t.sigs[0].rdata.signer;
            Trusted(w, signer, t, m.now) ||
            (steps >= 1 && Delegated(w, signer, t) && Ahead(w, m.cache, m.now, signer, steps - 1))
  {
    hide Signed, Trusted, Delegated, Ahead;
  }

  lemma ReachesPromise(w: World, m: Moment, rrset: seq<RR>, steps: int)
    ensures Reaches(w, m.cache, m.now, rrset, steps) <==>
              steps >= 0 && Promising(w, m, rrset, NextRrsig, NOTHING, steps)
  {
    hide Gathered, Undenied, Plain, LeadsOn, Filled;
    assert Moment(m.cache, m.now) == m;
  }

  lemma AheadMeans(w: World, m: Moment, qname: Name, steps: int)
    requires Ahead(w, m.cache, m.now, qname, steps)
    ensures AllPositive(w, m.cache, qname, TYPE_DS) && steps >= 0
    ensures var above := AnswerSet(w, m.cache, qname, TYPE_DS);
            above != [] && Promising(w, m, above, NextRrsig, NOTHING, steps)
  {
    ReachesPromise(w, m, AnswerSet(w, m.cache, qname, TYPE_DS), steps);
    hide AllPositive, AnswerSet, Gathered, Undenied, Plain, LeadsOn, Filled;
  }

  lemma AheadSame(w: World, m: Moment, qname: Name, zone: Name, steps: int)
    requires Same(qname, zone)
    ensures Ahead(w, m.cache, m.now, qname, steps) == Ahead(w, m.cache, m.now, zone, steps)
    ensures steps >= 0 ==> EndAbove(w, m, qname, steps) == EndAbove(w, m, zone, steps)
    ensures AnswerSet(w, m.cache, qname, TYPE_DS) == AnswerSet(w, m.cache, zone, TYPE_DS)
  {
    hide Same, AllPositive, AnswerSet, Reaches, FirstDenial, EndOf, Complete, StockFor;
    AnswerSetSame(w, m.cache, qname, zone, TYPE_DS);
  }

  lemma ReachesByAnchor(w: World, cache: Cache, now: nat, rrset: seq<RR>, steps: nat, t: Stock)
    requires rrset != [] && t == StockFor(cache, now, rrset) && InStock(cache, rrset, t) && Signed(w, rrset, t)
    requires Trusted(w, t.sigs[0].rdata.signer, t, now)
    ensures Reaches(w, cache, now, rrset, steps)
  {
    hide StockFor, Signed, Trusted, Plain, Undenied;
  }

  lemma ReachesByLink(w: World, cache: Cache, now: nat, rrset: seq<RR>, steps: nat, t: Stock, i: nat)
    requires rrset != [] && t == StockFor(cache, now, rrset) && InStock(cache, rrset, t) && Signed(w, rrset, t)
    requires FirstToSign(w, t.sigs[0].rdata.signer, t.keys, t.keySigs, t.ds, i)
    requires steps > 0 && Ahead(w, cache, now, t.sigs[0].rdata.signer, steps - 1)
    ensures Reaches(w, cache, now, rrset, steps)
  {
    hide StockFor, Signed, Trusted, Plain, Undenied, FirstToSign, AnswerSet, AllPositive;
  }

  lemma SignedPair(w: World, rrset: seq<RR>, t: Stock)
    ensures Signed(w, rrset, t) <==>
              exists k, s :: k in t.keys && s in t.sigs && KeyMatches(k, s) && Verifies(w, rrset, k, s)
  {
  }

  lemma TrustedPair(w: World, signer: Name, t: Stock, now: nat)
    ensures Trusted(w, signer, t, now) <==>
              exists ta, k ::
                ta in w.anchors && k in t.keys && AnchorMatches(w, signer, k, ta, now) &&
                SelfSigned(w, t.keys, k, t.keySigs)
  {
  }

  lemma DelegatedAt(w: World, signer: Name, t: Stock)
    ensures Delegated(w, signer, t) <==> exists i: nat :: FirstToSign(w, signer, t.keys, t.keySigs, t.ds, i)
  {
  }

  /** The four ways to end. */
  lemma EndIs(w: World, m: Moment, rrset: seq<RR>, t: Stock, steps: int)
    ensures !Signed(w, rrset, t) ==> EndOf(w, m, rrset, t, steps) == Refused
    ensures Signed(w, rrset, t) && t.sigs != [] ==>
              var signer := t.sigs[0].rdata.signer;
              EndOf(w, m, rrset, t, steps) ==
              if Trusted(w, signer, t, m.now) then (if NoteLost(w, t) then Assured else Accepted)
              else if !Delegated(w, signer, t) then Refused
              else if steps < 1 then Exhausted
              else EndAbove(w, m, signer, steps - 1)
  {
    hide Signed, Trusted, Delegated, EndAbove, NoteLost;
  }

  lemma SignedHas(w: World, rrset: seq<RR>, t: Stock)
    requires Signed(w, rrset, t)
    ensures t.sigs != [] && t.keys != []
  {
    hide KeyMatches, Verifies;
  }

  lemma EndAboveIs(w: World, m: Moment, qname: Name, steps: nat)
    ensures var above := AnswerSet(w, m.cache, qname, TYPE_DS);
            EndAbove(w, m, qname, steps) ==
            match FirstDenial(w, m.cache, qname, TYPE_DS)
            case Some(c) => if c.nsec then Deferred else Refused
            case None =>
              if above == [] then Refused
              else if Complete(w, m, above, NextRrsig, NOTHING, false) then
                EndOf(w, m, above, Gathered(m, above, NextRrsig, NOTHING), steps)
              else Open
  {
    hide FirstDenial, AnswerSet, Complete, EndOf, Gathered;
    assert Moment(m.cache, m.now) == m;
  }
}
