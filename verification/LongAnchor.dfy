/**
 * An anchor with more labels than the name, chosen because they share a label: the proof below it
 * begins above the anchor, at the root, and asks for the root again and again.
 */
module LongAnchor {
  import opened Bytes
  import opened DomainNames
  import opened DnssecRecords
  import DnssecVerifier
  import opened InsecureProof

  /** The anchor for b.a, which shares the label a with the name a. */
  const SHORT: Name := [[97]]
  const LONG: Name := [[98], [97]]
  const LONG_ANCHOR: TrustAnchor := TrustAnchor(LONG, 0, SHA256_DIGEST, [], 0, 100)

  lemma LongAnchorChosen()
    ensures AnchorFor([LONG_ANCHOR], SHORT, 0) == Some(LONG_ANCHOR)
  {
    assert SuffixesMatch(LONG, SHORT, 1) by { assert LONG[1..] == SHORT && SHORT[0..] == SHORT; }
    assert MatchFrom(LONG, SHORT, 1) == 1;
    assert [LONG_ANCHOR][..0] == [];
    assert Chosen([LONG_ANCHOR], 0, SHORT, 0) == Choice(0, None, None);
  }

  lemma LabelCounts()
    ensures |SHORT| == 1 && |LONG_ANCHOR.zone| == 2
  {
  }

  /** Every question but the last is for the root. */
  lemma OnlyRootThere(k: nat)
    requires k > 0
    ensures DropLabels(SHORT, k) == [] && !Same([], SHORT)
  {
    assert |Lower([])| == 0 && |Lower(SHORT)| == 1;
  }

  /** A proved denial that shows no delegation. */
  function Denial(chain: AuthElement): Reply
    requires chain.rrset == [RR([], CLASS_IN, 0, Other(TYPE_NSEC, []))]
    ensures VerdictOn(Denial(chain), false) == OneMore
  {
    Reply(DnssecVerifier.Secure, [chain], false, false)
  }

  /** Below that anchor the walk starts with two questions for the root, which is above the anchor. */
  method RootAskedTwice(chain: seq<AuthElement>, e: AuthElement) returns (p: Proof)
    requires e.rrset == [RR([], CLASS_IN, 0, Other(TYPE_NSEC, []))]
    ensures fresh(p) && p.Valid() && p.origName == SHORT && p.asking && p.asked == [[], []]
  {
    p := RootAsked(chain);
    var r := Denial(e);
    OnlyRootThere(253);
    LabelCounts();
    hide Same, VerdictOn, SHORT, DropLabels, Denial, Proof.Valid;
    p.Answer(r);
  }

  method RootAsked(chain: seq<AuthElement>) returns (p: Proof)
    ensures fresh(p) && p.Valid() && p.origName == SHORT && p.triggerLabelCount == 1
    ensures p.asking && p.asked == [[]] && p.qName == [] && p.skip == 254
  {
    hide *;
    LongAnchorChosen();
    LabelCounts();
    p := new Proof([LONG_ANCHOR], SHORT, chain, None, 0);
    BelowLong(p);
  }

  lemma BelowLong(p: Proof)
    requires p.Valid() && p.Begun(Some(LONG_ANCHOR)) && p.origName == SHORT && p.triggerLabelCount == 1
    ensures p.asking && p.asked == [[]] && p.qName == [] && p.skip == 254
  {
    hide *;
    OnlyRootThere(254);
    LabelCounts();
    p.FirstQuestion(LONG_ANCHOR, 255);
  }
}
