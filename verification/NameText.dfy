/**
 * The text form of names: labels separated by dots, with dots, backslashes and non-printing octets
 * escaped.  Texts are octets without their closing NUL.
 */
module NameText {
  import opened Bytes
  import opened DomainNames

  const MAX_ESCAPED_DOMAIN_NAME := 1009
  const DOT := 46
  /** The usual escape character, and the one the parser knows; 0 stands for writing without escapes. */
  const ESC: byte := 92

  // ----- Name to text

  function Escaped(c: byte, esc: byte): (t: seq<byte>)
    ensures 1 <= |t| <= 4
  {
    if esc == 0 then [c]
    else if c == DOT || c == esc then [esc, c]
    else if c <= 32 then [esc, 48 + c / 100, 48 + (c / 10) % 10, 48 + c % 10]
    else [c]
  }

  function LabelText(l: seq<byte>, esc: byte): (t: seq<byte>) {
    if l == [] then [] else Escaped(l[0], esc) + LabelText(l[1..], esc)
  }

  /** Every label is followed by a dot. */
  function LabelsText(n: Name, esc: byte): (t: seq<byte>) {
    if n == [] then [] else LabelText(n[0], esc) + [DOT] + LabelsText(n[1..], esc)
  }

  function Text(n: Name, esc: byte): (t: seq<byte>) {
    if n == [] then [DOT] else LabelsText(n, esc)
  }

  lemma {:induction false} LabelTextLength(l: seq<byte>, esc: byte)
    ensures |l| <= |LabelText(l, esc)| <= 4 * |l|
  {
    if l != [] { LabelTextLength(l[1..], esc); }
  }

  /** With `k` labels of together `b` octets the text has at most 4b + k octets. */
  lemma {:induction false} LabelsTextLength(n: Name, esc: byte)
    ensures |LabelsText(n, esc)| <= 4 * (WireLength(n) - 1 - |n|) + |n|
    ensures WireLength(n) - 1 >= |n|
    decreases |n|
  {
    if n != [] {
      LabelTextLength(n[0], esc);
      LabelsTextLength(n[1..], esc);
    }
  }

  lemma {:induction false} LabelsCarryLittle(n: Name)
    requires LabelsValid(n)
    ensures WireLength(n) - 1 <= 64 * |n|
    decreases |n|
  {
    if n != [] { LabelsCarryLittle(n[1..]); }
  }

  /** The text with its closing NUL fits into 1009 octets. */
  lemma TextFits(n: Name, esc: byte)
    requires Valid(n)
    ensures |Text(n, esc)| + 1 <= MAX_ESCAPED_DOMAIN_NAME
  {
    LabelsTextLength(n, esc);
    LabelsCarryLittle(n);
  }

  /** And 1009 octets are needed: for four labels of zero octets, 63, 63, 63 and 62 of them. */
  lemma TextBoundTight()
    ensures exists n :: Valid(n) && |Text(n, ESC)| + 1 == MAX_ESCAPED_DOMAIN_NAME
  {
    var a: Label, b: Label := seq(63, _ => 0), seq(62, _ => 0);
    var n: Name := [a, a, a, b];
    ZeroText(a);
    ZeroText(b);
    assert n[1..] == [a, a, b] && n[1..][1..] == [a, b] && [a, b][1..] == [b] && [b][1..] == [];
    assert WireLength([b]) == 64 && WireLength([a, b]) == 128 && WireLength([a, a, b]) == 192;
    assert Valid(n);
    assert |LabelsText([b], ESC)| == 249 && |LabelsText([a, b], ESC)| == 502 && |LabelsText([a, a, b], ESC)| == 755;
  }

  lemma {:induction false} ZeroText(l: seq<byte>)
    requires forall k :: 0 <= k < |l| ==> l[k] == 0
    ensures |LabelText(l, ESC)| == 4 * |l|
  {
    if l != [] { ZeroText(l[1..]); }
  }

  /** Octets above 32 other than dot and escape character stand for themselves; without escapes all of them do. */
  lemma {:induction false} PlainLabelText(l: seq<byte>, esc: byte)
    requires esc == 0 || forall k :: 0 <= k < |l| ==> l[k] > 32 && l[k] != 46 && l[k] != esc
    ensures LabelText(l, esc) == l
  {
    if l != [] {
      PlainLabelText(l[1..], esc);
      assert l == [l[0]] + l[1..];
    }
  }

  lemma OctetText(c: byte, l: seq<byte>, esc: byte)
    ensures LabelText([c] + l, esc) == Escaped(c, esc) + LabelText(l, esc)
    ensures LabelText([], esc) == []
  {
    assert ([c] + l)[1..] == l;
  }

  lemma EscapedOctets()
    ensures Escaped(97, ESC) == [97] && Escaped(46, ESC) == [92, 46] && Escaped(92, ESC) == [92, 92]
    ensures Escaped(32, ESC) == [92, 48, 51, 50] && Escaped(7, ESC) == [92, 48, 48, 55]
    ensures Escaped(0, ESC) == [92, 48, 48, 48]
  {
  }

  /** What is escaped: the octets a, dot, backslash, blank, 7 and 0 of a label make the text `a\.\\\032\007\000`. */
  lemma TextExample()
    ensures LabelText([97, 46, 92, 32, 7, 0], ESC) ==
            [97, 92, 46, 92, 92, 92, 48, 51, 50, 92, 48, 48, 55, 92, 48, 48, 48]
  {
    hide *;
    EscapedOctets();
    OctetText(0, [], ESC);
    OctetText(7, [0], ESC);
    OctetText(32, [7, 0], ESC);
    OctetText(92, [32, 7, 0], ESC);
    OctetText(46, [92, 32, 7, 0], ESC);
    OctetText(97, [46, 92, 32, 7, 0], ESC);
    assert [0] + [] == [0] && [7] + [0] == [7, 0] && [32] + [7, 0] == [32, 7, 0];
    assert [92] + [32, 7, 0] == [92, 32, 7, 0] && [46] + [92, 32, 7, 0] == [46, 92, 32, 7, 0];
    assert [97] + [46, 92, 32, 7, 0] == [97, 46, 92, 32, 7, 0];
  }

  method PutEscaped(c: byte, esc: byte, out: array<byte>, at: nat) returns (next: nat)
    requires at + |Escaped(c, esc)| <= out.Length
    modifies out
    ensures next == at + |Escaped(c, esc)| && out[..] == Splice(old(out[..]), at, Escaped(c, esc))
  {
    var d := c;
    next := at;
    if esc != 0 && (c == DOT || c == esc) {
      out[next] := esc;
      next := next + 1;
    } else if esc != 0 && c <= 32 {
      out[next] := esc;
      out[next + 1] := 48 + c / 100;
      out[next + 2] := 48 + (c / 10) % 10;
      next := next + 3;
      d := 48 + c % 10;
    }
    out[next] := d;
    next := next + 1;
  }

  lemma LabelTextNext(l: seq<byte>, k: nat, esc: byte)
    requires k < |l|
    ensures LabelText(l[..k + 1], esc) == LabelText(l[..k], esc) + Escaped(l[k], esc)
  {
    LabelTextAppend(l[..k], [l[k]], esc);
    assert l[..k + 1] == l[..k] + [l[k]];
    assert LabelText([l[k]], esc) == Escaped(l[k], esc) + LabelText([], esc);
  }

  lemma {:induction false} LabelTextAppend(l: seq<byte>, m: seq<byte>, esc: byte)
    ensures LabelText(l + m, esc) == LabelText(l, esc) + LabelText(m, esc)
  {
    hide Escaped;
    if l == [] {
      assert l + m == m;
    } else {
      LabelTextAppend(l[1..], m, esc);
      assert (l + m)[1..] == l[1..] + m;
      var head, rest := Escaped(l[0], esc), LabelText(l[1..], esc);
      assert head + (rest + LabelText(m, esc)) == (head + rest) + LabelText(m, esc);
    }
  }

  lemma {:induction false} LabelsTextAppend(n: Name, m: Name, esc: byte)
    ensures LabelsText(n + m, esc) == LabelsText(n, esc) + LabelsText(m, esc)
    decreases |n|
  {
    hide LabelText;
    if n == [] {
      assert n + m == m;
    } else {
      LabelsTextAppend(n[1..], m, esc);
      assert (n + m)[1..] == n[1..] + m;
      var head, rest := LabelText(n[0], esc) + [DOT], LabelsText(n[1..], esc);
      assert head + (rest + LabelsText(m, esc)) == (head + rest) + LabelsText(m, esc);
    }
  }

  /**
   * One label of the name with a NUL behind it, unless it is too long; the room for four octets for
   * each of its octets is there.
   */
  method ConvertDomainLabel(name: seq<byte>, src: nat, out: array<byte>, at: nat, esc: byte, ghost l: Label)
    returns (next: Option<nat>)
    requires src < |name| && name[src] == |l| && StandsAt(name, src + 1, l)
    requires |l| <= MAX_DOMAIN_LABEL ==> at + 4 * |l| < out.Length
    modifies out
    ensures if |l| > MAX_DOMAIN_LABEL then next == None && out[..] == old(out[..])
            else
              && next == Some(at + |LabelText(l, esc)|) && |LabelText(l, esc)| <= 4 * |l|
              && out[..] == Splice(old(out[..]), at, LabelText(l, esc) + [0])
  {
    hide Splice, LabelText, Escaped;
    ghost var P := out[..];
    var len: nat := name[src];
    if len > MAX_DOMAIN_LABEL { return None; }
    var ptr: nat := at;
    NothingSpliced(P, at, esc);
    for i := 0 to len
      invariant ptr == at + |LabelText(l[..i], esc)| <= at + 4 * i
      invariant out[..] == Splice(P, at, LabelText(l[..i], esc))
    {
      LabelTextNext(l, i, esc);
      SpliceTwice(P, at, LabelText(l[..i], esc), Escaped(l[i], esc));
      ptr := PutEscaped(name[src + 1 + i], esc, out, ptr);
    }
    assert l[..len] == l;
    SpliceTwice(P, at, LabelText(l, esc), [0]);
    PutOne(out, ptr, 0);
    return Some(ptr);
  }

  /** What is written over the octet behind a text replaces it. */
  lemma LastReplaced(q: seq<byte>, at: nat, t: seq<byte>, c: byte, d: byte)
    requires at + |t| + 1 <= |q|
    ensures Splice(Splice(q, at, t + [c]), at + |t|, [d]) == Splice(q, at, t + [d])
  {
  }

  lemma NothingSpliced(p: seq<byte>, at: nat, esc: byte)
    requires at <= |p|
    ensures LabelText([], esc) == [] && LabelsText([], esc) == [] && LabelText([][..0], esc) == []
    ensures Splice(p, at, []) == p
  {
  }

  /** Writing a label's text and its dot behind the text of `done` gives the text of one label more. */
  lemma LabelWritten(p: seq<byte>, done: Name, l: Label, esc: byte)
    requires |LabelsText(done, esc)| + |LabelText(l, esc)| + 1 <= |p|
    ensures LabelsText(done + [l], esc) == LabelsText(done, esc) + (LabelText(l, esc) + [DOT])
    ensures var q := Splice(p, 0, LabelsText(done, esc));
            var r := Splice(q, |LabelsText(done, esc)|, LabelText(l, esc) + [0]);
            Splice(r, |LabelsText(done, esc)| + |LabelText(l, esc)|, [DOT]) == Splice(p, 0, LabelsText(done + [l], esc))
  {
    hide Splice, LabelText, LabelsText;
    var d, t := LabelsText(done, esc), LabelText(l, esc);
    LabelsTextAppend(done, [l], esc);
    OneLabelText(l, esc);
    LastReplaced(Splice(p, 0, d), |d|, t, 0, DOT);
    SpliceTwice(p, 0, d, t + [DOT]);
  }

  lemma OneLabel(l: Label)
    ensures WireLength([l]) == 2 + |l|
  {
    assert [l][1..] == [];
  }

  /** Whether the name's next label passes the converter's two checks is what decides validity. */
  lemma NextLabel(done: Name, u: Name)
    requires u != [] && Valid(done)
    ensures WireLength(done + u) == WireLength(done) + |u[0]| + WireLength(u[1..])
    ensures WireLength(done + [u[0]]) == WireLength(done) + 1 + |u[0]|
    ensures Valid(done + u) ==> WireLength(done) + |u[0]| < MAX_DOMAIN_NAME && |u[0]| <= MAX_DOMAIN_LABEL
    ensures WireLength(done) + |u[0]| < MAX_DOMAIN_NAME && |u[0]| <= MAX_DOMAIN_LABEL ==> Valid(done + [u[0]])
    ensures done + u == (done + [u[0]]) + u[1..]
  {
    WireLengthAppend(done, u);
    WireLengthAppend(done, [u[0]]);
    NameStep(u);
    OneLabel(u[0]);
    hide WireLength;
    assert (done + u)[|done|] == u[0];
  }

  /** Null for a malformed name; otherwise the text, a closing NUL, and the position behind it. */
  method ConvertDomainName(name: seq<byte>, out: array<byte>, esc: byte, ghost n: Name) returns (r: Option<nat>)
    requires Holds(name, 0, n) && out.Length >= MAX_ESCAPED_DOMAIN_NAME
    modifies out
    ensures Valid(n) <==> r.Some?
    ensures r.Some? ==> r == Some(|Text(n, esc)| + 1) && StandsAt(out[..], 0, Text(n, esc) + [0])
  {
    hide Splice, LabelText, LabelsText, Escaped, WireLength, Valid;
    ghost var P := out[..];
    var src: nat, at: nat := 0, 0;
    ghost var done: Name, u := [], n;
    RootValid();
    if name[0] == 0 {
      out[0], out[1] := DOT, 0;
      return Some(2);
    }
    NothingSpliced(P, 0, esc);
    while name[src] != 0
      invariant Holds(name, src, u) && n == done + u && src + 1 == WireLength(done)
      invariant Valid(done) && at == |LabelsText(done, esc)| <= 1008
      invariant out[..] == Splice(P, 0, LabelsText(done, esc))
      decreases |u|
    {
      ghost var l := u[0];
      NextLabel(done, u);
      if src + 1 + name[src] >= MAX_DOMAIN_NAME { return None; }
      if |l| <= MAX_DOMAIN_LABEL { RoomForLabel(done, l, esc); }
      var ptr := ConvertDomainLabel(name, src, out, at, esc, l);
      if ptr.None? { return None; }
      LabelWritten(P, done, l, esc);
      at := ptr.value;
      PutOne(out, at, DOT);
      at := at + 1;
      src := src + 1 + name[src];
      done, u := done + [l], u[1..];
    }
    assert u == [] && done == n;
    SpliceTwice(P, 0, LabelsText(n, esc), [0]);
    PutOne(out, at, 0);
    return Some(at + 1);
  }

  lemma RootValid()
    ensures WireLength([]) == 1 && Valid([])
  {
  }

  method PutOne(out: array<byte>, at: nat, c: byte)
    requires at < out.Length
    modifies out
    ensures out[..] == Splice(old(out[..]), at, [c])
  {
    out[at] := c;
  }

  lemma OneLabelText(l: Label, esc: byte)
    ensures LabelsText([l], esc) == LabelText(l, esc) + [DOT]
  {
    assert [l][1..] == [];
    assert LabelsText([], esc) == [];
  }

  /** The bound leaves room for the next label even if all of its octets are escaped. */
  lemma RoomForLabel(done: Name, l: Label, esc: byte)
    requires Valid(done + [l])
    ensures |LabelsText(done, esc)| + 4 * |l| + 1 <= 1008
  {
    var more := done + [l];
    LabelsTextLength(done, esc);
    WireLengthAppend(done, [l]);
    LabelsCarryLittle(more);
  }

  // ----- Text to name

  predicate DigitAt(t: seq<byte>, i: nat) { i < |t| && IsDigit(t[i]) }

  function Decimal(t: seq<byte>, i: nat): nat
    requires DigitAt(t, i) && DigitAt(t, i + 1) && DigitAt(t, i + 2)
  {
    var a: int, b: int, c: int := t[i], t[i + 1], t[i + 2];
    (a - 48) * 100 + (b - 48) * 10 + (c - 48)
  }

  /** One octet of a label and the position behind its text; none if the text ends in a backslash. */
  function ReadOctet(t: seq<byte>, i: nat): (r: Option<(byte, nat)>)
    requires i < |t|
    ensures r.Some? ==> i < r.value.1 <= |t|
  {
    if t[i] != ESC then Some((t[i], i + 1))
    else if i + 1 == |t| then None
    else if DigitAt(t, i + 1) && DigitAt(t, i + 2) && DigitAt(t, i + 3) && Decimal(t, i + 1) <= 255 then
      Some((Decimal(t, i + 1), i + 4))
    else Some((t[i + 1], i + 2))
  }

  /** Three digits stand for the octet they are the number of, if there is one; other characters for themselves. */
  lemma EscapesMean(v: nat, c: byte)
    requires v <= 999
    ensures ReadOctet([92, 48 + v / 100, 48 + v / 10 % 10, 48 + v % 10], 0) ==
            if v <= 255 then Some((v, 4)) else Some((48 + v / 100, 2))
    ensures !(48 <= c <= 57) ==> ReadOctet([92, c, 48, 48], 0) == Some((c, 2))
    ensures c != 92 ==> ReadOctet([c, 48, 48, 48], 0) == Some((c, 1))
  {
    var t := [92, 48 + v / 100, 48 + v / 10 % 10, 48 + v % 10];
    Digits(v);
    assert Decimal(t, 1) == v;
  }

  lemma Digits(v: nat)
    requires v <= 999
    ensures v / 100 < 10 && v == v / 100 * 100 + v / 10 % 10 * 10 + v % 10
  {
    assert v / 10 / 10 == v / 100;
  }

  /** The label that starts at `i`, cut off after `room` octets, and the position behind it. */
  function LabelScan(t: seq<byte>, i: nat, room: nat): (r: (seq<byte>, nat))
    requires i <= |t|
    ensures i <= r.1 <= |t| && |r.0| <= room
    decreases room
  {
    if i == |t| || t[i] == DOT || room == 0 then ([], i)
    else match ReadOctet(t, i)
      case None => ([], |t|)
      case Some(p) => var r := LabelScan(t, p.1, room - 1); ([p.0] + r.0, r.1)
  }

  function PastDot(t: seq<byte>, i: nat): (j: nat)
    requires i <= |t|
    ensures i <= j <= |t|
  {
    if i < |t| && t[i] == DOT then i + 1 else i
  }

  /** The octets written for the text from `i`, when `used` of the name's 255 octets are taken. */
  function NameScan(t: seq<byte>, i: nat, used: nat): (r: Option<seq<byte>>)
    requires i <= |t| && used <= 255
    ensures r.Some? ==> used + |r.value| <= 256
    decreases 255 - used
  {
    if i == |t| then Some([0])
    else if used == 255 || t[i] == DOT then None
    else
      var (l, j) := LabelScan(t, i, 254 - used);
      if |l| > MAX_DOMAIN_LABEL then None
      else match NameScan(t, PastDot(t, j), used + 1 + |l|)
        case None => None
        case Some(w) => Some([|l|] + l + w)
  }

  /** What a fresh name holds after the text has been turned into it. */
  function Parse(t: seq<byte>): (r: Option<seq<byte>>)
    ensures r.Some? ==> |r.value| <= 256
  {
    NameScan(t, 0, 0)
  }

  lemma EscapedReadBack(t: seq<byte>, i: nat, c: byte)
    requires StandsAt(t, i, Escaped(c, ESC))
    ensures t[i] != DOT && ReadOctet(t, i) == Some((c, i + |Escaped(c, ESC)|))
  {
    var e := Escaped(c, ESC);
    assert forall k :: 0 <= k < |e| ==> t[i + k] == e[k];
  }

  lemma {:induction false} LabelReadBack(t: seq<byte>, i: nat, l: seq<byte>, room: nat)
    requires StandsAt(t, i, LabelText(l, ESC)) && |l| <= room
    requires i + |LabelText(l, ESC)| < |t| && t[i + |LabelText(l, ESC)|] == DOT
    ensures LabelScan(t, i, room) == (l, i + |LabelText(l, ESC)|)
    decreases |l|
  {
    hide Escaped, ReadOctet;
    if l != [] {
      StandsParts(t, i, Escaped(l[0], ESC), LabelText(l[1..], ESC));
      EscapedReadBack(t, i, l[0]);
      LabelReadBack(t, i + |Escaped(l[0], ESC)|, l[1..], room - 1);
      assert l == [l[0]] + l[1..];
    }
  }

  lemma {:induction false} NameReadBack(t: seq<byte>, i: nat, n: Name, used: nat)
    requires StandsAt(t, i, LabelsText(n, ESC)) && i + |LabelsText(n, ESC)| == |t|
    requires LabelsValid(n) && used + WireLength(n) <= 256
    ensures NameScan(t, i, used) == Some(Wire(n))
    decreases |n|
  {
    hide LabelText, LabelScan, NameScan, LabelsText, StandsAt, Wire, WireLength, LabelsValid;
    if n == [] {
      NoLabels();
      ScanEnds(t, i, used);
    } else {
      var l, rest := n[0], n[1..];
      NameStep(n);
      LabelsTextParts(t, i, n);
      var j := i + |LabelText(l, ESC)|;
      LabelReadBack(t, i, l, 254 - used);
      LabelNotEmpty(t, i, l);
      ScanLabel(t, i, used);
      NameReadBack(t, j + 1, rest, used + 1 + |l|);
      assert PastDot(t, j) == j + 1;
      assert NameScan(t, i, used) == Prepend([|l|] + l, Some(Wire(rest)));
    }
  }

  lemma NoLabels()
    ensures LabelsText([], ESC) == [] && Wire([]) == [0] && WireLength([]) == 1
  {
  }

  lemma DotStands(t: seq<byte>, i: nat, a: seq<byte>, b: seq<byte>)
    requires StandsAt(t, i, a + ([DOT] + b))
    ensures i + |a| < |t| && t[i + |a|] == DOT
  {
    assert (a + ([DOT] + b))[|a|] == DOT;
  }

  lemma LabelsTextParts(t: seq<byte>, i: nat, n: Name)
    requires n != [] && StandsAt(t, i, LabelsText(n, ESC))
    ensures var j := i + |LabelText(n[0], ESC)|;
            && StandsAt(t, i, LabelText(n[0], ESC)) && j < |t| && t[j] == DOT
            && StandsAt(t, j + 1, LabelsText(n[1..], ESC))
            && i + |LabelsText(n, ESC)| == j + 1 + |LabelsText(n[1..], ESC)|
  {
    hide *;
    var l, rest := n[0], n[1..];
    LabelsTextStep(n);
    DotStands(t, i, LabelText(l, ESC), LabelsText(rest, ESC));
    StandsParts(t, i, LabelText(l, ESC), [DOT] + LabelsText(rest, ESC));
    StandsParts(t, i + |LabelText(l, ESC)|, [DOT], LabelsText(rest, ESC));
  }

  lemma LabelsTextStep(n: Name)
    requires n != []
    ensures LabelsText(n, ESC) == LabelText(n[0], ESC) + ([DOT] + LabelsText(n[1..], ESC))
  {
    hide LabelText;
    var a, b := LabelText(n[0], ESC), LabelsText(n[1..], ESC);
    assert a + [DOT] + b == a + ([DOT] + b);
  }

  lemma LabelNotEmpty(t: seq<byte>, i: nat, l: Label)
    requires StandsAt(t, i, LabelText(l, ESC))
    ensures i < |t| && t[i] != DOT
  {
    StandsParts(t, i, Escaped(l[0], ESC), LabelText(l[1..], ESC));
    EscapedReadBack(t, i, l[0]);
  }

  /** Of the valid names it is exactly the root whose text does not read back to it. */
  lemma TextRoundTrip(n: Name)
    requires Valid(n)
    ensures Parse(Text(n, ESC)) == if n == [] then None else Some(Wire(n))
  {
    if n != [] { NameReadBack(Text(n, ESC), 0, n, 0); }
  }

  /** Texts tell names apart. */
  lemma TextsDiffer(m: Name, n: Name)
    requires Valid(m) && Valid(n) && Text(m, ESC) == Text(n, ESC)
    ensures m == n
  {
    TextRoundTrip(m);
    TextRoundTrip(n);
    if m != [] {
      HoldsIsWire(Wire(m), 0, m);
      HoldsIsWire(Wire(n), 0, n);
      HoldsUnique(Wire(m), 0, m, n);
    }
  }

  lemma {:induction false} LabelTextPrints(l: seq<byte>)
    ensures forall k :: 0 <= k < |LabelText(l, ESC)| ==> LabelText(l, ESC)[k] > 32
  {
    if l != [] {
      LabelTextPrints(l[1..]);
      assert forall k :: 0 <= k < |Escaped(l[0], ESC)| ==> Escaped(l[0], ESC)[k] > 32;
    }
  }

  lemma {:induction false} LabelsTextPrint(n: Name)
    ensures forall k :: 0 <= k < |LabelsText(n, ESC)| ==> LabelsText(n, ESC)[k] > 32
  {
    hide LabelText;
    if n != [] {
      LabelTextPrints(n[0]);
      LabelsTextPrint(n[1..]);
      var a, b := LabelText(n[0], ESC), LabelsText(n[1..], ESC);
      assert LabelsText(n, ESC) == a + [DOT] + b;
    }
  }

  /** A text has no blank or control character in it, and no NUL: it can stand in a buffer as a C string. */
  lemma TextHasNoNul(n: Name)
    ensures forall k :: 0 <= k < |Text(n, ESC)| ==> Text(n, ESC)[k] > 32
    ensures forall k :: 0 <= k < |Text(n, ESC)| ==> Text(n, ESC)[k] != 0
  {
    LabelsTextPrint(n);
  }

  /**
   * Whatever the text: octets that were written start with a valid name, and nothing stands behind
   * it unless the text ends in a backslash.
   */
  lemma {:induction false} ParseIsValid(t: seq<byte>, i: nat, used: nat) returns (n: Name)
    requires i <= |t| && used <= 255 && NameScan(t, i, used).Some?
    ensures var w := NameScan(t, i, used).value;
            Valid(n) && used + WireLength(n) <= 256 && (w == Wire(n) || (w == Wire(n) + [0] && t[|t| - 1] == ESC))
    decreases 255 - used
  {
    hide LabelScan, NameScan, Wire, WireLength, LabelsValid;
    NoLabels();
    RootValid();
    if i == |t| {
      ScanEnds(t, i, used);
      n := [];
    } else {
      if used == 255 { ScanEnds(t, i, used); }
      ScanLabel(t, i, used);
      var (l, j) := LabelScan(t, i, 254 - used);
      var rest := ParseIsValid(t, PastDot(t, j), used + 1 + |l|);
      if l == [] {
        EmptyLabel(t, i, 254 - used);
        if used == 254 { ScanEnds(t, i, 255); } else { ScanEnds(t, |t|, used + 1); }
        n := [];
      } else {
        n := [l] + rest;
        assert n[1..] == rest;
        NameStep(n);
        assert [|l|] + l + (Wire(rest) + [0]) == ([|l|] + l + Wire(rest)) + [0];
      }
    }
  }

  /** A label comes out empty for want of room or because its text is a lone final backslash. */
  lemma EmptyLabel(t: seq<byte>, i: nat, room: nat)
    requires i < |t| && t[i] != DOT && LabelScan(t, i, room).0 == []
    ensures room == 0 || (t[|t| - 1] == ESC && LabelScan(t, i, room).1 == |t|)
    ensures room == 0 ==> LabelScan(t, i, room).1 == i
  {
  }

  /** A lone backslash is taken for a name, and the position returned is not the one behind it. */
  lemma LoneBackslash()
    ensures Parse([ESC]) == Some([0, 0]) && Wire([]) == [0]
  {
    assert ReadOctet([ESC], 0) == None;
    assert LabelScan([ESC], 0, 254) == ([], 1);
    assert NameScan([ESC], 1, 1) == Some([0]);
    assert [0] + [] + [0] == [0, 0];
  }

  /** What a backslash and the characters behind it, of which there is one, stand for. */
  method Unescape(cstr: seq<byte>, from: nat, ghost t: seq<byte>) returns (c: byte, i: nat)
    requires CString(cstr, t) && 1 <= from < |t| && t[from - 1] == ESC
    ensures ReadOctet(t, from - 1) == Some((c, i))
  {
    c := cstr[from];
    i := from + 1;
    if IsDigit(cstr[i - 1]) && IsDigit(cstr[i]) && IsDigit(cstr[i + 1]) {
      var v0: int, v1: int, v2: int := cstr[i - 1] - 48, cstr[i] - 48, cstr[i + 1] - 48;
      var val := v0 * 100 + v1 * 10 + v2;
      if val <= 255 {
        c := val;
        i := i + 2;
      }
    }
  }

  lemma ScanStep(t: seq<byte>, i: nat, room: nat)
    requires i < |t| && t[i] != DOT && room > 0
    ensures LabelScan(t, i, room) ==
            match ReadOctet(t, i)
            case None => ([], |t|)
            case Some(p) => ([p.0] + LabelScan(t, p.1, room - 1).0, LabelScan(t, p.1, room - 1).1)
    ensures t[i] == ESC && i + 1 == |t| ==> ReadOctet(t, i) == None
  {
  }

  lemma PlainOctet(t: seq<byte>, i: nat)
    requires i < |t| && t[i] != ESC
    ensures ReadOctet(t, i) == Some((t[i], i + 1))
  {
  }

  lemma ScanStops(t: seq<byte>, i: nat, room: nat)
    requires i <= |t| && (i == |t| || t[i] == DOT || room == 0)
    ensures LabelScan(t, i, room) == ([], i)
  {
  }

  /** The inner loop: one label's octets, written behind the place of its length octet. */
  method ReadLabel(name: array<byte>, at: nat, cstr: seq<byte>, from: nat, ghost t: seq<byte>)
    returns (ptr: nat, i: nat)
    requires name.Length == MAX_DOMAIN_NAME && at <= 255 && CString(cstr, t) && from <= |t|
    modifies name
    ensures var (l, j) := LabelScan(t, from, 255 - at);
            ptr == at + |l| && i == j && name[..] == Splice(old(name[..]), at, l)
  {
    hide Splice, ReadOctet, LabelScan;
    ghost var P := name[..];
    ghost var done: seq<byte> := [];
    ptr, i := at, from;
    NothingSpliced(P, at, ESC);
    assert [] + LabelScan(t, i, 255 - at).0 == LabelScan(t, i, 255 - at).0;
    while cstr[i] != 0 && cstr[i] != DOT && ptr < 255
      invariant i <= |t| && at <= ptr <= 255 && ptr == at + |done|
      invariant LabelScan(t, from, 255 - at) == (done + LabelScan(t, i, 255 - ptr).0, LabelScan(t, i, 255 - ptr).1)
      invariant name[..] == Splice(P, at, done)
      decreases 255 - ptr
    {
      ghost var i0 := i;
      var c := cstr[i];
      i := i + 1;
      if c == ESC {
        if cstr[i] == 0 {
          ScanStep(t, i0, 255 - ptr);
          break;
        }
        c, i := Unescape(cstr, i, t);
      } else {
        PlainOctet(t, i0);
      }
      ScanStep(t, i0, 255 - ptr);
      SpliceTwice(P, at, done, [c]);
      PutOne(name, ptr, c);
      ghost var r := LabelScan(t, i, 254 - ptr).0;
      assert done + ([c] + r) == (done + [c]) + r;
      ptr := ptr + 1;
      done := done + [c];
    }
    ScanStops(t, i, 255 - ptr);
    assert done + [] == done;
  }

  lemma ScanLabel(t: seq<byte>, i: nat, used: nat)
    requires i < |t| && used < 255
    ensures t[i] == DOT ==> NameScan(t, i, used) == None
    ensures t[i] != DOT ==>
              var (l, j) := LabelScan(t, i, 254 - used);
              && (|l| > MAX_DOMAIN_LABEL ==> NameScan(t, i, used) == None)
              && (|l| <= MAX_DOMAIN_LABEL ==>
                    NameScan(t, i, used) == Prepend([|l|] + l, NameScan(t, PastDot(t, j), used + 1 + |l|)))
  {
    hide LabelScan;
  }

  lemma ScanEnds(t: seq<byte>, i: nat, used: nat)
    requires i <= |t| && used <= 255 && (i == |t| || used == 255)
    ensures NameScan(t, i, used) == if i == |t| then Some([0]) else None
  {
  }

  lemma Stops(cstr: seq<byte>, t: seq<byte>, i: nat)
    requires CString(cstr, t) && i <= |t|
    ensures |t| < |cstr| && (cstr[i] == 0 <==> i == |t|)
    ensures i < |t| ==> cstr[i] == t[i]
  {
  }

  /** The length octet completes the label written behind its place. */
  lemma LengthFilledIn(p: seq<byte>, start: nat, done: seq<byte>, at: nat, l: seq<byte>)
    requires at == start + |done| && |l| < 256 && at + 1 + |l| <= |p|
    ensures Splice(Splice(p, start, done), at + 1, l)[at := |l|] == Splice(p, start, done + ([|l|] + l))
  {
    var q := Splice(Splice(p, start, done), at + 1, l);
    assert q[at := |l|] == q[..at] + [|l|] + q[at + 1..];
    assert q[at + 1..] == l + p[at + 1 + |l|..];
    assert q[..at] == p[..start] + done;
  }

  /**
   * The text's labels, appended to the name in place; null when a label is empty or too long, or
   * when characters are left over.
   */
  method AppendDNSNameString(name: array<byte>, cstr: seq<byte>, ghost n: Name, ghost t: seq<byte>)
    returns (r: Option<nat>)
    requires name.Length == MAX_DOMAIN_NAME && Holds(name[..], 0, n) && Valid(n) && CString(cstr, t)
    modifies name
    ensures match NameScan(t, 0, WireLength(n) - 1)
            case None => r == None && Agree(old(name[..]), name[..], WireLength(n) - 1)
            case Some(w) =>
              r == Some(WireLength(n) - 1 + |w|) && name[..] == Splice(old(name[..]), WireLength(n) - 1, w)
  {
    hide Splice, NameScan, LabelScan, WireLength, Holds, CString, LabelsValid;
    var len := DomainNameLength(name[..], 0, n);
    var ptr: nat, i: nat := len - 1, 0;
    ghost var P, start := name[..], ptr;
    ghost var done: seq<byte> := [];
    NothingSpliced(P, start, ESC);
    Stops(cstr, t, 0);
    PrependTwice([], [], NameScan(t, 0, start));
    while cstr[i] != 0 && ptr < 255
      invariant i <= |t| && |t| < |cstr| && (cstr[i] == 0 <==> i == |t|)
      invariant start <= ptr <= 255 && ptr == start + |done|
      invariant NameScan(t, 0, start) == Prepend(done, NameScan(t, i, ptr))
      invariant name[..] == Splice(P, start, done)
      decreases 255 - ptr
    {
      var lengthByte, i0 := ptr, i;
      Stops(cstr, t, i);
      ScanLabel(t, i, ptr);
      if cstr[i] == DOT { return None; }
      ptr, i := ReadLabel(name, ptr + 1, cstr, i, t);
      Stops(cstr, t, i);
      if cstr[i] == DOT { i := i + 1; }
      Stops(cstr, t, i);
      var size := ptr - lengthByte - 1;
      if size > MAX_DOMAIN_LABEL { return None; }
      ghost var l := LabelScan(t, i0, 254 - lengthByte).0;
      LengthFilledIn(P, start, done, lengthByte, l);
      name[lengthByte] := size;
      PrependTwice(done, [size] + l, NameScan(t, i, ptr));
      done := done + ([size] + l);
    }
    ScanEnds(t, i, ptr);
    SpliceTwice(P, start, done, [0]);
    PutOne(name, ptr, 0);
    if cstr[i] != 0 { return None; }
    return Some(ptr + 1);
  }

  /** Null, or the position behind the parsed name, which then stands at the start of the buffer. */
  method MakeDomainNameFromDNSNameString(name: array<byte>, cstr: seq<byte>, ghost t: seq<byte>)
    returns (r: Option<nat>)
    requires name.Length == MAX_DOMAIN_NAME && CString(cstr, t)
    modifies name
    ensures match Parse(t)
            case None => r == None
            case Some(w) => r == Some(|w|) && StandsAt(name[..], 0, w)
  {
    hide NameScan, LabelScan, CString, Splice, WireLength;
    RootValid();
    name[0] := 0;
    r := AppendDNSNameString(name, cstr, [], t);
  }
}
