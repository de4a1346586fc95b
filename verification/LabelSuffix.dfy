/**
 * Renaming after a name collision: a number is appended to a label, " (2)" to a rich text name and
 * "-2" to a host name, the label being cut back at a character's end to make room.
 */
module LabelSuffix {
  import opened Bytes
  import RandomSource

  const MAX_LABEL := 63
  /** What a host name's suffix with ten digits leaves room for. */
  const NARROWEST := 52
  const SPACE := 32
  const OPEN := 40
  const CLOSE := 41
  const DASH := 45

  predicate IsContinuation(c: byte) { 0x80 <= c < 0xC0 }

  // ----- UTF-8

  /** The length of the character a lead octet announces; 0 for what cannot lead. */
  function CharLength(c: byte): (n: nat)
    ensures n == 0 || IsContinuation(c) ==> n == 0 || !IsContinuation(c)
  {
    if c < 0x80 then 1 else if c < 0xC0 then 0 else if c < 0xE0 then 2 else if c < 0xF0 then 3
    else if c < 0xF8 then 4 else if c < 0xFC then 5 else if c < 0xFE then 6 else 0
  }

  /** Whole characters, none of them half of a UTF-16 surrogate pair. */
  predicate Utf8(s: seq<byte>) {
    s == [] ||
    var n := CharLength(s[0]);
    1 <= n <= |s| && (forall i :: 1 <= i < n ==> IsContinuation(s[i])) && (s[0] == 0xED ==> s[1] < 0xA0) && Utf8(s[n..])
  }

  /** Characters as RFC 3629 encodes them. */
  function Encoded(c: nat): (s: seq<byte>)
    requires c < 0x11_0000
  {
    if c < 0x80 then [c]
    else if c < 0x800 then [192 + c / 64, 128 + c % 64]
    else if c < 0x1_0000 then [224 + c / 4096, 128 + c / 64 % 64, 128 + c % 64]
    else [240 + c / 0x4_0000, 128 + c / 4096 % 64, 128 + c / 64 % 64, 128 + c % 64]
  }

  /** Every character but a surrogate is one text, and an encoded surrogate is none. */
  lemma CharacterIsText(c: nat)
    requires c < 0x11_0000
    ensures Utf8(Encoded(c)) <==> !(0xD800 <= c < 0xE000)
  {
    var s := Encoded(c);
    assert s[|s|..] == [];
    if 0xD000 <= c < 0xE000 { assert s[0] == 0xED && s[1] == 128 + (c - 0xD000) / 64; }
    if 0x800 <= c < 0x1_0000 && !(0xD000 <= c < 0xE000) { assert s[0] != 0xED; }
  }

  /** A prefix of whole characters ends where a character starts. */
  lemma {:induction false} Boundary(s: seq<byte>, k: nat)
    requires Utf8(s) && k <= |s|
    ensures Utf8(s[..k]) <==> k == |s| || !IsContinuation(s[k])
    decreases |s|
  {
    if s == [] {
      assert s[..k] == s;
    } else if k > 0 {
      var n := CharLength(s[0]);
      if k < n {
        assert s[..k][0] == s[0];
      } else {
        Boundary(s[n..], k - n);
        assert s[..k][n..] == s[n..][..k - n];
        assert s[..k][0] == s[0];
        if n > 1 { assert s[..k][1] == s[1]; }
        assert forall i :: 1 <= i < n ==> s[..k][i] == s[i];
      }
    }
  }

  /** An octet 0xED starts a character of three octets, the second one below 0xA0. */
  lemma {:induction false} NoSurrogate(s: seq<byte>, k: nat)
    requires Utf8(s) && k < |s| && s[k] == 0xED
    ensures k + 1 < |s| && s[k + 1] < 0xA0
    decreases |s|
  {
    if k > 0 {
      var n := CharLength(s[0]);
      if k >= n { NoSurrogate(s[n..], k - n); }
    }
  }

  lemma {:induction false} Utf8Append(s: seq<byte>, t: seq<byte>)
    requires Utf8(s) && Utf8(t)
    ensures Utf8(s + t)
    decreases |s|
  {
    if s == [] {
      assert s + t == t;
    } else {
      var n := CharLength(s[0]);
      Utf8Append(s[n..], t);
      CharStays(s, t, n);
    }
  }

  /** A character stands where it stood when more is put behind the text. */
  lemma CharStays(s: seq<byte>, t: seq<byte>, n: nat)
    requires n <= |s|
    ensures (s + t)[n..] == s[n..] + t
    ensures forall i :: 0 <= i < |s| ==> (s + t)[i] == s[i]
  {
  }

  // ----- Truncation

  /** The code's test whether a string may be chopped in front of position `k`. */
  predicate Legal(s: seq<byte>, k: nat)
    requires k < |s|
  {
    !IsContinuation(s[k]) && !(s[k] == 0xED && 0xB0 <= (if k + 1 < |s| then s[k + 1] else 0xB0) < 0xC0)
  }

  function Cut(s: seq<byte>, k: nat): (r: nat)
    requires k < |s|
    ensures r <= k
  {
    if k == 0 || Legal(s, k) then k else Cut(s, k - 1)
  }

  /** At position `k` stands a continuation octet or the second half of a surrogate pair. */
  predicate WithinCharacter(s: seq<byte>, k: nat)
    requires k < |s|
  {
    128 <= s[k] <= 191 || (s[k] == 237 && (k + 1 == |s| || 176 <= s[k + 1] <= 191))
  }

  /** Whatever the text, the chop is at the last place that is not within a character, or at the start. */
  lemma {:induction false} CutExactly(s: seq<byte>, k: nat)
    requires k < |s|
    ensures Cut(s, k) > 0 ==> !WithinCharacter(s, Cut(s, k))
    ensures forall j :: Cut(s, k) < j <= k ==> WithinCharacter(s, j)
    decreases k
  {
    assert Legal(s, k) <==> !WithinCharacter(s, k);
    if k > 0 && !Legal(s, k) { CutExactly(s, k - 1); }
  }

  /** Trailing white space and control characters are dropped. */
  function Trim(s: seq<byte>, k: nat): (r: nat)
    requires k <= |s|
    ensures r <= k && (r > 0 ==> s[r - 1] > SPACE) && forall i :: r <= i < k ==> s[i] <= SPACE
  {
    if k > 0 && s[k - 1] <= SPACE then Trim(s, k - 1) else k
  }

  function Truncated(s: seq<byte>, max: nat): (r: nat)
    ensures r <= |s| && r <= max
  {
    if |s| > max then Trim(s, Cut(s, max)) else |s|
  }

  /** For valid text the chop point is the longest prefix of whole characters that fits. */
  lemma {:induction false} CutIsLongest(s: seq<byte>, max: nat)
    requires Utf8(s) && max < |s|
    ensures Utf8(s[..Cut(s, max)])
    ensures forall j :: Cut(s, max) < j <= max ==> !Utf8(s[..j])
  {
    Boundary(s, max);
    if s[max] == 0xED { NoSurrogate(s, max); }
    if max > 0 {
      if !Legal(s, max) { CutIsLongest(s, max - 1); }
    }
  }

  /** A valid text truncated: the longest prefix of whole characters, less its trailing blanks. */
  lemma TruncatedIsWhole(s: seq<byte>, max: nat)
    requires Utf8(s)
    ensures var r := Truncated(s, max);
            Utf8(s[..r]) && (|s| <= max ==> r == |s|) &&
            (|s| > max ==> exists k: nat ::
                             r <= k <= max && Utf8(s[..k]) && (forall j :: k < j <= max ==> !Utf8(s[..j])) &&
                                       (forall i :: r <= i < k ==> s[i] <= SPACE) && (r > 0 ==> s[r - 1] > SPACE))
  {
    hide Utf8, Cut, Trim;
    var r := Truncated(s, max);
    if |s| > max {
      CutIsLongest(s, max);
      Boundary(s, r);
      Boundary(s, Cut(s, max));
    } else {
      assert s[..r] == s;
    }
  }

  method TruncateUTF8ToLength(c: seq<byte>, off: nat, length: nat, max: nat, ghost s: seq<byte>) returns (r: nat)
    requires length == |s| && StandsAt(c, off, s)
    ensures r == Truncated(s, max)
  {
    r := length;
    if length > max {
      assert forall k :: 0 <= k < |s| ==> s[k] == c[off + k];
      var c1: byte := c[off + max];
      var c2: byte := if max + 1 < length then c[off + max + 1] else 0xB0;
      r := max;
      while r > 0
        invariant r <= max && c1 == s[r] && c2 == (if r + 1 < |s| then s[r + 1] else 0xB0)
        invariant Cut(s, max) == Cut(s, r)
      {
        var continuation := 0x80 <= c1 < 0xC0;
        var secondsurrogate := c1 == 0xED && 0xB0 <= c2 < 0xC0;
        if !continuation && !secondsurrogate { break; }
        c2 := c1;
        r := r - 1;
        c1 := c[off + r];
      }
      while r > 0 && c[off + r - 1] <= SPACE
        invariant r <= max && Trim(s, Cut(s, max)) == Trim(s, r)
      {
        assert s[r - 1] == c[off + r - 1];
        r := r - 1;
      }
      assert r > 0 ==> s[r - 1] == c[off + r - 1];
    }
  }

  // ----- Decimal numbers

  function Pow10(n: nat): (p: nat)
    ensures p >= 1
  {
    if n == 0 then 1 else 10 * Pow10(n - 1)
  }

  lemma Powers()
    ensures Pow10(0) == 1 && Pow10(1) == 10 && Pow10(2) == 100 && Pow10(3) == 1_000 && Pow10(4) == 10_000
    ensures Pow10(5) == 100_000 && Pow10(6) == 1_000_000 && Pow10(7) == 10_000_000
    ensures Pow10(8) == 100_000_000 && Pow10(9) == 1_000_000_000 && Pow10(10) == 10_000_000_000
  {
  }

  /** The number of decimal digits of a 32-bit number. */
  function Width(v: nat): (w: nat)
    ensures 1 <= w <= 10
  {
    if v < 10 then 1 else if v < 100 then 2 else if v < 1_000 then 3
    else if v < 10_000 then 4 else if v < 100_000 then 5
    else if v < 1_000_000 then 6 else if v < 10_000_000 then 7 else if v < 100_000_000 then 8
    else if v < 1_000_000_000 then 9 else 10
  }

  /** As many digits as are needed and no more. */
  lemma WidthFits(v: nat)
    requires v < WORD
    ensures v < Pow10(Width(v)) && (v >= 1 ==> Pow10(Width(v) - 1) <= v)
  {
    Powers();
  }

  function Digit(d: nat): byte
    requires d < 10
  {
    48 + d
  }

  lemma DivideSmall(v: nat, p: nat)
    requires p >= 1 && v < 10 * p
    ensures v / p < 10 && v % p < p && v == (v / p) * p + v % p
  {
    var q := v / p;
    assert v == p * q + v % p;
    TimesTen(p, q);
  }

  lemma TimesTen(p: nat, q: nat)
    ensures q >= 10 ==> p * q >= 10 * p
  {
    if q >= 10 { assert p * q == p * (q - 10) + 10 * p; }
  }

  /** The code's division of the number by a power of ten, and the rest. */
  function Split(v: nat, p: nat): (r: (nat, nat))
    requires p >= 1
  {
    (v / p, v % p)
  }

  lemma LeadingDigit(v: nat, n: nat)
    requires n > 0 && v < Pow10(n)
    ensures var r := Split(v, Pow10(n - 1));
            r.0 < 10 && r.1 < Pow10(n - 1) && v == r.0 * Pow10(n - 1) + r.1
  {
    DivideSmall(v, Pow10(n - 1));
  }

  /** `v` with `n` digits. */
  function Fixed(v: nat, n: nat): (s: seq<byte>)
    requires v < Pow10(n)
    ensures |s| == n
    decreases n
  {
    if n == 0 then [] else
    LeadingDigit(v, n);
    var r := Split(v, Pow10(n - 1));
    [Digit(r.0)] + Fixed(r.1, n - 1)
  }

  function Value(s: seq<byte>): (v: int) {
    if s == [] then 0 else (s[0] as int - 48) * Pow10(|s| - 1) + Value(s[1..])
  }

  lemma ValueOf(t: seq<byte>)
    requires t != []
    ensures Value(t) == (t[0] as int - 48) * Pow10(|t| - 1) + Value(t[1..])
  {
    hide Pow10;
  }

  lemma ValueOfCons(c: byte, s: seq<byte>)
    ensures Value([c] + s) == (c as int - 48) * Pow10(|s|) + Value(s)
  {
    hide Pow10, Value;
    var t := [c] + s;
    ValueOf(t);
    assert t[0] == c && |t| - 1 == |s| && t[1..] == s;
  }

  lemma FixedCons(v: nat, n: nat)
    requires n > 0 && v < Pow10(n)
    ensures var r := Split(v, Pow10(n - 1));
            && r.0 < 10 && r.1 < Pow10(n - 1) && v == r.0 * Pow10(n - 1) + r.1
            && Fixed(v, n) == [Digit(r.0)] + Fixed(r.1, n - 1)
  {
    hide Pow10, Split;
    LeadingDigit(v, n);
  }

  lemma {:induction false} ValueOfFixed(v: nat, n: nat)
    requires v < Pow10(n)
    ensures Value(Fixed(v, n)) == v
    ensures forall i :: 0 <= i < n ==> IsDigit(Fixed(v, n)[i])
    decreases n
  {
    if n == 0 {
      assert v == 0;
    } else {
      hide Pow10, Fixed, Value, Split;
      FixedCons(v, n);
      var (q, r) := Split(v, Pow10(n - 1));
      ValueOfFixed(r, n - 1);
      ValueOfCons(Digit(q), Fixed(r, n - 1));
      assert Digit(q) as int - 48 == q;
    }
  }

  // ----- The suffix

  function Suffix(v: nat, rich: bool): (s: seq<byte>)
    requires v < WORD
    ensures |s| == Width(v) + (if rich then 3 else 1)
  {
    WidthFits(v);
    if rich then [SPACE, OPEN] + Fixed(v, Width(v)) + [CLOSE] else [DASH] + Fixed(v, Width(v))
  }

  function StripSpaces(s: seq<byte>): (r: seq<byte>)
    ensures r <= s
  {
    if s != [] && s[|s| - 1] == SPACE then StripSpaces(s[..|s| - 1]) else s
  }

  /** What is left of the label to carry the suffix. */
  function Base(s: seq<byte>, v: nat, rich: bool): (b: seq<byte>)
    requires v < WORD
    ensures b <= s && |b| + |Suffix(v, rich)| <= MAX_LABEL
  {
    var t := if rich then StripSpaces(s) else s;
    t[..Truncated(t, MAX_LABEL - |Suffix(v, rich)|)]
  }

  function Appended(s: seq<byte>, v: nat, rich: bool): (t: seq<byte>)
    requires v < WORD
    ensures |t| <= MAX_LABEL
  {
    Base(s, v, rich) + Suffix(v, rich)
  }

  /** Position behind the last octet that is no digit. */
  function Strip(s: seq<byte>, k: nat): (r: nat)
    requires k <= |s|
    ensures r <= k && (forall i :: r <= i < k ==> IsDigit(s[i])) && (r > 0 ==> !IsDigit(s[r - 1]))
  {
    if k > 0 && IsDigit(s[k - 1]) then Strip(s, k - 1) else k
  }

  function WithoutClose(s: seq<byte>, rich: bool): (r: seq<byte>)
    ensures r <= s
  {
    if rich && s != [] && s[|s| - 1] == CLOSE then s[..|s| - 1] else s
  }

  function WithoutOpen(s: seq<byte>, rich: bool): (r: seq<byte>)
    ensures r <= s
  {
    if rich then if |s| >= 2 && s[|s| - 1] == OPEN && s[|s| - 2] == SPACE then s[..|s| - 2] else s
    else if s != [] && s[|s| - 1] == DASH then s[..|s| - 1] else s
  }

  /** The number taken off a label, in 32 bits, and the label without it. */
  function Removed(s: seq<byte>, rich: bool): (r: (nat, seq<byte>))
    ensures r.0 < WORD && r.1 <= s
  {
    var t := WithoutClose(s, rich);
    var k := Strip(t, |t|);
    (Value(t[k..]) % WORD, WithoutOpen(t[..k], rich))
  }

  /** Stripping digits from position `k` as the test does, which stops at the second octet. */
  function StripTo2(s: seq<byte>, k: nat): (r: nat)
    requires 1 <= k <= |s|
    ensures 1 <= r <= k
  {
    if k > 2 && IsDigit(s[k - 1]) then StripTo2(s, k - 1) else k
  }

  predicate Contains(s: seq<byte>, rich: bool) {
    if rich then
      |s| >= 4 && s[|s| - 1] == CLOSE && IsDigit(s[|s| - 2]) &&
      var l := StripTo2(s, |s| - 2);
      l >= 2 && s[l - 1] == OPEN && s[l - 2] == SPACE
    else
      |s| >= 2 && IsDigit(s[|s| - 1]) && s[StripTo2(s, |s| - 1) - 1] == DASH
  }

  /** Blank, bracket, digits and bracket, the digits beginning at `l`. */
  predicate NumberInBrackets(s: seq<byte>, l: nat) {
    2 <= l <= |s| - 2 && s[l - 2] == 32 && s[l - 1] == 40 && s[|s| - 1] == 41 &&
    forall i :: l <= i < |s| - 1 ==> 48 <= s[i] <= 57
  }

  /** Dash and digits, of which there is only one if nothing stands in front. */
  predicate NumberBehindDash(s: seq<byte>, l: nat) {
    1 <= l <= |s| - 1 && s[l - 1] == 45 && (l >= 2 || |s| == 2) && forall i :: l <= i < |s| ==> 48 <= s[i] <= 57
  }

  /** These are the suffixes the test sees. */
  lemma ContainsExactly(s: seq<byte>)
    ensures Contains(s, true) <==> exists l: nat :: NumberInBrackets(s, l)
    ensures Contains(s, false) <==> exists l: nat :: NumberBehindDash(s, l)
  {
    hide StripTo2;
    if Contains(s, true) {
      StripTo2Is(s, |s| - 2);
      assert NumberInBrackets(s, StripTo2(s, |s| - 2));
    }
    if l: nat :| NumberInBrackets(s, l) {
      assert IsDigit(s[|s| - 2]);
      StripsTo(s, |s| - 2, l);
    }
    if Contains(s, false) {
      StripTo2Is(s, |s| - 1);
      assert NumberBehindDash(s, StripTo2(s, |s| - 1));
    }
    if l: nat :| NumberBehindDash(s, l) {
      assert IsDigit(s[|s| - 1]);
      StripsTo(s, |s| - 1, l);
    }
  }

  lemma {:induction false} StripTo2Is(s: seq<byte>, k: nat)
    requires 1 <= k <= |s|
    ensures var l := StripTo2(s, k);
            (forall i :: l <= i < k ==> IsDigit(s[i])) && (k >= 2 ==> l >= 2)
    decreases k
  {
    if k > 2 && IsDigit(s[k - 1]) { StripTo2Is(s, k - 1); }
  }

  lemma {:induction false} StripOver(p: seq<byte>, d: seq<byte>)
    requires forall i :: 0 <= i < |d| ==> IsDigit(d[i])
    requires p == [] || !IsDigit(p[|p| - 1])
    ensures Strip(p + d, |p + d|) == |p|
  {
    var r := Strip(p + d, |p + d|);
    assert forall i :: |p| <= i < |p + d| ==> IsDigit((p + d)[i]);
    assert p != [] ==> !IsDigit((p + d)[|p| - 1]);
  }

  /** The mark in front of the digits. */
  function Mark(rich: bool): seq<byte> {
    if rich then [SPACE, OPEN] else [DASH]
  }

  lemma SuffixParts(b: seq<byte>, v: nat, rich: bool)
    requires v < WORD && v < Pow10(Width(v))
    ensures WithoutClose(b + Suffix(v, rich), rich) == (b + Mark(rich)) + Fixed(v, Width(v))
    ensures WithoutOpen(b + Mark(rich), rich) == b
  {
    hide Fixed, Width, Pow10;
    var t := b + Suffix(v, rich);
    if rich {
      assert t == (b + Mark(rich) + Fixed(v, Width(v))) + [CLOSE];
    }
  }

  /** The suffix that was appended is read back, and what carried it is left. */
  lemma SuffixReadsBack(s: seq<byte>, v: nat, rich: bool)
    requires v < WORD
    ensures Removed(Appended(s, v, rich), rich) == (v, Base(s, v, rich))
  {
    hide Strip, Value, Base, Pow10, Fixed, Width, WithoutClose, WithoutOpen, Suffix;
    WidthFits(v);
    var b, d := Base(s, v, rich), Fixed(v, Width(v));
    ValueOfFixed(v, Width(v));
    SuffixParts(b, v, rich);
    var p := b + Mark(rich);
    StripOver(p, d);
    assert (p + d)[|p|..] == d && (p + d)[..|p|] == p;
  }

  lemma {:induction false} StripsTo(s: seq<byte>, k: nat, j: nat)
    requires 1 <= j <= k <= |s| && (forall i :: j <= i < k ==> IsDigit(s[i])) && (j >= 2 || k <= 2)
    requires !IsDigit(s[j - 1]) || j == 2
    ensures k <= 2 ==> StripTo2(s, k) == k
    ensures j >= 2 ==> StripTo2(s, k) == j
    decreases k
  {
    if k > j && k > 2 { StripsTo(s, k - 1, j); }
  }

  lemma RichIsRecognised(b: seq<byte>, d: seq<byte>)
    requires d != [] && forall i :: 0 <= i < |d| ==> IsDigit(d[i])
    ensures Contains(b + ([SPACE, OPEN] + d + [CLOSE]), true)
  {
    var t := b + ([SPACE, OPEN] + d + [CLOSE]);
    assert t[|t| - 1] == CLOSE && t[|t| - 2] == d[|d| - 1] && t[|b| + 1] == OPEN && t[|b|] == SPACE;
    assert forall i :: |b| + 2 <= i < |t| - 1 ==> t[i] == d[i - |b| - 2];
    StripsTo(t, |t| - 2, |b| + 2);
  }

  lemma DashIsRecognised(b: seq<byte>, d: seq<byte>)
    requires d != [] && forall i :: 0 <= i < |d| ==> IsDigit(d[i])
    ensures Contains(b + ([DASH] + d), false) <==> b != [] || |d| == 1
  {
    var t := b + ([DASH] + d);
    assert t[|t| - 1] == d[|d| - 1] && t[|b|] == DASH;
    assert forall i :: |b| + 1 <= i < |t| ==> t[i] == d[i - |b| - 1];
    StripsTo(t, |t| - 1, if |b| == 0 && |d| > 1 then 2 else |b| + 1);
  }

  /** The test recognises an appended suffix unless a host name had nothing left in front of two digits. */
  lemma SuffixIsRecognised(s: seq<byte>, v: nat, rich: bool)
    requires v < WORD
    ensures Contains(Appended(s, v, rich), rich) <==> rich || Base(s, v, rich) != [] || v < 10
  {
    hide Base, Pow10, Fixed, Value, Contains;
    WidthFits(v);
    ValueOfFixed(v, Width(v));
    if rich {
      RichIsRecognised(Base(s, v, rich), Fixed(v, Width(v)));
    } else {
      DashIsRecognised(Base(s, v, rich), Fixed(v, Width(v)));
    }
  }

  lemma {:induction false} AsciiIsUtf8(s: seq<byte>)
    requires forall i :: 0 <= i < |s| ==> s[i] < 0x80
    ensures Utf8(s)
  {
    if s != [] { AsciiIsUtf8(s[1..]); }
  }

  lemma {:induction false} StrippedIsWhole(s: seq<byte>)
    requires Utf8(s)
    ensures Utf8(StripSpaces(s))
    decreases |s|
  {
    if s != [] && s[|s| - 1] == SPACE {
      Boundary(s, |s| - 1);
      StrippedIsWhole(s[..|s| - 1]);
    }
  }

  lemma BaseIsWhole(s: seq<byte>, v: nat, rich: bool)
    requires v < WORD && Utf8(s)
    ensures Utf8(Base(s, v, rich))
  {
    StrippedIsWhole(s);
    TruncatedIsWhole(if rich then StripSpaces(s) else s, MAX_LABEL - |Suffix(v, rich)|);
  }

  /** Renaming keeps valid text valid. */
  lemma AppendedIsWhole(s: seq<byte>, v: nat, rich: bool)
    requires v < WORD && Utf8(s)
    ensures Utf8(Appended(s, v, rich))
  {
    hide Base, Utf8, Pow10, Fixed, Value;
    BaseIsWhole(s, v, rich);
    WidthFits(v);
    ValueOfFixed(v, Width(v));
    AsciiIsUtf8(Suffix(v, rich));
    Utf8Append(Base(s, v, rich), Suffix(v, rich));
  }

  /** Something is left of the label when room is made for a host name's longest suffix. */
  predicate Kept(s: seq<byte>) {
    Truncated(s, NARROWEST) > 0
  }

  /** A visible octet in front of a place where a character starts survives every truncation behind it. */
  lemma VisibleSurvives(s: seq<byte>, max: nat, c: nat, j: nat)
    requires Utf8(s) && max < |s| && j < c <= max && Utf8(s[..c]) && s[j] > SPACE
    ensures j < Truncated(s, max)
  {
    CutIsLongest(s, max);
  }

  /** What a truncation to at least that room leaves is kept again. */
  lemma KeptStaysKept(s: seq<byte>, max: nat)
    requires Utf8(s) && Kept(s) && max >= NARROWEST
    ensures Truncated(s, max) > 0 && Kept(s[..Truncated(s, max)])
  {
    hide Utf8, Cut, Trim;
    var r := Truncated(s, max);
    if |s| <= max {
      assert s[..r] == s;
    } else {
      var c, j := Cut(s, NARROWEST), Truncated(s, NARROWEST) - 1;
      CutIsLongest(s, NARROWEST);
      VisibleSurvives(s, max, c, j);
      TruncatedIsWhole(s, max);
      if r > NARROWEST {
        assert s[..r][..c] == s[..c];
        VisibleSurvives(s[..r], NARROWEST, c, j);
      }
    }
  }

  /** So every suffix is recognised when it has been appended, if and only if that is the case. */
  lemma RecognisedIfKept(s: seq<byte>, rich: bool)
    requires Utf8(s)
    ensures (forall v: nat :: v < WORD ==> Contains(Appended(s, v, rich), rich)) <==> rich || Kept(s)
  {
    hide Contains, Appended, Utf8, Truncated;
    if rich || Kept(s) {
      forall v: nat | v < WORD ensures Contains(Appended(s, v, rich), rich) {
        SuffixIsRecognised(s, v, rich);
        if !rich { KeptStaysKept(s, MAX_LABEL - |Suffix(v, false)|); }
      }
    } else {
      SuffixIsRecognised(s, 1_000_000_000, rich);
      assert !Contains(Appended(s, 1_000_000_000, rich), rich);
    }
  }

  // ----- Renaming

  /** The label's number, 0 if it has none, and what carries it. */
  function Number(s: seq<byte>, rich: bool): (v: nat)
    ensures v < WORD
  {
    if Contains(s, rich) then Removed(s, rich).0 else 0
  }

  function Stem(s: seq<byte>, rich: bool): seq<byte> {
    if Contains(s, rich) then Removed(s, rich).1 else s
  }

  function Next(v: nat, random: nat): (w: nat)
    ensures w < WORD
  {
    if v == 0 then 2 else if v < 10 then v + 1 else (v + 1 + random) % WORD
  }

  function Renamed(s: seq<byte>, random: nat, rich: bool): (t: seq<byte>)
    ensures |t| <= MAX_LABEL
  {
    Appended(Stem(s, rich), Next(Number(s, rich), random), rich)
  }

  /**
   * The new label carries the next number, unless a host name was cut back to nothing: then its own
   * suffix is not recognised, and is what the next one is appended to.
   */
  lemma RenamedCarriesNext(s: seq<byte>, random: nat, rich: bool)
    ensures var t, v := Renamed(s, random, rich), Next(Number(s, rich), random);
            if Contains(t, rich) then Number(t, rich) == v && Stem(t, rich) == Base(Stem(s, rich), v, rich)
            else !rich && v >= 10 && t == Suffix(v, false) && Number(t, rich) == 0 && Stem(t, rich) == t
    ensures Contains(Renamed(s, random, rich), rich) <==>
              rich || Base(Stem(s, rich), Next(Number(s, rich), random), rich) != [] ||
              Next(Number(s, rich), random) < 10
  {
    hide Contains, Removed, Base, Suffix, Next;
    var stem, v := Stem(s, rich), Next(Number(s, rich), random);
    SuffixReadsBack(stem, v, rich);
    SuffixIsRecognised(stem, v, rich);
    if Base(stem, v, rich) == [] { assert [] + Suffix(v, rich) == Suffix(v, rich); }
  }

  /** The suffixes of one digit, and 10, as they are read. */
  lemma ShortSuffixes(v: nat)
    requires 1 <= v <= 10
    ensures v < 10 ==> Suffix(v, true) == [32, 40, 48 + v, 41] && Suffix(v, false) == [45, 48 + v]
    ensures v == 10 ==> Suffix(v, true) == [32, 40, 49, 48, 41] && Suffix(v, false) == [45, 49, 48]
  {
    hide Pow10, Split;
    Powers();
    var w := Width(v);
    WidthFits(v);
    FixedCons(v, w);
    FixedEnds();
    if v < 10 {
      assert Split(v, Pow10(0)) == (v, 0) by { SplitIs(v, 1); }
    } else {
      assert Split(v, Pow10(1)) == (1, 0) by { SplitIs(v, 10); }
      FixedCons(0, 1);
      assert Split(0, Pow10(0)) == (0, 0) by { SplitIs(0, 1); }
    }
  }

  lemma SplitIs(v: nat, p: nat)
    requires p >= 1
    ensures Split(v, p) == (v / p, v % p)
  {
  }

  /** A name that is short enough and does not end in a blank carries a suffix of `len` octets as it is. */
  lemma CarriesWhole(s: seq<byte>, v: nat, rich: bool)
    requires v < WORD && |s| + |Suffix(v, rich)| <= 63 && (rich ==> s == [] || s[|s| - 1] != 32)
    ensures Appended(s, v, rich) == s + Suffix(v, rich)
  {
    hide Suffix;
    assert s[..|s|] == s;
  }

  /** The first conflict makes "Foo" into "Foo (2)", or into "Foo-2", cut back only if it is too long. */
  lemma FirstRenaming(s: seq<byte>, random: nat, rich: bool)
    requires !Contains(s, rich)
    ensures Renamed(s, random, rich) == Base(s, 2, rich) + (if rich then [32, 40, 50, 41] else [45, 50])
    ensures rich && |s| <= 59 && (s == [] || s[|s| - 1] != 32) ==>
              Renamed(s, random, rich) == s + [32, 40, 50, 41]
    ensures !rich && |s| <= 61 ==> Renamed(s, random, rich) == s + [45, 50]
  {
    hide Base, Suffix;
    ShortSuffixes(2);
    if |s| + |Suffix(2, rich)| <= 63 && (rich ==> s == [] || s[|s| - 1] != 32) { CarriesWhole(s, 2, rich); }
  }

  /** Further conflicts make "Foo (2)" into "Foo (3)" and so on up to "Foo (10)", and likewise "Foo-2". */
  lemma NextRenaming(s: seq<byte>, v: nat, random: nat, rich: bool)
    requires 1 <= v <= 9 && s != [] && |s| <= 58 && s[|s| - 1] != 32
    ensures var (before, after) :=
              if rich then ([32, 40, 48 + v, 41], if v < 9 then [32, 40, 49 + v, 41] else [32, 40, 49, 48, 41])
              else ([45, 48 + v], if v < 9 then [45, 49 + v] else [45, 49, 48]);
            Renamed(s + before, random, rich) == s + after
  {
    hide Base, Suffix, Contains, Removed, Appended;
    ShortSuffixes(v);
    ShortSuffixes(v + 1);
    CarriesWhole(s, v, rich);
    CarriesWhole(s, v + 1, rich);
    BaseIs(s, v, rich);
    SuffixIsRecognised(s, v, rich);
    SuffixReadsBack(s, v, rich);
  }

  /** From ten on the number grows by one and a random number up to 99. */
  lemma LaterRenaming(s: seq<byte>, v: nat, random: nat, rich: bool)
    requires 10 <= v && v + random + 1 < WORD && (rich || s != []) && |s| <= 49 && (s == [] || s[|s| - 1] != 32)
    ensures Renamed(s + Suffix(v, rich), random, rich) == s + Suffix(v + 1 + random, rich)
  {
    hide Base, Suffix, Contains, Removed, Appended;
    CarriesWhole(s, v, rich);
    CarriesWhole(s, v + 1 + random, rich);
    BaseIs(s, v, rich);
    SuffixIsRecognised(s, v, rich);
    SuffixReadsBack(s, v, rich);
  }

  lemma BaseIs(s: seq<byte>, v: nat, rich: bool)
    requires v < WORD && Appended(s, v, rich) == s + Suffix(v, rich)
    ensures Base(s, v, rich) == s
  {
    hide Suffix, Base;
    var b := Base(s, v, rich);
    assert (b + Suffix(v, rich))[..|b|] == b && (s + Suffix(v, rich))[..|s|] == s;
    assert |b| == |s|;
  }

  /** Each label of the run is the one before it, renamed. */
  ghost predicate Run(labels: seq<seq<byte>>, rich: bool) {
    forall i :: 0 <= i < |labels| - 1 ==> RenamedFrom(labels[i], labels[i + 1], rich)
  }

  ghost predicate RenamedFrom(s: seq<byte>, t: seq<byte>, rich: bool) {
    exists random: nat :: random <= 99 && t == Renamed(s, random, rich)
  }

  lemma Previous(labels: seq<seq<byte>>, rich: bool, j: nat) returns (random: nat)
    requires Run(labels, rich) && 0 < j < |labels|
    ensures random <= 99 && labels[j] == Renamed(labels[j - 1], random, rich)
  {
    hide Renamed;
    assert RenamedFrom(labels[j - 1], labels[j - 1 + 1], rich);
    random :| random <= 99 && labels[j] == Renamed(labels[j - 1], random, rich);
  }

  lemma {:induction false} NumbersBounded(labels: seq<seq<byte>>, rich: bool, j: nat)
    requires Run(labels, rich) && j < |labels| && Number(labels[0], rich) + 100 * |labels| <= WORD
    ensures Number(labels[j], rich) <= Number(labels[0], rich) + 100 * j
    decreases j
  {
    hide Number, Renamed, Contains, Run, Base, Suffix, Stem;
    if j > 0 {
      NumbersBounded(labels, rich, j - 1);
      var random := Previous(labels, rich, j);
      RenamedCarriesNext(labels[j - 1], random, rich);
    }
  }

  /** While every suffix is recognised the numbers grow. */
  lemma {:induction false} NumbersGrow(labels: seq<seq<byte>>, rich: bool, i: nat, j: nat)
    requires Run(labels, rich) && i <= j < |labels| && Number(labels[0], rich) + 100 * |labels| <= WORD
    requires forall k :: i < k <= j ==> Contains(labels[k], rich)
    ensures Number(labels[i], rich) + (j - i) <= Number(labels[j], rich)
    decreases j
  {
    hide Number, Renamed, Contains, Run, Base, Suffix, Stem;
    if i < j {
      NumbersGrow(labels, rich, i, j - 1);
      NumbersBounded(labels, rich, j - 1);
      var random := Previous(labels, rich, j);
      RenamedCarriesNext(labels[j - 1], random, rich);
    }
  }

  /** A host name with room for every suffix. */
  predicate Short(s: seq<byte>) {
    0 < |s| <= NARROWEST
  }

  lemma ShortIsBase(s: seq<byte>, v: nat)
    requires v < WORD && Short(s)
    ensures Base(s, v, false) == s
  {
    hide Suffix;
    assert s[..|s|] == s;
  }

  lemma SuffixIsShort(v: nat)
    requires v < WORD
    ensures Short(Suffix(v, false))
  {
    hide Fixed, Pow10, Width;
  }

  /** A short stem stays: from then on every suffix is recognised. */
  lemma {:induction false} StemStays(labels: seq<seq<byte>>, i: nat, j: nat)
    requires Run(labels, false) && i <= j < |labels| && Short(Stem(labels[i], false))
    ensures Stem(labels[j], false) == Stem(labels[i], false)
    ensures i < j ==> Contains(labels[j], false)
    decreases j
  {
    hide Number, Renamed, Contains, Run, Base, Suffix, Stem;
    if i < j {
      StemStays(labels, i, j - 1);
      var random := Previous(labels, false, j);
      RenamedCarriesNext(labels[j - 1], random, false);
      ShortIsBase(Stem(labels[j - 1], false), Next(Number(labels[j - 1], false), random));
    }
  }

  /** A suffix that is not recognised is the stem of all later labels. */
  lemma LostIsStem(labels: seq<seq<byte>>, rich: bool, k: nat, j: nat)
    requires Run(labels, rich) && 0 < k <= j < |labels| && !Contains(labels[k], rich)
    ensures !rich && Short(labels[k]) && Stem(labels[j], false) == labels[k]
  {
    hide Number, Renamed, Contains, Run, Base, Suffix;
    var random := Previous(labels, rich, k);
    RenamedCarriesNext(labels[k - 1], random, rich);
    SuffixIsShort(Next(Number(labels[k - 1], rich), random));
    StemStays(labels, k, j);
  }

  /**
   * Whatever label a run begins with, no label is come upon twice until the numbers reach the end of
   * their 32 bits: either the numbers grow, or a suffix that was not recognised has come in between,
   * and no label before it was built on that.
   */
  lemma NeverRevisited(labels: seq<seq<byte>>, rich: bool, i: nat, j: nat)
    requires Run(labels, rich) && i < j < |labels|
    requires Number(labels[0], rich) + 100 * |labels| <= WORD
    ensures labels[i] != labels[j]
  {
    hide Number, Renamed, Contains, Run, Base, Suffix, Stem;
    if k: nat :| i < k <= j && !Contains(labels[k], rich) {
      LostIsStem(labels, rich, k, j);
      if labels[i] == labels[j] { StemStays(labels, i, k); }
    } else {
      NumbersGrow(labels, rich, i, j);
    }
  }

  // ----- The code

  /** A label in its 64-octet structure, its length in front. */
  ghost predicate IsLabel(c: seq<byte>, s: seq<byte>) {
    |c| == MAX_LABEL + 1 && |s| <= MAX_LABEL && c[0] == |s| && StandsAt(c, 1, s)
  }

  method LabelContainsSuffix(c: seq<byte>, rich: bool, ghost s: seq<byte>) returns (found: bool)
    requires IsLabel(c, s)
    ensures found <==> Contains(s, rich)
  {
    assert forall k :: 0 <= k < |s| ==> c[k + 1] == s[k];
    var l: int := c[0];
    if rich {
      if l < 4 { return false; }
      if c[l] != CLOSE { return false; }
      l := l - 1;
      if !IsDigit(c[l]) { return false; }
      l := l - 1;
      while l > 2 && IsDigit(c[l])
        invariant 2 <= l <= |s| - 2 && StripTo2(s, |s| - 2) == StripTo2(s, l)
      {
        l := l - 1;
      }
      return c[l] == OPEN && c[l - 1] == SPACE;
    } else {
      if l < 2 { return false; }
      if !IsDigit(c[l]) { return false; }
      l := l - 1;
      while l > 2 && IsDigit(c[l])
        invariant 1 <= l <= |s| - 1 && StripTo2(s, |s| - 1) == StripTo2(s, l)
      {
        l := l - 1;
      }
      return c[l] == DASH;
    }
  }

  lemma Wraps(a: int, d: nat, m: nat)
    ensures (a % WORD + d * (m % WORD)) % WORD == (d * m + a) % WORD
    ensures ((m % WORD) * 10) % WORD == (10 * m) % WORD
  {
    var qa, qm := a / WORD, m / WORD;
    var ra, rm := a % WORD, m % WORD;
    assert d * m == d * rm + (d * qm) * WORD;
    ModOf(ra + d * rm, qa + d * qm);
    ModOf(10 * rm, 10 * qm);
    assert d * m + a == ra + d * rm + (qa + d * qm) * WORD;
  }

  lemma ModOf(x: int, q: int)
    ensures (x + q * WORD) % WORD == x % WORD
  {
  }

  lemma NoDigitsYet()
    ensures Value([]) == 0 && Pow10(0) == 1
  {
  }

  lemma PowerStep(n: nat)
    ensures Pow10(n + 1) == 10 * Pow10(n)
  {
  }

  /** The code's sum of a digit with its weight, and the next weight, in 32 bits. */
  function AddDigit(val: nat, c: byte, multiplier: nat): nat
    requires IsDigit(c)
  {
    (val + (c as int - 48) * multiplier) % WORD
  }

  function NextWeight(multiplier: nat): nat {
    (multiplier * 10) % WORD
  }

  /** Reading one digit more from the right, in 32 bits. */
  lemma DigitStep(t: seq<byte>, k: nat, val: nat, multiplier: nat)
    requires 0 < k <= |t| && IsDigit(t[k - 1])
    requires val == Value(t[k..]) % WORD && multiplier == Pow10(|t| - k) % WORD
    ensures AddDigit(val, t[k - 1], multiplier) == Value(t[k - 1..]) % WORD
    ensures NextWeight(multiplier) == Pow10(|t| - (k - 1)) % WORD
    ensures Strip(t, k) == Strip(t, k - 1)
  {
    hide Value, Pow10;
    assert t[k - 1..] == [t[k - 1]] + t[k..];
    ValueOfCons(t[k - 1], t[k..]);
    Wraps(Value(t[k..]), t[k - 1] as int - 48, Pow10(|t| - k));
    PowerStep(|t| - k);
  }

  lemma Shortened(c: seq<byte>, s: seq<byte>, k: nat)
    requires IsLabel(c, s) && k <= |s|
    ensures IsLabel(c[0 := k], s[..k])
  {
  }

  method TakeDigits(name: array<byte>, ghost t: seq<byte>) returns (val: nat)
    requires IsLabel(name[..], t)
    modifies name
    ensures var k := Strip(t, |t|);
            val == Value(t[k..]) % WORD && name[..] == old(name[..])[0 := k]
  {
    hide Value, Pow10, Strip, AddDigit, NextWeight;
    val := 0;
    var multiplier: nat := 1;
    assert t[|t|..] == [];
    NoDigitsYet();
    ghost var P := name[..];
    assert forall k :: 1 <= k <= |t| ==> P[k] == t[k - 1];
    assert P == P[0 := |t|];
    while IsDigit(name[name[0]])
      invariant name[0] <= |t| && name[..] == P[0 := name[0]]
      invariant Strip(t, |t|) == Strip(t, name[0])
      invariant val == Value(t[name[0]..]) % WORD && multiplier == Pow10(|t| - name[0]) % WORD
      decreases name[0]
    {
      ghost var k: nat := name[0];
      assert k > 0;
      assert name[k] == name[..][k] == t[k - 1];
      DigitStep(t, k, val, multiplier);
      val := AddDigit(val, name[name[0]], multiplier);
      multiplier := NextWeight(multiplier);
      name[0] := name[0] - 1;
      assert name[..] == P[0 := name[0]];
    }
    assert name[0] > 0 ==> name[name[0]] == name[..][name[0]] == t[name[0] - 1];
    StripEnds(t, name[0]);
  }

  lemma StripEnds(t: seq<byte>, k: nat)
    requires k <= |t| && (k > 0 ==> !IsDigit(t[k - 1]))
    ensures Strip(t, k) == k
  {
  }

  /** Takes the suffix off in place; only the length octet changes. */
  method RemoveLabelSuffix(name: array<byte>, rich: bool, ghost s: seq<byte>) returns (val: nat)
    requires IsLabel(name[..], s)
    modifies name
    ensures val == Removed(s, rich).0 && IsLabel(name[..], Removed(s, rich).1)
    ensures name[..] == old(name[..])[0 := |Removed(s, rich).1|]
  {
    hide Value, Pow10, Strip;
    ghost var P, t := name[..], WithoutClose(s, rich);
    assert forall k :: 1 <= k <= |s| ==> P[k] == s[k - 1];
    Shortened(P, s, |t|);
    if rich && name[0] >= 1 && name[name[0]] == CLOSE { name[0] := name[0] - 1; }
    assert name[..] == P[0 := |t|] && t == s[..|t|];
    val := TakeDigits(name, t);
    ghost var k := Strip(t, |t|);
    ghost var u := t[..k];
    Shortened(P, s, k);
    assert u == s[..k] && name[..] == P[0 := k];
    TakeMark(name, rich, u);
    Shortened(P, s, |WithoutOpen(u, rich)|);
  }

  method TakeMark(name: array<byte>, rich: bool, ghost u: seq<byte>)
    requires IsLabel(name[..], u)
    modifies name
    ensures name[..] == old(name[..])[0 := |WithoutOpen(u, rich)|]
  {
    ghost var k := |u|;
    assert k > 0 ==> name[k] == u[k - 1];
    assert k > 1 ==> name[k - 1] == u[k - 2];
    if rich {
      if name[0] >= 2 && name[name[0]] == OPEN && name[name[0] - 1] == SPACE { name[0] := name[0] - 2; }
    } else {
      if name[0] >= 1 && name[name[0]] == DASH { name[0] := name[0] - 1; }
    }
  }

  method PutChar(name: array<byte>, c: byte, ghost s: seq<byte>)
    requires IsLabel(name[..], s) && |s| < MAX_LABEL
    modifies name
    ensures IsLabel(name[..], s + [c])
  {
    ghost var P := name[..];
    assert forall k :: 1 <= k <= |s| ==> P[k] == s[k - 1];
    name[0] := name[0] + 1;
    name[name[0]] := c;
  }

  lemma FixedEnds()
    ensures Pow10(0) == 1 && Fixed(0, 0) == []
  {
  }

  /** The number of digits, as the largest power of ten the loop arrives at and the count beside it. */
  method Divisor(val: nat) returns (divisor: nat, w: nat)
    requires val < WORD
    ensures w == Width(val) && divisor == Pow10(w - 1)
  {
    Powers();
    divisor, w := 1, 1;
    while divisor < 429496729 && val >= divisor * 10
      invariant 1 <= w <= 10 && divisor == Pow10(w - 1) && (w > 1 ==> val >= divisor)
      decreases 10 - w
    {
      PowerStep(w - 1);
      divisor := divisor * 10;
      w := w + 1;
      PowerList(w - 1);
    }
    PowerList(w - 1);
  }

  lemma PowerList(n: nat)
    requires n <= 10
    ensures Pow10(n) ==
            [1, 10, 100, 1_000, 10_000, 100_000, 1_000_000, 10_000_000, 100_000_000, 1_000_000_000, 10_000_000_000][n]
  {
    Powers();
  }

  /** Writes the digits, from the left. */
  method PutDigits(name: array<byte>, val0: nat, divisor0: nat, ghost w: nat, ghost s: seq<byte>)
    requires IsLabel(name[..], s) && 1 <= w && |s| + w <= MAX_LABEL && val0 < Pow10(w) && divisor0 == Pow10(w - 1)
    modifies name
    ensures IsLabel(name[..], s + Fixed(val0, w))
  {
    hide IsLabel, Pow10, Fixed, Split;
    var val: nat, divisor: nat := val0, divisor0;
    ghost var n, done: seq<byte> := w, [];
    assert s + [] == s && [] + Fixed(val, w) == Fixed(val, w);
    while divisor != 0
      invariant 0 <= n <= w && |done| == w - n && val < Pow10(n) && divisor == (if n == 0 then 0 else Pow10(n - 1))
      invariant IsLabel(name[..], s + done) && done + Fixed(val, n) == Fixed(val0, w)
      decreases n
    {
      FixedCons(val, n);
      var (d, left) := Split(val, divisor);
      PutChar(name, 48 + d, s + done);
      assert s + done + [Digit(d)] == s + (done + [Digit(d)]);
      val := left;
      assert done + ([Digit(d)] + Fixed(val, n - 1)) == (done + [Digit(d)]) + Fixed(val, n - 1);
      if n > 1 {
        PowerStep(n - 2);
        TenthOf(Pow10(n - 2));
      } else {
        FixedEnds();
      }
      divisor := divisor / 10;
      n, done := n - 1, done + [Digit(d)];
    }
    FixedEmpty(val);
    assert done + [] == done;
  }

  lemma TenthOf(p: nat)
    ensures (10 * p) / 10 == p
  {
  }

  lemma FixedEmpty(v: nat)
    ensures v < Pow10(0) ==> Fixed(v, 0) == []
  {
  }

  /** Cuts the label back to what can carry the suffix. */
  method MakeRoom(name: array<byte>, room: nat, rich: bool, ghost s: seq<byte>)
    requires IsLabel(name[..], s)
    modifies name
    ensures var t := if rich then StripSpaces(s) else s;
            IsLabel(name[..], t[..Truncated(t, room)])
  {
    ghost var t := s;
    if rich {
      while name[name[0]] == SPACE
        invariant IsLabel(name[..], t) && StripSpaces(s) == StripSpaces(t)
        decreases |t|
      {
        assert name[..][name[0]] == t[|t| - 1];
        Shortened(name[..], t, |t| - 1);
        name[0] := name[0] - 1;
        t := t[..|t| - 1];
      }
      assert |t| > 0 ==> name[..][name[0]] == t[|t| - 1];
    }
    var len := TruncateUTF8ToLength(name[..], 1, name[0], room, t);
    Shortened(name[..], t, len);
    name[0] := len;
  }

  method AppendLabelSuffix(name: array<byte>, val: nat, rich: bool, ghost s: seq<byte>)
    requires IsLabel(name[..], s) && val < WORD
    modifies name
    ensures IsLabel(name[..], Appended(s, val, rich))
  {
    hide IsLabel, Width, Pow10, Fixed, Truncated, StripSpaces;
    WidthFits(val);
    var divisor, w := Divisor(val);
    var chars := w - 1 + (if rich then 4 else 2);
    MakeRoom(name, MAX_LABEL - chars, rich, s);
    PutSuffix(name, val, divisor, w, rich, Base(s, val, rich));
  }

  method PutSuffix(name: array<byte>, val: nat, divisor: nat, w: nat, rich: bool, ghost b: seq<byte>)
    requires val < WORD && w == Width(val) && val < Pow10(w) && divisor == Pow10(w - 1)
    requires IsLabel(name[..], b) && |b| + |Suffix(val, rich)| <= MAX_LABEL
    modifies name
    ensures IsLabel(name[..], b + Suffix(val, rich))
  {
    hide IsLabel, Width, Pow10, Fixed;
    ghost var d := Fixed(val, w);
    if rich {
      PutChar(name, SPACE, b);
      PutChar(name, OPEN, b + [SPACE]);
      PutDigits(name, val, divisor, w, b + [SPACE] + [OPEN]);
      PutChar(name, CLOSE, b + [SPACE] + [OPEN] + d);
      assert b + [SPACE] + [OPEN] + d + [CLOSE] == b + Suffix(val, rich);
    } else {
      PutChar(name, DASH, b);
      PutDigits(name, val, divisor, w, b + [DASH]);
      assert b + [DASH] + d == b + Suffix(val, rich);
    }
  }

  /** Up to nine conflicts the number grows by one, from then on by a random amount. */
  method NextNumber(val: nat, rng: RandomSource.Source) returns (next: nat, ghost random: nat)
    modifies rng
    ensures random <= 99 && next == Next(val, random)
  {
    if val == 0 { return 2, 0; }
    if val < 10 { return val + 1, 0; }
    var more;
    ghost var bits, draws;
    more, bits, draws := rng.Random(99);
    return (val + 1 + more) % WORD, more;
  }

  /** Renames the label in place. */
  method IncrementLabelSuffix(name: array<byte>, rich: bool, rng: RandomSource.Source, ghost s: seq<byte>)
    returns (ghost random: nat)
    requires IsLabel(name[..], s)
    modifies name, rng
    ensures random <= 99 && IsLabel(name[..], Renamed(s, random, rich))
  {
    hide IsLabel, Contains, Removed, Appended, Next;
    var val: nat := 0;
    var found := LabelContainsSuffix(name[..], rich, s);
    if found { val := RemoveLabelSuffix(name, rich, s); }
    val, random := NextNumber(val, rng);
    AppendLabelSuffix(name, val, rich, Stem(s, rich));
  }
}
