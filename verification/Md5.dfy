/**
 * The buffering of the streaming MD5 (RFC 1321): octets arrive in chunks of any size and are
 * packed, least significant octet first, into the sixteen words of a block.  The block function
 * itself is a parameter; everything here holds whatever it computes.
 */
module Md5 {
  import opened Bytes

  type word = x: int | 0 <= x < WORD

  /** The chaining variables A, B, C and D. */
  datatype State = State(a: word, b: word, c: word, d: word)

  type BlockFunction = (State, seq<word>) -> State

  const INIT := State(0x67452301, 0xefcdab89, 0x98badcfe, 0x10325476)

  // ----- Octets and words

  /** The weight of octet `k` of a word. */
  function Weight(k: nat): (w: nat)
    requires k < 4
  {
    if k == 0 then 1 else if k == 1 then 0x100 else if k == 2 then 0x1_0000 else 0x100_0000
  }

  /** The word whose first `k` octets are those of `s` from `i` on and whose other octets are zero. */
  function Part(s: seq<byte>, i: nat, k: nat): (w: int)
    requires k <= 4 && i + k <= |s|
    ensures 0 <= w < if k == 4 then WORD else Weight(k)
  {
    if k == 0 then 0 else Part(s, i, k - 1) + s[i + k - 1] * Weight(k - 1)
  }

  lemma {:induction false} PartOfSameOctets(s: seq<byte>, i: nat, t: seq<byte>, j: nat, k: nat)
    requires k <= 4 && i + k <= |s| && j + k <= |t|
    requires forall y :: i <= y < i + k ==> s[y] == t[y - i + j]
    ensures Part(s, i, k) == Part(t, j, k)
  {
    if k > 0 {
      PartOfSameOctets(s, i, t, j, k - 1);
    }
  }

  /** Octet `k` of the word is zero. */
  predicate Clear(l: word, k: nat)
    requires k < 4
  {
    (l / Weight(k)) % 256 == 0
  }

  /**
   * `l |= b << 8k`.  Octet `k` of `l` must be clear: then, and only then, the bitwise or is this sum.
   */
  function OrOctet(l: word, b: byte, k: nat): (r: word)
    requires k < 4 && Clear(l, k)
  {
    OrFits(l, b, k);
    l + b * Weight(k)
  }

  lemma OrFits(l: word, b: byte, k: nat)
    requires k < 4 && Clear(l, k)
    ensures 0 <= l + b * Weight(k) < WORD
  {
    if k == 0 {
    } else if k == 1 {
    } else if k == 2 {
    } else {
    }
  }

  lemma OrExtends(t: seq<byte>, i: nat, k: nat)
    requires k < 4 && i + k < |t|
    ensures Part(t, i, k) < WORD && Clear(Part(t, i, k), k)
    ensures OrOctet(Part(t, i, k), t[i + k], k) == Part(t, i, k + 1)
  {
  }

  /** The words of a run of whole words. */
  function Words(s: seq<byte>): (w: seq<word>)
    requires |s| % 4 == 0
    ensures |w| == |s| / 4
    ensures forall i :: 0 <= i < |w| ==> w[i] == Part(s, 4 * i, 4)
  {
    seq(|s| / 4, i requires 0 <= i < |s| / 4 => Part(s, 4 * i, 4))
  }

  // ----- The digest of a whole message (sections 3.1 to 3.5 of RFC 1321)

  function Absorb(f: BlockFunction, h: State, s: seq<byte>): State
    requires |s| % 64 == 0
    decreases |s|
  {
    if s == [] then h else f(Absorb(f, h, s[..|s| - 64]), Words(s[|s| - 64..]))
  }

  function Zeros(k: nat): (z: seq<byte>)
    ensures |z| == k && forall i :: 0 <= i < k ==> z[i] == 0
  {
    seq(k, _ => 0)
  }

  /** The four octets of a word, least significant first. */
  function LittleEndian(w: word): (s: seq<byte>)
    ensures |s| == 4 && Part(s, 0, 4) == w
  {
    OctetsOfNumber(w);
    var s: seq<byte> := [w % 256, w / 0x100 % 256, w / 0x1_0000 % 256, w / 0x100_0000];
    PartOfFour(s);
    s
  }

  lemma PartOfFour(s: seq<byte>)
    requires |s| == 4
    ensures var b0: int, b1: int, b2: int, b3: int := s[0], s[1], s[2], s[3];
            Part(s, 0, 4) == b0 + b1 * 0x100 + b2 * 0x1_0000 + b3 * 0x100_0000
  {
    assert Part(s, 0, 1) == s[0];
    assert Part(s, 0, 2) == Part(s, 0, 1) + s[1] * Weight(1);
    assert Part(s, 0, 3) == Part(s, 0, 2) + s[2] * Weight(2);
  }

  /** The number of zero octets between the octet 0x80 and the length. */
  function PadLength(n: nat): (k: nat)
    ensures k < 64 && (n + 1 + k + 8) % 64 == 0
  {
    (119 - n % 64) % 64
  }

  function Pad(m: seq<byte>): (p: seq<byte>)
    ensures |p| % 64 == 0
  {
    var bits := 8 * |m|;
    m + [0x80] + Zeros(PadLength(|m|)) + LittleEndian(bits % WORD) + LittleEndian(bits / WORD % WORD)
  }

  function Output(h: State): (s: seq<byte>)
    ensures |s| == 16
  {
    LittleEndian(h.a) + LittleEndian(h.b) + LittleEndian(h.c) + LittleEndian(h.d)
  }

  /** The digest is the four words one behind the other. */
  lemma OutputInOrder(h: State)
    ensures Words(Output(h)) == [h.a, h.b, h.c, h.d]
  {
    hide Part, LittleEndian;
    var s := Output(h);
    WordOf(s, 0, LittleEndian(h.a));
    WordOf(s, 4, LittleEndian(h.b));
    WordOf(s, 8, LittleEndian(h.c));
    WordOf(s, 12, LittleEndian(h.d));
  }

  lemma WordOf(s: seq<byte>, i: nat, t: seq<byte>)
    requires |t| == 4 && StandsAt(s, i, t)
    ensures Part(s, i, 4) == Part(t, 0, 4)
  {
    PartOfSameOctets(s, i, t, 0, 4);
  }

  /** The initial values as section 3.3 of RFC 1321 lists their octets. */
  lemma InitialOctets()
    ensures Output(INIT) ==
            [0x01, 0x23, 0x45, 0x67, 0x89, 0xab, 0xcd, 0xef, 0xfe, 0xdc, 0xba, 0x98, 0x76, 0x54, 0x32, 0x10]
  {
    hide Part;
    assert LittleEndian(0x67452301) == [0x01, 0x23, 0x45, 0x67];
    assert LittleEndian(0xefcdab89) == [0x89, 0xab, 0xcd, 0xef];
    assert LittleEndian(0x98badcfe) == [0xfe, 0xdc, 0xba, 0x98];
    assert LittleEndian(0x10325476) == [0x76, 0x54, 0x32, 0x10];
  }

  /** The padding: the message, the mark, zeros, and the number of bits; no shorter one would do. */
  lemma PadIs(m: seq<byte>)
    ensures var p := Pad(m);
            && |p| % 64 == 0 && |m| + 9 <= |p| <= |m| + 72
            && p[..|m|] == m && p[|m|] == 128 && (forall k :: |m| < k < |p| - 8 ==> p[k] == 0)
            && Part(p, |p| - 8, 4) == 8 * |m| % WORD && Part(p, |p| - 4, 4) == 8 * |m| / WORD % WORD
  {
    hide Part, LittleEndian;
    var p, bits := Pad(m), 8 * |m|;
    WordOf(p, |p| - 8, LittleEndian(bits % WORD));
    WordOf(p, |p| - 4, LittleEndian(bits / WORD % WORD));
  }

  /** Padding keeps messages apart. */
  lemma PadTells(m: seq<byte>, n: seq<byte>)
    requires Pad(m) == Pad(n)
    ensures m == n
  {
    hide Pad, Part;
    PadIs(m);
    PadIs(n);
    SameBitCount(|m|, |n|);
  }

  /** Two lengths less than a block apart have different numbers of bits in 64 bits. */
  lemma SameBitCount(m: nat, n: nat)
    requires 8 * m % WORD == 8 * n % WORD && -64 < m - n < 64
    ensures m == n
  {
    var q, r := 8 * m / WORD, 8 * n / WORD;
    assert 8 * (m - n) == (q - r) * WORD;
  }

  function Digest(f: BlockFunction, m: seq<byte>): (d: seq<byte>)
    ensures |d| == 16
  {
    Output(Absorb(f, INIT, Pad(m)))
  }

  lemma AbsorbBlock(f: BlockFunction, h: State, s: seq<byte>, b: seq<byte>)
    requires |s| % 64 == 0 && |b| == 64
    ensures Absorb(f, h, s + b) == f(Absorb(f, h, s), Words(b))
  {
    assert (s + b)[..|s|] == s && (s + b)[|s|..] == b;
  }

  // ----- The packing macros
  //
  // `t` is the stream being packed: the octets pending in the block, then the new octets `d`.
  // The word at hand starts at position `i` of it.

  /** What stands in `t` behind the pending octets is `d`. */
  ghost predicate Follows(t: seq<byte>, d: seq<byte>) {
    |d| <= |t| && forall y :: |t| - |d| <= y < |t| ==> t[y] == d[y - (|t| - |d|)]
  }

  /** HOST_c2l: four octets make a word. */
  method HostC2l(d: seq<byte>, pos: nat, ghost t: seq<byte>, ghost i: nat) returns (next: nat, l: word)
    requires Follows(t, d) && i + |d| == |t| + pos && pos + 4 <= |d|
    ensures next == pos + 4 && l == Part(t, i, 4)
  {
    l := d[pos];
    assert l == Part(t, i, 1);
    l := OrOctet(l, d[pos + 1], 1);
    assert l == Part(t, i, 2);
    l := OrOctet(l, d[pos + 2], 2);
    assert l == Part(t, i, 3);
    l := OrOctet(l, d[pos + 3], 3);
    next := pos + 4;
  }

  /** HOST_p_c2l: a word of which `n` octets are there is completed. */
  method HostPc2l(d: seq<byte>, pos: nat, l0: word, n: nat, ghost t: seq<byte>, ghost i: nat)
    returns (next: nat, l: word)
    requires Follows(t, d) && i + n + |d| == |t| + pos && n < 4 && pos + 4 - n <= |d|
    requires n > 0 ==> l0 == Part(t, i, n)
    ensures next == pos + 4 - n && l == Part(t, i, 4)
  {
    hide Part, OrOctet, Weight, Clear;
    PartOne(t, i);
    OrExtends(t, i, 1);
    OrExtends(t, i, 2);
    OrExtends(t, i, 3);
    next, l := pos, l0;
    if n == 0 { l := d[next]; next := next + 1; }
    if n <= 1 { l := OrOctet(l, d[next], 1); next := next + 1; }
    if n <= 2 { l := OrOctet(l, d[next], 2); next := next + 1; }
    l := OrOctet(l, d[next], 3);
    next := next + 1;
  }

  lemma PartOne(t: seq<byte>, i: nat)
    requires i < |t|
    ensures Part(t, i, 1) == t[i]
  {
  }

  /** HOST_p_c2l_p: `len` octets are added to a word that they do not complete. */
  method HostPc2lp(d: seq<byte>, pos: nat, l0: word, sc: nat, len: nat, ghost t: seq<byte>, ghost i: nat)
    returns (l: word)
    requires Follows(t, d) && i + sc + |d| == |t| + pos && len > 0 && sc + len < 4 && pos + len <= |d|
    requires sc > 0 ==> l0 == Part(t, i, sc)
    ensures l == Part(t, i, sc + len)
  {
    hide Part, OrOctet, Weight, Clear;
    PartOne(t, i);
    if sc + len > 1 { OrExtends(t, i, 1); }
    if sc + len > 2 { OrExtends(t, i, 2); }
    l := l0;
    var at, left := pos, len;
    if sc == 0 {
      l := d[at];
      at, left := at + 1, left - 1;
      if left == 0 { return; }
    }
    if sc <= 1 {
      l := OrOctet(l, d[at], 1);
      at, left := at + 1, left - 1;
      if left == 0 { return; }
    }
    l := OrOctet(l, d[at], 2);
  }

  /** A word whose lowest octets up to `k` are zero. */
  lemma ClearBelow(l: word, m: nat, k: nat)
    requires k < 2 && l == m * (0x100 * Weight(k))
    ensures Clear(l, k)
  {
    if k == 0 {
      assert l / 1 == m * 0x100;
    } else {
      assert l == m * 0x1_0000 && l / 0x100 == m * 0x100;
    }
  }

  /** The octets of the start of a word, put in from the last one to the first. */
  lemma OrBackwards(t: seq<byte>, i: nat, n: nat)
    requires 0 < n < 4 && i + n <= |t|
    ensures Clear(0, 0) && Clear(0, 1) && Clear(0, 2)
    ensures n == 1 ==> OrOctet(0, t[i], 0) == Part(t, i, 1)
    ensures n == 2 ==>
              var l := OrOctet(0, t[i + 1], 1);
              Clear(l, 0) && OrOctet(l, t[i], 0) == Part(t, i, 2)
    ensures n == 3 ==>
              var l := OrOctet(0, t[i + 2], 2);
              Clear(l, 1) && Clear(OrOctet(l, t[i + 1], 1), 0) &&
              OrOctet(OrOctet(l, t[i + 1], 1), t[i], 0) == Part(t, i, 3)
  {
    PartOne(t, i);
    assert Clear(0, 0) && Clear(0, 1) && Clear(0, 2);
    if n == 2 {
      assert Part(t, i, 2) == Part(t, i, 1) + t[i + 1] * Weight(1);
      ClearBelow(OrOctet(0, t[i + 1], 1), t[i + 1], 0);
    } else if n == 3 {
      assert Part(t, i, 2) == Part(t, i, 1) + t[i + 1] * Weight(1);
      assert Part(t, i, 3) == Part(t, i, 2) + t[i + 2] * Weight(2);
      var l := OrOctet(0, t[i + 2], 2);
      ClearBelow(l, t[i + 2], 1);
      ClearBelow(OrOctet(l, t[i + 1], 1), 0x100 * t[i + 2] as int + t[i + 1], 0);
    }
    hide Clear;
  }

  /** HOST_c2l_p: `n` octets, the last one first, make the start of a word. */
  method HostC2lp(d: seq<byte>, pos: nat, n: nat, ghost t: seq<byte>, ghost i: nat) returns (l: word)
    requires Follows(t, d) && i + |d| == |t| + pos && n < 4 && pos + n <= |d|
    ensures l == Part(t, i, n)
  {
    l := 0;
    if n == 0 { return; }
    OrBackwards(t, i, n);
    hide Part, OrOctet, Clear, Weight;
    if n == 3 { l := OrOctet(l, d[pos + 2], 2); }
    if n >= 2 { l := OrOctet(l, d[pos + 1], 1); }
    l := OrOctet(l, d[pos], 0);
  }

  // ----- The block being filled

  /** The words hold the octets `s`; the unused octets of a word begun are zero. */
  ghost predicate Buffered(words: seq<word>, s: seq<byte>) {
    |words| == 16 && |s| <= 64 &&
    WordsUpTo(words, s, |s| / 4) &&
    (|s| % 4 != 0 ==> words[|s| / 4] == Part(s, 4 * (|s| / 4), |s| % 4))
  }

  /** The first `n` words hold the octets of `t`. */
  ghost predicate WordsUpTo(words: seq<word>, t: seq<byte>, n: nat)
    requires n <= |words| && 4 * n <= |t|
  {
    forall w :: 0 <= w < n ==> words[w] == Part(t, 4 * w, 4)
  }

  /** The words begun with `s` are words of every longer stream. */
  lemma BufferedIn(words: seq<word>, s: seq<byte>, t: seq<byte>)
    requires Buffered(words, s) && s <= t
    ensures WordsUpTo(words, t, |s| / 4)
    ensures |s| % 4 != 0 ==> words[|s| / 4] == Part(t, 4 * (|s| / 4), |s| % 4)
  {
    forall w | 0 <= w < |s| / 4 ensures words[w] == Part(t, 4 * w, 4) {
      PartOfSameOctets(s, 4 * w, t, 4 * w, 4);
    }
    PartOfSameOctets(s, 4 * (|s| / 4), t, 4 * (|s| / 4), |s| % 4);
  }

  /** Whole words from word `sw` up to `ew` are copied; position `pos` of `d` is word `sw` of the stream. */
  method CopyWords(data: array<word>, sw: nat, ew: nat, d: seq<byte>, pos: nat, ghost t: seq<byte>)
    returns (next: nat)
    requires data.Length == 16 && sw <= ew <= 16 && Follows(t, d)
    requires 4 * sw + |d| == |t| + pos && pos + 4 * (ew - sw) <= |d|
    requires WordsUpTo(data[..], t, sw)
    modifies data
    ensures next == pos + 4 * (ew - sw)
    ensures WordsUpTo(data[..], t, ew)
  {
    hide Part;
    next := pos;
    var l: word;
    for w := sw to ew
      invariant next == pos + 4 * (w - sw)
      invariant forall v :: 0 <= v < w ==> data[v] == Part(t, 4 * v, 4)
    {
      next, l := HostC2l(d, next, t, 4 * w);
      data[w] := l;
    }
  }

  /** The pending octets and the first of the new ones make a whole block. */
  method FillBlock(data: array<word>, num: nat, d: seq<byte>, ghost s: seq<byte>) returns (pos: nat)
    requires data.Length == 16 && num == |s| && 0 < num < 64 <= num + |d| && Buffered(data[..], s)
    modifies data
    ensures pos == 64 - num && data[..] == Words(s + d[..pos])
  {
    hide Part, Words;
    ghost var t := s + d;
    BufferedIn(data[..], s, t);
    var sw, sc := num / 4, num % 4;
    var l: word := data[sw];
    pos, l := HostPc2l(d, 0, l, sc, t, 4 * sw);
    data[sw] := l;
    pos := CopyWords(data, sw + 1, 16, d, pos, t);
    WholeBlock(data[..], t);
    assert t[..64] == s + d[..pos];
  }

  lemma WholeBlock(words: seq<word>, t: seq<byte>)
    requires |words| == 16 && |t| >= 64 && WordsUpTo(words, t, 16)
    ensures words == Words(t[..64])
  {
    forall w | 0 <= w < 16 ensures words[w] == Words(t[..64])[w] {
      PartOfSameOctets(t, 4 * w, t[..64], 4 * w, 4);
    }
  }

  /** The new octets do not complete the block: they are added to it. */
  method AddToBlock(data: array<word>, num: nat, d: seq<byte>, ghost s: seq<byte>)
    requires data.Length == 16 && num == |s| && 0 < num && d != [] && num + |d| < 64 && Buffered(data[..], s)
    modifies data
    ensures Buffered(data[..], s + d)
  {
    hide Part;
    ghost var t := s + d;
    BufferedIn(data[..], s, t);
    var sw, sc := num / 4, num % 4;
    var l: word := data[sw];
    if sc + |d| < 4 {
      l := HostPc2lp(d, 0, l, sc, |d|, t, 4 * sw);
      data[sw] := l;
    } else {
      var ew, ec := (num + |d|) / 4, (num + |d|) % 4;
      var pos;
      pos, l := HostPc2l(d, 0, l, sc, t, 4 * sw);
      data[sw] := l;
      pos := CopyWords(data, sw + 1, ew, d, pos, t);
      if ec != 0 {
        l := HostC2lp(d, pos, ec, t, 4 * ew);
        data[ew] := l;
      }
    }
  }

  /** What is left over, less than a block, is stored in an empty block. */
  method StoreTail(data: array<word>, d: seq<byte>, pos: nat)
    requires data.Length == 16 && pos < |d| < pos + 64
    modifies data
    ensures Buffered(data[..], d[pos..])
  {
    hide Part;
    ghost var t := d[pos..];
    var ew, ec := (|d| - pos) / 4, (|d| - pos) % 4;
    var next, l := pos, 0;
    for w := 0 to ew
      invariant next == pos + 4 * w
      invariant forall v :: 0 <= v < w ==> data[v] == Part(t, 4 * v, 4)
    {
      next, l := HostC2l(d, next, d, pos + 4 * w);
      PartOfSameOctets(d, pos + 4 * w, t, 4 * w, 4);
      data[w] := l;
    }
    l := HostC2lp(d, next, ec, d, pos + 4 * ew);
    PartOfSameOctets(d, pos + 4 * ew, t, 4 * ew, ec);
    data[ew] := l;
  }

  // ----- The end of the padded message

  const MARK: seq<byte> := [0x80, 0, 0, 0]

  /** What follows the whole blocks of a message that leaves `s` over: one block or two. */
  function Tail(s: seq<byte>, lo: word, hi: word): (t: seq<byte>)
    requires |s| < 64
    ensures |t| == if |s| < 56 then 64 else 128
  {
    s + [0x80] + Zeros(PadLength(|s|)) + LittleEndian(lo) + LittleEndian(hi)
  }

  lemma PadLengthOfRest(n: nat, k: nat)
    requires k <= n && k % 64 == 0
    ensures PadLength(n) == PadLength(n - k)
  {
  }

  lemma PadIsTail(m: seq<byte>, k: nat)
    requires k <= |m| && k % 64 == 0 && |m| - k < 64
    ensures Pad(m) == m[..k] + Tail(m[k..], 8 * |m| % WORD, 8 * |m| / WORD % WORD)
  {
    PadLengthOfRest(|m|, k);
    hide PadLength, LittleEndian, Zeros;
    assert m == m[..k] + m[k..];
  }

  /** The words of the tail: data closed by the mark, zeros, and the two words of the length. */
  lemma TailWords(s: seq<byte>, lo: word, hi: word, w: nat)
    requires |s| < 64 && w < |Tail(s, lo, hi)| / 4
    ensures var n := |Tail(s, lo, hi)| / 4;
            && |s| / 4 <= n - 3
            && (w <= |s| / 4 ==> Part(Tail(s, lo, hi), 4 * w, 4) == Part(s + MARK, 4 * w, 4))
            && (|s| / 4 < w < n - 2 ==> Part(Tail(s, lo, hi), 4 * w, 4) == 0)
            && (w == n - 2 ==> Part(Tail(s, lo, hi), 4 * w, 4) == lo)
            && (w == n - 1 ==> Part(Tail(s, lo, hi), 4 * w, 4) == hi)
  {
    hide Part;
    var t, n := Tail(s, lo, hi), |Tail(s, lo, hi)| / 4;
    if w <= |s| / 4 {
      PartOfSameOctets(t, 4 * w, s + MARK, 4 * w, 4);
    } else if w < n - 2 {
      PartOfSameOctets(t, 4 * w, Zeros(4), 0, 4);
      PartOfFour(Zeros(4));
    } else if w == n - 2 {
      PartOfSameOctets(t, 4 * w, LittleEndian(lo), 0, 4);
    } else {
      PartOfSameOctets(t, 4 * w, LittleEndian(hi), 0, 4);
    }
  }

  lemma WordDivMod(x: nat, q: nat, r: nat)
    requires x == q * WORD + r && r < WORD
    ensures x / WORD == q && x % WORD == r
  {
  }

  lemma WordSum(h: nat, carry: nat, q: nat)
    ensures ((h % WORD + carry) % WORD + q) % WORD == (h + q + carry) % WORD
  {
    var a, b := h / WORD, (h % WORD + carry) / WORD;
    var r := (h % WORD + carry) % WORD + q;
    assert h + q + carry == (a + b) * WORD + r;
    assert h + q + carry == (a + b + r / WORD) * WORD + r % WORD;
    WordDivMod(h + q + carry, a + b + r / WORD, r % WORD);
  }

  /** The counter is eight times the number of octets, modulo 2^64, in two words. */
  lemma CountOctets(nl: word, nh: word, n: nat, len: nat)
    requires nl == 8 * n % WORD && nh == 8 * n / WORD % WORD
    ensures var l := (nl + 8 * len) % WORD;
            var carry := if l < nl then 1 else 0;
            && l == 8 * (n + len) % WORD
            && ((nh + carry) % WORD + len / 0x2000_0000) % WORD == 8 * (n + len) / WORD % WORD
  {
    var q, r := len / 0x2000_0000, len % 0x2000_0000;
    var h := 8 * n / WORD;
    var carry := if nl + 8 * r >= WORD then 1 else 0;
    var low := nl + 8 * r - carry * WORD;
    assert 8 * len == q * WORD + 8 * r;
    assert 8 * n == h * WORD + nl;
    WordDivMod(nl + 8 * len, q + carry, low);
    WordDivMod(8 * (n + len), h + q + carry, low);
    WordSum(h, carry, q);
  }

  lemma FirstTailBlock(words: seq<word>, s: seq<byte>, lo: word, hi: word)
    requires 56 <= |s| < 64 && |words| == 16
    requires WordsUpTo(words, s + MARK, |s| / 4 + 1)
    requires |s| / 4 + 1 < 16 ==> words[15] == 0
    ensures words == Words(Tail(s, lo, hi)[..64])
  {
    hide Part, Tail;
    var t := Tail(s, lo, hi);
    forall w | 0 <= w < 16 ensures words[w] == Part(t, 4 * w, 4) {
      TailWords(s, lo, hi, w);
    }
    WholeBlock(words, t);
  }

  /** The number of words already in the last block when the zeros are put in. */
  function WordsKept(n: nat): (k: nat)
    requires n < 64
    ensures k < 15
  {
    if n < 56 then n / 4 + 1 else 0
  }

  lemma LastTailBlock(words: seq<word>, s: seq<byte>, lo: word, hi: word)
    requires |s| < 64 && |words| == 16
    requires WordsUpTo(words, s + MARK, WordsKept(|s|))
    requires forall w :: WordsKept(|s|) <= w < 14 ==> words[w] == 0
    requires words[14] == lo && words[15] == hi
    ensures words == Words(Tail(s, lo, hi)[|Tail(s, lo, hi)| - 64..])
  {
    hide Part, Tail, Words;
    var t, k := Tail(s, lo, hi), WordsKept(|s|);
    var base := if |s| < 56 then 0 else 16;
    forall w | 0 <= w < 16 ensures words[w] == Part(t[4 * base..], 4 * w, 4) {
      TailWords(s, lo, hi, base + w);
      PartOfDrop(t, 4 * base, 4 * w);
      assert w < k ==> words[w] == Part(s + MARK, 4 * w, 4);
      assert k <= w < 14 ==> words[w] == 0;
    }
    WholeBlock(words, t[4 * base..]);
    assert t[4 * base..][..64] == t[|t| - 64..];
  }

  lemma PartOfDrop(t: seq<byte>, k: nat, j: nat)
    requires k + j + 4 <= |t|
    ensures Part(t[k..], j, 4) == Part(t, k + j, 4)
  {
    PartOfSameOctets(t[k..], j, t, k + j, 4);
  }

  // ----- The context

  ghost predicate Counts(nl: word, nh: word, n: nat) {
    nl == 8 * n % WORD && nh == 8 * n / WORD % WORD
  }

  /** The chaining variables and the block stand for the octets `m`, all but `num` of them absorbed. */
  ghost predicate Digested(f: BlockFunction, h: State, num: nat, words: seq<word>, m: seq<byte>) {
    num == |m| % 64 && h == Absorb(f, INIT, m[..|m| - num]) && Buffered(words, m[|m| - num..])
  }

  lemma CountsAre(nl: word, nh: word, n: nat)
    requires Counts(nl, nh, n)
    ensures nl == 8 * n % WORD && nh == 8 * n / WORD % WORD
  {
  }

  lemma DigestedIs(f: BlockFunction, h: State, num: nat, words: seq<word>, m: seq<byte>)
    requires Digested(f, h, num, words, m)
    ensures num < 64 && num <= |m| && (|m| - num) % 64 == 0
    ensures h == Absorb(f, INIT, m[..|m| - num]) && Buffered(words, m[|m| - num..])
  {
    hide Absorb, Buffered;
  }

  lemma DigestedNothing(f: BlockFunction, words: seq<word>)
    requires |words| == 16
    ensures Digested(f, INIT, 0, words, []) && Counts(0, 0, 0)
  {
  }

  /** A block was completed out of the octets pending in it and `d`. */
  lemma DigestedBlock(f: BlockFunction, h: State, num: nat, words: seq<word>, m: seq<byte>, d: seq<byte>)
    requires Digested(f, h, num, words, m) && num + |d| == 64
    ensures Absorb(f, INIT, m + d) == f(h, Words(m[|m| - num..] + d))
  {
    hide *;
    DigestedIs(f, h, num, words, m);
    var k := |m| - num;
    AbsorbBlock(f, INIT, m[..k], m[k..] + d);
    assert m[..k] + (m[k..] + d) == m + d;
  }

  lemma DigestedWhole(f: BlockFunction, words: seq<word>, m: seq<byte>)
    requires |m| % 64 == 0 && |words| == 16
    ensures Digested(f, Absorb(f, INIT, m), 0, words, m)
  {
    hide Absorb;
    assert m[..|m|] == m;
  }

  lemma DigestedMore(f: BlockFunction, num: nat, words: seq<word>, m: seq<byte>, d: seq<byte>)
    requires num == |m| % 64 && num + |d| < 64 && Buffered(words, m[|m| - num..] + d)
    ensures Digested(f, Absorb(f, INIT, m[..|m| - num]), num + |d|, words, m + d)
  {
    hide Absorb, Buffered;
    assert (m + d)[..|m| - num] == m[..|m| - num];
    assert (m + d)[|m| - num..] == m[|m| - num..] + d;
  }

  class Context {
    const block: BlockFunction
    var h: State
    var nl: word
    var nh: word
    var num: nat
    const data: array<word>
    /** Everything digested since the last initialisation. */
    ghost var input: seq<byte>

    ghost predicate Valid()
      reads this, data
    {
      && data.Length == 16
      && Digested(block, h, num, data[..], input)
      && Counts(nl, nh, |input|)
      && num < 64 && num <= |input|
    }

    constructor (f: BlockFunction)
      ensures Valid() && block == f && input == [] && fresh(data)
    {
      block := f;
      data := new word[16](_ => 0);
      h, nl, nh, num, input := INIT, 0, 0, 0, [];
      new;
      DigestedNothing(block, data[..]);
    }

    /** MD5_Init on a context used before. */
    method Init()
      requires data.Length == 16
      modifies this
      ensures Valid() && input == []
    {
      hide Digested, Counts;
      h, nl, nh, num, input := INIT, 0, 0, 0, [];
      DigestedNothing(block, data[..]);
    }

    method Update(d: seq<byte>)
      requires Valid()
      modifies this, data
      ensures Valid() && input == old(input) + d
    {
      hide Digested;
      if d == [] { assert input + d == input; return; }
      hide Counts;
      Count(|d|);
      var pos := 0;
      if num != 0 {
        if num + |d| < 64 {
          AddPending(d);
          return;
        }
        pos := CompleteBlock(d);
      }
      assert input == old(input) + d[..pos];
      AbsorbRest(d, pos);
      assert input == old(input) + d;
    }

    method Count(len: nat)
      requires Counts(nl, nh, |input|)
      modifies this`nl, this`nh
      ensures Counts(nl, nh, |input| + len)
    {
      CountOctets(nl, nh, |input|, len);
      var l: word := (nl + 8 * len) % WORD;
      if l < nl { nh := (nh + 1) % WORD; }
      nh := (nh + len / 0x2000_0000) % WORD;
      nl := l;
    }

    /** The case of an Update that does not complete the block begun. */
    method AddPending(d: seq<byte>)
      requires data.Length == 16 && Digested(block, h, num, data[..], input)
      requires 0 < num && d != [] && num + |d| < 64
      modifies this`num, this`input, data
      ensures Digested(block, h, num, data[..], input) && input == old(input) + d && num < 64 && num <= |input|
    {
      hide Absorb, Buffered;
      AddToBlock(data, num, d, input[|input| - num..]);
      DigestedMore(block, num, data[..], input, d);
      num := num + |d|;
      input := input + d;
    }

    /** The case of an Update that completes the block begun. */
    method CompleteBlock(d: seq<byte>) returns (pos: nat)
      requires data.Length == 16 && Digested(block, h, num, data[..], input)
      requires 0 < num < 64 <= num + |d|
      modifies this`h, this`num, this`input, data
      ensures pos <= |d| && input == old(input) + d[..pos]
      ensures num == 0 && Digested(block, h, num, data[..], input)
    {
      hide Absorb, Words, Buffered;
      DigestedBlock(block, h, num, data[..], input, d[..64 - num]);
      pos := FillBlock(data, num, d, input[|input| - num..]);
      h := block(h, data[..]);
      num := 0;
      input := input + d[..pos];
      DigestedWhole(block, data[..], input);
    }

    /** The case of an Update at a block boundary: whole blocks straight from the data, then the rest. */
    method AbsorbRest(d: seq<byte>, start: nat)
      requires data.Length == 16 && Digested(block, h, num, data[..], input) && num == 0 && start <= |d|
      modifies this`h, this`num, this`input, data
      ensures Digested(block, h, num, data[..], input) && input == old(input) + d[start..]
      ensures num < 64 && num <= |input|
    {
      hide Digested, Buffered, Absorb, Words;
      var pos := start;
      while |d| - pos >= 64
        invariant start <= pos <= |d|
        invariant Digested(block, h, num, data[..], input) && num == 0
        invariant input == old(input) + d[start..pos]
      {
        DigestedBoundary(block, h, data[..], input, d[pos..pos + 64]);
        h := block(h, Words(d[pos..pos + 64]));
        input := input + d[pos..pos + 64];
        pos := pos + 64;
      }
      assert d[start..pos] + d[pos..] == d[start..];
      if pos < |d| {
        DigestedAt(block, h, data[..], input);
        StoreTail(data, d, pos);
        DigestedTail(block, data[..], input, d[pos..]);
        num := |d| - pos;
        input := input + d[pos..];
      }
    }

    method Final() returns (md: seq<byte>)
      requires Valid()
      modifies this, data
      ensures md == Digest(block, old(input)) && num == 0
    {
      hide Absorb, Words, Part, Tail, Digested, Counts, Pad, Buffered;
      ghost var m, s := input, input[|input| - num..];
      PadAbsorbed(block, h, num, data[..], m, nl, nh);
      Mark(s);
      if num / 4 + 1 > 14 {
        if num / 4 + 1 < 16 { data[15] := 0; }
        FirstTailBlock(data[..], s, nl, nh);
        h := block(h, data[..]);
      }
      ClearAndCount(s);
      LastTailBlock(data[..], s, nl, nh);
      h := block(h, data[..]);
      md := Output(h);
      num := 0;
    }

    /** Zeros up to word 14, then the two words of the length. */
    method ClearAndCount(ghost s: seq<byte>)
      requires data.Length == 16 && num == |s| < 64 && WordsUpTo(data[..], s + MARK, WordsKept(num))
      modifies data
      ensures WordsUpTo(data[..], s + MARK, WordsKept(num))
      ensures forall w :: WordsKept(num) <= w < 14 ==> data[..][w] == 0
      ensures data[14] == nl && data[15] == nh
    {
      hide Part;
      var i := if num / 4 + 1 > 14 then 0 else num / 4 + 1;
      while i < 14
        invariant WordsKept(num) <= i <= 14
        invariant WordsUpTo(data[..], s + MARK, WordsKept(num))
        invariant forall w :: WordsKept(num) <= w < i ==> data[..][w] == 0
      {
        data[i] := 0;
        i := i + 1;
      }
      data[14] := nl;
      data[15] := nh;
    }

    /** Puts the octet 0x80 behind the pending octets and clears the rest of its word. */
    method Mark(ghost s: seq<byte>)
      requires data.Length == 16 && num == |s| < 64 && Buffered(data[..], s)
      modifies data
      ensures WordsUpTo(data[..], s + MARK, num / 4 + 1)
    {
      hide Part;
      BufferedIn(data[..], s, s + MARK);
      var i, j := num / 4, num % 4;
      var l: word := if j == 0 then 0 else data[i];
      var next;
      next, l := HostPc2l(MARK, 0, l, j, s + MARK, 4 * i);
      data[i] := l;
    }
  }

  /** At a block boundary nothing is pending. */
  lemma DigestedAt(f: BlockFunction, h: State, words: seq<word>, m: seq<byte>)
    requires Digested(f, h, 0, words, m)
    ensures |m| % 64 == 0 && h == Absorb(f, INIT, m)
  {
    hide Absorb, Buffered;
    assert m[..|m|] == m;
  }

  lemma DigestedBoundary(f: BlockFunction, h: State, words: seq<word>, m: seq<byte>, d: seq<byte>)
    requires |words| == 16 && Digested(f, h, 0, words, m) && |d| == 64
    ensures Digested(f, f(h, Words(d)), 0, words, m + d)
  {
    hide *;
    DigestedAt(f, h, words, m);
    AbsorbBlock(f, INIT, m, d);
    DigestedWhole(f, words, m + d);
  }

  lemma DigestedTail(f: BlockFunction, words: seq<word>, m: seq<byte>, d: seq<byte>)
    requires |m| % 64 == 0 && |d| < 64 && Buffered(words, d)
    ensures Digested(f, Absorb(f, INIT, m), |d|, words, m + d)
  {
    hide Absorb, Buffered;
    assert m[..|m|] == m && m[|m|..] + d == d;
    DigestedMore(f, 0, words, m, d);
  }

  /** The tail is absorbed as its one block, or as its two blocks. */
  lemma TailAbsorbed(f: BlockFunction, head: seq<byte>, s: seq<byte>, lo: word, hi: word)
    requires |head| % 64 == 0 && |s| < 64
    ensures var t, h := Tail(s, lo, hi), Absorb(f, INIT, head);
            Absorb(f, INIT, head + t)
            == if |s| < 56 then f(h, Words(t[|t| - 64..])) else f(f(h, Words(t[..64])), Words(t[|t| - 64..]))
  {
    hide Absorb, Words, Tail;
    var t := Tail(s, lo, hi);
    if |s| < 56 {
      assert t[|t| - 64..] == t;
      AbsorbBlock(f, INIT, head, t);
    } else {
      AbsorbBlock(f, INIT, head, t[..64]);
      AbsorbBlock(f, INIT, head + t[..64], t[64..]);
      assert head + t[..64] + t[64..] == head + t;
    }
  }

  /** What a valid context has left to do: the one or two blocks of the tail. */
  lemma PadAbsorbed(f: BlockFunction, h: State, num: nat, words: seq<word>, m: seq<byte>, nl: word, nh: word)
    requires Digested(f, h, num, words, m) && Counts(nl, nh, |m|)
    ensures num < 64 && num <= |m| && Buffered(words, m[|m| - num..])
    ensures var t := Tail(m[|m| - num..], nl, nh);
            Absorb(f, INIT, Pad(m))
            == if num < 56 then f(h, Words(t[|t| - 64..])) else f(f(h, Words(t[..64])), Words(t[|t| - 64..]))
  {
    hide *;
    DigestedIs(f, h, num, words, m);
    CountsAre(nl, nh, |m|);
    PadIsTail(m, |m| - num);
    TailAbsorbed(f, m[..|m| - num], m[|m| - num..], nl, nh);
  }

  // ----- Streaming is hashing

  function Concat(chunks: seq<seq<byte>>): (m: seq<byte>) {
    if chunks == [] then [] else Concat(chunks[..|chunks| - 1]) + chunks[|chunks| - 1]
  }

  /** However a message is cut into chunks, the result is the digest of the whole message. */
  method DigestChunks(f: BlockFunction, chunks: seq<seq<byte>>) returns (md: seq<byte>)
    ensures md == Digest(f, Concat(chunks))
  {
    hide Digest, Digested, Counts, Concat;
    var c := new Context(f);
    ConcatNone();
    for i := 0 to |chunks|
      invariant c.Valid() && c.block == f && fresh(c) && fresh(c.data)
      invariant c.input == Concat(chunks[..i])
    {
      ConcatNext(chunks, i);
      c.Update(chunks[i]);
    }
    assert chunks[..|chunks|] == chunks;
    md := c.Final();
  }

  lemma ConcatNone()
    ensures Concat([]) == []
  {
  }

  lemma ConcatNext(chunks: seq<seq<byte>>, i: nat)
    requires i < |chunks|
    ensures Concat(chunks[..i + 1]) == Concat(chunks[..i]) + chunks[i]
  {
    assert chunks[..i + 1][..i] == chunks[..i];
  }
}
