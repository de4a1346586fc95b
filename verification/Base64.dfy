/**
 * Base64 decoding.  The decoder writes each octet in two steps, or-ing the second part into the
 * first, and accepts a text exactly if it is the encoding of section 4 of RFC 4648 interspersed
 * with whitespace, and the target has room.
 */
module Base64 {
  import opened Bytes

  const PAD := 61

  type Sextet = x: int | 0 <= x < 64

  function Char(v: Sextet): byte {
    if v < 26 then 65 + v else if v < 52 then 71 + v else if v < 62 then v - 4 else if v == 62 then 43 else 47
  }

  function ValueOf(c: byte): Option<Sextet> {
    if 65 <= c <= 90 then Some(c - 65)
    else if 97 <= c <= 122 then Some(c - 71)
    else if 48 <= c <= 57 then Some(c + 4)
    else if c == 43 then Some(62)
    else if c == 47 then Some(63)
    else None
  }

  lemma ValueOfChar(v: Sextet)
    ensures ValueOf(Char(v)) == Some(v)
  {
  }

  lemma CharOfValue(c: byte)
    ensures ValueOf(c).Some? ==> Char(ValueOf(c).value) == c
  {
  }

  function IsSpace(c: byte): bool { 9 <= c <= 13 || c == 32 }

  // ----- The encoding of RFC 4648

  function Encode(b: seq<byte>): (s: seq<byte>) {
    if b == [] then []
    else if |b| == 1 then [Char(b[0] / 4), Char((b[0] % 4) * 16), PAD, PAD]
    else if |b| == 2 then [Char(b[0] / 4), Char((b[0] % 4) * 16 + b[1] / 16), Char((b[1] % 16) * 4), PAD]
    else
      [Char(b[0] / 4), Char((b[0] % 4) * 16 + b[1] / 16), Char((b[1] % 16) * 4 + b[2] / 64), Char(b[2] % 64)]
      + Encode(b[3..])
  }

  /** The test vectors of section 10 of RFC 4648, and four characters where the alphabet changes its range. */
  lemma Vectors()
    ensures Encode([]) == []
    ensures Encode([102]) == [90, 103, 61, 61]                          // f: Zg==
    ensures Encode([102, 111]) == [90, 109, 56, 61]                     // fo: Zm8=
    ensures Encode([102, 111, 111]) == [90, 109, 57, 118]               // foo: Zm9v
    ensures Encode([101, 172, 244]) == [90, 97, 122, 48]                // Zaz0
    ensures Encode([247, 239, 191]) == [57, 43, 43, 47]                 // 9++/
  {
    assert [102, 111, 111][3..] == [] && [101, 172, 244][3..] == [] && [247, 239, 191][3..] == [];
  }

  // ----- The decoder's four states

  /** Or-ing into bits that are still zero. */
  function Or(part: byte, v: int, m: int): (r: byte)
    requires 0 < m && 256 % m == 0 && part % m == 0 && 0 <= v < m
    requires m == 4 || m == 16 || m == 64
  {
    part + v
  }

  /** The octet an expected character completes has its low bits free. */
  predicate Free(state: nat, part: byte) {
    state <= 3 && (state == 1 ==> part % 4 == 0) && (state == 2 ==> part % 16 == 0) && (state == 3 ==> part % 64 == 0)
  }

  /** What the characters `s`, without whitespace, add when `part` holds the bits read too many. */
  function Run(s: seq<byte>, state: nat, part: byte): (r: Option<seq<byte>>)
    requires Free(state, part)
  {
    if s == [] then if state == 0 then Some([]) else None
    else if s[0] == PAD then
      if part == 0 && ((state == 2 && s == [PAD, PAD]) || (state == 3 && s == [PAD])) then Some([]) else None
    else match ValueOf(s[0])
      case None => None
      case Some(v) =>
        if state == 0 then Run(s[1..], 1, v * 4)
        else if state == 1 then Prepend([Or(part, v / 16, 4)], Run(s[1..], 2, (v % 16) * 16))
        else if state == 2 then Prepend([Or(part, v / 4, 16)], Run(s[1..], 3, (v % 4) * 64))
        else Prepend([Or(part, v, 64)], Run(s[1..], 0, 0))
  }

  /** One character in each state. */
  lemma RunStep(c: byte, s: seq<byte>, state: nat, part: byte)
    requires Free(state, part) && c != PAD
    ensures Run([c] + s, state, part) ==
            match ValueOf(c)
            case None => None
            case Some(v) =>
              if state == 0 then Run(s, 1, v * 4)
              else if state == 1 then Prepend([Or(part, v / 16, 4)], Run(s, 2, (v % 16) * 16))
              else if state == 2 then Prepend([Or(part, v / 4, 16)], Run(s, 3, (v % 4) * 64))
              else Prepend([Or(part, v, 64)], Run(s, 0, 0))
  {
    assert ([c] + s)[1..] == s;
  }

  /** Four characters give three octets. */
  lemma RunGroup(a: Sextet, b: Sextet, c: Sextet, d: Sextet, s: seq<byte>)
    ensures Run([Char(a), Char(b), Char(c), Char(d)] + s, 0, 0) ==
            Prepend([a * 4 + b / 16], Prepend([(b % 16) * 16 + c / 4], Prepend([(c % 4) * 64 + d], Run(s, 0, 0))))
  {
    hide Run, Char;
    ValueOfChar(a);
    ValueOfChar(b);
    ValueOfChar(c);
    ValueOfChar(d);
    CharIsNoPad(a);
    CharIsNoPad(b);
    CharIsNoPad(c);
    CharIsNoPad(d);
    var s1 := [Char(d)] + s;
    var s2 := [Char(c)] + s1;
    var s3 := [Char(b)] + s2;
    assert [Char(a), Char(b), Char(c), Char(d)] + s == [Char(a)] + s3;
    RunStep(Char(a), s3, 0, 0);
    RunStep(Char(b), s2, 1, a * 4);
    RunStep(Char(c), s1, 2, (b % 16) * 16);
    RunStep(Char(d), s, 3, (c % 4) * 64);
  }

  /** Cutting three octets into four sextets and putting them together again. */
  lemma Regroup(x: byte, y: byte, z: byte)
    ensures var b, c := (x % 4) * 16 + y / 16, (y % 16) * 4 + z / 64;
            (x / 4) * 4 + b / 16 == x && (b % 16) * 16 + c / 4 == y && (c % 4) * 64 + z % 64 == z
  {
    var b, c := (x % 4) * 16 + y / 16, (y % 16) * 4 + z / 64;
    assert b / 16 == x % 4 && b % 16 == y / 16;
    assert c / 4 == y % 16 && c % 4 == z / 64;
  }

  lemma RunTwoPads(x: byte)
    ensures Run([Char(x / 4), Char((x % 4) * 16), PAD, PAD], 0, 0) == Some([x])
  {
    hide Run, Char;
    var a, b := x / 4, (x % 4) * 16;
    assert [Char(a), Char(b), PAD, PAD] == [Char(a)] + ([Char(b)] + [PAD, PAD]);
    ValueOfChar(a);
    ValueOfChar(b);
    CharIsNoPad(a);
    CharIsNoPad(b);
    RunStep(Char(a), [Char(b)] + [PAD, PAD], 0, 0);
    RunStep(Char(b), [PAD, PAD], 1, a * 4);
    RunPads(2);
    Regroup(x, 0, 0);
    assert [x] == [x] + [];
  }

  lemma RunOnePad(x: byte, y: byte)
    ensures Run([Char(x / 4), Char((x % 4) * 16 + y / 16), Char((y % 16) * 4), PAD], 0, 0) == Some([x, y])
  {
    hide Run, Char;
    var a, b, c := x / 4, (x % 4) * 16 + y / 16, (y % 16) * 4;
    assert [Char(a), Char(b), Char(c), PAD] == [Char(a)] + ([Char(b)] + ([Char(c)] + [PAD]));
    ValueOfChar(a);
    ValueOfChar(b);
    ValueOfChar(c);
    CharIsNoPad(a);
    CharIsNoPad(b);
    CharIsNoPad(c);
    RunStep(Char(a), [Char(b)] + ([Char(c)] + [PAD]), 0, 0);
    RunStep(Char(b), [Char(c)] + [PAD], 1, a * 4);
    RunStep(Char(c), [PAD], 2, (b % 16) * 16);
    RunPads(3);
    Regroup(x, y, 0);
    assert [x, y] == [x] + ([y] + []);
  }

  lemma CharIsNoPad(v: Sextet)
    ensures Char(v) != PAD && !IsSpace(Char(v))
  {
  }

  lemma {:induction false} EncodeDecodes(b: seq<byte>)
    ensures Run(Encode(b), 0, 0) == Some(b)
    decreases |b|
  {
    hide Run, Char;
    if b == [] {
      RunNothing();
    } else if |b| == 1 {
      RunTwoPads(b[0]);
      assert b == [b[0]];
    } else if |b| == 2 {
      RunOnePad(b[0], b[1]);
      assert b == [b[0], b[1]];
    } else {
      EncodeDecodes(b[3..]);
      RunGroup(b[0] / 4, (b[0] % 4) * 16 + b[1] / 16, (b[1] % 16) * 4 + b[2] / 64, b[2] % 64, Encode(b[3..]));
      Regroup(b[0], b[1], b[2]);
      assert b == [b[0]] + ([b[1]] + ([b[2]] + b[3..]));
    }
  }

  lemma RunNothing()
    ensures Run([], 0, 0) == Some([])
  {
  }

  /** The other direction: the first character of a text that is decoded. */
  lemma FirstCharacter(s: seq<byte>, state: nat, part: byte) returns (v: Sextet)
    requires Free(state, part) && Run(s, state, part).Some? && s != [] && s[0] != PAD
    ensures s == [Char(v)] + s[1..]
    ensures Run(s, state, part) ==
            if state == 0 then Run(s[1..], 1, v * 4)
            else if state == 1 then Prepend([Or(part, v / 16, 4)], Run(s[1..], 2, (v % 16) * 16))
            else if state == 2 then Prepend([Or(part, v / 4, 16)], Run(s[1..], 3, (v % 4) * 64))
            else Prepend([Or(part, v, 64)], Run(s[1..], 0, 0))
  {
    v := ValueOf(s[0]).value;
  }

  /** What ends a text, and where it cannot end. */
  lemma LastCharacters(s: seq<byte>, state: nat, part: byte)
    requires Free(state, part) && Run(s, state, part).Some? && (s == [] || s[0] == PAD)
    ensures Run(s, state, part) == Some([]) && state != 1
    ensures state == 0 ==> s == []
    ensures state == 2 ==> s == [PAD, PAD] && part == 0
    ensures state == 3 ==> s == [PAD] && part == 0
  {
  }

  /** Cutting what four sextets make up gives them back. */
  lemma Recut(a: Sextet, b: Sextet, c: Sextet, d: Sextet)
    ensures var x, y, z := a * 4 + b / 16, (b % 16) * 16 + c / 4, (c % 4) * 64 + d;
            x / 4 == a && (x % 4) * 16 + y / 16 == b && (y % 16) * 4 + z / 64 == c && z % 64 == d
  {
    var x, y, z := a * 4 + b / 16, (b % 16) * 16 + c / 4, (c % 4) * 64 + d;
    assert x / 4 == a && x % 4 == b / 16;
    assert y / 16 == b % 16 && y % 16 == c / 4;
    assert z / 64 == c % 4 && z % 64 == d;
  }

  lemma {:induction false} DecodedIsEncoding(s: seq<byte>)
    requires Run(s, 0, 0).Some?
    ensures s == Encode(Run(s, 0, 0).value)
    decreases |s|
  {
    hide Run, Char;
    if s == [] || s[0] == PAD {
      LastCharacters(s, 0, 0);
    } else {
      var a: int := FirstCharacter(s, 0, 0);
      var s1 := s[1..];
      if s1 == [] || s1[0] == PAD { LastCharacters(s1, 1, a * 4); }
      var b: int := FirstCharacter(s1, 1, a * 4);
      RestOfGroup(a, b, s1[1..]);
      assert s == [Char(a), Char(b)] + s1[1..];
    }
  }

  /** The second half of a group and all that follows it. */
  lemma {:induction false} RestOfGroup(a: Sextet, b: Sextet, s: seq<byte>)
    requires Run(s, 2, (b % 16) * 16).Some?
    ensures [Char(a), Char(b)] + s == Encode([a * 4 + b / 16] + Run(s, 2, (b % 16) * 16).value)
    decreases |s|
  {
    hide Run, Char, Encode, ValueOf;
    var b: int := b;
    if s == [] || s[0] == PAD {
      LastCharacters(s, 2, (b % 16) * 16);
      Recut(a, b, 0, 0);
      EncodeOne(a * 4 + b / 16);
      return;
    }
    var c: int := FirstCharacter(s, 2, (b % 16) * 16);
    var r := s[1..];
    if r == [] || r[0] == PAD {
      LastCharacters(r, 3, (c % 4) * 64);
      Recut(a, b, c, 0);
      EncodeTwo(a * 4 + b / 16, (b % 16) * 16 + c / 4);
      assert [Char(a), Char(b)] + s == [Char(a), Char(b), Char(c), PAD];
    } else {
      var d: int := FirstCharacter(r, 3, (c % 4) * 64);
      DecodedIsEncoding(r[1..]);
      Recut(a, b, c, d);
      EncodeThree(a * 4 + b / 16, (b % 16) * 16 + c / 4, (c % 4) * 64 + d, Run(r[1..], 0, 0).value);
      assert [Char(a), Char(b)] + s == [Char(a), Char(b), Char(c), Char(d)] + r[1..];
    }
  }

  lemma EncodeOne(x: byte)
    ensures Encode([x] + []) == [Char(x / 4), Char((x % 4) * 16), PAD, PAD]
  {
  }

  lemma EncodeTwo(x: byte, y: byte)
    ensures Encode([x] + ([y] + [])) == [Char(x / 4), Char((x % 4) * 16 + y / 16), Char((y % 16) * 4), PAD]
  {
  }

  lemma EncodeThree(x: byte, y: byte, z: byte, b: seq<byte>)
    ensures Encode([x] + ([y] + ([z] + b))) ==
            [Char(x / 4), Char((x % 4) * 16 + y / 16), Char((y % 16) * 4 + z / 64), Char(z % 64)] + Encode(b)
  {
    assert ([x] + ([y] + ([z] + b)))[3..] == b;
  }

  lemma RunPads(state: nat)
    requires state == 2 || state == 3
    ensures Run(if state == 2 then [PAD, PAD] else [PAD], state, 0) == Some([])
  {
  }

  // ----- Whitespace, and the code

  /** The characters from `i` on, whitespace left out. */
  function Rest(t: seq<byte>, i: nat): (s: seq<byte>)
    requires i <= |t|
    decreases |t| - i
  {
    if i == |t| then [] else if IsSpace(t[i]) then Rest(t, i + 1) else [t[i]] + Rest(t, i + 1)
  }

  /** Whitespace, the octets 9 to 13 and 32, is left out, and the rest keeps its order. */
  lemma RestIs(t: seq<byte>, u: seq<byte>, c: byte)
    ensures Rest(t + u, 0) == Rest(t, 0) + Rest(u, 0)
    ensures Rest([], 0) == [] && Rest([c], 0) == if c in {9, 10, 11, 12, 13, 32} then [] else [c]
  {
    RestSplits(t, u, 0);
    assert Rest([c], 1) == [];
  }

  lemma {:induction false} RestSplits(t: seq<byte>, u: seq<byte>, i: nat)
    requires i <= |t|
    ensures Rest(t + u, i) == Rest(t, i) + Rest(u, 0)
    decreases |t| - i
  {
    if i < |t| {
      RestSplits(t, u, i + 1);
    } else {
      RestShifted(t, u, 0);
    }
  }

  lemma {:induction false} RestShifted(t: seq<byte>, u: seq<byte>, i: nat)
    requires i <= |u|
    ensures Rest(t + u, |t| + i) == Rest(u, i)
    decreases |u| - i
  {
    if i < |u| { RestShifted(t, u, i + 1); }
  }

  /** The octets the code touches: one more than it delivers where a group is not complete. */
  function Needed(len: nat): nat {
    if len % 3 == 0 then len else len + 1
  }

  /** The octets decoded: none if the text is no encoding, or if the room does not suffice. */
  function Decode(t: seq<byte>, room: nat): (r: Option<seq<byte>>) {
    var r := Run(Rest(t, 0), 0, 0);
    if r.Some? && Needed(|r.value|) <= room then r else None
  }

  /** A text is decoded to `b` exactly if it is the encoding of `b`, whitespace aside, and there is room. */
  lemma DecodesExactly(t: seq<byte>, room: nat, b: seq<byte>)
    ensures Decode(t, room) == Some(b) <==> Rest(t, 0) == Encode(b) && Needed(|b|) <= room
  {
    if Decode(t, room) == Some(b) { DecodedIsEncoding(Rest(t, 0)); }
    if Rest(t, 0) == Encode(b) { EncodeDecodes(b); }
  }

  /** No two texts differing in more than whitespace are decoded to the same octets. */
  lemma NoOtherText(t: seq<byte>, u: seq<byte>, room: nat)
    requires Decode(t, room).Some? && Decode(t, room) == Decode(u, room)
    ensures Rest(t, 0) == Rest(u, 0)
  {
    DecodesExactly(t, room, Decode(t, room).value);
    DecodesExactly(u, room, Decode(t, room).value);
  }

  /** The search through the alphabet. */
  method Find(ch: byte) returns (pos: Option<Sextet>)
    ensures pos == ValueOf(ch)
  {
    CharOfValue(ch);
    for s := 0 to 64
      invariant forall v :: 0 <= v < s ==> Char(v) != ch
    {
      if ch == Char(s) {
        ValueOfChar(s);
        return Some(s);
      }
    }
    return None;
  }

  /** Whether nothing but whitespace is left. */
  method OnlySpaces(src: seq<byte>, from: nat, ghost t: seq<byte>) returns (only: bool)
    requires CString(src, t) && from <= |t|
    ensures only <==> Rest(t, from) == []
  {
    var i := from;
    while src[i] != 0
      invariant i <= |t| && Rest(t, from) == Rest(t, i)
      decreases |t| - i
    {
      if !IsSpace(src[i]) { return false; }
      i := i + 1;
    }
    return true;
  }

  /** The second pad character, whitespace before it skipped; the result is the position behind it. */
  method SecondPad(src: seq<byte>, from: nat, ghost t: seq<byte>) returns (r: Option<nat>)
    requires CString(src, t) && from <= |t|
    ensures r.None? ==> Rest(t, from) == [] || Rest(t, from)[0] != PAD
    ensures r.Some? ==> r.value <= |t| && Rest(t, from) == [PAD] + Rest(t, r.value)
  {
    var i := from;
    while src[i] != 0 && IsSpace(src[i])
      invariant i <= |t| && Rest(t, from) == Rest(t, i)
      decreases |t| - i
    {
      i := i + 1;
    }
    if src[i] != PAD { return None; }
    return Some(i + 1);
  }

  lemma PadsOnly(rest: seq<byte>, state: nat, part: byte)
    requires Free(state, part)
    ensures Run([PAD] + rest, state, part).Some? <==>
              part == 0 && ((state == 2 && rest == [PAD]) || (state == 3 && rest == []))
  {
    assert ([PAD] + rest)[1..] == rest && [PAD, PAD][1..] == [PAD] && [PAD][1..] == [];
    assert [PAD] + rest == [PAD, PAD] <==> rest == [PAD];
  }

  /** The text behind the first pad character. */
  method Tail(src: seq<byte>, from: nat, state: nat, extra: byte, ghost t: seq<byte>) returns (ok: bool)
    requires CString(src, t) && from <= |t| && Free(state, if state == 0 then 0 else extra)
    ensures ok <==> Run([PAD] + Rest(t, from), state, if state == 0 then 0 else extra).Some?
  {
    var i := from;
    ghost var rest := Rest(t, from);
    PadsOnly(rest, state, if state == 0 then 0 else extra);
    if state < 2 { return false; }
    if state == 2 {
      var second := SecondPad(src, i, t);
      if second.None? { return false; }
      i := second.value;
    }
    var only := OnlySpaces(src, i, t);
    if !only { return false; }
    return extra == 0;
  }

  /** Any text that can still be completed delivers an octet more in every state but the first. */
  lemma Delivers(s: seq<byte>, state: nat, part: byte)
    requires Free(state, part) && Run(s, state, part).Some? && (state == 1 || (s != [] && s[0] != PAD))
    ensures |Run(s, state, part).value| >= 1
    decreases |s|
  {
    if state == 0 { Delivers(s[1..], 1, ValueOf(s[0]).value * 4); }
  }

  /** What is known in the loop: what the characters so far gave, and what the rest will add. */
  ghost predicate Scanned(t: seq<byte>, i: nat, done: seq<byte>, state: nat, part: byte) {
    && i <= |t| && Free(state, part) && (state == 0 ==> part == 0)
    && |done| % 3 == (if state == 0 then 0 else state - 1)
    && Run(Rest(t, 0), 0, 0) == Prepend(done, Run(Rest(t, i), state, part))
  }

  lemma ScannedSpace(t: seq<byte>, i: nat, done: seq<byte>, state: nat, part: byte)
    requires Scanned(t, i, done, state, part) && i < |t| && IsSpace(t[i])
    ensures Scanned(t, i + 1, done, state, part)
  {
  }

  lemma ScannedNoValue(t: seq<byte>, i: nat, done: seq<byte>, state: nat, part: byte, room: nat)
    requires Scanned(t, i, done, state, part) && i < |t| && t[i] != PAD && !IsSpace(t[i]) && ValueOf(t[i]).None?
    ensures Decode(t, room) == None
  {
    RunStep(t[i], Rest(t, i + 1), state, part);
  }

  /** One character more; without the room the code asks for in that state, decoding fails anyway. */
  lemma ScannedStep(t: seq<byte>, i: nat, done: seq<byte>, state: nat, part: byte, v: Sextet, room: nat)
    requires Scanned(t, i, done, state, part) && i < |t| && t[i] != PAD && !IsSpace(t[i]) && ValueOf(t[i]) == Some(v)
    ensures state == 0 ==> Scanned(t, i + 1, done, 1, v * 4)
    ensures state == 1 ==> Scanned(t, i + 1, done + [Or(part, v / 16, 4)], 2, (v % 16) * 16)
    ensures state == 2 ==> Scanned(t, i + 1, done + [Or(part, v / 4, 16)], 3, (v % 4) * 64)
    ensures state == 3 ==> Scanned(t, i + 1, done + [Or(part, v, 64)], 0, 0)
    ensures (if state == 1 || state == 2 then |done| + 1 else |done|) >= room ==> Decode(t, room) == None
  {
    hide Run, Or;
    var s := Rest(t, i + 1);
    RunStep(t[i], s, state, part);
    var r := Run([t[i]] + s, state, part);
    if r.Some? { Delivers([t[i]] + s, state, part); }
    match state
    case 0 =>
    case 1 => PrependTwice(done, [Or(part, v / 16, 4)], Run(s, 2, (v % 16) * 16));
    case 2 => PrependTwice(done, [Or(part, v / 4, 16)], Run(s, 3, (v % 4) * 64));
    case _ => PrependTwice(done, [Or(part, v, 64)], Run(s, 0, 0));
  }

  lemma ScannedEnd(t: seq<byte>, i: nat, done: seq<byte>, state: nat, part: byte, room: nat)
    requires Scanned(t, i, done, state, part) && (i == |t| || t[i] == PAD)
    requires if state == 0 then |done| <= room else |done| < room
    ensures var ok := if i == |t| then state == 0 else Run([PAD] + Rest(t, i + 1), state, part).Some?;
            Decode(t, room) == if ok then Some(done) else None
  {
    hide Run;
    assert i < |t| ==> Rest(t, i) == [PAD] + Rest(t, i + 1);
    var r := Run(Rest(t, i), state, part);
    if r.Some? { LastCharacters(Rest(t, i), state, part); }
    assert done + [] == done;
    if i == |t| { RunAtEnd(state, part); }
  }

  lemma RunAtEnd(state: nat, part: byte)
    requires Free(state, part)
    ensures Run([], state, part) == if state == 0 then Some([]) else None
  {
  }

  /** The number of octets stored, or -1. */
  method Base64ToBin(src: seq<byte>, target: array<byte>, ghost t: seq<byte>) returns (r: int)
    requires CString(src, t)
    modifies target
    ensures match Decode(t, target.Length)
            case None => r == -1
            case Some(b) => r == |b| && StandsAt(target[..], 0, b)
  {
    hide Decode, Scanned, ValueOf, Or, Rest;
    var i: nat, state: nat, tarindex: nat := 0, 0, 0;
    ghost var done: seq<byte>, part: byte := [], 0;
    Begin(t);
    while src[i] != 0 && src[i] != PAD
      invariant i <= |t| && Scanned(t, i, done, state, part) && Free(state, part)
      invariant tarindex == |done| && tarindex <= target.Length && StandsAt(target[..], 0, done)
      invariant if state == 0 then part == 0 else tarindex < target.Length && target[tarindex] == part
      decreases |t| - i
    {
      var ch := src[i];
      i := i + 1;
      if IsSpace(ch) {
        ScannedSpace(t, i - 1, done, state, part);
        continue;
      }
      var pos := Find(ch);
      if pos.None? {
        ScannedNoValue(t, i - 1, done, state, part, target.Length);
        return -1;
      }
      var v: int := pos.value;
      ScannedStep(t, i - 1, done, state, part, v, target.Length);
      match state
      case 0 =>
        if tarindex >= target.Length { return -1; }
        target[tarindex] := v * 4;
        part := v * 4;
        state := 1;
      case 1 =>
        if tarindex + 1 >= target.Length { return -1; }
        target[tarindex] := Or(target[tarindex], v / 16, 4);
        target[tarindex + 1] := (v % 16) * 16;
        done, part := done + [Or(part, v / 16, 4)], (v % 16) * 16;
        tarindex := tarindex + 1;
        state := 2;
      case 2 =>
        if tarindex + 1 >= target.Length { return -1; }
        target[tarindex] := Or(target[tarindex], v / 4, 16);
        target[tarindex + 1] := (v % 4) * 64;
        done, part := done + [Or(part, v / 4, 16)], (v % 4) * 64;
        tarindex := tarindex + 1;
        state := 3;
      case _ =>
        if tarindex >= target.Length { return -1; }
        target[tarindex] := Or(target[tarindex], v, 64);
        done, part := done + [Or(part, v, 64)], 0;
        tarindex := tarindex + 1;
        state := 0;
    }
    ScannedEnd(t, i, done, state, part, target.Length);
    if src[i] == PAD {
      var ok := Tail(src, i + 1, state, if state == 0 then 0 else target[tarindex], t);
      if !ok { return -1; }
    } else if state != 0 {
      return -1;
    }
    return tarindex;
  }

  lemma Begin(t: seq<byte>)
    ensures Scanned(t, 0, [], 0, 0) && Free(0, 0)
  {
    PrependTwice([], [], Run(Rest(t, 0), 0, 0));
  }
}
