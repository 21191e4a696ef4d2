/** `btoa` and `atob` in plain arithmetic: shifts and masks are written as division and remainder. */
module Base64 {
  import opened Bytes

  type sextet = x: int | 0 <= x < 64

  const PAD: u16 := 0x3D

  /** `BASE64_ALPHABET[v]`: upper case, lower case, digits, plus, slash. */
  function Letter(v: sextet): (c: u16)
    ensures IsLetter(c) && IndexOf(c) == v && c != PAD
  {
    if v < 26 then 0x41 + v
    else if v < 52 then 0x61 + (v - 26)
    else if v < 62 then 0x30 + (v - 52)
    else if v == 62 then 0x2B else 0x2F
  }

  predicate IsLetter(c: u16) {
    0x41 <= c <= 0x5A || 0x61 <= c <= 0x7A || 0x30 <= c <= 0x39 || c == 0x2B || c == 0x2F
  }

  /** `BASE64_ALPHABET.indexOf(c)` */
  function IndexOf(c: u16): (v: sextet)
    requires IsLetter(c)
  {
    if 0x41 <= c <= 0x5A then c - 0x41
    else if 0x61 <= c <= 0x7A then c - 0x61 + 26
    else if 0x30 <= c <= 0x39 then c - 0x30 + 52
    else if c == 0x2B then 62 else 63
  }

  /** The alphabet of section 4 of RFC 4648. */
  const UPPER: string := "ABCDEFGHIJKLMNOPQRSTUVWXYZ"
  const LOWER: string := "abcdefghijklmnopqrstuvwxyz"
  const DIGITS: string := "0123456789"
  const ALPHABET: string := UPPER + (LOWER + (DIGITS + "+/"))

  lemma UpperIs(v: nat)
    requires v < 26
    ensures UPPER[v] == 0x41 as char + v as char
  {
  }

  lemma LowerIs(v: nat)
    requires v < 26
    ensures LOWER[v] == 0x61 as char + v as char
  {
  }

  lemma DigitIs(v: nat)
    requires v < 10
    ensures DIGITS[v] == 0x30 as char + v as char
  {
  }

  lemma LetterIs(v: sextet)
    ensures |ALPHABET| == 64 && Letter(v) as char == ALPHABET[v]
  {
    if v < 26 {
      UpperIs(v);
    } else if v < 52 {
      LowerIs(v - 26);
    } else if v < 62 {
      DigitIs(v - 52);
    }
  }

  // ----- Encoding

  /** The four characters for one, two or three bytes. */
  function Quad(a: byte, b: byte, c: byte, hasB: bool, hasC: bool): (r: seq<u16>)
    ensures |r| == 4
  {
    [Letter(a / 4), Letter(a % 4 * 16 + b / 16),
     if hasB then Letter(b % 16 * 4 + c / 64) else PAD,
     if hasC then Letter(c % 64) else PAD]
  }

  /** `charCodeAt(i) & 255`, and 0 past the end. */
  function LowByte(s: seq<u16>, i: nat): byte {
    if i < |s| then s[i] % 256 else 0
  }

  /** The characters for the group at the front of `s`, which is not empty. */
  function EncodeGroup(s: seq<u16>): (r: seq<u16>)
    requires s != []
    ensures |r| == 4
  {
    Quad(LowByte(s, 0), LowByte(s, 1), LowByte(s, 2), |s| > 1, |s| > 2)
  }

  function Encode(s: seq<u16>): seq<u16> {
    if s == [] then [] else EncodeGroup(s) + Encode(s[Min(3, |s|)..])
  }

  method EncodeBase64(text: seq<u16>) returns (out: seq<u16>)
    ensures out == Encode(text)
  {
    hide EncodeGroup, Quad, LowByte;
    out := [];
    var at := 0;
    assert text[0..] == text;
    while at < |text|
      invariant out + Encode(text[Min(at, |text|)..]) == Encode(text)
    {
      ghost var rest := text[at..];
      assert rest[Min(3, |rest|)..] == text[Min(at + 3, |text|)..];
      GroupAt(text, at);
      out := out + Quad(text[at] % 256, LowByte(text, at + 1), LowByte(text, at + 2), at + 1 < |text|, at + 2 < |text|);
      at := at + 3;
    }
  }

  lemma GroupAt(text: seq<u16>, at: nat)
    requires at < |text|
    ensures EncodeGroup(text[at..]) ==
            Quad(text[at] % 256, LowByte(text, at + 1), LowByte(text, at + 2), at + 1 < |text|, at + 2 < |text|)
  {
    hide Quad;
  }

  // ----- Decoding

  /** What the regular expression leaves: the letters of the alphabet. */
  function Letters(s: seq<u16>): (r: seq<u16>)
    ensures forall i :: 0 <= i < |r| ==> IsLetter(r[i])
  {
    if s == [] then [] else (if IsLetter(s[0]) then [s[0]] else []) + Letters(s[1..])
  }

  type Text = s: seq<u16> | forall i :: 0 <= i < |s| ==> IsLetter(s[i]) witness []

  /** The letter at `i`, or the letter A past the end. */
  function Chunk(t: Text, i: nat): sextet {
    if i < |t| then IndexOf(t[i]) else 0
  }

  /** The 24 bits of the four letters from `i` on. */
  function Bits(t: Text, i: nat): nat {
    Chunk(t, i) * 0x4_0000 + Chunk(t, i + 1) * 0x1000 + Chunk(t, i + 2) * 64 + Chunk(t, i + 3)
  }

  /** The bytes of the group at the front of `t`, one fewer than its letters but at least one. */
  function DecodeGroup(t: Text): seq<u16>
    requires t != []
  {
    var bits := Bits(t, 0);
    [bits / 0x1_0000 % 256] +
    ((if |t| > 2 then [bits / 256 % 256] else []) +
     (if |t| > 3 then [bits % 256] else []))
  }

  function DecodeLetters(t: Text): seq<u16> {
    if t == [] then [] else DecodeGroup(t) + DecodeLetters(t[Min(4, |t|)..])
  }

  function Decode(s: seq<u16>): seq<u16> {
    DecodeLetters(Letters(s))
  }

  method KeepLetters(s: seq<u16>) returns (t: Text)
    ensures t == Letters(s)
  {
    t := [];
    assert s[0..] == s;
    for i := 0 to |s|
      invariant t + Letters(s[i..]) == Letters(s)
    {
      assert s[i..][1..] == s[i + 1..];
      if IsLetter(s[i]) {
        t := t + [s[i]];
      }
    }
  }

  method DecodeBase64(input: seq<u16>) returns (out: seq<u16>)
    ensures out == Decode(input)
  {
    hide DecodeGroup, IsLetter, Letters, Bits;
    var text := KeepLetters(input);
    out := [];
    var at := 0;
    assert text[0..] == text;
    while at < |text|
      invariant out + DecodeLetters(text[Min(at, |text|)..]) == DecodeLetters(text)
    {
      ghost var rest := text[at..];
      assert rest[Min(4, |rest|)..] == text[Min(at + 4, |text|)..];
      var bits := Bits(text, at);
      BytesAt(text, at);
      var first := [bits / 0x1_0000 % 256];
      var second := if at + 2 < |text| then [bits / 256 % 256] else [];
      var third := if at + 3 < |text| then [bits % 256] else [];
      ConcatAssociates(out, first + (second + third), DecodeLetters(text[Min(at + 4, |text|)..]));
      out := out + (first + (second + third));
      at := at + 4;
    }
  }

  lemma BytesAt(text: Text, at: nat)
    requires at < |text|
    ensures var bits := Bits(text, at);
            DecodeGroup(text[at..]) ==
              [bits / 0x1_0000 % 256] +
              ((if at + 2 < |text| then [bits / 256 % 256] else []) + (if at + 3 < |text| then [bits % 256] else []))
  {
    hide IsLetter, IndexOf;
    var rest: Text := text[at..];
    assert Chunk(rest, 0) == Chunk(text, at) && Chunk(rest, 1) == Chunk(text, at + 1);
    assert Chunk(rest, 2) == Chunk(text, at + 2) && Chunk(rest, 3) == Chunk(text, at + 3);
  }

  // ----- Round trip

  /** Three bytes and four sextets hold the same 24 bits. */
  lemma SameBits(a: byte, b: byte, c: byte)
    ensures a / 4 * 0x4_0000 + (a % 4 * 16 + b / 16) * 0x1000 + (b % 16 * 4 + c / 64) * 64 + c % 64 ==
            a * 0x1_0000 + b * 256 + c
  {
  }

  lemma QuotientIs(x: nat, q: nat, r: nat)
    requires x == q * 256 + r && r < 256
    ensures x / 256 == q && x % 256 == r
  {
  }

  lemma TopQuotientIs(x: nat, q: nat, r: nat)
    requires x == q * 0x1_0000 + r && r < 0x1_0000
    ensures x / 0x1_0000 == q
  {
  }

  lemma BytesOf(a: byte, b: byte, c: byte)
    ensures var bits := a * 0x1_0000 + b * 256 + c;
            bits / 0x1_0000 % 256 == a && bits / 256 % 256 == b && bits % 256 == c
  {
    var bits := a * 0x1_0000 + b * 256 + c;
    TopQuotientIs(bits, a, b * 256 + c);
    QuotientIs(bits, a * 256 + b, c);
    QuotientIs(a * 256 + b, a, b);
  }

  /** The low byte of every unit. */
  function LowBytes(s: seq<u16>): seq<u16> {
    seq(|s|, i requires 0 <= i < |s| => s[i] % 256)
  }

  lemma {:induction false} LettersConcat(a: seq<u16>, b: seq<u16>)
    ensures Letters(a + b) == Letters(a) + Letters(b)
  {
    hide IsLetter;
    if a == [] {
      assert a + b == b;
    } else {
      LettersConcat(a[1..], b);
      ConcatHead(a, b);
      ConcatAssociates(if IsLetter(a[0]) then [a[0]] else [], Letters(a[1..]), Letters(b));
    }
  }

  lemma FourLetters(a: u16, b: u16, c: u16, d: u16)
    ensures Letters([a, b, c, d]) == Letters([a]) + (Letters([b]) + (Letters([c]) + Letters([d])))
  {
    hide Letters;
    assert [a, b, c, d] == [a] + [b, c, d] && [b, c, d] == [b] + [c, d] && [c, d] == [c] + [d];
    LettersConcat([a], [b, c, d]);
    LettersConcat([b], [c, d]);
    LettersConcat([c], [d]);
  }

  /** The characters of a group: a letter for each byte, one more, and padding. */
  lemma GroupIs(s: seq<u16>)
    requires s != []
    ensures var g := EncodeGroup(s);
            && IsLetter(g[0]) && IsLetter(g[1])
            && (if |s| > 1 then IsLetter(g[2]) else g[2] == PAD)
            && (if |s| > 2 then IsLetter(g[3]) else g[3] == PAD)
  {
    hide Letter, IsLetter;
  }

  /** Dropping the padding keeps one letter more than there are bytes. */
  lemma GroupLetters(s: seq<u16>)
    requires s != []
    ensures var n := Min(3, |s|);
            |Letters(EncodeGroup(s))| == n + 1 && Letters(EncodeGroup(s)) == EncodeGroup(s)[..n + 1]
  {
    hide IsLetter, Letters, EncodeGroup;
    GroupIs(s);
    PadIsNoLetter();
    var g := EncodeGroup(s);
    assert g == [g[0], g[1], g[2], g[3]];
    FourLetters(g[0], g[1], g[2], g[3]);
    OneLetter(g[0]);
    OneLetter(g[1]);
    OneLetter(g[2]);
    OneLetter(g[3]);
  }

  lemma PadIsNoLetter()
    ensures !IsLetter(PAD)
  {
  }

  lemma OneLetter(c: u16)
    ensures Letters([c]) == if IsLetter(c) then [c] else []
  {
  }

  lemma GroupRoundTrip(s: seq<u16>, more: Text)
    requires s != [] && (|s| < 3 ==> more == [])
    ensures var t := Letters(EncodeGroup(s)) + more;
            DecodeGroup(t) == LowBytes(s[..Min(3, |s|)])
  {
    hide Letters, LowBytes, IndexOf, IsLetter, Letter;
    GroupLetters(s);
    var a, b, c := LowByte(s, 0), LowByte(s, 1), LowByte(s, 2);
    SameBits(a, b, c);
    BytesOf(a, b, c);
    GroupChunks(s, more);
    LowBytesAt(s[..Min(3, |s|)]);
  }

  lemma GroupChunks(s: seq<u16>, more: Text)
    requires s != [] && (|s| < 3 ==> more == [])
    ensures var t := Letters(EncodeGroup(s)) + more;
            var a, b, c := LowByte(s, 0), LowByte(s, 1), LowByte(s, 2);
            && Chunk(t, 0) == a / 4 && Chunk(t, 1) == a % 4 * 16 + b / 16
            && Chunk(t, 2) == b % 16 * 4 + c / 64 && Chunk(t, 3) == c % 64
  {
    hide Letters, LowBytes, IndexOf, IsLetter, Letter;
    GroupLetters(s);
  }

  lemma LowBytesAt(s: seq<u16>)
    ensures |s| == 1 ==> LowBytes(s) == [s[0] % 256]
    ensures |s| == 2 ==> LowBytes(s) == [s[0] % 256, s[1] % 256]
    ensures |s| == 3 ==> LowBytes(s) == [s[0] % 256, s[1] % 256, s[2] % 256]
  {
  }

  /** Decoding what was encoded gives every byte back; on byte strings that is the string itself. */
  lemma {:induction false} RoundTrip(s: seq<u16>)
    ensures Decode(Encode(s)) == LowBytes(s)
    ensures (forall i :: 0 <= i < |s| ==> s[i] < 256) ==> Decode(Encode(s)) == s
    decreases |s|
  {
    hide EncodeGroup, DecodeGroup, IsLetter, Letters;
    if s == [] {
      NoLetters();
    } else {
      var n := Min(3, |s|);
      var g, rest := EncodeGroup(s), s[n..];
      RoundTrip(rest);
      LettersConcat(g, Encode(rest));
      GroupLetters(s);
      var head, more := Letters(g), Letters(Encode(rest));
      if |s| < 3 {
        assert rest == [];
        NoLetters();
      }
      GroupRoundTrip(s, more);
      var t := head + more;
      assert t[Min(4, |t|)..] == more;
      assert LowBytes(s) == LowBytes(s[..n]) + LowBytes(rest);
    }
  }

  lemma NoLetters()
    ensures Letters([]) == []
  {
  }

  function Padding(n: nat): nat {
    if n % 3 == 0 then 0 else 3 - n % 3
  }

  /** Letters, and then `n` padding characters. */
  predicate PaddedBy(r: seq<u16>, n: nat) {
    && n <= |r|
    && (forall i :: 0 <= i < |r| - n ==> IsLetter(r[i]))
    && (forall i :: |r| - n <= i < |r| ==> r[i] == PAD)
  }

  lemma GroupShape(s: seq<u16>)
    requires s != []
    ensures PaddedBy(EncodeGroup(s), Padding(Min(3, |s|)))
  {
    hide Letter, IsLetter;
  }

  lemma PaddedConcat(a: seq<u16>, b: seq<u16>, n: nat)
    requires PaddedBy(a, 0) && PaddedBy(b, n)
    ensures PaddedBy(a + b, n)
  {
    hide IsLetter;
  }

  lemma ThreeMore(n: nat)
    requires n > 3
    ensures (n + 2) / 3 == (n - 3 + 2) / 3 + 1 && Padding(n) == Padding(n - 3) && Padding(3) == 0
  {
  }

  /** Four characters for every three bytes begun, the padding only at the end. */
  lemma {:induction false} EncodedShape(s: seq<u16>)
    ensures |Encode(s)| == (|s| + 2) / 3 * 4
    ensures PaddedBy(Encode(s), Padding(|s|))
    decreases |s|
  {
    hide EncodeGroup, PaddedBy, Padding;
    if s == [] {
      NothingPadded();
    } else {
      var rest := s[Min(3, |s|)..];
      GroupShape(s);
      if |s| <= 3 {
        assert rest == [] && Encode(rest) == [];
        assert Encode(s) == EncodeGroup(s) + [] == EncodeGroup(s);
      } else {
        EncodedShape(rest);
        ThreeMore(|s|);
        PaddedConcat(EncodeGroup(s), Encode(rest), Padding(|s|));
      }
    }
  }

  lemma NothingPadded()
    ensures PaddedBy([], Padding(0))
  {
  }

  // ----- Canonical strings come back

  /** The three ways section 4 of RFC 4648 lets a string end, with every unused bit zero. */
  predicate CanonicalEnd(e: seq<u16>)
    requires |e| == 4
  {
    && IsLetter(e[0]) && IsLetter(e[1])
    && (|| (IsLetter(e[2]) && IsLetter(e[3]))
        || (IsLetter(e[2]) && e[3] == PAD && IndexOf(e[2]) % 4 == 0)
        || (e[2] == PAD && e[3] == PAD && IndexOf(e[1]) % 16 == 0))
  }

  predicate AllLetters(e: seq<u16>) {
    forall i :: 0 <= i < |e| ==> IsLetter(e[i])
  }

  /** Groups of four letters, the last of which may be padded. */
  predicate Canonical(e: seq<u16>)
    decreases |e|
  {
    || e == []
    || (|e| == 4 && CanonicalEnd(e))
    || (|e| > 4 && AllLetters(e[..4]) && Canonical(e[4..]))
  }

  lemma LetterBack(c: u16)
    requires IsLetter(c)
    ensures Letter(IndexOf(c)) == c
  {
  }

  /** The three bytes that four sextets hold. */
  function First(w: sextet, x: sextet): byte {
    w * 4 + x / 16
  }

  function Second(x: sextet, y: sextet): byte {
    x % 16 * 16 + y / 4
  }

  function Third(y: sextet, z: sextet): byte {
    y % 4 * 64 + z
  }

  lemma Regroup(w: int, p: int, q: int, r: int, t: int, z: int)
    ensures w * 0x4_0000 + (p * 16 + q) * 0x1000 + (r * 4 + t) * 64 + z ==
            (w * 4 + p) * 0x1_0000 + (q * 16 + r) * 256 + (t * 64 + z)
  {
  }

  lemma BitsHold(w: sextet, x: sextet, y: sextet, z: sextet)
    ensures var bits := w * 0x4_0000 + x * 0x1000 + y * 64 + z;
            && bits / 0x1_0000 % 256 == First(w, x)
            && bits / 256 % 256 == Second(x, y)
            && bits % 256 == Third(y, z)
  {
    var p: int, q: int := x / 16, x % 16;
    var r: int, t: int := y / 4, y % 4;
    Regroup(w, p, q, r, t, z);
    assert x == p * 16 + q && y == r * 4 + t;
    BytesOf(First(w, x), Second(x, y), Third(y, z));
  }

  lemma HighSextet(w: sextet, x: sextet)
    ensures var a := First(w, x); a / 4 == w && a % 4 == x / 16
  {
  }

  lemma MiddleSextets(x: sextet, y: sextet)
    ensures var b := Second(x, y); b / 16 == x % 16 && b % 16 == y / 4
  {
  }

  lemma LowSextet(y: sextet, z: sextet)
    ensures var c := Third(y, z); c / 64 == y % 4 && c % 64 == z
  {
  }

  /** Those bytes are written with the same sextets. */
  lemma SextetsBack(w: sextet, x: sextet, y: sextet, z: sextet)
    ensures var a, b, c := First(w, x), Second(x, y), Third(y, z);
            && Quad(a, b, c, true, true) == [Letter(w), Letter(x), Letter(y), Letter(z)]
            && (z == 0 && y % 4 == 0 ==> Quad(a, b, 0, true, false) == [Letter(w), Letter(x), Letter(y), PAD])
            && (y == 0 && x % 16 == 0 ==> Quad(a, 0, 0, false, false) == [Letter(w), Letter(x), PAD, PAD])
  {
    hide Letter;
    HighSextet(w, x);
    MiddleSextets(x, y);
    LowSextet(y, z);
    assert x / 16 * 16 + x % 16 == x && y / 4 * 4 + y % 4 == y;
  }

  /** What the group at the front of `t` decodes to, in terms of its letters. */
  lemma DecodedGroupIs(t: Text)
    requires t != []
    ensures var w, x, y, z := Chunk(t, 0), Chunk(t, 1), Chunk(t, 2), Chunk(t, 3);
            DecodeGroup(t) ==
              [First(w, x)] +
              ((if |t| > 2 then [Second(x, y)] else []) + (if |t| > 3 then [Third(y, z)] else []))
  {
    hide Chunk, First, Second, Third;
    BitsHold(Chunk(t, 0), Chunk(t, 1), Chunk(t, 2), Chunk(t, 3));
  }

  /** Four letters decode to three bytes that encode to those letters, whatever follows. */
  lemma FullGroupBack(e: seq<u16>, t: Text, more: seq<u16>)
    requires |e| == 4 && AllLetters(e) && |t| >= 4 && t[..4] == e
    ensures |DecodeGroup(t)| == 3 && EncodeGroup(DecodeGroup(t) + more) == e
  {
    hide Letter, IndexOf, Quad, DecodeGroup, First, Second, Third, IsLetter;
    var w, x, y, z := IndexOf(e[0]), IndexOf(e[1]), IndexOf(e[2]), IndexOf(e[3]);
    assert t[0] == e[0] && t[1] == e[1] && t[2] == e[2] && t[3] == e[3];
    DecodedGroupIs(t);
    SextetsBack(w, x, y, z);
    LetterBack(e[0]);
    LetterBack(e[1]);
    LetterBack(e[2]);
    LetterBack(e[3]);
    var g := DecodeGroup(t);
    assert g == [First(w, x), Second(x, y), Third(y, z)];
    var s := g + more;
    assert LowByte(s, 0) == g[0] && LowByte(s, 1) == g[1] && LowByte(s, 2) == g[2];
    assert e == [e[0], e[1], e[2], e[3]];
  }

  lemma PaddedOnceBack(e: seq<u16>)
    requires |e| == 4 && CanonicalEnd(e) && e[3] == PAD && IsLetter(e[2])
    ensures EncodeGroup(DecodeGroup(e[..3])) == e && |DecodeGroup(e[..3])| == 2
  {
    hide Letter, IndexOf, Quad, DecodeGroup, IsLetter, First, Second;
    assert !IsLetter(PAD) by { PadIsNoLetter(); }
    var t: Text := e[..3];
    var w, x, y := IndexOf(e[0]), IndexOf(e[1]), IndexOf(e[2]);
    DecodedGroupIs(t);
    SextetsBack(w, x, y, 0);
    LetterBack(e[0]);
    LetterBack(e[1]);
    LetterBack(e[2]);
    assert DecodeGroup(t) == [First(w, x), Second(x, y)];
    assert e == [e[0], e[1], e[2], PAD];
  }

  lemma PaddedTwiceBack(e: seq<u16>)
    requires |e| == 4 && CanonicalEnd(e) && e[2] == PAD
    ensures EncodeGroup(DecodeGroup(e[..2])) == e && |DecodeGroup(e[..2])| == 1
  {
    hide Letter, IndexOf, Quad, DecodeGroup, IsLetter, First, Second;
    assert !IsLetter(PAD) by { PadIsNoLetter(); }
    var t: Text := e[..2];
    var w, x := IndexOf(e[0]), IndexOf(e[1]);
    DecodedGroupIs(t);
    SextetsBack(w, x, 0, 0);
    LetterBack(e[0]);
    LetterBack(e[1]);
    assert DecodeGroup(t) == [First(w, x)];
    assert e == [e[0], e[1], PAD, PAD];
  }

  lemma {:induction false} LettersOfLetters(e: seq<u16>)
    requires AllLetters(e)
    ensures Letters(e) == e
  {
    hide IsLetter;
    if e != [] {
      LettersOfLetters(e[1..]);
    }
  }

  lemma EndBack(e: seq<u16>)
    requires |e| == 4 && CanonicalEnd(e)
    ensures Encode(Decode(e)) == e
  {
    hide DecodeGroup, EncodeGroup, IsLetter, IndexOf, Letters;
    PadIsNoLetter();
    FourLetters(e[0], e[1], e[2], e[3]);
    assert e == [e[0], e[1], e[2], e[3]];
    OneLetter(e[0]);
    OneLetter(e[1]);
    OneLetter(e[2]);
    OneLetter(e[3]);
    var t: Text := Letters(e);
    if IsLetter(e[3]) {
      assert t == e;
      FullGroupBack(e, t, []);
    } else if IsLetter(e[2]) {
      assert t == e[..3];
      PaddedOnceBack(e);
    } else {
      assert t == e[..2];
      PaddedTwiceBack(e);
    }
    LastGroup(t);
  }

  /** A text of one group, and the short string it decodes to. */
  lemma LastGroup(t: Text)
    requires 0 < |t| <= 4
    ensures DecodeLetters(t) == DecodeGroup(t)
    ensures 0 < |DecodeGroup(t)| <= 3 && Encode(DecodeGroup(t)) == EncodeGroup(DecodeGroup(t))
  {
    hide EncodeGroup, IsLetter;
    assert t[Min(4, |t|)..] == [];
    assert DecodeLetters([]) == [];
    var g := DecodeGroup(t);
    assert g[Min(3, |g|)..] == [] && Encode([]) == [];
  }

  lemma {:induction false} CanonicalBack(e: seq<u16>)
    requires Canonical(e)
    ensures Encode(Decode(e)) == e
    decreases |e|
  {
    hide DecodeGroup, EncodeGroup, IsLetter, Letters, CanonicalEnd;
    if e == [] {
      NoLetters();
    } else if |e| == 4 {
      EndBack(e);
    } else {
      var head, rest := e[..4], e[4..];
      CanonicalBack(rest);
      assert e == head + rest;
      LettersConcat(head, rest);
      LettersOfLetters(head);
      var t: Text := Letters(e);
      assert t == head + Letters(rest) && t[Min(4, |t|)..] == Letters(rest) && t[..4] == head;
      var g, s := DecodeGroup(t), Decode(rest);
      FullGroupBack(head, t, s);
      assert Decode(e) == g + s;
      assert (g + s)[Min(3, |g + s|)..] == s;
    }
  }

  lemma GroupIsCanonical(s: seq<u16>)
    requires s != []
    ensures |s| <= 3 ==> CanonicalEnd(EncodeGroup(s))
    ensures |s| >= 3 ==> AllLetters(EncodeGroup(s))
  {
    hide Letter, IsLetter, IndexOf;
    if |s| == 1 {
      assert IndexOf(EncodeGroup(s)[1]) == LowByte(s, 0) % 4 * 16;
    } else if |s| == 2 {
      assert IndexOf(EncodeGroup(s)[2]) == LowByte(s, 1) % 16 * 4;
    }
  }

  lemma {:induction false} EncodedIsCanonical(s: seq<u16>)
    ensures Canonical(Encode(s))
    decreases |s|
  {
    hide EncodeGroup, IsLetter, CanonicalEnd;
    if s != [] {
      var rest := s[Min(3, |s|)..];
      var g := EncodeGroup(s);
      EncodedIsCanonical(rest);
      GroupIsCanonical(s);
      if |s| <= 3 {
        assert rest == [] && Encode(rest) == [] && Encode(s) == g;
      } else {
        assert Encode(s)[..4] == g && Encode(s)[4..] == Encode(rest) && |Encode(rest)| >= 4;
      }
    }
  }

  /** A string comes back from decoding and encoding exactly when it is canonical. */
  lemma ComesBackIffCanonical(e: seq<u16>)
    ensures Encode(Decode(e)) == e <==> Canonical(e)
  {
    hide Encode, Decode, Canonical;
    if Canonical(e) {
      CanonicalBack(e);
    }
    EncodedIsCanonical(Decode(e));
  }
}
