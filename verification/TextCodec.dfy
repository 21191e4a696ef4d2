/** The fallback `TextEncoder` and `TextDecoder`: UTF-16 strings to UTF-8 bytes and back. */
module TextCodec {
  import opened Bytes
  import opened Utf8

  type CodePoint = x: int | 0 <= x < 0x11_0000

  predicate IsHigh(u: int) {
    0xD800 <= u < 0xDC00
  }

  predicate IsLow(u: int) {
    0xDC00 <= u < 0xE000
  }

  /** `codePointAt(0)`: a pair makes one code point, a lone surrogate stands for itself. */
  function CodePointAt(t: seq<u16>): (c: CodePoint)
    requires t != []
    ensures c >= 0x1_0000 <==> |t| > 1 && IsHigh(t[0]) && IsLow(t[1])
    ensures c < 0x1_0000 ==> c == t[0]
  {
    if |t| > 1 && IsHigh(t[0]) && IsLow(t[1]) then
      var high: int, low: int := t[0], t[1];
      0x1_0000 + (high - 0xD800) * 0x400 + (low - 0xDC00)
    else t[0]
  }

  /** How many units the code point at the front takes. */
  function Units(c: CodePoint): nat {
    if c < 0x1_0000 then 1 else 2
  }

  /** `String.fromCodePoint` */
  function FromCodePoint(c: CodePoint): (t: seq<u16>)
    ensures |t| == Units(c)
  {
    if c < 0x1_0000 then [c]
    else [0xD800 + (c - 0x1_0000) / 0x400, 0xDC00 + (c - 0x1_0000) % 0x400]
  }

  lemma CodePointParts(t: seq<u16>)
    requires t != []
    ensures Units(CodePointAt(t)) <= |t|
    ensures FromCodePoint(CodePointAt(t)) == t[..Units(CodePointAt(t))]
  {
  }

  // ----- Encoding

  function Tail(c: nat): (b: byte)
    ensures IsContinuation(b)
  {
    0x80 + c % 64
  }

  function EncodeCode(c: CodePoint): (r: seq<byte>)
    ensures 1 <= |r| <= 4
  {
    if c < 0x80 then [c]
    else if c < 0x800 then [0xC0 + c / 64, Tail(c)]
    else if c < 0x1_0000 then [0xE0 + c / 0x1000, Tail(c / 64), Tail(c)]
    else [0xF0 + c / 0x4_0000, Tail(c / 0x1000), Tail(c / 64), Tail(c)]
  }

  function Encode(t: seq<u16>): seq<byte>
    decreases |t|
  {
    if t == [] then []
    else
      var c := CodePointAt(t);
      EncodeCode(c) + Encode(t[Min(Units(c), |t|)..])
  }

  method EncodeText(text: seq<u16>) returns (bytes: seq<byte>)
    ensures bytes == Encode(text)
  {
    hide CodePointAt, EncodeCode;
    bytes := [];
    var at := 0;
    assert text[0..] == text;
    while at < |text|
      invariant at <= |text|
      invariant bytes + Encode(text[at..]) == Encode(text)
    {
      var rest := text[at..];
      CodePointParts(rest);
      var code := CodePointAt(rest);
      assert rest[Units(code)..] == text[at + Units(code)..];
      if code > 0xFFFF {
        at := at + 1;
      }
      bytes := bytes + EncodeCode(code);
      at := at + 1;
    }
  }

  // ----- Decoding

  datatype Fault = RangeError

  /** `bytes[i] & 63`, where a missing byte is 0. */
  function Low6(s: seq<byte>, i: nat): (v: nat)
    ensures v < 64
  {
    if i < |s| then s[i] % 64 else 0
  }

  /** How many bytes the decoder takes for the lead byte `b`. */
  function LeadLength(b: byte): nat {
    if b < 0x80 then 1 else if b < 0xE0 then 2 else if b < 0xF0 then 3 else 4
  }

  /** The number the decoder assembles at the front of `s`. */
  function CodeAt(s: seq<byte>): (c: nat)
    requires s != []
    ensures LeadLength(s[0]) < 4 ==> c < 0x1_0000
  {
    if s[0] < 0x80 then s[0]
    else if s[0] < 0xE0 then s[0] % 32 * 64 + Low6(s, 1)
    else if s[0] < 0xF0 then s[0] % 16 * 0x1000 + Low6(s, 1) * 64 + Low6(s, 2)
    else s[0] % 8 * 0x4_0000 + Low6(s, 1) * 0x1000 + Low6(s, 2) * 64 + Low6(s, 3)
  }

  /** Numbers beyond the last code point make `fromCodePoint` throw. */
  function Decode(s: seq<byte>): Result<seq<u16>, Fault>
    decreases |s|
  {
    if s == [] then Ok([])
    else if CodeAt(s) >= 0x11_0000 then Err(RangeError)
    else Prepend(FromCodePoint(CodeAt(s)), Decode(s[Min(LeadLength(s[0]), |s|)..]))
  }

  function Prepend(t: seq<u16>, r: Result<seq<u16>, Fault>): Result<seq<u16>, Fault> {
    if r.Ok? then Ok(t + r.value) else r
  }

  lemma PrependTwice(a: seq<u16>, b: seq<u16>, r: Result<seq<u16>, Fault>)
    ensures Prepend(a, Prepend(b, r)) == Prepend(a + b, r)
  {
    if r.Ok? {
      assert a + (b + r.value) == (a + b) + r.value;
    }
  }

  method DecodeText(bytes: seq<byte>) returns (r: Result<seq<u16>, Fault>)
    ensures r == Decode(bytes)
  {
    hide FromCodePoint, Prepend, CodeAt, Low6, Decode;
    var out: seq<u16> := [];
    var at := 0;
    assert bytes[0..] == bytes;
    PrependNothing(Decode(bytes));
    while at < |bytes|
      invariant Prepend(out, Decode(bytes[Min(at, |bytes|)..])) == Decode(bytes)
    {
      var b := bytes[at];
      ghost var rest := bytes[at..];
      var n := LeadLength(b);
      CodeParts(bytes, at);
      DecodeStep(rest);
      assert rest[Min(n, |rest|)..] == bytes[Min(at + n, |bytes|)..];
      var code: nat;
      if b < 0x80 {
        code := b;
      } else if b < 0xE0 {
        at := at + 1;
        code := b % 32 * 64 + Low6(bytes, at);
      } else if b < 0xF0 {
        code := b % 16 * 0x1000 + Low6(bytes, at + 1) * 64 + Low6(bytes, at + 2);
        at := at + 2;
      } else {
        code := b % 8 * 0x4_0000 + Low6(bytes, at + 1) * 0x1000 + Low6(bytes, at + 2) * 64 + Low6(bytes, at + 3);
        at := at + 3;
      }
      if code >= 0x11_0000 {
        PrependFault(out);
        return Err(RangeError);
      }
      at := at + 1;
      PrependTwice(out, FromCodePoint(code), Decode(bytes[Min(at, |bytes|)..]));
      out := out + FromCodePoint(code);
    }
    assert bytes[Min(at, |bytes|)..] == [];
    DecodeNothing();
    PrependOk(out);
    r := Ok(out);
  }

  lemma DecodeStep(s: seq<byte>)
    requires s != []
    ensures Decode(s) ==
            if CodeAt(s) >= 0x11_0000 then Err(RangeError)
            else Prepend(FromCodePoint(CodeAt(s)), Decode(s[Min(LeadLength(s[0]), |s|)..]))
  {
  }

  lemma DecodeNothing()
    ensures Decode([]) == Ok([])
  {
  }

  lemma CodeParts(bytes: seq<byte>, at: nat)
    requires at < |bytes|
    ensures var b, c := bytes[at], CodeAt(bytes[at..]);
            c == if b < 0x80 then b
                 else if b < 0xE0 then b % 32 * 64 + Low6(bytes, at + 1)
                 else if b < 0xF0 then b % 16 * 0x1000 + Low6(bytes, at + 1) * 64 + Low6(bytes, at + 2)
                 else b % 8 * 0x4_0000 + Low6(bytes, at + 1) * 0x1000 + Low6(bytes, at + 2) * 64 + Low6(bytes, at + 3)
  {
    var rest := bytes[at..];
    assert Low6(rest, 1) == Low6(bytes, at + 1) && Low6(rest, 2) == Low6(bytes, at + 2);
    assert Low6(rest, 3) == Low6(bytes, at + 3);
  }

  lemma PrependNothing(r: Result<seq<u16>, Fault>)
    ensures Prepend([], r) == r
  {
    if r.Ok? {
      assert [] + r.value == r.value;
    }
  }

  lemma PrependFault(t: seq<u16>)
    ensures Prepend(t, Err(RangeError)) == Err(RangeError)
  {
  }

  lemma PrependOk(t: seq<u16>)
    ensures Prepend(t, Ok([])) == Ok(t)
  {
    assert t + [] == t;
  }

  // ----- Round trip

  lemma ThreeRoundTrip(c: CodePoint, more: seq<byte>)
    requires 0x800 <= c < 0x1_0000
    ensures var s := EncodeCode(c) + more;
            LeadLength(s[0]) == 3 && CodeAt(s) == c
  {
    hide Low6, Tail;
    var s := EncodeCode(c) + more;
    TailBits(s, 1, c / 64);
    TailBits(s, 2, c);
    ThreeParts(c);
    LeadOfThree(c / 0x1000);
    assert s[0] == 0xE0 + c / 0x1000;
  }

  lemma FourRoundTrip(c: CodePoint, more: seq<byte>)
    requires 0x1_0000 <= c
    ensures var s := EncodeCode(c) + more;
            LeadLength(s[0]) == 4 && CodeAt(s) == c
  {
    hide Low6, Tail;
    var s := EncodeCode(c) + more;
    TailBits(s, 1, c / 0x1000);
    TailBits(s, 2, c / 64);
    TailBits(s, 3, c);
    FourParts(c);
    LeadOfFour(c / 0x4_0000);
    assert s[0] == 0xF0 + c / 0x4_0000;
  }

  /** The bytes of one code point decode to that code point, whatever follows. */
  lemma CodeRoundTrip(c: CodePoint, more: seq<byte>)
    ensures var s := EncodeCode(c) + more;
            LeadLength(s[0]) == |EncodeCode(c)| && CodeAt(s) == c
  {
    hide Low6, Tail;
    var s := EncodeCode(c) + more;
    if 0x80 <= c < 0x800 {
      TailBits(s, 1, c);
    } else if 0x800 <= c < 0x1_0000 {
      ThreeRoundTrip(c, more);
    } else if 0x1_0000 <= c {
      FourRoundTrip(c, more);
    }
  }

  lemma LeadOfFour(x: nat)
    requires x < 8
    ensures (0xF0 + x) % 8 == x
  {
  }

  lemma LeadOfThree(x: nat)
    requires x < 16
    ensures (0xE0 + x) % 16 == x
  {
  }

  lemma TailBits(s: seq<byte>, i: nat, c: nat)
    requires i < |s| && s[i] == Tail(c)
    ensures Low6(s, i) == c % 64
  {
  }

  /** Dropping six bits twice is dropping twelve. */
  lemma ShiftTwice(c: nat)
    ensures c / 64 / 64 == c / 0x1000
  {
    var q, r := c / 0x1000, c % 0x1000;
    SixBits(c, 64 * q + r / 64, r % 64);
    SixBits(64 * q + r / 64, q, r / 64);
  }

  lemma SixBits(x: nat, q: nat, r: nat)
    requires x == q * 64 + r && r < 64
    ensures x / 64 == q && x % 64 == r
  {
  }

  lemma ThreeParts(c: nat)
    ensures c / 0x1000 * 0x1000 + c / 64 % 64 * 64 + c % 64 == c
  {
    ShiftTwice(c);
    var d := c / 64;
    assert c == d * 64 + c % 64;
    assert d == d / 64 * 64 + d % 64;
  }

  lemma ShiftThrice(c: nat)
    ensures c / 64 / 0x1000 == c / 0x4_0000
  {
    var q, r := c / 0x4_0000, c % 0x4_0000;
    SixBits(c, 0x1000 * q + r / 64, r % 64);
    assert r / 64 < 0x1000;
  }

  lemma FourParts(c: nat)
    ensures c / 0x4_0000 * 0x4_0000 + c / 0x1000 % 64 * 0x1000 + c / 64 % 64 * 64 + c % 64 == c
  {
    var d := c / 64;
    ShiftTwice(c);
    ShiftTwice(d);
    ShiftThrice(c);
    ThreeParts(d);
  }

  /** The decoder inverts the encoder on every UTF-16 sequence, lone surrogates included. */
  lemma {:induction false} RoundTrip(t: seq<u16>)
    ensures Decode(Encode(t)) == Ok(t)
    decreases |t|
  {
    hide CodePointAt, EncodeCode, CodeAt, FromCodePoint, LeadLength;
    if t != [] {
      var c := CodePointAt(t);
      CodePointParts(t);
      var rest := t[Units(c)..];
      RoundTrip(rest);
      var head, more := EncodeCode(c), Encode(rest);
      CodeRoundTrip(c, more);
      var s := head + more;
      assert s[|head|..] == more;
      assert t == t[..Units(c)] + rest;
    }
  }

  // ----- When the bytes are UTF-8

  /** No surrogate stands alone. */
  predicate WellFormed(t: seq<u16>)
    decreases |t|
  {
    t == [] ||
    var c := CodePointAt(t);
    !IsHigh(c) && !IsLow(c) && WellFormed(t[Min(Units(c), |t|)..])
  }

  lemma ShortIsUtf8(c: CodePoint, more: seq<byte>)
    requires c < 0x800
    ensures CharLength(EncodeCode(c) + more) == |EncodeCode(c)|
  {
  }

  lemma ThreeIsUtf8(c: CodePoint, more: seq<byte>)
    requires 0x800 <= c < 0x1_0000
    ensures CharLength(EncodeCode(c) + more) == if IsHigh(c) || IsLow(c) then 0 else 3
  {
    var s := EncodeCode(c) + more;
    assert s[0] == 0xE0 + c / 0x1000 && s[1] == Tail(c / 64) && s[2] == Tail(c);
  }

  lemma FourIsUtf8(c: CodePoint, more: seq<byte>)
    requires 0x1_0000 <= c
    ensures CharLength(EncodeCode(c) + more) == 4
  {
    var s := EncodeCode(c) + more;
    assert s[0] == 0xF0 + c / 0x4_0000 && s[1] == Tail(c / 0x1000) && s[2] == Tail(c / 64) && s[3] == Tail(c);
  }

  /** One code point is well-formed UTF-8 exactly when it is not a surrogate. */
  lemma CodeIsUtf8(c: CodePoint, more: seq<byte>)
    ensures CharLength(EncodeCode(c) + more) == if IsHigh(c) || IsLow(c) then 0 else |EncodeCode(c)|
  {
    hide CharLength;
    if c < 0x800 {
      ShortIsUtf8(c, more);
    } else if c < 0x1_0000 {
      ThreeIsUtf8(c, more);
    } else {
      FourIsUtf8(c, more);
    }
  }

  /** The encoder's output is UTF-8 exactly when no surrogate stands alone. */
  lemma {:induction false} EncodedIsUtf8(t: seq<u16>)
    ensures IsUtf8(Encode(t)) <==> WellFormed(t)
    decreases |t|
  {
    hide CodePointAt, EncodeCode, CharLength, IsHigh, IsLow;
    if t != [] {
      var c := CodePointAt(t);
      CodePointParts(t);
      var rest := t[Units(c)..];
      EncodedIsUtf8(rest);
      var head, more := EncodeCode(c), Encode(rest);
      CodeIsUtf8(c, more);
      assert (head + more)[|head|..] == more;
    }
  }

  // ----- Every UTF-8 string is decoded and comes back

  /** The six bits of a continuation byte. */
  lemma ContinuationBits(s: seq<byte>, i: nat)
    requires i < |s| && IsContinuation(s[i])
    ensures Low6(s, i) == s[i] - 0x80
  {
  }

  lemma CharOfTwo(s: seq<byte>)
    requires CharLength(s) == 2
    ensures EncodeCode(CodeAt(s)) == s[..2] && CodeAt(s) < 0x800 && LeadLength(s[0]) == 2
  {
    hide Low6, EncodeCode;
    ContinuationBits(s, 1);
    TwoBack(s[0] - 0xC0, s[1] - 0x80);
  }

  lemma CharOfThree(s: seq<byte>)
    requires CharLength(s) == 3
    ensures EncodeCode(CodeAt(s)) == s[..3] && LeadLength(s[0]) == 3
    ensures CodeAt(s) < 0x1_0000 && !IsHigh(CodeAt(s)) && !IsLow(CodeAt(s))
  {
    hide Low6, EncodeCode;
    ContinuationBits(s, 1);
    ContinuationBits(s, 2);
    ThreeBack(s[0] - 0xE0, s[1] - 0x80, s[2] - 0x80);
  }

  lemma CharOfFour(s: seq<byte>)
    requires CharLength(s) == 4
    ensures EncodeCode(CodeAt(s)) == s[..4] && 0x1_0000 <= CodeAt(s) < 0x11_0000 && LeadLength(s[0]) == 4
  {
    hide Low6, EncodeCode;
    ContinuationBits(s, 1);
    ContinuationBits(s, 2);
    ContinuationBits(s, 3);
    FourBack(s[0] - 0xF0, s[1] - 0x80, s[2] - 0x80, s[3] - 0x80);
  }

  lemma CharOfOne(s: seq<byte>)
    requires CharLength(s) == 1
    ensures CodeAt(s) == s[0] < 0x80 && EncodeCode(CodeAt(s)) == s[..1] && LeadLength(s[0]) == 1
  {
  }

  /** The number assembled from a well-formed character is a code point that is encoded as it was. */
  lemma CharRoundTrip(s: seq<byte>)
    requires CharLength(s) > 0
    ensures LeadLength(s[0]) == CharLength(s)
    ensures CodeAt(s) < 0x11_0000 && !IsHigh(CodeAt(s)) && !IsLow(CodeAt(s))
    ensures EncodeCode(CodeAt(s)) == s[..CharLength(s)]
  {
    hide CharLength, CodeAt, EncodeCode, LeadLength;
    var n := CharLength(s);
    if n == 1 {
      CharOfOne(s);
    } else if n == 2 {
      CharOfTwo(s);
    } else if n == 3 {
      CharOfThree(s);
    } else {
      CharOfFour(s);
    }
  }

  lemma TwoBack(x: nat, y: nat)
    requires 2 <= x < 32 && y < 64
    ensures EncodeCode(x * 64 + y) == [0xC0 + x, 0x80 + y]
  {
    SixBits(x * 64 + y, x, y);
  }

  lemma ThreeBack(x: nat, y: nat, z: nat)
    requires x < 16 && y < 64 && z < 64 && (x == 0 ==> 32 <= y)
    ensures EncodeCode(x * 0x1000 + y * 64 + z) == [0xE0 + x, 0x80 + y, 0x80 + z]
  {
    var c := x * 0x1000 + y * 64 + z;
    SixBits(c, x * 64 + y, z);
    SixBits(x * 64 + y, x, y);
    ShiftTwice(c);
  }

  lemma FourBack(w: nat, x: nat, y: nat, z: nat)
    requires w < 5 && x < 64 && y < 64 && z < 64 && (w == 0 ==> 16 <= x) && (w == 4 ==> x < 16)
    ensures EncodeCode(w * 0x4_0000 + x * 0x1000 + y * 64 + z) == [0xF0 + w, 0x80 + x, 0x80 + y, 0x80 + z]
  {
    var c := w * 0x4_0000 + x * 0x1000 + y * 64 + z;
    var c6, c12 := w * 0x1000 + x * 64 + y, w * 64 + x;
    SixBits(c, c6, z);
    SixBits(c6, c12, y);
    SixBits(c12, w, x);
    ShiftTwice(c);
    ShiftTwice(c6);
    ShiftThrice(c);
  }

  /** A code point that is no surrogate is read back from its own units, whatever follows. */
  lemma UnitsRoundTrip(c: CodePoint, more: seq<u16>)
    requires !IsHigh(c) && !IsLow(c)
    ensures CodePointAt(FromCodePoint(c) + more) == c
  {
  }

  /**
   * The decoder accepts every UTF-8 string of section 4 of RFC 3629, gives text without a lone
   * surrogate, and encoding that text gives the same bytes.
   */
  lemma {:induction false} Utf8RoundTrip(b: seq<byte>)
    requires IsUtf8(b)
    ensures Decode(b).Ok? && WellFormed(Decode(b).value) && Encode(Decode(b).value) == b
    decreases |b|
  {
    hide CharLength, CodeAt, EncodeCode, FromCodePoint, CodePointAt, LeadLength, IsHigh, IsLow;
    if b != [] {
      var n := CharLength(b);
      CharRoundTrip(b);
      Utf8RoundTrip(b[n..]);
      var c, rest := CodeAt(b), Decode(b[n..]).value;
      UnitsRoundTrip(c, rest);
      var t := FromCodePoint(c) + rest;
      assert Decode(b) == Ok(t);
      assert t[Units(c)..] == rest;
      assert b == b[..n] + b[n..];
    }
  }
}
