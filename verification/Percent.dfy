/** Percent coding: the socket-URI sanitiser, the query encoder and the decoder that undoes both. */
module Percent {
  import opened Bytes
  import opened Utf8

  const PERCENT: byte := 0x25
  const PLUS: byte := 0x2B

  predicate IsAlphanumeric(b: byte) {
    0x30 <= b <= 0x39 || 0x41 <= b <= 0x5A || 0x61 <= b <= 0x7A
  }

  /** `is_uri_safe` on a one-byte character; longer characters are never safe. */
  predicate IsUriSafe(b: byte) {
    IsAlphanumeric(b) ||
    b in {0x2D, 0x2E, 0x5F, 0x7E, 0x3A, 0x2F, 0x3F, 0x23, 0x5B, 0x5D, 0x40, 0x21, 0x24, 0x26, 0x27,
          0x28, 0x29, 0x2A, 0x2B, 0x2C, 0x3B, 0x3D, 0x25}
  }

  /** The unreserved characters of section 2.3 of RFC 3986. */
  predicate IsUnreserved(b: byte) {
    IsAlphanumeric(b) || b in {0x2D, 0x5F, 0x2E, 0x7E}
  }

  /** The five characters that `encodeURIComponent` copies and `percent_encode` does not: ! * ' ( ) */
  predicate IsMark(b: byte) {
    b in {0x21, 0x2A, 0x27, 0x28, 0x29}
  }

  /** The delimiters that section 2.2 of RFC 3986 reserves, general ones first. */
  const RESERVED: string := ":/?#[]@!$&'()*+,;="

  /** A URI keeps its letters and digits, what the standard leaves unreserved or reserves, and the percent sign. */
  lemma UriSafeIs(b: byte)
    ensures IsUriSafe(b) <==> IsUnreserved(b) || b == PERCENT || (b < 0x80 && (b as char) in RESERVED)
    ensures IsUnreserved(b) <==> IsAlphanumeric(b) || (b < 0x80 && (b as char) in "-._~")
    ensures IsAlphanumeric(b) <==>
            b < 0x80 && var c := b as char; 'A' <= c <= 'Z' || 'a' <= c <= 'z' || '0' <= c <= '9'
  {
  }

  /** Escapes are written with the upper-case digits. */
  lemma HexDigitIs(n: int)
    requires 0 <= n < 16
    ensures HexDigit(n) as char == "0123456789ABCDEF"[n]
  {
  }

  /** Which bytes an encoder copies unchanged; `Component` is the set of `encodeURIComponent`. */
  datatype Charset = UriSafe | Unreserved | Component

  predicate Keeps(c: Charset, b: byte)
    ensures c == UriSafe && b == PERCENT ==> Keeps(c, b)
    ensures c == Unreserved ==> (Keeps(c, b) <==> IsUnreserved(b))
    ensures c == UriSafe ==> (Keeps(c, b) <==> IsUriSafe(b))
    ensures c == Component ==> (Keeps(c, b) <==> IsUnreserved(b) || IsMark(b))
    ensures Keeps(c, b) ==> b < 0x80
  {
    match c
    case UriSafe => IsUriSafe(b)
    case Unreserved => IsUnreserved(b)
    case Component => IsUnreserved(b) || IsMark(b)
  }

  predicate AllKept(c: Charset, s: seq<byte>) {
    forall i :: 0 <= i < |s| ==> Keeps(c, s[i])
  }

  // ----- Hexadecimal

  function HexDigit(n: int): (b: byte)
    requires 0 <= n < 16
    ensures HexValue(b) == Some(n) && IsAlphanumeric(b)
  {
    if n < 10 then 0x30 + n else 0x41 + (n - 10)
  }

  function HexValue(b: byte): (r: Option<int>)
    ensures r.Some? ==> 0 <= r.value < 16 && IsAlphanumeric(b)
  {
    if 0x30 <= b <= 0x39 then Some(b - 0x30)
    else if 0x41 <= b <= 0x46 then Some(b - 0x41 + 10)
    else if 0x61 <= b <= 0x66 then Some(b - 0x61 + 10)
    else None
  }

  /** `u8::from_str_radix` at base 16 on two bytes: a leading plus sign is accepted, a minus is not. */
  function FromHexPair(a: byte, b: byte): (r: Option<byte>)
    ensures r.Some? ==> HexValue(b).Some? && (HexValue(a).Some? || a == PLUS)
  {
    if a == PLUS then HexValue(b)
    else if HexValue(a).Some? && HexValue(b).Some? then Some(16 * HexValue(a).value + HexValue(b).value)
    else None
  }

  // ----- Encoding

  function EscapeByte(c: Charset, b: byte): (r: seq<byte>)
    ensures Keeps(c, b) ==> r == [b]
    ensures !Keeps(c, b) ==> |r| == 3 && r[0] == PERCENT && FromHexPair(r[1], r[2]) == Some(b)
    ensures !Keeps(c, b) ==> IsAlphanumeric(r[1]) && IsAlphanumeric(r[2])
  {
    if Keeps(c, b) then [b] else [PERCENT, HexDigit(b / 16), HexDigit(b % 16)]
  }

  function Escape(c: Charset, s: seq<byte>): seq<byte> {
    if s == [] then [] else EscapeByte(c, s[0]) + Escape(c, s[1..])
  }

  lemma {:induction false} EscapeSnoc(c: Charset, s: seq<byte>, b: byte)
    ensures Escape(c, s + [b]) == Escape(c, s) + EscapeByte(c, b)
  {
    hide EscapeByte;
    if s == [] {
      assert (s + [b])[1..] == [] && Escape(c, []) == [];
    } else {
      EscapeSnoc(c, s[1..], b);
      assert (s + [b])[1..] == s[1..] + [b] && (s + [b])[0] == s[0];
      var x, y, z := EscapeByte(c, s[0]), Escape(c, s[1..]), EscapeByte(c, b);
      assert x + (y + z) == (x + y) + z;
    }
  }

  lemma {:induction false} EscapeIsAscii(c: Charset, s: seq<byte>)
    ensures IsAscii(Escape(c, s))
  {
    hide EscapeByte, Keeps;
    if s != [] {
      EscapeIsAscii(c, s[1..]);
    }
  }

  /** Escaping leaves a string alone exactly when every byte of it may stay. */
  lemma {:induction false} EscapeKeeps(c: Charset, s: seq<byte>)
    ensures |Escape(c, s)| >= |s|
    ensures Escape(c, s) == s <==> AllKept(c, s)
  {
    hide EscapeByte, Keeps;
    if s != [] {
      EscapeKeeps(c, s[1..]);
      if AllKept(c, s) {
        assert AllKept(c, s[1..]);
      } else if Keeps(c, s[0]) {
        assert !AllKept(c, s[1..]);
        assert Escape(c, s)[1..] == Escape(c, s[1..]);
      }
    }
  }

  // ----- Decoding

  predicate IsEscape(s: seq<byte>) {
    |s| > 2 && s[0] == PERCENT && FromHexPair(s[1], s[2]).Some?
  }

  /** The bytes that `%XX` escapes stand for; anything else stands for itself. */
  function RawDecode(s: seq<byte>): seq<byte> {
    if s == [] then []
    else if IsEscape(s) then [FromHexPair(s[1], s[2]).value] + RawDecode(s[3..])
    else [s[0]] + RawDecode(s[1..])
  }

  // Section 2.1 of RFC 3986 knows only pairs of hexadecimal digits.

  predicate IsDigitPair(s: seq<byte>) {
    |s| > 2 && s[0] == PERCENT && HexValue(s[1]).Some? && HexValue(s[2]).Some?
  }

  function DigitsDecode(s: seq<byte>): seq<byte> {
    if s == [] then []
    else if IsDigitPair(s) then [FromHexPair(s[1], s[2]).value] + DigitsDecode(s[3..])
    else [s[0]] + DigitsDecode(s[1..])
  }

  predicate PlusEscapeAt(s: seq<byte>, i: int) {
    0 <= i < |s| - 2 && s[i] == PERCENT && s[i + 1] == PLUS && HexValue(s[i + 2]).Some?
  }

  ghost predicate HasPlusEscape(s: seq<byte>) {
    exists i :: PlusEscapeAt(s, i)
  }

  lemma PlusEscapeBeyond(s: seq<byte>, n: nat)
    requires n <= |s| && forall i :: 0 <= i < n ==> !PlusEscapeAt(s, i)
    ensures HasPlusEscape(s) <==> HasPlusEscape(s[n..])
  {
    hide HexValue;
    var rest := s[n..];
    if i :| PlusEscapeAt(s, i) {
      assert PlusEscapeAt(rest, i - n);
    }
    if i :| PlusEscapeAt(rest, i) {
      assert PlusEscapeAt(s, n + i);
    }
  }

  lemma PlusIsLonger(s: seq<byte>)
    requires PlusEscapeAt(s, 0)
    ensures |DigitsDecode(s)| == 3 + |DigitsDecode(s[3..])|
    ensures IsEscape(s) && !IsDigitPair(s)
  {
    assert s[1..][1..] == s[2..] && s[2..][1..] == s[3..];
    assert s[1] != PERCENT && s[2] != PERCENT;
    assert HexValue(PLUS) == None;
    assert |DigitsDecode(s[2..])| == 1 + |DigitsDecode(s[3..])|;
    assert |DigitsDecode(s[1..])| == 1 + |DigitsDecode(s[2..])|;
  }

  /** The decoder follows the standard exactly when no percent sign is followed by a plus and a digit. */
  lemma {:induction false} DecodesByTheBookIff(s: seq<byte>)
    ensures RawDecode(s) == DigitsDecode(s) <==> !HasPlusEscape(s)
    ensures |RawDecode(s)| <= |DigitsDecode(s)| && (HasPlusEscape(s) ==> |RawDecode(s)| < |DigitsDecode(s)|)
    decreases |s|
  {
    hide HexValue, HasPlusEscape;
    if s == [] {
      NoPlusInNothing();
    } else if PlusEscapeAt(s, 0) {
      PlusIsLonger(s);
      DecodesByTheBookIff(s[3..]);
      assert HasPlusEscape(s) by { PlusInFront(s); }
    } else if IsDigitPair(s) {
      NotPercent(s[1], s[2]);
      PlusEscapeBeyond(s, 3);
      DecodesByTheBookIff(s[3..]);
      assert s[1] != PLUS by { PlusIsNoDigit(); }
    } else {
      PlusEscapeBeyond(s, 1);
      DecodesByTheBookIff(s[1..]);
    }
  }

  lemma NoPlusInNothing()
    ensures !HasPlusEscape([])
  {
  }

  lemma PlusInFront(s: seq<byte>)
    requires PlusEscapeAt(s, 0)
    ensures HasPlusEscape(s)
  {
  }

  lemma PlusIsNoDigit()
    ensures HexValue(PLUS) == None
  {
  }

  /** `%+4` is such a string: the byte 4 here, itself by the standard. */
  lemma PlusEscapeIsDecoded()
    ensures var s := [PERCENT, PLUS, 0x34];
            RawDecode(s) == [4] && DigitsDecode(s) == s
  {
    var s := [PERCENT, PLUS, 0x34];
    assert s[3..] == [] && s[1..][1..] == s[2..] && s[2..][1..] == [];
    assert DigitsDecode(s[2..]) == [0x34];
    assert DigitsDecode(s[1..]) == [PLUS] + DigitsDecode(s[2..]);
  }

  /** Some `%` is followed, three bytes on, by the inside of a character: the slice there panics. */
  predicate CutsCharacter(s: seq<byte>) {
    exists i :: 0 <= i < |s| - 3 && s[i] == PERCENT && IsContinuation(s[i + 3])
  }

  datatype Fault = SlicePanic

  /** Undecodable bytes give the original back; cutting a character panics. */
  function Decoded(s: Str): Result<Str, Fault> {
    if CutsCharacter(s) then Err(SlicePanic)
    else if IsUtf8(RawDecode(s)) then Ok(RawDecode(s)) else Ok(s)
  }

  /** What the walk does at `index`: one escape, or one byte that stands for itself. */
  lemma DecodeStep(value: seq<byte>, index: nat)
    requires index < |value|
    ensures var rest := value[index..];
            RawDecode(rest) ==
              if IsEscape(rest)
              then [FromHexPair(value[index + 1], value[index + 2]).value] + RawDecode(value[index + 3..])
              else [value[index]] + RawDecode(value[index + 1..])
    ensures IsEscape(value[index..]) ==> value[index + 1] != PERCENT && value[index + 2] != PERCENT
  {
    var rest := value[index..];
    assert rest[1..] == value[index + 1..];
    if IsEscape(rest) {
      assert rest[3..] == value[index + 3..];
      NotPercent(rest[1], rest[2]);
    }
  }

  /** No `%` before `index` is badly placed. */
  predicate UncutBefore(value: seq<byte>, index: nat) {
    forall i :: 0 <= i < index && i < |value| - 3 && value[i] == PERCENT ==> !IsContinuation(value[i + 3])
  }

  /** `percent_decode`: the walk slices a character exactly when some `%` is badly placed. */
  method PercentDecode(value: Str) returns (r: Result<Str, Fault>)
    ensures r == Decoded(value)
  {
    hide IsUtf8, FromHexPair, RawDecode, IsContinuation;
    var out: seq<byte> := [];
    var index := 0;
    assert value[0..] == value;
    while index < |value|
      invariant index <= |value|
      invariant out + RawDecode(value[index..]) == RawDecode(value)
      invariant UncutBefore(value, index)
    {
      DecodeStep(value, index);
      if value[index] == PERCENT && index + 2 < |value| {
        if index + 3 < |value| && IsContinuation(value[index + 3]) {
          return Err(SlicePanic);
        }
        var pair := FromHexPair(value[index + 1], value[index + 2]);
        if pair.Some? {
          out := out + [pair.value];
          index := index + 3;
        } else {
          out := out + [PERCENT];
          index := index + 1;
        }
      } else {
        out := out + [value[index]];
        index := index + 1;
      }
    }
    NothingLeft(value, index);
    assert out == RawDecode(value);
    r := Ok(if IsUtf8(out) then out else value);
  }

  lemma NothingLeft(value: seq<byte>, index: nat)
    requires index == |value|
    ensures RawDecode(value[index..]) == []
  {
  }

  /** The bytes an escape skips are never another `%`. */
  lemma NotPercent(a: byte, b: byte)
    requires FromHexPair(a, b).Some?
    ensures a != PERCENT && b != PERCENT
  {
  }

  /** A string that reaches the panic: a percent sign, the letter a, and an e with an acute accent. */
  lemma PanicIsReached()
    ensures var s := [PERCENT, 0x61, 0xC3, 0xA9];
            IsUtf8(s) && Decoded(s) == Err(SlicePanic)
  {
    var s := [PERCENT, 0x61, 0xC3, 0xA9];
    assert s[1..][1..] == s[2..] && s[2..][2..] == [];
    assert CharLength(s) == 1 && CharLength(s[1..]) == 1 && CharLength(s[2..]) == 2;
    assert IsUtf8(s[2..]);
    assert IsUtf8(s[1..]);
    assert s[0] == PERCENT && IsContinuation(s[0 + 3]);
  }

  // ----- percent_encode

  method PercentEncode(s: Str) returns (out: Str)
    ensures out == Escape(Unreserved, s)
  {
    hide EscapeByte, IsUtf8, Escape, IsUnreserved;
    EscapeNothing(Unreserved);
    out := [];
    for i := 0 to |s|
      invariant out == Escape(Unreserved, s[..i])
    {
      EscapeNext(Unreserved, s, i);
      if Keeps(Unreserved, s[i]) {
        out := out + [s[i]];
      } else {
        out := out + [PERCENT, HexDigit(s[i] / 16), HexDigit(s[i] % 16)];
      }
    }
    assert s[..|s|] == s;
  }

  /** Decoding undoes any encoder that escapes the percent sign itself. */
  lemma {:induction false} RawDecodeInverts(c: Charset, s: seq<byte>)
    requires !Keeps(c, PERCENT)
    ensures RawDecode(Escape(c, s)) == s
  {
    hide FromHexPair;
    if s != [] {
      RawDecodeInverts(c, s[1..]);
      var e := EscapeByte(c, s[0]);
      var t := Escape(c, s[1..]);
      assert (e + t)[|e|..] == t;
    }
  }

  /** `percent_encode` writes what `encodeURIComponent` writes exactly when there is no mark to escape. */
  lemma {:induction false} EncodesAlikeIff(s: seq<byte>)
    ensures Escape(Unreserved, s) == Escape(Component, s) <==> forall i :: 0 <= i < |s| ==> !IsMark(s[i])
  {
    hide EscapeByte, IsUnreserved;
    if s != [] {
      EncodesAlikeIff(s[1..]);
      MarksAreEscaped(s[0]);
      var a, b := EscapeByte(Unreserved, s[0]), EscapeByte(Component, s[0]);
      var x, y := Escape(Unreserved, s[1..]), Escape(Component, s[1..]);
      assert (a + x)[0] == a[0] && (b + y)[0] == b[0];
      if a == b {
        assert (a + x)[|a|..] == x && (a + y)[|a|..] == y;
        assert s == [s[0]] + s[1..];
      }
    }
  }

  lemma MarksAreEscaped(b: byte)
    ensures var u, v := EscapeByte(Unreserved, b), EscapeByte(Component, b);
            u != [] && v != [] && (if IsMark(b) then u[0] != v[0] else u == v)
  {
  }

  /** A lone exclamation mark is such an input: `%21` here, unchanged there. */
  lemma EncodesApart()
    ensures Escape(Unreserved, [0x21]) == [PERCENT, 0x32, 0x31] && Escape(Component, [0x21]) == [0x21]
  {
    assert [0x21][1..] == [];
  }

  lemma AsciiNeverCut(s: seq<byte>)
    requires IsAscii(s)
    ensures !CutsCharacter(s)
  {
  }

  /** `percent_decode` inverts `percent_encode` on every string. */
  lemma DecodeInvertsEncode(s: Str)
    ensures IsUtf8(Escape(Unreserved, s)) && Decoded(Escape(Unreserved, s)) == Ok(s)
  {
    hide IsUtf8, EscapeByte;
    EscapeIsAscii(Unreserved, s);
    AsciiIsUtf8(Escape(Unreserved, s));
    AsciiNeverCut(Escape(Unreserved, s));
    RawDecodeInverts(Unreserved, s);
  }

  // ----- sanitize_uri

  /** The front character of a string: its bytes, and whether it may stay in a URI. */
  lemma CharIsSafe(s: Str)
    requires s != []
    ensures var n := CharLength(s);
            && 0 < n <= |s| && IsUtf8(s[n..])
            && (n > 1 ==> forall i :: 0 <= i < n ==> s[i] >= 0x80)
  {
  }

  /** `uri.chars().all(is_uri_safe)` */
  method AllSafe(uri: Str) returns (safe: bool)
    ensures safe <==> AllKept(UriSafe, uri)
  {
    hide IsUtf8, CharLength, IsUriSafe;
    var i := 0;
    assert uri[0..] == uri;
    while i < |uri|
      invariant i <= |uri| && IsUtf8(uri[i..])
      invariant forall j :: 0 <= j < i ==> Keeps(UriSafe, uri[j])
      decreases |uri| - i
    {
      CharIsSafe(uri[i..]);
      var n := CharLength(uri[i..]);
      if n != 1 || !Keeps(UriSafe, uri[i]) {
        assert uri[i..][0] == uri[i];
        return false;
      }
      assert uri[i..][n..] == uri[i + n..];
      i := i + n;
    }
    return true;
  }

  /** The loop over characters: a safe one is copied, every byte of another is escaped. */
  method SanitizeUri(uri: Str) returns (out: Str)
    ensures out == Escape(UriSafe, uri)
  {
    hide EscapeByte, IsUtf8, CharLength, IsUriSafe, Escape;
    var safe := AllSafe(uri);
    if safe {
      EscapeKeeps(UriSafe, uri);
      return uri;
    }
    var i := 0;
    EscapeNothing(UriSafe);
    out := [];
    assert uri[..0] == [] && uri[0..] == uri;
    while i < |uri|
      invariant i <= |uri| && IsUtf8(uri[i..])
      invariant out == Escape(UriSafe, uri[..i])
      decreases |uri| - i
    {
      CharIsSafe(uri[i..]);
      var n := CharLength(uri[i..]);
      assert uri[i..][n..] == uri[i + n..];
      if n == 1 && Keeps(UriSafe, uri[i]) {
        EscapeNext(UriSafe, uri, i);
        out := out + [uri[i]];
      } else {
        assert n > 1 ==> forall j :: 0 <= j < n ==> uri[i..][j] == uri[i + j];
        for j := i to i + n
          invariant out == Escape(UriSafe, uri[..j])
        {
          assert uri[j] == uri[i..][j - i];
          EscapeNext(UriSafe, uri, j);
          out := out + [PERCENT, HexDigit(uri[j] / 16), HexDigit(uri[j] % 16)];
        }
      }
      i := i + n;
    }
    assert uri[..i] == uri;
  }

  lemma EscapeNothing(c: Charset)
    ensures IsUtf8([]) && Escape(c, []) == []
  {
  }

  lemma EscapeNext(c: Charset, s: seq<byte>, i: nat)
    requires i < |s|
    ensures IsUtf8(Escape(c, s[..i + 1]))
    ensures Escape(c, s[..i + 1]) ==
              Escape(c, s[..i]) + if Keeps(c, s[i]) then [s[i]] else [PERCENT, HexDigit(s[i] / 16), HexDigit(s[i] % 16)]
  {
    hide IsUtf8, Escape, Keeps;
    EscapeSnoc(c, s[..i], s[i]);
    assert s[..i] + [s[i]] == s[..i + 1];
    EscapeIsAscii(c, s[..i + 1]);
    AsciiIsUtf8(Escape(c, s[..i + 1]));
  }

  lemma {:induction false} SanitizedIsSafe(u: seq<byte>)
    ensures AllKept(UriSafe, Escape(UriSafe, u))
  {
    if u != [] {
      SanitizedIsSafe(u[1..]);
    }
  }

  /** Sanitising again changes nothing. */
  lemma SanitizeIdempotent(u: seq<byte>)
    ensures Escape(UriSafe, Escape(UriSafe, u)) == Escape(UriSafe, u)
  {
    SanitizedIsSafe(u);
    EscapeKeeps(UriSafe, Escape(UriSafe, u));
  }

  /** A `%` that starts no escape starts none after the bytes behind it are escaped either. */
  lemma StrayPercentStays(u: seq<byte>)
    requires u != [] && u[0] == PERCENT
    ensures IsEscape(Escape(UriSafe, u)) <==> IsEscape(u)
    ensures IsEscape(u) ==>
              var e := Escape(UriSafe, u);
              e[1] == u[1] && e[2] == u[2] && e[3..] == Escape(UriSafe, u[3..])
  {
    hide HexValue, IsAlphanumeric, EscapeByte, IsUriSafe;
    var e := Escape(UriSafe, u);
    var e1 := Escape(UriSafe, u[1..]);
    assert e == [PERCENT] + e1;
    if |u| > 1 {
      var e2 := Escape(UriSafe, u[2..]);
      assert u[1..][1..] == u[2..];
      assert e1 == EscapeByte(UriSafe, u[1]) + e2;
      PercentIsNoDigit();
      if |u| > 2 {
        assert u[2..][1..] == u[3..];
        assert e2 == EscapeByte(UriSafe, u[2]) + Escape(UriSafe, u[3..]);
        if Keeps(UriSafe, u[1]) && Keeps(UriSafe, u[2]) {
          assert e[3..] == Escape(UriSafe, u[3..]);
        }
      }
    }
  }

  lemma PercentIsNoDigit()
    ensures HexValue(PERCENT) == None
    ensures forall b: byte :: HexValue(b).Some? || b == PLUS ==> Keeps(UriSafe, b)
  {
  }

  /** Sanitising keeps the bytes a URI stands for, whatever stray or incomplete escapes it holds. */
  lemma {:induction false} SanitizeKeepsMeaning(u: seq<byte>)
    ensures RawDecode(Escape(UriSafe, u)) == RawDecode(u)
    decreases |u|
  {
    hide FromHexPair;
    if u != [] {
      var e := EscapeByte(UriSafe, u[0]);
      var t := Escape(UriSafe, u[1..]);
      assert (e + t)[|e|..] == t;
      if u[0] == PERCENT {
        StrayPercentStays(u);
        if IsEscape(u) {
          SanitizeKeepsMeaning(u[3..]);
        } else {
          SanitizeKeepsMeaning(u[1..]);
        }
      } else {
        SanitizeKeepsMeaning(u[1..]);
      }
    }
  }

  /**
   * Decoding the sanitised URI as a string never panics. It gives what decoding the original gives
   * exactly when the original does not panic (no ASCII URI does) and either nothing needed escaping
   * or the decoded bytes are a string: otherwise each side falls back to its own undecoded text.
   */
  lemma SanitizedDecodesAlike(u: Str)
    ensures IsUtf8(Escape(UriSafe, u)) && Decoded(Escape(UriSafe, u)).Ok?
    ensures Decoded(Escape(UriSafe, u)) == Decoded(u) <==>
            !CutsCharacter(u) && (AllKept(UriSafe, u) || IsUtf8(RawDecode(u)))
  {
    hide IsUtf8, EscapeByte, RawDecode, Escape;
    EscapeIsAscii(UriSafe, u);
    AsciiIsUtf8(Escape(UriSafe, u));
    AsciiNeverCut(Escape(UriSafe, u));
    SanitizeKeepsMeaning(u);
    EscapeKeeps(UriSafe, u);
  }

  /** A percent sign, two letters F and a space. */
  const BROKEN: seq<byte> := [PERCENT, 0x46, 0x46, 0x20]

  lemma BrokenIsUndecodable()
    ensures IsUtf8(BROKEN) && !CutsCharacter(BROKEN) && !IsUtf8(RawDecode(BROKEN))
  {
    hide IsUriSafe;
    AsciiIsUtf8(BROKEN);
    AsciiNeverCut(BROKEN);
    assert FromHexPair(0x46, 0x46) == Some(0xFF);
    assert RawDecode(BROKEN) == [0xFF] + RawDecode(BROKEN[3..]);
    assert CharLength(RawDecode(BROKEN)) == 0;
  }

  lemma BrokenIsEscaped()
    ensures Escape(UriSafe, BROKEN) == BROKEN[..3] + [PERCENT, 0x32, 0x30]
  {
    hide RawDecode, IsUtf8;
    var u := BROKEN;
    assert u[1..][1..] == u[2..] && u[2..][1..] == u[3..] && u[3..][1..] == [];
    assert Escape(UriSafe, u[3..]) == [PERCENT, 0x32, 0x30];
    assert Escape(UriSafe, u[2..]) == [0x46] + Escape(UriSafe, u[3..]);
    assert Escape(UriSafe, u[1..]) == [0x46] + Escape(UriSafe, u[2..]);
  }

  /** `%FF ` is such a URI: it decodes to itself, its sanitised form to `%FF%20`. */
  lemma SanitizedDecodesApart()
    ensures && IsUtf8(BROKEN) && Decoded(BROKEN) == Ok(BROKEN) && IsUtf8(Escape(UriSafe, BROKEN))
            && Decoded(Escape(UriSafe, BROKEN)) == Ok(BROKEN[..3] + [PERCENT, 0x32, 0x30])
  {
    hide RawDecode, IsUtf8, Escape, CutsCharacter;
    BrokenIsUndecodable();
    BrokenIsEscaped();
    SanitizeKeepsMeaning(BROKEN);
    SanitizedDecodesAlike(BROKEN);
  }
}
