/** What it takes for bytes to be a Rust `String`: the well-formed UTF-8 of section 4 of RFC 3629. */
module Utf8 {
  import opened Bytes

  predicate IsContinuation(b: byte) {
    0x80 <= b < 0xC0
  }

  /** Length of the character at the front of `s`, or 0 when no well-formed character starts there. */
  function CharLength(s: seq<byte>): (n: nat)
    ensures n <= |s| && n <= 4
  {
    if |s| == 0 then 0
    else if s[0] < 0x80 then 1
    else if |s| >= 2 && 0xC2 <= s[0] < 0xE0 && IsContinuation(s[1]) then 2
    else if |s| >= 3 && 0xE0 <= s[0] < 0xF0 && IsContinuation(s[1]) && IsContinuation(s[2])
            && (s[0] == 0xE0 ==> 0xA0 <= s[1]) && (s[0] == 0xED ==> s[1] < 0xA0) then 3
    else if |s| >= 4 && 0xF0 <= s[0] < 0xF5 && IsContinuation(s[1]) && IsContinuation(s[2])
            && IsContinuation(s[3])
            && (s[0] == 0xF0 ==> 0x90 <= s[1]) && (s[0] == 0xF4 ==> s[1] < 0x90) then 4
    else 0
  }

  /** `std::str::from_utf8` succeeds. */
  predicate IsUtf8(s: seq<byte>) {
    s == [] || (CharLength(s) > 0 && IsUtf8(s[CharLength(s)..]))
  }

  /** A Rust string, held as its bytes. */
  type Str = s: seq<byte> | IsUtf8(s) witness []

  predicate IsAscii(s: seq<byte>) {
    forall i :: 0 <= i < |s| ==> s[i] < 0x80
  }

  lemma {:induction false} AsciiIsUtf8(s: seq<byte>)
    requires IsAscii(s)
    ensures IsUtf8(s)
  {
    if s != [] {
      AsciiIsUtf8(s[1..]);
    }
  }

  /** The length of a character depends on its own bytes only. */
  lemma CharLengthOfPrefix(s: seq<byte>, i: nat)
    requires CharLength(s) <= i <= |s|
    ensures CharLength(s) > 0 ==> CharLength(s[..i]) == CharLength(s)
  {
  }

  /** A one-byte character is never inside another character. */
  lemma AsciiIsOutside(s: seq<byte>, i: nat)
    requires 0 < i < |s| && s[i] < 0x80
    ensures CharLength(s) <= i
  {
  }

  lemma SlicesOfSlices(s: seq<byte>, n: nat, i: nat)
    requires n <= i < |s|
    ensures s[n..][..i - n] == s[..i][n..] && s[n..][i - n + 1..] == s[i + 1..] && s[n..][i - n] == s[i]
  {
  }

  /** Cutting a string at a one-byte character leaves a string on either side. */
  lemma {:induction false} SplitAtAscii(s: seq<byte>, i: nat)
    requires IsUtf8(s) && i < |s| && s[i] < 0x80
    ensures IsUtf8(s[..i]) && IsUtf8(s[i + 1..])
    decreases |s|
  {
    if i == 0 {
      FrontIsAscii(s);
    } else {
      hide CharLength;
      var n := CharLength(s);
      AsciiIsOutside(s, i);
      SlicesOfSlices(s, n, i);
      SplitAtAscii(s[n..], i - n);
      CharLengthOfPrefix(s, i);
    }
  }

  lemma FrontIsAscii(s: seq<byte>)
    requires IsUtf8(s) && s != [] && s[0] < 0x80
    ensures IsUtf8(s[..0]) && IsUtf8(s[1..])
  {
  }
}
