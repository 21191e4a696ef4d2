/** Query strings: ordered pairs with duplicates, encoded as `k=v&k=v` and parsed back. */
module Query {
  import opened Bytes
  import opened Utf8
  import opened Percent

  const AMPERSAND: byte := 0x26
  const EQUALS: byte := 0x3D
  const QUESTION: byte := 0x3F

  datatype Pair = Pair(key: Str, value: Str)

  // ----- Setting and getting

  /** Where `key` first occurs, or the number of pairs. */
  function FirstKey(q: seq<Pair>, key: Str): (i: nat)
    ensures i <= |q| && (i < |q| ==> q[i].key == key)
    ensures forall j :: 0 <= j < i ==> q[j].key != key
  {
    if q == [] || q[0].key == key then 0 else 1 + FirstKey(q[1..], key)
  }

  function Lookup(q: seq<Pair>, key: Str): Option<Str> {
    var i := FirstKey(q, key);
    if i < |q| then Some(q[i].value) else None
  }

  function WithPair(q: seq<Pair>, key: Str, value: Str): seq<Pair> {
    var i := FirstKey(q, key);
    if i < |q| then q[i := Pair(key, value)] else q + [Pair(key, value)]
  }

  function Keys(q: seq<Pair>): seq<Str> {
    seq(|q|, i requires 0 <= i < |q| => q[i].key)
  }

  lemma FirstKeyIs(q: seq<Pair>, key: Str, i: nat)
    requires i <= |q| && (i < |q| ==> q[i].key == key)
    requires forall j :: 0 <= j < i ==> q[j].key != key
    ensures FirstKey(q, key) == i
  {
  }

  /** Setting a key changes what that key gives, no other key, and no position. */
  lemma SetThenGet(q: seq<Pair>, key: Str, value: Str, other: Str)
    ensures var q' := WithPair(q, key, value);
            && Lookup(q', key) == Some(value)
            && (other != key ==> Lookup(q', other) == Lookup(q, other))
            && Keys(q') == Keys(q) + if Lookup(q, key).Some? then [] else [key]
  {
    hide FirstKey, IsUtf8;
    var q' := WithPair(q, key, value);
    FirstKeyIs(q', key, FirstKey(q, key));
    if other != key {
      var i := FirstKey(q, other);
      if i < |q| || Lookup(q, key).Some? {
        FirstKeyIs(q', other, i);
      } else {
        FirstKeyIs(q', other, i + 1);
      }
    }
  }

  // ----- Encoding

  function EncodedPair(p: Pair): seq<byte> {
    Escape(Unreserved, p.key) + ([EQUALS] + Escape(Unreserved, p.value))
  }

  function Encoded(q: seq<Pair>): seq<byte> {
    if q == [] then []
    else if |q| == 1 then EncodedPair(q[0])
    else EncodedPair(q[0]) + ([AMPERSAND] + Encoded(q[1..]))
  }

  lemma {:induction false} EncodedSnoc(q: seq<Pair>, p: Pair)
    ensures Encoded(q + [p]) == if q == [] then EncodedPair(p) else Encoded(q) + ([AMPERSAND] + EncodedPair(p))
    ensures q != [] ==> Encoded(q) != []
  {
    hide EncodedPair;
    if |q| == 0 {
      assert q + [p] == [p];
    } else if |q| == 1 {
      PairNotEmpty(q[0]);
      assert (q + [p])[1..] == [p];
    } else {
      EncodedSnoc(q[1..], p);
      ConcatHead(q, [p]);
      var b, c := Encoded(q[1..]), [AMPERSAND] + EncodedPair(p);
      ConcatAssociates([AMPERSAND], b, c);
      ConcatAssociates(EncodedPair(q[0]), [AMPERSAND] + b, c);
    }
  }

  lemma EncodedNothing()
    ensures Encoded([]) == []
  {
  }

  lemma PairAppended(out: seq<byte>, k: seq<byte>, v: seq<byte>)
    ensures (if out != [] then out + [AMPERSAND] else out) + k + [EQUALS] + v ==
            if out == [] then k + ([EQUALS] + v) else out + ([AMPERSAND] + (k + ([EQUALS] + v)))
  {
  }

  lemma PairNotEmpty(p: Pair)
    ensures EncodedPair(p) != []
  {
  }

  // ----- Parsing

  /** Where `b` first occurs, or the length. */
  function Find(s: seq<byte>, b: byte): (i: nat)
    ensures i <= |s| && (i < |s| ==> s[i] == b)
    ensures forall j :: 0 <= j < i ==> s[j] != b
  {
    if s == [] || s[0] == b then 0 else 1 + Find(s[1..], b)
  }

  /** What is before and after the first `b`; all of it is before when there is none. */
  function SplitOnce(s: Str, b: byte): (r: (Str, Str))
    requires b < 0x80
  {
    var i := Find(s, b);
    if i == |s| then (s, s[i..])
    else
      SplitAtAscii(s, i);
      (s[..i], s[i + 1..])
  }

  /** `trim_start_matches('?')` */
  function Trimmed(s: Str): Str {
    if s != [] && s[0] == QUESTION then SplitAtAscii(s, 0); Trimmed(s[1..]) else s
  }

  /** One piece between ampersands: nothing when it is empty. */
  function ParsedPiece(piece: Str): Result<seq<Pair>, Fault> {
    if piece == [] then Ok([])
    else
      var (key, value) := SplitOnce(piece, EQUALS);
      if Decoded(key).Ok? && Decoded(value).Ok? then Ok([Pair(Decoded(key).value, Decoded(value).value)])
      else Err(SlicePanic)
  }

  function Append(q: seq<Pair>, r: Result<seq<Pair>, Fault>): Result<seq<Pair>, Fault> {
    if r.Ok? then Ok(q + r.value) else r
  }

  /** All pieces in order; a panic in one of them is a panic of the whole. */
  function ParsedPieces(s: Str): Result<seq<Pair>, Fault>
    decreases |s|
  {
    var (piece, rest) := SplitOnce(s, AMPERSAND);
    var first := ParsedPiece(piece);
    if first.Err? then first
    else if Find(s, AMPERSAND) == |s| then first
    else Append(first.value, ParsedPieces(rest))
  }

  function Parsed(raw: Str): Result<seq<Pair>, Fault> {
    ParsedPieces(Trimmed(raw))
  }

  method DecodePair(piece: Str) returns (r: Result<seq<Pair>, Fault>)
    ensures r == ParsedPiece(piece)
  {
    hide Decoded, SplitOnce, IsUtf8;
    if piece == [] {
      return Ok([]);
    }
    var (key, value) := SplitOnce(piece, EQUALS);
    var k := PercentDecode(key);
    if k.Err? {
      return Err(SlicePanic);
    }
    var v := PercentDecode(value);
    if v.Err? {
      return Err(SlicePanic);
    }
    return Ok([Pair(k.value, v.value)]);
  }

  lemma AppendNothing(r: Result<seq<Pair>, Fault>)
    ensures Append([], r) == r
  {
    if r.Ok? {
      assert [] + r.value == r.value;
    }
  }

  lemma AppendTwice(a: seq<Pair>, b: seq<Pair>, r: Result<seq<Pair>, Fault>)
    ensures Append(a, Append(b, r)) == Append(a + b, r)
  {
    if r.Ok? {
      assert a + (b + r.value) == (a + b) + r.value;
    }
  }

  class Query {
    var pairs: seq<Pair>

    constructor ()
      ensures pairs == []
    {
      pairs := [];
    }

    method Set(key: Str, value: Str)
      modifies this
      ensures pairs == WithPair(old(pairs), key, value)
    {
      var i := 0;
      while i < |pairs|
        invariant i <= |pairs| && pairs == old(pairs)
        invariant forall j :: 0 <= j < i ==> pairs[j].key != key
      {
        if pairs[i].key == key {
          FirstKeyIs(pairs, key, i);
          pairs := pairs[i := Pair(key, value)];
          return;
        }
        i := i + 1;
      }
      pairs := pairs + [Pair(key, value)];
    }

    method PushRaw(key: Str, value: Str)
      modifies this
      ensures pairs == old(pairs) + [Pair(key, value)]
    {
      pairs := pairs + [Pair(key, value)];
    }

    method Encode() returns (out: seq<byte>)
      ensures out == Encoded(pairs)
    {
      hide Escape, IsUtf8, Encoded;
      out := [];
      EncodedNothing();
      assert pairs[..0] == [];
      for i := 0 to |pairs|
        invariant out == Encoded(pairs[..i])
        invariant i > 0 ==> out != []
      {
        var p := pairs[i];
        EncodedSnoc(pairs[..i], p);
        assert pairs[..i] + [p] == pairs[..i + 1];
        var k := PercentEncode(p.key);
        var v := PercentEncode(p.value);
        PairNotEmpty(p);
        PairAppended(out, k, v);
        out := (if out != [] then out + [AMPERSAND] else out) + k + [EQUALS] + v;
      }
      assert pairs[..|pairs|] == pairs;
    }

    static method ParseEncoded(raw: Str) returns (query: Query, fault: Option<Fault>)
      ensures fresh(query)
      ensures fault.None? <==> Parsed(raw).Ok?
      ensures fault.None? ==> Ok(query.pairs) == Parsed(raw)
    {
      hide IsUtf8, ParsedPiece, Decoded;
      var rest := raw;
      while rest != [] && rest[0] == QUESTION
        invariant Trimmed(rest) == Trimmed(raw)
        decreases |rest|
      {
        SplitAtAscii(rest, 0);
        rest := rest[1..];
      }
      fault := None;
      query := new Query();
      AppendNothing(ParsedPieces(rest));
      var more := true;
      while more
        invariant fresh(query) && fault.None?
        invariant more ==> Append(query.pairs, ParsedPieces(rest)) == Parsed(raw)
        invariant !more ==> Ok(query.pairs) == Parsed(raw)
        decreases more, |rest|
      {
        var (piece, next) := SplitOnce(rest, AMPERSAND);
        var first := DecodePair(piece);
        if first.Err? {
          return query, Some(SlicePanic);
        }
        AppendTwice(query.pairs, first.value, ParsedPieces(next));
        query.pairs := query.pairs + first.value;
        more := Find(rest, AMPERSAND) < |rest|;
        rest := next;
      }
    }
  }

  // ----- Round trip

  /** No delimiter is unreserved, and escapes are made of unreserved characters and `%`. */
  lemma {:induction false} NoDelimiters(s: seq<byte>)
    ensures forall i :: 0 <= i < |Escape(Unreserved, s)| ==> Escape(Unreserved, s)[i] !in {AMPERSAND, EQUALS, QUESTION}
  {
    if s != [] {
      NoDelimiters(s[1..]);
    }
  }

  lemma FindAt(a: seq<byte>, b: byte, c: seq<byte>)
    requires b !in a
    ensures Find(a + ([b] + c), b) == |a|
    ensures Find(a, b) == |a|
  {
    var s := a + ([b] + c);
    assert s[|a|] == b;
    assert forall i :: 0 <= i < |a| ==> s[i] == a[i];
  }

  lemma PairIsAscii(p: Pair)
    ensures IsAscii(EncodedPair(p)) && IsUtf8(EncodedPair(p))
    ensures AMPERSAND !in EncodedPair(p)
    ensures EncodedPair(p)[0] != QUESTION
  {
    hide Escape, IsUtf8;
    EscapeIsAscii(Unreserved, p.key);
    EscapeIsAscii(Unreserved, p.value);
    NoDelimiters(p.key);
    NoDelimiters(p.value);
    AsciiIsUtf8(EncodedPair(p));
  }

  lemma PieceRoundTrip(p: Pair)
    ensures IsUtf8(EncodedPair(p)) && ParsedPiece(EncodedPair(p)) == Ok([p])
  {
    hide Escape, IsUtf8, Decoded, Find;
    PairIsAscii(p);
    var k, v := Escape(Unreserved, p.key), Escape(Unreserved, p.value);
    NoDelimiters(p.key);
    FindAt(k, EQUALS, v);
    var e := EncodedPair(p);
    assert e[..|k|] == k && e[|k| + 1..] == v;
    DecodeInvertsEncode(p.key);
    DecodeInvertsEncode(p.value);
  }

  lemma {:induction false} EncodedIsAscii(q: seq<Pair>)
    ensures IsAscii(Encoded(q)) && IsUtf8(Encoded(q))
  {
    hide EncodedPair, IsUtf8;
    if q != [] {
      PairIsAscii(q[0]);
      if |q| > 1 {
        EncodedIsAscii(q[1..]);
      }
    }
    AsciiIsUtf8(Encoded(q));
  }

  lemma {:induction false} PiecesRoundTrip(q: seq<Pair>)
    ensures IsUtf8(Encoded(q)) && ParsedPieces(Encoded(q)) == Ok(q)
  {
    hide EncodedPair, IsUtf8, ParsedPiece, Find;
    EncodedIsAscii(q);
    if q == [] {
      ParsedEmpty();
    } else {
      PairIsAscii(q[0]);
      PieceRoundTrip(q[0]);
      var e := EncodedPair(q[0]);
      if |q| == 1 {
        FindAt(e, AMPERSAND, []);
        assert q == [q[0]];
      } else {
        var t := Encoded(q[1..]);
        FindAt(e, AMPERSAND, t);
        PiecesRoundTrip(q[1..]);
        var s := Encoded(q);
        assert s[..|e|] == e && s[|e| + 1..] == t;
        assert q == [q[0]] + q[1..];
      }
    }
  }

  lemma ParsedEmpty()
    ensures ParsedPieces([]) == Ok([])
  {
  }

  /** Parsing an encoded query gives the query back: order, duplicate keys, empty keys and values. */
  lemma QueryRoundTrip(q: seq<Pair>)
    ensures IsUtf8(Encoded(q)) && Parsed(Encoded(q)) == Ok(q)
  {
    hide EncodedPair, IsUtf8, ParsedPieces;
    PiecesRoundTrip(q);
    if q != [] {
      PairNotEmpty(q[0]);
      PairIsAscii(q[0]);
      assert Encoded(q)[0] == EncodedPair(q[0])[0];
    }
  }

  // ----- What any string parses to

  /** A key and a value, split at the first equals sign; a piece without one is a key alone. */
  lemma PieceIs(piece: Str, key: Str, value: Str)
    requires piece != [] && EQUALS !in key
    requires piece == key + ([EQUALS] + value) || (piece == key && value == [])
    ensures ParsedPiece(piece) ==
            if Decoded(key).Ok? && Decoded(value).Ok? then Ok([Pair(Decoded(key).value, Decoded(value).value)])
            else Err(SlicePanic)
  {
    hide Decoded, IsUtf8, Find;
    FindAt(key, EQUALS, value);
    if piece == key + ([EQUALS] + value) {
      assert piece[..|key|] == key && piece[|key| + 1..] == value;
    } else {
      assert piece[|piece|..] == value;
    }
  }

  /** Pieces joined by ampersands are parsed one after the other; an empty one adds nothing. */
  lemma PiecesAre(piece: Str, rest: Str, raw: Str)
    requires AMPERSAND !in piece && raw == piece + ([AMPERSAND] + rest)
    ensures ParsedPieces(raw) == if ParsedPiece(piece).Ok? then Append(ParsedPiece(piece).value, ParsedPieces(rest))
                                 else ParsedPiece(piece)
    ensures piece == [] ==> ParsedPieces(raw) == ParsedPieces(rest)
  {
    hide ParsedPiece, IsUtf8, Find;
    FindAt(piece, AMPERSAND, rest);
    assert raw[..|piece|] == piece && raw[|piece| + 1..] == rest;
    if piece == [] {
      EmptyPiece();
      AppendNothing(ParsedPieces(rest));
    }
  }

  lemma EmptyPiece()
    ensures ParsedPiece([]) == Ok([])
  {
  }

  lemma LastPieceIs(piece: Str)
    requires AMPERSAND !in piece
    ensures ParsedPieces(piece) == ParsedPiece(piece)
  {
    hide ParsedPiece, IsUtf8, Find;
    FindAt(piece, AMPERSAND, []);
  }

  /** Question marks in front are nothing. */
  lemma QuestionMarksAre(raw: Str, marks: nat)
    requires marks <= |raw| && forall i :: 0 <= i < marks ==> raw[i] == QUESTION
    requires marks < |raw| ==> raw[marks] != QUESTION
    ensures IsUtf8(raw[marks..]) && Parsed(raw) == ParsedPieces(raw[marks..])
    decreases marks
  {
    hide ParsedPieces, IsUtf8;
    if marks == 0 {
      assert raw[0..] == raw;
    } else {
      SplitAtAscii(raw, 0);
      assert raw[0 + 1..] == raw[1..];
      QuestionMarksAre(raw[1..], marks - 1);
      assert raw[1..][marks - 1..] == raw[marks..];
    }
  }

  // ----- When parsing panics

  /** `s[j]` separates: an ampersand, or the first equals sign since the last one. */
  predicate Separates(s: seq<byte>, j: int)
    requires 0 <= j < |s|
  {
    || s[j] == AMPERSAND
    || (s[j] == EQUALS && forall k :: 0 <= k < j && s[k] == EQUALS ==> AMPERSAND in s[k..j])
  }

  /** A badly placed `%` with no separator between it and the character it cuts. */
  predicate CutAt(s: seq<byte>, i: int) {
    && 0 <= i < |s| - 3 && s[i] == PERCENT && IsContinuation(s[i + 3])
    && !Separates(s, i + 1) && !Separates(s, i + 2)
  }

  ghost predicate CutsComponent(s: seq<byte>) {
    exists i :: CutAt(s, i)
  }

  lemma AmpersandShifts(s: seq<byte>, n: nat, k: nat, j: nat)
    requires n + k <= n + j <= |s|
    ensures s[n..][k..j] == s[n + k..n + j]
  {
  }

  /** Separators do not depend on what follows them. */
  lemma SeparatesInPrefix(s: seq<byte>, n: nat, j: nat)
    requires j < n <= |s|
    ensures Separates(s[..n], j) <==> Separates(s, j)
  {
    forall k | 0 <= k < j ensures s[..n][k..j] == s[k..j] && s[..n][k] == s[k] {}
  }

  /** Nor on what precedes the last ampersand, or on a front without equals signs. */
  lemma SeparatesInSuffix(s: seq<byte>, n: nat, j: nat)
    requires 0 < n <= n + j < |s|
    requires s[n - 1] == AMPERSAND || EQUALS !in s[..n]
    ensures Separates(s[n..], j) <==> Separates(s, n + j)
  {
    forall k | 0 <= k < j
      ensures s[n..][k..j] == s[n + k..n + j] && s[n..][k] == s[n + k]
    {
      AmpersandShifts(s, n, k, j);
    }
    if Separates(s, n + j) && s[n + j] == EQUALS {
      forall k | 0 <= k < j && s[n..][k] == EQUALS ensures AMPERSAND in s[n..][k..j] {
        assert s[n + k] == EQUALS;
      }
    }
    if Separates(s[n..], j) && s[n + j] == EQUALS {
      forall k | 0 <= k < n + j && s[k] == EQUALS ensures AMPERSAND in s[k..n + j] {
        if k < n {
          assert s[k] in s[..n];
          assert s[k..n + j][n - 1 - k] == AMPERSAND;
        } else {
          assert s[n..][k - n] == EQUALS;
        }
      }
    }
  }

  lemma CutInPrefix(s: seq<byte>, n: nat, i: int)
    requires n <= |s| && i + 3 < n
    ensures CutAt(s[..n], i) <==> CutAt(s, i)
  {
    hide Separates;
    if 0 <= i {
      SeparatesInPrefix(s, n, i + 1);
      SeparatesInPrefix(s, n, i + 2);
    }
  }

  lemma CutInSuffix(s: seq<byte>, n: nat, i: int)
    requires 0 < n <= |s| && 0 <= i
    requires s[n - 1] == AMPERSAND || EQUALS !in s[..n]
    ensures CutAt(s[n..], i) <==> CutAt(s, n + i)
  {
    hide Separates;
    if n + i + 3 < |s| {
      SeparatesInSuffix(s, n, i + 1);
      SeparatesInSuffix(s, n, i + 2);
    }
  }

  /** An ampersand keeps what is before it apart from what is after it. */
  lemma CutsEitherSide(s: seq<byte>, n: nat)
    requires n < |s| && s[n] == AMPERSAND
    ensures CutsComponent(s) <==> CutsComponent(s[..n]) || CutsComponent(s[n + 1..])
  {
    hide Separates;
    SeparatorAt(s, n);
    if i :| CutAt(s, i) {
      if i + 3 < n {
        CutInPrefix(s, n, i);
      } else {
        CutInSuffix(s, n + 1, i - n - 1);
      }
    }
    if i :| CutAt(s[..n], i) {
      CutInPrefix(s, n, i);
    }
    var rest := s[n + 1..];
    if i :| CutAt(rest, i) {
      CutInSuffix(s, n + 1, i);
    }
  }

  lemma SeparatorAt(s: seq<byte>, n: nat)
    requires n < |s| && (s[n] == AMPERSAND || (s[n] == EQUALS && EQUALS !in s[..n]))
    ensures Separates(s, n)
    ensures s[n] != PERCENT && !IsContinuation(s[n])
  {
    if s[n] == EQUALS {
      forall k | 0 <= k < n ensures s[k] != EQUALS { assert s[k] in s[..n]; }
    }
  }

  lemma QuestionMarkIsNothing(s: seq<byte>)
    requires s != [] && s[0] == QUESTION
    ensures CutsComponent(s) <==> CutsComponent(s[1..])
  {
    hide Separates;
    assert EQUALS !in s[..1];
    if i :| CutAt(s, i) {
      CutInSuffix(s, 1, i - 1);
    }
    if i :| CutAt(s[1..], i) {
      CutInSuffix(s, 1, i);
    }
  }

  /** In the value of a piece, nothing separates any more. */
  lemma CutInValue(s: seq<byte>, n: nat, i: int)
    requires AMPERSAND !in s && n < |s| && s[n] == EQUALS && 0 <= i
    ensures CutAt(s, n + 1 + i) <==>
            i < |s| - n - 4 && s[n + 1 + i] == PERCENT && IsContinuation(s[n + 4 + i])
  {
    forall j | n < j < |s| ensures !Separates(s, j) {
      assert s[j] in s;
      if s[j] == EQUALS { assert forall x :: x in s[n..j] ==> x in s; }
    }
  }

  lemma CutInKey(s: seq<byte>, n: nat, i: int)
    requires AMPERSAND !in s && n <= |s| && EQUALS !in s[..n] && i + 3 < n
    ensures CutAt(s, i) <==> 0 <= i && s[i] == PERCENT && IsContinuation(s[i + 3])
  {
    forall j | 0 <= j < n ensures !Separates(s, j) {
      assert s[j] in s && s[j] in s[..n];
    }
  }

  lemma KeyCuts(s: seq<byte>, n: nat)
    requires AMPERSAND !in s && n <= |s| && EQUALS !in s[..n]
    ensures CutsCharacter(s[..n]) <==> exists i :: i + 3 < n && CutAt(s, i)
  {
    hide Separates;
    var key := s[..n];
    if i :| 0 <= i < |key| - 3 && key[i] == PERCENT && IsContinuation(key[i + 3]) {
      CutInKey(s, n, i);
    }
    if i :| i + 3 < n && CutAt(s, i) {
      CutInKey(s, n, i);
      assert key[i] == PERCENT && IsContinuation(key[i + 3]);
    }
  }

  lemma ValueCuts(s: seq<byte>, n: nat)
    requires AMPERSAND !in s && n < |s| && s[n] == EQUALS
    ensures CutsCharacter(s[n + 1..]) <==> exists i :: n < i && CutAt(s, i)
  {
    hide Separates;
    var value := s[n + 1..];
    if i :| 0 <= i < |value| - 3 && value[i] == PERCENT && IsContinuation(value[i + 3]) {
      CutInValue(s, n, i);
      assert CutAt(s, n + 1 + i);
    }
    if i :| n < i && CutAt(s, i) {
      CutInValue(s, n, i - n - 1);
      assert value[i - n - 1] == PERCENT && IsContinuation(value[i - n - 1 + 3]);
    }
  }

  lemma PieceCuts(piece: Str)
    requires AMPERSAND !in piece
    ensures ParsedPiece(piece).Err? <==> CutsComponent(piece)
  {
    hide Separates, IsUtf8, RawDecode;
    var n := Find(piece, EQUALS);
    assert EQUALS !in piece[..n];
    KeyCuts(piece, n);
    if n == |piece| {
      assert piece[..n] == piece && !CutsCharacter(piece[n..]);
    } else {
      ValueCuts(piece, n);
      SeparatorAt(piece, n);
    }
  }

  lemma {:induction false} PiecesCut(s: Str)
    ensures ParsedPieces(s).Err? <==> CutsComponent(s)
    decreases |s|
  {
    hide ParsedPiece, CutsComponent, IsUtf8;
    var n := Find(s, AMPERSAND);
    var (piece, rest) := SplitOnce(s, AMPERSAND);
    assert AMPERSAND !in piece;
    PieceCuts(piece);
    if n < |s| {
      PiecesCut(rest);
      CutsEitherSide(s, n);
    }
  }

  lemma {:induction false} TrimmedCuts(s: Str)
    ensures CutsComponent(Trimmed(s)) <==> CutsComponent(s)
    decreases |s|
  {
    hide CutsComponent, IsUtf8;
    if s != [] && s[0] == QUESTION {
      SplitAtAscii(s, 0);
      QuestionMarkIsNothing(s);
      TrimmedCuts(s[1..]);
    }
  }

  /** Parsing panics exactly when some `%` cuts a character of its own key or value. */
  lemma ParsePanicsIff(raw: Str)
    ensures Parsed(raw).Err? <==> CutsComponent(raw)
    ensures IsAscii(raw) ==> Parsed(raw).Ok?
  {
    hide CutsComponent, ParsedPieces, IsUtf8;
    PiecesCut(Trimmed(raw));
    TrimmedCuts(raw);
    if IsAscii(raw) {
      AsciiCutsNothing(raw);
    }
  }

  lemma AsciiCutsNothing(s: seq<byte>)
    requires IsAscii(s)
    ensures !CutsComponent(s)
  {
    hide Separates;
  }

  /** Splitting can save a string: `%=` and an e with an acute accent parses, though decoding it whole panics. */
  lemma SplittingSaves()
    ensures var s := [PERCENT, EQUALS, 0xC3, 0xA9];
            IsUtf8(s) && Decoded(s) == Err(SlicePanic) && Parsed(s).Ok?
  {
    var s := [PERCENT, EQUALS, 0xC3, 0xA9];
    assert s[1..][1..] == s[2..] && s[2..][2..] == [];
    assert CharLength(s) == 1 && CharLength(s[1..]) == 1 && CharLength(s[2..]) == 2;
    assert IsUtf8(s[2..]);
    assert IsUtf8(s[1..]);
    assert s[0] == PERCENT && IsContinuation(s[0 + 3]);
    SeparatorAt(s, 1);
    hide ParsedPieces, Separates;
    ParsePanicsIff(s);
  }
}
