/** The position-moving readers, proved against the functions of `Wire`. */
module WireReaders {
  import opened Bytes
  import opened Wire

  /** `1 << (7 * i)`: the place value of a varint's byte `i`. */
  function Place(i: nat): (p: nat)
    ensures p > 0
  {
    if i == 0 then 1 else 128 * Place(i - 1)
  }

  /** `w` at place `i`. */
  function Scale(w: int, i: nat): int {
    w * Place(i)
  }

  lemma NoScale()
    ensures forall w :: Scale(w, 0) == w
  {
  }

  /** `u64::from(b & 127) << (7 * i)`: the shift drops the bits that leave the 64-bit word. */
  function Shifted(b: byte, i: nat): (n: nat) {
    b % 128 * Place(i) % TWO_64
  }

  lemma TopPlace()
    ensures Place(9) == TWO_63
  {
    assert Place(3) == 0x20_0000;
    assert Place(6) == 0x20_0000 * 0x20_0000;
  }

  lemma {:induction false} LowPlaces(i: nat)
    requires i <= 8
    ensures 128 * Place(i) <= Place(9)
    decreases 8 - i
  {
    if i < 8 {
      LowPlaces(i + 1);
    }
  }

  lemma ShiftedFits(b: byte, i: nat)
    requires i <= 9
    ensures i < 9 ==> Shifted(b, i) == Scale(b % 128, i)
    ensures i == 9 ==> Shifted(b, i) == Scale(b % 2, i)
  {
    TopPlace();
    var low: nat := b % 128;
    if i == 9 {
      assert low * TWO_63 == (low / 2) * TWO_64 + low % 2 * TWO_63;
      assert low % 2 == b % 2;
    } else {
      LowPlaces(i);
      ProductBelow(low, Place(i));
    }
  }

  lemma ProductBelow(low: nat, place: nat)
    requires low < 128 && 128 * place <= TWO_63
    ensures low * place % TWO_64 == low * place
  {
    assert low * place <= 128 * place;
  }

  /** `rest`, read after `i` bytes that contributed `v`, as a read of the whole varint. */
  ghost function Resume(v: nat, i: nat, rest: Read<int>): Read<int> {
    match rest
    case Got(w, n) => Got(v + Scale(w, i), i + n)
    case Failed(e, n) => Failed(e, i + n)
  }

  lemma ResumeStep(v: nat, i: nat, b: int, rest: Read<int>)
    requires b >= 128
    ensures var more := if rest.Got? then Got(b - 128 + 128 * rest.value, 1 + rest.used)
                        else Failed(rest.error, 1 + rest.used);
            Resume(v, i, more) == Resume(v + Scale(b - 128, i), i + 1, rest)
  {
    if rest.Got? {
      var w := rest.value;
      assert (b - 128 + 128 * w) * Place(i) == (b - 128) * Place(i) + w * (128 * Place(i));
    }
  }

  lemma StrictStep(v: nat, i: nat, s: seq<byte>)
    requires i <= 9 && s != [] && (i == 9 ==> s[0] <= 1)
    ensures var next := v + Shifted(s[0], i);
            Resume(v, i, StrictVarint(s, i)) ==
            if s[0] < 128 then Got(next, i + 1) else Resume(next, i + 1, StrictVarint(s[1..], i + 1))
  {
    hide Scale, Shifted, VarintCap;
    ShiftedFits(s[0], i);
    var b := s[0];
    if b < 128 {
      assert Shifted(b, i) == Scale(b, i);
      assert StrictVarint(s, i) == Got(b, 1);
    } else {
      assert Shifted(b, i) == Scale(b - 128, i);
      ResumeStep(v, i, b, StrictVarint(s[1..], i + 1));
    }
  }

  lemma LenientStep(v: nat, i: nat, s: seq<byte>)
    requires i <= 9 && s != []
    ensures var next := v + Shifted(s[0], i);
            Resume(v, i, LenientVarint(s, i)) ==
            if s[0] < 128 then Got(next, i + 1) else Resume(next, i + 1, LenientVarint(s[1..], i + 1))
  {
    hide Scale, Shifted, VarintCap;
    ShiftedFits(s[0], i);
    var b := s[0];
    if b < 128 {
      assert b % 128 == b;
      assert LenientVarint(s, i) == Got(if i == 9 then b % 2 else b, 1);
    } else if i < 9 {
      assert b % 128 == b - 128;
      ResumeStep(v, i, b, LenientVarint(s[1..], i + 1));
    } else {
      assert LenientVarint(s[1..], 10).Failed?;
    }
  }

  /** `v |= u64::from(b & 127) << (7 * i)`, which adds: only places below `i` are set so far. */
  method Accumulate(v: nat, b: byte, i: nat, ghost rest: seq<byte>) returns (next: nat)
    requires i <= 9 && rest != [] && rest[0] == b
    ensures (i == 9 ==> b <= 1) ==>
              Resume(v, i, StrictVarint(rest, i)) ==
              if b < 128 then Got(next, i + 1) else Resume(next, i + 1, StrictVarint(rest[1..], i + 1))
    ensures Resume(v, i, LenientVarint(rest, i)) ==
            if b < 128 then Got(next, i + 1) else Resume(next, i + 1, LenientVarint(rest[1..], i + 1))
  {
    hide Scale, Resume, StrictVarint, LenientVarint;
    next := v + Shifted(b, i);
    if i == 9 ==> b <= 1 { StrictStep(v, i, rest); }
    LenientStep(v, i, rest);
  }

  lemma SuffixSlice(s: seq<byte>, p: nat, a: nat, b: nat)
    requires p <= |s| && a <= b <= |s| - p
    ensures s[p..][a..b] == s[p + a..p + b]
  {
  }

  class Cursor {
    const bytes: seq<byte>
    var pos: nat

    ghost predicate Valid()
      reads this
    {
      pos <= |bytes|
    }

    constructor (bytes: seq<byte>)
      ensures Valid() && this.bytes == bytes && pos == 0
    {
      this.bytes := bytes;
      pos := 0;
    }

    method Varint() returns (r: Result<int, ProtoError>)
      requires Valid()
      modifies this`pos
      ensures Valid()
      ensures var spec := StrictVarint(bytes[old(pos)..]);
              && pos == old(pos) + spec.used
              && r == if spec.Got? then Ok(spec.value) else Err(spec.error)
    {
      hide Scale, Shifted, VarintCap;
      NoScale();
      var v: nat := 0;
      ghost var start := pos;
      for i := 0 to 10
        invariant i <= 9 && pos == start + i <= |bytes|
        invariant Resume(v, i, StrictVarint(bytes[pos..], i)) == StrictVarint(bytes[start..])
      {
        if pos == |bytes| {
          return Err(Truncated);
        }
        var b := bytes[pos];
        ghost var rest := bytes[pos..];
        pos := pos + 1;
        assert rest[1..] == bytes[pos..];
        if i == 9 && b > 1 {
          return Err(VarintOverflow);
        }
        v := Accumulate(v, b, i, rest);
        if b < 128 {
          return Ok(v);
        }
      }
      assert false;
    }

    method Take(n: nat) returns (r: Result<seq<byte>, ProtoError>)
      requires Valid()
      modifies this`pos
      ensures Valid()
      ensures if n <= |bytes| - old(pos)
              then r == Ok(bytes[old(pos)..old(pos) + n]) && pos == old(pos) + n
              else r == Err(Truncated) && pos == old(pos)
    {
      if n > |bytes| - pos {
        return Err(Truncated);
      }
      r := Ok(bytes[pos..pos + n]);
      pos := pos + n;
    }

    method Value(wire: nat) returns (r: Result<WireValue, ProtoError>)
      requires Valid()
      modifies this`pos
      ensures Valid()
      ensures var spec := ReadValue(true, wire, bytes[old(pos)..]);
              && pos == old(pos) + spec.used
              && r == if spec.Got? then Ok(spec.value) else Err(spec.error)
    {
      hide StrictVarint, LittleEndian32, LittleEndian64;
      ghost var s := bytes[pos..];
      match wire
      case 0 =>
        var v := Varint();
        if v.Err? { return Err(v.error); }
        return Ok(WireValue.Varint(v.value));
      case 1 =>
        var b := Take(8);
        if b.Err? { return Err(b.error); }
        assert b.value == s[..8];
        return Ok(Fixed64(LittleEndian64(b.value)));
      case 5 =>
        var b := Take(4);
        if b.Err? { return Err(b.error); }
        assert b.value == s[..4];
        return Ok(Fixed32(LittleEndian32(b.value)));
      case 2 =>
        var n := Varint();
        if n.Err? { return Err(n.error); }
        var b := Take(n.value);
        if b.Err? { return Err(b.error); }
        SuffixSlice(bytes, old(pos), StrictVarint(s).used, StrictVarint(s).used + n.value);
        return Ok(LengthDelimited(b.value));
      case _ => return Err(UnsupportedWireType(wire));
    }
  }

  class Reader {
    const buf: seq<byte>
    var pos: nat

    ghost predicate Valid()
      reads this
    {
      pos <= |buf|
    }

    constructor (buf: seq<byte>)
      ensures Valid() && this.buf == buf && pos == 0
    {
      this.buf := buf;
      pos := 0;
    }

    method Varint() returns (r: Result<int, ProtoError>)
      requires Valid()
      modifies this`pos
      ensures Valid()
      ensures var spec := LenientVarint(buf[old(pos)..]);
              && pos == old(pos) + spec.used
              && r == if spec.Got? then Ok(spec.value) else Err(spec.error)
    {
      var value: nat := 0;
      var shift := 0;
      ghost var start := pos;
      ghost var i := 0;
      while true
        invariant shift == 7 * i && i <= 10
        invariant pos == start + i <= |buf|
        invariant Resume(value, i, LenientVarint(buf[pos..], i)) == LenientVarint(buf[start..])
        decreases 10 - i
      {
        if pos == |buf| {
          return Err(Truncated);
        }
        var b := buf[pos];
        ghost var rest := buf[pos..];
        pos := pos + 1;
        assert rest[1..] == buf[pos..];
        if shift >= 64 {
          return Err(VarintOverflow);
        }
        assert shift / 7 == i;
        value := Accumulate(value, b, shift / 7, rest);
        if b < 128 {
          return Ok(value);
        }
        shift := shift + 7;
        i := i + 1;
      }
    }

    method Take(n: nat) returns (r: Result<seq<byte>, ProtoError>)
      requires Valid()
      modifies this`pos
      ensures Valid()
      ensures if n <= |buf| - old(pos)
              then r == Ok(buf[old(pos)..old(pos) + n]) && pos == old(pos) + n
              else r == Err(Truncated) && pos == old(pos)
    {
      if n > |buf| - pos {
        return Err(Truncated);
      }
      r := Ok(buf[pos..pos + n]);
      pos := pos + n;
    }

    /** The value half of `read_field`. */
    method Value(wire: nat) returns (r: Result<WireValue, ProtoError>)
      requires Valid()
      modifies this`pos
      ensures Valid()
      ensures var spec := ReadValue(false, wire, buf[old(pos)..]);
              && pos == old(pos) + spec.used
              && r == if spec.Got? then Ok(spec.value) else Err(spec.error)
    {
      hide LenientVarint, LittleEndian32, LittleEndian64;
      ghost var s := buf[pos..];
      match wire
      case 0 =>
        var v := Varint();
        if v.Err? { return Err(v.error); }
        return Ok(WireValue.Varint(v.value));
      case 1 =>
        var b := Take(8);
        if b.Err? { return Err(b.error); }
        assert b.value == s[..8];
        return Ok(Fixed64(LittleEndian64(b.value)));
      case 2 =>
        var n := Varint();
        if n.Err? { return Err(n.error); }
        var b := Take(n.value);
        if b.Err? { return Err(b.error); }
        SuffixSlice(buf, old(pos), LenientVarint(s).used, LenientVarint(s).used + n.value);
        return Ok(LengthDelimited(b.value));
      case 5 =>
        var b := Take(4);
        if b.Err? { return Err(b.error); }
        assert b.value == s[..4];
        return Ok(Fixed32(LittleEndian32(b.value)));
      case _ => return Err(UnsupportedWireType(wire));
    }

    method ReadField() returns (r: Result<Field, ProtoError>)
      requires Valid()
      modifies this`pos
      ensures Valid()
      ensures var spec := LenientField(buf[old(pos)..]);
              && pos == old(pos) + spec.used
              && r == if spec.Got? then Ok(spec.value) else Err(spec.error)
    {
      var tag := Varint();
      if tag.Err? { return Err(tag.error); }
      assert buf[pos..] == buf[old(pos)..][LenientVarint(buf[old(pos)..]).used..];
      var value := Value(tag.value % 8);
      if value.Err? { return Err(value.error); }
      return Ok(Field(tag.value / 8 % TWO_32, tag.value % 8, value.value));
    }

    /** One turn of the iteration: what it takes off the front of the list that `ReadAll` still gives. */
    method NextField() returns (r: Option<Result<Field, ProtoError>>)
      requires Valid()
      modifies this`pos
      ensures Valid()
      ensures var all := ReadAll(buf[old(pos)..]);
              match r
              case None => all == Fields([], None) && pos == old(pos)
              case Some(Err(e)) => all == Fields([], Some(e))
              case Some(Ok(f)) =>
                && pos > old(pos)
                && all == Fields([f] + ReadAll(buf[pos..]).fields, ReadAll(buf[pos..]).error)
    {
      if pos >= |buf| {
        return None;
      }
      ghost var s := buf[pos..];
      var field := ReadField();
      assert LenientField(s).Got? ==> s[LenientField(s).used..] == buf[pos..];
      r := Some(field);
    }
  }
}
