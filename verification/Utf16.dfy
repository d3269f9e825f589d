/** Writing UTF-16 strings: the escaping loop over UTF-16 units writes what the byte loop writes for the
    UTF-8 form of the string (section 3 of RFC 3629), exactly for the well-formed strings (section 2.2 of RFC 2781). */
module Utf16 {
  import opened Ascii
  import opened ParserState
  import opened Outcome
  import opened Output
  import B = Bytes

  type unit16 = x: int | 0 <= x < 0x10000

  predicate IsHigh(u: int) {
    0xD800 <= u < 0xDC00
  }

  predicate IsLow(u: int) {
    0xDC00 <= u < 0xE000
  }

  /** Every high surrogate is followed by a low one, and there are no other low ones. */
  predicate WellFormed(s: seq<unit16>)
    decreases |s|
  {
    if s == [] then true
    else if IsHigh(s[0]) then |s| > 1 && IsLow(s[1]) && WellFormed(s[2..])
    else !IsLow(s[0]) && WellFormed(s[1..])
  }

  function Pair(high: int, low: int): (uni: int)
    requires IsHigh(high) && IsLow(low)
    ensures 0x10000 <= uni < 0x110000
  {
    (high - 0xD800) * 0x400 + (low - 0xDC00) + 0x10000
  }

  function Utf8Form(s: seq<unit16>): seq<byte>
    requires WellFormed(s)
    decreases |s|
  {
    if s == [] then []
    else if IsHigh(s[0]) then Utf8(Pair(s[0], s[1])) + Utf8Form(s[2..])
    else Utf8(s[0]) + Utf8Form(s[1..])
  }

  /** The escapes of one code point: none of the bytes of a longer form is ever escaped. */
  lemma EscapeCodePoint(uni: int)
    requires 0 <= uni < 0x110000
    ensures EscapeBytes(Utf8(uni)) == if uni < 0x80 then EscapeByte(uni) else Utf8(uni)
    ensures |EscapeBytes(Utf8(uni))| <= if uni < 0x10000 then 3 else 4
  {
    var s := Utf8(uni);
    if uni < 0x80 {
      assert EscapeBytes(s[1..]) == [];
    } else {
      NothingEscaped(s);
    }
  }

  lemma {:induction false} NothingEscaped(s: seq<byte>)
    requires forall i :: 0 <= i < |s| ==> s[i] >= 0x80
    ensures EscapeBytes(s) == s
  {
    if s != [] {
      NothingEscaped(s[1..]);
      assert [s[0]] + s[1..] == s;
    }
  }

  /** At most three bytes for each unit. */
  lemma {:induction false} EscapedLength(s: seq<unit16>)
    requires WellFormed(s)
    ensures |EscapeBytes(Utf8Form(s))| <= 3 * |s|
    decreases |s|
  {
    hide EscapeByte, Utf8;
    if s != [] {
      var uni, n := if IsHigh(s[0]) then Pair(s[0], s[1]) else s[0], if IsHigh(s[0]) then 2 else 1;
      EscapeCodePoint(uni);
      EscapeConcat(Utf8(uni), Utf8Form(s[n..]));
      EscapedLength(s[n..]);
    }
  }

  /** One code point of the string: where the rest begins and what is still to be written. */
  lemma NextCodePoint(s: seq<unit16>, uni: int, n: nat)
    requires s != [] && (n == 1 || n == 2) && n <= |s|
    requires if n == 1 then uni == s[0] && !IsHigh(uni) && !IsLow(uni)
             else IsHigh(s[0]) && IsLow(s[1]) && uni == Pair(s[0], s[1])
    ensures WellFormed(s) <==> WellFormed(s[n..])
    ensures WellFormed(s) ==> EscapeBytes(Utf8Form(s)) == EscapeBytes(Utf8(uni)) + EscapeBytes(Utf8Form(s[n..]))
  {
    if WellFormed(s) {
      EscapeConcat(Utf8(uni), Utf8Form(s[n..]));
    }
  }

  /** Utf8Utils.AppendUnicodeToBytes. The debug build checks that four more bytes fit. */
  method AppendUnicodeToBytes(dst: B.Bytes, uni: int, debug: bool) returns (r: Outcome<()>)
    requires dst.Valid() && 0 <= uni < 0x110000
    modifies dst`end, dst.buffer
    ensures dst.Valid()
    ensures old(dst.end) + 4 <= dst.buffer.Length ==>
      r.Ok? && dst.buffer[..dst.end] == old(dst.buffer[..dst.end]) + Utf8(uni)
  {
    if debug && dst.end - dst.start + 4 > dst.buffer.Length {
      return Throw(InvalidOperation);
    }
    ghost var before := dst.buffer[..dst.end];
    if uni < 0x80 {
      r := dst.PutByte(uni);
    } else if uni < 0x800 {
      var _ :- dst.PutByte(0xC0 + uni / 0x40);
      r := dst.PutByte(0x80 + uni % 0x40);
    } else if uni < 0x10000 {
      var _ :- dst.PutByte(0xE0 + uni / 0x1000);
      var _ :- dst.PutByte(0x80 + uni / 0x40 % 0x40);
      r := dst.PutByte(0x80 + uni % 0x40);
    } else {
      var _ :- dst.PutByte(0xF0 + uni / 0x40000);
      var _ :- dst.PutByte(0x80 + uni / 0x1000 % 0x40);
      var _ :- dst.PutByte(0x80 + uni / 0x40 % 0x40);
      r := dst.PutByte(0x80 + uni % 0x40);
    }
    assert r.Ok? ==> dst.buffer[..dst.end] == before + Utf8(uni);
  }

  method PutCodePoint(dst: B.Bytes, uni: int, debug: bool) returns (r: Outcome<()>)
    requires dst.Valid() && 0 <= uni < 0x110000
    modifies dst`end, dst.buffer
    ensures dst.Valid()
    ensures old(dst.end) + 4 <= dst.buffer.Length ==>
      r.Ok? && dst.buffer[..dst.end] == old(dst.buffer[..dst.end]) + EscapeBytes(Utf8(uni))
  {
    EscapeCodePoint(uni);
    if uni < 0x80 && EscapeLetter(uni) != -1 {
      r := dst.PutEscaped(uni);
    } else {
      r := AppendUnicodeToBytes(dst, uni, debug);
    }
  }

  /** What is still to be written of a string, if it is well formed. */
  function Escaped(s: seq<unit16>): seq<byte> {
    if WellFormed(s) then EscapeBytes(Utf8Form(s)) else []
  }

  /** The code point at index and its number of units, or the exception for a lone surrogate. */
  method CodePointAt(span: seq<unit16>, index: nat) returns (r: Outcome<(int, nat)>)
    requires index < |span|
    ensures r.Throw? ==> r.e == InvalidArgument && !WellFormed(span[index..])
    ensures r.Ok? ==>
      var (uni, n) := r.value;
      && 0 <= uni < 0x110000 && (n == 1 || n == 2) && index + n <= |span|
      && (WellFormed(span[index..]) <==> WellFormed(span[index + n..]))
      && (WellFormed(span[index..]) ==> Escaped(span[index..]) == EscapeBytes(Utf8(uni)) + Escaped(span[index + n..]))
      && |EscapeBytes(Utf8(uni))| <= 3 * n
  {
    hide EscapeBytes, Utf8;
    var uni, n := span[index], 1;
    ghost var rest := span[index..];
    if IsHigh(uni) {
      if index == |span| - 1 {
        return Throw(InvalidArgument);
      }
      var low := span[index + 1];
      if !IsLow(low) {
        return Throw(InvalidArgument);
      }
      uni, n := Pair(uni, low), 2;
    } else if IsLow(uni) {
      return Throw(InvalidArgument);
    }
    NextCodePoint(rest, uni, n);
    EscapeCodePoint(uni);
    assert rest[n..] == span[index + n..];
    return Ok((uni, n));
  }

  /** The loop over the units, with room for three bytes each and the closing quote. */
  method PutUnits(dst: B.Bytes, span: seq<unit16>, debug: bool) returns (r: Outcome<()>)
    requires dst.Valid() && dst.end + 3 * |span| + 4 <= dst.buffer.Length
    modifies dst`end, dst.buffer
    ensures dst.Valid()
    ensures r == if WellFormed(span) then Ok(()) else Throw(InvalidArgument)
    ensures r.Ok? ==>
      && dst.buffer[..dst.end] == old(dst.buffer[..dst.end]) + Escaped(span)
      && dst.end <= old(dst.end) + 3 * |span|
  {
    hide EscapeBytes, Utf8, WellFormed, Escaped;
    ghost var json, out: seq<byte> := dst.buffer[..dst.end], [];
    var index := 0;
    assert span[0..] == span && [] + Escaped(span) == Escaped(span);
    while index < |span|
      invariant 0 <= index <= |span| && dst.Valid()
      invariant dst.buffer[..dst.end] == json + out && |out| <= 3 * index
      invariant WellFormed(span) <==> WellFormed(span[index..])
      invariant WellFormed(span) ==> Escaped(span) == out + Escaped(span[index..])
    {
      var next :- CodePointAt(span, index);
      ghost var more := EscapeBytes(Utf8(next.0));
      var put := PutCodePoint(dst, next.0, debug);
      B.Bytes.Assoc(json, out, more);
      B.Bytes.Assoc(out, more, Escaped(span[index + next.1..]));
      out := out + more;
      index := index + next.1;
    }
    NothingLeft(span);
    assert out + [] == out;
    return Ok(());
  }

  lemma NothingLeft(span: seq<unit16>)
    ensures WellFormed(span[|span|..]) && Escaped(span[|span|..]) == []
  {
  }

  /** Appends a UTF-16 string between quotes. It succeeds exactly for a well-formed string, never runs out of
      its reserve, and writes what AppendEscStringBytes writes for the UTF-8 form. */
  method AppendEscString(dst: B.Bytes, span: seq<unit16>, debug: bool) returns (r: Outcome<()>)
    requires dst.Valid()
    modifies dst`end, dst`buffer, dst`moved, dst.buffer
    ensures dst.Valid() && dst.start == old(dst.start)
    ensures r == if WellFormed(span) then Ok(()) else Throw(InvalidArgument)
    ensures r.Ok? ==> dst.buffer[..dst.end] == old(dst.buffer[..dst.end]) + PieceText(Quoted(Utf8Form(span)))
    ensures r.Ok? ==> dst.end <= old(dst.end) + 3 * |span| + 2
    ensures dst.buffer.Length == Grown(old(dst.buffer.Length), old(dst.end) + 3 * (|span| + 1) + 2)
    ensures dst.moved - old(dst.moved) <= dst.buffer.Length - old(dst.buffer.Length)
  {
    hide EscapeBytes, Utf8, WellFormed, Grown, B.MovedBytes;
    var maxByteLen := 3 * (|span| + 1) + 2;
    dst.EnsureCapacityAbs(dst.end + maxByteLen);
    ghost var json, body := dst.buffer[..dst.end], Escaped(span);
    var open := dst.PutByte(QUOTE);
    var _ :- PutUnits(dst, span, debug);
    B.Bytes.Assoc(json + [QUOTE], body, [QUOTE]);
    B.Bytes.Assoc(json, [QUOTE], body + [QUOTE]);
    B.Bytes.Assoc([QUOTE], body, [QUOTE]);
    var close := dst.PutByte(QUOTE);
    return Ok(());
  }
}
