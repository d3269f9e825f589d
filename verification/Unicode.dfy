/** UTF-8 and UTF-16 read back: decoders with their own arithmetic (section 3 of RFC 3629, section 2.2 of RFC
    2781), to which the encoders of this project are inverse. */
module Unicode {
  import opened Ascii
  import opened Utf16

  /** A byte of the form 10xxxxxx. */
  predicate IsTail(b: byte) {
    128 <= b <= 191
  }

  /** The number of bytes of the form that starts with this byte, or 0. */
  function FormLength(b: byte): nat {
    if b <= 127 then 1
    else if 192 <= b <= 223 then 2
    else if 224 <= b <= 239 then 3
    else if 240 <= b <= 247 then 4
    else 0
  }

  /** The bits of a form: those of the first byte, then six of each tail byte. */
  function FormValue(f: seq<byte>): int
    requires f != []
  {
    if |f| == 1 then LeadValue(f[0]) else 64 * FormValue(f[..|f| - 1]) + TailValue(f[|f| - 1])
  }

  function LeadValue(b: int): int {
    if b <= 127 then b else if b <= 223 then b - 192 else if b <= 239 then b - 224 else b - 240
  }

  function TailValue(b: int): int {
    b - 128
  }

  /** The shortest form that holds a code point. */
  function ShortestLength(u: int): nat {
    if u <= 127 then 1 else if u <= 2047 then 2 else if u <= 65535 then 3 else 4
  }

  /** One whole form, of this code point, and the shortest for it. */
  predicate IsForm(f: seq<byte>, u: int) {
    && f != [] && |f| == FormLength(f[0]) == ShortestLength(u)
    && (forall i :: 1 <= i < |f| ==> IsTail(f[i]))
    && FormValue(f) == u
  }

  /** The code points of a text of whole forms. */
  datatype Decoded = Decoded(points: seq<int>) | Malformed

  function DecodeUtf8(s: seq<byte>): Decoded
    decreases |s|
  {
    if s == [] then Decoded([])
    else
      var n := FormLength(s[0]);
      if n == 0 || n > |s| || !IsForm(s[..n], FormValue(s[..n])) then Malformed
      else
        var tail := DecodeUtf8(s[n..]);
        if tail.Malformed? then Malformed else Decoded([FormValue(s[..n])] + tail.points)
  }

  lemma ValueOfTwo(a: byte, b: byte)
    ensures FormValue([a, b]) == 64 * LeadValue(a) + TailValue(b)
  {
    assert [a, b][..1] == [a];
  }

  lemma ValueOfThree(a: byte, b: byte, c: byte)
    ensures FormValue([a, b, c]) == 64 * (64 * LeadValue(a) + TailValue(b)) + TailValue(c)
  {
    ValueOfTwo(a, b);
    assert [a, b, c][..2] == [a, b];
  }

  lemma ValueOfFour(a: byte, b: byte, c: byte, d: byte)
    ensures FormValue([a, b, c, d]) == 64 * (64 * (64 * LeadValue(a) + TailValue(b)) + TailValue(c)) + TailValue(d)
  {
    ValueOfThree(a, b, c);
    assert [a, b, c, d][..3] == [a, b, c];
  }

  lemma TwoByteForm(uni: int)
    requires 0x80 <= uni < 0x800
    ensures IsForm(Utf8(uni), uni)
  {
    hide FormValue;
    ValueOfTwo(Utf8(uni)[0], Utf8(uni)[1]);
  }

  lemma ThreeByteForm(uni: int)
    requires 0x800 <= uni < 0x10000
    ensures IsForm(Utf8(uni), uni)
  {
    hide FormValue;
    ValueOfThree(Utf8(uni)[0], Utf8(uni)[1], Utf8(uni)[2]);
  }

  /** The six-bit groups of a code point add up to it again. */
  lemma SixBitGroups(u: nat)
    ensures 64 * (64 * (64 * (u / 0x40000) + u / 0x1000 % 0x40) + u / 0x40 % 0x40) + u % 0x40 == u
  {
    var a, b := u / 0x40, u / 0x1000;
    assert b == a / 0x40 && u / 0x40000 == b / 0x40;
  }

  lemma FourByteForm(uni: int)
    requires 0x10000 <= uni < 0x110000
    ensures IsForm(Utf8(uni), uni)
  {
    hide FormValue;
    SixBitGroups(uni);
    ValueOfFour(Utf8(uni)[0], Utf8(uni)[1], Utf8(uni)[2], Utf8(uni)[3]);
  }

  /** The encoder gives the shortest form of its code point. */
  lemma Utf8IsForm(uni: int)
    requires 0 <= uni < 0x110000
    ensures IsForm(Utf8(uni), uni)
  {
    hide Utf8, IsForm;
    if uni < 0x80 {
      OneByteForm(uni);
    } else if uni < 0x800 {
      TwoByteForm(uni);
    } else if uni < 0x10000 {
      ThreeByteForm(uni);
    } else {
      FourByteForm(uni);
    }
  }

  lemma OneByteForm(uni: int)
    requires 0 <= uni < 0x80
    ensures IsForm(Utf8(uni), uni)
  {
  }

  lemma DecodeForm(uni: int, rest: seq<byte>)
    requires 0 <= uni < 0x110000
    ensures DecodeUtf8(Utf8(uni) + rest) ==
      var tail := DecodeUtf8(rest); if tail.Malformed? then Malformed else Decoded([uni] + tail.points)
  {
    Utf8IsForm(uni);
    hide Utf8, FormValue, FormLength;
    var s := Utf8(uni) + rest;
    assert s[..|Utf8(uni)|] == Utf8(uni) && s[|Utf8(uni)|..] == rest && s[0] == Utf8(uni)[0];
  }

  // ------------------------------------------------------------ UTF-16

  /** A code point that is no surrogate. */
  predicate IsScalar(u: int) {
    0 <= u <= 1114111 && !(55296 <= u <= 57343)
  }

  /** The units of a code point: a pair holds ten bits of the code point less 65536 each. */
  function Units(u: int): seq<unit16>
    requires IsScalar(u)
  {
    if u <= 65535 then [u] else [55296 + (u - 65536) / 1024, 56320 + (u - 65536) % 1024]
  }

  function EncodeUtf16(us: seq<int>): seq<unit16>
    requires forall i :: 0 <= i < |us| ==> IsScalar(us[i])
  {
    if us == [] then [] else Units(us[0]) + EncodeUtf16(us[1..])
  }

  lemma PairOfUnits(u: int)
    requires 65536 <= u <= 1114111
    ensures IsHigh(Units(u)[0]) && IsLow(Units(u)[1]) && Pair(Units(u)[0], Units(u)[1]) == u
  {
  }

  lemma Utf8FormCons(u: int, rest: seq<unit16>)
    requires IsScalar(u)
    ensures WellFormed(Units(u) + rest) == WellFormed(rest)
    ensures WellFormed(rest) ==> Utf8Form(Units(u) + rest) == Utf8(u) + Utf8Form(rest)
  {
    hide Utf8;
    var s := Units(u) + rest;
    if u > 65535 {
      PairOfUnits(u);
      assert s[2..] == rest;
    } else {
      assert s[1..] == rest;
    }
  }

  /** Every text of code points, written in UTF-16, is well formed, and its UTF-8 form decodes to these code
      points again. */
  lemma {:induction false} Utf16ToUtf8(us: seq<int>)
    requires forall i :: 0 <= i < |us| ==> IsScalar(us[i])
    ensures WellFormed(EncodeUtf16(us))
    ensures DecodeUtf8(Utf8Form(EncodeUtf16(us))) == Decoded(us)
  {
    hide Utf8, Utf8Form, Units, DecodeUtf8, WellFormed;
    if us == [] {
      NoUnits();
    } else {
      Utf16ToUtf8(us[1..]);
      Utf8FormCons(us[0], EncodeUtf16(us[1..]));
      DecodeForm(us[0], Utf8Form(EncodeUtf16(us[1..])));
      assert [us[0]] + us[1..] == us;
    }
  }

  lemma NoUnits()
    ensures WellFormed([]) && Utf8Form([]) == [] && DecodeUtf8([]) == Decoded([])
  {
  }

  /** The well-formed strings are exactly the texts of code points. */
  lemma {:induction false} WellFormedIsText(s: seq<unit16>) returns (us: seq<int>)
    requires WellFormed(s)
    ensures forall i :: 0 <= i < |us| ==> IsScalar(us[i])
    ensures EncodeUtf16(us) == s
    decreases |s|
  {
    if s == [] {
      us := [];
    } else if IsHigh(s[0]) {
      var tail := WellFormedIsText(s[2..]);
      var high: int, low: int := s[0], s[1];
      var u := (high - 55296) * 1024 + (low - 56320) + 65536;
      us := [u] + tail;
      assert us[1..] == tail && Units(u) == [s[0], s[1]];
      assert s == [s[0], s[1]] + s[2..];
    } else {
      var tail := WellFormedIsText(s[1..]);
      us := [s[0]] + tail;
      assert us[1..] == tail && Units(s[0]) == [s[0]];
      assert s == [s[0]] + s[1..];
    }
  }
}
