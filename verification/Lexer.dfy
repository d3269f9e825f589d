/** What each reader of the parser takes from the bytes that are still unread, with
    no notion of blocks, and the lexeme grammar each of them accepts. */
module Lexer {
  import opened Ascii

  /** The outcome of reading one token: its bytes and the unread rest. */
  datatype Token = Token(text: seq<byte>, rest: seq<byte>) | Bad

  function SkipWs(s: seq<byte>): (r: seq<byte>)
    ensures |r| <= |s|
    ensures r != [] ==> !IsWs(r[0])
  {
    if s != [] && IsWs(s[0]) then SkipWs(s[1..]) else s
  }

  // ---------------------------------------------------------------- strings

  /** The byte a one-character escape stands for; an unknown escape stands for nothing. */
  function Unescape(c: byte): seq<byte> {
    if c == QUOTE then [QUOTE]
    else if c == BACKSLASH then [BACKSLASH]
    else if c == SLASH then [SLASH]
    else if c == 98 then [BACKSPACE]
    else if c == 102 then [FORM_FEED]
    else if c == 114 then [CR]
    else if c == 110 then [LF]
    else if c == 116 then [TAB]
    else []
  }

  predicate HexOk(h: seq<byte>)
    requires |h| == 4
  {
    Digit2Int(h[0]) != -1 && Digit2Int(h[1]) != -1 && Digit2Int(h[2]) != -1 && Digit2Int(h[3]) != -1
  }

  function HexValue(h: seq<byte>): (u: int)
    requires |h| == 4 && HexOk(h)
    ensures 0 <= u < 0x10000
  {
    Digit2Int(h[0]) * 0x1000 + Digit2Int(h[1]) * 0x100 + Digit2Int(h[2]) * 0x10 + Digit2Int(h[3])
  }

  datatype Escaped = Escaped(bytes: seq<byte>, rest: seq<byte>) | BadEscape

  /** Reads what follows a backslash. */
  function EscapeFrom(s: seq<byte>): (e: Escaped)
    ensures e.Escaped? ==> |e.rest| < |s|
  {
    if s == [] then BadEscape
    else if s[0] != 117 then Escaped(Unescape(s[0]), s[1..])
    else if |s| < 5 || !HexOk(s[1..5]) then BadEscape
    else Escaped(Utf8(HexValue(s[1..5])), s[5..])
  }

  lemma EscapeHead(s: seq<byte>)
    ensures s == [] ==> EscapeFrom(s) == BadEscape
    ensures s != [] && s[0] != 117 ==> EscapeFrom(s) == Escaped(Unescape(s[0]), s[1..])
  {
  }

  /** Reads string contents after the opening quote; acc is what has been decoded so far. */
  function StringFrom(s: seq<byte>, acc: seq<byte>): (t: Token)
    ensures t.Token? ==> |t.rest| < |s|
    decreases |s|
  {
    if s == [] then Bad
    else if s[0] == QUOTE then Token(acc, s[1..])
    else if s[0] == CR || s[0] == LF then Bad
    else if s[0] != BACKSLASH then StringFrom(s[1..], acc + [s[0]])
    else
      var e := EscapeFrom(s[1..]);
      if e.BadEscape? then Bad else StringFrom(e.rest, acc + e.bytes)
  }

  lemma StringHead(s: seq<byte>, acc: seq<byte>)
    requires s != []
    ensures s[0] == QUOTE ==> StringFrom(s, acc) == Token(acc, s[1..])
    ensures s[0] == CR || s[0] == LF ==> StringFrom(s, acc) == Bad
    ensures s[0] == BACKSLASH ==>
      var e := EscapeFrom(s[1..]);
      StringFrom(s, acc) == if e.BadEscape? then Bad else StringFrom(e.rest, acc + e.bytes)
  {
  }

  /** One written unit of a string body. */
  datatype Unit = Plain(b: byte) | Escape(c: byte) | Unicode(hex: seq<byte>)

  predicate ValidUnit(u: Unit) {
    match u
    case Plain(b) => b != QUOTE && b != BACKSLASH && b != CR && b != LF
    case Escape(c) => c != 117
    case Unicode(h) => |h| == 4 && HexOk(h)
  }

  predicate ValidUnits(us: seq<Unit>) {
    forall i :: 0 <= i < |us| ==> ValidUnit(us[i])
  }

  function UnitText(u: Unit): seq<byte> {
    match u
    case Plain(b) => [b]
    case Escape(c) => [BACKSLASH, c]
    case Unicode(h) => [BACKSLASH, 117] + h
  }

  function UnitBytes(u: Unit): seq<byte>
    requires ValidUnit(u)
  {
    match u
    case Plain(b) => [b]
    case Escape(c) => Unescape(c)
    case Unicode(h) => Utf8(HexValue(h))
  }

  function BodyText(us: seq<Unit>): seq<byte> {
    if us == [] then [] else UnitText(us[0]) + BodyText(us[1..])
  }

  function BodyBytes(us: seq<Unit>): seq<byte>
    requires ValidUnits(us)
  {
    if us == [] then [] else UnitBytes(us[0]) + BodyBytes(us[1..])
  }

  lemma ReadUnit(u: Unit, tail: seq<byte>, acc: seq<byte>)
    requires ValidUnit(u)
    ensures StringFrom(UnitText(u) + tail, acc) == StringFrom(tail, acc + UnitBytes(u))
  {
    var s := UnitText(u) + tail;
    match u
    case Plain(b) => assert s[1..] == tail;
    case Escape(c) => assert s[1..][1..] == tail;
    case Unicode(h) => assert s[1..][1..5] == h && s[1..][5..] == tail;
  }

  lemma BodyCons(u: Unit, us: seq<Unit>)
    requires ValidUnit(u) && ValidUnits(us)
    ensures ValidUnits([u] + us)
    ensures BodyText([u] + us) == UnitText(u) + BodyText(us)
    ensures BodyBytes([u] + us) == UnitBytes(u) + BodyBytes(us)
  {
    assert ([u] + us)[1..] == us;
  }

  /** The string reader accepts every body of valid units and decodes it unit by unit. */
  lemma {:induction false} StringComplete(us: seq<Unit>, rest: seq<byte>, acc: seq<byte>)
    requires ValidUnits(us)
    ensures StringFrom(BodyText(us) + [QUOTE] + rest, acc) == Token(acc + BodyBytes(us), rest)
  {
    hide StringFrom, UnitText, UnitBytes;
    if us == [] {
      assert BodyText(us) + [QUOTE] + rest == [QUOTE] + rest;
      assert acc + BodyBytes(us) == acc;
      StringHead([QUOTE] + rest, acc);
    } else {
      hide BodyText, BodyBytes;
      var u, tail := us[0], BodyText(us[1..]) + [QUOTE] + rest;
      assert ValidUnit(us[0]);
      assert us == [u] + us[1..];
      BodyCons(u, us[1..]);
      assert BodyText(us) + [QUOTE] + rest == UnitText(u) + tail;
      ReadUnit(u, tail, acc);
      StringComplete(us[1..], rest, acc + UnitBytes(u));
      assert acc + UnitBytes(u) + BodyBytes(us[1..]) == acc + BodyBytes(us);
    }
  }

  /** A successful read of more than the closing quote starts with one valid unit. */
  lemma FirstUnit(s: seq<byte>, acc: seq<byte>) returns (u: Unit, n: nat)
    requires StringFrom(s, acc).Token? && s[0] != QUOTE
    ensures ValidUnit(u) && 0 < n <= |s| && s == UnitText(u) + s[n..]
    ensures StringFrom(s, acc) == StringFrom(s[n..], acc + UnitBytes(u))
  {
    if s[0] != BACKSLASH {
      u, n := Plain(s[0]), 1;
    } else if s[1] != 117 {
      u, n := Escape(s[1]), 2;
      assert s[1..][1..] == s[2..];
    } else {
      u, n := Unicode(s[2..6]), 6;
      assert s[..6] == UnitText(u);
      assert s[1..][1..5] == s[2..6] && s[1..][5..] == s[6..];
    }
  }

  /** The string reader accepts nothing else. */
  lemma {:induction false} StringSound(s: seq<byte>, acc: seq<byte>) returns (us: seq<Unit>)
    requires StringFrom(s, acc).Token?
    ensures ValidUnits(us)
    ensures s == BodyText(us) + [QUOTE] + StringFrom(s, acc).rest
    ensures StringFrom(s, acc).text == acc + BodyBytes(us)
    decreases |s|
  {
    if s[0] == QUOTE {
      us := [];
    } else {
      var u, n := FirstUnit(s, acc);
      var tail := StringSound(s[n..], acc + UnitBytes(u));
      us := [u] + tail;
      BodyCons(u, tail);
      assert s == UnitText(u) + (BodyText(tail) + [QUOTE] + StringFrom(s, acc).rest);
    }
  }

  // ---------------------------------------------------------------- numbers

  predicate IsNumberStart(c: int) {
    IsDigit(c) || c == MINUS || c == PLUS || c == DOT
  }

  predicate IsFloatChar(c: int) {
    c == DOT || c == 101 || c == 69
  }

  predicate IsNumberChar(c: int) {
    IsNumberStart(c) || IsFloatChar(c)
  }

  predicate IsNumberEnd(c: int) {
    c == COMMA || c == RBRACE || c == RBRACKET || IsWs(c)
  }

  /** Reads the characters after the first one of a number; the terminator stays unread. */
  function NumberFrom(s: seq<byte>, acc: seq<byte>, atRoot: bool): (t: Token)
    ensures t.Token? ==> |t.rest| <= |s|
    decreases |s|
  {
    if s == [] then (if atRoot then Token(acc, s) else Bad)
    else if IsNumberChar(s[0]) then NumberFrom(s[1..], acc + [s[0]], atRoot)
    else if IsNumberEnd(s[0]) then Token(acc, s)
    else Bad
  }

  predicate ValidNumber(t: seq<byte>) {
    t != [] && IsNumberStart(t[0]) && forall i :: 0 <= i < |t| ==> IsNumberChar(t[i])
  }

  /** A number is flagged as floating point by any '.', 'e' or 'E' except as its first character. */
  predicate IsFloat(t: seq<byte>) {
    exists i :: 1 <= i < |t| && IsFloatChar(t[i])
  }

  lemma {:induction false} NumberComplete(t: seq<byte>, rest: seq<byte>, acc: seq<byte>, atRoot: bool)
    requires forall i :: 0 <= i < |t| ==> IsNumberChar(t[i])
    requires if rest == [] then atRoot else IsNumberEnd(rest[0])
    ensures NumberFrom(t + rest, acc, atRoot) == Token(acc + t, rest)
  {
    if t == [] {
      assert t + rest == rest;
      assert acc + t == acc;
    } else {
      assert (t + rest)[1..] == t[1..] + rest;
      NumberComplete(t[1..], rest, acc + [t[0]], atRoot);
      assert acc + [t[0]] + t[1..] == acc + t;
    }
  }

  lemma {:induction false} NumberSound(s: seq<byte>, acc: seq<byte>, atRoot: bool) returns (t: seq<byte>)
    requires NumberFrom(s, acc, atRoot).Token?
    ensures forall i :: 0 <= i < |t| ==> IsNumberChar(t[i])
    ensures s == t + NumberFrom(s, acc, atRoot).rest
    ensures NumberFrom(s, acc, atRoot).text == acc + t
    decreases |s|
  {
    if s != [] && IsNumberChar(s[0]) {
      t := NumberSound(s[1..], acc + [s[0]], atRoot);
      t := [s[0]] + t;
    } else {
      t := [];
    }
  }

  // ---------------------------------------------------------------- keywords

  /** Reads the given characters one by one. */
  function MatchFrom(s: seq<byte>, text: seq<byte>): (t: Token)
    ensures t.Token? ==> s == text + t.rest
    decreases |text|
  {
    if text == [] then Token([], s)
    else if s != [] && s[0] == text[0] then MatchFrom(s[1..], text[1..])
    else Bad
  }

  lemma {:induction false} MatchComplete(text: seq<byte>, rest: seq<byte>)
    ensures MatchFrom(text + rest, text) == Token([], rest)
  {
    if text == [] {
      assert text + rest == rest;
    } else {
      assert (text + rest)[1..] == text[1..] + rest;
      MatchComplete(text[1..], rest);
    }
  }

  /** Reads the characters of a keyword after its first one. */
  function KeywordFrom(s: seq<byte>, keyword: seq<byte>): (t: Token)
    requires keyword != []
    ensures t.Token? ==> |t.rest| <= |s|
  {
    MatchFrom(s, keyword[1..])
  }

  // ---------------------------------------------------------------- blanks

  predicate Blanks(w: seq<byte>) {
    forall i :: 0 <= i < |w| ==> IsWs(w[i])
  }

  lemma {:induction false} SkipBlanks(w: seq<byte>, s: seq<byte>)
    requires Blanks(w)
    ensures SkipWs(w + s) == SkipWs(s)
  {
    if w == [] {
      assert w + s == s;
    } else {
      assert (w + s)[1..] == w[1..] + s;
      SkipBlanks(w[1..], s);
    }
  }

  lemma {:induction false} SkipSound(s: seq<byte>) returns (w: seq<byte>)
    ensures Blanks(w) && s == w + SkipWs(s)
  {
    if s != [] && IsWs(s[0]) {
      w := SkipSound(s[1..]);
      w := [s[0]] + w;
    } else {
      w := [];
    }
  }
}
