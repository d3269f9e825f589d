/** The block buffer of the parser and the token readers on it. Every reader is proved against the
    reader over unread bytes, so no token depends on where a block ends. */
module Input {
  import opened Ascii
  import opened Lexer

  class JsonInput {
    const buf: array<byte>
    var pos: int
    var bufEnd: int
    var bufferCount: int
    var startPos: int
    var previousBytes: int
    var inputStreamOpen: bool
    var inputArray: array<byte>
    var inputArrayPos: int
    var inputArrayEnd: int
    ghost var inputStart: int

    constructor (bufSize: nat)
      requires bufSize >= 1
      ensures Input() && fresh(buf) && fresh(inputArray) && buf.Length == bufSize
      ensures startPos == 0 && ProcessedBytes() == 0
    {
      buf := new byte[bufSize](_ => 0);
      inputArray := new byte[0];
      pos, bufEnd, bufferCount, startPos, previousBytes := 0, 0, 0, 0, 0;
      inputStreamOpen, inputArrayPos, inputArrayEnd, inputStart := false, 0, 0, 0;
    }

    ghost predicate Input()
      reads this
    {
      && buf != inputArray && buf.Length >= 1
      && 0 <= pos <= bufEnd <= buf.Length
      && 0 <= inputStart <= inputArrayPos <= inputArrayEnd <= inputArray.Length
      && bufferCount + bufEnd == inputArrayPos - inputStart
      && (!inputStreamOpen ==> inputArrayPos == inputArrayEnd)
    }

    /** The bytes of the document that are not consumed yet. */
    ghost function Rem(): seq<byte>
      requires Input()
      reads this, buf, inputArray
    {
      RemFrom(pos)
    }

    ghost function RemFrom(p: int): (r: seq<byte>)
      requires Input() && 0 <= p <= bufEnd
      reads this, buf, inputArray
    {
      buf[p..bufEnd] + inputArray[inputArrayPos..inputArrayEnd]
    }

    lemma RemHead(p: int)
      requires Input() && 0 <= p < bufEnd
      ensures RemFrom(p) != [] && RemFrom(p)[0] == buf[p] && RemFrom(p)[1..] == RemFrom(p + 1)
    {
    }

    function Position(): int
      reads this
    {
      bufferCount + pos - startPos
    }

    function ProcessedBytes(): int
      reads this
    {
      previousBytes + bufferCount + pos
    }

    /** Starts on len bytes of a caller's array. The statistics keep the bytes of the previous document. */
    method InitParser(bytes: array<byte>, start: int, len: int)
      requires buf.Length >= 1 && buf != bytes && startPos == 0
      requires 0 <= start && 0 <= len && start + len <= bytes.Length
      modifies this
      ensures Input() && Rem() == bytes[start..start + len]
      ensures inputArray == bytes && inputStart == start && inputArrayEnd == start + len
      ensures startPos == 0 && Position() == 0 && ProcessedBytes() == old(ProcessedBytes())
    {
      inputArray := bytes;
      inputArrayPos := start;
      inputArrayEnd := start + len;
      inputStart := start;
      previousBytes := previousBytes + bufferCount + pos - startPos;
      bufferCount, pos, startPos, bufEnd := 0, 0, 0, 0;
      inputStreamOpen := true;
      assert buf[0..0] == [];
    }

    // ------------------------------------------------------------ block input

    method ReadByteArray() returns (len: int)
      requires Input() && pos == bufEnd
      modifies this`inputArrayPos, buf
      ensures 0 <= len <= buf.Length
      ensures inputArrayPos == old(inputArrayPos) + len <= inputArrayEnd
      ensures len == 0 <==> old(inputArrayPos) == inputArrayEnd
      ensures buf[..len] == inputArray[old(inputArrayPos)..inputArrayPos]
    {
      var curPos := inputArrayPos;
      inputArrayPos := inputArrayPos + buf.Length;
      if inputArrayPos > inputArrayEnd {
        inputArrayPos := inputArrayEnd;
      }
      len := inputArrayPos - curPos;
      if len == 0 {
        return;
      }
      forall i | 0 <= i < len {
        buf[i] := inputArray[curPos + i];
      }
    }

    /** Replaces the consumed block by the next one. The unread bytes stay the same. */
    method Read() returns (more: bool)
      requires Input() && pos == bufEnd
      modifies this`pos, this`bufEnd, this`bufferCount, this`inputArrayPos, this`inputStreamOpen, buf
      ensures Input() && Rem() == old(Rem())
      ensures more <==> Rem() != []
      ensures more ==> pos == 0 < bufEnd && inputArrayPos > old(inputArrayPos)
      ensures !more ==> pos == bufEnd && unchanged(this`pos, this`bufEnd, this`bufferCount, this`inputArrayPos)
    {
      if !inputStreamOpen {
        assert buf[pos..bufEnd] == [];
        return false;
      }
      var readBytes := ReadByteArray();
      if readBytes != 0 {
        bufEnd := readBytes;
        bufferCount := bufferCount + pos;
        pos := 0;
        assert buf[0..bufEnd] == buf[..readBytes];
        assert old(buf[pos..bufEnd]) == [];
        assert Rem() == inputArray[old(inputArrayPos)..inputArrayEnd];
        return true;
      }
      inputStreamOpen := false;
      assert buf[pos..bufEnd] == [];
      return false;
    }

    // ------------------------------------------------------------ readers

    /** The first byte of the current block that is not a blank, and the position after it. */
    method ScanWhiteSpace() returns (c: int, p: int)
      requires Input()
      ensures pos <= p <= bufEnd
      ensures var w := SkipWs(Rem());
        if c == -1 then p == bufEnd && w == SkipWs(RemFrom(p)) else w != [] && c == w[0] && RemFrom(p) == w[1..]
    {
      p := pos;
      while p < bufEnd
        invariant pos <= p <= bufEnd && SkipWs(RemFrom(p)) == SkipWs(Rem())
      {
        RemHead(p);
        c := buf[p];
        p := p + 1;
        if c > BLANK {
          return;
        }
        if c != BLANK && c != TAB && c != LF && c != CR {
          return;
        }
      }
      c := -1;
    }

    method ReadWhiteSpace() returns (c: int)
      requires Input()
      modifies this`pos, this`bufEnd, this`bufferCount, this`inputArrayPos, this`inputStreamOpen, buf
      ensures Input()
      ensures var w := SkipWs(old(Rem()));
        if w == [] then c == -1 && Rem() == [] else c == w[0] && Rem() == w[1..]
    {
      ghost var w := SkipWs(Rem());
      while true
        invariant Input() && SkipWs(Rem()) == w
        decreases inputArrayEnd - inputArrayPos
      {
        c, pos := ScanWhiteSpace();
        if c != -1 {
          return;
        }
        var more := Read();
        if more {
          continue;
        }
        return -1;
      }
    }

    /** The part of a number inside the current block. */
    method ScanNumber(acc: seq<byte>, accFloat: bool, ghost atRoot: bool)
      returns (scan: Scan, p: int, text: seq<byte>, float: bool)
      requires Input() && acc != [] && accFloat == IsFloat(acc)
      ensures pos <= p <= bufEnd && text != [] && float == IsFloat(text)
      ensures var t := NumberFrom(Rem(), acc, atRoot);
        match scan
        case More => p == bufEnd && t == NumberFrom(RemFrom(p), text, atRoot)
        case Done => t == Token(text, RemFrom(p))
        case Stop => t == Bad
    {
      hide IsFloat;
      p, text, float := pos, acc, accFloat;
      while p < bufEnd
        invariant pos <= p <= bufEnd && NumberFrom(RemFrom(p), text, atRoot) == NumberFrom(Rem(), acc, atRoot)
        invariant text != [] && float == IsFloat(text)
      {
        RemHead(p);
        var c := buf[p];
        if IsDigit(c) || c == MINUS || c == PLUS {
          FloatSnoc(text, c);
          text := text + [c];
        } else if c == DOT || c == 101 || c == 69 {
          FloatSnoc(text, c);
          text := text + [c];
          float := true;
        } else if c == COMMA || c == RBRACE || c == RBRACKET || c == BLANK || c == CR || c == LF || c == TAB {
          return Done, p, text, float;
        } else {
          return Stop, p, text, float;
        }
        p := p + 1;
      }
      return More, p, text, float;
    }

    method ReadNumber(firstChar: byte, atRoot: bool) returns (r: Reading, text: seq<byte>, float: bool)
      requires Input()
      modifies this`pos, this`bufEnd, this`bufferCount, this`inputArrayPos, this`inputStreamOpen, buf
      ensures Input()
      ensures var t := NumberFrom(old(Rem()), [firstChar], atRoot);
        if r.Good? then t == Token(text, Rem()) && float == IsFloat(text) else t == Bad
    {
      hide IsFloat, NumberFrom;
      FloatFirst(firstChar);
      ghost var t := NumberFrom(Rem(), [firstChar], atRoot);
      text, float := [firstChar], false;
      while true
        invariant Input() && NumberFrom(Rem(), text, atRoot) == t
        invariant text != [] && float == IsFloat(text)
        decreases inputArrayEnd - inputArrayPos
      {
        var scan;
        scan, pos, text, float := ScanNumber(text, float, atRoot);
        if scan == Done {
          return Good, text, float;
        }
        if scan == Stop {
          return Fault("unexpected character while reading number. Found : "), text, float;
        }
        var more := Read();
        if more {
          continue;
        }
        NumberAtEnd(text, atRoot);
        if atRoot {
          return Good, text, float;
        }
        return Fault("unexpected EOF while reading number"), text, float;
      }
    }

    method ReadHexDigit() returns (ok: bool, d: int)
      requires Input()
      modifies this`pos, this`bufEnd, this`bufferCount, this`inputArrayPos, this`inputStreamOpen, buf
      ensures Input()
      ensures ok <==> old(Rem()) != []
      ensures ok ==> d == Digit2Int(old(Rem())[0]) && Rem() == old(Rem())[1..]
    {
      d := -1;
      if pos >= bufEnd {
        var more := Read();
        if !more {
          return false, d;
        }
      }
      RemHead(pos);
      d := Digit2Int(buf[pos]);
      pos := pos + 1;
      return true, d;
    }

    /** Four hex digits and the UTF-8 form of the code unit they write; surrogates are encoded one by one. */
    method ReadUnicode() returns (r: Reading, bytes: seq<byte>)
      requires Input()
      modifies this`pos, this`bufEnd, this`bufferCount, this`inputArrayPos, this`inputStreamOpen, buf
      ensures Input()
      ensures var s := old(Rem());
        && (r.Good? <==> |s| >= 4 && HexOk(s[..4]))
        && (r.Good? ==> Rem() == s[4..] && bytes == Utf8(HexValue(s[..4])))
    {
      hide Digit2Int, Utf8, Rem, Input;
      bytes := [];
      var ok, d1, d2, d3, d4;
      ghost var s := Rem();
      ok, d1 := ReadHexDigit();
      if !ok { return Fault("Expect 4 hex digits after '\\u' in value"), []; }
      ok, d2 := ReadHexDigit();
      if !ok { return Fault("Expect 4 hex digits after '\\u' in value"), []; }
      ok, d3 := ReadHexDigit();
      if !ok { return Fault("Expect 4 hex digits after '\\u' in value"), []; }
      ok, d4 := ReadHexDigit();
      if !ok { return Fault("Expect 4 hex digits after '\\u' in value"), []; }
      assert s[1..][1..][1..][1..] == s[4..];
      if d1 == -1 || d2 == -1 || d3 == -1 || d4 == -1 {
        return Fault("Invalid hex digits after '\\u' in value"), [];
      }
      var uni := d1 * 0x1000 + d2 * 0x100 + d3 * 0x10 + d4;
      return Good, Utf8(uni);
    }

    /** The rest of a \u escape; the block after its last digit is fetched at once. */
    method ReadUnicodeEscape() returns (r: Reading, bytes: seq<byte>)
      requires Input() && pos > 0 && buf[pos - 1] == 117
      modifies this`pos, this`bufEnd, this`bufferCount, this`inputArrayPos, this`inputStreamOpen, buf
      ensures Input()
      ensures var e := EscapeFrom([117] + old(Rem()));
        if r.Good? then e == Escaped(bytes, Rem()) else e.BadEscape? || e.rest == []
    {
      ghost var s := Rem();
      FirstDigits(s);
      r, bytes := ReadUnicode();
      if r.Fault? {
        return;
      }
      if pos >= bufEnd {
        var more := Read();
        if !more {
          return Fault("unexpected EOF while reading string"), bytes;
        }
      }
    }

    /** What follows a backslash at p - 1; q is where reading goes on. */
    method ReadEscape(p: int) returns (r: Reading, q: int, bytes: seq<byte>)
      requires Input() && pos < p <= bufEnd
      modifies this`pos, this`bufEnd, this`bufferCount, this`inputArrayPos, this`inputStreamOpen, buf
      ensures Input()
      ensures var e := EscapeFrom(old(RemFrom(p)));
        if r.Good? then pos <= q <= bufEnd && e == Escaped(bytes, RemFrom(q)) else e.BadEscape? || e.rest == []
    {
      hide Unescape, EscapeFrom;
      ghost var s := RemFrom(p);
      EscapeHead(s);
      q, bytes := p, [];
      if q >= bufEnd {
        pos := q;
        var more := Read();
        if !more {
          return Fault("unexpected EOF while reading string"), q, bytes;
        }
        q := pos;
      }
      RemHead(q);
      var c := buf[q];
      if c == 117 {
        pos := q + 1;
        assert s == [117] + Rem();
        r, bytes := ReadUnicodeEscape();
        return r, pos, bytes;
      }
      bytes := Unescape(c);
      return Good, q + 1, bytes;
    }

    /** The part of a string up to the next quote, line feed or backslash of the current block. */
    method ScanString(p: int, acc: seq<byte>) returns (q: int, token: seq<byte>)
      requires Input() && pos <= p <= bufEnd
      ensures p <= q <= bufEnd
      ensures StringFrom(RemFrom(p), acc) == StringFrom(RemFrom(q), token)
      ensures q < bufEnd ==> buf[q] == QUOTE || buf[q] == CR || buf[q] == LF || buf[q] == BACKSLASH
    {
      q, token := p, acc;
      while q < bufEnd
        invariant p <= q <= bufEnd && StringFrom(RemFrom(p), acc) == StringFrom(RemFrom(q), token)
      {
        RemHead(q);
        var c := buf[q];
        if c == QUOTE || c == CR || c == LF || c == BACKSLASH {
          return;
        }
        token := token + [c];
        q := q + 1;
      }
    }

    method ReadString() returns (r: Reading, token: seq<byte>)
      requires Input()
      modifies this`pos, this`bufEnd, this`bufferCount, this`inputArrayPos, this`inputStreamOpen, buf
      ensures Input()
      ensures var t := StringFrom(old(Rem()), []);
        if r.Good? then t == Token(token, Rem()) else t == Bad
    {
      hide EscapeFrom, StringFrom;
      ghost var t := StringFrom(Rem(), []);
      token := [];
      var p := pos;
      while true
        invariant Input() && pos <= p <= bufEnd && StringFrom(RemFrom(p), token) == t
        decreases |RemFrom(p)|, inputArrayEnd - inputArrayPos
      {
        p, token := ScanString(p, token);
        if p == bufEnd {
          pos := p;
          var more := Read();
          if !more {
            EmptyString(token);
            return Fault("unexpected EOF while reading string"), token;
          }
          p := pos;
        } else {
          RemHead(p);
          StringHead(RemFrom(p), token);
          if buf[p] == QUOTE {
            pos := p + 1;
            return Good, token;
          }
          if buf[p] != BACKSLASH {
            return Fault("unexpected line feed while reading string"), token;
          }
          var bytes;
          ghost var after := RemFrom(p + 1);
          r, p, bytes := ReadEscape(p + 1);
          if r.Fault? {
            if EscapeFrom(after).Escaped? {
              EmptyString(token + EscapeFrom(after).bytes);
            }
            return;
          }
          token := token + bytes;
        }
      }
    }

    method ScanKeyword(keyword: seq<byte>, keyWordPos: nat, acc: seq<byte>)
      returns (scan: Scan, p: int, next: nat, text: seq<byte>)
      requires Input() && 1 <= keyWordPos < |keyword|
      ensures pos <= p <= bufEnd
      ensures var t := MatchFrom(Rem(), keyword[keyWordPos..]);
        match scan
        case More => p == bufEnd && 1 <= next < |keyword| && t == MatchFrom(RemFrom(p), keyword[next..])
        case Done => t == Token([], RemFrom(p))
        case Stop => t == Bad
    {
      p, next, text := pos, keyWordPos, acc;
      while p < bufEnd
        invariant pos <= p <= bufEnd && 1 <= next < |keyword|
        invariant MatchFrom(RemFrom(p), keyword[next..]) == MatchFrom(Rem(), keyword[keyWordPos..])
      {
        RemHead(p);
        var c := buf[p];
        text := text + [c];
        next := next + 1;
        assert keyword[next - 1..][1..] == keyword[next..];
        p := p + 1;
        if c != keyword[next - 1] {
          return Stop, p, next, text;
        }
        if next == |keyword| {
          return Done, p, next, text;
        }
      }
      return More, p, next, text;
    }

    method ReadKeyword(firstChar: byte, keyword: seq<byte>) returns (r: Reading, text: seq<byte>)
      requires Input() && |keyword| >= 2
      modifies this`pos, this`bufEnd, this`bufferCount, this`inputArrayPos, this`inputStreamOpen, buf
      ensures Input()
      ensures var t := KeywordFrom(old(Rem()), keyword);
        if r.Good? then t.Token? && Rem() == t.rest else t == Bad
    {
      hide MatchFrom;
      ghost var t := MatchFrom(Rem(), keyword[1..]);
      text := [firstChar];
      var keyWordPos := 1;
      while true
        invariant Input() && 1 <= keyWordPos < |keyword| && MatchFrom(Rem(), keyword[keyWordPos..]) == t
        decreases inputArrayEnd - inputArrayPos
      {
        var scan;
        scan, pos, keyWordPos, text := ScanKeyword(keyword, keyWordPos, text);
        if scan == Done {
          return Good, text;
        }
        if scan == Stop {
          return Fault("invalid value: "), text;
        }
        var more := Read();
        if more {
          continue;
        }
        MatchAtEnd(keyword[keyWordPos..]);
        return Fault("Unexpected EOF while keyword"), text;
      }
    }
  }

  /** The outcome of a reader: a token, or the message of the error to set. */
  datatype Reading = Good | Fault(msg: string)

  /** How a block ends a token: more input is needed, the token is complete, or it is malformed. */
  datatype Scan = More | Done | Stop

  lemma EmptyString(acc: seq<byte>)
    ensures StringFrom([], acc) == Bad
  {
  }

  lemma NumberAtEnd(acc: seq<byte>, atRoot: bool)
    ensures NumberFrom([], acc, atRoot) == if atRoot then Token(acc, []) else Bad
  {
  }

  lemma MatchAtEnd(text: seq<byte>)
    requires text != []
    ensures MatchFrom([], text) == Bad
  {
  }

  lemma FirstDigits(s: seq<byte>)
    ensures |s| >= 4 ==> ([117] + s)[1..5] == s[..4] && ([117] + s)[5..] == s[4..]
  {
  }

  lemma FloatFirst(c: byte)
    ensures !IsFloat([c])
  {
  }

  lemma FloatSnoc(t: seq<byte>, c: byte)
    requires t != []
    ensures IsFloat(t + [c]) == (IsFloat(t) || IsFloatChar(c))
  {
    var u := t + [c];
    if IsFloat(t) {
      var i :| 1 <= i < |t| && IsFloatChar(t[i]);
      assert IsFloatChar(u[i]);
    }
    if IsFloatChar(c) {
      assert IsFloatChar(u[|t|]);
    }
  }
}
