/** The growing byte buffer over a real array: growth by doubling, appends, the overlapping word copies of
    AppendBytes and the escaping loops. Each append is proved against the pieces of Output. */
module Bytes {
  import opened Ascii
  import opened Tree
  import opened ParserState
  import opened Outcome
  import opened Output
  import opened Emitter

  // ------------------------------------------------------------ growth over a run of requests

  /** The length of the array after these sizes were asked for one after the other. */
  function CapacityOf(initial: nat, sizes: seq<nat>): nat
    decreases |sizes|
  {
    if sizes == [] then initial else CapacityOf(Grown(initial, sizes[0]), sizes[1..])
  }

  /** The bytes moved by Resize on the way. */
  function MovedBytes(initial: nat, sizes: seq<nat>): nat
    decreases |sizes|
  {
    if sizes == [] then 0
    else (if sizes[0] <= initial then 0 else initial) + MovedBytes(Grown(initial, sizes[0]), sizes[1..])
  }

  function Largest(sizes: seq<nat>): nat {
    if sizes == [] then 0 else Max(sizes[0], Largest(sizes[1..]))
  }

  /** Growing is cheap and does not overshoot: all bytes ever moved are paid for by the growth of the array, its
      length stays within twice the largest request, and every request is met. */
  lemma {:induction false} GrowthIsAmortised(initial: nat, sizes: seq<nat>)
    ensures MovedBytes(initial, sizes) <= CapacityOf(initial, sizes) - initial
    ensures Largest(sizes) <= CapacityOf(initial, sizes) || sizes == []
    ensures initial <= CapacityOf(initial, sizes) <= Max(initial, 2 * Largest(sizes))
    decreases |sizes|
  {
    if sizes != [] {
      GrowthIsAmortised(Grown(initial, sizes[0]), sizes[1..]);
    }
  }

  /** How often the array was replaced. */
  function Growths(initial: nat, sizes: seq<nat>): nat
    decreases |sizes|
  {
    if sizes == [] then 0
    else (if sizes[0] > initial then 1 else 0) + Growths(Grown(initial, sizes[0]), sizes[1..])
  }

  function PowerOfTwo(n: nat): nat {
    if n == 0 then 1 else 2 * PowerOfTwo(n - 1)
  }

  /** Every replacement at least doubles the array, so n of them multiply its length by two to the n. */
  lemma {:induction false} GrowthsDouble(initial: nat, sizes: seq<nat>)
    ensures PowerOfTwo(Growths(initial, sizes)) * initial <= CapacityOf(initial, sizes)
    decreases |sizes|
  {
    if sizes != [] {
      var grown, n := Grown(initial, sizes[0]), Growths(Grown(initial, sizes[0]), sizes[1..]);
      GrowthsDouble(grown, sizes[1..]);
      if sizes[0] > initial {
        assert PowerOfTwo(n + 1) * initial == PowerOfTwo(n) * (2 * initial) <= PowerOfTwo(n) * grown;
      }
    }
  }

  class Bytes {
    var start: nat
    var end: nat
    var buffer: array<byte>
    /** All bytes moved by Resize so far. */
    ghost var moved: nat

    ghost predicate Valid()
      reads this
    {
      start <= end <= buffer.Length
    }

    ghost function Contents(): seq<byte>
      requires Valid()
      reads this, buffer
    {
      buffer[start..end]
    }

    /** Everything up to the end, as the writer sees its output. */
    ghost function S(): Sink
      requires Valid()
      reads this, buffer
    {
      Sink(buffer[..end], buffer.Length)
    }

    constructor (capacity: nat)
      ensures Valid() && S() == Sink([], capacity) && start == 0 && moved == 0 && fresh(buffer)
    {
      start, end, moved := 0, 0, 0;
      buffer := new byte[capacity](_ => 0);
    }

    // ------------------------------------------------------------ capacity

    /** A new array with the old bytes as far as they fit. */
    method Resize(size: nat)
      modifies this`buffer, this`moved
      ensures fresh(buffer) && buffer.Length == size
      ensures var n := if size < old(buffer.Length) then size else old(buffer.Length);
        buffer[..n] == old(buffer[..n]) && moved == old(moved) + n
    {
      var newArr := new byte[size](_ => 0);
      var len := if size < buffer.Length then size else buffer.Length;
      var i := 0;
      while i < len
        invariant 0 <= i <= len && newArr[..i] == buffer[..i]
        invariant unchanged(this) && unchanged(buffer)
        modifies newArr
      {
        newArr[i] := buffer[i];
        i := i + 1;
      }
      buffer, moved := newArr, moved + len;
    }

    method DoubleSize(size: nat)
      requires Valid() && size > buffer.Length
      modifies this`buffer, this`moved
      ensures Valid() && fresh(buffer) && buffer.Length == Grown(old(buffer.Length), size)
      ensures buffer.Length == if size < 2 * old(buffer.Length) then 2 * old(buffer.Length) else size
      ensures buffer[..old(buffer.Length)] == old(buffer[..]) && moved == old(moved) + old(buffer.Length)
      ensures moved - old(moved) <= buffer.Length - old(buffer.Length)
    {
      var capacity := buffer.Length;
      Resize(if size < 2 * capacity then 2 * capacity else size);
    }

    method EnsureCapacityAbs(size: nat)
      requires Valid()
      modifies this`buffer, this`moved
      ensures Valid() && buffer.Length == Grown(old(buffer.Length), size)
      ensures size <= old(buffer.Length) ==> buffer.Length == old(buffer.Length) && moved == old(moved)
      ensures size > old(buffer.Length) ==>
        && buffer.Length == (if size < 2 * old(buffer.Length) then 2 * old(buffer.Length) else size)
        && moved == old(moved) + old(buffer.Length)
      ensures moved == old(moved) + MovedBytes(old(buffer.Length), [size])
      ensures moved - old(moved) <= buffer.Length - old(buffer.Length)
      ensures if size <= old(buffer.Length) then buffer == old(buffer) else fresh(buffer)
      ensures buffer[..old(buffer.Length)] == old(buffer[..])
      ensures S() == old(S()).(capacity := buffer.Length) && Contents() == old(Contents())
    {
      assert MovedBytes(Grown(buffer.Length, size), [size][1..]) == 0;
      if size <= buffer.Length {
        return;
      }
      DoubleSize(size);
      assert buffer[..end] == buffer[..old(buffer.Length)][..end] && buffer[start..end] == buffer[..end][start..];
    }

    // ------------------------------------------------------------ plain appends

    method AppendChar(c: byte)
      requires Valid()
      modifies this`end, this`buffer, this`moved, buffer
      ensures Valid() && Put(old(S()), Raw([c])) == Ok(S()) && start == old(start)
      ensures buffer == old(buffer) || fresh(buffer)
      ensures moved - old(moved) <= buffer.Length - old(buffer.Length)
    {
      hide MovedBytes, Grown;
      EnsureCapacityAbs(end + 1);
      ghost var before := buffer[..end];
      buffer[end] := c;
      end := end + 1;
      assert buffer[..end] == before + [c];
    }

    // ------------------------------------------------------------ word copies

    /** Reads a word of size bytes and writes it: *(long*)(dst + off) = *(long*)(src + off), or shorter. */
    static method CopyWord(src: array<byte>, s: nat, dst: array<byte>, d: nat, off: int, size: nat,
        ghost text: seq<byte>)
      requires 0 <= off && off + size <= |text| && s + |text| <= src.Length && d + |text| <= dst.Length
      requires Holds(src, s, text, 0, |text|) && (src == dst ==> s + |text| <= d)
      modifies dst
      ensures forall j :: d + off <= j < d + off + size ==> dst[j] == text[j - d]
      ensures forall j :: 0 <= j < dst.Length && !(d + off <= j < d + off + size) ==> dst[j] == old(dst[j])
      ensures Holds(src, s, text, 0, |text|)
    {
      var word := src[s + off..s + off + size];
      assert forall i :: 0 <= i < size ==> word[i] == src[s + off + i];
      forall i | 0 <= i < size {
        dst[d + off + i] := word[i];
      }
      assert forall j :: d + off <= j < d + off + size ==> dst[j] == word[j - d - off];
    }

    /** The array holds the bytes lo to hi of a text that starts at d. */
    static ghost predicate Holds(a: array<byte>, d: nat, text: seq<byte>, lo: int, hi: int)
      requires 0 <= lo && hi <= |text| && d + |text| <= a.Length
      reads a
    {
      forall j :: d + lo <= j < d + hi ==> a[j] == text[j - d]
    }

    /** Up to 8 bytes: at most two words, of which the second may overlap the first. */
    static method CopyShort(src: array<byte>, s: nat, dst: array<byte>, d: nat, count: nat, ghost text: seq<byte>)
      requires count == |text| && 0 < count <= 8 && s + count <= src.Length && d + count <= dst.Length
      requires Holds(src, s, text, 0, count) && (src == dst ==> s + count <= d)
      modifies dst
      ensures Holds(dst, d, text, 0, count)
      ensures forall j :: 0 <= j < dst.Length && !(d <= j < d + count) ==> dst[j] == old(dst[j])
    {
      match count {
        case 1 => CopyWord(src, s, dst, d, 0, 1, text);
        case 2 => CopyWord(src, s, dst, d, 0, 2, text);
        case 3 =>
          CopyWord(src, s, dst, d, 0, 2, text);
          CopyWord(src, s, dst, d, 2, 1, text);
        case _ =>
          CopyWord(src, s, dst, d, 0, 4, text);
          CopyWord(src, s, dst, d, count - 4, 4, text);
      }
    }

    /** 9 to 63 bytes: the last word first, then whole words from the front as far as they fit. */
    static method CopyLong(src: array<byte>, s: nat, dst: array<byte>, d: nat, count: nat, ghost text: seq<byte>)
      requires count == |text| && 8 < count < 64 && s + count <= src.Length && d + count <= dst.Length
      requires Holds(src, s, text, 0, count) && (src == dst ==> s + count <= d)
      modifies dst
      ensures Holds(dst, d, text, 0, count)
      ensures forall j :: 0 <= j < dst.Length && !(d <= j < d + count) ==> dst[j] == old(dst[j])
    {
      CopyWord(src, s, dst, d, count - 8, 8, text);
      CopyWord(src, s, dst, d, 0, 8, text);
      if count < 16 { return; }
      CopyWord(src, s, dst, d, 8, 8, text);
      if count < 24 { return; }
      CopyWord(src, s, dst, d, 16, 8, text);
      if count < 32 { return; }
      CopyWord(src, s, dst, d, 24, 8, text);
      if count < 40 { return; }
      CopyWord(src, s, dst, d, 32, 8, text);
      if count < 48 { return; }
      CopyWord(src, s, dst, d, 40, 8, text);
      if count < 56 { return; }
      CopyWord(src, s, dst, d, 48, 8, text);
    }

    /** Appends the contents of another buffer, or a stretch of the own bytes. The addresses of the first source
        and the first free byte are taken even if there is nothing to copy, which fails at the end of an array. */
    method AppendBytes(source: Bytes) returns (r: Outcome<()>)
      requires Valid() && source.Valid() && (source.buffer == buffer ==> source.end <= end)
      modifies this`end, this`buffer, this`moved, buffer
      ensures Valid() && start == old(start) && (buffer == old(buffer) || fresh(buffer))
      ensures moved - old(moved) <= buffer.Length - old(buffer.Length)
      ensures var text := old(source.Contents());
        && (r.Throw? <==> text == [] && (old(source.start == source.buffer.Length) || old(end == buffer.Length)))
        && (r.Throw? ==> r.e == IndexOutOfRange && S() == old(S()))
        && (r.Ok? ==> Put(old(S()), Copied(text)) == Ok(S()))
        && (buffer == old(buffer) ==> buffer[end..] == old(buffer[..])[end..])
    {
      hide Grown, MovedBytes;
      ghost var text, old0 := source.Contents(), buffer[..];
      var count, curEnd, s := source.end - source.start, end, source.start;
      var newEnd := curEnd + count;
      GrownFits(buffer.Length, newEnd);
      if newEnd > buffer.Length {
        DoubleSize(newEnd);
        assert buffer[..curEnd] == buffer[..old(buffer.Length)][..curEnd];
      }
      end := newEnd;
      if s >= source.buffer.Length || curEnd >= buffer.Length {
        assert text == [];
        return Throw(IndexOutOfRange);
      }
      assert Holds(source.buffer, s, text, 0, count) by {
        if source == this && newEnd > old(buffer.Length) {
          assert forall j :: 0 <= j < curEnd ==> buffer[j] == buffer[..curEnd][j] == old0[j];
        }
      }
      CopyBehind(source.buffer, s, curEnd, text);
      assert buffer == old(buffer) ==> buffer[end..] == old0[end..];
      return Ok(());
    }

    /** The copy of a text in front of the new end. */
    method CopyBehind(src: array<byte>, s: nat, curEnd: nat, ghost text: seq<byte>)
      requires curEnd <= end <= buffer.Length && end - curEnd == |text| && s + |text| <= src.Length
      requires Holds(src, s, text, 0, |text|) && (src == buffer ==> s + |text| <= curEnd)
      modifies buffer
      ensures buffer[..end] == old(buffer[..curEnd]) + text && buffer[end..] == old(buffer[end..])
    {
      ghost var before := buffer[..];
      CopyAll(src, s, buffer, curEnd, end - curEnd, text);
      assert forall j :: end <= j < buffer.Length ==> buffer[j] == before[j];
      assert buffer[..curEnd] == before[..curEnd];
      assert buffer[..end] == buffer[..curEnd] + text;
      assert buffer[end..] == before[end..];
    }

    /** Appends a stretch of another array, or of the bytes before the own end, byte by byte. */
    method AppendArray(str: array<byte>, from: nat, to: nat)
      requires Valid() && from <= to <= str.Length && (str == buffer ==> to <= end)
      modifies this`end, this`buffer, this`moved, buffer
      ensures Valid() && start == old(start) && (buffer == old(buffer) || fresh(buffer))
      ensures moved - old(moved) <= buffer.Length - old(buffer.Length)
      ensures Put(old(S()), Raw(old(str[from..to]))) == Ok(S())
    {
      hide Grown, MovedBytes;
      ghost var text := str[from..to];
      var strLen, thisEnd := to - from, end;
      EnsureCapacityAbs(end + strLen);
      assert Holds(str, from, text, 0, strLen);
      CopyFrom(str, from, thisEnd, strLen, text);
      end := end + strLen;
    }

    /** The same copy, by what it leaves in the array. */
    method CopyFrom(src: array<byte>, s: nat, thisEnd: nat, strLen: nat, ghost text: seq<byte>)
      requires strLen == |text| && s + strLen <= src.Length && thisEnd + strLen <= buffer.Length
      requires Holds(src, s, text, 0, strLen) && (src == buffer ==> s + strLen <= thisEnd)
      modifies buffer
      ensures buffer[..thisEnd + strLen] == old(buffer[..thisEnd]) + text
    {
      ghost var before := buffer[..thisEnd];
      CopyBytes(src, s, buffer, thisEnd, strLen, text);
      assert buffer[..thisEnd] == before;
      assert buffer[..thisEnd + strLen] == before + text;
    }

    /** The loop of AppendArray. */
    static method CopyBytes(src: array<byte>, s: nat, dst: array<byte>, d: nat, count: nat, ghost text: seq<byte>)
      requires count == |text| && s + count <= src.Length && d + count <= dst.Length
      requires Holds(src, s, text, 0, count) && (src == dst ==> s + count <= d)
      modifies dst
      ensures Holds(dst, d, text, 0, count)
      ensures forall j :: 0 <= j < dst.Length && !(d <= j < d + count) ==> dst[j] == old(dst[j])
    {
      var n := 0;
      while n < count
        invariant 0 <= n <= count && Holds(dst, d, text, 0, n) && Holds(src, s, text, 0, count)
        invariant forall j :: 0 <= j < dst.Length && !(d <= j < d + n) ==> dst[j] == old(dst[j])
      {
        dst[d + n] := src[s + n];
        n := n + 1;
      }
    }

    /** The choice of copy by length; from 64 bytes on it is a block copy. */
    static method CopyAll(src: array<byte>, s: nat, dst: array<byte>, d: nat, count: nat, ghost text: seq<byte>)
      requires count == |text| && s + count <= src.Length && d + count <= dst.Length
      requires Holds(src, s, text, 0, count) && (src == dst ==> s + count <= d)
      modifies dst
      ensures Holds(dst, d, text, 0, count)
      ensures forall j :: 0 <= j < dst.Length && !(d <= j < d + count) ==> dst[j] == old(dst[j])
    {
      if count == 0 {
        return;
      }
      if count <= 8 {
        CopyShort(src, s, dst, d, count, text);
      } else if count < 64 {
        CopyLong(src, s, dst, d, count, text);
      } else {
        CopyWord(src, s, dst, d, 0, count, text);
      }
    }

    static lemma GrownFits(capacity: nat, size: nat)
      ensures size <= capacity ==> Grown(capacity, size) == capacity
    {
    }

    // ------------------------------------------------------------ strings and indentation

    /** dstArr[dst.end++] = c, which fails at the end of the array. */
    method PutByte(c: byte) returns (r: Outcome<()>)
      requires Valid()
      modifies this`end, buffer
      ensures Valid()
      ensures if old(end) < buffer.Length then r.Ok? && end == old(end) + 1 && buffer[..end] == old(buffer[..end]) + [c]
              else r == Throw(IndexOutOfRange)
    {
      if end >= buffer.Length {
        return Throw(IndexOutOfRange);
      }
      ghost var before := buffer[..end];
      buffer[end] := c;
      end := end + 1;
      assert buffer[..end] == before + [c];
      return Ok(());
    }

    method PutEscaped(c: byte) returns (r: Outcome<()>)
      requires Valid()
      modifies this`end, buffer
      ensures Valid()
      ensures if old(end) + |EscapeByte(c)| <= buffer.Length
              then r.Ok? && buffer[..end] == old(buffer[..end]) + EscapeByte(c)
              else r == Throw(IndexOutOfRange)
    {
      ghost var before := buffer[..end];
      var letter := EscapeLetter(c);
      if letter == -1 {
        r := PutByte(c);
      } else {
        var _ :- PutByte(BACKSLASH);
        r := PutByte(letter);
        assert before + [BACKSLASH] + [letter] == before + [BACKSLASH, letter];
      }
    }

    /** Appends a string between quotes with its escapes. The room asked for is one byte short of the longest
        form, so this fails exactly where the piece does not fit. */
    method AppendEscStringBytes(src: seq<byte>) returns (r: Outcome<()>)
      requires Valid()
      modifies this`end, this`buffer, this`moved, buffer
      ensures Valid() && start == old(start) && (buffer == old(buffer) || fresh(buffer))
      ensures moved - old(moved) <= buffer.Length - old(buffer.Length)
      ensures match r
        case Ok(_) => Put(old(S()), Quoted(src)) == Ok(S())
        case Throw(e) => Put(old(S()), Quoted(src)) == Throw(e)
    {
      hide Grown, MovedBytes, EscapeBytes;
      EnsureCapacityAbs(end + (2 * |src| + 1));
      r := WriteQuoted(src);
    }

    /** The bytes one after the other into the array there is. */
    method WriteQuoted(src: seq<byte>) returns (r: Outcome<()>)
      requires Valid()
      modifies this`end, buffer
      ensures Valid()
      ensures if old(end) + |PieceText(Quoted(src))| <= buffer.Length
              then r.Ok? && buffer[..end] == old(buffer[..end]) + PieceText(Quoted(src))
              else r == Throw(IndexOutOfRange)
    {
      hide EscapeBytes, EscapeByte;
      ghost var json, body, out := buffer[..end], EscapeBytes(src), [QUOTE];
      EscapedPrefix(src, 0);
      EscapedPrefix(src, |src|);
      var _ :- PutByte(QUOTE);
      var n := 0;
      assert out == [QUOTE] + EscapeBytes(src[..0]);
      while n < |src|
        invariant 0 <= n <= |src| && Valid()
        invariant buffer[..end] == json + out && out == [QUOTE] + EscapeBytes(src[..n])
      {
        EscapedPrefix(src, n);
        EscapedPrefix(src, n + 1);
        ghost var more := EscapeByte(src[n]);
        Assoc(json, out, more);
        Assoc([QUOTE], EscapeBytes(src[..n]), more);
        var _ :- PutEscaped(src[n]);
        out := out + more;
        n := n + 1;
      }
      Assoc(json, out, [QUOTE]);
      r := PutByte(QUOTE);
    }

    static lemma Assoc(a: seq<byte>, b: seq<byte>, c: seq<byte>)
      ensures a + b + c == a + (b + c)
    {
    }

    /** What has been written of a string is no longer than its whole form. */
    static lemma EscapedPrefix(src: seq<byte>, n: nat)
      requires n <= |src|
      ensures n == 0 ==> EscapeBytes(src[..n]) == []
      ensures n > 0 ==> EscapeBytes(src[..n]) == EscapeBytes(src[..n - 1]) + EscapeByte(src[n - 1])
      ensures |EscapeBytes(src[..n])| <= |EscapeBytes(src)|
      ensures n == |src| ==> src[..n] == src
    {
      EscapeConcat(src[..n], src[n..]);
      assert src[..n] + src[n..] == src;
      if n > 0 {
        EscapeConcat(src[..n - 1], [src[n - 1]]);
        assert src[..n - 1] + [src[n - 1]] == src[..n];
        assert EscapeBytes([src[n - 1]]) == EscapeByte(src[n - 1]) + EscapeBytes([src[n - 1]][1..]);
        assert EscapeByte(src[n - 1]) + [] == EscapeByte(src[n - 1]);
      }
    }

    /** A line feed and four blanks for each level. */
    method IndentJsonNode(level: nat)
      requires Valid()
      modifies this`end, this`buffer, this`moved, buffer
      ensures Valid() && start == old(start) && (buffer == old(buffer) || fresh(buffer))
      ensures moved - old(moved) <= buffer.Length - old(buffer.Length)
      ensures Put(old(S()), Raw(LineBreak(level))) == Ok(S())
    {
      hide Grown, MovedBytes;
      EnsureCapacityAbs(end + 1 + 4 * level);
      WriteLineBreak(level);
    }

    method WriteLineBreak(level: nat)
      requires Valid() && end + 1 + 4 * level <= buffer.Length
      modifies this`end, buffer
      ensures Valid() && buffer[..end] == old(buffer[..end]) + LineBreak(level)
    {
      hide LineBreak;
      ghost var json := buffer[..end];
      LineBreakGrows(0);
      var r := PutByte(LF);
      var n := 0;
      while n < level
        invariant 0 <= n <= level && Valid() && end == |json| + 1 + 4 * n
        invariant buffer[..end] == json + LineBreak(n)
      {
        PutFourBlanks();
        LineBreakGrows(n + 1);
        Assoc(json, LineBreak(n), [BLANK, BLANK, BLANK, BLANK]);
        n := n + 1;
      }
    }

    static lemma LineBreakGrows(n: nat)
      ensures n == 0 ==> LineBreak(n) == [LF]
      ensures n > 0 ==> LineBreak(n) == LineBreak(n - 1) + [BLANK, BLANK, BLANK, BLANK]
      ensures |LineBreak(n)| == 1 + 4 * n
    {
    }

    method PutFourBlanks()
      requires Valid() && end + 4 <= buffer.Length
      modifies this`end, buffer
      ensures Valid() && end == old(end) + 4 && buffer[..end] == old(buffer[..end]) + [BLANK, BLANK, BLANK, BLANK]
    {
      var r := PutByte(BLANK);
      r := PutByte(BLANK);
      r := PutByte(BLANK);
      r := PutByte(BLANK);
    }
  }
}
