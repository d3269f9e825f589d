/** The interning buffer: strings are laid one behind the other into one growing array, and handles to them
    stay good while it grows. Texts are given in their UTF-8 form. */
module Utf8Buffer {
  import opened Ascii
  import opened ParserState

  /** A handle: a region of the buffer's current array. */
  datatype Utf8String = Utf8String(start: nat, len: nat) {
    function End(): nat {
      start + len
    }
  }

  /** A handle that was handed out and the text it was handed out for. */
  datatype Entry = Entry(handle: Utf8String, text: seq<byte>)

  /** The entries follow each other without gaps up to pos. */
  predicate Laid(entries: seq<Entry>, pos: nat) {
    if entries == [] then pos == 0
    else
      var last := entries[|entries| - 1];
      last.handle.len == |last.text| && last.handle.End() == pos && Laid(entries[..|entries| - 1], last.handle.start)
  }

  /** The bytes of every handle are the text it was handed out for. */
  predicate Kept(entries: seq<Entry>, bytes: seq<byte>) {
    forall i :: 0 <= i < |entries| ==>
      var e := entries[i]; e.handle.End() <= |bytes| && bytes[e.handle.start..e.handle.End()] == e.text
  }

  /** The regions of different handles do not overlap, and none reaches beyond what is used. */
  lemma {:induction false} Disjoint(entries: seq<Entry>, pos: nat, i: nat, j: nat)
    requires Laid(entries, pos) && i < j <= |entries|
    ensures entries[i].handle.End() <= if j < |entries| then entries[j].handle.start else pos
    ensures entries[i].handle.len == |entries[i].text|
    decreases |entries|
  {
    var last, before := entries[|entries| - 1], entries[..|entries| - 1];
    if i < |before| {
      if j == |entries| {
        Disjoint(before, last.handle.start, i, |before|);
      } else {
        Disjoint(before, last.handle.start, i, j);
      }
    }
  }

  lemma LaidSnoc(entries: seq<Entry>, pos: nat, text: seq<byte>)
    requires Laid(entries, pos)
    ensures Laid(entries + [Entry(Utf8String(pos, |text|), text)], pos + |text|)
  {
    assert (entries + [Entry(Utf8String(pos, |text|), text)])[..|entries|] == entries;
  }

  /** Writing behind pos, into the same or a longer array, leaves all handed-out bytes alone. */
  lemma KeptSnoc(entries: seq<Entry>, pos: nat, bytes: seq<byte>, bytes2: seq<byte>, text: seq<byte>)
    requires Laid(entries, pos) && Kept(entries, bytes) && pos <= |bytes|
    requires pos + |text| <= |bytes2| && bytes2[..pos] == bytes[..pos] && bytes2[pos..pos + |text|] == text
    ensures Kept(entries + [Entry(Utf8String(pos, |text|), text)], bytes2)
  {
    forall i | 0 <= i < |entries|
      ensures var e := entries[i]; e.handle.End() <= |bytes2| && bytes2[e.handle.start..e.handle.End()] == e.text
    {
      Disjoint(entries, pos, i, |entries|);
      var h := entries[i].handle;
      assert bytes2[h.start..h.End()] == bytes2[..pos][h.start..h.End()];
      assert bytes[h.start..h.End()] == bytes[..pos][h.start..h.End()];
    }
  }

  class Utf8Buffer {
    var buf: array<byte>
    var pos: nat
    var strings: seq<Utf8String>
    /** Everything handed out since the last Clear. */
    ghost var entries: seq<Entry>
    /** For each string of the list, which entry it is. */
    ghost var index: seq<nat>

    ghost predicate Valid()
      reads this, buf
    {
      && pos <= buf.Length && Laid(entries, pos) && Kept(entries, buf[..])
      && |index| == |strings|
      && (forall i :: 0 <= i < |index| ==> index[i] < |entries| && entries[index[i]].handle == strings[i])
    }

    ghost function Texts(): (r: seq<seq<byte>>)
      requires |index| == |strings| && forall i :: 0 <= i < |index| ==> index[i] < |entries|
      reads this
      ensures |r| == |strings| && forall i :: 0 <= i < |r| ==> r[i] == entries[index[i]].text
    {
      seq(|strings|, i requires 0 <= i < |strings| && |index| == |strings|
          && (forall k :: 0 <= k < |index| ==> index[k] < |entries|)
                     reads this => entries[index[i]].text)
    }

    /** No two strings of the list are equal. */
    ghost predicate Distinct()
      requires Valid()
      reads this, buf
    {
      forall i, j :: 0 <= i < j < |strings| ==> Texts()[i] != Texts()[j]
    }

    constructor ()
      ensures Valid() && entries == [] && strings == [] && fresh(buf)
    {
      buf := new byte[32](_ => 0);
      pos, strings, entries, index := 0, [], [], [];
    }

    /** Forgets all strings; the array is kept and written over, so older handles are void. */
    method Clear()
      modifies this
      ensures Valid() && buf == old(buf) && entries == [] && strings == []
    {
      pos, strings, entries, index := 0, [], [], [];
    }

    /** The bytes of a handle. */
    method ReadOnlySpan(h: Utf8String) returns (text: seq<byte>)
      requires Valid() && h.End() <= buf.Length
      ensures forall e :: e in entries && e.handle == h ==> text == e.text
    {
      text := buf[h.start..h.End()];
      forall e | e in entries && e.handle == h
        ensures text == e.text
      {
        var i :| 0 <= i < |entries| && entries[i] == e;
        assert buf[..][h.start..h.End()] == buf[h.start..h.End()];
      }
    }

    /** Room for len more bytes, in a longer array if need be. */
    method Reserve(len: nat) returns (curPos: nat)
      requires pos <= buf.Length
      modifies this`buf, this`pos
      ensures curPos == old(pos) && pos == curPos + len <= buf.Length
      ensures buf.Length == Grown(old(buf.Length), curPos + len) && buf[..curPos] == old(buf[..pos])
      ensures buf == old(buf) || fresh(buf)
    {
      curPos := pos;
      var newLen := curPos + len;
      if newLen > buf.Length {
        if newLen < 2 * buf.Length {
          newLen := 2 * buf.Length;
        }
        var newBuffer := new byte[newLen](_ => 0);
        forall i | 0 <= i < curPos {
          newBuffer[i] := buf[i];
        }
        assert newBuffer[..curPos] == buf[..curPos];
        buf := newBuffer;
      }
      pos := pos + len;
    }

    /** Adds a text, found by later calls of GetOrAdd if it is reusable. */
    method Add(text: seq<byte>, reusable: bool) returns (h: Utf8String)
      requires Valid()
      modifies this, buf
      ensures Valid() && h == Utf8String(old(pos), |text|)
      ensures entries == old(entries) + [Entry(h, text)]
      ensures strings == if reusable then old(strings) + [h] else old(strings)
      ensures Texts() == if reusable then old(Texts()) + [text] else old(Texts())
      ensures buf == old(buf) || fresh(buf)
    {
      hide Laid, Kept, Grown;
      ghost var bytes, texts, was := buf[..], Texts(), entries;
      var destPos := Reserve(|text|);
      forall i | 0 <= i < |text| {
        buf[destPos + i] := text[i];
      }
      h := Utf8String(destPos, |text|);
      assert buf[..][..destPos] == bytes[..destPos] && buf[..][destPos..destPos + |text|] == text;
      LaidSnoc(entries, destPos, text);
      KeptSnoc(entries, destPos, bytes, buf[..], text);
      entries := was + [Entry(h, text)];
      assert forall i :: 0 <= i < |was| ==> entries[i] == was[i];
      if reusable {
        strings := strings + [h];
        index := index + [|was|];
      }
      assert Texts() == if reusable then texts + [text] else texts;
    }

    /** The handle of the first equal string of the list, or a new one. */
    method GetOrAdd(text: seq<byte>) returns (h: Utf8String)
      requires Valid()
      modifies this, buf
      ensures Valid() && Entry(h, text) in entries && h in strings && old(entries) <= entries
      ensures old(text in Texts()) ==> unchanged(this)
      ensures old(text !in Texts()) ==>
        && h == Utf8String(old(pos), |text|) && entries == old(entries) + [Entry(h, text)]
        && strings == old(strings) + [h] && Texts() == old(Texts()) + [text]
      ensures old(Distinct()) ==> Distinct() && forall i :: 0 <= i < |strings| && Texts()[i] == text ==> strings[i] == h
    {
      hide Laid, Grown;
      var n := 0;
      while n < |strings|
        invariant 0 <= n <= |strings| && text !in Texts()[..n]
      {
        var str := strings[n];
        assert Kept(entries, buf[..]) && entries[index[n]].handle == str;
        assert buf[..][str.start..str.End()] == buf[str.start..str.End()] == Texts()[n];
        if buf[str.start..str.End()] == text {
          assert Entry(str, text) == entries[index[n]];
          return str;
        }
        n := n + 1;
      }
      assert text !in Texts();
      h := Add(text, true);
      assert strings[|strings| - 1] == h;
    }

    /** A copy of all strings of the list that shares nothing with the buffer. */
    method AsBytes() returns (copy: array<byte>, list: seq<Utf8String>)
      requires Valid()
      ensures fresh(copy) && list == strings
      ensures forall i :: 0 <= i < |list| ==>
        list[i].End() <= copy.Length && copy[list[i].start..list[i].End()] == Texts()[i]
    {
      copy := new byte[pos](_ => 0);
      forall i | 0 <= i < pos {
        copy[i] := buf[i];
      }
      list := strings;
      forall i | 0 <= i < |list|
        ensures list[i].End() <= copy.Length && copy[list[i].start..list[i].End()] == Texts()[i]
      {
        Disjoint(entries, pos, index[i], |entries|);
        var h := list[i];
        assert copy[h.start..h.End()] == buf[..][h.start..h.End()];
      }
    }
  }
}
