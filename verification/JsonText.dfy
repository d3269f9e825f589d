/** The text the writer makes of a tree, in byte values and independent of its escape table and its layout, and when
    it is a text of RFC 8259. */
module JsonText {
  import opened Ascii
  import opened Lexer
  import opened Tree
  import opened Containers
  import opened Grammar
  import opened Output
  import opened Emitter
  import opened Layout
  import opened RoundTrip
  import opened Rfc8259
  import Unicode
  import Utf16

  // ------------------------------------------------------------ string bodies

  /** The byte that an escape of the writer stands for, by the byte behind the backslash, or -1. */
  function Meant(c: int): int {
    match c
    case 34 => 34
    case 92 => 92
    case 98 => 8
    case 102 => 12
    case 110 => 10
    case 114 => 13
    case 116 => 9
    case _ => -1
  }

  /** A byte that stands for itself. */
  predicate IsRaw(b: int) {
    b !in {8, 9, 10, 12, 13, 34, 92}
  }

  /** Raw bytes and the seven escapes, and nothing else. */
  predicate StrictBody(t: seq<byte>)
    decreases |t|
  {
    t == []
    || (IsRaw(t[0]) && StrictBody(t[1..]))
    || (t[0] == 92 && |t| > 1 && Meant(t[1]) != -1 && StrictBody(t[2..]))
  }

  function StrictBytes(t: seq<byte>): seq<byte>
    requires StrictBody(t)
    decreases |t|
  {
    if t == [] then []
    else if t[0] == 92 then [Meant(t[1])] + StrictBytes(t[2..])
    else [t[0]] + StrictBytes(t[1..])
  }

  /** What is written for one byte of a string. */
  function ByteText(b: byte): seq<byte> {
    match b
    case 34 => [92, 34]
    case 92 => [92, 92]
    case 8 => [92, 98]
    case 12 => [92, 102]
    case 10 => [92, 110]
    case 13 => [92, 114]
    case 9 => [92, 116]
    case _ => [b]
  }

  function BodyFor(s: seq<byte>): seq<byte> {
    if s == [] then [] else ByteText(s[0]) + BodyFor(s[1..])
  }

  /** The writer's escapes are these, byte by byte. */
  lemma {:induction false} BodyIsEscaped(s: seq<byte>)
    ensures EscapeBytes(s) == BodyFor(s)
  {
    if s != [] {
      assert EscapeByte(s[0]) == ByteText(s[0]);
      BodyIsEscaped(s[1..]);
    }
  }

  lemma {:induction false} BodyIsStrict(s: seq<byte>)
    ensures StrictBody(BodyFor(s)) && StrictBytes(BodyFor(s)) == s
  {
    if s != [] {
      BodyIsStrict(s[1..]);
      var t, tail := BodyFor(s), BodyFor(s[1..]);
      if IsRaw(s[0]) {
        assert t == [s[0]] + tail && t[1..] == tail;
      } else {
        assert |ByteText(s[0])| == 2 && t == ByteText(s[0]) + tail && t[2..] == tail;
      }
    }
  }

  lemma {:induction false} StrictIsBody(t: seq<byte>)
    requires StrictBody(t)
    ensures BodyFor(StrictBytes(t)) == t
    decreases |t|
  {
    if t == [] {
    } else if t[0] == 92 {
      StrictIsBody(t[2..]);
      assert StrictBytes(t)[1..] == StrictBytes(t[2..]);
      assert ByteText(Meant(t[1])) == [92, t[1]];
      assert t == [92, t[1]] + t[2..];
    } else {
      StrictIsBody(t[1..]);
      assert StrictBytes(t)[1..] == StrictBytes(t[1..]);
      assert t == [t[0]] + t[1..];
    }
  }

  /** The written form of a string: between two quotes the only text of raw bytes and these escapes that stands
      for it. So a byte outside the seven is written as itself alone, and none of the seven raw. */
  lemma QuotedExactly(s: seq<byte>, t: seq<byte>)
    ensures t == PieceText(Quoted(s)) <==>
      |t| >= 2 && t[0] == 34 == t[|t| - 1] && StrictBody(t[1..|t| - 1]) && StrictBytes(t[1..|t| - 1]) == s
  {
    hide StrictBody, StrictBytes, BodyFor, EscapeBytes;
    BodyIsEscaped(s);
    BodyIsStrict(s);
    if t == PieceText(Quoted(s)) {
      assert t == [34] + BodyFor(s) + [34] && t[1..|t| - 1] == BodyFor(s);
    } else if |t| >= 2 && t[0] == 34 == t[|t| - 1] && StrictBody(t[1..|t| - 1]) {
      StrictIsBody(t[1..|t| - 1]);
      assert t == [34] + t[1..|t| - 1] + [34];
    }
  }

  /** What is written of a UTF-16 string: between the quotes a strict body that stands for the UTF-8 form of
      exactly its code points. */
  lemma Utf16IsRead(span: seq<Utf16.unit16>) returns (us: seq<int>)
    requires Utf16.WellFormed(span)
    ensures (forall i :: 0 <= i < |us| ==> Unicode.IsScalar(us[i])) && Unicode.EncodeUtf16(us) == span
    ensures var t := PieceText(Quoted(Utf16.Utf8Form(span)));
      && |t| >= 2 && t[0] == 34 == t[|t| - 1] && StrictBody(t[1..|t| - 1])
      && Unicode.DecodeUtf8(StrictBytes(t[1..|t| - 1])) == Unicode.Decoded(us)
  {
    hide StrictBody, StrictBytes, PieceText;
    us := Unicode.WellFormedIsText(span);
    Unicode.Utf16ToUtf8(us);
    QuotedExactly(Utf16.Utf8Form(span), PieceText(Quoted(Utf16.Utf8Form(span))));
  }

  /** The bytes of a strict body: no control byte that has an escape is raw, and every quote is escaped. */
  lemma {:induction false} StrictBodyBytes(t: seq<byte>, i: nat)
    requires StrictBody(t) && i < |t|
    ensures t[i] !in {8, 9, 10, 12, 13}
    ensures t[i] == 34 ==> i > 0 && t[i - 1] == 92
    decreases |t|
  {
    if t[0] == 92 {
      assert i > 1 ==> t[i] == t[2..][i - 2];
      if i > 1 {
        StrictBodyBytes(t[2..], i - 2);
        assert i > 2 ==> t[2..][i - 3] == t[i - 1];
      }
    } else {
      assert i > 0 ==> t[i] == t[1..][i - 1];
      if i > 0 {
        StrictBodyBytes(t[1..], i - 1);
        assert i > 1 ==> t[1..][i - 2] == t[i - 1];
      }
    }
  }

  // ------------------------------------------------------------ whole texts

  /** A line feed and four blanks for each level. */
  function NewLine(level: nat): seq<byte> {
    [10] + seq(4 * level, _ => 32)
  }

  function StringText(s: seq<byte>): seq<byte> {
    [34] + BodyFor(s) + [34]
  }

  /** The text of a value: compact, or with line breaks in objects and wrapped arrays and blanks elsewhere. */
  function Stringify(t: Json, path: seq<nat>, wraps: Wraps, pretty: bool): seq<byte>
    decreases t
  {
    match t
    case Leaf(Str(s)) => StringText(s)
    case Leaf(Num(text)) => text
    case Leaf(Bool(b)) => if b then [116, 114, 117, 101] else [102, 97, 108, 115, 101]
    case Leaf(Null) => [110, 117, 108, 108]
    case Node(kind, items) =>
      var broken := pretty && (kind == ObjectKind || wraps(path));
      [if kind == ObjectKind then 123 else 91] + StringifyItems(items, path, 0, broken, wraps, pretty)
        + (if broken then NewLine(|path|) else []) + [if kind == ObjectKind then 125 else 93]
  }

  function StringifyItems(items: Items, path: seq<nat>, i: nat, broken: bool, wraps: Wraps, pretty: bool): seq<byte>
    decreases items
  {
    match items
    case Nil => []
    case Cons(key, v, tail) =>
      ItemStart(key, path, i, broken, pretty) + Stringify(v, path + [i], wraps, pretty)
        + StringifyItems(tail, path, i + 1, broken, wraps, pretty)
  }

  /** What stands in front of a value: the comma, the line break or blank, and the key. */
  function ItemStart(key: Label, path: seq<nat>, i: nat, broken: bool, pretty: bool): seq<byte> {
    (if i == 0 then [] else [44])
    + (if broken then NewLine(|path| + 1) else if pretty && i > 0 then [32] else [])
    + (if key.NoKey? then [] else StringText(key.text) + [58] + if pretty then [32] else [])
  }

  /** A scalar alone starts with a line feed when indenting. */
  function StringifyDocument(t: Json, wraps: Wraps, pretty: bool): seq<byte> {
    (if pretty && t.Leaf? then [10] else []) + Stringify(t, [], wraps, pretty)
  }

  lemma QuotedBody(s: seq<byte>)
    ensures [34] + BodyText(UnitsOf(s)) + [34] == StringText(s)
  {
    hide BodyText, BodyFor, EscapeBytes;
    WrittenUnits(s);
    BodyIsEscaped(s);
  }

  lemma {:induction false} WrittenIsStringified(t: Json, path: seq<nat>, wraps: Wraps, pretty: bool)
    ensures Text(Written(t, path, wraps, pretty)) == Stringify(t, path, wraps, pretty)
    decreases t
  {
    match t
    case Leaf(v) =>
      if v.Str? {
        QuotedBody(v.text);
      }
    case Node(kind, items) =>
      ItemsAreStringified(kind.ObjectKind? || wraps(path), items, path, 0, wraps, pretty);
  }

  lemma BreakIs(level: nat)
    ensures LineBreak(level) == NewLine(level)
  {
  }

  lemma ItemStartIs(wrap: bool, key: Label, path: seq<nat>, i: nat, pretty: bool)
    ensures Lead(i == 0, [], Indent(NodeFlags(i == 0, wrap), |path| + 1, pretty)) + KeyText(KeyOfLabel(key, pretty))
      == ItemStart(key, path, i, pretty && wrap, pretty)
  {
    hide StringText, BodyText, UnitsOf, NewLine, LineBreak;
    BreakIs(|path| + 1);
    if key.Key? {
      QuotedBody(key.text);
    }
  }

  lemma {:induction false} ItemsAreStringified(wrap: bool, items: Items, path: seq<nat>, i: nat, wraps: Wraps,
      pretty: bool)
    ensures Grammar.ItemsText(WrittenItems(wrap, items, path, i, wraps, pretty), i == 0)
      == StringifyItems(items, path, i, pretty && wrap, wraps, pretty)
    decreases items
  {
    match items
    case Nil =>
    case Cons(key, v, tail) =>
      WrittenIsStringified(v, path + [i], wraps, pretty);
      ItemsAreStringified(wrap, tail, path, i + 1, wraps, pretty);
      ItemStartIs(wrap, key, path, i, pretty);
  }

  /** The writer's document, byte by byte. */
  lemma DocumentIsStringified(t: Json, wraps: Wraps, pretty: bool)
    ensures DocumentText(DocumentOf(t, wraps, pretty)) == StringifyDocument(t, wraps, pretty)
  {
    hide Text, Stringify;
    WrittenIsStringified(t, [], wraps, pretty);
    assert pretty && t.Leaf? ==> DocumentOf(t, wraps, pretty).pre == [10];
  }

  // ------------------------------------------------------------ no raw control byte that has an escape

  /** The bytes that never stand raw in a written text; a line feed does when indenting. */
  predicate Clean(s: seq<byte>, pretty: bool) {
    forall i :: 0 <= i < |s| ==> s[i] !in {8, 9, 12, 13} && (s[i] == 10 ==> pretty)
  }

  lemma CleanConcat(a: seq<byte>, b: seq<byte>, pretty: bool)
    ensures Clean(a + b, pretty) <==> Clean(a, pretty) && Clean(b, pretty)
  {
    assert forall i :: 0 <= i < |a| ==> (a + b)[i] == a[i];
    assert forall i :: 0 <= i < |b| ==> (a + b)[|a| + i] == b[i];
  }

  lemma StringIsClean(s: seq<byte>, pretty: bool)
    ensures Clean(StringText(s), pretty)
  {
    BodyIsStrict(s);
    var body := BodyFor(s);
    forall i | 0 <= i < |body|
      ensures body[i] !in {8, 9, 10, 12, 13}
    {
      StrictBodyBytes(body, i);
    }
    CleanConcat([34] + body, [34], pretty);
    CleanConcat([34], body, pretty);
  }

  lemma ItemStartIsClean(key: Label, path: seq<nat>, i: nat, broken: bool, pretty: bool)
    requires broken ==> pretty
    ensures Clean(ItemStart(key, path, i, broken, pretty), pretty)
  {
    hide StringText;
    var a := (if i == 0 then [] else [44])
      + (if broken then NewLine(|path| + 1) else if pretty && i > 0 then [32] else []);
    var b: seq<byte> := if key.NoKey? then [] else StringText(key.text) + ([58] + if pretty then [32] else []);
    if key.Key? {
      StringIsClean(key.text, pretty);
      CleanConcat(StringText(key.text), [58] + if pretty then [32] else [], pretty);
    }
    CleanConcat(a, b, pretty);
    assert ItemStart(key, path, i, broken, pretty) == a + b;
  }

  lemma ScalarIsClean(v: Scalar, path: seq<nat>, wraps: Wraps, pretty: bool)
    requires WellFormed(Leaf(v))
    ensures Clean(Stringify(Leaf(v), path, wraps, pretty), pretty)
  {
    hide StringText;
    if v.Str? {
      StringIsClean(v.text, pretty);
    } else if v.Num? {
      BeyondTheRfc(v.text, 0, []);
    }
  }

  lemma {:induction false} ValueIsClean(t: Json, path: seq<nat>, wraps: Wraps, pretty: bool)
    requires WellFormed(t)
    ensures Clean(Stringify(t, path, wraps, pretty), pretty)
    decreases t
  {
    match t
    case Leaf(v) => ScalarIsClean(v, path, wraps, pretty);
    case Node(kind, items) =>
      hide StringifyItems, NewLine;
      var broken := pretty && (kind == ObjectKind || wraps(path));
      ItemsAreClean(kind, items, path, 0, broken, wraps, pretty);
      NodeIsClean(kind, StringifyItems(items, path, 0, broken, wraps, pretty),
                  if broken then NewLine(|path|) else [], pretty);
  }

  lemma NodeIsClean(kind: Kind, body: seq<byte>, close: seq<byte>, pretty: bool)
    requires Clean(body, pretty) && Clean(close, pretty)
    ensures Clean([if kind == ObjectKind then 123 else 91] + body + close + [if kind == ObjectKind then 125 else 93],
                  pretty)
  {
    var open, end := [if kind == ObjectKind then 123 else 91], [if kind == ObjectKind then 125 else 93];
    CleanConcat(open, body, pretty);
    CleanConcat(open + body, close, pretty);
    CleanConcat(open + body + close, end, pretty);
  }

  lemma {:induction false} ItemsAreClean(kind: Kind, items: Items, path: seq<nat>, i: nat, broken: bool, wraps: Wraps,
      pretty: bool)
    requires ItemsWellFormed(kind, items) && (broken ==> pretty)
    ensures Clean(StringifyItems(items, path, i, broken, wraps, pretty), pretty)
    decreases items
  {
    match items
    case Nil =>
    case Cons(key, v, tail) =>
      hide ItemStart, Stringify, Clean;
      ItemStartIsClean(key, path, i, broken, pretty);
      ValueIsClean(v, path + [i], wraps, pretty);
      ItemsAreClean(kind, tail, path, i + 1, broken, wraps, pretty);
      var a, b := ItemStart(key, path, i, broken, pretty), Stringify(v, path + [i], wraps, pretty);
      CleanConcat(a, b, pretty);
      CleanConcat(a + b, StringifyItems(tail, path, i + 1, broken, wraps, pretty), pretty);
  }

  /** The byte values 8, 9, 12 and 13 are in no written document, and 10 only when indenting. */
  lemma DocumentIsClean(t: Json, wraps: Wraps, pretty: bool)
    requires WellFormed(t)
    ensures Clean(DocumentText(DocumentOf(t, wraps, pretty)), pretty)
  {
    hide Stringify, DocumentOf, DocumentText, WellFormed;
    DocumentIsStringified(t, wraps, pretty);
    ValueIsClean(t, [], wraps, pretty);
    CleanConcat(if pretty && t.Leaf? then [10] else [], Stringify(t, [], wraps, pretty), pretty);
  }

  // ------------------------------------------------------------ when the text is one of RFC 8259

  /** No control byte besides those the writer has an escape for. */
  predicate HasEscapes(s: seq<byte>) {
    forall i :: 0 <= i < |s| ==> s[i] >= 32 || s[i] in {8, 9, 10, 12, 13}
  }

  ghost predicate IsNumberText(text: seq<byte>) {
    exists n :: IsNumber(n) && NumberText(n) == text
  }

  /** Such strings and keys, and numbers of the RFC. */
  ghost predicate Plainly(t: Json)
    decreases t
  {
    match t
    case Leaf(Str(s)) => HasEscapes(s)
    case Leaf(Num(text)) => IsNumberText(text)
    case Leaf(_) => true
    case Node(_, items) => ItemsPlainly(items)
  }

  ghost predicate ItemsPlainly(items: Items)
    decreases items
  {
    match items
    case Nil => true
    case Cons(key, v, tail) => (key.Key? ==> HasEscapes(key.text)) && Plainly(v) && ItemsPlainly(tail)
  }

  /** The characters of a written string. */
  function CharsOf(s: seq<byte>): seq<Char> {
    if s == [] then []
    else [if |ByteText(s[0])| == 1 then Literal(s[0]) else Short(ByteText(s[0])[1])] + CharsOf(s[1..])
  }

  lemma {:induction false} WrittenChars(s: seq<byte>)
    requires HasEscapes(s)
    ensures IsChars(CharsOf(s)) && CharsText(CharsOf(s)) == BodyFor(s)
  {
    if s != [] {
      WrittenChars(s[1..]);
      var cs := CharsOf(s);
      assert cs[1..] == CharsOf(s[1..]) && IsChar(cs[0]) && CharText(cs[0]) == ByteText(s[0]);
    }
  }

  lemma {:induction false} PlainlyIsRfc(t: Json, path: seq<nat>, wraps: Wraps, pretty: bool) returns (v: RValue)
    requires WellFormed(t) && Plainly(t)
    ensures IsValue(v) && ValueText(v) == Stringify(t, path, wraps, pretty)
    decreases t
  {
    match t
    case Leaf(Str(s)) =>
      WrittenChars(s);
      v := RString(CharsOf(s));
    case Leaf(Num(text)) =>
      var n :| IsNumber(n) && NumberText(n) == text;
      v := RNumber(n);
    case Leaf(Bool(b)) => v := if b then RTrue else RFalse;
    case Leaf(Null) => v := RNull;
    case Node(kind, items) =>
      var broken := pretty && (kind == ObjectKind || wraps(path));
      var rs := ItemsAreRfc(kind, items, path, 0, broken, wraps, pretty);
      v := RNode(kind == ObjectKind, rs, if broken then NewLine(|path|) else []);
  }

  function NameOf(key: Label, pretty: bool): Name {
    if key.NoKey? then NoName else Name(CharsOf(key.text), [], if pretty then [32] else [])
  }

  lemma NameIsRfc(key: Label, pretty: bool)
    requires key.Key? ==> HasEscapes(key.text)
    ensures IsName(NameOf(key, pretty))
    ensures NameText(NameOf(key, pretty))
      == if key.NoKey? then [] else StringText(key.text) + [58] + if pretty then [32] else []
  {
    hide BodyFor, CharsOf, CharsText, IsChars, HasEscapes;
    if key.Key? {
      WrittenChars(key.text);
    }
  }

  /** The blanks in front of an item. */
  function ItemSpace(level: nat, i: nat, broken: bool, pretty: bool): (w: seq<byte>)
    ensures IsSpace(w)
  {
    if broken then NewLine(level) else if pretty && i > 0 then [32] else []
  }

  lemma ItemStartIsRfc(key: Label, path: seq<nat>, i: nat, broken: bool, pretty: bool)
    requires key.Key? ==> HasEscapes(key.text)
    ensures var after := ItemSpace(|path| + 1, i, broken, pretty);
      (if i == 0 then after else [] + [44] + after) + NameText(NameOf(key, pretty))
        == ItemStart(key, path, i, broken, pretty)
  {
    hide StringText, NameText, NameOf, HasEscapes, NewLine;
    NameIsRfc(key, pretty);
  }

  lemma RfcItemsCons(rs: RItems, first: bool)
    requires rs.RCons?
    ensures Rfc8259.ItemsText(rs, first)
      == (if first then rs.after else rs.before + [44] + rs.after) + NameText(rs.name) + ValueText(rs.v)
         + Rfc8259.ItemsText(rs.tail, false)
  {
  }

  lemma {:induction false} ItemsAreRfc(kind: Kind, items: Items, path: seq<nat>, i: nat, broken: bool, wraps: Wraps,
      pretty: bool) returns (rs: RItems)
    requires ItemsWellFormed(kind, items) && ItemsPlainly(items)
    ensures AreItems(kind == ObjectKind, rs)
    ensures Rfc8259.ItemsText(rs, i == 0) == StringifyItems(items, path, i, broken, wraps, pretty)
    decreases items
  {
    match items
    case Nil => rs := RNil;
    case Cons(key, v, tail) =>
      hide Stringify, StringifyItems, ValueText, Rfc8259.ItemsText, HasEscapes, IsValue, AreItems;
      var r := PlainlyIsRfc(v, path + [i], wraps, pretty);
      var rest := ItemsAreRfc(kind, tail, path, i + 1, broken, wraps, pretty);
      rs := ItemIsRfc(kind, key, v, tail, path, i, broken, wraps, pretty, r, rest);
  }

  /** The case of one more item in front. */
  lemma ItemIsRfc(kind: Kind, key: Label, v: Json, tail: Items, path: seq<nat>, i: nat, broken: bool, wraps: Wraps,
      pretty: bool, r: RValue, rest: RItems) returns (rs: RItems)
    requires key.Key? == kind.ObjectKind? && (key.Key? ==> HasEscapes(key.text))
    requires IsValue(r) && ValueText(r) == Stringify(v, path + [i], wraps, pretty)
    requires AreItems(kind == ObjectKind, rest)
    requires Rfc8259.ItemsText(rest, false) == StringifyItems(tail, path, i + 1, broken, wraps, pretty)
    ensures AreItems(kind == ObjectKind, rs)
    ensures Rfc8259.ItemsText(rs, i == 0) == StringifyItems(Cons(key, v, tail), path, i, broken, wraps, pretty)
  {
    hide ItemStart, Stringify, ValueText, NameText, HasEscapes, IsName, ItemSpace, Rfc8259.ItemsText, IsValue, IsSpace;
    rs := RCons([], ItemSpace(|path| + 1, i, broken, pretty), NameOf(key, pretty), r, rest);
    NameIsRfc(key, pretty);
    NoSpace();
    ItemStartIsRfc(key, path, i, broken, pretty);
    RfcItemsCons(rs, i == 0);
  }

  lemma NoSpace()
    ensures IsSpace([])
  {
  }

  /** No control byte but the four blanks: a text of the RFC has no other. */
  predicate Printable(s: seq<byte>) {
    forall i :: 0 <= i < |s| ==> s[i] >= 32 || s[i] in {9, 10, 13}
  }

  lemma PrintableConcat(a: seq<byte>, b: seq<byte>)
    ensures Printable(a + b) <==> Printable(a) && Printable(b)
  {
    assert forall i :: 0 <= i < |a| ==> (a + b)[i] == a[i];
    assert forall i :: 0 <= i < |b| ==> (a + b)[|a| + i] == b[i];
  }

  lemma {:induction false} CharsArePrintable(cs: seq<Char>)
    requires IsChars(cs)
    ensures Printable(CharsText(cs))
  {
    if cs != [] {
      CharsArePrintable(cs[1..]);
      assert IsChar(cs[0]) && Printable(CharText(cs[0]));
      PrintableConcat(CharText(cs[0]), CharsText(cs[1..]));
    }
  }

  lemma ByteShows(b: byte)
    requires b < 32 && b !in {8, 9, 10, 12, 13}
    ensures !Printable(ByteText(b))
  {
    assert ByteText(b)[0] == b;
  }

  lemma {:induction false} BodyShows(s: seq<byte>)
    requires Printable(BodyFor(s))
    ensures HasEscapes(s)
  {
    hide Printable, ByteText;
    if s != [] {
      PrintableConcat(ByteText(s[0]), BodyFor(s[1..]));
      BodyShows(s[1..]);
      if s[0] < 32 && s[0] !in {8, 9, 10, 12, 13} {
        ByteShows(s[0]);
      }
    }
  }

  lemma NumberIsPrintable(n: JNumber)
    requires IsNumber(n)
    ensures Printable(NumberText(n))
  {
    NumberIsNumber(n);
    BeyondTheRfc(NumberText(n), 0, []);
  }

  lemma NameIsPrintable(name: Name)
    requires IsName(name)
    ensures Printable(NameText(name))
  {
    if name.Name? {
      hide CharsText;
      CharsArePrintable(name.chars);
      PrintableConcat([34], CharsText(name.chars));
      PrintableConcat([34] + CharsText(name.chars), [34] + name.mid + [58] + name.post);
      assert NameText(name) == [34] + CharsText(name.chars) + ([34] + name.mid + [58] + name.post);
    }
  }

  lemma {:induction false} RfcIsPrintable(v: RValue)
    requires IsValue(v)
    ensures Printable(ValueText(v))
    decreases v
  {
    match v
    case RString(cs) =>
      CharsArePrintable(cs);
    case RNumber(n) =>
      NumberIsPrintable(n);
    case RNode(named, items, close) =>
      hide Rfc8259.ItemsText;
      RfcItemsArePrintable(named, items, true);
      PrintableConcat([if named then 123 else 91], Rfc8259.ItemsText(items, true));
    case _ =>
  }

  lemma {:induction false} RfcItemsArePrintable(named: bool, items: RItems, first: bool)
    requires AreItems(named, items)
    ensures Printable(Rfc8259.ItemsText(items, first))
    decreases items
  {
    match items
    case RNil =>
    case RCons(before, after, name, v, tail) =>
      hide Rfc8259.ItemsText, NameText, ValueText, IsName;
      RfcIsPrintable(v);
      RfcItemsArePrintable(named, tail, false);
      NameIsPrintable(name);
      RfcItemsCons(items, first);
      var lead := if first then after else before + [44] + after;
      PrintableConcat(lead, NameText(name));
      PrintableConcat(lead + NameText(name), ValueText(v));
      PrintableConcat(lead + NameText(name) + ValueText(v), Rfc8259.ItemsText(tail, false));
  }

  lemma StringShows(s: seq<byte>)
    requires Printable(StringText(s))
    ensures HasEscapes(s)
  {
    PrintableConcat([34] + BodyFor(s), [34]);
    PrintableConcat([34], BodyFor(s));
    BodyShows(s);
  }

  lemma KeyShows(key: Label, path: seq<nat>, i: nat, broken: bool, pretty: bool)
    requires Printable(ItemStart(key, path, i, broken, pretty)) && key.Key?
    ensures HasEscapes(key.text)
  {
    hide StringText, HasEscapes, Printable, NewLine;
    var lead := (if i == 0 then [] else [44])
      + if broken then NewLine(|path| + 1) else if pretty && i > 0 then [32] else [];
    var after: seq<byte> := [58] + if pretty then [32] else [];
    assert ItemStart(key, path, i, broken, pretty) == lead + (StringText(key.text) + after);
    PrintableConcat(lead, StringText(key.text) + after);
    PrintableConcat(StringText(key.text), after);
    StringShows(key.text);
  }

  /** A tree of the RFC whose written text is printable needs no other escapes. */
  lemma {:induction false} TreeShows(v: RValue, path: seq<nat>, wraps: Wraps, pretty: bool)
    requires IsValue(v) && Printable(Stringify(ValueTree(v), path, wraps, pretty))
    ensures Plainly(ValueTree(v))
    decreases v
  {
    match v
    case RString(cs) =>
      hide Printable;
      StringShows(CharsBytes(cs));
    case RNode(named, items, _) =>
      hide Printable, StringifyItems;
      var kind, tree := if named then ObjectKind else ArrayKind, ItemsTree(named, items);
      var broken := pretty && (kind == ObjectKind || wraps(path));
      var text := StringifyItems(tree, path, 0, broken, wraps, pretty);
      var open, close := [if named then 123 else 91], if broken then NewLine(|path|) else [];
      assert Stringify(ValueTree(v), path, wraps, pretty) == open + text + (close + [if named then 125 else 93]);
      PrintableConcat(open + text, close + [if named then 125 else 93]);
      PrintableConcat(open, text);
      ItemsShow(named, items, path, 0, broken, wraps, pretty);
    case _ =>
  }

  lemma {:induction false} ItemsShow(named: bool, items: RItems, path: seq<nat>, i: nat, broken: bool, wraps: Wraps,
      pretty: bool)
    requires AreItems(named, items)
    requires Printable(StringifyItems(ItemsTree(named, items), path, i, broken, wraps, pretty))
    ensures ItemsPlainly(ItemsTree(named, items))
    decreases items
  {
    match items
    case RNil =>
    case RCons(_, _, name, v, tail) =>
      hide Printable, ItemStart, Stringify, HasEscapes, CharsBytes, IsName;
      var key := if named then Key(CharsBytes(name.chars)) else NoKey;
      var a, b := ItemStart(key, path, i, broken, pretty), Stringify(ValueTree(v), path + [i], wraps, pretty);
      var c := StringifyItems(ItemsTree(named, tail), path, i + 1, broken, wraps, pretty);
      PrintableConcat(a + b, c);
      PrintableConcat(a, b);
      TreeShows(v, path + [i], wraps, pretty);
      ItemsShow(named, tail, path, i + 1, broken, wraps, pretty);
      if named {
        KeyShows(key, path, i, broken, pretty);
      }
  }

  ghost predicate IsRfcText(s: seq<byte>) {
    exists d :: IsText(d) && TextBytes(d) == s
  }

  /** What is written is a text of RFC 8259 exactly if no string or key has a control byte without a short escape
      and every number is one of the RFC: the writer knows no other escapes and copies numbers as they are. */
  lemma WrittenIsRfc(t: Json, wraps: Wraps, pretty: bool)
    requires WellFormed(t)
    ensures IsRfcText(DocumentText(DocumentOf(t, wraps, pretty))) <==> Plainly(t)
  {
    hide ReadDocument, Valid, TreeOf, Text, ValueText, ValueTree, IsValue, Stringify, Plainly, Written, Nesting, Depth;
    var s, pre := DocumentText(DocumentOf(t, wraps, pretty)), if pretty && t.Leaf? then [10] else [];
    DocumentIsStringified(t, wraps, pretty);
    if Plainly(t) {
      var v := PlainlyIsRfc(t, [], wraps, pretty);
      var d := JText(pre, v, []);
      assert IsText(d) && TextBytes(d) == s;
    }
    if IsRfcText(s) {
      var d :| IsText(d) && TextBytes(d) == s;
      var limit := Nesting(d.v) + Depth(t);
      WrittenTree(t, [], wraps, pretty);
      BreakIs(0);
      DocumentComplete(DocumentOf(t, wraps, pretty), limit);
      TextsAreRead(d, limit);
      RfcIsPrintable(d.v);
      PrintableConcat(d.pre + ValueText(d.v), d.post);
      PrintableConcat(d.pre, ValueText(d.v));
      PrintableConcat(pre, Stringify(t, [], wraps, pretty));
      TreeShows(d.v, [], wraps, pretty);
    }
  }
}
