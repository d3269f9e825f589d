/** The growing output buffer of the writer: the bytes written so far, the length of the array that holds
    them, and the pieces that single append operations add. */
module Output {
  import opened Ascii
  import opened Lexer
  import opened ParserState
  import opened Outcome

  /** One append: characters, a string between quotes with its escapes, or a copy of another buffer. */
  datatype Piece = Raw(text: seq<byte>) | Quoted(text: seq<byte>) | Copied(text: seq<byte>)

  /** The letter behind the backslash for a byte that is escaped, or -1. */
  function EscapeLetter(b: byte): int {
    if b == QUOTE then QUOTE
    else if b == BACKSLASH then BACKSLASH
    else if b == BACKSPACE then 98
    else if b == FORM_FEED then 102
    else if b == CR then 114
    else if b == LF then 110
    else if b == TAB then 116
    else -1
  }

  predicate IsEscaped(b: byte) {
    EscapeLetter(b) != -1
  }

  function EscapeByte(b: byte): seq<byte> {
    if IsEscaped(b) then [BACKSLASH, EscapeLetter(b)] else [b]
  }

  function EscapeBytes(s: seq<byte>): (r: seq<byte>)
    ensures |s| <= |r| <= 2 * |s|
  {
    if s == [] then [] else EscapeByte(s[0]) + EscapeBytes(s[1..])
  }

  lemma {:induction false} EscapeConcat(a: seq<byte>, b: seq<byte>)
    ensures EscapeBytes(a + b) == EscapeBytes(a) + EscapeBytes(b)
  {
    hide EscapeByte;
    if a == [] {
      assert a + b == b;
    } else {
      assert (a + b)[1..] == a[1..] + b && (a + b)[0] == a[0];
      EscapeConcat(a[1..], b);
    }
  }

  function PieceText(p: Piece): seq<byte> {
    if p.Quoted? then [QUOTE] + EscapeBytes(p.text) + [QUOTE] else p.text
  }

  /** The room that is asked for before a piece is written: for a string one byte less than its longest form. */
  function Reserve(p: Piece): nat {
    if p.Quoted? then 2 * |p.text| + 1 else |p.text|
  }

  /** The room a piece takes: a copy takes the address of the first free byte even if there is nothing to copy. */
  function Need(p: Piece): nat {
    match p
    case Raw(text) => |text|
    case Quoted(_) => |PieceText(p)|
    case Copied(text) => if text == [] then 1 else |text|
  }

  datatype Sink = Sink(json: seq<byte>, capacity: nat)

  function Put(s: Sink, p: Piece): Outcome<Sink> {
    var c := Grown(s.capacity, |s.json| + Reserve(p));
    if |s.json| + Need(p) <= c then Ok(Sink(s.json + PieceText(p), c)) else Throw(IndexOutOfRange)
  }

  function PutAll(s: Sink, ps: seq<Piece>): (r: Outcome<Sink>)
    ensures r.Throw? ==> r.e == IndexOutOfRange
    decreases |ps|
  {
    if ps == [] then Ok(s)
    else
      var first := Put(s, ps[0]);
      if first.Throw? then Throw(first.e) else PutAll(first.value, ps[1..])
  }

  function PiecesText(ps: seq<Piece>): seq<byte> {
    if ps == [] then [] else PieceText(ps[0]) + PiecesText(ps[1..])
  }

  lemma {:induction false} PutAllAppends(s: Sink, ps: seq<Piece>)
    ensures PutAll(s, ps).Ok? ==> PutAll(s, ps).value.json == s.json + PiecesText(ps)
    decreases |ps|
  {
    hide Put, PieceText;
    if ps == [] {
      assert s.json + [] == s.json;
    } else {
      PutOne(s, ps[0]);
      var first := Put(s, ps[0]);
      if first.Ok? {
        PutAllAppends(first.value, ps[1..]);
        assert s.json + PieceText(ps[0]) + PiecesText(ps[1..]) == s.json + (PieceText(ps[0]) + PiecesText(ps[1..]));
      }
    }
  }

  lemma PutOne(s: Sink, p: Piece)
    ensures Put(s, p).Ok? ==> Put(s, p).value.json == s.json + PieceText(p)
    ensures Put(s, p).Throw? ==> Put(s, p).e == IndexOutOfRange
    ensures PutAll(s, [p]) == Put(s, p)
  {
    hide PieceText, Grown;
    if Put(s, p).Ok? {
      assert PutAll(Put(s, p).value, [p][1..]) == Put(s, p);
    }
  }

  lemma PutNothing(s: Sink)
    ensures PutAll(s, []) == Ok(s)
  {
  }

  lemma {:induction false} PutAllConcat(s: Sink, a: seq<Piece>, b: seq<Piece>)
    ensures PutAll(s, a + b) == if PutAll(s, a).Throw? then PutAll(s, a) else PutAll(PutAll(s, a).value, b)
    decreases |a|
  {
    hide Put;
    if a == [] {
      assert a + b == b;
    } else {
      assert (a + b)[1..] == a[1..] + b && (a + b)[0] == a[0];
      PutOne(s, a[0]);
      if Put(s, a[0]).Ok? {
        PutAllConcat(Put(s, a[0]).value, a[1..], b);
      }
    }
  }

  lemma {:induction false} TextConcat(a: seq<Piece>, b: seq<Piece>)
    ensures PiecesText(a + b) == PiecesText(a) + PiecesText(b)
  {
    hide PieceText;
    if a == [] {
      assert a + b == b;
    } else {
      assert (a + b)[1..] == a[1..] + b && (a + b)[0] == a[0];
      TextConcat(a[1..], b);
    }
  }

  lemma TextOne(p: Piece)
    ensures PiecesText([p]) == PieceText(p)
  {
    assert [p][1..] == [];
  }

  // ------------------------------------------------------------ when the room does not suffice

  predicate AllEscaped(s: seq<byte>) {
    forall i :: 0 <= i < |s| ==> IsEscaped(s[i])
  }

  lemma {:induction false} LongestForm(s: seq<byte>)
    ensures |EscapeBytes(s)| == 2 * |s| <==> AllEscaped(s)
  {
    if s != [] {
      LongestForm(s[1..]);
      assert s == [s[0]] + s[1..];
    }
  }

  /** Writing a string fails exactly if all its bytes are escaped and the array ends with the reserve. */
  lemma QuotedFails(s: Sink, text: seq<byte>)
    ensures Put(s, Quoted(text)).Throw? <==>
      AllEscaped(text) && Grown(s.capacity, |s.json| + 2 * |text| + 1) == |s.json| + 2 * |text| + 1
  {
    LongestForm(text);
  }

  /** Whether a piece finds room, from the length of the output and of its array: a string of escaped bytes
      alone does not if the array ends with its reserve, and a copy of nothing needs one free byte. */
  predicate PieceFits(length: nat, capacity: nat, p: Piece) {
    match p
    case Raw(_) => true
    case Quoted(text) =>
      AllEscaped(text) ==> Grown(capacity, length + 2 * |text| + 1) != length + 2 * |text| + 1
    case Copied(text) => text == [] ==> Grown(capacity, length) != length
  }

  /** Whether pieces find room one behind the other: the guard at each of them, with the two lengths there. */
  predicate PiecesFit(length: nat, capacity: nat, ps: seq<Piece>)
    decreases |ps|
  {
    ps == [] ||
    (PieceFits(length, capacity, ps[0])
     && PiecesFit(length + |PieceText(ps[0])|, Grown(capacity, length + Reserve(ps[0])), ps[1..]))
  }

  lemma PieceFitsExactly(s: Sink, p: Piece)
    ensures Put(s, p).Ok? <==> PieceFits(|s.json|, s.capacity, p)
    ensures Put(s, p).Ok? ==>
      var next := Put(s, p).value;
      |next.json| == |s.json| + |PieceText(p)| && next.capacity == Grown(s.capacity, |s.json| + Reserve(p))
  {
    if p.Quoted? {
      QuotedFails(s, p.text);
    }
  }

  /** Appends succeed exactly if the pieces fit, whatever has been written before. */
  lemma {:induction false} PiecesFitExactly(s: Sink, ps: seq<Piece>)
    ensures PutAll(s, ps).Ok? <==> PiecesFit(|s.json|, s.capacity, ps)
    decreases |ps|
  {
    hide Put, PieceFits, PieceText, Reserve, Grown;
    if ps != [] {
      PieceFitsExactly(s, ps[0]);
      if Put(s, ps[0]).Ok? {
        PiecesFitExactly(Put(s, ps[0]).value, ps[1..]);
      }
    }
  }

  /** A piece whose reserve covers what it takes, whatever the buffer. */
  predicate Covered(p: Piece) {
    match p
    case Raw(_) => true
    case Quoted(text) => !AllEscaped(text)
    case Copied(text) => text != []
  }

  lemma {:induction false} CoveredPiecesFit(s: Sink, ps: seq<Piece>)
    requires forall i :: 0 <= i < |ps| ==> Covered(ps[i])
    ensures PutAll(s, ps).Ok?
    decreases |ps|
  {
    if ps != [] {
      if ps[0].Quoted? {
        LongestForm(ps[0].text);
      }
      CoveredPiecesFit(Put(s, ps[0]).value, ps[1..]);
    }
  }

  // ------------------------------------------------------------ written strings as string lexemes

  function UnitOf(b: byte): Unit {
    if IsEscaped(b) then Escape(EscapeLetter(b)) else Plain(b)
  }

  function UnitsOf(s: seq<byte>): seq<Unit> {
    if s == [] then [] else [UnitOf(s[0])] + UnitsOf(s[1..])
  }

  /** A written string is a body of valid units that decodes to the original bytes, whatever they are. */
  lemma {:induction false} WrittenUnits(s: seq<byte>)
    ensures ValidUnits(UnitsOf(s)) && BodyText(UnitsOf(s)) == EscapeBytes(s) && BodyBytes(UnitsOf(s)) == s
  {
    if s != [] {
      WrittenUnits(s[1..]);
      BodyCons(UnitOf(s[0]), UnitsOf(s[1..]));
      assert UnitText(UnitOf(s[0])) == EscapeByte(s[0]) && UnitBytes(UnitOf(s[0])) == [s[0]];
    }
  }
}
