/** A correct document that a new writer cannot produce: the room asked for in front of a string is one byte
    less than the string may take, and 43 empty strings in an array hit the end of the initial 128 bytes. */
module Shortfall {
  import opened Ascii
  import opened Lexer
  import opened Tree
  import opened Machine
  import opened Containers
  import opened Outcome
  import opened Output
  import opened Emitter
  import opened Layout
  import opened WriteTree
  import opened RoundTrip

  const INITIAL_CAPACITY: nat := 128

  function EmptyStrings(n: nat): Items {
    if n == 0 then Nil else Cons(NoKey, Leaf(Str([])), EmptyStrings(n - 1))
  }

  lemma {:induction false} EmptyStringsWellFormed(n: nat)
    ensures ItemsWellFormed(ArrayKind, EmptyStrings(n)) && ItemsDepth(EmptyStrings(n)) == 0
  {
    if n > 0 {
      EmptyStringsWellFormed(n - 1);
    }
  }

  /** One more empty string, behind a comma unless it is the first. */
  lemma PutEmptyString(s: Sink, levels: seq<Level>)
    requires AtItems(levels, ArrayKind) && s.capacity == INITIAL_CAPACITY
    requires |s.json| + (if Top(levels).flags.first then 1 else 2) <= INITIAL_CAPACITY
    ensures var r := PutAll(s, CallPieces(levels, Value(NoKey, Str([])), false));
      var end := |s.json| + if Top(levels).flags.first then 0 else 1;
      if end == INITIAL_CAPACITY - 1 then r == Throw(IndexOutOfRange)
      else r.Ok? && r.value.capacity == INITIAL_CAPACITY && |r.value.json| == end + 2
  {
    var comma: seq<Piece> := if Top(levels).flags.first then [] else [Raw([COMMA])];
    assert CallPieces(levels, Value(NoKey, Str([])), false) == comma + [Quoted([])];
    PutAllConcat(s, comma, [Quoted([])]);
    PutOne(s, Raw([COMMA]));
    PutNothing(s);
    var s1 := PutAll(s, comma).value;
    PutOne(s1, Quoted([]));
    QuotedFails(s1, []);
    assert PieceText(Quoted([])) == [QUOTE, QUOTE];
  }

  /** The remaining strings once i of them are written. */
  lemma {:induction false} PutEmptyStrings(s: Sink, levels: seq<Level>, n: nat, path: seq<nat>, i: nat)
    requires AtItems(levels, ArrayKind) && ItemsWellFormed(ArrayKind, EmptyStrings(n))
      && Top(levels).flags.first == (i == 0)
    requires s.capacity == INITIAL_CAPACITY && |s.json| == (if i == 0 then 1 else 3 * i) && i <= 42
    ensures var r := PutAll(s, ItemsPieces(levels, ArrayKind, EmptyStrings(n), path, i, AllWrapped(), false));
      if i + n > 42 then n > 0 && r == Throw(IndexOutOfRange)
      else r.Ok? && r.value.capacity == INITIAL_CAPACITY && |r.value.json| <= 3 * (i + n) + 1
    decreases n
  {
    hide PutAll, CallPieces;
    if n == 0 {
      PutNothing(s);
    } else {
      var ps := CallPieces(levels, Value(NoKey, Str([])), false);
      PutEmptyString(s, levels);
      PutAllConcat(s, ps, ItemsPieces(Cleared(levels), ArrayKind, EmptyStrings(n - 1), path, i + 1, AllWrapped(),
          false));
      if PutAll(s, ps).Ok? {
        PutEmptyStrings(PutAll(s, ps).value, Cleared(levels), n - 1, path, i + 1);
      }
    }
  }

  /** A new writer, compact, fails on an array of n empty strings exactly from n == 43 on. */
  lemma EmptyStringsFail(n: nat, debug: bool, maxDepth: int)
    requires maxDepth >= 1
    ensures var t, cfg := Node(ArrayKind, EmptyStrings(n)), Config(maxDepth, false, debug);
      var r := Feed(Begin(INITIAL_CAPACITY), Calls(NoKey, t, [], AllWrapped()), cfg);
      WellFormed(t) && if n <= 42 then r.Ok? else r == Throw(IndexOutOfRange)
  {
    hide PutAll, PiecesFit, Feed, Calls;
    var t, cfg := Node(ArrayKind, EmptyStrings(n)), Config(maxDepth, false, debug);
    EmptyStringsWellFormed(n);
    WritingSucceeds(t, AllWrapped(), INITIAL_CAPACITY, cfg);
    var inner, open := Inner([ROOT], ArrayKind, NoKey, true), [Raw([LBRACKET])];
    var body := ItemsPieces(inner, ArrayKind, EmptyStrings(n), [], 0, AllWrapped(), false);
    var close := [Raw([RBRACKET])];
    assert CallPieces([ROOT], Start(ArrayKind, NoKey), false) == open;
    assert EndPieces(inner, ArrayKind, false) == close;
    assert TreePieces(t, AllWrapped(), false) == open + body + close;
    var s := Sink([], INITIAL_CAPACITY);
    PiecesFitExactly(s, open + body + close);
    PutAllConcat(s, open + body, close);
    PutAllConcat(s, open, body);
    PutOne(s, Raw([LBRACKET]));
    var s1 := PutAll(s, open).value;
    assert s1 == Sink([] + [LBRACKET], INITIAL_CAPACITY);
    PutEmptyStrings(s1, inner, n, [], 0);
    if n <= 42 {
      PutOne(PutAll(s1, body).value, Raw([RBRACKET]));
    }
  }

  // ------------------------------------------------------------ nested arrays

  /** n arrays, one inside the other. */
  function Nested(n: nat): Json
    requires n > 0
    decreases n, 1
  {
    Node(ArrayKind, NestedItems(n))
  }

  function NestedItems(n: nat): Items
    requires n > 0
    decreases n, 0
  {
    if n == 1 then Nil else Cons(NoKey, Nested(n - 1), Nil)
  }

  lemma {:induction false} NestedDepth(n: nat)
    requires n > 0
    ensures WellFormed(Nested(n)) && Depth(Nested(n)) == n
  {
    if n > 1 {
      NestedDepth(n - 1);
      assert ItemsWellFormed(ArrayKind, Nil) && ItemsDepth(Nil) == 0;
      assert ItemsWellFormed(ArrayKind, NestedItems(n)) && ItemsDepth(NestedItems(n)) == n - 1;
    }
  }

  predicate AllRaw(ps: seq<Piece>) {
    forall i :: 0 <= i < |ps| ==> ps[i].Raw?
  }

  lemma MarksAreRaw(levels: seq<Level>, inner: seq<Level>, pretty: bool)
    requires levels != [] && Placed(Top(levels), NoKey) && |inner| > 1
    ensures AllRaw(CallPieces(levels, Start(ArrayKind, NoKey), pretty)) && AllRaw(EndPieces(inner, ArrayKind, pretty))
  {
  }

  lemma AllRawConcat(a: seq<Piece>, b: seq<Piece>)
    requires AllRaw(a) && AllRaw(b)
    ensures AllRaw(a + b) && AllRaw([]) && a + [] == a
  {
  }

  /** Brackets and blanks only. */
  lemma {:induction false} NestedIsRaw(levels: seq<Level>, n: nat, path: seq<nat>, wraps: Wraps, pretty: bool)
    requires n > 0 && levels != [] && Placed(Top(levels), NoKey) && WellFormed(Nested(n))
    ensures AllRaw(Pieces(levels, NoKey, Nested(n), path, wraps, pretty))
    decreases n
  {
    hide AllRaw, CallPieces, EndPieces, Inner;
    var inner := Inner(levels, ArrayKind, NoKey, wraps(path));
    var body := ItemsPieces(inner, ArrayKind, NestedItems(n), path, 0, wraps, pretty);
    AllRawConcat([], []);
    if n > 1 {
      NestedDepth(n - 1);
      NestedIsRaw(inner, n - 1, path + [0], wraps, pretty);
      AllRawConcat(Pieces(inner, NoKey, Nested(n - 1), path + [0], wraps, pretty), []);
      assert ItemsPieces(Cleared(inner), ArrayKind, Nil, path, 1, wraps, pretty) == [];
    }
    assert AllRaw(body);
    MarksAreRaw(levels, inner, pretty);
    AllRawConcat(CallPieces(levels, Start(ArrayKind, NoKey), pretty), body);
    AllRawConcat(CallPieces(levels, Start(ArrayKind, NoKey), pretty) + body, EndPieces(inner, ArrayKind, pretty));
  }

  /** Nested arrays are written exactly as deep as maxDepth says, in release builds never deeper than 15, and the
      exception beyond is the one of the smaller of the two. */
  lemma NestingFails(n: nat, debug: bool, maxDepth: int, wraps: Wraps, capacity: nat, pretty: bool)
    requires n > 0
    ensures var r := Feed(Begin(capacity), Calls(NoKey, Nested(n), [], wraps), Config(maxDepth, pretty, debug));
      if debug || maxDepth <= 15 then
        if n <= maxDepth then r.Ok? else r == Throw(InvalidOperation)
      else
        if n <= 15 then r.Ok? else r == Throw(NullReference)
  {
    hide PutAll, Feed, Calls, Pieces, AllRaw, Nested, PiecesFit;
    NestedDepth(n);
    WritingSucceeds(Nested(n), wraps, capacity, Config(maxDepth, pretty, debug));
    NestedIsRaw([ROOT], n, [], wraps, pretty);
    RawFits(TreePieces(Nested(n), wraps, pretty), capacity);
  }

  lemma RawFits(ps: seq<Piece>, capacity: nat)
    requires AllRaw(ps)
    ensures PiecesFit(0, capacity, ps)
  {
    hide PutAll, PiecesFit;
    CoveredPiecesFit(Sink([], capacity), ps);
    PiecesFitExactly(Sink([], capacity), ps);
  }

  // ------------------------------------------------------------ the empty strings without the closing bracket

  /** The rest of an array of which i elements have been read: n empty strings and then nothing. */
  function StringsText(i: nat, n: nat): seq<byte>
    decreases n
  {
    if n == 0 then [] else (if i == 0 then [] else [COMMA]) + ([QUOTE, QUOTE] + StringsText(i + 1, n - 1))
  }

  function StringsEvents(n: nat): seq<Event> {
    if n == 0 then [] else [Value(NoKey, Str([]))] + StringsEvents(n - 1)
  }

  lemma StringsBegin(i: nat, n: nat)
    requires n > 0
    ensures SkipWs(StringsText(i, n)) == StringsText(i, n)
    ensures i > 0 ==>
      StringsText(i, n)[0] == COMMA && StringsText(i, n)[1..] == StringsText(0, 1) + StringsText(i + 1, n - 1)
    ensures SkipWs(StringsText(0, 1) + StringsText(i + 1, n - 1)) == StringsText(0, 1) + StringsText(i + 1, n - 1)
    ensures i == 0 ==> StringsText(i, n) == StringsText(0, 1) + StringsText(i + 1, n - 1)
    ensures StringsText(0, 1) == [QUOTE, QUOTE]
  {
    assert StringsText(1, 0) == [];
    assert StringsText(0, 1) == [] + ([QUOTE, QUOTE] + []);
  }

  lemma StepEmptyString(i: nat, n: nat, maxDepth: int)
    requires n > 0
    ensures Step(Open([InArray(i)], StringsText(i, n)), maxDepth)
      == Result(Value(NoKey, Str([])), Open([InArray(i + 1)], StringsText(i + 1, n - 1)))
  {
    var m, k := Open([InArray(i)], StringsText(i, n)), StringsText(i + 1, n - 1);
    StringsBegin(i, n);
    ElementStep(m.frames, m.rest, maxDepth);
    var v := [QUOTE, QUOTE] + k;
    assert v[1..] == [QUOTE] + k && ([QUOTE] + k)[1..] == k;
    assert StringFrom(v[1..], []) == Token([], k);
    assert Init([InArray(i)]) + [InArray(i + 1)] == [InArray(i + 1)];
    StepString([InArray(i + 1)], NoKey, v, maxDepth);
  }

  lemma {:induction false} RestOfStrings(i: nat, n: nat, maxDepth: int)
    ensures var m := Open([InArray(i)], StringsText(i, n));
      Rest(m, maxDepth) == StringsEvents(n) && Close(m, maxDepth).Broken?
    decreases n
  {
    hide Step;
    var m := Open([InArray(i)], StringsText(i, n));
    RestCases(m, maxDepth);
    CloseCases(m, maxDepth);
    if n == 0 {
      ElementStep(m.frames, m.rest, maxDepth);
      assert SkipWs([]) == [];
    } else {
      StepEmptyString(i, n, maxDepth);
      RestOfStrings(i + 1, n - 1, maxDepth);
    }
  }

  lemma {:induction false} StringsPieces(levels: seq<Level>, n: nat, path: seq<nat>, i: nat)
    requires AtItems(levels, ArrayKind) && ItemsWellFormed(ArrayKind, EmptyStrings(n))
    ensures CallsPieces(levels, Wrapped(StringsEvents(n)), false)
      == ItemsPieces(levels, ArrayKind, EmptyStrings(n), path, i, AllWrapped(), false)
    decreases n
  {
    hide CallPieces;
    if n > 0 {
      var calls := Wrapped(StringsEvents(n));
      assert calls[1..] == Wrapped(StringsEvents(n - 1));
      StringsPieces(Cleared(levels), n - 1, path, i + 1);
    }
  }

  lemma {:induction false} StringsShallow(n: nat, level: int, ceiling: int)
    ensures Shallow(level, Wrapped(StringsEvents(n)), ceiling)
    decreases n
  {
    if n > 0 {
      assert Wrapped(StringsEvents(n))[1..] == Wrapped(StringsEvents(n - 1));
      StringsShallow(n - 1, level, ceiling);
    }
  }

  /** An array of n empty strings without its end has room with a new compact writer exactly up to n == 42. */
  lemma UnterminatedRoom(n: nat, maxDepth: int)
    ensures var s := [LBRACKET] + StringsText(0, n);
      PiecesFit(0, INITIAL_CAPACITY, CopiedPieces(s, maxDepth, false)) <==> n <= 42
  {
    hide PutAll, PiecesFit, CallsPieces;
    EmptyStringsWellFormed(n);
    var s := [LBRACKET] + StringsText(0, n);
    var inner, open := Inner([ROOT], ArrayKind, NoKey, true), [Raw([LBRACKET])];
    var body := ItemsPieces(inner, ArrayKind, EmptyStrings(n), [], 0, AllWrapped(), false);
    StepBracket(s, maxDepth);
    RestOfStrings(0, n, maxDepth);
    StringsPieces(inner, n, [], 0);
    OpenThen(StringsEvents(n), inner);
    var sink := Sink([], INITIAL_CAPACITY);
    PiecesFitExactly(sink, open + body);
    PutAllConcat(sink, open, body);
    PutOne(sink, Raw([LBRACKET]));
    assert PutAll(sink, open).value == Sink([] + [LBRACKET], INITIAL_CAPACITY);
    PutEmptyStrings(PutAll(sink, open).value, inner, n, [], 0);
  }

  lemma UnterminatedCopied(n: nat, maxDepth: int)
    ensures var s := [LBRACKET] + StringsText(0, n);
      !RootEnds(s, maxDepth) && CopiedEvents(s, maxDepth) == [Start(ArrayKind, NoKey)] + StringsEvents(n)
  {
    hide Step, Rest, Close;
    StepBracket([LBRACKET] + StringsText(0, n), maxDepth);
    RestOfStrings(0, n, maxDepth);
  }

  lemma UnterminatedShallow(n: nat, ceiling: int)
    requires ceiling >= 1
    ensures Shallow(0, Wrapped([Start(ArrayKind, NoKey)] + StringsEvents(n)), ceiling)
  {
    var calls := Wrapped([Start(ArrayKind, NoKey)] + StringsEvents(n));
    assert calls[1..] == Wrapped(StringsEvents(n)) && calls[0].ev == Start(ArrayKind, NoKey);
    StringsShallow(n, 1, ceiling);
  }

  /** Its copy should return false, as the end is missing; from n == 43 on it throws instead. */
  lemma UnterminatedFails(n: nat, maxDepth: int, cfg: Config, r: Outcome<bool>, sink: Sink)
    requires cfg.maxDepth >= 1 && !cfg.pretty
    ensures CopyOutcome([LBRACKET] + StringsText(0, n), maxDepth, INITIAL_CAPACITY, cfg, true, r, sink) ==>
      r == if n <= 42 then Ok(false) else Throw(IndexOutOfRange)
  {
    hide PutAll, PiecesFit, CallsPieces, ReadDocument, Wrapped, RootEnds, CopiedEvents, CopiedPieces, Shallow;
    hide StringsText, StringsEvents, HasRoom, TooDeep, DocumentOf, Step, Close, Rest;
    UnterminatedRoom(n, maxDepth);
    UnterminatedCopied(n, maxDepth);
    UnterminatedShallow(n, Ceiling(cfg));
  }

  lemma StepBracket(s: seq<byte>, maxDepth: int)
    requires s != [] && s[0] == LBRACKET
    ensures Step(Fresh(s), maxDepth) == Result(Start(ArrayKind, NoKey), Open([InArray(0)], s[1..]))
  {
    hide StringFrom, NumberFrom, KeywordFrom;
    assert SkipWs(s) == s;
  }

  lemma OpenThen(evs: seq<Event>, inner: seq<Level>)
    requires inner == Inner([ROOT], ArrayKind, NoKey, true)
    ensures CallsPieces([ROOT], Wrapped([Start(ArrayKind, NoKey)] + evs), false)
      == [Raw([LBRACKET])] + CallsPieces(inner, Wrapped(evs), false)
  {
    var calls := Wrapped([Start(ArrayKind, NoKey)] + evs);
    assert calls[1..] == Wrapped(evs) && calls[0] == Call(Start(ArrayKind, NoKey), true);
    assert CallPieces([ROOT], Start(ArrayKind, NoKey), false) == [Raw([LBRACKET])];
  }
}
