/** What the writer makes of whole trees: the calls for a tree in pre-order, the pieces they write, and the
    text of these pieces as a document of the grammar. */
module Layout {
  import opened Ascii
  import opened Lexer
  import opened Tree
  import opened Machine
  import opened Grammar
  import opened Outcome
  import opened Output
  import opened Emitter

  /** The wrap argument chosen for each array, by the indices on the way to it. */
  type Wraps = seq<nat> -> bool

  function Calls(key: Label, t: Json, path: seq<nat>, wraps: Wraps): seq<Call>
    decreases t
  {
    match t
    case Leaf(v) => [Call(Value(key, v), true)]
    case Node(kind, items) =>
      [Call(Start(kind, key), wraps(path))] + ItemsCalls(items, path, 0, wraps) + [Call(End(kind), true)]
  }

  function ItemsCalls(items: Items, path: seq<nat>, i: nat, wraps: Wraps): seq<Call>
    decreases items
  {
    match items
    case Nil => []
    case Cons(key, v, tail) => Calls(key, v, path + [i], wraps) + ItemsCalls(tail, path, i + 1, wraps)
  }

  function CallEvents(calls: seq<Call>): seq<Event> {
    if calls == [] then [] else [calls[0].ev] + CallEvents(calls[1..])
  }

  lemma {:induction false} CallEventsConcat(a: seq<Call>, b: seq<Call>)
    ensures CallEvents(a + b) == CallEvents(a) + CallEvents(b)
  {
    if a == [] {
      assert a + b == b;
    } else {
      assert (a + b)[1..] == a[1..] + b && (a + b)[0] == a[0];
      CallEventsConcat(a[1..], b);
    }
  }

  /** The calls are the events of the pre-order walk, each made once and in order. */
  lemma {:induction false} CallsArePreOrder(key: Label, t: Json, path: seq<nat>, wraps: Wraps)
    ensures CallEvents(Calls(key, t, path, wraps)) == Events(key, t)
    decreases t
  {
    match t
    case Leaf(v) =>
      assert CallEvents([Call(Value(key, v), true)][1..]) == [];
    case Node(kind, items) =>
      var start, end := [Call(Start(kind, key), wraps(path))], [Call(End(kind), true)];
      var body := ItemsCalls(items, path, 0, wraps);
      ItemsCallsArePreOrder(items, path, 0, wraps);
      CallEventsConcat(start + body, end);
      CallEventsConcat(start, body);
      assert start[1..] == [] && end[1..] == [];
  }

  lemma {:induction false} ItemsCallsArePreOrder(items: Items, path: seq<nat>, i: nat, wraps: Wraps)
    ensures CallEvents(ItemsCalls(items, path, i, wraps)) == ItemsEvents(items)
    decreases items
  {
    match items
    case Nil =>
    case Cons(key, v, tail) =>
      CallsArePreOrder(key, v, path + [i], wraps);
      ItemsCallsArePreOrder(tail, path, i + 1, wraps);
      CallEventsConcat(Calls(key, v, path + [i], wraps), ItemsCalls(tail, path, i + 1, wraps));
  }

  // ------------------------------------------------------------ pieces

  predicate AtItems(levels: seq<Level>, kind: Kind) {
    |levels| > 1 && Top(levels).node == NodeOf(kind)
  }

  function Cleared(levels: seq<Level>): (r: seq<Level>)
    requires levels != []
    ensures |r| == |levels|
  {
    WithTop(levels, ClearFirst(Top(levels)))
  }

  /** The levels just inside a container whose start call was made here. */
  function Inner(levels: seq<Level>, kind: Kind, key: Label, wrap: bool): (r: seq<Level>)
    requires levels != [] && Placed(Top(levels), key)
    ensures |r| == |levels| + 1 && AtItems(r, kind) && Top(r).flags == NodeFlags(true, kind.ObjectKind? || wrap)
    ensures EndLevels(r) == Cleared(levels) && EndLevels(Cleared(r)) == Cleared(levels)
  {
    CallLevels(levels, Call(Start(kind, key), wrap))
  }

  function Pieces(levels: seq<Level>, key: Label, t: Json, path: seq<nat>, wraps: Wraps, pretty: bool): seq<Piece>
    requires levels != [] && Placed(Top(levels), key) && WellFormed(t)
    decreases t
  {
    match t
    case Leaf(v) => CallPieces(levels, Value(key, v), pretty)
    case Node(kind, items) =>
      var inner := Inner(levels, kind, key, wraps(path));
      CallPieces(levels, Start(kind, key), pretty) + ItemsPieces(inner, kind, items, path, 0, wraps, pretty)
        + EndPieces(inner, kind, pretty)
  }

  function ItemsPieces(levels: seq<Level>, kind: Kind, items: Items, path: seq<nat>, i: nat, wraps: Wraps,
      pretty: bool): seq<Piece>
    requires AtItems(levels, kind) && ItemsWellFormed(kind, items)
    decreases items
  {
    match items
    case Nil => []
    case Cons(key, v, tail) =>
      Pieces(levels, key, v, path + [i], wraps, pretty)
        + ItemsPieces(Cleared(levels), kind, tail, path, i + 1, wraps, pretty)
  }

  // ------------------------------------------------------------ feeding a tree

  /** The number of levels the writer can open: maxDepth, but without the debug checks never more than 15. */
  function Ceiling(cfg: Config): int {
    if !cfg.debug && cfg.maxDepth > START_DEPTH - 1 then START_DEPTH - 1 else cfg.maxDepth
  }

  function DepthException(cfg: Config): Exception {
    if !cfg.debug && cfg.maxDepth > START_DEPTH - 1 then NullReference else InvalidOperation
  }

  predicate TooDeep(level: int, depth: nat, cfg: Config) {
    depth > 0 && level + depth > Ceiling(cfg)
  }

  /** The outcome of a list of calls that leaves these levels, given its pieces and whether it is too deep. */
  predicate Fed(r: Outcome<Writing>, out: Outcome<Sink>, deep: bool, levels: seq<Level>, cfg: Config) {
    if deep then r.Throw? && (out.Ok? ==> r.e == DepthException(cfg))
    else r == if out.Throw? then Throw(out.e) else Ok(Writing(out.value, levels))
  }

  lemma DepthAtStart(level: nat, cfg: Config)
    requires cfg.debug || level < START_DEPTH
    ensures DepthCheck(level, cfg) == if level + 1 > Ceiling(cfg) then Throw(DepthException(cfg)) else Ok(())
  {
  }

  lemma FedConcat(w: Writing, a: seq<Call>, b: seq<Call>, pa: seq<Piece>, pb: seq<Piece>, deepA: bool, deepB: bool,
                  la: seq<Level>, lb: seq<Level>, cfg: Config)
    requires Fed(Feed(w, a, cfg), PutAll(w.sink, pa), deepA, la, cfg)
    requires !deepA && PutAll(w.sink, pa).Ok? ==>
      var s := PutAll(w.sink, pa).value; Fed(Feed(Writing(s, la), b, cfg), PutAll(s, pb), deepB, lb, cfg)
    ensures Fed(Feed(w, a + b, cfg), PutAll(w.sink, pa + pb), deepA || deepB, lb, cfg)
  {
    FeedConcat(w, a, b, cfg);
    PutAllConcat(w.sink, pa, pb);
  }

  /** Levels that a writer can have: without the debug checks no more than the initial buffers hold. */
  predicate Buffered(levels: seq<Level>, cfg: Config) {
    levels != [] && (cfg.debug || |levels| <= START_DEPTH)
  }

  /** A single call that adds an item. */
  lemma FedCall(w: Writing, c: Call, cfg: Config)
    requires Follows(w.levels, c.ev) && Buffered(w.levels, cfg)
    ensures Fed(Feed(w, [c], cfg), PutAll(w.sink, CallPieces(w.levels, c.ev, cfg.pretty)),
                c.ev.Start? && |w.levels| > Ceiling(cfg), CallLevels(w.levels, c), cfg)
  {
    hide PutAll, CallPieces;
    FeedOne(w, c, cfg);
    if c.ev.Start? {
      DepthAtStart(|w.levels| - 1, cfg);
    }
  }

  // ------------------------------------------------------------ feeding any calls that follow the nesting

  predicate Along(levels: seq<Level>, calls: seq<Call>)
    decreases |calls|
  {
    calls == [] || (Follows(levels, calls[0].ev) && Along(CallLevels(levels, calls[0]), calls[1..]))
  }

  /** No start call opens a level beyond the ceiling. */
  predicate Shallow(level: int, calls: seq<Call>, ceiling: int)
    decreases |calls|
  {
    calls == [] ||
    (var next := if calls[0].ev.Start? then level + 1 else if calls[0].ev.End? then level - 1 else level;
     (calls[0].ev.Start? ==> next <= ceiling) && Shallow(next, calls[1..], ceiling))
  }

  function CallsPieces(levels: seq<Level>, calls: seq<Call>, pretty: bool): seq<Piece>
    decreases |calls|
  {
    if calls == [] || !Follows(levels, calls[0].ev) then []
    else CallPieces(levels, calls[0].ev, pretty) + CallsPieces(CallLevels(levels, calls[0]), calls[1..], pretty)
  }

  function CallsLevels(levels: seq<Level>, calls: seq<Call>): seq<Level>
    decreases |calls|
  {
    if calls == [] || !Follows(levels, calls[0].ev) then levels
    else CallsLevels(CallLevels(levels, calls[0]), calls[1..])
  }

  /** Calls that follow the nesting write their pieces, or fail exactly for depth or room. */
  lemma {:induction false} FeedAlong(w: Writing, calls: seq<Call>, cfg: Config)
    requires Along(w.levels, calls) && Buffered(w.levels, cfg)
    ensures Fed(Feed(w, calls, cfg), PutAll(w.sink, CallsPieces(w.levels, calls, cfg.pretty)),
                !Shallow(|w.levels| - 1, calls, Ceiling(cfg)), CallsLevels(w.levels, calls), cfg)
    decreases |calls|
  {
    hide PutAll, CallPieces, CallLevels, Feed, Fed, Follows;
    if calls == [] {
      FedNothing(w, cfg);
    } else {
      var c, rest := calls[0], calls[1..];
      var ps, next := CallPieces(w.levels, c.ev, cfg.pretty), CallLevels(w.levels, c);
      var deep := c.ev.Start? && |w.levels| > Ceiling(cfg);
      FedCall(w, c, cfg);
      CallLevelsLength(w.levels, c);
      if !deep && PutAll(w.sink, ps).Ok? {
        FeedAlong(Writing(PutAll(w.sink, ps).value, next), rest, cfg);
      }
      assert [c] + rest == calls;
      FedConcat(w, [c], rest, ps, CallsPieces(next, rest, cfg.pretty), deep,
                !Shallow(|next| - 1, rest, Ceiling(cfg)), next, CallsLevels(next, rest), cfg);
    }
  }

  lemma FedNothing(w: Writing, cfg: Config)
    ensures Fed(Feed(w, [], cfg), PutAll(w.sink, []), false, w.levels, cfg)
  {
  }

  lemma CallLevelsLength(levels: seq<Level>, c: Call)
    requires Follows(levels, c.ev)
    ensures |CallLevels(levels, c)| == |levels| + if c.ev.Start? then 1 else if c.ev.End? then -1 else 0
    ensures CallLevels(levels, c) != []
  {
  }

  /** The calls for a tree write its pieces and leave the level with its first item written, unless the tree
      does not fit below the ceiling. */
  lemma {:induction false} FeedTree(w: Writing, key: Label, t: Json, path: seq<nat>, wraps: Wraps, cfg: Config)
    requires Buffered(w.levels, cfg) && Placed(Top(w.levels), key) && WellFormed(t)
    ensures Fed(Feed(w, Calls(key, t, path, wraps), cfg),
      PutAll(w.sink, Pieces(w.levels, key, t, path, wraps, cfg.pretty)),
                TooDeep(|w.levels| - 1, Depth(t), cfg), Cleared(w.levels), cfg)
    decreases t
  {
    hide PutAll, CallPieces, Feed, Fed;
    match t
    case Leaf(v) =>
      FedCall(w, Call(Value(key, v), true), cfg);
    case Node(kind, items) =>
      var start, end := Call(Start(kind, key), wraps(path)), Call(End(kind), true);
      var inner := Inner(w.levels, kind, key, wraps(path));
      var ps := CallPieces(w.levels, Start(kind, key), cfg.pretty);
      FedCall(w, start, cfg);
      assert inner == CallLevels(w.levels, start);
      var deep := |w.levels| > Ceiling(cfg);
      if !deep && PutAll(w.sink, ps).Ok? {
        var w1 := Writing(PutAll(w.sink, ps).value, inner);
        FeedRest(w1, kind, items, path, wraps, cfg);
      }
      FedConcat(w, [start], ItemsCalls(items, path, 0, wraps) + [end], ps,
                ItemsPieces(inner, kind, items, path, 0, wraps, cfg.pretty) + EndPieces(inner, kind, cfg.pretty),
                deep, TooDeep(|w.levels|, ItemsDepth(items), cfg), inner, Cleared(w.levels), cfg);
      assert [start] + (ItemsCalls(items, path, 0, wraps) + [end]) == Calls(key, t, path, wraps);
      assert ps + (ItemsPieces(inner, kind, items, path, 0, wraps, cfg.pretty) + EndPieces(inner, kind, cfg.pretty))
        == Pieces(w.levels, key, t, path, wraps, cfg.pretty);
  }

  /** The calls for the items of a container and its end. */
  lemma {:induction false} FeedRest(w: Writing, kind: Kind, items: Items, path: seq<nat>, wraps: Wraps, cfg: Config)
    requires Buffered(w.levels, cfg) && AtItems(w.levels, kind) && ItemsWellFormed(kind, items)
    ensures Fed(Feed(w, ItemsCalls(items, path, 0, wraps) + [Call(End(kind), true)], cfg),
                PutAll(w.sink, ItemsPieces(w.levels, kind, items, path, 0, wraps, cfg.pretty)
                               + EndPieces(w.levels, kind, cfg.pretty)),
                TooDeep(|w.levels| - 1, ItemsDepth(items), cfg), EndLevels(Cleared(w.levels)), cfg)
    decreases items, 1
  {
    hide PutAll, Feed, Fed, EndPieces;
    var after := if items.Nil? then w.levels else Cleared(w.levels);
    FeedItems(w, kind, items, path, 0, wraps, cfg);
    var ps := ItemsPieces(w.levels, kind, items, path, 0, wraps, cfg.pretty);
    if PutAll(w.sink, ps).Ok? {
      var w1 := Writing(PutAll(w.sink, ps).value, after);
      EndAlike(w.levels, kind, cfg.pretty);
      FedCall(w1, Call(End(kind), true), cfg);
    }
    FedConcat(w, ItemsCalls(items, path, 0, wraps), [Call(End(kind), true)], ps, EndPieces(w.levels, kind, cfg.pretty),
              TooDeep(|w.levels| - 1, ItemsDepth(items), cfg), false, after, EndLevels(Cleared(w.levels)), cfg);
  }

  lemma EndAlike(levels: seq<Level>, kind: Kind, pretty: bool)
    requires AtItems(levels, kind)
    ensures EndPieces(levels, kind, pretty) == EndPieces(Cleared(levels), kind, pretty)
    ensures EndLevels(levels) == EndLevels(Cleared(levels))
    ensures CallPieces(levels, End(kind), pretty) == EndPieces(levels, kind, pretty)
    ensures CallPieces(Cleared(levels), End(kind), pretty) == EndPieces(levels, kind, pretty)
  {
  }

  lemma {:induction false} FeedItems(w: Writing, kind: Kind, items: Items, path: seq<nat>, i: nat, wraps: Wraps,
      cfg: Config)
    requires Buffered(w.levels, cfg) && AtItems(w.levels, kind) && ItemsWellFormed(kind, items)
    ensures Fed(Feed(w, ItemsCalls(items, path, i, wraps), cfg),
                PutAll(w.sink, ItemsPieces(w.levels, kind, items, path, i, wraps, cfg.pretty)),
                TooDeep(|w.levels| - 1, ItemsDepth(items), cfg),
                if items.Nil? then w.levels else Cleared(w.levels), cfg)
    decreases items, 0
  {
    match items
    case Nil =>
    case Cons(key, v, tail) =>
      hide PutAll, Feed, Fed;
      var ps := Pieces(w.levels, key, v, path + [i], wraps, cfg.pretty);
      FeedTree(w, key, v, path + [i], wraps, cfg);
      if PutAll(w.sink, ps).Ok? {
        FeedItems(Writing(PutAll(w.sink, ps).value, Cleared(w.levels)), kind, tail, path, i + 1, wraps, cfg);
      }
      assert Cleared(Cleared(w.levels)) == Cleared(w.levels);
      FedConcat(w, Calls(key, v, path + [i], wraps), ItemsCalls(tail, path, i + 1, wraps),
                ps, ItemsPieces(Cleared(w.levels), kind, tail, path, i + 1, wraps, cfg.pretty),
                TooDeep(|w.levels| - 1, Depth(v), cfg), TooDeep(|w.levels| - 1, ItemsDepth(tail), cfg),
                Cleared(w.levels), Cleared(w.levels), cfg);
  }

  // ------------------------------------------------------------ the text as a document of the grammar

  function LexemeOf(v: Scalar): Lexeme {
    match v
    case Str(text) => LString(UnitsOf(text))
    case Num(text) => LNumber(text)
    case Bool(value) => if value then LTrue else LFalse
    case Null => LNull
  }

  function KeyOfLabel(key: Label, pretty: bool): CKey {
    if key.NoKey? then NoCKey else CKey(UnitsOf(key.text), [], if pretty then [BLANK] else [])
  }

  /** The blanks in front of an item. */
  function Indent(flags: NodeFlags, level: nat, pretty: bool): seq<byte> {
    if !pretty then []
    else if flags.wrap then LineBreak(level)
    else if flags.first then []
    else [BLANK]
  }

  function Written(t: Json, path: seq<nat>, wraps: Wraps, pretty: bool): CValue
    decreases t
  {
    match t
    case Leaf(v) => CScalar(LexemeOf(v))
    case Node(kind, items) =>
      var wrap := kind.ObjectKind? || wraps(path);
      CNode(kind, WrittenItems(wrap, items, path, 0, wraps, pretty), if pretty && wrap then LineBreak(|path|) else [])
  }

  function WrittenItems(wrap: bool, items: Items, path: seq<nat>, i: nat, wraps: Wraps, pretty: bool): CItems
    decreases items
  {
    match items
    case Nil => CNil
    case Cons(key, v, tail) =>
      CCons([], Indent(NodeFlags(i == 0, wrap), |path| + 1, pretty), KeyOfLabel(key, pretty),
            Written(v, path + [i], wraps, pretty), WrittenItems(wrap, tail, path, i + 1, wraps, pretty))
  }

  /** What is written is in the grammar and stands for the tree, whatever bytes its strings and keys hold. */
  lemma {:induction false} WrittenTree(t: Json, path: seq<nat>, wraps: Wraps, pretty: bool)
    requires WellFormed(t)
    ensures Valid(Written(t, path, wraps, pretty)) && TreeOf(Written(t, path, wraps, pretty)) == t
    decreases t
  {
    match t
    case Leaf(v) =>
      if v.Str? {
        WrittenUnits(v.text);
      }
    case Node(kind, items) =>
      WrittenTreeItems(kind, kind.ObjectKind? || wraps(path), items, path, 0, wraps, pretty);
  }

  lemma {:induction false} WrittenTreeItems(kind: Kind, wrap: bool, items: Items, path: seq<nat>, i: nat, wraps: Wraps,
      pretty: bool)
    requires ItemsWellFormed(kind, items)
    ensures var c := WrittenItems(wrap, items, path, i, wraps, pretty); ValidItems(kind, c) && ItemsOf(kind, c) == items
    decreases items
  {
    match items
    case Nil =>
    case Cons(key, v, tail) =>
      if key.Key? {
        WrittenUnits(key.text);
      }
      WrittenTree(v, path + [i], wraps, pretty);
      WrittenTreeItems(kind, wrap, tail, path, i + 1, wraps, pretty);
  }

  lemma QuotedText(s: seq<byte>)
    ensures PieceText(Quoted(s)) == [QUOTE] + BodyText(UnitsOf(s)) + [QUOTE]
  {
    WrittenUnits(s);
  }

  lemma ScalarText(v: Scalar)
    ensures PiecesText(ScalarPieces(v)) == LexText(LexemeOf(v))
  {
    TextOne(ScalarPieces(v)[0]);
    if v.Str? {
      QuotedText(v.text);
    }
  }

  lemma SeparatorText(flags: NodeFlags, level: nat, pretty: bool)
    ensures PiecesText(Separator(flags, level, pretty)) == Lead(flags.first, [], Indent(flags, level, pretty))
  {
    var comma: seq<Piece> := if flags.first then [] else [Raw([COMMA])];
    var indent := Separator(flags, level, pretty)[|comma|..];
    assert Separator(flags, level, pretty) == comma + indent;
    TextConcat(comma, indent);
    TextOne(Raw([COMMA]));
    TextOne(Raw(LineBreak(level)));
    TextOne(Raw([BLANK]));
  }

  lemma KeyPiecesText(key: seq<byte>, pretty: bool)
    ensures PiecesText(KeyPieces(key, pretty)) == KeyText(KeyOfLabel(Key(key), pretty))
  {
    var blank: seq<Piece> := if pretty then [Raw([BLANK])] else [];
    QuotedText(key);
    TextConcat([Quoted(key)], [Raw([COLON])]);
    TextConcat([Quoted(key)] + [Raw([COLON])], blank);
    assert KeyPieces(key, pretty) == [Quoted(key)] + [Raw([COLON])] + blank;
    TextOne(Quoted(key));
    TextOne(Raw([COLON]));
    TextOne(Raw([BLANK]));
  }

  /** What leads an item of a container. */
  lemma LeadText(levels: seq<Level>, ev: Event, pretty: bool)
    requires |levels| > 1 && Follows(levels, ev) && (ev.Start? || ev.Value?) && Separates(Top(levels), ev)
    ensures var flags := Top(levels).flags;
      PiecesText(ItemLead(levels, ev, pretty))
        == Lead(flags.first, [], Indent(flags, |levels| - 1, pretty)) + KeyText(KeyOfLabel(ev.key, pretty))
  {
    hide Separator, KeyPieces, Grammar.Lead;
    var sep := Separator(Top(levels).flags, |levels| - 1, pretty);
    SeparatorText(Top(levels).flags, |levels| - 1, pretty);
    if ev.key.Key? {
      KeyPiecesText(ev.key.text, pretty);
      TextConcat(sep, KeyPieces(ev.key.text, pretty));
    } else {
      assert sep + [] == sep;
    }
  }

  /** The pieces behind the lead of a tree are its text. */
  lemma {:induction false} BodyIsText(levels: seq<Level>, key: Label, t: Json, path: seq<nat>, wraps: Wraps,
      pretty: bool)
    requires levels != [] && Placed(Top(levels), key) && WellFormed(t) && |path| == |levels| - 1
    ensures var ev := if t.Leaf? then Value(key, t.v) else Start(t.kind, key);
      PiecesText(Pieces(levels, key, t, path, wraps, pretty))
        == PiecesText(ItemLead(levels, ev, pretty)) + Text(Written(t, path, wraps, pretty))
    decreases t, 1
  {
    hide PiecesText, ItemLead, ScalarPieces, LexText;
    match t
    case Leaf(v) =>
      ScalarText(v);
      TextConcat(ItemLead(levels, Value(key, v), pretty), ScalarPieces(v));
    case Node(kind, items) =>
      var wrap := kind.ObjectKind? || wraps(path);
      var inner := Inner(levels, kind, key, wraps(path));
      var lead := ItemLead(levels, Start(kind, key), pretty);
      var body, close := ItemsPieces(inner, kind, items, path, 0, wraps, pretty), EndPieces(inner, kind, pretty);
      ItemsAreText(inner, kind, items, path, 0, wraps, pretty);
      CloseText(inner, kind, pretty);
      NodePieces(lead, kind, body, close);
      var c := WrittenItems(wrap, items, path, 0, wraps, pretty);
      var blanks := if pretty && wrap then LineBreak(|path|) else [];
      assert Written(t, path, wraps, pretty) == CNode(kind, c, blanks);
      hide Pieces, ItemsPieces, Written, WrittenItems, ItemsText, EndPieces;
      assert PiecesText(body) == ItemsText(c, true) && PiecesText(close) == blanks + [Closer(kind)];
      assert Text(CNode(kind, c, blanks)) == [Opener(kind)] + ItemsText(c, true) + blanks + [Closer(kind)];
      Regroup(PiecesText(lead), [Opener(kind)], ItemsText(c, true), blanks, [Closer(kind)]);
  }

  lemma NodePieces(lead: seq<Piece>, kind: Kind, body: seq<Piece>, close: seq<Piece>)
    ensures PiecesText(lead + [Raw([Opener(kind)])] + body + close)
      == PiecesText(lead) + [Opener(kind)] + PiecesText(body) + PiecesText(close)
  {
    var open := [Raw([Opener(kind)])];
    TextOne(open[0]);
    TextConcat(lead + open + body, close);
    TextConcat(lead + open, body);
    TextConcat(lead, open);
  }

  lemma Regroup(a: seq<byte>, b: seq<byte>, c: seq<byte>, d: seq<byte>, e: seq<byte>)
    ensures a + b + c + (d + e) == a + (b + c + d + e)
  {
  }

  lemma CloseText(levels: seq<Level>, kind: Kind, pretty: bool)
    requires |levels| > 1
    ensures PiecesText(EndPieces(levels, kind, pretty))
      == (if pretty && Top(levels).flags.wrap then LineBreak(|levels| - 2) else []) + [Closer(kind)]
  {
    TextOne(Raw([Closer(kind)]));
    TextOne(Raw(LineBreak(|levels| - 2)));
    if pretty && Top(levels).flags.wrap {
      TextConcat([Raw(LineBreak(|levels| - 2))], [Raw([Closer(kind)])]);
    } else {
      assert EndPieces(levels, kind, pretty) == [Raw([Closer(kind)])];
    }
  }

  /** One item of a container with what leads it. */
  lemma {:induction false} ItemIsText(levels: seq<Level>, kind: Kind, key: Label, v: Json, path: seq<nat>,
      wraps: Wraps, pretty: bool)
    requires AtItems(levels, kind) && key.Key? == kind.ObjectKind? && WellFormed(v) && |path| == |levels| - 1
    ensures var flags := Top(levels).flags;
      PiecesText(Pieces(levels, key, v, path, wraps, pretty))
        == Grammar.Lead(flags.first, [], Indent(flags, |path|, pretty)) + KeyText(KeyOfLabel(key, pretty))
           + Text(Written(v, path, wraps, pretty))
    decreases v, 2
  {
    hide PiecesText, Written, Text, ItemLead, Grammar.Lead, KeyText, KeyOfLabel, Indent, Pieces, CallPieces;
    BodyIsText(levels, key, v, path, wraps, pretty);
    LeadText(levels, if v.Leaf? then Value(key, v.v) else Start(v.kind, key), pretty);
  }

  lemma WrittenCons(flags: NodeFlags, key: Label, v: Json, tail: Items, path: seq<nat>, i: nat, wraps: Wraps,
      pretty: bool)
    requires flags.first == (i == 0)
    ensures WrittenItems(flags.wrap, Cons(key, v, tail), path, i, wraps, pretty)
      == CCons([], Indent(flags, |path| + 1, pretty), KeyOfLabel(key, pretty), Written(v, path + [i], wraps, pretty),
               WrittenItems(flags.wrap, tail, path, i + 1, wraps, pretty))
  {
    assert NodeFlags(i == 0, flags.wrap) == flags;
  }

  lemma {:induction false} ItemsAreText(levels: seq<Level>, kind: Kind, items: Items, path: seq<nat>, i: nat,
      wraps: Wraps, pretty: bool)
    requires AtItems(levels, kind) && ItemsWellFormed(kind, items) && |path| == |levels| - 2
    requires Top(levels).flags.first == (i == 0)
    ensures PiecesText(ItemsPieces(levels, kind, items, path, i, wraps, pretty))
      == ItemsText(WrittenItems(Top(levels).flags.wrap, items, path, i, wraps, pretty), i == 0)
    decreases items
  {
    match items
    case Nil =>
    case Cons(key, v, tail) =>
      ItemsAreText(Cleared(levels), kind, tail, path, i + 1, wraps, pretty);
      NextItemIsText(levels, kind, key, v, tail, path, i, wraps, pretty);
  }

  /** The case of one more item in front. */
  lemma {:induction false} NextItemIsText(levels: seq<Level>, kind: Kind, key: Label, v: Json, tail: Items,
      path: seq<nat>, i: nat, wraps: Wraps, pretty: bool)
    requires AtItems(levels, kind) && ItemsWellFormed(kind, Cons(key, v, tail)) && |path| == |levels| - 2
    requires Top(levels).flags.first == (i == 0)
    requires PiecesText(ItemsPieces(Cleared(levels), kind, tail, path, i + 1, wraps, pretty))
      == ItemsText(WrittenItems(Top(levels).flags.wrap, tail, path, i + 1, wraps, pretty), false)
    ensures PiecesText(ItemsPieces(levels, kind, Cons(key, v, tail), path, i, wraps, pretty))
      == ItemsText(WrittenItems(Top(levels).flags.wrap, Cons(key, v, tail), path, i, wraps, pretty), i == 0)
    decreases v, 3
  {
    var ps, rest := Pieces(levels, key, v, path + [i], wraps, pretty),
      ItemsPieces(Cleared(levels), kind, tail, path, i + 1, wraps, pretty);
    assert ItemsPieces(levels, kind, Cons(key, v, tail), path, i, wraps, pretty) == ps + rest;
    hide PiecesText, Written, WrittenItems, Text, Grammar.Lead, KeyText, KeyOfLabel, Indent, Pieces, ItemsPieces,
      ItemsText;
    var flags := Top(levels).flags;
    ItemIsText(levels, kind, key, v, path + [i], wraps, pretty);
    TextConcat(ps, rest);
    WrittenCons(flags, key, v, tail, path, i, wraps, pretty);
    ItemsTextCons(Indent(flags, |path| + 1, pretty), KeyOfLabel(key, pretty), Written(v, path + [i], wraps, pretty),
                  WrittenItems(flags.wrap, tail, path, i + 1, wraps, pretty), i == 0);
  }

  lemma ItemsTextCons(after: seq<byte>, key: CKey, v: CValue, tail: CItems, first: bool)
    ensures ItemsText(CCons([], after, key, v, tail), first)
      == Grammar.Lead(first, [], after) + KeyText(key) + Text(v) + ItemsText(tail, false)
  {
  }
}
