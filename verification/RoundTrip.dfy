/** Writing and reading whole documents: what the writer makes of a tree is read back as this tree, and a
    document that is copied from a parser keeps its tree. */
module RoundTrip {
  import opened Ascii
  import opened Tree
  import opened Machine
  import opened Containers
  import opened Grammar
  import opened ParserState
  import opened Outcome
  import opened Output
  import opened Emitter
  import opened Parser
  import opened Session
  import opened PathSafety
  import opened Layout
  import opened Writer
  import opened WriteTree

  /** A writer just after InitSerializer. */
  function Begin(capacity: nat): Writing {
    Writing(Sink([], capacity), [ROOT])
  }

  function TreePieces(t: Json, wraps: Wraps, pretty: bool): seq<Piece>
    requires WellFormed(t)
  {
    Pieces([ROOT], NoKey, t, [], wraps, pretty)
  }

  /** The document the writer makes of a tree: a scalar alone starts with a line break when indenting. */
  function DocumentOf(t: Json, wraps: Wraps, pretty: bool): CDocument {
    CDocument(if pretty && t.Leaf? then LineBreak(0) else [], Written(t, [], wraps, pretty), [])
  }

  lemma TreeText(t: Json, wraps: Wraps, pretty: bool)
    requires WellFormed(t)
    ensures PiecesText(TreePieces(t, wraps, pretty)) == DocumentText(DocumentOf(t, wraps, pretty))
  {
    hide Pieces, Written, Text;
    BodyIsText([ROOT], NoKey, t, [], wraps, pretty);
    TextOne(Raw(LineBreak(0)));
    var text := Text(Written(t, [], wraps, pretty));
    assert [] + text + [] == text && LineBreak(0) + text + [] == LineBreak(0) + text;
  }

  /** Whether the document finds room in an array of this length: decided by the lengths of what is written, at
      every string and key whose bytes are all escaped. */
  predicate HasRoom(t: Json, wraps: Wraps, capacity: nat, pretty: bool)
    requires WellFormed(t)
  {
    PiecesFit(0, capacity, TreePieces(t, wraps, pretty))
  }

  /** The calls for a whole tree succeed exactly if it fits below the ceiling and the document has room. */
  lemma WritingSucceeds(t: Json, wraps: Wraps, capacity: nat, cfg: Config)
    requires WellFormed(t)
    ensures var r := Feed(Begin(capacity), Calls(NoKey, t, [], wraps), cfg);
      var deep, room := TooDeep(0, Depth(t), cfg), HasRoom(t, wraps, capacity, cfg.pretty);
      && (r.Ok? <==> !deep && room)
      && (r.Ok? ==> PutAll(Sink([], capacity), TreePieces(t, wraps, cfg.pretty)) == Ok(r.value.sink))
      && (r.Ok? ==> r.value.sink.json == DocumentText(DocumentOf(t, wraps, cfg.pretty)))
      && (deep && room ==> r == Throw(DepthException(cfg)))
      && (!deep && !room ==> r == Throw(IndexOutOfRange))
  {
    hide Feed, PutAll, PiecesFit, Pieces, Calls, TooDeep, DocumentOf, PiecesText;
    var s, ps := Sink([], capacity), TreePieces(t, wraps, cfg.pretty);
    FeedTree(Begin(capacity), NoKey, t, [], wraps, cfg);
    PiecesFitExactly(s, ps);
    TreeText(t, wraps, cfg.pretty);
    PutAllAppends(s, ps);
    assert [] + PiecesText(ps) == PiecesText(ps);
  }

  /** The round trip: whatever the writer makes of a tree, compact or indented, the parser reads back as
      exactly the pre-order events of this tree and then the end. */
  lemma RoundTrip(t: Json, wraps: Wraps, capacity: nat, cfg: Config, maxDepth: int)
    requires WellFormed(t) && Depth(t) <= Limit(maxDepth)
    requires Feed(Begin(capacity), Calls(NoKey, t, [], wraps), cfg).Ok?
    ensures var json := Feed(Begin(capacity), Calls(NoKey, t, [], wraps), cfg).value.sink.json;
      && Run(Fresh(json), maxDepth) == Events(NoKey, t) + [EOF]
      && ReadDocument(json, maxDepth) == Document(t)
  {
    hide Feed, PutAll, HasRoom, Pieces, Calls, TooDeep, Run, Written, Text, Valid;
    WritingSucceeds(t, wraps, capacity, cfg);
    WrittenTree(t, [], wraps, cfg.pretty);
    LanguageEvents(DocumentOf(t, wraps, cfg.pretty), maxDepth);
    DocumentComplete(DocumentOf(t, wraps, cfg.pretty), maxDepth);
  }

  /** Every array with its elements on lines of their own, as in a copy. */
  function AllWrapped(): (wraps: Wraps)
    ensures forall path :: wraps(path)
  {
    path => true
  }

  /** Copying is idempotent: the copy of a document has the same tree, so copying the copy in the same way
      gives the same bytes. */
  lemma CopyOfCopy(d: CDocument, pretty: bool, maxDepth: int)
    requires ValidDocument(d, maxDepth)
    ensures WellFormed(TreeOf(d.v))
    ensures var s := DocumentText(DocumentOf(TreeOf(d.v), AllWrapped(), pretty));
      && Run(Fresh(s), maxDepth) == Run(Fresh(DocumentText(d)), maxDepth)
      && ReadDocument(s, maxDepth).Document?
      && DocumentText(DocumentOf(ReadDocument(s, maxDepth).tree, AllWrapped(), pretty)) == s
  {
    hide Run, Written, Text, Valid, TreeOf, Step;
    var t := TreeOf(d.v);
    DocumentComplete(d, maxDepth);
    DocumentWellFormed(DocumentText(d), maxDepth);
    WrittenTree(t, [], AllWrapped(), pretty);
    LanguageEvents(d, maxDepth);
    LanguageEvents(DocumentOf(t, AllWrapped(), pretty), maxDepth);
    DocumentComplete(DocumentOf(t, AllWrapped(), pretty), maxDepth);
  }

  /** The tree of an accepted document has keys exactly on object members and only lexer-accepted numbers. */
  lemma DocumentWellFormed(s: seq<byte>, maxDepth: int)
    requires ReadDocument(s, maxDepth).Document?
    ensures WellFormed(ReadDocument(s, maxDepth).tree)
  {
    hide Step;
    StepFresh(s, maxDepth);
    StepScalar(Fresh(s), maxDepth);
    var r := Step(Fresh(s), maxDepth);
    if r.ev.Start? {
      CloseWellFormed(r.m, maxDepth);
    }
  }

  // ------------------------------------------------------------ a caller that writes a tree

  lemma LevelsAfter(w: Writing, kind: Kind, items: Items, path: seq<nat>, i: nat, wraps: Wraps, cfg: Config)
    requires Buffered(w.levels, cfg) && AtItems(w.levels, kind) && ItemsWellFormed(kind, items)
    ensures var r := Feed(w, ItemsCalls(items, path, i, wraps), cfg);
      r.Ok? ==>
        r.value.levels == (if items.Nil? then w.levels else Cleared(w.levels)) && Follows(r.value.levels, End(kind))
  {
    hide Feed, PutAll, ItemsPieces, ItemsCalls, TooDeep;
    FeedItems(w, kind, items, path, i, wraps, cfg);
  }

  lemma LevelAfter(w: Writing, key: Label, t: Json, path: seq<nat>, wraps: Wraps, cfg: Config)
    requires Buffered(w.levels, cfg) && Placed(Top(w.levels), key) && WellFormed(t)
    ensures var r := Feed(w, Calls(key, t, path, wraps), cfg); r.Ok? ==> r.value.levels == Cleared(w.levels)
  {
    hide Feed, PutAll, Pieces, Calls, TooDeep;
    FeedTree(w, key, t, path, wraps, cfg);
  }

  lemma FeedStart(w: Writing, c: Call, calls: seq<Call>, cfg: Config)
    requires Follows(w.levels, c.ev)
    ensures Feed(w, [c] + calls, cfg) ==
      var r := Emit(w, c, cfg); if r.Throw? then Throw(r.e) else Feed(r.value, calls, cfg)
    ensures Emit(w, c, cfg).Ok? ==> Emit(w, c, cfg).value.levels == CallLevels(w.levels, c)
  {
    hide PutAll, CallPieces, CallLevels;
    assert ([c] + calls)[1..] == calls;
  }

  /** The call of the API for an item: with its key into an object, without one elsewhere. */
  method WriteCall(w: Utf8JsonWriter, ev: Event, wrap: bool) returns (r: Outcome<()>)
    requires w.Valid() && ((ev.Value? && wrap) || ev.Start?) && Placed(Top(w.W().levels), ev.key)
    modifies w
    ensures w.Cfg() == old(w.Cfg()) && w.Agrees(r, Emit(old(w.W()), Call(ev, wrap), w.Cfg()))
  {
    hide CallPieces, CallLevels, PutAll;
    match ev {
      case Value(key, v) =>
        if key.Key? {
          r := w.MemberScalar(key.text, v);
        } else {
          r := w.ElementScalar(v);
        }
      case Start(kind, key) =>
        if key.Key? {
          r := w.MemberStart(kind, key.text, wrap);
        } else {
          r := w.NodeStart(kind, wrap);
        }
    }
  }

  /** Writes a tree by the calls of the API in pre-order. */
  method WriteJson(w: Utf8JsonWriter, key: Label, t: Json, path: seq<nat>, wraps: Wraps) returns (r: Outcome<()>)
    requires w.Valid() && Placed(Top(w.W().levels), key) && WellFormed(t)
    modifies w
    ensures w.Cfg() == old(w.Cfg()) && w.Agrees(r, Feed(old(w.W()), Calls(key, t, path, wraps), w.Cfg()))
    decreases t, 0
  {
    hide Feed, Emit, CallLevels, Calls, ItemsCalls, Inner, Cleared;
    ghost var w0, cfg := w.W(), w.Cfg();
    CallsOf(key, t, path, wraps);
    match t {
      case Leaf(v) =>
        FeedOne(w0, Call(Value(key, v), true), cfg);
        r := WriteCall(w, Value(key, v), true);
      case Node(kind, items) =>
        ghost var start, end := Call(Start(kind, key), wraps(path)), Call(End(kind), true);
        ghost var body := ItemsCalls(items, path, 0, wraps);
        FeedStart(w0, start, body + [end], cfg);
        ghost var inner := Inner(w0.levels, kind, key, wraps(path));
        InnerIs(w0.levels, kind, key, wraps(path));
        var _ :- WriteCall(w, Start(kind, key), wraps(path));
        FeedConcat(w.W(), body, [end], cfg);
        LevelsAfter(w.W(), kind, items, path, 0, wraps, cfg);
        var _ :- WriteItems(w, kind, items, path, 0, wraps);
        FeedOne(w.W(), end, cfg);
        r := w.NodeEnd(kind);
    }
  }

  lemma InnerIs(levels: seq<Level>, kind: Kind, key: Label, wrap: bool)
    requires levels != [] && Placed(Top(levels), key)
    ensures var inner := CallLevels(levels, Call(Start(kind, key), wrap));
      inner == Inner(levels, kind, key, wrap) && AtItems(inner, kind)
  {
  }

  method WriteItems(w: Utf8JsonWriter, kind: Kind, items: Items, path: seq<nat>, i: nat, wraps: Wraps)
    returns (r: Outcome<()>)
    requires w.Valid() && AtItems(w.W().levels, kind) && ItemsWellFormed(kind, items)
    modifies w
    ensures w.Cfg() == old(w.Cfg()) && w.Agrees(r, Feed(old(w.W()), ItemsCalls(items, path, i, wraps), w.Cfg()))
    decreases items, 0
  {
    ghost var w0, cfg := w.W(), w.Cfg();
    match items {
      case Nil =>
        return Ok(());
      case Cons(key, v, tail) =>
        hide Feed, Emit, Calls, ItemsCalls;
        ItemsCallsOf(key, v, tail, path, i, wraps);
        FeedConcat(w0, Calls(key, v, path + [i], wraps), ItemsCalls(tail, path, i + 1, wraps), cfg);
        LevelAfter(w0, key, v, path + [i], wraps, cfg);
        var _ :- WriteJson(w, key, v, path + [i], wraps);
        r := WriteItems(w, kind, tail, path, i + 1, wraps);
    }
  }

  /** Writes a whole document with a writer used before. It succeeds exactly if depth and room suffice, and a
      parser whose limit the tree respects reads the output back as exactly the events of this tree. */
  method WriteDocument(w: Utf8JsonWriter, t: Json, wraps: Wraps, maxDepth: int, pretty: bool) returns (r: Outcome<()>)
    requires WellFormed(t)
    modifies w
    ensures w.Cfg() == Config(maxDepth, pretty, w.debug)
    ensures r.Ok? <==> !TooDeep(0, Depth(t), w.Cfg()) && HasRoom(t, wraps, old(w.json.capacity), pretty)
    ensures r.Ok? ==> w.json.json == DocumentText(DocumentOf(t, wraps, pretty))
    ensures r.Ok? ==> forall limit :: Depth(t) <= Limit(limit) ==>
      Run(Fresh(w.json.json), limit) == Events(NoKey, t) + [EOF]
  {
    hide Feed, PutAll, HasRoom, Pieces, TreePieces, Calls, TooDeep, Run, DocumentOf, DocumentText;
    w.InitSerializer();
    w.SetMaxDepth(maxDepth);
    w.SetPretty(pretty);
    ghost var capacity, cfg := w.json.capacity, w.Cfg();
    WritingSucceeds(t, wraps, capacity, cfg);
    r := WriteJson(w, NoKey, t, [], wraps);
    if r.Ok? {
      forall limit | Depth(t) <= Limit(limit)
        ensures Run(Fresh(w.json.json), limit) == Events(NoKey, t) + [EOF]
      {
        RoundTrip(t, wraps, capacity, cfg, limit);
      }
    }
  }

  lemma CallsOf(key: Label, t: Json, path: seq<nat>, wraps: Wraps)
    ensures Calls(key, t, path, wraps) ==
      match t
      case Leaf(v) => [Call(Value(key, v), true)]
      case Node(kind, items) =>
        [Call(Start(kind, key), wraps(path))] + (ItemsCalls(items, path, 0, wraps) + [Call(End(kind), true)])
  {
  }

  lemma ItemsCallsOf(key: Label, v: Json, tail: Items, path: seq<nat>, i: nat, wraps: Wraps)
    ensures ItemsCalls(Cons(key, v, tail), path, i, wraps)
      == Calls(key, v, path + [i], wraps) + ItemsCalls(tail, path, i + 1, wraps)
  {
  }

  // ------------------------------------------------------------ copying never runs into the depth checks

  /** The levels of the writer are the root and the open containers of the parser. */
  predicate Tracks(levels: seq<Level>, frames: seq<Frame>) {
    && |levels| == |frames| + 1 && levels[0].node == Undefined
    && forall i :: 0 <= i < |frames| ==> levels[i + 1].node == NodeOf(KindOf(frames[i]))
  }

  /** The string and the key of an event have a byte that needs no escape. */
  predicate CoveredEvent(ev: Event) {
    && (ev.Value? || ev.Start? ==> ev.key.Key? ==> !AllEscaped(ev.key.text))
    && (ev.Value? && ev.v.Str? ==> !AllEscaped(ev.v.text))
  }

  predicate CoveredEvents(evs: seq<Event>) {
    forall i :: 0 <= i < |evs| ==> CoveredEvent(evs[i])
  }

  lemma CoveredCall(levels: seq<Level>, ev: Event, pretty: bool)
    requires Follows(levels, ev) && CoveredEvent(ev) && (ev.Value? && ev.v.Num? ==> ev.v.text != [])
    ensures AllCovered(CallPieces(levels, ev, pretty))
  {
    hide AllEscaped;
    if ev.End? {
    } else {
      var lead := ItemLead(levels, ev, pretty);
      CoveredLead(levels, ev, pretty);
      var item := if ev.Value? then ScalarPieces(ev.v) else [Raw([Opener(ev.kind)])];
      assert AllCovered(item);
      assert CallPieces(levels, ev, pretty) == lead + item;
    }
  }

  predicate AllCovered(ps: seq<Piece>) {
    forall i :: 0 <= i < |ps| ==> Covered(ps[i])
  }

  lemma CoveredLead(levels: seq<Level>, ev: Event, pretty: bool)
    requires Follows(levels, ev) && CoveredEvent(ev) && !ev.End?
    ensures AllCovered(ItemLead(levels, ev, pretty))
  {
    hide AllEscaped;
    var sep := if Separates(Top(levels), ev) then Separator(Top(levels).flags, |levels| - 1, pretty) else [];
    var key := if ev.key.Key? then KeyPieces(ev.key.text, pretty) else [];
    assert AllCovered(sep) && AllCovered(key);
    assert ItemLead(levels, ev, pretty) == sep + key;
  }

  lemma TracksStep(m: Machine, levels: seq<Level>, maxDepth: int)
    requires !Last(Step(m, maxDepth).ev) && Tracks(levels, FramesIn(m)) && |FramesIn(m)| <= Limit(maxDepth)
    ensures var s := Step(m, maxDepth);
      && Follows(levels, s.ev) && Tracks(CallLevels(levels, Call(s.ev, true)), FramesIn(s.m))
      && |FramesIn(s.m)| <= Limit(maxDepth) && (s.ev.Start? ==> |FramesIn(s.m)| == |levels|)
  {
    assert |levels| == 1 ==> Placed(Top(levels), NoKey);
    hide Step, Placed;
    StepKinds(m, maxDepth);
    if Inside(m) {
      StepInside(m, maxDepth);
      TracksInside(levels, m.frames, Step(m, maxDepth));
    } else if m.Fresh? {
      StepFresh(m.rest, maxDepth);
    } else {
      NoStep(m, maxDepth);
    }
  }

  lemma NoStep(m: Machine, maxDepth: int)
    requires !Inside(m) && !m.Fresh?
    ensures Last(Step(m, maxDepth).ev)
  {
  }

  lemma TracksInside(levels: seq<Level>, frames: seq<Frame>, s: Result)
    requires frames != [] && Tracks(levels, frames) && StepShape(frames, s) && s.ev != Error
    ensures Follows(levels, s.ev) && s.m.Open? && Tracks(CallLevels(levels, Call(s.ev, true)), s.m.frames)
  {
    assert Top(levels).node == NodeOf(KindOf(Top(frames)));
    var next, f := CallLevels(levels, Call(s.ev, true)), s.m.frames;
    match s.ev
    case End(_) =>
      assert f == frames[..|frames| - 1];
    case Value(_, _) =>
      assert forall i :: 0 <= i < |f| - 1 ==> f[i] == Init(f)[i] == Init(frames)[i] == frames[i];
    case Start(_, _) =>
      var g := Init(f);
      assert forall i :: 0 <= i < |g| - 1 ==> g[i] == Init(g)[i] == Init(frames)[i] == frames[i];
      assert forall i :: 0 <= i < |g| ==> f[i] == g[i];
  }

  /** One event of a parser whose limit is within the writer's ceiling is written. */
  lemma StepFits(m: Machine, w: Writing, maxDepth: int, cfg: Config)
    requires !Last(Step(m, maxDepth).ev) && Tracks(w.levels, FramesIn(m))
      && |FramesIn(m)| <= Limit(maxDepth) <= Ceiling(cfg)
    requires CoveredEvent(Step(m, maxDepth).ev)
    ensures var s := Step(m, maxDepth);
      && Follows(w.levels, s.ev)
      && var e := Emit(w, Call(s.ev, true), cfg);
        e.Ok? && Tracks(e.value.levels, FramesIn(s.m)) && |FramesIn(s.m)| <= Limit(maxDepth)
  {
    hide Step, CallLevels, CallPieces, Tracks, CoveredEvent, PutAll;
    var s := Step(m, maxDepth);
    TracksStep(m, w.levels, maxDepth);
    StepScalar(m, maxDepth);
    NumberNotEmpty(s.ev);
    CoveredCall(w.levels, s.ev, cfg.pretty);
    CoveredPiecesFit(w.sink, CallPieces(w.levels, s.ev, cfg.pretty));
    if s.ev.Start? {
      DepthAtStart(|w.levels| - 1, cfg);
    }
  }

  lemma NumberNotEmpty(ev: Event)
    ensures ev.Value? && ev.v.Num? && Lexer.ValidNumber(ev.v.text) ==> ev.v.text != []
  {
  }

  /** The events before the end or the first error can all be written. */
  lemma {:induction false} RunFits(m: Machine, w: Writing, n: nat, maxDepth: int, cfg: Config)
    requires Tracks(w.levels, FramesIn(m)) && |FramesIn(m)| <= Limit(maxDepth) <= Ceiling(cfg)
    requires n < |Run(m, maxDepth)| && forall i :: 0 <= i < n ==> CoveredEvent(Run(m, maxDepth)[i])
    ensures Feed(w, Wrapped(Run(m, maxDepth)[..n]), cfg).Ok?
    decreases n
  {
    hide Step, Emit, Tracks, CoveredEvent, Feed, Follows;
    if n == 0 {
      FeedNothing(w, cfg);
      assert Run(m, maxDepth)[..0] == [];
    } else {
      var s, run := Step(m, maxDepth), Run(m, maxDepth);
      RunStep(m, maxDepth);
      hide Run, Wrapped;
      assert run[0] == s.ev;
      StepFits(m, w, maxDepth, cfg);
      assert forall i :: 0 <= i < n - 1 ==> Run(s.m, maxDepth)[i] == run[i + 1];
      RunFits(s.m, Emit(w, Call(s.ev, true), cfg).value, n - 1, maxDepth, cfg);
      assert run[..n] == [s.ev] + Run(s.m, maxDepth)[..n - 1];
      FeedFirst(w, s.ev, Run(s.m, maxDepth)[..n - 1], cfg);
    }
  }

  /** What is copied of a container is what the parser reads next. */
  lemma {:induction false} RestIsPrefix(m: Machine, maxDepth: int)
    requires Inside(m)
    ensures var c := Close(m, maxDepth);
      Run(m, maxDepth) == Rest(m, maxDepth) + (if c.Broken? then [Error] else Run(c.m, maxDepth))
    decreases m.Unread()
  {
    hide Step, Rest, Close, Run;
    RestCases(m, maxDepth);
    CloseCases(m, maxDepth);
    var r := Step(m, maxDepth);
    match r.ev
    case Error => RunError(m, maxDepth);
    case End(_) => RunStep(m, maxDepth);
    case Value(_, _) =>
      RunStep(m, maxDepth);
      RestIsPrefix(r.m, maxDepth);
      var rest := if Close(r.m, maxDepth).Broken? then [Error] else Run(Close(r.m, maxDepth).m, maxDepth);
      Associative([r.ev], Rest(r.m, maxDepth), rest);
    case Start(_, _) =>
      RunStep(m, maxDepth);
      RestIsPrefix(r.m, maxDepth);
      var d := Close(r.m, maxDepth);
      if d.Broken? {
        Associative([r.ev], Rest(r.m, maxDepth), [Error]);
        assert [r.ev] + Rest(r.m, maxDepth) + [] == [r.ev] + Rest(r.m, maxDepth);
      } else {
        RestIsPrefix(d.m, maxDepth);
        var e := Close(d.m, maxDepth);
        var rest := if e.Broken? then [Error] else Run(e.m, maxDepth);
        Associative([r.ev], Rest(r.m, maxDepth), Rest(d.m, maxDepth) + rest);
        Associative([r.ev] + Rest(r.m, maxDepth), Rest(d.m, maxDepth), rest);
      }
  }

  lemma Associative<T>(a: seq<T>, b: seq<T>, c: seq<T>)
    ensures a + (b + c) == a + b + c
  {
  }

  lemma RunError(m: Machine, maxDepth: int)
    requires Step(m, maxDepth).ev == Error
    ensures Run(m, maxDepth) == [Error]
  {
    hide Step;
  }

  /** Whatever the input, the events before the end or the first error follow the nesting of the writer. */
  lemma {:induction false} RunAlong(m: Machine, levels: seq<Level>, n: nat, maxDepth: int)
    requires Tracks(levels, FramesIn(m)) && |FramesIn(m)| <= Limit(maxDepth) && n < |Run(m, maxDepth)|
    ensures Along(levels, Wrapped(Run(m, maxDepth)[..n]))
    decreases n
  {
    hide Step, Tracks, Follows, CallLevels;
    if n > 0 {
      var s, run := Step(m, maxDepth), Run(m, maxDepth);
      RunStep(m, maxDepth);
      assert run[0] == s.ev;
      TracksStep(m, levels, maxDepth);
      RunAlong(s.m, CallLevels(levels, Call(s.ev, true)), n - 1, maxDepth);
      assert run[..n] == [s.ev] + Run(s.m, maxDepth)[..n - 1];
      assert Wrapped(run[..n])[1..] == Wrapped(Run(s.m, maxDepth)[..n - 1]);
    }
  }

  // ------------------------------------------------------------ copying a document

  /** The root value is read up to its end; what follows it may still be wrong. */
  predicate RootEnds(s: seq<byte>, maxDepth: int) {
    var r := Step(Fresh(s), maxDepth);
    r.ev.Value? || (r.ev.Start? && Inside(r.m) && Close(r.m, maxDepth).Closed?)
  }

  /** The calls a copy makes. */
  function CopiedEvents(s: seq<byte>, maxDepth: int): seq<Event> {
    var r := Step(Fresh(s), maxDepth);
    if r.ev == Error then [] else ItemEvents(r.ev, r.m, maxDepth)
  }

  lemma RootEndsWithDocument(s: seq<byte>, maxDepth: int)
    requires ReadDocument(s, maxDepth).Document?
    ensures RootEnds(s, maxDepth) && WellFormed(ReadDocument(s, maxDepth).tree)
    ensures Wrapped(CopiedEvents(s, maxDepth)) == Calls(NoKey, ReadDocument(s, maxDepth).tree, [], AllWrapped())
  {
    hide Step, Close, Rest, Wrapped, Calls;
    DocumentWellFormed(s, maxDepth);
    StepFresh(s, maxDepth);
    var r := Step(Fresh(s), maxDepth);
    WrappedCalls(NoKey, ReadDocument(s, maxDepth).tree, [], AllWrapped());
    if r.ev.Start? {
      RestIsItems(r.m, maxDepth);
      var items := Close(r.m, maxDepth).items;
      assert [r.ev] + (ItemsEvents(items) + [End(r.ev.kind)]) == Events(NoKey, Node(r.ev.kind, items));
    } else {
      assert [r.ev] + [] == Events(NoKey, Leaf(r.ev.v));
    }
  }

  function CopiedCalls(s: seq<byte>, maxDepth: int): seq<Call> {
    Wrapped(CopiedEvents(s, maxDepth))
  }

  function CopiedPieces(s: seq<byte>, maxDepth: int, pretty: bool): seq<Piece> {
    CallsPieces([ROOT], CopiedCalls(s, maxDepth), pretty)
  }

  lemma CopiedIsPrefix(s: seq<byte>, maxDepth: int)
    ensures var copied, run := CopiedEvents(s, maxDepth), Run(Fresh(s), maxDepth);
      |copied| < |run| && run[..|copied|] == copied
  {
    hide Step, Close, Rest, Run;
    var m := Fresh(s);
    var r, run := Step(m, maxDepth), Run(m, maxDepth);
    if r.ev != Error {
      StepFresh(s, maxDepth);
      RunStep(m, maxDepth);
      if r.ev.Start? {
        RestIsPrefix(r.m, maxDepth);
      }
    }
  }

  /** For any bytes, the calls of a copy succeed exactly if none opens a level beyond the ceiling and the lengths
      of what is written leave room for every string. */
  lemma CopyFeeds(s: seq<byte>, capacity: nat, maxDepth: int, cfg: Config)
    ensures var calls, ps := CopiedCalls(s, maxDepth), CopiedPieces(s, maxDepth, cfg.pretty);
      var fed := Feed(Begin(capacity), calls, cfg);
      var deep, room := !Shallow(0, calls, Ceiling(cfg)), PiecesFit(0, capacity, ps);
      && (fed.Ok? <==> !deep && room)
      && (fed.Ok? ==> PutAll(Sink([], capacity), ps) == Ok(fed.value.sink))
      && (deep && room ==> fed == Throw(DepthException(cfg)))
      && (!deep && !room ==> fed == Throw(IndexOutOfRange))
  {
    hide Feed, PutAll, PiecesFit, CallsPieces, Shallow, Along, CopiedEvents, Wrapped, Run;
    var n := |CopiedEvents(s, maxDepth)|;
    CopiedIsPrefix(s, maxDepth);
    RunAlong(Fresh(s), [ROOT], n, maxDepth);
    FeedAlong(Begin(capacity), CopiedCalls(s, maxDepth), cfg);
    PiecesFitExactly(Sink([], capacity), CopiedPieces(s, maxDepth, cfg.pretty));
  }

  /** A parser whose limit is within the ceiling and strings with a byte that needs no escape are enough. */
  lemma CopyFits(s: seq<byte>, capacity: nat, maxDepth: int, cfg: Config)
    requires Limit(maxDepth) <= Ceiling(cfg)
    requires CoveredEvents(Run(Fresh(s), maxDepth))
    ensures Shallow(0, CopiedCalls(s, maxDepth), Ceiling(cfg))
    ensures PiecesFit(0, capacity, CopiedPieces(s, maxDepth, cfg.pretty))
  {
    hide Step, Wrapped, Run, Feed, CoveredEvent, CopiedEvents, Shallow, PiecesFit, PutAll, CallsPieces;
    CopiedIsPrefix(s, maxDepth);
    RunFits(Fresh(s), Begin(capacity), |CopiedEvents(s, maxDepth)|, maxDepth, cfg);
    CopyFeeds(s, capacity, maxDepth, cfg);
  }

  /** What copying a document promises, for any bytes; safe says that the parser meets no empty key at the end of
      a full path buffer. The copy throws nothing exactly if it is safe, no start is beyond the ceiling and there
      is room, by lengths alone; then it returns whether the root value was complete. For an accepted document
      these are conditions on its tree, and the output is the writer's document of it. */
  predicate CopyOutcome(s: seq<byte>, maxDepth: int, capacity: nat, cfg: Config, safe: bool, r: Outcome<bool>,
                        sink: Sink) {
    var ps := CopiedPieces(s, maxDepth, cfg.pretty);
    var deep, room := !Shallow(0, CopiedCalls(s, maxDepth), Ceiling(cfg)), PiecesFit(0, capacity, ps);
    && (r.Ok? <==> safe && !deep && room)
    && (r.Ok? ==> (r.value <==> RootEnds(s, maxDepth)) && PutAll(Sink([], capacity), ps) == Ok(sink))
    && (r.Throw? && !deep ==> r.e == IndexOutOfRange)
    && (safe && deep && room ==> r == Throw(DepthException(cfg)))
    && (ReadDocument(s, maxDepth).Document? && WellFormed(ReadDocument(s, maxDepth).tree) ==>
          var t := ReadDocument(s, maxDepth).tree;
          && (r.Ok? <==>
                safe && !TooDeep(0, Depth(t), cfg) && HasRoom(t, AllWrapped(), capacity, cfg.pretty))
          && (r.Ok? ==> r.value && sink.json == DocumentText(DocumentOf(t, AllWrapped(), cfg.pretty))))
  }

  lemma CopyKeeps(s: seq<byte>, maxDepth: int, capacity: nat, cfg: Config, safe: bool, r: Outcome<bool>, w: Writing)
    requires r.Ok? ==> safe
    requires Step(Fresh(s), maxDepth).ev == Error ==> r == Ok(false) && w.sink == Sink([], capacity)
    requires Step(Fresh(s), maxDepth).ev != Error ==>
      var fed := Feed(Begin(capacity), CopiedCalls(s, maxDepth), cfg);
      match r
      case Ok(ok) => fed == Ok(w) && (ok <==> RootEnds(s, maxDepth))
      case Throw(e) => fed == Throw(e) || (e == IndexOutOfRange && !safe)
    ensures CopyOutcome(s, maxDepth, capacity, cfg, safe, r, w.sink)
  {
    hide Step, Close, Rest, Wrapped, Calls, Run, Feed, PutAll, HasRoom, PiecesFit, Pieces, TreePieces, DocumentOf;
    hide RootEnds, CopiedEvents, TooDeep, Ceiling, ReadDocument, Shallow, CallsPieces;
    CopyFeeds(s, capacity, maxDepth, cfg);
    if Step(Fresh(s), maxDepth).ev == Error {
      NothingCopied(s, capacity, maxDepth, cfg);
    } else if ReadDocument(s, maxDepth).Document? {
      RootEndsWithDocument(s, maxDepth);
      WritingSucceeds(ReadDocument(s, maxDepth).tree, AllWrapped(), capacity, cfg);
    }
  }

  lemma NothingCopied(s: seq<byte>, capacity: nat, maxDepth: int, cfg: Config)
    requires Step(Fresh(s), maxDepth).ev == Error
    ensures !RootEnds(s, maxDepth) && ReadDocument(s, maxDepth) == Rejected
    ensures CopiedCalls(s, maxDepth) == [] && CopiedPieces(s, maxDepth, cfg.pretty) == []
    ensures Shallow(0, CopiedCalls(s, maxDepth), Ceiling(cfg)) && PiecesFit(0, capacity, [])
    ensures PutAll(Sink([], capacity), []) == Ok(Sink([], capacity))
  {
    hide Step;
  }

  /** Behind the root value there are no more keys, so a document is safe exactly if this value is. */
  lemma CopyIsSafe(s: seq<byte>, capacity: nat, maxDepth: int)
    requires Step(Fresh(s), maxDepth).ev != Error
    ensures var r := Step(Fresh(s), maxDepth);
      Safe(r.m, capacity, maxDepth) <==> ReadFit(r.m, r.ev, capacity, maxDepth).Fit?
  {
    hide Step, Close, CloseFit, Safe;
    StepFresh(s, maxDepth);
    var r := Step(Fresh(s), maxDepth);
    if r.ev.Start? {
      SafeIffCloseFit(r.m, capacity, maxDepth);
      var c, fit := Close(r.m, maxDepth), CloseFit(r.m, capacity, maxDepth);
      if c.Closed? && fit.Fit? {
        SafeAtRoot(c.m, fit.capacity, maxDepth);
      }
    } else {
      SafeAtRoot(r.m, capacity, maxDepth);
    }
  }

  /** Starts on a document and reads its first event, which never runs into the exception. */
  method FirstEvent(p: Utf8JsonParser, bytes: array<byte>, start: int, len: int)
    requires p.Ready() && p.input.buf != bytes
    requires 0 <= start && 0 <= len && start + len <= bytes.Length
    modifies p, p.input, p.input.buf
    ensures p.Settled() && p.maxDepth == old(p.maxDepth)
    ensures var doc := bytes[start..start + len];
      var s := Step(Fresh(doc), p.maxDepth);
      && p.M() == s.m && p.Observed(p.lastEvent) == s.ev
      && Safe(Fresh(doc), old(p.pathCapacity), p.maxDepth) == (Last(s.ev) || Safe(s.m, p.pathCapacity, p.maxDepth))
  {
    hide Step, Safe, CapacityAfter;
    hide Utf8JsonParser.Agrees, Utf8JsonParser.Live, Utf8JsonParser.Frames, Utf8JsonParser.M, Utf8JsonParser.Observed;
    p.InitParser(bytes, start, len);
    SafeStep(p.M(), p.pathCapacity, p.maxDepth);
    var ev := p.NextEvent();
  }

  /** Makes a writer used before ready for a document. */
  method StartWriter(w: Utf8JsonWriter, depth: int)
    modifies w
    ensures w.Valid() && w.W() == Begin(old(w.json.capacity)) && Placed(Top(w.W().levels), NoKey)
    ensures w.Cfg() == Config(depth, old(w.pretty), w.debug)
  {
    w.InitSerializer();
    w.SetMaxDepth(depth);
  }

  /** Copies a document with a parser in any state and a writer used before: the usual sequence of calls. */
  method CopyDocument(p: Utf8JsonParser, w: Utf8JsonWriter, bytes: array<byte>, start: int, len: int, depth: int)
    returns (r: Outcome<bool>)
    requires p.Ready() && p.input.buf != bytes
    requires 0 <= start && 0 <= len && start + len <= bytes.Length
    modifies p, p.input, p.input.buf, w
    ensures p.Ready() && p.maxDepth == old(p.maxDepth) && w.Cfg() == Config(depth, old(w.pretty), w.debug)
    ensures var doc := bytes[start..start + len];
      var safe := Safe(Fresh(doc), old(p.pathCapacity), p.maxDepth);
      CopyOutcome(doc, p.maxDepth, old(w.json.capacity), w.Cfg(), safe, r, w.json)
  {
    hide Step, Close, Safe, ReadFit, Feed, Rest, Wrapped, CopyOutcome;
    hide Utf8JsonParser.Agrees, Utf8JsonParser.Live, Utf8JsonParser.Frames, Utf8JsonParser.M, Utf8JsonParser.Observed;
    ghost var doc, capacity := bytes[start..start + len], w.json.capacity;
    ghost var safe := Safe(Fresh(doc), p.pathCapacity, p.maxDepth);
    StepFresh(doc, p.maxDepth);
    FirstEvent(p, bytes, start, len);
    if Step(Fresh(doc), p.maxDepth).ev != Error {
      CopyIsSafe(doc, p.pathCapacity, p.maxDepth);
    }
    StartWriter(w, depth);
    r := WriteTree.WriteTree(p, w);
    CopyKeeps(doc, p.maxDepth, capacity, w.Cfg(), safe, r, Writing(w.json, if w.Valid() then w.W().levels else []));
  }
}
