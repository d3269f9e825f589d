/** The writer as a machine over its calls: a stack of levels decides separators, line breaks and nesting. */
module Emitter {
  import opened Ascii
  import opened Tree
  import opened Machine
  import opened Outcome
  import opened Output

  datatype NodeType = Undefined | ObjectNode | ArrayNode

  /** No item written yet, and every item on a line of its own when indenting. */
  datatype NodeFlags = NodeFlags(first: bool, wrap: bool)

  datatype Level = Level(node: NodeType, flags: NodeFlags)

  /** The levels that the depth buffers hold up to the current one. */
  function LevelsOf(types: seq<NodeType>, flags: seq<NodeFlags>, level: nat): seq<Level>
    requires level < |types| == |flags|
  {
    seq(level + 1, i requires 0 <= i <= level => Level(types[i], flags[i]))
  }

  /** maxDepth, indentation, and whether the library was built with its debug checks. */
  datatype Config = Config(maxDepth: int, pretty: bool, debug: bool)

  datatype Writing = Writing(sink: Sink, levels: seq<Level>)

  /** A call that adds an item or ends a container. wrap is the argument of ArrayStart. */
  datatype Call = Call(ev: Event, wrap: bool)

  const START_DEPTH: nat := 16
  const ROOT := Level(Undefined, NodeFlags(true, true))

  function LineBreak(level: nat): seq<byte> {
    [LF] + seq(4 * level, _ => BLANK)
  }

  function Separator(flags: NodeFlags, level: nat, pretty: bool): seq<Piece> {
    (if flags.first then [] else [Raw([COMMA])])
    + (if !pretty then []
       else if flags.wrap then [Raw(LineBreak(level))]
       else if flags.first then []
       else [Raw([BLANK])])
  }

  function KeyPieces(key: seq<byte>, pretty: bool): seq<Piece> {
    [Quoted(key), Raw([COLON])] + (if pretty then [Raw([BLANK])] else [])
  }

  function ScalarPieces(v: Scalar): seq<Piece> {
    match v
    case Str(text) => [Quoted(text)]
    case Num(text) => [Copied(text)]
    case Bool(value) => [Raw(if value then TRUE_TEXT else FALSE_TEXT)]
    case Null => [Raw(NULL_TEXT)]
  }

  function ClearFirst(l: Level): Level {
    l.(flags := l.flags.(first := false))
  }

  function WithTop(levels: seq<Level>, l: Level): seq<Level>
    requires levels != []
  {
    Init(levels) + [l]
  }

  function NodeOf(kind: Kind): NodeType {
    if kind.ObjectKind? then ObjectNode else ArrayNode
  }

  /** An item with or without a key belongs at the innermost level. */
  predicate Placed(l: Level, key: Label) {
    if key.Key? then l.node == ObjectNode else l.node != ObjectNode
  }

  /** A call that follows the nesting of a tree. */
  predicate Follows(levels: seq<Level>, ev: Event) {
    && levels != []
    && match ev
       case Value(key, _) => Placed(Top(levels), key)
       case Start(_, key) => Placed(Top(levels), key)
       case End(kind) => |levels| > 1 && Top(levels).node == NodeOf(kind)
       case _ => false
  }

  /** A start call at the root adds no separator. */
  predicate Separates(l: Level, ev: Event) {
    !(ev.Start? && l.node == Undefined)
  }

  function ItemLead(levels: seq<Level>, ev: Event, pretty: bool): seq<Piece>
    requires levels != [] && (ev.Start? || ev.Value?)
  {
    (if Separates(Top(levels), ev) then Separator(Top(levels).flags, |levels| - 1, pretty) else [])
    + (if ev.key.Key? then KeyPieces(ev.key.text, pretty) else [])
  }

  /** What a call writes. */
  function CallPieces(levels: seq<Level>, ev: Event, pretty: bool): seq<Piece>
    requires Follows(levels, ev)
  {
    match ev
    case Value(_, v) => ItemLead(levels, ev, pretty) + ScalarPieces(v)
    case Start(kind, _) => ItemLead(levels, ev, pretty) + [Raw([Opener(kind)])]
    case End(kind) => EndPieces(levels, kind, pretty)
  }

  function EndPieces(levels: seq<Level>, kind: Kind, pretty: bool): seq<Piece>
    requires |levels| > 1
  {
    (if pretty && Top(levels).flags.wrap then [Raw(LineBreak(|levels| - 2))] else []) + [Raw([Closer(kind)])]
  }

  function EndLevels(levels: seq<Level>): seq<Level>
    requires |levels| > 1
  {
    WithTop(Init(levels), ClearFirst(Top(Init(levels))))
  }

  function CallLevels(levels: seq<Level>, c: Call): (r: seq<Level>)
    requires Follows(levels, c.ev)
  {
    match c.ev
    case Value(_, _) => WithTop(levels, ClearFirst(Top(levels)))
    case Start(kind, _) =>
      (if Separates(Top(levels), c.ev) then WithTop(levels, ClearFirst(Top(levels))) else levels)
      + [Level(NodeOf(kind), NodeFlags(true, kind.ObjectKind? || c.wrap))]
    case End(_) => EndLevels(levels)
  }

  /** The exception of one more level, if there is one: beyond maxDepth, or, without the debug checks,
      beyond the initial depth buffers, because one of them was never created and cannot grow. */
  function DepthCheck(level: nat, cfg: Config): Outcome<()> {
    if level >= cfg.maxDepth then Throw(InvalidOperation)
    else if !cfg.debug && level + 1 >= START_DEPTH then Throw(NullReference)
    else Ok(())
  }

  /** What is written where no check stands in the way: a separator as the flags of the level ask for it, then
      these pieces. */
  function Loose(w: Writing, ps: seq<Piece>, cfg: Config): Outcome<Writing>
    requires w.levels != []
  {
    var out := PutAll(w.sink, Separator(Top(w.levels).flags, |w.levels| - 1, cfg.pretty) + ps);
    if out.Throw? then Throw(out.e) else Ok(Writing(out.value, WithTop(w.levels, ClearFirst(Top(w.levels)))))
  }

  lemma LooseParts(w: Writing, a: seq<Piece>, b: seq<Piece>, cfg: Config)
    requires w.levels != []
    ensures Loose(w, a + b, cfg) ==
      var lead := Loose(w, a, cfg);
      if lead.Throw? then lead
      else
        var out := PutAll(lead.value.sink, b);
        if out.Throw? then Throw(out.e) else Ok(Writing(out.value, lead.value.levels))
  {
    hide PutAll, Separator, WithTop;
    var sep := Separator(Top(w.levels).flags, |w.levels| - 1, cfg.pretty);
    PutAllConcat(w.sink, sep + a, b);
    assert sep + (a + b) == sep + a + b;
  }

  lemma LooseAlone(w: Writing, ps: seq<Piece>, cfg: Config)
    requires w.levels != []
    ensures Loose(w, ps, cfg) ==
      var lead := PutAll(w.sink, Separator(Top(w.levels).flags, |w.levels| - 1, cfg.pretty));
      if lead.Throw? then Throw(lead.e)
      else
        var out := PutAll(lead.value, ps);
        if out.Throw? then Throw(out.e)
        else Ok(Writing(out.value, WithTop(w.levels, ClearFirst(Top(w.levels)))))
  {
    hide PutAll, Separator, WithTop;
    PutAllConcat(w.sink, Separator(Top(w.levels).flags, |w.levels| - 1, cfg.pretty), ps);
  }

  /** One call of the writer. */
  function Emit(w: Writing, c: Call, cfg: Config): (r: Outcome<Writing>)
    requires Follows(w.levels, c.ev)
  {
    var out := PutAll(w.sink, CallPieces(w.levels, c.ev, cfg.pretty));
    if out.Throw? then Throw(out.e)
    else
      var depth := if c.ev.Start? then DepthCheck(|w.levels| - 1, cfg) else Ok(());
      if depth.Throw? then Throw(depth.e)
      else Ok(Writing(out.value, CallLevels(w.levels, c)))
  }

  /** A whole list of calls. A call out of place ends the list, which no list that follows a tree contains. */
  function Feed(w: Writing, calls: seq<Call>, cfg: Config): Outcome<Writing>
    decreases |calls|
  {
    if calls == [] then Ok(w)
    else if !Follows(w.levels, calls[0].ev) then Throw(InvalidOperation)
    else
      var r := Emit(w, calls[0], cfg);
      if r.Throw? then Throw(r.e) else Feed(r.value, calls[1..], cfg)
  }

  lemma {:induction false} FeedConcat(w: Writing, a: seq<Call>, b: seq<Call>, cfg: Config)
    ensures Feed(w, a + b, cfg)
      == if Feed(w, a, cfg).Throw? then Feed(w, a, cfg) else Feed(Feed(w, a, cfg).value, b, cfg)
    decreases |a|
  {
    hide Emit, Follows;
    if a == [] {
      assert a + b == b;
    } else {
      assert (a + b)[1..] == a[1..] + b && (a + b)[0] == a[0];
      if Follows(w.levels, a[0].ev) && Emit(w, a[0], cfg).Ok? {
        FeedConcat(Emit(w, a[0], cfg).value, a[1..], b, cfg);
      }
    }
  }

  lemma FeedOne(w: Writing, c: Call, cfg: Config)
    requires Follows(w.levels, c.ev)
    ensures Feed(w, [c], cfg) == Emit(w, c, cfg)
  {
    hide Emit;
    if Emit(w, c, cfg).Ok? {
      assert Feed(Emit(w, c, cfg).value, [c][1..], cfg) == Emit(w, c, cfg);
    }
  }

  /** A call that adds an item, piece by piece: what leads it, then the item itself. */
  lemma EmitItem(w: Writing, c: Call, cfg: Config, item: seq<Piece>)
    requires Follows(w.levels, c.ev) && !c.ev.End?
    requires item == if c.ev.Value? then ScalarPieces(c.ev.v) else [Raw([Opener(c.ev.kind)])]
    ensures var lead := PutAll(w.sink, ItemLead(w.levels, c.ev, cfg.pretty));
      Emit(w, c, cfg) ==
        if lead.Throw? then Throw(lead.e)
        else
          var out := PutAll(lead.value, item);
          var depth := if c.ev.Start? then DepthCheck(|w.levels| - 1, cfg) else Ok(());
          if out.Throw? then Throw(out.e)
          else if depth.Throw? then Throw(depth.e)
          else Ok(Writing(out.value, CallLevels(w.levels, c)))
  {
    hide PutAll, ItemLead, ScalarPieces;
    PutAllConcat(w.sink, ItemLead(w.levels, c.ev, cfg.pretty), item);
  }

  /** The lead of a member: its separator, then its key. */
  lemma MemberLead(levels: seq<Level>, ev: Event, pretty: bool)
    requires Follows(levels, ev) && (ev.Start? || ev.Value?) && ev.key.Key?
    ensures ItemLead(levels, ev, pretty)
      == Separator(Top(levels).flags, |levels| - 1, pretty) + KeyPieces(ev.key.text, pretty)
  {
    hide Separator, KeyPieces;
  }

  /** The lead of an element or a root value. */
  lemma ElementLead(levels: seq<Level>, ev: Event, pretty: bool)
    requires Follows(levels, ev) && (ev.Start? || ev.Value?) && ev.key.NoKey?
    ensures ItemLead(levels, ev, pretty) ==
      if Separates(Top(levels), ev) then Separator(Top(levels).flags, |levels| - 1, pretty) else []
  {
    hide Separator;
  }

  lemma EmitEnd(w: Writing, c: Call, cfg: Config)
    requires Follows(w.levels, c.ev) && c.ev.End?
    ensures var out := PutAll(w.sink, EndPieces(w.levels, c.ev.kind, cfg.pretty));
      Emit(w, c, cfg) == if out.Throw? then Throw(out.e) else Ok(Writing(out.value, EndLevels(w.levels)))
  {
    hide PutAll;
  }
}
