/** The writer: depth buffers indexed by level over the growing output. Every call is proved against one
    call of the machine in Emitter; the appends themselves are those of Output, which Bytes implements. */
module Writer {
  import opened Ascii
  import opened Tree
  import opened Machine
  import opened Outcome
  import opened Output
  import opened Emitter

  const DEFAULT_MAX_DEPTH: nat := 100

  class Utf8JsonWriter {
    /** Whether the library was built with its debug checks; only then does startGuard exist. */
    const debug: bool
    var json: Sink
    var nodeFlags: seq<NodeFlags>
    var nodeType: seq<NodeType>
    var startGuard: seq<bool>
    var level: nat
    var maxDepth: int
    var pretty: bool

    constructor (debug: bool, capacity: nat)
      ensures this.debug == debug && json == Sink([], capacity) && !pretty
    {
      this.debug, json := debug, Sink([], capacity);
      nodeFlags, nodeType, startGuard := [], [], [];
      level, maxDepth, pretty := 0, 0, false;
    }

    // ------------------------------------------------------------ invariant and abstraction

    ghost predicate Valid()
      reads this
    {
      && level < |nodeFlags| == |nodeType|
      && nodeType[0] == Undefined && (forall n :: 1 <= n <= level ==> nodeType[n] != Undefined)
      && (if debug then
            |startGuard| == |nodeFlags| && forall n :: 1 <= n <= level && nodeType[n] == ArrayNode ==> startGuard[n]
          else |nodeFlags| == START_DEPTH)
    }

    ghost function W(): Writing
      requires Valid()
      reads this
    {
      Writing(json, LevelsOf(nodeType, nodeFlags, level))
    }

    function Cfg(): Config
      reads this
    {
      Config(maxDepth, pretty, debug)
    }

    /** A call that follows the nesting has the outcome of the machine's call. */
    ghost predicate Agrees<T>(r: Outcome<T>, e: Outcome<Writing>)
      reads this
    {
      match r
      case Throw(x) => e == Throw(x)
      case Ok(_) => Valid() && e == Ok(W())
    }

    // ------------------------------------------------------------ set-up

    /** Starts a document; the output keeps its array, and pretty its value. */
    method InitSerializer()
      modifies this
      ensures Valid() && W() == Writing(Sink([], old(json.capacity)), [ROOT])
      ensures maxDepth == DEFAULT_MAX_DEPTH == 100 && pretty == old(pretty)
    {
      json := json.(json := []);
      maxDepth := DEFAULT_MAX_DEPTH;
      nodeFlags := seq(START_DEPTH, _ => NodeFlags(true, true));
      nodeType := seq(START_DEPTH, _ => Undefined);
      startGuard := if debug then seq(START_DEPTH, _ => false) else [];
      level := 0;
    }

    method SetMaxDepth(size: int)
      requires Valid()
      modifies this`maxDepth
      ensures Valid() && W() == old(W()) && maxDepth == size
    {
      maxDepth := size;
    }

    method SetPretty(pretty: bool)
      requires Valid()
      modifies this`pretty
      ensures Valid() && W() == old(W()) && this.pretty == pretty
    {
      this.pretty := pretty;
    }

    // ------------------------------------------------------------ checks of the debug build

    method AssertMember() returns (r: Outcome<()>)
      requires Valid()
      modifies this`startGuard
      ensures Valid() && W() == old(W())
      ensures r == if debug && (level == 0 || nodeType[level] != ObjectNode) then Throw(InvalidOperation) else Ok(())
    {
      if !debug {
        return Ok(());
      }
      if level == 0 {
        return Throw(InvalidOperation);
      }
      if nodeType[level] == ObjectNode {
        startGuard := startGuard[level := false];
        return Ok(());
      }
      return Throw(InvalidOperation);
    }

    method AssertElement() returns (r: Outcome<()>)
      requires Valid()
      ensures r == if debug && level > 0 && nodeType[level] != ArrayNode then Throw(InvalidOperation) else Ok(())
    {
      if !debug || level == 0 || nodeType[level] == ArrayNode {
        return Ok(());
      }
      return Throw(InvalidOperation);
    }

    method AssertStart() returns (r: Outcome<()>)
      requires Valid()
      ensures r == if debug && level > 0 && !startGuard[level] then Throw(InvalidOperation) else Ok(())
    {
      if debug && level > 0 && !startGuard[level] {
        return Throw(InvalidOperation);
      }
      return Ok(());
    }

    method SetStartGuard()
      requires Valid()
      modifies this`startGuard
      ensures Valid() && W() == old(W()) && (debug ==> startGuard[level])
    {
      if debug {
        startGuard := startGuard[level := true];
      }
    }

    // ------------------------------------------------------------ output

    method Append(p: Piece) returns (r: Outcome<()>)
      modifies this`json
      ensures match r case Throw(e) => Put(old(json), p) == Throw(e) case Ok(_) => Put(old(json), p) == Ok(json)
    {
      var out :- Put(json, p);
      json := out;
      return Ok(());
    }

    /** The pieces have been written, or one of them did not fit. */
    ghost predicate Wrote(s: Sink, ps: seq<Piece>, r: Outcome<()>)
      reads this
    {
      match r
      case Throw(e) => PutAll(s, ps) == Throw(e)
      case Ok(_) => PutAll(s, ps) == Ok(json)
    }

    method IndentBegin(flags: NodeFlags) returns (r: Outcome<()>)
      modifies this`json
      ensures Wrote(
        old(json),
        if flags.wrap then [Raw(LineBreak(level))] else if flags.first then [] else [Raw([BLANK])],
        r)
    {
      if !flags.wrap {
        if flags.first {
          return Ok(());
        }
        PutOne(json, Raw([BLANK]));
        r := Append(Raw([BLANK]));
        return;
      }
      PutOne(json, Raw(LineBreak(level)));
      r := Append(Raw(LineBreak(level)));
    }

    method IndentEnd() returns (r: Outcome<()>)
      requires level + 1 < |nodeFlags|
      modifies this`json
      ensures Wrote(old(json), if nodeFlags[level + 1].wrap then [Raw(LineBreak(level))] else [], r)
    {
      if !nodeFlags[level + 1].wrap {
        return Ok(());
      }
      PutOne(json, Raw(LineBreak(level)));
      r := Append(Raw(LineBreak(level)));
    }

    /** The separator in front of an item. The first item only clears its flag, and may be indented. */
    method AddSeparator() returns (r: Outcome<()>)
      requires Valid()
      modifies this`json, this`nodeFlags
      ensures Valid() && nodeFlags == old(nodeFlags)[level := old(nodeFlags[level]).(first := false)]
      ensures Wrote(old(json), Separator(old(nodeFlags[level]), level, pretty), r)
    {
      hide Put;
      var flags := nodeFlags[level];
      if flags.first {
        nodeFlags := nodeFlags[level := flags.(first := false)];
        if pretty {
          r := IndentBegin(flags);
          assert Separator(flags, level, pretty) == if flags.wrap then [Raw(LineBreak(level))] else [];
          return;
        }
        return Ok(());
      }
      assert nodeFlags == nodeFlags[level := flags.(first := false)];
      ghost var s0, indent := json, Separator(flags, level, pretty)[1..];
      PutOne(json, Raw([COMMA]));
      PutAllConcat(json, [Raw([COMMA])], indent);
      assert Separator(flags, level, pretty) == [Raw([COMMA])] + indent;
      r := Append(Raw([COMMA]));
      if r.Throw? {
        return;
      }
      if pretty {
        r := IndentBegin(flags);
      }
    }

    method AppendKeyBytes(key: seq<byte>) returns (r: Outcome<()>)
      modifies this`json
      ensures Wrote(old(json), KeyPieces(key, pretty), r)
    {
      hide Put;
      ghost var s0 := json;
      PutOne(json, Quoted(key));
      var _ :- Append(Quoted(key));
      PutAllConcat(s0, [Quoted(key)], [Raw([COLON])]);
      assert [Quoted(key)] + [Raw([COLON])] == [Quoted(key), Raw([COLON])];
      PutOne(json, Raw([COLON]));
      PutAllConcat(s0, [Quoted(key), Raw([COLON])], if pretty then [Raw([BLANK])] else []);
      var _ :- Append(Raw([COLON]));
      if pretty {
        PutOne(json, Raw([BLANK]));
        var _ :- Append(Raw([BLANK]));
      }
      return Ok(());
    }

    // ------------------------------------------------------------ containers

    /** One more level in all depth buffers. Without the debug checks startGuard was never created. */
    method ResizeDepthBuffers(size: nat) returns (r: Outcome<()>)
      requires |nodeFlags| == |nodeType| <= size && (debug ==> |startGuard| == |nodeFlags|)
      modifies this`nodeFlags, this`nodeType, this`startGuard
      ensures r == if debug then Ok(()) else Throw(NullReference)
      ensures r.Ok? ==> |nodeFlags| == |nodeType| == |startGuard| == 2 * size
      ensures r.Ok? ==> old(nodeFlags) <= nodeFlags && old(nodeType) <= nodeType && old(startGuard) <= startGuard
    {
      nodeFlags := nodeFlags + seq(2 * size - |nodeFlags|, _ => NodeFlags(false, false));
      if !debug {
        return Throw(NullReference);
      }
      startGuard := startGuard + seq(2 * size - |startGuard|, _ => false);
      nodeType := nodeType + seq(2 * size - |nodeType|, _ => Undefined);
      return Ok(());
    }

    /** The common end of ObjectStart and ArrayStart: the bracket, the depth check and the new level. */
    method Push(kind: Kind, wrap: bool) returns (r: Outcome<()>)
      requires Valid()
      modifies this`json, this`nodeFlags, this`nodeType, this`startGuard, this`level
      ensures
        var out := Put(old(json), Raw([Opener(kind)]));
        var depth := DepthCheck(old(level), Cfg());
        if out.Throw? then r == Throw(out.e)
        else if depth.Throw? then r == depth
        else
          && r.Ok? && Valid()
          && W() == Writing(out.value,
              old(W().levels) + [Level(NodeOf(kind), NodeFlags(true, kind.ObjectKind? || wrap))])
    {
      hide Put;
      ghost var levels := W().levels;
      var _ :- Append(Raw([Opener(kind)]));
      if level >= maxDepth {
        return Throw(InvalidOperation);
      }
      level := level + 1;
      if level >= |nodeFlags| {
        var _ :- ResizeDepthBuffers(level + 1);
      }
      nodeFlags := nodeFlags[level := NodeFlags(true, kind.ObjectKind? || wrap)];
      nodeType := nodeType[level := NodeOf(kind)];
      if debug {
        startGuard := startGuard[level := kind.ArrayKind?];
      }
      assert LevelsOf(nodeType, nodeFlags, level)
        == levels + [Level(NodeOf(kind), NodeFlags(true, kind.ObjectKind? || wrap))];
      return Ok(());
    }

    /** ObjectStart and ArrayStart. They differ in the bracket and the flags of the new level. Inside an
        object they are called only behind a key. */
    method NodeStart(kind: Kind, wrap: bool) returns (r: Outcome<()>)
      requires Valid()
      modifies this`json, this`nodeFlags, this`nodeType, this`startGuard, this`level
      ensures
        var levels, ev, depth := old(W().levels), Start(kind, NoKey), DepthCheck(old(level), Cfg());
        && (Follows(levels, ev) ==> Agrees(r, Emit(old(W()), Call(ev, wrap), Cfg())))
        && (!Follows(levels, ev) && debug && !old(startGuard)[old(level)] ==> r == Throw(InvalidOperation))
        && (!Follows(levels, ev) && (debug ==> old(startGuard)[old(level)]) ==>
              var out := Put(old(json), Raw([Opener(kind)]));
              if out.Throw? then r == Throw(out.e)
              else if depth.Throw? then r == depth
              else
                && r.Ok? && Valid()
                && W() == Writing(out.value, levels + [Level(NodeOf(kind), NodeFlags(true, kind.ObjectKind? || wrap))]))
    {
      hide Put, PutAll, Separator;
      ghost var w, ev := W(), Start(kind, NoKey);
      var _ :- AssertStart();
      if Follows(w.levels, ev) {
        EmitItem(w, Call(ev, wrap), Cfg(), [Raw([Opener(kind)])]);
        ElementLead(w.levels, ev, pretty);
        PutNothing(json);
      }
      if nodeType[level] == ArrayNode {
        var _ :- AddSeparator();
      }
      assert Follows(w.levels, ev) ==>
        W().levels == if Separates(Top(w.levels), ev) then WithTop(w.levels, ClearFirst(Top(w.levels))) else w.levels;
      PutOne(json, Raw([Opener(kind)]));
      r := Push(kind, wrap);
    }

    /** The separator and the key of a member. */
    method StartMember(key: seq<byte>, checked: bool) returns (r: Outcome<()>)
      requires Valid()
      modifies this`json, this`nodeFlags, this`startGuard
      ensures Valid()
      ensures if checked && debug && nodeType[level] != ObjectNode then r == Throw(InvalidOperation)
              else
                && Wrote(old(json), Separator(old(nodeFlags[level]), level, pretty) + KeyPieces(key, pretty), r)
                && W().levels == WithTop(old(W().levels), ClearFirst(Top(old(W().levels))))
    {
      hide Put, PutAll, Separator, KeyPieces;
      ghost var w := W();
      PutAllConcat(json, Separator(nodeFlags[level], level, pretty), KeyPieces(key, pretty));
      if checked {
        var _ :- AssertMember();
      }
      assert W() == w;
      r := AddSeparator();
      assert W().levels == WithTop(w.levels, ClearFirst(Top(w.levels)));
      if r.Throw? {
        return;
      }
      r := AppendKeyBytes(key);
    }

    /** MemberObjectStart and MemberArrayStart. */
    method MemberStart(kind: Kind, key: seq<byte>, wrap: bool) returns (r: Outcome<()>)
      requires Valid()
      modifies this`json, this`nodeFlags, this`nodeType, this`startGuard, this`level
      ensures var ev := Start(kind, Key(key));
        && (Follows(old(W().levels), ev) ==> Agrees(r, Emit(old(W()), Call(ev, wrap), Cfg())))
        && (!Follows(old(W().levels), ev) && debug ==> r == Throw(InvalidOperation))
        && (!Follows(old(W().levels), ev) && !debug ==>
              var lead := Loose(old(W()), KeyPieces(key, pretty), Cfg());
              if lead.Throw? then r == Throw(lead.e)
              else Agrees(r, Emit(lead.value, Call(Start(kind, NoKey), wrap), Cfg())))
    {
      hide Put, PutAll, Separator, ItemLead, KeyPieces, Emit;
      ghost var w, ev := W(), Start(kind, Key(key));
      if Follows(w.levels, ev) {
        EmitItem(w, Call(ev, wrap), Cfg(), [Raw([Opener(kind)])]);
        MemberLead(w.levels, ev, pretty);
      }
      var _ :- StartMember(key, true);
      PutOne(json, Raw([Opener(kind)]));
      SetStartGuard();
      r := NodeStart(kind, wrap);
    }

    method AppendScalar(v: Scalar) returns (r: Outcome<()>)
      modifies this`json
      ensures Wrote(old(json), ScalarPieces(v), r)
    {
      hide Put;
      PutOne(json, ScalarPieces(v)[0]);
      match v {
        case Str(text) => r := Append(Quoted(text));
        case Num(text) => r := Append(Copied(text));
        case Bool(value) => r := Append(Raw(if value then TRUE_TEXT else FALSE_TEXT));
        case Null => r := Append(Raw(NULL_TEXT));
      }
    }

    /** MemberStr, MemberBytes, MemberBln and MemberNul; MemberBytes has no check. */
    method MemberScalar(key: seq<byte>, v: Scalar) returns (r: Outcome<()>)
      requires Valid()
      modifies this`json, this`nodeFlags, this`startGuard
      ensures var ev := Value(Key(key), v);
        && (Follows(old(W().levels), ev) ==> Agrees(r, Emit(old(W()), Call(ev, true), Cfg())))
        && (!Follows(old(W().levels), ev) && debug && !v.Num? ==> r == Throw(InvalidOperation))
        && (!Follows(old(W().levels), ev) && (debug ==> v.Num?) ==>
              Agrees(r, Loose(old(W()), KeyPieces(key, pretty) + ScalarPieces(v), Cfg())))
    {
      hide Put, PutAll, Separator, ItemLead, ScalarPieces, KeyPieces, Emit;
      ghost var w, ev := W(), Value(Key(key), v);
      if Follows(w.levels, ev) {
        EmitItem(w, Call(ev, true), Cfg(), ScalarPieces(v));
        MemberLead(w.levels, ev, pretty);
      }
      LooseParts(w, KeyPieces(key, pretty), ScalarPieces(v), Cfg());
      var _ :- StartMember(key, !v.Num?);
      r := AppendScalar(v);
    }

    /** ElementStr, ElementBytes, ElementBln and ElementNul; ElementBytes has no check. */
    method ElementScalar(v: Scalar) returns (r: Outcome<()>)
      requires Valid()
      modifies this`json, this`nodeFlags
      ensures var ev := Value(NoKey, v);
        && (Follows(old(W().levels), ev) ==> Agrees(r, Emit(old(W()), Call(ev, true), Cfg())))
        && (!Follows(old(W().levels), ev) && debug && !v.Num? ==> r == Throw(InvalidOperation))
        && (!Follows(old(W().levels), ev) && (debug ==> v.Num?) ==>
              Agrees(r, Loose(old(W()), ScalarPieces(v), Cfg())))
    {
      hide Put, PutAll, Separator, ItemLead, ScalarPieces, KeyPieces, Emit;
      ghost var w, ev := W(), Value(NoKey, v);
      if Follows(w.levels, ev) {
        EmitItem(w, Call(ev, true), Cfg(), ScalarPieces(v));
        ElementLead(w.levels, ev, pretty);
      }
      LooseAlone(w, ScalarPieces(v), Cfg());
      if !v.Num? {
        var _ :- AssertElement();
      }
      var _ :- AddSeparator();
      assert W().levels == WithTop(w.levels, ClearFirst(Top(w.levels)));
      r := AppendScalar(v);
    }

    /** The bracket on its own line or not, back on the level below. */
    method Pop(kind: Kind) returns (r: Outcome<()>)
      requires Valid() && level > 0
      modifies this`json, this`nodeFlags, this`level
      ensures Wrote(old(json), EndPieces(old(W().levels), kind, pretty), r)
      ensures r.Ok? ==> Valid() && W().levels == EndLevels(old(W().levels))
    {
      hide Put, PutAll;
      ghost var w := W();
      level := level - 1;
      ghost var indent := if pretty && nodeFlags[level + 1].wrap then [Raw(LineBreak(level))] else [];
      PutAllConcat(json, indent, [Raw([Closer(kind)])]);
      PutNothing(json);
      if pretty {
        var _ :- IndentEnd();
      }
      PutOne(json, Raw([Closer(kind)]));
      var _ :- Append(Raw([Closer(kind)]));
      nodeFlags := nodeFlags[level := nodeFlags[level].(first := false)];
      assert LevelsOf(nodeType, nodeFlags, level) == EndLevels(w.levels);
      return Ok(());
    }

    /** ObjectEnd and ArrayEnd. ArrayEnd always checks the root; without the debug checks ObjectEnd at the
        root writes the bracket and then fails on the index of level -1. */
    method NodeEnd(kind: Kind) returns (r: Outcome<()>)
      requires Valid()
      modifies this`json, this`nodeFlags, this`startGuard, this`level
      ensures
        && (Follows(old(W().levels), End(kind)) ==> Agrees(r, Emit(old(W()), Call(End(kind), true), Cfg())))
        && (!Follows(old(W().levels), End(kind)) && debug ==> r == Throw(InvalidOperation))
        && (!Follows(old(W().levels), End(kind)) && !debug && old(level) > 0 ==>
              var out := PutAll(old(json), EndPieces(old(W().levels), kind, pretty));
              Agrees(r, if out.Throw? then Throw(out.e) else Ok(Writing(out.value, EndLevels(old(W().levels))))))
        && (old(level) == 0 ==> r == Throw(if kind == ArrayKind || debug then InvalidOperation else IndexOutOfRange))
    {
      hide Put, PutAll, Emit;
      ghost var w := W();
      if level == 0 {
        return Throw(if kind == ArrayKind || debug then InvalidOperation else IndexOutOfRange);
      }
      if kind == ObjectKind {
        var _ :- AssertMember();
      } else {
        var _ :- AssertElement();
      }
      if Follows(w.levels, End(kind)) {
        EmitEnd(w, Call(End(kind), true), Cfg());
      }
      assert W() == w;
      r := Pop(kind);
    }
  }
}
