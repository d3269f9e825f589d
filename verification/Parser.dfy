/** The pull parser: depth buffers over the block input. NextEvent is proved against one step of the machine. */
module Parser {
  import opened Ascii
  import opened Lexer
  import opened Tree
  import opened Machine
  import opened Containers
  import opened ParserState
  import opened Outcome
  import opened Input

  /** Counts of skipped nodes by category. */
  datatype SkipInfo = SkipInfo(arrays: int, booleans: int, floats: int, integers: int, nulls: int, objects: int,
      strings: int)

  const NO_SKIPS := SkipInfo(0, 0, 0, 0, 0, 0, 0)

  class Utf8JsonParser {
    const input: JsonInput

    // --- depth buffers and path
    var stateLevel: int
    var maxDepth: int
    var preErrorState: State
    var state: seq<State>
    var pathPos: seq<int>
    var arrIndex: seq<int>
    var path: seq<byte>
    var pathCapacity: nat

    // --- results of the last call
    var lastEvent: JsonEvent
    var boolValue: bool
    var isFloat: bool
    var key: seq<byte>
    var value: seq<byte>
    var skipInfo: SkipInfo

    // --- error
    var errorSet: bool
    var errorMsg: string
    var errorPos: int

    /** A parser with its buffers created. */
    constructor (bufSize: nat)
      requires bufSize >= 1
      ensures Ready() && fresh(input) && fresh(input.buf) && input.buf.Length == bufSize
      ensures maxDepth == DEFAULT_MAX_DEPTH == 100 && pathCapacity == 32
    {
      input := new JsonInput(bufSize);
      stateLevel, maxDepth, preErrorState := 0, DEFAULT_MAX_DEPTH, ExpectMember;
      state := seq(INIT_DEPTH, _ => ExpectMember);
      pathPos := seq(INIT_DEPTH, _ => 0);
      arrIndex := seq(INIT_DEPTH, _ => 0);
      path, pathCapacity := [], 32;
      lastEvent, boolValue, isFloat, key, value := None, false, false, [], [];
      skipInfo := NO_SKIPS;
      errorSet, errorMsg, errorPos := false, "", 0;
    }

    // ------------------------------------------------------------ invariants and abstraction

    /** What the parser keeps through failures and exceptions alike: enough to start on a new document. */
    ghost predicate Ready()
      reads this, input
    {
      && input.Input() && input.startPos == 0
      && INIT_DEPTH <= |state| == |pathPos| == |arrIndex|
      && pathPos[0] == 0
      && |path| <= pathCapacity
      && 0 <= stateLevel < |state|
    }

    ghost function B(): Buffers
      reads this
    {
      Buffers(state, pathPos, arrIndex, path)
    }

    /** A parser that is not in error: the root entry and the encoded frames. */
    ghost predicate Live()
      requires 0 <= stateLevel < |state|
      reads this
    {
      && Encodes(B(), stateLevel)
      && (if stateLevel > 0 then state[0] == ExpectEof
          else state[0] == ExpectRoot || state[0] == ExpectEof || state[0] == ParsingFinished)
    }

    ghost predicate Valid()
      reads this, input
    {
      && Ready()
      && (lastEvent == ErrorEvent <==> state[stateLevel] == JsonError)
      && (state[stateLevel] != JsonError ==> Live())
      && (lastEvent == ErrorEvent ==> errorSet)
    }

    ghost function Frames(): seq<Frame>
      requires 0 <= stateLevel < |state| && Live()
      reads this
    {
      FramesOf(B(), stateLevel)
    }

    /** The machine this parser implements. */
    ghost function M(): Machine
      requires Valid()
      reads this, input, input.buf, input.inputArray
    {
      match state[stateLevel]
      case JsonError => Failed
      case ExpectRoot => Fresh(input.Rem())
      case ParsingFinished => Finished
      case _ => Open(Frames(), input.Rem())
    }

    /** The key a caller reads after an item event at the given level: only object members have one. */
    function KeyAt(level: int): Label
      reads this
    {
      if 0 < level < |state| && state[level] == ExpectMember then Key(key) else NoKey
    }

    /** The returned event with everything that is valid for access after it. */
    function Observed(ev: JsonEvent): Event
      reads this
    {
      match ev
      case ValueString => Value(KeyAt(stateLevel), Str(value))
      case ValueNumber => Value(KeyAt(stateLevel), Num(value))
      case ValueBool => Value(KeyAt(stateLevel), Bool(boolValue))
      case ValueNull => Value(KeyAt(stateLevel), Null)
      case ObjectStart => Start(ObjectKind, KeyAt(stateLevel - 1))
      case ArrayStart => Start(ArrayKind, KeyAt(stateLevel - 1))
      case ObjectEnd => End(ObjectKind)
      case ArrayEnd => End(ArrayKind)
      case EndOfFile => EOF
      case _ => Tree.Error
    }

    /** The returned event and the state after it are the ones of a machine step. */
    ghost predicate Agrees(ev: JsonEvent, r: Result)
      reads this, input, input.buf, input.inputArray
    {
      && Valid() && lastEvent == ev && Observed(ev) == r.ev && M() == r.m
      && (ev == ValueNumber ==> isFloat == IsFloat(value))
    }

    /** A valid parser between two calls: what the last event says about the open containers. */
    ghost predicate Settled()
      reads this, input, input.buf, input.inputArray
    {
      && Valid()
      && (M().Fresh? ==> lastEvent == Initialized)
      && (lastEvent == ObjectStart ==> Inside(M()) && Top(M().frames) == NewFrame(ObjectKind))
      && (lastEvent == ArrayStart ==> Inside(M()) && Top(M().frames) == NewFrame(ArrayKind))
      && (lastEvent == ValueNumber ==> isFloat == IsFloat(value))
    }

    // ------------------------------------------------------------ errors

    method Error(msg: string)
      requires 0 <= stateLevel < |state|
      modifies this`lastEvent, this`preErrorState, this`state, this`errorSet, this`errorMsg, this`errorPos
      ensures lastEvent == ErrorEvent
      ensures old(lastEvent) == ErrorEvent ==>
        unchanged(this`state, this`errorSet, this`errorMsg, this`errorPos, this`preErrorState)
      ensures old(lastEvent) != ErrorEvent ==>
        && state == old(state)[stateLevel := JsonError] && preErrorState == old(state)[stateLevel]
        && errorSet && errorMsg == msg && errorPos == input.Position()
    {
      if lastEvent == ErrorEvent {
        return;
      }
      lastEvent := ErrorEvent;
      preErrorState := state[stateLevel];
      state := state[stateLevel := JsonError];
      errorSet, errorMsg, errorPos := true, msg, input.Position();
    }

    /** Sets the error and leaves the machine failed. */
    method SetError(msg: string) returns (ev: JsonEvent)
      requires Valid() && lastEvent != ErrorEvent
      modifies this`lastEvent, this`preErrorState, this`state, this`errorSet, this`errorMsg, this`errorPos
      ensures Ready() && ev == ErrorEvent && Agrees(ev, FAIL)
      ensures errorSet && errorMsg == msg && errorPos == input.Position()
    {
      Error(msg);
      return ErrorEvent;
    }

    // ------------------------------------------------------------ starting on a document

    /** Starts on a new document. path, pathPos, arrIndex, key and value keep what the last document left in them. */
    method InitParser(bytes: array<byte>, start: int, len: int)
      requires Ready() && input.buf != bytes
      requires 0 <= start && 0 <= len && start + len <= bytes.Length
      modifies this, input
      ensures Settled() && M() == Fresh(bytes[start..start + len])
      ensures maxDepth == old(maxDepth) && pathCapacity == old(pathCapacity)
      ensures input.inputArray == bytes && input.inputStart == start && input.inputArrayEnd == start + len
      ensures key == old(key) && value == old(value) && path == old(path)
      ensures skipInfo == NO_SKIPS && !errorSet && lastEvent == Initialized
      ensures input.Position() == 0 && input.ProcessedBytes() == old(input.ProcessedBytes())
    {
      input.InitParser(bytes, start, len);
      stateLevel := 0;
      state := state[0 := ExpectRoot];
      skipInfo := NO_SKIPS;
      errorSet := false;
      lastEvent := Initialized;
    }

    method SetMaxDepth(depth: int)
      requires Valid()
      modifies this`maxDepth
      ensures Valid() && M() == old(M()) && maxDepth == depth
    {
      maxDepth := depth;
    }

    // ------------------------------------------------------------ values

    method ResizeDepthBuffers(size: int)
      requires size >= |state| == |pathPos| == |arrIndex|
      modifies this`state, this`pathPos, this`arrIndex
      ensures |state| == |pathPos| == |arrIndex| == 2 * size
      ensures old(state) <= state && old(pathPos) <= pathPos && old(arrIndex) <= arrIndex
    {
      state := state + seq(2 * size - |state|, _ => ExpectMember);
      pathPos := pathPos + seq(2 * size - |pathPos|, _ => 0);
      arrIndex := arrIndex + seq(2 * size - |arrIndex|, _ => 0);
    }

    /** What a start event leaves behind is the machine's new open container. */
    lemma Started(ev: JsonEvent, kind: Kind, frames: seq<Frame>)
      requires Ready() && stateLevel > 0 && state[0] == ExpectEof && Encodes(B(), stateLevel)
        && FramesOf(B(), stateLevel) == frames
      requires lastEvent == ev == if kind == ObjectKind then ObjectStart else ArrayStart
      requires state[stateLevel] == if kind == ObjectKind then ExpectMemberFirst else ExpectElementFirst
      ensures Agrees(ev, Result(Start(kind, KeyAt(stateLevel - 1)), Open(frames, input.Rem())))
    {
      hide FramesOf, EncodesAt, Encodes;
    }

    /** One more level in all depth buffers, which grow when they are full. */
    method PushLevel(kind: Kind)
      requires Ready() && Encodes(B(), stateLevel)
      modifies this`stateLevel, this`state, this`pathPos, this`arrIndex
      ensures Ready() && stateLevel == old(stateLevel) + 1 && state[0] == old(state)[0]
        && state[stateLevel - 1] == old(state[stateLevel])
      ensures state[stateLevel] == if kind == ObjectKind then ExpectMemberFirst else ExpectElementFirst
      ensures Encodes(B(), stateLevel)
        && FramesOf(B(), stateLevel) == FramesOf(old(B()), old(stateLevel)) + [NewFrame(kind)]
    {
      hide FramesOf, EncodesAt, Encodes, Pushed, NewFrame;
      ghost var b, level := B(), stateLevel;
      stateLevel := stateLevel + 1;
      if stateLevel >= |pathPos| {
        ResizeDepthBuffers(stateLevel + 1);
      }
      ghost var g := B();
      pathPos := pathPos[stateLevel := pathPos[stateLevel - 1]];
      state := state[stateLevel := if kind == ObjectKind then ExpectMemberFirst else ExpectElementFirst];
      arrIndex := if kind == ArrayKind then arrIndex[stateLevel := -1] else arrIndex;
      PushFrame(b, g, level, kind);
      PushedIs(B(), g, level, kind);
    }

    /** Enters a container. */
    method Enter(kind: Kind) returns (ev: JsonEvent)
      requires Valid() && lastEvent != ErrorEvent && state[0] == ExpectEof
      requires stateLevel > 0 ==> !IsFirst(Top(Frames()))
      modifies this`stateLevel, this`state, this`pathPos, this`arrIndex, this`lastEvent
      ensures ev != ErrorEvent
      ensures Agrees(ev, Result(Start(kind, old(KeyAt(stateLevel))),
                                Open(old(Frames()) + [NewFrame(kind)], old(input.Rem()))))
    {
      hide FramesOf, EncodesAt, Encodes, Agrees, NewFrame, IsFirst, Top;
      PushLevel(kind);
      ev := if kind == ObjectKind then ObjectStart else ArrayStart;
      lastEvent := ev;
      Started(ev, kind, FramesOf(B(), stateLevel));
    }

    static lemma PushedIs(c: Buffers, g: Buffers, level: nat, kind: Kind)
      requires level + 1 < |g.state| == |g.pathPos| == |g.arrIndex|
      requires c.state == g.state[level + 1 := if kind == ObjectKind then ExpectMemberFirst else ExpectElementFirst]
      requires c.pathPos == g.pathPos[level + 1 := g.pathPos[level]] && c.path == g.path
      requires c.arrIndex == if kind == ArrayKind then g.arrIndex[level + 1 := -1] else g.arrIndex
      ensures c == Pushed(g, level, kind)
    {
    }

    /** The bytes of a value whose first byte has been read as c, -1 at the end of the input. */
    ghost predicate Ahead(c: int, v: seq<byte>)
      requires input.Input()
      reads input, input.buf, input.inputArray
    {
      if v == [] then c == -1 && input.Rem() == [] else c == v[0] && input.Rem() == v[1..]
    }

    /** A value is expected next, at the root or as an item whose key or index is stored already. */
    ghost predicate AtValue()
      reads this, input
    {
      && Valid() && lastEvent != ErrorEvent && state[0] == ExpectEof
      && (stateLevel > 0 ==> IsContainer(state[stateLevel]) && !IsFirst(Top(Frames())))
    }

    /** The fields hold this scalar for a caller that gets this event. */
    predicate Holds(ev: JsonEvent, v: Scalar)
      reads this`value, this`boolValue, this`isFloat
    {
      match v
      case Str(text) => ev == ValueString && value == text
      case Num(text) => ev == ValueNumber && value == text && isFloat == IsFloat(value)
      case Bool(b) => ev == ValueBool && boolValue == b
      case Null => ev == ValueNull
    }

    /** Returns the event of a scalar that has been read. */
    method ScalarEvent(scalar: JsonEvent, ghost v: Scalar) returns (ev: JsonEvent)
      requires AtValue() && Holds(scalar, v)
      modifies this`lastEvent
      ensures Agrees(ev, Result(Value(old(KeyAt(stateLevel)), v), Open(old(Frames()), input.Rem())))
    {
      hide FramesOf, Encodes, IsFloat;
      lastEvent := scalar;
      return scalar;
    }

    method ReadStringValue(ghost v: seq<byte>) returns (ev: JsonEvent)
      requires AtValue() && v != [] && v[0] == QUOTE && input.Rem() == v[1..]
      modifies input`pos, input`bufEnd, input`bufferCount, input`inputArrayPos, input`inputStreamOpen, input.buf
      modifies this`value, this`lastEvent, this`preErrorState, this`state, this`errorSet, this`errorMsg, this`errorPos
      ensures Agrees(ev, StepValue(old(Frames()), old(KeyAt(stateLevel)), v, maxDepth))
    {
      hide StepValue, StringFrom, NumberFrom, KeywordFrom, FramesOf, Encodes, Agrees;
      StepString(Frames(), KeyAt(stateLevel), v, maxDepth);
      var r;
      r, value := input.ReadString();
      if r.Fault? {
        ev := SetError(r.msg);
        return;
      }
      ev := ScalarEvent(ValueString, Str(value));
    }

    lemma AtRoot()
      requires AtValue()
      ensures state[stateLevel] == ExpectEof <==> Frames() == []
    {
    }

    method ReadNumberValue(c: byte, ghost v: seq<byte>) returns (ev: JsonEvent)
      requires AtValue() && v != [] && v[0] == c && input.Rem() == v[1..] && IsNumberStart(c)
      modifies input`pos, input`bufEnd, input`bufferCount, input`inputArrayPos, input`inputStreamOpen, input.buf
      modifies this`value, this`isFloat, this`lastEvent, this`preErrorState, this`state, this`errorSet, this`errorMsg,
        this`errorPos
      ensures Agrees(ev, StepValue(old(Frames()), old(KeyAt(stateLevel)), v, maxDepth))
    {
      hide StepValue, StringFrom, NumberFrom, KeywordFrom, FramesOf, Encodes, IsFloat, Agrees, IsContainer, IsFirst,
        Top;
      AtRoot();
      StepNumber(Frames(), KeyAt(stateLevel), v, maxDepth);
      var r;
      r, value, isFloat := input.ReadNumber(c, state[stateLevel] == ExpectEof);
      if r.Fault? {
        ev := SetError(r.msg);
        return;
      }
      ev := ScalarEvent(ValueNumber, Num(value));
    }

    method ReadKeywordValue(c: byte, keyword: seq<byte>, ghost v: seq<byte>) returns (ev: JsonEvent)
      requires AtValue() && v != [] && v[0] == c && input.Rem() == v[1..]
      requires keyword == TRUE_TEXT || keyword == FALSE_TEXT || keyword == NULL_TEXT
      requires c == keyword[0]
      modifies input`pos, input`bufEnd, input`bufferCount, input`inputArrayPos, input`inputStreamOpen, input.buf
      modifies this`value, this`boolValue, this`lastEvent, this`preErrorState, this`state, this`errorSet,
        this`errorMsg, this`errorPos
      ensures Agrees(ev, StepValue(old(Frames()), old(KeyAt(stateLevel)), v, maxDepth))
    {
      hide StepValue, StringFrom, NumberFrom, KeywordFrom, FramesOf, Encodes, Agrees;
      StepKeyword(Frames(), KeyAt(stateLevel), v, keyword, maxDepth);
      var r;
      r, value := input.ReadKeyword(c, keyword);
      if r.Fault? {
        ev := SetError(r.msg);
        return;
      }
      ev := KeywordEvent(c);
    }

    /** The event of a keyword that has been read, by its first byte. */
    method KeywordEvent(c: byte) returns (ev: JsonEvent)
      requires AtValue() && (c == 116 || c == 102 || c == 110)
      modifies this`boolValue, this`lastEvent
      ensures Agrees(ev, Result(Value(old(KeyAt(stateLevel)), if c == 110 then Null else Bool(c == 116)),
                                Open(old(Frames()), input.Rem())))
    {
      hide FramesOf, Encodes, Agrees;
      if c == 110 {
        ev := ScalarEvent(ValueNull, Null);
        return;
      }
      boolValue := c == 116;
      ev := ScalarEvent(ValueBool, Bool(boolValue));
    }

    /** Reads a keyword by its first byte c, or fails on a byte no value starts with. */
    method ReadOther(c: int, ghost v: seq<byte>) returns (ev: JsonEvent)
      requires AtValue() && Ahead(c, v)
      requires c != QUOTE && c != LBRACE && c != LBRACKET && !IsNumberStart(c)
      modifies input`pos, input`bufEnd, input`bufferCount, input`inputArrayPos, input`inputStreamOpen, input.buf
      modifies this`value, this`boolValue, this`isFloat
      modifies this`lastEvent, this`preErrorState, this`state, this`errorSet, this`errorMsg, this`errorPos
      ensures Agrees(ev, StepValue(old(Frames()), old(KeyAt(stateLevel)), v, maxDepth))
    {
      hide FramesOf, Encodes, Agrees, StringFrom, NumberFrom, KeywordFrom, Scalars;
      if c == 116 {
        ev := ReadKeywordValue(116, TRUE_TEXT, v);
      } else if c == 102 {
        ev := ReadKeywordValue(102, FALSE_TEXT, v);
      } else if c == 110 {
        ev := ReadKeywordValue(110, NULL_TEXT, v);
      } else if c == -1 {
        ev := SetError("unexpected EOF while reading value");
      } else {
        ev := SetError("unexpected character while reading value. Found: ");
      }
    }

    /** Enters a container unless it would be too deep. */
    method ReadOpener(kind: Kind) returns (ev: JsonEvent)
      requires AtValue() && stateLevel > 0
      modifies this`stateLevel, this`state, this`pathPos, this`arrIndex
      modifies this`lastEvent, this`preErrorState, this`errorSet, this`errorMsg, this`errorPos
      ensures ev == ErrorEvent ==> stateLevel == old(stateLevel)
      ensures Agrees(ev, StepOpen(kind, old(Frames()), old(KeyAt(stateLevel)), old(input.Rem()), maxDepth))
    {
      hide FramesOf, Encodes, Agrees;
      if stateLevel >= maxDepth {
        ev := SetError("nesting in JSON document exceed maxDepth: ");
        return;
      }
      ev := Enter(kind);
    }

    /** Reads a value whose first byte is c. */
    method ReadValue(c: int, ghost v: seq<byte>) returns (ev: JsonEvent)
      requires AtValue() && Ahead(c, v)
      requires stateLevel == 0 ==> c != LBRACE && c != LBRACKET
      modifies input`pos, input`bufEnd, input`bufferCount, input`inputArrayPos, input`inputStreamOpen, input.buf
      modifies this`stateLevel, this`state, this`pathPos, this`arrIndex, this`value, this`boolValue, this`isFloat
      modifies this`lastEvent, this`preErrorState, this`errorSet, this`errorMsg, this`errorPos
      ensures ev == ErrorEvent ==> stateLevel == old(stateLevel)
      ensures Agrees(ev, StepValue(old(Frames()), old(KeyAt(stateLevel)), v, maxDepth))
    {
      hide FramesOf, Encodes, Agrees, StringFrom, NumberFrom, KeywordFrom, Scalars, StepOpen;
      if c == QUOTE {
        ev := ReadStringValue(v);
      } else if c == LBRACE || c == LBRACKET {
        ev := ReadOpener(if c == LBRACE then ObjectKind else ArrayKind);
      } else if IsNumberStart(c) {
        ev := ReadNumberValue(c, v);
      } else {
        ev := ReadOther(c, v);
      }
    }

    // ------------------------------------------------------------ members and elements

    /** Leaves the innermost container. */
    method Leave(kind: Kind, ghost b: Buffers) returns (ev: JsonEvent)
      requires Ready() && lastEvent != ErrorEvent && stateLevel > 0 && state[0] == ExpectEof && Encodes(b, stateLevel)
      requires b.state == state && b.pathPos == pathPos && b.path == path
      requires |b.arrIndex| == |arrIndex| && forall n :: 0 <= n < stateLevel ==> arrIndex[n] == b.arrIndex[n]
      modifies this`stateLevel, this`lastEvent
      ensures ev != ErrorEvent
      ensures Ready() && Agrees(ev, Result(End(kind), Open(Init(FramesOf(b, old(stateLevel))), old(input.Rem()))))
    {
      hide FramesOf, EncodesAt, Encodes;
      PopAgree(b, B(), stateLevel);
      stateLevel := stateLevel - 1;
      ev := if kind == ObjectKind then ObjectEnd else ArrayEnd;
      lastEvent := ev;
    }

    /** Marks the array as having elements; the index has been advanced before. */
    method EnterElement(curState: State, ghost b: Buffers)
      requires Ready() && lastEvent != ErrorEvent && stateLevel > 0 && state[0] == ExpectEof && Encodes(b, stateLevel)
      requires curState == state[stateLevel] && (curState == ExpectElement || curState == ExpectElementFirst)
      requires B() == b.(arrIndex := b.arrIndex[stateLevel := b.arrIndex[stateLevel] + 1])
      modifies this`state
      ensures AtValue() && KeyAt(stateLevel) == NoKey
      ensures var top := Top(FramesOf(b, stateLevel));
        && top.InArray? && (curState == ExpectElementFirst <==> top.count == 0)
        && Frames() == Init(FramesOf(b, stateLevel)) + [InArray(top.count + 1)]
    {
      hide FramesOf, EncodesAt, Encodes;
      if curState == ExpectElementFirst {
        state := state[stateLevel := ExpectElement];
      }
      SetElement(b, stateLevel, B());
    }

    /** The value of an element whose index is stored: behind a comma unless it is the first one. */
    method ElementValue(c: int, curState: State, ghost w: seq<byte>) returns (ev: JsonEvent)
      requires AtValue() && stateLevel > 0 && Ahead(c, w)
      modifies input`pos, input`bufEnd, input`bufferCount, input`inputArrayPos, input`inputStreamOpen, input.buf
      modifies this`stateLevel, this`state, this`pathPos, this`arrIndex, this`value, this`boolValue, this`isFloat
      modifies this`lastEvent, this`preErrorState, this`errorSet, this`errorMsg, this`errorPos
      ensures ev == ErrorEvent ==> stateLevel == old(stateLevel)
      ensures Agrees(ev,
        if curState == ExpectElementFirst then StepValue(old(Frames()), old(KeyAt(stateLevel)), w, maxDepth)
        else if w == [] || w[0] != COMMA then FAIL
        else StepValue(old(Frames()), old(KeyAt(stateLevel)), SkipWs(w[1..]), maxDepth))
    {
      hide Step, StepValue, SkipWs, EncodesAt, FramesOf, Encodes, Agrees;
      if curState == ExpectElementFirst {
        ev := ReadValue(c, w);
        return;
      }
      if c != COMMA {
        ev := SetError("expected array separator ','. Found: ");
        return;
      }
      var d := input.ReadWhiteSpace();
      ev := ReadValue(d, SkipWs(w[1..]));
    }

    method Element(c: int, curState: State, ghost rest: seq<byte>) returns (ev: JsonEvent)
      requires Valid() && lastEvent != ErrorEvent && stateLevel > 0 && curState == state[stateLevel]
      requires curState == ExpectElement || curState == ExpectElementFirst
      requires Ahead(c, SkipWs(rest))
      modifies input`pos, input`bufEnd, input`bufferCount, input`inputArrayPos, input`inputStreamOpen, input.buf
      modifies this`stateLevel, this`state, this`pathPos, this`arrIndex, this`value, this`boolValue, this`isFloat
      modifies this`lastEvent, this`preErrorState, this`errorSet, this`errorMsg, this`errorPos
      ensures ev == ErrorEvent ==> stateLevel == old(stateLevel)
      ensures Agrees(ev, Step(Open(old(Frames()), rest), maxDepth))
    {
      hide Step, StepValue, SkipWs, EncodesAt, FramesOf, Encodes, Agrees, AtValue;
      ghost var b := B();
      ghost var fs := Frames();
      arrIndex := arrIndex[stateLevel := arrIndex[stateLevel] + 1];
      TopKind(b, stateLevel);
      ElementStep(fs, rest, maxDepth);
      if c == RBRACKET {
        ev := Leave(ArrayKind, b);
        return;
      }
      EnterElement(curState, b);
      ev := ElementValue(c, curState, SkipWs(rest));
    }

    /** Cuts the path back and appends the key. The append takes the address of the first free byte
        even when the key is empty, and there is none when the buffer is full. */
    method AppendKey(end: int) returns (r: Outcome<()>)
      requires 0 <= end <= |path| <= pathCapacity
      modifies this`path, this`pathCapacity
      ensures |path| <= pathCapacity && pathCapacity == Grown(old(pathCapacity), end + |key|)
      ensures r.Throw? <==> key == [] && end == old(pathCapacity)
      ensures r.Throw? ==> r.e == IndexOutOfRange && path == old(path)[..end]
      ensures r.Ok? ==> path == old(path)[..end] + key
    {
      path := path[..end];
      var newEnd := |path| + |key|;
      if newEnd > pathCapacity {
        pathCapacity := if newEnd < 2 * pathCapacity then 2 * pathCapacity else newEnd;
      }
      if |path| >= pathCapacity {
        return Throw(IndexOutOfRange);
      }
      path := path + key;
      return Ok(());
    }

    /** With a key stored in the innermost object, its value comes next. */
    lemma KeyStored(frames: seq<Frame>)
      requires Ready() && lastEvent != ErrorEvent && stateLevel > 0 && state[0] == ExpectEof
        && state[stateLevel] == ExpectMember
      requires Encodes(B(), stateLevel) && FramesOf(B(), stateLevel) == frames && frames != [] && !IsFirst(Top(frames))
      ensures AtValue() && KeyAt(stateLevel) == Key(key) && Frames() == frames
    {
      hide FramesOf, Encodes, EncodesAt;
    }

    /** A key has been read in an object whose buffers were b before. */
    ghost predicate KeyPending(b: Buffers)
      reads this, input
    {
      && Ready() && lastEvent != ErrorEvent && stateLevel > 0 && state[0] == ExpectEof
      && Encodes(b, stateLevel)
      && (b.state[stateLevel] == ExpectMember || b.state[stateLevel] == ExpectMemberFirst)
      && B() == b.(state := b.state[stateLevel := ExpectMember])
    }

    /** Puts the key of the member that was just read behind the path of its object. */
    method StorePath(ghost b: Buffers) returns (r: Outcome<()>)
      requires KeyPending(b)
      modifies this`path, this`pathPos, this`pathCapacity
      ensures Ready()
      ensures r.Throw? <==> key == [] && PathLength(Init(FramesOf(b, stateLevel))) == old(pathCapacity)
      ensures r.Throw? ==> r.e == IndexOutOfRange
      ensures r.Ok? ==> Encodes(B(), stateLevel)
      ensures r.Ok? ==>
        FramesOf(B(), stateLevel) == Init(FramesOf(b, stateLevel)) + [InObject(Key(key))]
        && !IsFirst(Top(FramesOf(B(), stateLevel)))
      ensures pathCapacity == Grown(old(pathCapacity), PathLength(Init(FramesOf(b, stateLevel))) + |key|)
    {
      hide FramesOf, PathLength, Grown, Encodes, EncodesAt, Init, IsFirst, Top;
      ghost var tag := TopMember(b, stateLevel);
      var end := pathPos[stateLevel - 1];
      var _ :- AppendKey(end);
      pathPos := pathPos[stateLevel := |path|];
      SetKey(b, stateLevel, key, B());
      return Ok(());
    }

    /** Stores the key of the member that was just read; its value comes next. */
    method StoreKey(ghost b: Buffers) returns (r: Outcome<()>)
      requires KeyPending(b)
      modifies this`path, this`pathPos, this`pathCapacity
      ensures Ready()
      ensures r.Throw? <==> key == [] && PathLength(Init(FramesOf(b, stateLevel))) == old(pathCapacity)
      ensures r.Throw? ==> r.e == IndexOutOfRange
      ensures r.Ok? ==> AtValue() && KeyAt(stateLevel) == Key(key)
      ensures r.Ok? ==> Frames() == Init(FramesOf(b, stateLevel)) + [InObject(Key(key))]
      ensures pathCapacity == Grown(old(pathCapacity), PathLength(Init(FramesOf(b, stateLevel))) + |key|)
    {
      assert state[stateLevel] == ExpectMember;
      ghost var frames := Init(FramesOf(b, stateLevel));
      hide FramesOf, PathLength, Grown, Encodes, EncodesAt, Init, IsFirst, Top, AtValue, KeyAt, Frames, Live;
      var _ :- StorePath(b);
      KeyStored(frames + [InObject(Key(key))]);
      return Ok(());
    }

    /** The colon after a key, then the value. */
    method Colon(ghost s: seq<byte>) returns (ev: JsonEvent)
      requires AtValue() && stateLevel > 0 && input.Rem() == s
      modifies input`pos, input`bufEnd, input`bufferCount, input`inputArrayPos, input`inputStreamOpen, input.buf
      modifies this`stateLevel, this`state, this`pathPos, this`arrIndex, this`value, this`boolValue, this`isFloat
      modifies this`lastEvent, this`preErrorState, this`errorSet, this`errorMsg, this`errorPos
      ensures ev == ErrorEvent ==> stateLevel == old(stateLevel)
      ensures Ready() && Agrees(ev, StepColon(old(Frames()), old(KeyAt(stateLevel)), s, maxDepth))
    {
      hide StepValue, SkipWs, EncodesAt, FramesOf;
      var c := input.ReadWhiteSpace();
      if c != COLON {
        ev := SetError("Expected ':' after key. Found: ");
        return;
      }
      ghost var v := SkipWs(input.Rem());
      c := input.ReadWhiteSpace();
      ev := ReadValue(c, v);
    }

    /** The opening quote of the next key: behind a comma unless it is the first one. */
    method KeyQuote(c: int, curState: State, ghost rest: seq<byte>, ghost key: Label) returns (r: Reading)
      requires input.Input() && Ahead(c, SkipWs(rest)) && c != RBRACE
      requires curState == if key == NoKey then ExpectMemberFirst else ExpectMember
      modifies input`pos, input`bufEnd, input`bufferCount, input`inputArrayPos, input`inputStreamOpen, input.buf
      ensures input.Input()
      ensures var k := KeyStart(key, SkipWs(rest));
        if r.Good? then k.Token? && k.rest == input.Rem() else k.Bad?
    {
      hide SkipWs;
      if c == COMMA {
        if curState == ExpectMemberFirst {
          return Fault("unexpected member separator");
        }
        var d := input.ReadWhiteSpace();
        if d != QUOTE {
          return Fault("expect key. Found: ");
        }
      } else if c == -1 {
        return Fault("unexpected EOF > expect key");
      } else if c == QUOTE {
        if curState == ExpectMember {
          return Fault("expect member separator");
        }
      } else {
        return Fault("unexpected character > expect key. Found: ");
      }
      return Good;
    }

    /** Reads the key into its buffer; from here on the object expects further members. */
    method ReadKeyText(ghost s: seq<byte>) returns (q: Reading)
      requires Valid() && lastEvent != ErrorEvent && stateLevel > 0 && input.Rem() == s
      requires state[stateLevel] == ExpectMember || state[stateLevel] == ExpectMemberFirst
      modifies input`pos, input`bufEnd, input`bufferCount, input`inputArrayPos, input`inputStreamOpen, input.buf
      modifies this`key, this`state, this`lastEvent, this`preErrorState, this`errorSet, this`errorMsg, this`errorPos
      ensures Ready()
      ensures q.Good? ==>
        && KeyPending(old(B())) && lastEvent == old(lastEvent)
        && StringFrom(s, []) == Token(key, input.Rem())
      ensures q.Fault? ==> StringFrom(s, []) == Bad && Agrees(ErrorEvent, FAIL)
    {
      hide FramesOf, StringFrom, Encodes;
      MarkMember(B(), stateLevel);
      state := state[stateLevel := ExpectMember];
      q, key := input.ReadString();
      if q.Fault? {
        var ev := SetError(q.msg);
      }
    }

    /** The outcome of reading this key behind a path of this length, and the capacity after it. */
    static function Stored(t: Token, length: nat, capacity: nat): (Outcome<bool>, nat) {
      if t.Bad? then (Ok(false), capacity)
      else (if t.text == [] && length == capacity then Throw(IndexOutOfRange) else Ok(true),
            Grown(capacity, length + |t.text|))
    }

    /** Reads and stores a key; false stands for an error in it. */
    method ReadAndStoreKey(ghost s: seq<byte>, ghost b: Buffers, ghost t: Token) returns (r: Outcome<bool>)
      requires b == B() && t == StringFrom(s, [])
      requires Valid() && lastEvent != ErrorEvent && stateLevel > 0 && input.Rem() == s
      requires state[stateLevel] == ExpectMember || state[stateLevel] == ExpectMemberFirst
      modifies input`pos, input`bufEnd, input`bufferCount, input`inputArrayPos, input`inputStreamOpen, input.buf
      modifies this`key, this`state, this`lastEvent, this`preErrorState, this`errorSet, this`errorMsg, this`errorPos
      modifies this`path, this`pathPos, this`pathCapacity
      ensures Ready() && stateLevel == old(stateLevel)
      ensures var below := Init(FramesOf(b, stateLevel));
        && (r, pathCapacity) == Stored(t, PathLength(below), old(pathCapacity))
        && (r == Ok(false) ==> Agrees(ErrorEvent, FAIL))
        && (r == Ok(true) ==> AtValue() && input.Rem() == t.rest)
        && (r == Ok(true) ==> KeyAt(stateLevel) == Key(t.text) && Frames() == below + [InObject(Key(t.text))])
    {
      hide FramesOf, StringFrom, PathLength, Encodes, EncodesAt, Agrees, Grown, Init, AtValue, KeyAt, KeyPending;
      var q := ReadKeyText(s);
      if q.Fault? {
        return Ok(false);
      }
      var _ :- StoreKey(b);
      return Ok(true);
    }

    /** What reading a member gives whose key is t, in an object with the frames below it. */
    ghost predicate KeyOutcome(r: Outcome<JsonEvent>, t: Token, below: seq<Frame>, capacity: nat)
      reads this, input, input.buf, input.inputArray
    {
      var (stored, grown) := Stored(t, PathLength(below), capacity);
      && pathCapacity == grown
      && match stored
         case Throw(e) => r == Throw(e)
         case Ok(good) => r.Ok? && Agrees(r.value,
           if good then StepColon(below + [InObject(Key(t.text))], Key(t.text), t.rest, maxDepth) else FAIL)
    }

    /** The rest of a member after the opening quote of its key. */
    method KeyAndValue(ghost s: seq<byte>, ghost below: seq<Frame>, ghost t: Token) returns (r: Outcome<JsonEvent>)
      requires Valid() && lastEvent != ErrorEvent && stateLevel > 0 && input.Rem() == s
      requires state[stateLevel] == ExpectMember || state[stateLevel] == ExpectMemberFirst
      requires below == Init(Frames()) && t == StringFrom(s, [])
      modifies input`pos, input`bufEnd, input`bufferCount, input`inputArrayPos, input`inputStreamOpen, input.buf
      modifies this`stateLevel, this`state, this`pathPos, this`arrIndex, this`path, this`pathCapacity
      modifies this`key, this`value, this`boolValue, this`isFloat
      modifies this`lastEvent, this`preErrorState, this`errorSet, this`errorMsg, this`errorPos
      ensures r.Throw? || r == Ok(ErrorEvent) ==> stateLevel == old(stateLevel)
      ensures Ready()
      ensures KeyOutcome(r, t, below, old(pathCapacity))
    {
      hide StepColon, FramesOf, StringFrom, PathLength, Encodes, EncodesAt, Agrees, Grown, Init, AtValue, KeyAt;
      hide KeyOutcome, Stored;
      ghost var capacity := pathCapacity;
      var stored := ReadAndStoreKey(s, B(), t);
      if stored.Throw? {
        r := Throw(stored.e);
      } else if stored.value {
        var ev := Colon(input.Rem());
        r := Ok(ev);
      } else {
        r := Ok(ErrorEvent);
      }
      OutcomeIs(r, stored, t, below, capacity);
    }

    lemma OutcomeIs(r: Outcome<JsonEvent>, stored: Outcome<bool>, t: Token, below: seq<Frame>, capacity: nat)
      requires (stored, pathCapacity) == Stored(t, PathLength(below), capacity)
      requires stored.Throw? ==> r == Throw(stored.e)
      requires stored.Ok? ==> r.Ok? && Agrees(r.value,
        if stored.value then StepColon(below + [InObject(Key(t.text))], Key(t.text), t.rest, maxDepth) else FAIL)
      ensures KeyOutcome(r, t, below, capacity)
    {
      hide StepColon, PathLength, Agrees, Grown;
    }

    /** The key the next call in an object reads, and what it does to the path buffer. */
    static lemma MemberKey(frames: seq<Frame>, rest: seq<byte>, capacity: nat)
      requires frames != [] && Top(frames).InObject?
      ensures var m, w := Open(frames, rest), SkipWs(rest);
        var t := ReadKey(Top(frames).key, w);
        if (w != [] && w[0] == RBRACE) || t.Bad? then !Overruns(m, capacity) && CapacityAfter(m, capacity) == capacity
        else
          && (Overruns(m, capacity) <==> t.text == [] && PathLength(Init(frames)) == capacity)
          && CapacityAfter(m, capacity) == Grown(capacity, PathLength(Init(frames)) + |t.text|)
    {
      hide SkipWs, ReadKey, PathLength;
    }

    method Member(c: int, curState: State, ghost rest: seq<byte>) returns (r: Outcome<JsonEvent>)
      requires Valid() && lastEvent != ErrorEvent && stateLevel > 0 && curState == state[stateLevel]
      requires curState == ExpectMember || curState == ExpectMemberFirst
      requires Ahead(c, SkipWs(rest))
      modifies input`pos, input`bufEnd, input`bufferCount, input`inputArrayPos, input`inputStreamOpen, input.buf
      modifies this`stateLevel, this`state, this`pathPos, this`arrIndex, this`path, this`pathCapacity
      modifies this`key, this`value, this`boolValue, this`isFloat
      modifies this`lastEvent, this`preErrorState, this`errorSet, this`errorMsg, this`errorPos
      ensures r.Throw? || r == Ok(ErrorEvent) ==> stateLevel == old(stateLevel)
      ensures Ready()
      ensures r.Ok? ==> Agrees(r.value, Step(Open(old(Frames()), rest), maxDepth))
      ensures r.Throw? <==> Overruns(Open(old(Frames()), rest), old(pathCapacity))
      ensures r.Throw? ==> r.e == IndexOutOfRange
      ensures pathCapacity == CapacityAfter(Open(old(Frames()), rest), old(pathCapacity))
    {
      hide Step, StepColon, SkipWs, FramesOf, KeyStart, StringFrom, PathLength, Encodes, EncodesAt, Agrees, Grown;
      hide KeyOf, Overruns, CapacityAfter;
      ghost var fs := Frames();
      ghost var tag := TopMember(B(), stateLevel);
      MemberStep(fs, rest, maxDepth);
      MemberKey(fs, rest, pathCapacity);
      var ev;
      if c == RBRACE {
        ev := Leave(ObjectKind, B());
        return Ok(ev);
      }
      r := MemberItem(c, curState, rest, tag, Init(fs));
    }

    /** A member, from its separator on. */
    method MemberItem(c: int, curState: State, ghost rest: seq<byte>, ghost tag: Label, ghost below: seq<Frame>)
      returns (r: Outcome<JsonEvent>)
      requires Valid() && lastEvent != ErrorEvent && stateLevel > 0 && curState == state[stateLevel]
      requires curState == if tag == NoKey then ExpectMemberFirst else ExpectMember
      requires Ahead(c, SkipWs(rest)) && c != RBRACE && below == Init(Frames())
      modifies input`pos, input`bufEnd, input`bufferCount, input`inputArrayPos, input`inputStreamOpen, input.buf
      modifies this`stateLevel, this`state, this`pathPos, this`arrIndex, this`path, this`pathCapacity
      modifies this`key, this`value, this`boolValue, this`isFloat
      modifies this`lastEvent, this`preErrorState, this`errorSet, this`errorMsg, this`errorPos
      ensures r.Throw? || r == Ok(ErrorEvent) ==> stateLevel == old(stateLevel)
      ensures Ready() && KeyOutcome(r, ReadKey(tag, SkipWs(rest)), below, old(pathCapacity))
    {
      hide StepColon, SkipWs, FramesOf, KeyStart, StringFrom, PathLength, Encodes, EncodesAt, Agrees, Grown;
      var q := KeyQuote(c, curState, rest, tag);
      if q.Fault? {
        var ev := SetError(q.msg);
        return Ok(ev);
      }
      r := KeyAndValue(input.Rem(), below, StringFrom(input.Rem(), []));
    }

    method Root(c: int, ghost rest: seq<byte>) returns (ev: JsonEvent)
      requires Valid() && stateLevel == 0 && state[0] == ExpectRoot && Ahead(c, SkipWs(rest))
      modifies input`pos, input`bufEnd, input`bufferCount, input`inputArrayPos, input`inputStreamOpen, input.buf
      modifies this`stateLevel, this`state, this`pathPos, this`arrIndex, this`value, this`boolValue, this`isFloat
      modifies this`lastEvent, this`preErrorState, this`errorSet, this`errorMsg, this`errorPos
      ensures ev == ErrorEvent ==> stateLevel == old(stateLevel)
      ensures Agrees(ev, Step(Fresh(rest), maxDepth))
    {
      hide SkipWs, EncodesAt, FramesOf, Encodes, StringFrom, NumberFrom, KeywordFrom;
      state := state[0 := ExpectEof];
      RootEncodes(B());
      if c == LBRACE {
        ev := Enter(ObjectKind);
      } else if c == LBRACKET {
        ev := Enter(ArrayKind);
      } else if c == -1 {
        ev := SetError("unexpected EOF on root");
      } else {
        ev := ReadValue(c, SkipWs(rest));
      }
    }

    /** What the end of the document leaves behind. */
    lemma EndRead()
      requires Ready() && stateLevel == 0 && state[0] == ParsingFinished && lastEvent == EndOfFile
      ensures Agrees(EndOfFile, Result(EOF, Finished))
    {
      hide FramesOf;
      RootEncodes(B());
    }

    /** A parser in error stays so. */
    lemma StillFailed()
      requires Valid() && lastEvent == ErrorEvent
      ensures Agrees(ErrorEvent, FAIL)
    {
    }

    /** Behind the root value, behind the end, or in error. */
    method Outside(c: int, ghost rest: seq<byte>) returns (ev: JsonEvent)
      requires Valid() && Ahead(c, SkipWs(rest))
      requires state[stateLevel] == ExpectEof || state[stateLevel] == ParsingFinished || lastEvent == ErrorEvent
      modifies this`state, this`lastEvent, this`preErrorState, this`errorSet, this`errorMsg, this`errorPos
      ensures Ready()
      ensures Agrees(ev, Step(
        match old(state[stateLevel]) case ExpectEof => Open([], rest) case ParsingFinished => Finished case _ => Failed,
        maxDepth))
      ensures ev == EndOfFile ==> input.Rem() == []
      ensures old(lastEvent) == ErrorEvent ==> unchanged(this`errorSet, this`errorMsg, this`errorPos)
    {
      hide SkipWs, FramesOf, Encodes, EncodesAt, Agrees, StepValue;
      if stateLevel > 0 && lastEvent != ErrorEvent {
        TopKind(B(), stateLevel);
      }
      if state[stateLevel] == ExpectEof {
        if c == -1 {
          state := state[0 := ParsingFinished];
          lastEvent := EndOfFile;
          EndRead();
          ev := EndOfFile;
        } else {
          ev := SetError("Expected EOF");
        }
      } else if state[stateLevel] == ParsingFinished {
        ev := SetError("Parsing already finished");
      } else {
        StillFailed();
        ev := ErrorEvent;
      }
    }

    /** The branches of NextEvent outside of objects. */
    method DispatchOther(c: int, curState: State, ghost rest: seq<byte>, ghost m: Machine) returns (ev: JsonEvent)
      requires Valid() && curState == state[stateLevel] && Ahead(c, SkipWs(rest))
      requires curState != ExpectMember && curState != ExpectMemberFirst
      requires m == if curState == JsonError then Failed
                    else if curState == ExpectRoot then Fresh(rest)
                    else if curState == ParsingFinished then Finished
                    else Open(Frames(), rest)
      modifies input`pos, input`bufEnd, input`bufferCount, input`inputArrayPos, input`inputStreamOpen, input.buf
      modifies this`stateLevel, this`state, this`pathPos, this`arrIndex, this`value, this`boolValue, this`isFloat
      modifies this`lastEvent, this`preErrorState, this`errorSet, this`errorMsg, this`errorPos
      ensures ev == ErrorEvent ==> stateLevel == old(stateLevel)
      ensures Ready() && Agrees(ev, Step(m, maxDepth))
      ensures ev == EndOfFile ==> input.Rem() == []
      ensures old(lastEvent) == ErrorEvent ==> unchanged(this`errorSet, this`errorMsg, this`errorPos)
    {
      hide Step, SkipWs, EncodesAt, FramesOf, Encodes, Agrees;
      if stateLevel > 0 && lastEvent != ErrorEvent {
        TopKind(B(), stateLevel);
      }
      RootFrames();
      if curState == ExpectElement || curState == ExpectElementFirst {
        ev := Element(c, curState, rest);
        NotAtEnd(ev, m);
      } else if curState == ExpectRoot {
        ev := Root(c, rest);
        NotAtEnd(ev, m);
      } else {
        ev := Outside(c, rest);
      }
    }

    lemma NotAtEnd(ev: JsonEvent, m: Machine)
      requires Agrees(ev, Step(m, maxDepth)) && (m.Fresh? || Inside(m))
      ensures Ready() && ev != EndOfFile
    {
      hide StepMember, StepElement, StepValue, SkipWs;
    }

    /** The branches of NextEvent by the state of the innermost level. */
    method Dispatch() returns (r: Outcome<JsonEvent>)
      requires Valid()
      modifies input`pos, input`bufEnd, input`bufferCount, input`inputArrayPos, input`inputStreamOpen, input.buf
      modifies this`stateLevel, this`state, this`pathPos, this`arrIndex, this`path, this`pathCapacity
      modifies this`key, this`value, this`boolValue, this`isFloat
      modifies this`lastEvent, this`preErrorState, this`errorSet, this`errorMsg, this`errorPos
      ensures r.Throw? || r == Ok(ErrorEvent) ==> stateLevel == old(stateLevel)
      ensures Ready()
      ensures r.Ok? ==> Agrees(r.value, Step(old(M()), maxDepth))
      ensures r.Throw? <==> Overruns(old(M()), old(pathCapacity))
      ensures r.Throw? ==> r.e == IndexOutOfRange
      ensures pathCapacity == CapacityAfter(old(M()), old(pathCapacity))
      ensures r == Ok(EndOfFile) ==> input.Rem() == []
      ensures old(lastEvent) == ErrorEvent ==> unchanged(this`errorSet, this`errorMsg, this`errorPos)
    {
      hide Step, SkipWs, EncodesAt, FramesOf, Encodes, PathLength, ReadKey, Agrees;
      if stateLevel > 0 && lastEvent != ErrorEvent {
        TopKind(B(), stateLevel);
      }
      RootFrames();
      ghost var rest, m := input.Rem(), M();
      var c := input.ReadWhiteSpace();
      var curState := state[stateLevel];
      if curState == ExpectMember || curState == ExpectMemberFirst {
        r := Member(c, curState, rest);
        if r.Ok? {
          NotAtEnd(r.value, m);
        }
        return;
      }
      var ev := DispatchOther(c, curState, rest, m);
      return Ok(ev);
    }

    lemma RootFrames()
      requires Valid()
      ensures lastEvent != ErrorEvent && stateLevel == 0 ==> Frames() == []
    {
      hide Encodes;
    }

    /** What a step of the machine means for the parser that agrees with it. */
    lemma Settles(ev: JsonEvent, m: Machine)
      requires Agrees(ev, Step(m, maxDepth))
      ensures var s := Step(m, maxDepth);
        && Valid() && Settled() && M() == s.m && lastEvent == ev && Observed(ev) == s.ev
        && (ev == ErrorEvent <==> M() == Failed) && (ev == EndOfFile <==> M() == Finished)
      ensures ev != ErrorEvent ==> stateLevel == M().Level()
    {
      hide Step, FramesOf, Encodes, IsFloat;
      StepTop(m, maxDepth);
      if ev != ErrorEvent && stateLevel > 0 {
        TopKind(B(), stateLevel);
      }
    }

    /** One call of the pull parser: the next step of the machine, unless an empty key falls on the end
        of a full path buffer. */
    method NextEvent() returns (r: Outcome<JsonEvent>)
      requires Valid()
      modifies input`pos, input`bufEnd, input`bufferCount, input`inputArrayPos, input`inputStreamOpen, input.buf
      modifies this`stateLevel, this`state, this`pathPos, this`arrIndex, this`path, this`pathCapacity
      modifies this`key, this`value, this`boolValue, this`isFloat
      modifies this`lastEvent, this`preErrorState, this`errorSet, this`errorMsg, this`errorPos
      ensures Ready()
      ensures r.Ok? ==> Agrees(r.value, Step(old(M()), maxDepth))
      ensures r.Ok? ==> Valid() && M() == Step(old(M()), maxDepth).m && lastEvent == r.value
      ensures r.Ok? ==> Observed(r.value) == Step(old(M()), maxDepth).ev
      ensures r.Ok? ==> (r.value == ErrorEvent <==> M() == Failed) && (r.value == EndOfFile <==> M() == Finished)
      ensures r.Throw? <==> Overruns(old(M()), old(pathCapacity))
      ensures stateLevel == if r.Throw? || r.value == ErrorEvent then old(stateLevel) else M().Level()
      ensures r.Throw? ==> r.e == IndexOutOfRange
      ensures pathCapacity == CapacityAfter(old(M()), old(pathCapacity))
      ensures r == Ok(EndOfFile) ==> input.Rem() == []
      ensures r.Ok? ==> Settled()
      ensures old(lastEvent) == ErrorEvent ==> unchanged(this`errorSet, this`errorMsg, this`errorPos)
      ensures r.Ok? ==>
        match Step(old(M()), maxDepth).ev
        case Value(_, Str(text)) => r.value == ValueString && value == text
        case Value(_, Num(text)) => r.value == ValueNumber && value == text
            && (isFloat <==> exists i :: 1 <= i < |text| && text[i] in {46, 69, 101})
        case Value(_, Bool(b)) => r.value == ValueBool && boolValue == b
        case Value(_, Null) => r.value == ValueNull
        case Start(kind, _) => r.value == if kind == ObjectKind then ObjectStart else ArrayStart
        case End(kind) => r.value == if kind == ObjectKind then ObjectEnd else ArrayEnd
        case EOF => r.value == EndOfFile
        case Error => r.value == ErrorEvent
      ensures r.Ok? ==>
        var ev := Step(old(M()), maxDepth).ev;
        (ev.Value? || ev.Start?) && ev.key.Key? ==> key == ev.key.text
    {
      hide Step, Overruns, CapacityAfter, Agrees, Settled, Valid, M, Observed, IsFloat;
      ghost var m := M();
      r := Dispatch();
      if r.Ok? {
        Settles(r.value, m);
        Shown(r.value, m);
      }
    }

    /** The event and the fields of the parser one by one. */
    lemma Shown(ev: JsonEvent, m: Machine)
      requires Agrees(ev, Step(m, maxDepth))
      ensures match Step(m, maxDepth).ev
        case Value(_, Str(text)) => ev == ValueString && value == text
        case Value(_, Num(text)) => ev == ValueNumber && value == text
            && (isFloat <==> exists i :: 1 <= i < |text| && text[i] in {46, 69, 101})
        case Value(_, Bool(b)) => ev == ValueBool && boolValue == b
        case Value(_, Null) => ev == ValueNull
        case Start(kind, _) => ev == if kind == ObjectKind then ObjectStart else ArrayStart
        case End(kind) => ev == if kind == ObjectKind then ObjectEnd else ArrayEnd
        case EOF => ev == EndOfFile
        case Error => ev == ErrorEvent
      ensures var e := Step(m, maxDepth).ev; (e.Value? || e.Start?) && e.key.Key? ==> key == e.key.text
    {
      hide Step, FramesOf, Encodes;
      if ev == ValueNumber {
        FloatText(value);
      }
    }

    static lemma FloatText(text: seq<byte>)
      ensures IsFloat(text) <==> exists i :: 1 <= i < |text| && text[i] in {46, 69, 101}
    {
      assert forall i :: 0 <= i < |text| ==> (IsFloatChar(text[i]) <==> text[i] in {46, 69, 101});
    }
  }
}
