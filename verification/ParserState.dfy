/** The parser's depth buffers (state, pathPos, arrIndex), the shared path buffer, and the open frames they encode. */
module ParserState {
  import opened Ascii
  import opened Lexer
  import opened Tree
  import opened Machine
  import opened Containers

  datatype State =
    | ExpectMember
    | ExpectMemberFirst
    | ExpectElement
    | ExpectElementFirst
    | ExpectRoot
    | ExpectEof
    | JsonError
    | ParsingFinished

  datatype JsonEvent =
    | None
    | ValueString
    | ValueNumber
    | ValueBool
    | ArrayStart
    | ObjectStart
    | ValueNull
    | ObjectEnd
    | ArrayEnd
    | EndOfFile
    | ErrorEvent
    | Initialized

  const INIT_DEPTH: nat := 16
  const DEFAULT_MAX_DEPTH: nat := 100

  predicate IsContainer(s: State) {
    s.ExpectMember? || s.ExpectMemberFirst? || s.ExpectElement? || s.ExpectElementFirst?
  }

  /** The buffers as they are indexed by level; entry n describes the container opened n-th. */
  datatype Buffers = Buffers(state: seq<State>, pathPos: seq<int>, arrIndex: seq<int>, path: seq<byte>)

  /** The buffers encode level open containers: path positions are monotone and only a member with a
      key moves them, and the element index is -1 exactly before the first element. */
  predicate Encodes(b: Buffers, level: nat) {
    && level < |b.state| == |b.pathPos| == |b.arrIndex|
    && b.pathPos[0] == 0
    && (forall n :: 1 <= n <= level ==> EncodesAt(b, n))
    && 0 <= b.pathPos[level] <= |b.path|
  }

  predicate EncodesAt(b: Buffers, n: nat)
    requires 1 <= n < |b.state| == |b.pathPos| == |b.arrIndex|
  {
    && 0 <= b.pathPos[n - 1] <= b.pathPos[n] <= |b.path|
    && IsContainer(b.state[n])
    && (!b.state[n].ExpectMember? ==> b.pathPos[n] == b.pathPos[n - 1])
    && (b.state[n].ExpectElementFirst? ==> b.arrIndex[n] == -1)
    && (b.state[n].ExpectElement? ==> b.arrIndex[n] >= 0)
  }

  function FrameAt(b: Buffers, n: nat): Frame
    requires 1 <= n < |b.state| == |b.pathPos| == |b.arrIndex| && EncodesAt(b, n)
  {
    match b.state[n]
    case ExpectMemberFirst => InObject(NoKey)
    case ExpectMember => InObject(Key(b.path[b.pathPos[n - 1]..b.pathPos[n]]))
    case _ => InArray(b.arrIndex[n] + 1)
  }

  function FramesOf(b: Buffers, level: nat): (fs: seq<Frame>)
    requires Encodes(b, level)
    ensures |fs| == level
  {
    if level == 0 then [] else assert EncodesAt(b, level); FramesOf(b, level - 1) + [FrameAt(b, level)]
  }

  lemma RootEncodes(b: Buffers)
    requires 0 < |b.state| == |b.pathPos| == |b.arrIndex| && b.pathPos[0] == 0
    ensures Encodes(b, 0) && FramesOf(b, 0) == []
  {
  }

  lemma TopKind(b: Buffers, level: nat)
    requires level > 0 && Encodes(b, level)
    ensures IsContainer(b.state[level]) && FramesOf(b, level) != []
    ensures Top(FramesOf(b, level)).InObject? <==> b.state[level].ExpectMember? || b.state[level].ExpectMemberFirst?
  {
    assert EncodesAt(b, level);
  }

  /** Entry n of the buffers is the n-th open frame. */
  lemma {:induction false} FrameIs(b: Buffers, level: nat, n: nat)
    requires Encodes(b, level) && 1 <= n <= level
    ensures EncodesAt(b, n) && FramesOf(b, level)[n - 1] == FrameAt(b, n)
    decreases level
  {
    assert EncodesAt(b, level);
    if n < level {
      FrameIs(b, level - 1, n);
    }
  }

  /** The total length of the keys on the way to the current position. */
  function PathLength(frames: seq<Frame>): nat {
    if frames == [] then 0
    else PathLength(Init(frames)) + (match Top(frames) case InObject(Key(k)) => |k| case _ => 0)
  }

  lemma {:induction false} PathLengthIs(b: Buffers, level: nat)
    requires Encodes(b, level)
    ensures PathLength(FramesOf(b, level)) == b.pathPos[level]
  {
    if level > 0 {
      assert EncodesAt(b, level);
      PathLengthIs(b, level - 1);
      assert Init(FramesOf(b, level)) == FramesOf(b, level - 1);
    }
  }

  lemma PopFrames(b: Buffers, level: nat)
    requires level > 0 && Encodes(b, level)
    ensures Encodes(b, level - 1) && FramesOf(b, level - 1) == Init(FramesOf(b, level))
  {
    assert EncodesAt(b, level);
  }

  /** The buffers agree on the entries up to level and on the path up to the end of this level. */
  predicate SameLevels(b: Buffers, c: Buffers, level: nat) {
    && level < |b.state| == |b.pathPos| == |b.arrIndex| && level < |c.state| == |c.pathPos| == |c.arrIndex|
    && c.pathPos[0] == b.pathPos[0]
    && (forall n :: 1 <= n <= level ==> c.state[n] == b.state[n])
    && (forall n :: 1 <= n <= level ==> c.pathPos[n] == b.pathPos[n])
    && (forall n :: 1 <= n <= level ==> c.arrIndex[n] == b.arrIndex[n])
    && 0 <= b.pathPos[level] <= |b.path| && b.pathPos[level] <= |c.path|
    && (forall i :: 0 <= i < b.pathPos[level] ==> c.path[i] == b.path[i])
  }

  /** Nothing else matters. */
  lemma {:induction false} FramesAgree(b: Buffers, c: Buffers, level: nat)
    requires Encodes(b, level) && SameLevels(b, c, level)
    ensures Encodes(c, level) && FramesOf(c, level) == FramesOf(b, level)
    decreases level
  {
    if level > 0 {
      hide Encodes, EncodesAt, FramesOf, FrameAt, SameLevels;
      SameBelow(b, c, level);
      FramesAgree(b, c, level - 1);
      FrameAgrees(b, c, level);
      ExtendFrames(b, level);
      ExtendFrames(c, level);
    }
  }

  lemma SameBelow(b: Buffers, c: Buffers, level: nat)
    requires level > 0 && Encodes(b, level) && SameLevels(b, c, level)
    ensures level < |b.state| == |b.pathPos| == |b.arrIndex| && level < |c.state| == |c.pathPos| == |c.arrIndex|
    ensures EncodesAt(b, level) && Encodes(b, level - 1) && SameLevels(b, c, level - 1)
  {
    hide FramesOf, FrameAt;
    assert EncodesAt(b, level);
  }

  lemma FrameAgrees(b: Buffers, c: Buffers, level: nat)
    requires level > 0 && SameLevels(b, c, level) && EncodesAt(b, level)
    ensures EncodesAt(c, level) && FrameAt(c, level) == FrameAt(b, level)
  {
    assert level > 1 ==> c.pathPos[level - 1] == b.pathPos[level - 1];
    var lo, hi := b.pathPos[level - 1], b.pathPos[level];
    assert c.path[lo..hi] == b.path[lo..hi];
  }

  /** Leaving the innermost container; its own array index no longer matters. */
  lemma PopAgree(b: Buffers, c: Buffers, level: nat)
    requires level > 0 && Encodes(b, level)
    requires c.state == b.state && c.pathPos == b.pathPos && c.path == b.path
    requires |c.arrIndex| == |b.arrIndex| && forall n :: 0 <= n < level ==> c.arrIndex[n] == b.arrIndex[n]
    ensures Encodes(c, level - 1) && FramesOf(c, level - 1) == Init(FramesOf(b, level))
    ensures IsContainer(b.state[level]) && (level > 1 ==> IsContainer(b.state[level - 1]))
  {
    assert EncodesAt(b, level);
    assert level > 1 ==> EncodesAt(b, level - 1);
    PopFrames(b, level);
    FramesAgree(b, c, level - 1);
  }

  /** The buffers after entering a container: perhaps longer ones, with the entry of the new level set. */
  function Pushed(g: Buffers, level: nat, kind: Kind): Buffers
    requires level + 1 < |g.state| == |g.pathPos| == |g.arrIndex|
  {
    Buffers(g.state[level + 1 := if kind.ObjectKind? then ExpectMemberFirst else ExpectElementFirst],
            g.pathPos[level + 1 := g.pathPos[level]],
            if kind.ArrayKind? then g.arrIndex[level + 1 := -1] else g.arrIndex, g.path)
  }

  /** Opening a container at level + 1 adds its frame, whatever the longer buffers hold above. */
  lemma PushFrame(b: Buffers, g: Buffers, level: nat, kind: Kind)
    requires Encodes(b, level) && level + 1 < |g.state| == |g.pathPos| == |g.arrIndex|
    requires b.state <= g.state && b.pathPos <= g.pathPos && b.arrIndex <= g.arrIndex && b.path == g.path
    ensures var c := Pushed(g, level, kind);
      Encodes(c, level + 1) && FramesOf(c, level + 1) == FramesOf(b, level) + [NewFrame(kind)]
  {
    var c := Pushed(g, level, kind);
    assert level > 0 ==> EncodesAt(b, level);
    assert SameLevels(b, c, level);
    FramesAgree(b, c, level);
    assert level > 0 ==> EncodesAt(c, level);
    assert EncodesAt(c, level + 1) && FrameAt(c, level + 1) == NewFrame(kind);
    ExtendFrames(c, level + 1);
  }

  /** The innermost frame of an object and the path length below it. */
  lemma TopMember(b: Buffers, level: nat) returns (key: Label)
    requires level > 0 && Encodes(b, level) && (b.state[level].ExpectMember? || b.state[level].ExpectMemberFirst?)
    ensures Top(FramesOf(b, level)) == InObject(key) && (key == NoKey <==> b.state[level].ExpectMemberFirst?)
    ensures PathLength(Init(FramesOf(b, level))) == b.pathPos[level - 1] <= |b.path|
  {
    assert EncodesAt(b, level);
    key := FrameAt(b, level).key;
    PopFrames(b, level);
    PathLengthIs(b, level - 1);
  }

  lemma MarkMember(b: Buffers, level: nat)
    requires level > 0 && Encodes(b, level) && (b.state[level].ExpectMember? || b.state[level].ExpectMemberFirst?)
    ensures Encodes(b.(state := b.state[level := ExpectMember]), level)
  {
    var c := b.(state := b.state[level := ExpectMember]);
    assert forall n :: 1 <= n <= level && EncodesAt(b, n) ==> EncodesAt(c, n);
  }

  /** Storing the key of the next member: the path is cut back to the parent's end and the key appended. */
  lemma SetKey(b: Buffers, level: nat, key: seq<byte>, c: Buffers)
    requires level > 0 && Encodes(b, level) && (b.state[level].ExpectMember? || b.state[level].ExpectMemberFirst?)
    requires 0 <= b.pathPos[level - 1] <= |b.path| && c.state == b.state[level := ExpectMember]
      && c.arrIndex == b.arrIndex
    requires c.path == b.path[..b.pathPos[level - 1]] + key
    requires c.pathPos == b.pathPos[level := |c.path|]
    ensures Encodes(c, level) && FramesOf(c, level) == Init(FramesOf(b, level)) + [InObject(Key(key))]
    ensures !IsFirst(Top(FramesOf(c, level)))
  {
    assert EncodesAt(b, level);
    PopFrames(b, level);
    assert level > 1 ==> EncodesAt(b, level - 1);
    FramesAgree(b, c, level - 1);
    assert c.path[c.pathPos[level - 1]..c.pathPos[level]] == key;
    assert EncodesAt(c, level) && FrameAt(c, level) == InObject(Key(key));
    ExtendFrames(c, level);
  }

  /** Starting the next element of an array. */
  lemma SetElement(b: Buffers, level: nat, c: Buffers)
    requires level > 0 && Encodes(b, level) && (b.state[level].ExpectElement? || b.state[level].ExpectElementFirst?)
    requires c.state == b.state[level := ExpectElement] && c.arrIndex == b.arrIndex[level := b.arrIndex[level] + 1]
    requires c.pathPos == b.pathPos && c.path == b.path
    ensures Encodes(c, level)
    ensures FramesOf(c, level) == Init(FramesOf(b, level)) + [InArray(b.arrIndex[level] + 2)]
    ensures Top(FramesOf(b, level)) == InArray(b.arrIndex[level] + 1) && b.arrIndex[level] >= -1
    ensures b.state[level].ExpectElementFirst? <==> b.arrIndex[level] == -1
  {
    assert EncodesAt(b, level);
    PopFrames(b, level);
    assert level > 1 ==> EncodesAt(b, level - 1);
    FramesAgree(b, c, level - 1);
    assert EncodesAt(c, level) && FrameAt(c, level) == InArray(b.arrIndex[level] + 2);
    ExtendFrames(c, level);
  }

  lemma ExtendFrames(b: Buffers, level: nat)
    requires 0 < level < |b.state| == |b.pathPos| == |b.arrIndex| && Encodes(b, level - 1) && EncodesAt(b, level)
    ensures Encodes(b, level) && FramesOf(b, level) == FramesOf(b, level - 1) + [FrameAt(b, level)]
  {
    hide FrameAt;
  }

  // ------------------------------------------------------------ capacity of the path buffer

  /** The key the next call reads, if it gets as far as reading one. */
  function KeyOf(m: Machine): Token {
    if !Inside(m) then Bad
    else match Top(m.frames)
      case InArray(_) => Bad
      case InObject(key) =>
        var w := SkipWs(m.rest);
        if w != [] && w[0] == RBRACE then Bad else ReadKey(key, w)
  }

  /** The next call appends an empty key at the very end of a full path buffer. Taking the address of
      the byte there raises an exception although nothing is copied. */
  predicate Overruns(m: Machine, capacity: nat) {
    KeyOf(m).Token? && KeyOf(m).text == [] && PathLength(Init(m.frames)) == capacity
  }

  /** The capacity after a buffer of this capacity was asked to hold size bytes. */
  function Grown(capacity: nat, size: nat): (c: nat)
    ensures c >= capacity && c >= size
  {
    if size <= capacity then capacity else Max(size, 2 * capacity)
  }

  function CapacityAfter(m: Machine, capacity: nat): nat {
    if KeyOf(m).Bad? then capacity else Grown(capacity, PathLength(Init(m.frames)) + |KeyOf(m).text|)
  }

  /** No call up to the final event runs into the exception. */
  predicate Safe(m: Machine, capacity: nat, maxDepth: int)
    decreases m.Unread()
  {
    && !Overruns(m, capacity)
    && (var r := Step(m, maxDepth); Last(r.ev) || Safe(r.m, CapacityAfter(m, capacity), maxDepth))
  }
}
