/** The pull parser over the unread bytes of a document: one call of NextEvent is one Step.
    Blocks, buffers and positions do not appear here; Utf8JsonParser refines this machine. */
module Machine {
  import opened Ascii
  import opened Lexer
  import opened Tree

  /** One open container: the key of the current member, or how many elements have been started.
      NoKey and 0 mean that nothing has been read in it yet. */
  datatype Frame = InObject(key: Label) | InArray(count: nat)

  datatype Machine =
    | Fresh(rest: seq<byte>)
    | Open(frames: seq<Frame>, rest: seq<byte>)
    | Finished
    | Failed
  {
    /** The number of bytes not yet consumed. */
    function Unread(): nat {
      match this
      case Fresh(rest) => |rest|
      case Open(_, rest) => |rest|
      case _ => 0
    }

    function Level(): nat {
      if Open? then |frames| else 0
    }
  }

  datatype Result = Result(ev: Event, m: Machine)

  const FAIL := Result(Error, Failed)

  /** The deepest level a parser with the given maxDepth reaches: the root container is never checked. */
  function Limit(maxDepth: int): int {
    Max(1, maxDepth)
  }

  function Init<T>(s: seq<T>): seq<T>
    requires s != []
  {
    s[..|s| - 1]
  }

  function Top<T>(s: seq<T>): T
    requires s != []
  {
    s[|s| - 1]
  }

  function KindOf(f: Frame): Kind {
    if f.InObject? then ObjectKind else ArrayKind
  }

  function NewFrame(kind: Kind): Frame {
    if kind.ObjectKind? then InObject(NoKey) else InArray(0)
  }

  predicate IsFirst(f: Frame) {
    f == InObject(NoKey) || f == InArray(0)
  }

  function Closer(kind: Kind): byte {
    if kind.ObjectKind? then RBRACE else RBRACKET
  }

  function Opener(kind: Kind): byte {
    if kind.ObjectKind? then LBRACE else LBRACKET
  }

  function StepOpen(kind: Kind, frames: seq<Frame>, key: Label, rest: seq<byte>, maxDepth: int): Result {
    if frames != [] && |frames| >= maxDepth then FAIL
    else Result(Start(kind, key), Open(frames + [NewFrame(kind)], rest))
  }

  function Scalars(t: Token, key: Label, v: Scalar, frames: seq<Frame>): Result {
    if t.Bad? then FAIL else Result(Value(key, v), Open(frames, t.rest))
  }

  /** Reads a value whose first byte is v[0]. */
  function StepValue(frames: seq<Frame>, key: Label, v: seq<byte>, maxDepth: int): (r: Result)
    ensures r.ev != EOF && !r.ev.End?
    ensures r.ev != Error ==> r.ev.key == key
    ensures r.ev == Error <==> r.m == Failed
    ensures r.ev != Error ==> r.m.Open? && r.m.Unread() < |v|
    ensures r.ev != Error ==> r.m.frames == if r.ev.Start? then frames + [NewFrame(r.ev.kind)] else frames
  {
    if v == [] then FAIL
    else if v[0] == QUOTE then
      var t := StringFrom(v[1..], []);
      if t.Bad? then FAIL else Result(Value(key, Str(t.text)), Open(frames, t.rest))
    else if v[0] == LBRACE then StepOpen(ObjectKind, frames, key, v[1..], maxDepth)
    else if v[0] == LBRACKET then StepOpen(ArrayKind, frames, key, v[1..], maxDepth)
    else if IsNumberStart(v[0]) then
      var t := NumberFrom(v[1..], [v[0]], frames == []);
      if t.Bad? then FAIL else Result(Value(key, Num(t.text)), Open(frames, t.rest))
    else if v[0] == TRUE_TEXT[0] then Scalars(KeywordFrom(v[1..], TRUE_TEXT), key, Bool(true), frames)
    else if v[0] == FALSE_TEXT[0] then Scalars(KeywordFrom(v[1..], FALSE_TEXT), key, Bool(false), frames)
    else if v[0] == NULL_TEXT[0] then Scalars(KeywordFrom(v[1..], NULL_TEXT), key, Null, frames)
    else FAIL
  }

  /** StepValue by the first byte of the value. */
  lemma StepString(frames: seq<Frame>, key: Label, v: seq<byte>, maxDepth: int)
    requires v != [] && v[0] == QUOTE
    ensures var t := StringFrom(v[1..], []);
      StepValue(frames, key, v, maxDepth) == Scalars(t, key, if t.Bad? then Null else Str(t.text), frames)
  {
    hide StringFrom, NumberFrom, KeywordFrom;
  }

  lemma StepNumber(frames: seq<Frame>, key: Label, v: seq<byte>, maxDepth: int)
    requires v != [] && IsNumberStart(v[0])
    ensures var t := NumberFrom(v[1..], [v[0]], frames == []);
      StepValue(frames, key, v, maxDepth) == Scalars(t, key, if t.Bad? then Null else Num(t.text), frames)
  {
    hide StringFrom, NumberFrom, KeywordFrom;
  }

  lemma StepKeyword(frames: seq<Frame>, key: Label, v: seq<byte>, keyword: seq<byte>, maxDepth: int)
    requires keyword == TRUE_TEXT || keyword == FALSE_TEXT || keyword == NULL_TEXT
    requires v != [] && v[0] == keyword[0]
    ensures var scalar := if keyword == NULL_TEXT then Null else Bool(keyword == TRUE_TEXT);
      StepValue(frames, key, v, maxDepth) == Scalars(KeywordFrom(v[1..], keyword), key, scalar, frames)
  {
    hide StringFrom, NumberFrom, KeywordFrom;
  }

  /** The bytes after the opening quote of the next key, if the call gets as far as reading one. */
  function KeyStart(key: Label, w: seq<byte>): (s: Token)
    ensures s.Token? ==> |s.rest| < |w|
  {
    if key == NoKey then
      if w != [] && w[0] == QUOTE then Token([], w[1..]) else Bad
    else if w != [] && w[0] == COMMA then
      var k := SkipWs(w[1..]);
      if k != [] && k[0] == QUOTE then Token([], k[1..]) else Bad
    else Bad
  }

  /** The next key of an object whose unread bytes, blanks skipped, are w. */
  function ReadKey(key: Label, w: seq<byte>): (t: Token)
    ensures t.Token? ==> |t.rest| < |w|
  {
    var s := KeyStart(key, w);
    if s.Bad? then Bad else StringFrom(s.rest, [])
  }

  /** The colon after a key and the value behind it. */
  function StepColon(frames: seq<Frame>, key: Label, s: seq<byte>, maxDepth: int): (r: Result)
    ensures r.ev != EOF && !r.ev.End?
    ensures r.ev == Error <==> r.m == Failed
    ensures r.ev != Error ==> r.m.Open? && r.m.Unread() < |s| && r.ev.key == key
    ensures r.ev != Error ==> r.m.frames == if r.ev.Start? then frames + [NewFrame(r.ev.kind)] else frames
  {
    var c := SkipWs(s);
    if c == [] || c[0] != COLON then FAIL else StepValue(frames, key, SkipWs(c[1..]), maxDepth)
  }

  function StepMember(frames: seq<Frame>, key: Label, w: seq<byte>, maxDepth: int): (r: Result)
    requires frames != []
    ensures r.ev == Error <==> r.m == Failed
    ensures r.ev != EOF
    ensures r.ev != Error ==> r.m.Open? && r.m.Unread() < |w|
    ensures r.ev.End? ==> r.ev.kind == ObjectKind && r.m.frames == Init(frames)
  {
    if w != [] && w[0] == RBRACE then Result(End(ObjectKind), Open(Init(frames), w[1..]))
    else
      var t := ReadKey(key, w);
      if t.Bad? then FAIL
      else StepColon(Init(frames) + [InObject(Key(t.text))], Key(t.text), t.rest, maxDepth)
  }

  function StepElement(frames: seq<Frame>, count: nat, w: seq<byte>, maxDepth: int): (r: Result)
    requires frames != []
    ensures r.ev == Error <==> r.m == Failed
    ensures r.ev != EOF
    ensures r.ev != Error ==> r.m.Open? && r.m.Unread() < |w|
    ensures r.ev.End? ==> r.ev.kind == ArrayKind && r.m.frames == Init(frames)
  {
    var next := Init(frames) + [InArray(count + 1)];
    if w != [] && w[0] == RBRACKET then Result(End(ArrayKind), Open(Init(frames), w[1..]))
    else if count == 0 then StepValue(next, NoKey, w, maxDepth)
    else if w == [] || w[0] != COMMA then FAIL
    else StepValue(next, NoKey, SkipWs(w[1..]), maxDepth)
  }

  /** One call of NextEvent. */
  function Step(m: Machine, maxDepth: int): (r: Result)
    ensures r.ev == Error <==> r.m == Failed
    ensures r.ev == EOF <==> r.m == Finished
    ensures !Last(r.ev) ==> r.m.Open? && r.m.Unread() < m.Unread()
  {
    match m
    case Failed => FAIL
    case Finished => FAIL
    case Fresh(rest) => StepValue([], NoKey, SkipWs(rest), maxDepth)
    case Open(frames, rest) =>
      var w := SkipWs(rest);
      if frames == [] then (if w == [] then Result(EOF, Finished) else FAIL)
      else match Top(frames)
        case InObject(key) => StepMember(frames, key, w, maxDepth)
        case InArray(count) => StepElement(frames, count, w, maxDepth)
  }

  /** What the next call does inside an object, branch by branch. */
  lemma MemberStep(frames: seq<Frame>, rest: seq<byte>, maxDepth: int)
    requires frames != [] && Top(frames).InObject?
    ensures var w, r := SkipWs(rest), Step(Open(frames, rest), maxDepth);
      var t := ReadKey(Top(frames).key, w);
      if w != [] && w[0] == RBRACE then r == Result(End(ObjectKind), Open(Init(frames), w[1..]))
      else if t.Bad? then r == FAIL
      else r == StepColon(Init(frames) + [InObject(Key(t.text))], Key(t.text), t.rest, maxDepth)
  {
    hide StepColon, SkipWs, ReadKey;
  }

  /** What the next call does inside an array, branch by branch. */
  lemma ElementStep(frames: seq<Frame>, rest: seq<byte>, maxDepth: int)
    requires frames != [] && Top(frames).InArray?
    ensures var w, r, count := SkipWs(rest), Step(Open(frames, rest), maxDepth), Top(frames).count;
      var next := Init(frames) + [InArray(count + 1)];
      if w != [] && w[0] == RBRACKET then r == Result(End(ArrayKind), Open(Init(frames), w[1..]))
      else if count == 0 then r == StepValue(next, NoKey, w, maxDepth)
      else if w != [] && w[0] == COMMA then r == StepValue(next, NoKey, SkipWs(w[1..]), maxDepth)
      else r == FAIL
  {
    hide StepValue, SkipWs;
  }

  lemma StepTop(m: Machine, maxDepth: int)
    ensures var r := Step(m, maxDepth);
      && !r.m.Fresh?
      && (r.ev.Start? ==> r.m.Open? && r.m.frames != [] && Top(r.m.frames) == NewFrame(r.ev.kind))
  {
    hide StepValue, StepColon, SkipWs, ReadKey;
  }

  /** All events up to and including the first EOF or Error. */
  function Run(m: Machine, maxDepth: int): (evs: seq<Event>)
    ensures evs != [] && Last(Top(evs))
    decreases m.Unread()
  {
    var r := Step(m, maxDepth);
    if Last(r.ev) then [r.ev] else [r.ev] + Run(r.m, maxDepth)
  }

  predicate Accepted(m: Machine, maxDepth: int) {
    Top(Run(m, maxDepth)) == EOF
  }

  /** An input of n bytes yields at most n events besides the final one, and every event consumes a byte. */
  lemma {:induction false} RunLength(m: Machine, maxDepth: int)
    ensures |Run(m, maxDepth)| <= m.Unread() + 1
    ensures forall i :: 0 <= i < |Run(m, maxDepth)| - 1 ==> !Last(Run(m, maxDepth)[i])
    decreases m.Unread()
  {
    var r := Step(m, maxDepth);
    if !Last(r.ev) {
      RunLength(r.m, maxDepth);
    }
  }

  /** The machine after n calls. */
  function After(m: Machine, n: nat, maxDepth: int): Machine
    decreases n
  {
    if n == 0 then m else After(Step(m, maxDepth).m, n - 1, maxDepth)
  }

  function EventAt(m: Machine, n: nat, maxDepth: int): Event {
    Step(After(m, n, maxDepth), maxDepth).ev
  }

  /** Error is absorbing: once an event is Error, or one call past EOF, every later event is Error. */
  lemma {:induction false} ErrorAbsorbs(m: Machine, i: nat, j: nat, maxDepth: int)
    requires i < j && Last(EventAt(m, i, maxDepth))
    ensures EventAt(m, j, maxDepth) == Error
    decreases j
  {
    hide Step;
    AfterAdd(m, i, 1, maxDepth);
    assert After(After(m, i, maxDepth), 1, maxDepth) == After(Step(After(m, i, maxDepth), maxDepth).m, 0, maxDepth);
    AfterAdd(m, i + 1, j - i - 1, maxDepth);
    var m1 := After(m, i + 1, maxDepth);
    StaysStuck(m1, j - i - 1, maxDepth);
  }

  lemma {:induction false} AfterAdd(m: Machine, i: nat, j: nat, maxDepth: int)
    ensures After(m, i + j, maxDepth) == After(After(m, i, maxDepth), j, maxDepth)
    decreases i
  {
    hide Step;
    if i > 0 {
      AfterAdd(Step(m, maxDepth).m, i - 1, j, maxDepth);
    }
  }

  lemma {:induction false} StaysStuck(m: Machine, n: nat, maxDepth: int)
    requires m == Failed || m == Finished
    ensures After(m, n, maxDepth) == Failed || (n == 0 && After(m, n, maxDepth) == m)
    ensures EventAt(m, n, maxDepth) == Error
    decreases n
  {
    if n > 0 {
      StaysStuck(Failed, n - 1, maxDepth);
    }
  }

  /** How many containers a run of events has opened and not closed. */
  function Unclosed(evs: seq<Event>): int {
    if evs == [] then 0
    else Unclosed(Init(evs)) + (if Top(evs).Start? then 1 else if Top(evs).End? then -1 else 0)
  }

  /** The kinds of the containers a run of events has opened and not closed, outermost first. */
  function OpenKinds(evs: seq<Event>): seq<Kind> {
    if evs == [] then []
    else
      var before := OpenKinds(Init(evs));
      if Top(evs).Start? then before + [Top(evs).kind]
      else if Top(evs).End? && before != [] then Init(before)
      else before
  }

  function Kinds(frames: seq<Frame>): seq<Kind> {
    seq(|frames|, i requires 0 <= i < |frames| => KindOf(frames[i]))
  }

  /** The first n events of a document. */
  function FirstEvents(m: Machine, n: nat, maxDepth: int): seq<Event> {
    seq(n, i requires 0 <= i < n => EventAt(m, i, maxDepth))
  }

  lemma StepKinds(m: Machine, maxDepth: int)
    requires !Last(Step(m, maxDepth).ev)
    requires m.Open? ==> |m.frames| <= Limit(maxDepth)
    ensures var r, before := Step(m, maxDepth), if m.Open? then Kinds(m.frames) else [];
      && r.m.Open? && |r.m.frames| <= Limit(maxDepth)
      && (r.ev.Start? ==> Kinds(r.m.frames) == before + [r.ev.kind])
      && (r.ev.End? ==> before != [] && Kinds(r.m.frames) == Init(before) && r.ev.kind == Top(before))
      && (r.ev.Value? ==> Kinds(r.m.frames) == before)
  {
    hide StringFrom, NumberFrom, KeywordFrom, SkipWs;
    var r := Step(m, maxDepth);
    if m.Open? && m.frames != [] {
      match Top(m.frames)
      case InObject(key) => assert Kinds(Init(m.frames)) == Init(Kinds(m.frames));
      case InArray(_) => assert Kinds(Init(m.frames)) == Init(Kinds(m.frames));
    }
  }

  lemma Snoc(evs: seq<Event>, ev: Event)
    ensures Unclosed(evs + [ev]) == Unclosed(evs) + (if ev.Start? then 1 else if ev.End? then -1 else 0)
    ensures ev.Start? ==> OpenKinds(evs + [ev]) == OpenKinds(evs) + [ev.kind]
    ensures ev.End? && OpenKinds(evs) != [] ==> OpenKinds(evs + [ev]) == Init(OpenKinds(evs))
    ensures ev.Value? ==> OpenKinds(evs + [ev]) == OpenKinds(evs)
  {
    assert Init(evs + [ev]) == evs;
  }

  /** A machine that is open after a step was open, or fresh, before it. */
  lemma OpenBefore(m: Machine, n: nat, maxDepth: int)
    requires n > 0 && After(m, n, maxDepth).Open?
    ensures var m0 := After(m, n - 1, maxDepth);
      After(m, n, maxDepth) == Step(m0, maxDepth).m && !Last(Step(m0, maxDepth).ev)
    ensures FirstEvents(m, n, maxDepth)
      == FirstEvents(m, n - 1, maxDepth) + [Step(After(m, n - 1, maxDepth), maxDepth).ev]
    ensures n > 1 ==> After(m, n - 1, maxDepth).Open?
  {
    hide Step;
    AfterAdd(m, n - 1, 1, maxDepth);
    assert After(After(m, n - 1, maxDepth), 1, maxDepth)
      == After(Step(After(m, n - 1, maxDepth), maxDepth).m, 0, maxDepth);
    if n > 1 {
      AfterAdd(m, n - 2, 1, maxDepth);
      assert After(After(m, n - 2, maxDepth), 1, maxDepth)
        == After(Step(After(m, n - 2, maxDepth), maxDepth).m, 0, maxDepth);
    }
  }

  /** In every run the open frames are exactly the unclosed start events with their kinds, the
      level is their number and never exceeds the limit. */
  lemma {:induction false} LevelIsUnclosed(s: seq<byte>, n: nat, maxDepth: int)
    requires n > 0 && After(Fresh(s), n, maxDepth).Open?
    ensures Kinds(After(Fresh(s), n, maxDepth).frames) == OpenKinds(FirstEvents(Fresh(s), n, maxDepth))
    ensures After(Fresh(s), n, maxDepth).Level() == Unclosed(FirstEvents(Fresh(s), n, maxDepth))
    ensures After(Fresh(s), n, maxDepth).Level() <= Limit(maxDepth)
    decreases n
  {
    hide Step;
    var m0, before := After(Fresh(s), n - 1, maxDepth), FirstEvents(Fresh(s), n - 1, maxDepth);
    OpenBefore(Fresh(s), n, maxDepth);
    if n > 1 {
      LevelIsUnclosed(s, n - 1, maxDepth);
    }
    StepKinds(m0, maxDepth);
    Snoc(before, Step(m0, maxDepth).ev);
  }

  /** The level a caller sees after n calls: an error leaves it as it was. */
  function ShownLevel(s: seq<byte>, n: nat, maxDepth: int): nat
    decreases n
  {
    if n == 0 then 0
    else if EventAt(Fresh(s), n - 1, maxDepth) == Error then ShownLevel(s, n - 1, maxDepth)
    else After(Fresh(s), n, maxDepth).Level()
  }

  lemma EndsAtRoot(m: Machine, maxDepth: int)
    requires Step(m, maxDepth).ev == EOF
    ensures m.Open? && m.Level() == 0
  {
    hide StepValue, StepColon, SkipWs, ReadKey;
  }

  /** The same at the end and behind errors: in every run the level shown is the number of containers that have
      been started and not ended. */
  lemma {:induction false} ShownIsUnclosed(s: seq<byte>, n: nat, maxDepth: int)
    ensures ShownLevel(s, n, maxDepth) == Unclosed(FirstEvents(Fresh(s), n, maxDepth)) <= Limit(maxDepth)
    decreases n
  {
    hide Step;
    if n > 0 {
      var m0, before := After(Fresh(s), n - 1, maxDepth), FirstEvents(Fresh(s), n - 1, maxDepth);
      AfterAdd(Fresh(s), n - 1, 1, maxDepth);
      assert After(m0, 1, maxDepth) == After(Step(m0, maxDepth).m, 0, maxDepth);
      assert FirstEvents(Fresh(s), n, maxDepth) == before + [Step(m0, maxDepth).ev];
      Snoc(before, Step(m0, maxDepth).ev);
      ShownIsUnclosed(s, n - 1, maxDepth);
      if !Last(Step(m0, maxDepth).ev) {
        LevelIsUnclosed(s, n, maxDepth);
      } else if Step(m0, maxDepth).ev == EOF {
        EndsAtRoot(m0, maxDepth);
        NotFailedBefore(s, n - 1, maxDepth);
      }
    }
  }

  lemma NotFailedBefore(s: seq<byte>, n: nat, maxDepth: int)
    requires After(Fresh(s), n, maxDepth).Open?
    ensures ShownLevel(s, n, maxDepth) == After(Fresh(s), n, maxDepth).Level()
  {
    hide Step;
    if n > 0 {
      OpenBefore(Fresh(s), n, maxDepth);
    }
  }
}
