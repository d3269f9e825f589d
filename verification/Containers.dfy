/** Reading the machine one container at a time: the items a container still holds, and
    what that reading says about the stream of events. */
module Containers {
  import opened Ascii
  import opened Lexer
  import opened Tree
  import opened Machine

  /** The items up to the end of the innermost open container and the machine just after its
      end event; Broken if an error comes first. */
  datatype Closing = Closed(items: Items, m: Machine) | Broken

  predicate Inside(m: Machine) {
    m.Open? && m.frames != []
  }

  /** f is what frame g becomes when the next item is read in it. */
  predicate Advanced(f: Frame, g: Frame) {
    KindOf(f) == KindOf(g) && !IsFirst(f)
  }

  /** What one step inside a container does to the open frames. */
  predicate StepShape(frames: seq<Frame>, r: Result)
    requires frames != []
  {
    match r.ev
    case EOF => false
    case Error => true
    case End(kind) => r.m.Open? && kind == KindOf(Top(frames)) && r.m.frames == Init(frames)
    case Value(key, _) =>
      && Inside(r.m) && Init(r.m.frames) == Init(frames) && Advanced(Top(r.m.frames), Top(frames))
      && key.Key? == KindOf(Top(frames)).ObjectKind?
    case Start(kind, key) =>
      && Inside(r.m) && Top(r.m.frames) == NewFrame(kind)
      && Init(r.m.frames) != [] && Init(Init(r.m.frames)) == Init(frames)
      && Advanced(Top(Init(r.m.frames)), Top(frames))
      && key.Key? == KindOf(Top(frames)).ObjectKind?
  }

  lemma StepInside(m: Machine, maxDepth: int)
    requires Inside(m)
    ensures StepShape(m.frames, Step(m, maxDepth))
  {
    hide StepValue, ReadKey, SkipWs;
  }

  function Close(m: Machine, maxDepth: int): (c: Closing)
    requires Inside(m)
    ensures c.Closed? ==> c.m.Open? && c.m.frames == Init(m.frames) && c.m.Unread() < m.Unread()
    decreases m.Unread()
  {
    StepInside(m, maxDepth);
    var r := Step(m, maxDepth);
    match r.ev
    case Error => Broken
    case EOF => Broken
    case End(_) => Closed(Nil, r.m)
    case Value(key, v) =>
      (match Close(r.m, maxDepth)
       case Broken => Broken
       case Closed(items, m2) => Closed(Cons(key, Leaf(v), items), m2))
    case Start(kind, key) =>
      (match Close(r.m, maxDepth)
       case Broken => Broken
       case Closed(inner, m1) =>
         (match Close(m1, maxDepth)
          case Broken => Broken
          case Closed(items, m2) => Closed(Cons(key, Node(kind, inner), items), m2)))
  }

  /** One unfolding of Close. */
  lemma CloseCases(m: Machine, maxDepth: int)
    requires Inside(m)
    ensures StepShape(m.frames, Step(m, maxDepth))
    ensures var r, c := Step(m, maxDepth), Close(m, maxDepth);
      match r.ev
      case Error => c == Broken
      case EOF => false
      case End(_) => c == Closed(Nil, r.m)
      case Value(key, v) =>
        var d := Close(r.m, maxDepth);
        c == if d.Broken? then Broken else Closed(Cons(key, Leaf(v), d.items), d.m)
      case Start(kind, key) =>
        var d := Close(r.m, maxDepth);
        if d.Broken? then c == Broken
        else
          Inside(d.m) && var e := Close(d.m, maxDepth);
          c == if e.Broken? then Broken else Closed(Cons(key, Node(kind, d.items), e.items), e.m)
  {
    hide Step;
    StepInside(m, maxDepth);
  }

  lemma CloseEnd(m: Machine, maxDepth: int)
    requires Inside(m) && Step(m, maxDepth).ev.End?
    ensures Close(m, maxDepth) == Closed(Nil, Step(m, maxDepth).m)
  {
    hide Step;
  }

  lemma CloseValue(m: Machine, maxDepth: int)
    requires Inside(m) && Step(m, maxDepth).ev.Value?
    ensures var r := Step(m, maxDepth);
      Inside(r.m) && (Close(r.m, maxDepth).Closed? ==>
        Close(m, maxDepth) == Closed(Cons(r.ev.key, Leaf(r.ev.v), Close(r.m, maxDepth).items), Close(r.m, maxDepth).m))
  {
    hide Step;
    StepInside(m, maxDepth);
  }

  lemma CloseNode(m: Machine, maxDepth: int)
    requires Inside(m) && Step(m, maxDepth).ev.Start?
    ensures var r := Step(m, maxDepth);
      Inside(r.m) && (Close(r.m, maxDepth).Closed? ==>
        var m1 := Close(r.m, maxDepth).m;
        Inside(m1) && (Close(m1, maxDepth).Closed? ==>
          Close(m, maxDepth) ==
            Closed(Cons(r.ev.key, Node(r.ev.kind, Close(r.m, maxDepth).items), Close(m1, maxDepth).items),
                Close(m1, maxDepth).m)))
  {
    hide Step;
    StepInside(m, maxDepth);
  }

  /** A closed container contributes exactly the pre-order events of its items and its end event;
      a broken one ends the whole run in an error. */
  lemma {:induction false} RunClose(m: Machine, maxDepth: int)
    requires Inside(m)
    ensures RunIsItems(m, maxDepth)
    decreases m.Unread()
  {
    hide Step;
    StepInside(m, maxDepth);
    var r := Step(m, maxDepth);
    match r.ev
    case Error =>
    case End(_) =>
    case Value(key, v) =>
      RunClose(r.m, maxDepth);
      RunStep(m, maxDepth);
      if Close(r.m, maxDepth).Closed? {
        var items := Close(r.m, maxDepth).items;
        assert Events(key, Leaf(v)) == [r.ev];
        assert ItemsEvents(Cons(key, Leaf(v), items)) == [r.ev] + ItemsEvents(items);
      }
    case Start(kind, key) =>
      RunClose(r.m, maxDepth);
      if Close(r.m, maxDepth).Closed? {
        RunClose(Close(r.m, maxDepth).m, maxDepth);
        RunNested(m, maxDepth);
      }
  }

  lemma RunStep(m: Machine, maxDepth: int)
    requires !Last(Step(m, maxDepth).ev)
    ensures Run(m, maxDepth) == [Step(m, maxDepth).ev] + Run(Step(m, maxDepth).m, maxDepth)
    ensures Accepted(m, maxDepth) == Accepted(Step(m, maxDepth).m, maxDepth)
  {
    hide Step;
  }

  /** What RunClose says of one container. */
  predicate RunIsItems(m: Machine, maxDepth: int)
    requires Inside(m)
  {
    match Close(m, maxDepth)
    case Closed(items, m2) => Run(m, maxDepth) == ItemsEvents(items) + [End(KindOf(Top(m.frames)))] + Run(m2, maxDepth)
    case Broken => !Accepted(m, maxDepth)
  }

  /** The case of a nested container, given the two smaller ones. */
  lemma RunNested(m: Machine, maxDepth: int)
    requires Inside(m) && Step(m, maxDepth).ev.Start?
    requires var r := Step(m, maxDepth);
      Inside(r.m) && RunIsItems(r.m, maxDepth) && Close(r.m, maxDepth).Closed? && Inside(Close(r.m, maxDepth).m)
    requires RunIsItems(Close(Step(m, maxDepth).m, maxDepth).m, maxDepth)
    ensures RunIsItems(m, maxDepth)
  {
    hide Step, Run, Accepted;
    StepInside(m, maxDepth);
    RunStep(m, maxDepth);
    var r := Step(m, maxDepth);
    var c := Close(r.m, maxDepth);
    var d := Close(c.m, maxDepth);
    if d.Closed? {
      CloseNode(m, maxDepth);
      assert Events(r.ev.key, Node(r.ev.kind, c.items)) == [r.ev] + ItemsEvents(c.items) + [End(r.ev.kind)];
      Regroup(r.ev, ItemsEvents(c.items), End(r.ev.kind), ItemsEvents(d.items), End(KindOf(Top(m.frames))),
          Run(d.m, maxDepth));
    } else {
      AcceptedSuffix(ItemsEvents(c.items) + [End(r.ev.kind)], r.m, c.m, maxDepth);
    }
  }

  lemma AcceptedSuffix(evs: seq<Event>, m: Machine, m2: Machine, maxDepth: int)
    requires Run(m, maxDepth) == evs + Run(m2, maxDepth)
    ensures Accepted(m, maxDepth) == Accepted(m2, maxDepth)
  {
    hide Run;
  }

  lemma Regroup<T>(e: T, a: seq<T>, x: T, b: seq<T>, y: T, rest: seq<T>)
    ensures [e] + (a + [x] + (b + [y] + rest)) == ([e] + a + [x]) + b + [y] + rest
  {
  }

  /** The trees read this way carry keys exactly on object members and only lexer-accepted numbers. */
  lemma {:induction false} CloseWellFormed(m: Machine, maxDepth: int)
    requires Inside(m) && Close(m, maxDepth).Closed?
    ensures ItemsWellFormed(KindOf(Top(m.frames)), Close(m, maxDepth).items)
    decreases m.Unread()
  {
    hide Step;
    StepInside(m, maxDepth);
    StepScalar(m, maxDepth);
    var r := Step(m, maxDepth);
    match r.ev
    case End(_) =>
    case Value(key, v) =>
      CloseWellFormed(r.m, maxDepth);
    case Start(kind, key) =>
      CloseWellFormed(r.m, maxDepth);
      CloseWellFormed(Close(r.m, maxDepth).m, maxDepth);
  }

  /** Every number event carries a text of the number lexeme. */
  lemma StepScalar(m: Machine, maxDepth: int)
    ensures var r := Step(m, maxDepth); r.ev.Value? && r.ev.v.Num? ==> ValidNumber(r.ev.v.text)
  {
    var r := Step(m, maxDepth);
    if r.ev.Value? && r.ev.v.Num? {
      var v, frames := ValueStart(m, maxDepth);
      var t := NumberSound(v[1..], [v[0]], frames == []);
    }
  }

  /** The bytes at which a step that yields a value or a start event reads that value. */
  lemma ValueStart(m: Machine, maxDepth: int) returns (v: seq<byte>, frames: seq<Frame>)
    requires var ev := Step(m, maxDepth).ev; ev.Value? || ev.Start?
    ensures Step(m, maxDepth) == StepValue(frames, Step(m, maxDepth).ev.key, v, maxDepth)
  {
    hide StepValue, StringFrom, SkipWs;
    match m
    case Fresh(rest) =>
      v, frames := SkipWs(rest), [];
    case Open(fs, rest) =>
      var w := SkipWs(rest);
      match Top(fs)
      case InObject(key) =>
        var t := ReadKey(key, w);
        v, frames := SkipWs(SkipWs(t.rest)[1..]), Init(fs) + [InObject(Key(t.text))];
      case InArray(count) =>
        v, frames := if count == 0 then w else SkipWs(w[1..]), Init(fs) + [InArray(count + 1)];
  }

  // ------------------------------------------------------------ whole documents

  /** The tree of a document that is read to EOF. */
  datatype Document = Document(tree: Json) | Rejected

  function ReadDocument(s: seq<byte>, maxDepth: int): Document {
    var r := Step(Fresh(s), maxDepth);
    match r.ev
    case Value(_, v) => if Step(r.m, maxDepth).ev == EOF then Document(Leaf(v)) else Rejected
    case Start(kind, _) =>
      if !Inside(r.m) then Rejected
      else (match Close(r.m, maxDepth)
        case Broken => Rejected
        case Closed(items, m) => if Step(m, maxDepth).ev == EOF then Document(Node(kind, items)) else Rejected)
    case _ => Rejected
  }

  lemma StepFresh(s: seq<byte>, maxDepth: int)
    ensures var r := Step(Fresh(s), maxDepth);
      && !r.ev.End? && r.ev != EOF
      && (r.ev.Value? ==> r.m.Open? && r.m.frames == [] && r.ev.key == NoKey)
      && (r.ev.Start? ==> r.m.Open? && r.m.frames == [NewFrame(r.ev.kind)] && r.ev.key == NoKey)
  {
  }

  lemma StepAtRoot(m: Machine, maxDepth: int)
    requires m.Open? && m.frames == []
    ensures Last(Step(m, maxDepth).ev)
    ensures Step(m, maxDepth).ev == EOF <==> SkipWs(m.rest) == []
  {
  }

  /** A document is read to EOF exactly when it has a tree, and then its events are that tree's pre-order walk. */
  lemma RunDocument(s: seq<byte>, maxDepth: int)
    ensures Accepted(Fresh(s), maxDepth) <==> ReadDocument(s, maxDepth).Document?
    ensures ReadDocument(s, maxDepth).Document? ==>
      Run(Fresh(s), maxDepth) == Events(NoKey, ReadDocument(s, maxDepth).tree) + [EOF]
  {
    hide Step;
    StepFresh(s, maxDepth);
    var r := Step(Fresh(s), maxDepth);
    if r.ev.Value? {
      StepAtRoot(r.m, maxDepth);
    } else if r.ev.Start? {
      RunClose(r.m, maxDepth);
      if Close(r.m, maxDepth).Closed? {
        StepAtRoot(Close(r.m, maxDepth).m, maxDepth);
      }
    }
  }
}
