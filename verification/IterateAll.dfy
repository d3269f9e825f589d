/** Whole iterations with JObj and JArr: every item is either left alone or used, and a used container is
    iterated to its end in the same way. */
module IterateAll {
  import opened Tree
  import opened Machine
  import opened Containers
  import opened ParserState
  import opened Outcome
  import opened Parser
  import opened PathSafety
  import opened Skip
  import opened Iterate

  /** Which items a caller uses: decided for each place, given by the indices on the way to it, and for the
      event that delivers the item there. */
  type Choice = (seq<nat>, Event) -> bool

  /** The event that delivers an item. */
  function ItemEvent(key: Label, v: Json): Event {
    match v
    case Leaf(s) => Value(key, s)
    case Node(kind, _) => Start(kind, key)
  }

  /** The items a caller meets from the i-th one on: the direct items in order, and below each used container
      its own. */
  function Visits(items: Items, path: seq<nat>, i: nat, use: Choice): seq<Event>
    decreases items
  {
    match items
    case Nil => []
    case Cons(key, v, tail) =>
      [ItemEvent(key, v)] + VisitsBelow(key, v, path + [i], use) + Visits(tail, path, i + 1, use)
  }

  function VisitsBelow(key: Label, v: Json, place: seq<nat>, use: Choice): seq<Event>
    decreases v
  {
    match v
    case Leaf(_) => []
    case Node(kind, items) => if use(place, Start(kind, key)) then Visits(items, place, 0, use) else []
  }

  /** The node counts of everything that is skipped on the way. */
  function Skips(items: Items, path: seq<nat>, i: nat, use: Choice): SkipInfo
    decreases items
  {
    match items
    case Nil => NO_SKIPS
    case Cons(key, v, tail) => Add(SkipsOf(key, v, path + [i], use), Skips(tail, path, i + 1, use))
  }

  function SkipsOf(key: Label, v: Json, place: seq<nat>, use: Choice): SkipInfo
    decreases v
  {
    if !use(place, ItemEvent(key, v)) then Count(v)
    else match v
      case Leaf(_) => NO_SKIPS
      case Node(_, items) => Skips(items, place, 0, use)
  }

  /** The events of everything that is skipped on the way: whole trees, left alone. */
  function SkippedEvents(items: Items, path: seq<nat>, i: nat, use: Choice): seq<Event>
    decreases items
  {
    match items
    case Nil => []
    case Cons(key, v, tail) => SkippedOf(key, v, path + [i], use) + SkippedEvents(tail, path, i + 1, use)
  }

  function SkippedOf(key: Label, v: Json, place: seq<nat>, use: Choice): seq<Event>
    decreases v
  {
    if !use(place, ItemEvent(key, v)) then Events(key, v)
    else match v
      case Leaf(_) => []
      case Node(_, items) => SkippedEvents(items, place, 0, use)
  }

  /** The events that delivered an item that was used. */
  function UsedEvents(items: Items, path: seq<nat>, i: nat, use: Choice): seq<Event>
    decreases items
  {
    match items
    case Nil => []
    case Cons(key, v, tail) => UsedOf(key, v, path + [i], use) + UsedEvents(tail, path, i + 1, use)
  }

  function UsedOf(key: Label, v: Json, place: seq<nat>, use: Choice): seq<Event>
    decreases v
  {
    if !use(place, ItemEvent(key, v)) then []
    else match v
      case Leaf(_) => [ItemEvent(key, v)]
      case Node(_, items) => [ItemEvent(key, v)] + UsedEvents(items, place, 0, use)
  }

  lemma {:induction false} SkipsAreNumbers(items: Items, path: seq<nat>, i: nat, use: Choice, c: Category)
    ensures Counter(Skips(items, path, i, use), c) == Number(SkippedEvents(items, path, i, use), c)
    decreases items
  {
    hide Counter, Add, SkipsOf, SkippedOf;
    match items
    case Nil => CounterAdds(NO_SKIPS, NO_SKIPS, c);
    case Cons(key, v, tail) =>
      SkipsOfIsNumber(key, v, path + [i], use, c);
      SkipsAreNumbers(tail, path, i + 1, use, c);
      CounterAdds(SkipsOf(key, v, path + [i], use), Skips(tail, path, i + 1, use), c);
      NumberConcat(SkippedOf(key, v, path + [i], use), SkippedEvents(tail, path, i + 1, use), c);
  }

  lemma {:induction false} SkipsOfIsNumber(key: Label, v: Json, place: seq<nat>, use: Choice, c: Category)
    ensures Counter(SkipsOf(key, v, place, use), c) == Number(SkippedOf(key, v, place, use), c)
    decreases v
  {
    hide Counter, Count, Events, Skips, SkippedEvents;
    if !use(place, ItemEvent(key, v)) {
      CountIsNumber(key, v, c);
    } else if v.Leaf? {
      CounterAdds(NO_SKIPS, NO_SKIPS, c);
    } else {
      SkipsAreNumbers(v.items, place, 0, use, c);
    }
  }

  /** Nothing is lost and nothing counted twice: of each category, the items used and the nodes skipped are
      together the events of all items. */
  lemma {:induction false} UsedOrSkipped(items: Items, path: seq<nat>, i: nat, use: Choice, c: Category)
    ensures Number(UsedEvents(items, path, i, use), c) + Number(SkippedEvents(items, path, i, use), c)
      == Number(ItemsEvents(items), c)
    decreases items
  {
    hide Number, UsedOf, SkippedOf, Events;
    match items
    case Nil => NumberNone(c);
    case Cons(key, v, tail) =>
      UsedOrSkippedOne(key, v, path + [i], use, c);
      UsedOrSkipped(tail, path, i + 1, use, c);
      NumberConcat(Events(key, v), ItemsEvents(tail), c);
      NumberConcat(UsedOf(key, v, path + [i], use), UsedEvents(tail, path, i + 1, use), c);
      NumberConcat(SkippedOf(key, v, path + [i], use), SkippedEvents(tail, path, i + 1, use), c);
  }

  lemma {:induction false} UsedOrSkippedOne(key: Label, v: Json, place: seq<nat>, use: Choice, c: Category)
    ensures Number(UsedOf(key, v, place, use), c) + Number(SkippedOf(key, v, place, use), c)
      == Number(Events(key, v), c)
    decreases v
  {
    hide Number, UsedEvents, SkippedEvents, ItemsEvents;
    NumberNone(c);
    if use(place, ItemEvent(key, v)) && v.Node? {
      var start := [Start(v.kind, key)];
      CountsOneStart(key, v.kind, c);
      UsedOrSkipped(v.items, place, 0, use, c);
      NumberConcat(start, UsedEvents(v.items, place, 0, use), c);
      NumberConcat(start + ItemsEvents(v.items), [End(v.kind)], c);
      NumberConcat(start, ItemsEvents(v.items), c);
    }
  }

  // ------------------------------------------------------------ the state of an iteration

  /** An iteration: what closes the container, its place, the caller's choices and the counters before. */
  datatype Goal = Goal(c: Closing, path: seq<nat>, use: Choice, base: SkipInfo)

  /** How far it has come: the number of items dealt with, what was visited and the counters. */
  datatype Done = Done(next: nat, visited: seq<Event>, info: SkipInfo)

  /** The end of an iteration. */
  predicate IterateOutcome(g: Goal, ok: bool, visited: seq<Event>, after: Machine, info: SkipInfo) {
    match g.c
    case Broken => !ok && after == Failed
    case Closed(items, m) =>
      && ok && after == m
      && visited == Visits(items, g.path, 0, g.use) && info == Add(g.base, Skips(items, g.path, 0, g.use))
  }

  /** Behind a whole iteration each counter has grown by the number of skipped events of its category. */
  predicate SkipsCounted(g: Goal, info: SkipInfo) {
    g.c.Closed? ==> Grew(g.base, SkippedEvents(g.c.items, g.path, 0, g.use), info)
  }

  lemma IterationGrew(g: Goal, ok: bool, visited: seq<Event>, after: Machine, info: SkipInfo)
    requires IterateOutcome(g, ok, visited, after, info)
    ensures SkipsCounted(g, info)
  {
    hide Skips, SkippedEvents, Visits, Number, Counter, Add;
    if g.c.Closed? {
      var evs := SkippedEvents(g.c.items, g.path, 0, g.use);
      forall c
        ensures Counter(info, c) == Counter(g.base, c) + Number(evs, c)
      {
        SkipsAreNumbers(g.c.items, g.path, 0, g.use, c);
        CounterAdds(g.base, Skips(g.c.items, g.path, 0, g.use), c);
      }
    }
  }

  /** With d still to be read, the iteration ends as it should. */
  predicate Todo(g: Goal, d: Closing, at: Done) {
    if g.c.Broken? then d.Broken?
    else
      && d.Closed? && d.m == g.c.m
      && at.visited + Visits(d.items, g.path, at.next, g.use) == Visits(g.c.items, g.path, 0, g.use)
      && Add(at.info, Skips(d.items, g.path, at.next, g.use)) == Add(g.base, Skips(g.c.items, g.path, 0, g.use))
  }

  /** Between two calls: the current item is still to be skipped unless it has been used. */
  predicate Progress(g: Goal, m: Machine, ev: Event, skip: bool, at: Done, maxDepth: int)
    requires Inside(m)
  {
    if skip && ev.Start? then
      match Close(m, maxDepth)
      case Broken => g.c.Broken?
      case Closed(inner, m1) =>
        Inside(m1) && Todo(g, Close(m1, maxDepth), at.(info := Add(at.info, Current(ev, inner))))
    else Todo(g, Close(m, maxDepth), if skip then at.(info := Add(at.info, Current(ev, Nil))) else at)
  }

  predicate Chosen(g: Goal, ev: Event, at: Done) {
    g.use(g.path + [at.next], ev)
  }

  /** Behind a scalar with event ev that has been dealt with as chosen. */
  function AfterValue(g: Goal, ev: Event, at: Done): Done
    requires ev.Value?
  {
    Done(at.next + 1, at.visited + [ev], if Chosen(g, ev, at) then at.info else Add(at.info, CountScalar(ev.v)))
  }

  /** Behind a container with event ev and these items that has been dealt with as chosen. */
  function AfterNode(g: Goal, ev: Event, inner: Items, at: Done): Done {
    if Chosen(g, ev, at) then
      var place := g.path + [at.next];
      Done(at.next + 1, at.visited + [ev] + Visits(inner, place, 0, g.use), Add(at.info, Skips(inner, place, 0, g.use)))
    else Done(at.next + 1, at.visited + [ev], Add(at.info, Current(ev, inner)))
  }

  /** After the call that delivered the next item with event ev. */
  predicate Arrived(g: Goal, m: Machine, ev: Event, at: Done, maxDepth: int) {
    && Inside(m)
    && match ev
       case Value(_, v) => Todo(g, Close(m, maxDepth), AfterValue(g, ev, at))
       case Start(kind, _) =>
         (match Close(m, maxDepth)
          case Broken => g.c.Broken?
          case Closed(inner, m1) => Inside(m1) && Todo(g, Close(m1, maxDepth), AfterNode(g, ev, inner, at)))
       case _ => false
  }

  lemma TodoValue(g: Goal, d: Closing, ev: Event, at: Done)
    requires ev.Value?
    requires Todo(g, if d.Broken? then Broken else Closed(Cons(ev.key, Leaf(ev.v), d.items), d.m), at)
    ensures Todo(g, d, AfterValue(g, ev, at))
  {
    assert AfterValue(g, ev, at).next == at.next + 1;
    hide Visits, Skips, Add, CountScalar, AfterValue;
    if d.Closed? {
      VisitsValue(g, ev, d.items, at);
      SkipsValue(g, ev, d.items, at);
    }
  }

  lemma VisitsValue(g: Goal, ev: Event, tail: Items, at: Done)
    requires ev.Value?
    ensures at.visited + Visits(Cons(ev.key, Leaf(ev.v), tail), g.path, at.next, g.use)
      == AfterValue(g, ev, at).visited + Visits(tail, g.path, at.next + 1, g.use)
  {
    var rest := Visits(tail, g.path, at.next + 1, g.use);
    assert ItemEvent(ev.key, Leaf(ev.v)) == ev;
    Ungroup(at.visited, [ev], [], rest);
    assert at.visited + [ev] + [] == at.visited + [ev];
  }

  lemma SkipsValue(g: Goal, ev: Event, tail: Items, at: Done)
    requires ev.Value?
    ensures Add(at.info, Skips(Cons(ev.key, Leaf(ev.v), tail), g.path, at.next, g.use))
      == Add(AfterValue(g, ev, at).info, Skips(tail, g.path, at.next + 1, g.use))
  {
    assert ItemEvent(ev.key, Leaf(ev.v)) == ev && Count(Leaf(ev.v)) == CountScalar(ev.v);
    hide Add, CountScalar;
    AddAssociates(at.info, if Chosen(g, ev, at) then NO_SKIPS else CountScalar(ev.v),
                  Skips(tail, g.path, at.next + 1, g.use));
    AddNothing(at.info);
  }

  lemma AddNothing(a: SkipInfo)
    ensures Add(a, NO_SKIPS) == a
  {
  }

  lemma Ungroup<T>(a: seq<T>, b: seq<T>, c: seq<T>, d: seq<T>)
    ensures a + (b + c + d) == a + b + c + d
  {
  }

  lemma VisitsNode(g: Goal, ev: Event, inner: Items, tail: Items, at: Done)
    requires ev.Start?
    ensures at.visited + Visits(Cons(ev.key, Node(ev.kind, inner), tail), g.path, at.next, g.use)
      == AfterNode(g, ev, inner, at).visited + Visits(tail, g.path, at.next + 1, g.use)
  {
    var place, rest := g.path + [at.next], Visits(tail, g.path, at.next + 1, g.use);
    var below := VisitsBelow(ev.key, Node(ev.kind, inner), place, g.use);
    assert ItemEvent(ev.key, Node(ev.kind, inner)) == ev;
    assert below == if g.use(place, ev) then Visits(inner, place, 0, g.use) else [];
    Ungroup(at.visited, [ev], below, rest);
    assert at.visited + [ev] + [] == at.visited + [ev];
  }

  lemma SkipsNode(g: Goal, ev: Event, inner: Items, tail: Items, at: Done)
    requires ev.Start?
    ensures Add(at.info, Skips(Cons(ev.key, Node(ev.kind, inner), tail), g.path, at.next, g.use))
      == Add(AfterNode(g, ev, inner, at).info, Skips(tail, g.path, at.next + 1, g.use))
  {
    assert Count(Node(ev.kind, inner)) == Current(ev, inner);
    hide Add;
    var place := g.path + [at.next];
    AddAssociates(at.info, if g.use(place, ev) then Skips(inner, place, 0, g.use) else Current(ev, inner),
                  Skips(tail, g.path, at.next + 1, g.use));
  }

  lemma TodoNode(g: Goal, d: Closing, ev: Event, inner: Items, at: Done)
    requires ev.Start?
    requires Todo(g, if d.Broken? then Broken else Closed(Cons(ev.key, Node(ev.kind, inner), d.items), d.m), at)
    ensures Todo(g, d, AfterNode(g, ev, inner, at))
  {
    assert AfterNode(g, ev, inner, at).next == at.next + 1;
    hide Visits, Skips, Add, Current, AfterNode;
    if d.Closed? {
      VisitsNode(g, ev, inner, d.items, at);
      SkipsNode(g, ev, inner, d.items, at);
    }
  }

  lemma TodoBroken(g: Goal, at: Done)
    ensures Todo(g, Broken, at) <==> g.c.Broken?
  {
  }

  lemma TodoEnd(g: Goal, d: Closing, at: Done)
    requires d.Closed? && d.items == Nil && Todo(g, d, at)
    ensures IterateOutcome(g, true, at.visited, d.m, at.info)
  {
    AddNothing(at.info);
    assert at.visited + [] == at.visited;
  }

  /** One advance of the iterator. */
  lemma Advance(g: Goal, m: Machine, ev: Event, skip: bool, at: Done, maxDepth: int,
                after: Machine, ev2: Event, info2: SkipInfo, more: bool)
    requires Inside(m) && Progress(g, m, ev, skip, at, maxDepth)
    requires NextOutcome(m, ev, skip, maxDepth, at.info, after, ev2, info2, more)
    ensures more ==> Arrived(g, after, ev2, at.(info := info2), maxDepth)
    ensures !more ==> IterateOutcome(g, after != Failed, at.visited, after, info2) && (after != Failed ==> ev2.End?)
  {
    hide Step, Close, Visits, Skips, Add, Current, CountScalar, Todo, AfterValue, AfterNode;
    if !(skip && ev.Start? && Close(m, maxDepth).Broken?) {
      var m1 := if skip && ev.Start? then Close(m, maxDepth).m else m;
      var s, now := Step(m1, maxDepth), at.(info := info2);
      CloseCases(m1, maxDepth);
      assert Todo(g, Close(m1, maxDepth), now);
      match s.ev
      case Error => TodoBroken(g, now);
      case End(_) => TodoEnd(g, Close(m1, maxDepth), now);
      case Value(_, _) => TodoValue(g, Close(s.m, maxDepth), s.ev, now);
      case Start(_, _) =>
        var d := Close(s.m, maxDepth);
        if d.Closed? {
          TodoNode(g, Close(d.m, maxDepth), s.ev, d.items, now);
        } else {
          TodoBroken(g, now);
        }
    }
  }

  /** The container of the item that was delivered, or used, last. */
  function Around(m: Machine, ev: Event): seq<Frame>
    requires Inside(m)
  {
    if ev.Start? then Init(m.frames) else m.frames
  }

  /** An item of the iterated container, which is of this kind at this level, is the current one. */
  predicate Delivered(m: Machine, ev: Event, level: int, kind: Kind) {
    && Inside(m)
    && var fs := Around(m, ev);
      && |fs| == level > 0 && KindOf(Top(fs)) == kind && !IsFirst(Top(fs))
  }

  /** Between two advances: the innermost container, or the one around what is to be skipped. */
  predicate AtItem(m: Machine, ev: Event, skip: bool, level: int, kind: Kind) {
    && Inside(m)
    && var fs := if skip && ev.Start? then Init(m.frames) else m.frames;
      |fs| == level > 0 && KindOf(Top(fs)) == kind
  }

  /** What an advance that delivers an item, or ends the container, says about the open frames. */
  lemma NextDelivers(m: Machine, ev: Event, skip: bool, level: int, kind: Kind, maxDepth: int, base: SkipInfo,
                     after: Machine, ev2: Event, info: SkipInfo, more: bool)
    requires AtItem(m, ev, skip, level, kind) && NextOutcome(m, ev, skip, maxDepth, base, after, ev2, info, more)
    ensures more ==>
      Inside(after) && Delivered(after, ev2, level, kind) && after.Unread() < m.Unread() && (ev2.Value? || ev2.Start?)
    ensures !more && after != Failed ==> ev2 == End(kind)
  {
    hide Step, Close, Add, Current;
    if !(skip && ev.Start? && Close(m, maxDepth).Broken?) {
      StepInside(if skip && ev.Start? then Close(m, maxDepth).m else m, maxDepth);
    }
  }

  /** The state the parser keeps for one of its open containers. */
  lemma StateOfFrame(p: Utf8JsonParser, n: nat)
    requires p.Valid() && p.M().Open? && 1 <= n <= |p.M().frames|
    ensures p.stateLevel == |p.M().frames|
    ensures var f := p.M().frames[n - 1];
      p.state[n] == if f.InObject? then (if IsFirst(f) then ExpectMemberFirst else ExpectMember)
                    else if IsFirst(f) then ExpectElementFirst else ExpectElement
  {
    FrameIs(p.B(), p.stateLevel, n);
  }

  /** The level checks of an iterator hold while its container's items are delivered. */
  lemma InItsPlace(p: Utf8JsonParser, ev: Event, level: int, kind: Kind)
    requires p.Settled() && Delivered(p.M(), ev, level, kind) && p.Observed(p.lastEvent) == ev
    ensures p.stateLevel == (if ev.Start? then level + 1 else level) && 0 < level < |p.state|
    ensures p.state[level] == if kind == ObjectKind then ExpectMember else ExpectElement
    ensures ev.Start? <==> IsStart(p.lastEvent)
  {
    hide FramesOf;
    StateOfFrame(p, level);
  }

  /** What the level checks ask for, by the open containers: the innermost one, or the one around a container that
      has just been started, is the iterator's own and has an item. */
  lemma InPlaceExactly(p: Utf8JsonParser, it: JObj)
    requires p.Settled() && p.lastEvent != ErrorEvent && it.hasIterated
    ensures it.InPlace(p) <==> Delivered(p.M(), p.Observed(p.lastEvent), it.expectedLevel, ObjectKind)
  {
    hide FramesOf, Encodes;
    PlaceOfLevel(p, it.expectedLevel);
  }

  lemma ElementInPlaceExactly(p: Utf8JsonParser, it: JArr)
    requires p.Settled() && p.lastEvent != ErrorEvent && it.hasIterated
    ensures it.InPlace(p) <==> Delivered(p.M(), p.Observed(p.lastEvent), it.expectedLevel, ArrayKind)
  {
    hide FramesOf, Encodes;
    PlaceOfLevel(p, it.expectedLevel);
  }

  lemma PlaceOfLevel(p: Utf8JsonParser, level: int)
    requires p.Settled() && p.lastEvent != ErrorEvent
    ensures p.Observed(p.lastEvent).Start? <==> IsStart(p.lastEvent)
    ensures p.stateLevel == p.M().Level() && (p.M().Level() > 0 <==> Inside(p.M()))
    ensures !(p.state[0].ExpectMember? || p.state[0].ExpectElement?)
    ensures 0 < level <= p.M().Level() ==>
      var f := p.M().frames[level - 1];
      p.state[level] == if f.InObject? then (if IsFirst(f) then ExpectMemberFirst else ExpectMember)
                        else if IsFirst(f) then ExpectElementFirst else ExpectElement
  {
    hide FramesOf, Encodes;
    if p.stateLevel > 0 {
      TopKind(p.B(), p.stateLevel);
    }
    if 0 < level <= p.M().Level() {
      StateOfFrame(p, level);
    }
  }

  /** The current item has been used: a value stays, a container is iterated to its end. */
  predicate Used(m: Machine, ev: Event, place: seq<nat>, use: Choice, base: SkipInfo, maxDepth: int,
                 ok: bool, visited: seq<Event>, after: Machine, ev2: Event, info: SkipInfo)
    requires Inside(m)
  {
    if ev.Start? then
      && IterateOutcome(Goal(Close(m, maxDepth), place, use, base), ok, visited, after, info)
      && (ok ==> ev2 == End(ev.kind))
    else ok && visited == [] && after == m && ev2 == ev && info == base
  }

  /** Behind a container that has been iterated to its end the iterator stands at its own level again. */
  lemma BehindNested(m: Machine, ev: Event, level: int, kind: Kind, g: Goal,
                     ok: bool, visited: seq<Event>, after: Machine, info: SkipInfo, maxDepth: int)
    requires Delivered(m, ev, level, kind) && ev.Start? && g.c == Close(m, maxDepth)
    requires IterateOutcome(g, ok, visited, after, info)
    ensures if ok then g.c.Closed? && after == g.c.m && Inside(after) else g.c.Broken?
    ensures ok ==> forall end :: Delivered(after, End(end), level, kind)
  {
    hide Close, Visits, Skips;
  }

  /** The progress made when the current item has been left alone. */
  lemma LeftAlone(g: Goal, m: Machine, ev: Event, at: Done, maxDepth: int)
    requires Arrived(g, m, ev, at, maxDepth) && !Chosen(g, ev, at)
    ensures Progress(g, m, ev, true, Done(at.next + 1, at.visited + [ev], at.info), maxDepth)
  {
    hide Close, Todo, Skips, Visits, Add;
  }

  /** The progress made when the current item has been used. */
  lemma DealtNested(g: Goal, m: Machine, ev: Event, at: Done, maxDepth: int,
                    ok: bool, below: seq<Event>, after: Machine, end: Event, info2: SkipInfo)
    requires Arrived(g, m, ev, at, maxDepth) && Chosen(g, ev, at)
    requires Used(m, ev, g.path + [at.next], g.use, at.info, maxDepth, ok, below, after, end, info2)
    ensures !ok ==> g.c.Broken? && after == Failed
    ensures ok ==> Inside(after) && after.Unread() <= m.Unread() && (end.Value? || end.End?)
    ensures ok ==> Progress(g, after, end, false, Done(at.next + 1, at.visited + [ev] + below, info2), maxDepth)
  {
    hide Step, Todo, Skips, Visits, Add;
    assert at.visited + [ev] + [] == at.visited + [ev];
  }

  /** What reading on to the end of the iterated container does to the path buffer. */
  function GoFit(m: Machine, ev: Event, skip: bool, capacity: nat, maxDepth: int): Fit
    requires Inside(m)
  {
    if skip then ItemFit(m, ev, capacity, maxDepth) else CloseFit(m, capacity, maxDepth)
  }

  /** One advance takes its part of that. */
  lemma AdvanceFit(m: Machine, ev: Event, skip: bool, level: int, kind: Kind, capacity: nat, maxDepth: int,
                   base: SkipInfo, after: Machine, ev2: Event, info: SkipInfo, more: bool)
    requires AtItem(m, ev, skip, level, kind) && NextFit(m, ev, skip, capacity, maxDepth).Fit?
    requires NextOutcome(m, ev, skip, maxDepth, base, after, ev2, info, more)
    ensures var grown := NextFit(m, ev, skip, capacity, maxDepth).capacity;
      GoFit(m, ev, skip, capacity, maxDepth) ==
        if more && Inside(after) then ItemFit(after, ev2, grown, maxDepth) else Fit(grown)
  {
    hide Step, Close, CloseFit, Overruns, CapacityAfter, Add, Current;
    var left := LeaveFit(m, ev, skip, capacity, maxDepth);
    if !(skip && ev.Start? && Close(m, maxDepth).Broken?) {
      CloseFitCases(if skip && ev.Start? then Close(m, maxDepth).m else m, left.capacity, maxDepth);
    }
  }

  lemma AdvanceOverruns(m: Machine, ev: Event, skip: bool, level: int, kind: Kind, capacity: nat, maxDepth: int)
    requires AtItem(m, ev, skip, level, kind) && NextFit(m, ev, skip, capacity, maxDepth).Overrun?
    ensures GoFit(m, ev, skip, capacity, maxDepth).Overrun?
  {
    hide Step, Close, CloseFit, Overruns, CapacityAfter;
    var left := LeaveFit(m, ev, skip, capacity, maxDepth);
    if left.Fit? {
      CloseFitCases(if skip && ev.Start? then Close(m, maxDepth).m else m, left.capacity, maxDepth);
    }
  }

  // ------------------------------------------------------------ objects

  /** Between two advances of it: what is left completes the iteration. */
  ghost predicate ObjectGoes(p: Utf8JsonParser, it: JObj, g: Goal, next: nat, visited: seq<Event>)
    reads it, p, p.input, p.input.buf, p.input.inputArray
  {
    && p.Settled() && it.Consistent(p) && p.lastEvent != ErrorEvent && Inside(p.M())
    && var ev, skip := p.Observed(p.lastEvent), it.hasIterated && !it.usedMember;
      && AtItem(p.M(), ev, skip, it.expectedLevel, ObjectKind)
      && Progress(g, p.M(), ev, skip, Done(next, visited, p.skipInfo), p.maxDepth)
  }

  /** After an advance that delivered an item. */
  ghost predicate ObjectItem(p: Utf8JsonParser, it: JObj, g: Goal, next: nat, visited: seq<Event>)
    reads it, p, p.input, p.input.buf, p.input.inputArray
  {
    && p.Settled() && it.hasIterated && !it.usedMember
    && var ev := p.Observed(p.lastEvent);
      && (ev.Value? || ev.Start?) && Delivered(p.M(), ev, it.expectedLevel, ObjectKind)
      && Arrived(g, p.M(), ev, Done(next, visited, p.skipInfo), p.maxDepth)
  }

  lemma ObjectBegins(p: Utf8JsonParser, it: JObj, path: seq<nat>, use: Choice)
    requires p.Settled() && p.lastEvent == ObjectStart
    requires !it.hasIterated && !it.usedMember && it.expectedLevel == p.stateLevel
    ensures ObjectGoes(p, it, Goal(Close(p.M(), p.maxDepth), path, use, p.skipInfo), 0, [])
  {
    hide Close, Visits, Skips;
    var g := Goal(Close(p.M(), p.maxDepth), path, use, p.skipInfo);
    if g.c.Closed? {
      assert [] + Visits(g.c.items, path, 0, use) == Visits(g.c.items, path, 0, use);
    }
  }

  /** Once an item has been dealt with the iterator may advance. */
  lemma ObjectGoesOn(p: Utf8JsonParser, it: JObj, g: Goal, next: nat, visited: seq<Event>)
    requires p.Settled() && it.hasIterated
    requires var ev := p.Observed(p.lastEvent);
      && Delivered(p.M(), ev, it.expectedLevel, ObjectKind)
      && (ev.Value? || (ev.Start? && !it.usedMember) || (ev.End? && it.usedMember))
      && Progress(g, p.M(), ev, !it.usedMember, Done(next, visited, p.skipInfo), p.maxDepth)
    ensures ObjectGoes(p, it, g, next, visited) && Inside(p.M())
  {
    hide Progress, FramesOf, Encodes, Utf8JsonParser.Agrees;
    InItsPlace(p, p.Observed(p.lastEvent), it.expectedLevel, ObjectKind);
  }

  /** One advance of the iterator. */
  method AdvanceMember(p: Utf8JsonParser, it: JObj, ghost g: Goal, ghost next: nat, ghost visited: seq<Event>)
    returns (r: Outcome<bool>)
    requires ObjectGoes(p, it, g, next, visited)
    modifies it`hasIterated, it`usedMember, p, p.input, p.input.buf
    ensures p.Ready() && p.maxDepth == old(p.maxDepth) && p.input.inputArray == old(p.input.inputArray)
    ensures r.Ok? ==> p.Settled()
    ensures r == Ok(true) ==> ObjectItem(p, it, g, next, visited) && p.M().Unread() < old(p.M().Unread())
    ensures r == Ok(false) ==> IterateOutcome(g, p.lastEvent == ObjectEnd, visited, p.M(), p.skipInfo)
    ensures r == Ok(false) ==> p.lastEvent == ObjectEnd || p.lastEvent == ErrorEvent
    ensures var fit := GoFit(old(p.M()), old(p.Observed(p.lastEvent)), old(it.hasIterated && !it.usedMember),
                             old(p.pathCapacity), p.maxDepth);
      match r
      case Throw(e) => e == IndexOutOfRange && fit.Overrun?
      case Ok(more) =>
        fit == if more then ItemFit(p.M(), p.Observed(p.lastEvent), p.pathCapacity, p.maxDepth)
               else Fit(p.pathCapacity)
  {
    hide Step, Close, CloseFit, GoFit, ItemFit, NextFit, Progress, Arrived, NextOutcome, Delivered, AtItem;
    hide FramesOf, Encodes, IterateOutcome;
    hide Utf8JsonParser.Agrees, Utf8JsonParser.Live, Utf8JsonParser.Frames, Utf8JsonParser.KeyAt;
    hide JObj.Consistent, JObj.InPlace;
    ghost var m, ev0, skip := p.M(), p.Observed(p.lastEvent), it.hasIterated && !it.usedMember;
    ghost var at := Done(next, visited, p.skipInfo);
    ghost var capacity := p.pathCapacity;
    r := it.NextObjectMember(p);
    if r.Throw? {
      AdvanceOverruns(m, ev0, skip, it.expectedLevel, ObjectKind, capacity, p.maxDepth);
      return;
    }
    var more := r.value;
    ghost var ev := p.Observed(p.lastEvent);
    Advance(g, m, ev0, skip, at, p.maxDepth, p.M(), ev, p.skipInfo, more);
    NextDelivers(m, ev0, skip, it.expectedLevel, ObjectKind, p.maxDepth, at.info, p.M(), ev, p.skipInfo, more);
    AdvanceFit(m, ev0, skip, it.expectedLevel, ObjectKind, capacity, p.maxDepth, at.info, p.M(), ev, p.skipInfo, more);
  }

  lemma MemberInPlace(p: Utf8JsonParser, it: JObj, ev: Event)
    requires p.Settled() && Delivered(p.M(), ev, it.expectedLevel, ObjectKind) && p.Observed(p.lastEvent) == ev
    requires it.hasIterated
    ensures it.InPlace(p) && (ev.Start? <==> IsStart(p.lastEvent))
  {
    InItsPlace(p, ev, it.expectedLevel, ObjectKind);
  }

  /** Uses the current item of it. */
  method UseMemberItem(p: Utf8JsonParser, it: JObj, use: Choice, place: seq<nat>, ghost ev: Event)
    returns (r: Outcome<(bool, seq<Event>)>)
    requires p.Settled() && p.Observed(p.lastEvent) == ev && (ev.Value? || ev.Start?)
    requires Delivered(p.M(), ev, it.expectedLevel, ObjectKind) && it.hasIterated && !it.usedMember
    modifies it`usedMember, p, p.input, p.input.buf
    ensures p.Ready() && p.maxDepth == old(p.maxDepth) && p.input.inputArray == old(p.input.inputArray)
    ensures r.Ok? ==> p.Settled() && it.usedMember
    ensures r.Ok? ==> Used(old(p.M()), ev, place, use, old(p.skipInfo), p.maxDepth,
                           r.value.0, r.value.1, p.M(), p.Observed(p.lastEvent), p.skipInfo)
    ensures r.Ok? && r.value.0 ==> Delivered(p.M(), p.Observed(p.lastEvent), it.expectedLevel, ObjectKind)
    ensures r.Ok? && !r.value.0 ==> p.lastEvent == ErrorEvent
    ensures var fit := ItemFit(old(p.M()), ev, old(p.pathCapacity), p.maxDepth);
      match r
      case Throw(e) => e == IndexOutOfRange && fit.Overrun?
      case Ok((ok, _)) => fit == if ok then CloseFit(p.M(), p.pathCapacity, p.maxDepth) else Fit(p.pathCapacity)
    decreases p.M().Unread(), 1
  {
    hide Step, Close, CloseFit, Visits, Skips, Add, FramesOf, Encodes, IterateOutcome, Delivered;
    hide Utf8JsonParser.Agrees, Utf8JsonParser.Live, Utf8JsonParser.Frames, Utf8JsonParser.M, JObj.InPlace;
    ghost var m, base := p.M(), p.skipInfo;
    MemberInPlace(p, it, ev);
    if p.lastEvent == ObjectStart {
      var used, obj := it.UseMemberObj(p, p.key);
      assert used == Ok(true);
      r := IterateObject(p, obj, use, place);
      if r.Ok? {
        BehindNested(m, ev, it.expectedLevel, ObjectKind, Goal(Close(m, p.maxDepth), place, use, base),
                     r.value.0, r.value.1, p.M(), p.skipInfo, p.maxDepth);
      }
    } else if p.lastEvent == ArrayStart {
      var used, arr := it.UseMemberArr(p, p.key);
      assert used == Ok(true);
      r := IterateArray(p, arr, use, place);
      if r.Ok? {
        BehindNested(m, ev, it.expectedLevel, ObjectKind, Goal(Close(m, p.maxDepth), place, use, base),
                     r.value.0, r.value.1, p.M(), p.skipInfo, p.maxDepth);
      }
    } else {
      var used := it.UseMemberValue(p, p.lastEvent, p.key);
      assert used == Ok(true);
      return Ok((true, []));
    }
  }

  /** Uses the current item or leaves it alone, as the caller chooses for its place. */
  method DealMember(p: Utf8JsonParser, it: JObj, use: Choice, path: seq<nat>, next: nat,
                    ghost g: Goal, ghost visited: seq<Event>) returns (r: Outcome<(bool, seq<Event>)>)
    requires ObjectItem(p, it, g, next, visited) && g.use == use && g.path == path
    modifies it`usedMember, p, p.input, p.input.buf
    ensures p.Ready() && p.maxDepth == old(p.maxDepth) && p.input.inputArray == old(p.input.inputArray)
    ensures r.Ok? ==> p.Settled() && p.M().Unread() <= old(p.M().Unread())
    ensures r.Ok? && r.value.0 ==> ObjectGoes(p, it, g, next + 1, visited + r.value.1)
    ensures r.Ok? && r.value.0 ==> Inside(p.M()) && it.hasIterated
    ensures r.Ok? && !r.value.0 ==> g.c.Broken? && p.M() == Failed && p.lastEvent == ErrorEvent
    ensures var fit := ItemFit(old(p.M()), old(p.Observed(p.lastEvent)), old(p.pathCapacity), p.maxDepth);
      match r
      case Throw(e) => e == IndexOutOfRange && fit.Overrun?
      case Ok((ok, _)) =>
        fit == if ok then GoFit(p.M(), p.Observed(p.lastEvent), !it.usedMember, p.pathCapacity, p.maxDepth)
               else Fit(p.pathCapacity)
    decreases p.M().Unread(), 2
  {
    hide Step, Close, CloseFit, Progress, Arrived, Delivered, Used, Visits, Skips, Add, FramesOf, Encodes;
    hide Utf8JsonParser.Agrees, Utf8JsonParser.Live, Utf8JsonParser.Frames, Utf8JsonParser.KeyAt, ObjectGoes;
    var ev := p.Observed(p.lastEvent);
    ghost var m, at := p.M(), Done(next, visited, p.skipInfo);
    if !use(path + [next], ev) {
      LeftAlone(g, m, ev, at, p.maxDepth);
      ObjectGoesOn(p, it, g, next + 1, visited + [ev]);
      return Ok((true, [ev]));
    }
    var used :- UseMemberItem(p, it, use, path + [next], ev);
    DealtNested(g, m, ev, at, p.maxDepth, used.0, used.1, p.M(), p.Observed(p.lastEvent), p.skipInfo);
    if !used.0 {
      return Ok((false, []));
    }
    assert visited + [ev] + used.1 == visited + ([ev] + used.1);
    ObjectGoesOn(p, it, g, next + 1, visited + ([ev] + used.1));
    return Ok((true, [ev] + used.1));
  }

  /** Iterates an object with it from its start event to its end event. */
  method IterateObject(p: Utf8JsonParser, it: JObj, use: Choice, path: seq<nat>)
    returns (r: Outcome<(bool, seq<Event>)>)
    requires p.Settled() && p.lastEvent == ObjectStart
    requires !it.hasIterated && !it.usedMember && it.expectedLevel == p.stateLevel
    modifies it`hasIterated, it`usedMember, p, p.input, p.input.buf
    ensures p.Ready() && p.maxDepth == old(p.maxDepth) && p.input.inputArray == old(p.input.inputArray)
    ensures r.Ok? ==> p.Settled()
    ensures r.Ok? ==> IterateOutcome(Goal(Close(old(p.M()), p.maxDepth), path, use, old(p.skipInfo)),
                                     r.value.0, r.value.1, p.M(), p.skipInfo)
    ensures r.Ok? ==> SkipsCounted(Goal(Close(old(p.M()), p.maxDepth), path, use, old(p.skipInfo)), p.skipInfo)
    ensures r.Ok? ==> p.lastEvent == if r.value.0 then ObjectEnd else ErrorEvent
    ensures Spent(r, CloseFit(old(p.M()), old(p.pathCapacity), p.maxDepth), p.pathCapacity)
    decreases p.M().Unread(), 0
  {
    hide Step, Close, CloseFit, ItemFit, ObjectGoes, ObjectItem, FramesOf, Encodes, Visits, Skips, Add;
    hide Grew, SkippedEvents, Utf8JsonParser.Agrees;
    ghost var g := Goal(Close(p.M(), p.maxDepth), path, use, p.skipInfo);
    ghost var fit := CloseFit(p.M(), p.pathCapacity, p.maxDepth);
    var visited: seq<Event> := [];
    var next := 0;
    ObjectBegins(p, it, path, use);
    while true
      invariant p.Settled() && p.maxDepth == old(p.maxDepth) && p.input.inputArray == old(p.input.inputArray)
      invariant ObjectGoes(p, it, g, next, visited) && Inside(p.M())
      invariant p.M().Unread() <= old(p.M().Unread())
      invariant GoFit(p.M(), p.Observed(p.lastEvent), it.hasIterated && !it.usedMember, p.pathCapacity, p.maxDepth)
        == fit
      decreases p.M().Unread()
    {
      var more :- AdvanceMember(p, it, g, next, visited);
      if !more {
        IterationGrew(g, p.lastEvent == ObjectEnd, visited, p.M(), p.skipInfo);
        return Ok((p.lastEvent == ObjectEnd, visited));
      }
      var dealt :- DealMember(p, it, use, path, next, g, visited);
      if !dealt.0 {
        IterationGrew(g, false, visited, p.M(), p.skipInfo);
        return Ok((false, visited));
      }
      visited := visited + dealt.1;
      next := next + 1;
    }
  }

  // ------------------------------------------------------------ arrays

  /** Between two advances of it: what is left completes the iteration. */
  ghost predicate ArrayGoes(p: Utf8JsonParser, it: JArr, g: Goal, next: nat, visited: seq<Event>)
    reads it, p, p.input, p.input.buf, p.input.inputArray
  {
    && p.Settled() && it.Consistent(p) && p.lastEvent != ErrorEvent && Inside(p.M())
    && var ev, skip := p.Observed(p.lastEvent), it.hasIterated && !it.usedMember;
      && AtItem(p.M(), ev, skip, it.expectedLevel, ArrayKind)
      && Progress(g, p.M(), ev, skip, Done(next, visited, p.skipInfo), p.maxDepth)
  }

  /** After an advance that delivered an item. */
  ghost predicate ArrayItem(p: Utf8JsonParser, it: JArr, g: Goal, next: nat, visited: seq<Event>)
    reads it, p, p.input, p.input.buf, p.input.inputArray
  {
    && p.Settled() && it.hasIterated && !it.usedMember
    && var ev := p.Observed(p.lastEvent);
      && (ev.Value? || ev.Start?) && Delivered(p.M(), ev, it.expectedLevel, ArrayKind)
      && Arrived(g, p.M(), ev, Done(next, visited, p.skipInfo), p.maxDepth)
  }

  lemma ArrayBegins(p: Utf8JsonParser, it: JArr, path: seq<nat>, use: Choice)
    requires p.Settled() && p.lastEvent == ArrayStart
    requires !it.hasIterated && !it.usedMember && it.expectedLevel == p.stateLevel
    ensures ArrayGoes(p, it, Goal(Close(p.M(), p.maxDepth), path, use, p.skipInfo), 0, [])
  {
    hide Close, Visits, Skips;
    var g := Goal(Close(p.M(), p.maxDepth), path, use, p.skipInfo);
    if g.c.Closed? {
      assert [] + Visits(g.c.items, path, 0, use) == Visits(g.c.items, path, 0, use);
    }
  }

  /** Once an item has been dealt with the iterator may advance. */
  lemma ArrayGoesOn(p: Utf8JsonParser, it: JArr, g: Goal, next: nat, visited: seq<Event>)
    requires p.Settled() && it.hasIterated
    requires var ev := p.Observed(p.lastEvent);
      && Delivered(p.M(), ev, it.expectedLevel, ArrayKind)
      && (ev.Value? || (ev.Start? && !it.usedMember) || (ev.End? && it.usedMember))
      && Progress(g, p.M(), ev, !it.usedMember, Done(next, visited, p.skipInfo), p.maxDepth)
    ensures ArrayGoes(p, it, g, next, visited) && Inside(p.M())
  {
    hide Progress, FramesOf, Encodes, Utf8JsonParser.Agrees;
    InItsPlace(p, p.Observed(p.lastEvent), it.expectedLevel, ArrayKind);
  }

  /** One advance of the iterator. */
  method AdvanceElement(p: Utf8JsonParser, it: JArr, ghost g: Goal, ghost next: nat, ghost visited: seq<Event>)
    returns (r: Outcome<bool>)
    requires ArrayGoes(p, it, g, next, visited)
    modifies it`hasIterated, it`usedMember, p, p.input, p.input.buf
    ensures p.Ready() && p.maxDepth == old(p.maxDepth) && p.input.inputArray == old(p.input.inputArray)
    ensures r.Ok? ==> p.Settled()
    ensures r == Ok(true) ==> ArrayItem(p, it, g, next, visited) && p.M().Unread() < old(p.M().Unread())
    ensures r == Ok(false) ==> IterateOutcome(g, p.lastEvent == ArrayEnd, visited, p.M(), p.skipInfo)
    ensures r == Ok(false) ==> p.lastEvent == ArrayEnd || p.lastEvent == ErrorEvent
    ensures var fit := GoFit(old(p.M()), old(p.Observed(p.lastEvent)), old(it.hasIterated && !it.usedMember),
                             old(p.pathCapacity), p.maxDepth);
      match r
      case Throw(e) => e == IndexOutOfRange && fit.Overrun?
      case Ok(more) =>
        fit == if more then ItemFit(p.M(), p.Observed(p.lastEvent), p.pathCapacity, p.maxDepth)
               else Fit(p.pathCapacity)
  {
    hide Step, Close, CloseFit, GoFit, ItemFit, NextFit, Progress, Arrived, NextOutcome, Delivered, AtItem;
    hide FramesOf, Encodes, IterateOutcome;
    hide Utf8JsonParser.Agrees, Utf8JsonParser.Live, Utf8JsonParser.Frames, Utf8JsonParser.KeyAt;
    hide JArr.Consistent, JArr.InPlace;
    ghost var m, ev0, skip := p.M(), p.Observed(p.lastEvent), it.hasIterated && !it.usedMember;
    ghost var at := Done(next, visited, p.skipInfo);
    ghost var capacity := p.pathCapacity;
    r := it.NextArrayElement(p);
    if r.Throw? {
      AdvanceOverruns(m, ev0, skip, it.expectedLevel, ArrayKind, capacity, p.maxDepth);
      return;
    }
    var more := r.value;
    ghost var ev := p.Observed(p.lastEvent);
    Advance(g, m, ev0, skip, at, p.maxDepth, p.M(), ev, p.skipInfo, more);
    NextDelivers(m, ev0, skip, it.expectedLevel, ArrayKind, p.maxDepth, at.info, p.M(), ev, p.skipInfo, more);
    AdvanceFit(m, ev0, skip, it.expectedLevel, ArrayKind, capacity, p.maxDepth, at.info, p.M(), ev, p.skipInfo, more);
  }

  lemma ElementInPlace(p: Utf8JsonParser, it: JArr, ev: Event)
    requires p.Settled() && Delivered(p.M(), ev, it.expectedLevel, ArrayKind) && p.Observed(p.lastEvent) == ev
    requires it.hasIterated
    ensures it.InPlace(p) && (ev.Start? <==> IsStart(p.lastEvent))
  {
    InItsPlace(p, ev, it.expectedLevel, ArrayKind);
  }

  /** Uses the current item of it. */
  method UseElementItem(p: Utf8JsonParser, it: JArr, use: Choice, place: seq<nat>, ghost ev: Event)
    returns (r: Outcome<(bool, seq<Event>)>)
    requires p.Settled() && p.Observed(p.lastEvent) == ev && (ev.Value? || ev.Start?)
    requires Delivered(p.M(), ev, it.expectedLevel, ArrayKind) && it.hasIterated && !it.usedMember
    modifies it`usedMember, p, p.input, p.input.buf
    ensures p.Ready() && p.maxDepth == old(p.maxDepth) && p.input.inputArray == old(p.input.inputArray)
    ensures r.Ok? ==> p.Settled() && it.usedMember
    ensures r.Ok? ==> Used(old(p.M()), ev, place, use, old(p.skipInfo), p.maxDepth,
                           r.value.0, r.value.1, p.M(), p.Observed(p.lastEvent), p.skipInfo)
    ensures r.Ok? && r.value.0 ==> Delivered(p.M(), p.Observed(p.lastEvent), it.expectedLevel, ArrayKind)
    ensures r.Ok? && !r.value.0 ==> p.lastEvent == ErrorEvent
    ensures var fit := ItemFit(old(p.M()), ev, old(p.pathCapacity), p.maxDepth);
      match r
      case Throw(e) => e == IndexOutOfRange && fit.Overrun?
      case Ok((ok, _)) => fit == if ok then CloseFit(p.M(), p.pathCapacity, p.maxDepth) else Fit(p.pathCapacity)
    decreases p.M().Unread(), 1
  {
    hide Step, Close, CloseFit, Visits, Skips, Add, FramesOf, Encodes, IterateOutcome, Delivered;
    hide Utf8JsonParser.Agrees, Utf8JsonParser.Live, Utf8JsonParser.Frames, Utf8JsonParser.M, JArr.InPlace;
    ghost var m, base := p.M(), p.skipInfo;
    ElementInPlace(p, it, ev);
    if p.lastEvent == ObjectStart {
      var used, obj := it.UseElementObj(p);
      assert used == Ok(true);
      r := IterateObject(p, obj, use, place);
      if r.Ok? {
        BehindNested(m, ev, it.expectedLevel, ArrayKind, Goal(Close(m, p.maxDepth), place, use, base),
                     r.value.0, r.value.1, p.M(), p.skipInfo, p.maxDepth);
      }
    } else if p.lastEvent == ArrayStart {
      var used, arr := it.UseElementArr(p);
      assert used == Ok(true);
      r := IterateArray(p, arr, use, place);
      if r.Ok? {
        BehindNested(m, ev, it.expectedLevel, ArrayKind, Goal(Close(m, p.maxDepth), place, use, base),
                     r.value.0, r.value.1, p.M(), p.skipInfo, p.maxDepth);
      }
    } else {
      var used := it.UseElementValue(p, p.lastEvent);
      assert used == Ok(true);
      return Ok((true, []));
    }
  }

  /** Uses the current item or leaves it alone, as the caller chooses for its place. */
  method DealElement(p: Utf8JsonParser, it: JArr, use: Choice, path: seq<nat>, next: nat,
                    ghost g: Goal, ghost visited: seq<Event>) returns (r: Outcome<(bool, seq<Event>)>)
    requires ArrayItem(p, it, g, next, visited) && g.use == use && g.path == path
    modifies it`usedMember, p, p.input, p.input.buf
    ensures p.Ready() && p.maxDepth == old(p.maxDepth) && p.input.inputArray == old(p.input.inputArray)
    ensures r.Ok? ==> p.Settled() && p.M().Unread() <= old(p.M().Unread())
    ensures r.Ok? && r.value.0 ==> ArrayGoes(p, it, g, next + 1, visited + r.value.1)
    ensures r.Ok? && r.value.0 ==> Inside(p.M()) && it.hasIterated
    ensures r.Ok? && !r.value.0 ==> g.c.Broken? && p.M() == Failed && p.lastEvent == ErrorEvent
    ensures var fit := ItemFit(old(p.M()), old(p.Observed(p.lastEvent)), old(p.pathCapacity), p.maxDepth);
      match r
      case Throw(e) => e == IndexOutOfRange && fit.Overrun?
      case Ok((ok, _)) =>
        fit == if ok then GoFit(p.M(), p.Observed(p.lastEvent), !it.usedMember, p.pathCapacity, p.maxDepth)
               else Fit(p.pathCapacity)
    decreases p.M().Unread(), 2
  {
    hide Step, Close, CloseFit, Progress, Arrived, Delivered, Used, Visits, Skips, Add, FramesOf, Encodes;
    hide Utf8JsonParser.Agrees, Utf8JsonParser.Live, Utf8JsonParser.Frames, Utf8JsonParser.KeyAt, ArrayGoes;
    var ev := p.Observed(p.lastEvent);
    ghost var m, at := p.M(), Done(next, visited, p.skipInfo);
    if !use(path + [next], ev) {
      LeftAlone(g, m, ev, at, p.maxDepth);
      ArrayGoesOn(p, it, g, next + 1, visited + [ev]);
      return Ok((true, [ev]));
    }
    var used :- UseElementItem(p, it, use, path + [next], ev);
    DealtNested(g, m, ev, at, p.maxDepth, used.0, used.1, p.M(), p.Observed(p.lastEvent), p.skipInfo);
    if !used.0 {
      return Ok((false, []));
    }
    assert visited + [ev] + used.1 == visited + ([ev] + used.1);
    ArrayGoesOn(p, it, g, next + 1, visited + ([ev] + used.1));
    return Ok((true, [ev] + used.1));
  }

  /** Iterates an array with it from its start event to its end event. */
  method IterateArray(p: Utf8JsonParser, it: JArr, use: Choice, path: seq<nat>)
    returns (r: Outcome<(bool, seq<Event>)>)
    requires p.Settled() && p.lastEvent == ArrayStart
    requires !it.hasIterated && !it.usedMember && it.expectedLevel == p.stateLevel
    modifies it`hasIterated, it`usedMember, p, p.input, p.input.buf
    ensures p.Ready() && p.maxDepth == old(p.maxDepth) && p.input.inputArray == old(p.input.inputArray)
    ensures r.Ok? ==> p.Settled()
    ensures r.Ok? ==> IterateOutcome(Goal(Close(old(p.M()), p.maxDepth), path, use, old(p.skipInfo)),
                                     r.value.0, r.value.1, p.M(), p.skipInfo)
    ensures r.Ok? ==> SkipsCounted(Goal(Close(old(p.M()), p.maxDepth), path, use, old(p.skipInfo)), p.skipInfo)
    ensures r.Ok? ==> p.lastEvent == if r.value.0 then ArrayEnd else ErrorEvent
    ensures Spent(r, CloseFit(old(p.M()), old(p.pathCapacity), p.maxDepth), p.pathCapacity)
    decreases p.M().Unread(), 0
  {
    hide Step, Close, CloseFit, ItemFit, ArrayGoes, ArrayItem, FramesOf, Encodes, Visits, Skips, Add;
    hide Grew, SkippedEvents, Utf8JsonParser.Agrees;
    ghost var g := Goal(Close(p.M(), p.maxDepth), path, use, p.skipInfo);
    ghost var fit := CloseFit(p.M(), p.pathCapacity, p.maxDepth);
    var visited: seq<Event> := [];
    var next := 0;
    ArrayBegins(p, it, path, use);
    while true
      invariant p.Settled() && p.maxDepth == old(p.maxDepth) && p.input.inputArray == old(p.input.inputArray)
      invariant ArrayGoes(p, it, g, next, visited) && Inside(p.M())
      invariant p.M().Unread() <= old(p.M().Unread())
      invariant GoFit(p.M(), p.Observed(p.lastEvent), it.hasIterated && !it.usedMember, p.pathCapacity, p.maxDepth)
        == fit
      decreases p.M().Unread()
    {
      var more :- AdvanceElement(p, it, g, next, visited);
      if !more {
        IterationGrew(g, p.lastEvent == ArrayEnd, visited, p.M(), p.skipInfo);
        return Ok((p.lastEvent == ArrayEnd, visited));
      }
      var dealt :- DealElement(p, it, use, path, next, g, visited);
      if !dealt.0 {
        IterationGrew(g, false, visited, p.M(), p.skipInfo);
        return Ok((false, visited));
      }
      visited := visited + dealt.1;
      next := next + 1;
    }
  }
}
