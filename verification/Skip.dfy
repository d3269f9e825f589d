/** Skipping the rest of a container, a whole tree or the current event, counting the skipped nodes. */
module Skip {
  import opened Ascii
  import opened Lexer
  import opened Tree
  import opened Machine
  import opened Containers
  import opened ParserState
  import opened Outcome
  import opened Parser
  import opened PathSafety

  // ------------------------------------------------------------ node counts of trees

  const ONE_OBJECT := NO_SKIPS.(objects := 1)
  const ONE_ARRAY := NO_SKIPS.(arrays := 1)

  function Add(a: SkipInfo, b: SkipInfo): SkipInfo {
    SkipInfo(a.arrays + b.arrays, a.booleans + b.booleans, a.floats + b.floats, a.integers + b.integers,
             a.nulls + b.nulls, a.objects + b.objects, a.strings + b.strings)
  }

  function CountScalar(v: Scalar): SkipInfo {
    match v
    case Str(_) => NO_SKIPS.(strings := 1)
    case Num(text) => if IsFloat(text) then NO_SKIPS.(floats := 1) else NO_SKIPS.(integers := 1)
    case Bool(_) => NO_SKIPS.(booleans := 1)
    case Null => NO_SKIPS.(nulls := 1)
  }

  function CountContainer(kind: Kind): SkipInfo {
    if kind.ObjectKind? then ONE_OBJECT else ONE_ARRAY
  }

  /** The number of nodes of a tree by category. */
  function Count(t: Json): SkipInfo {
    match t
    case Leaf(v) => CountScalar(v)
    case Node(kind, items) => Add(CountContainer(kind), CountItems(items))
  }

  function CountItems(items: Items): SkipInfo {
    match items
    case Nil => NO_SKIPS
    case Cons(_, v, tail) => Add(Count(v), CountItems(tail))
  }

  // ------------------------------------------------------------ counters as numbers of events

  datatype Category = Arrays | Booleans | Floats | Integers | Nulls | Objects | Strings

  /** A number with a dot, an e or an E behind its first character. */
  predicate IsFloatText(text: seq<byte>) {
    exists i :: 1 <= i < |text| && (text[i] == 46 || text[i] == 69 || text[i] == 101)
  }

  /** The events of a category. */
  predicate IsOf(ev: Event, c: Category) {
    match c
    case Arrays => ev.Start? && ev.kind == ArrayKind
    case Booleans => ev.Value? && ev.v.Bool?
    case Floats => ev.Value? && ev.v.Num? && IsFloatText(ev.v.text)
    case Integers => ev.Value? && ev.v.Num? && !IsFloatText(ev.v.text)
    case Nulls => ev.Value? && ev.v.Null?
    case Objects => ev.Start? && ev.kind == ObjectKind
    case Strings => ev.Value? && ev.v.Str?
  }

  function Number(evs: seq<Event>, c: Category): nat {
    if evs == [] then 0 else (if IsOf(evs[0], c) then 1 else 0) + Number(evs[1..], c)
  }

  function Counter(info: SkipInfo, c: Category): int {
    match c
    case Arrays => info.arrays
    case Booleans => info.booleans
    case Floats => info.floats
    case Integers => info.integers
    case Nulls => info.nulls
    case Objects => info.objects
    case Strings => info.strings
  }

  /** Each counter has grown by the number of events of its category. */
  predicate Grew(base: SkipInfo, evs: seq<Event>, info: SkipInfo) {
    forall c :: Counter(info, c) == Counter(base, c) + Number(evs, c)
  }

  lemma {:induction false} NumberConcat(a: seq<Event>, b: seq<Event>, c: Category)
    ensures Number(a + b, c) == Number(a, c) + Number(b, c)
  {
    hide IsOf;
    if a == [] {
      assert a + b == b;
    } else {
      assert (a + b)[1..] == a[1..] + b;
      NumberConcat(a[1..], b, c);
    }
  }

  lemma NumberNone(c: Category)
    ensures Number([], c) == 0
  {
  }

  lemma CounterAdds(a: SkipInfo, b: SkipInfo, c: Category)
    ensures Counter(Add(a, b), c) == Counter(a, c) + Counter(b, c) && Counter(NO_SKIPS, c) == 0
  {
  }

  lemma CountsOneValue(key: Label, v: Scalar, c: Category)
    ensures Counter(CountScalar(v), c) == Number([Value(key, v)], c)
  {
    assert v.Num? ==> (IsFloat(v.text) <==> IsFloatText(v.text)) by {
      assert v.Num? ==> forall i :: 0 <= i < |v.text| ==>
        (IsFloatChar(v.text[i]) <==> v.text[i] == 46 || v.text[i] == 69 || v.text[i] == 101);
    }
    assert [Value(key, v)][1..] == [];
  }

  lemma CountsOneStart(key: Label, kind: Kind, c: Category)
    ensures Counter(CountContainer(kind), c) == Number([Start(kind, key)], c) && Number([End(kind)], c) == 0
  {
    assert [Start(kind, key)][1..] == [] && [End(kind)][1..] == [];
  }

  /** The counts of a tree are the numbers of its events. */
  lemma {:induction false} CountIsNumber(key: Label, t: Json, c: Category)
    ensures Counter(Count(t), c) == Number(Events(key, t), c)
    decreases t
  {
    hide Number, Counter, Add, CountScalar, CountContainer;
    match t
    case Leaf(v) => CountsOneValue(key, v, c);
    case Node(kind, items) =>
      CountsOneStart(key, kind, c);
      CountItemsIsNumber(items, c);
      CounterAdds(CountContainer(kind), CountItems(items), c);
      NumberConcat([Start(kind, key)] + ItemsEvents(items), [End(kind)], c);
      NumberConcat([Start(kind, key)], ItemsEvents(items), c);
  }

  lemma {:induction false} CountItemsIsNumber(items: Items, c: Category)
    ensures Counter(CountItems(items), c) == Number(ItemsEvents(items), c)
    decreases items
  {
    hide Counter, Add, Count, Events;
    match items
    case Nil => CounterAdds(NO_SKIPS, NO_SKIPS, c);
    case Cons(key, v, tail) =>
      CountIsNumber(key, v, c);
      CountItemsIsNumber(tail, c);
      CounterAdds(Count(v), CountItems(tail), c);
      NumberConcat(Events(key, v), ItemsEvents(tail), c);
  }

  lemma GrewByValue(base: SkipInfo, key: Label, v: Scalar)
    ensures Grew(base, [Value(key, v)], Add(base, CountScalar(v)))
  {
    hide Number, Counter, Add, CountScalar;
    forall c
      ensures Counter(Add(base, CountScalar(v)), c) == Counter(base, c) + Number([Value(key, v)], c)
    {
      CountsOneValue(key, v, c);
      CounterAdds(base, CountScalar(v), c);
    }
  }

  lemma GrewByNode(base: SkipInfo, key: Label, kind: Kind, items: Items)
    ensures Grew(base, [Start(kind, key)] + ItemsEvents(items), Add(Add(base, CountContainer(kind)), CountItems(items)))
  {
    hide Number, Counter, Add, CountContainer, CountItems;
    var info := Add(Add(base, CountContainer(kind)), CountItems(items));
    forall c
      ensures Counter(info, c) == Counter(base, c) + Number([Start(kind, key)] + ItemsEvents(items), c)
    {
      CountsOneStart(key, kind, c);
      CountItemsIsNumber(items, c);
      CounterAdds(base, CountContainer(kind), c);
      CounterAdds(Add(base, CountContainer(kind)), CountItems(items), c);
      NumberConcat([Start(kind, key)], ItemsEvents(items), c);
    }
  }

  lemma GrewByNothing(base: SkipInfo)
    ensures Grew(base, [], base)
  {
  }

  /** What SkipTree skips: the start event and the rest of the innermost container, or the root value. */
  function SkippedTree(m: Machine, maxDepth: int): seq<Event> {
    if Inside(m) then SkippedRest(NoKey, m, maxDepth)
    else if m.Fresh? then
      var r := Step(m, maxDepth);
      if r.ev.Value? then [r.ev] else if Inside(r.m) then SkippedRest(NoKey, r.m, maxDepth) else []
    else []
  }

  function SkippedRest(key: Label, m: Machine, maxDepth: int): seq<Event>
    requires Inside(m)
  {
    match Close(m, maxDepth)
    case Broken => []
    case Closed(items, _) => [Start(KindOf(Top(m.frames)), key)] + ItemsEvents(items)
  }

  // ------------------------------------------------------------ skipping

  /** The rest of a container has been skipped: the machine is just after its end event and the counters
      have grown by the node counts of its items, or an error came first. */
  predicate SkipOutcome(c: Closing, base: SkipInfo, ok: bool, m: Machine, info: SkipInfo) {
    match c
    case Closed(items, after) => ok && m == after && info == Add(base, CountItems(items))
    case Broken => !ok && m == Failed
  }

  /** What is still to be skipped completes the counts: both readings end alike. */
  predicate Rest(c: Closing, base: SkipInfo, d: Closing, info: SkipInfo) {
    if c.Broken? then d.Broken?
    else d.Closed? && d.m == c.m && Add(info, CountItems(d.items)) == Add(base, CountItems(c.items))
  }

  lemma RestValue(c: Closing, base: SkipInfo, d: Closing, info: SkipInfo, key: Label, v: Scalar)
    requires d.Closed? ==> Rest(c, base, Closed(Cons(key, Leaf(v), d.items), d.m), info)
    requires d.Broken? ==> Rest(c, base, Broken, info)
    ensures Rest(c, base, d, Add(info, CountScalar(v)))
  {
    hide CountScalar;
    if d.Closed? {
      assert Count(Leaf(v)) == CountScalar(v);
    }
  }

  lemma RestNode(c: Closing, base: SkipInfo, d: Closing, info: SkipInfo, key: Label, kind: Kind, inner: Items)
    requires d.Closed? ==> Rest(c, base, Closed(Cons(key, Node(kind, inner), d.items), d.m), info)
    requires d.Broken? ==> Rest(c, base, Broken, info)
    ensures Rest(c, base, d, Add(Add(info, CountContainer(kind)), CountItems(inner)))
  {
    CountNode(key, kind, inner, if d.Closed? then d.items else Nil);
    hide Count, CountItems, CountContainer;
    if d.Closed? {
      AddAssociates(info, Add(CountContainer(kind), CountItems(inner)), CountItems(d.items));
      AddAssociates(info, CountContainer(kind), CountItems(inner));
    }
    hide Add;
  }

  lemma CountNode(key: Label, kind: Kind, inner: Items, tail: Items)
    ensures CountItems(Cons(key, Node(kind, inner), tail))
      == Add(Add(CountContainer(kind), CountItems(inner)), CountItems(tail))
  {
    assert Count(Node(kind, inner)) == Add(CountContainer(kind), CountItems(inner));
    hide Add, CountContainer;
  }

  lemma AddAssociates(a: SkipInfo, b: SkipInfo, c: SkipInfo)
    ensures Add(a, Add(b, c)) == Add(Add(a, b), c)
  {
  }

  /** At the end of the container the counts are complete. */
  lemma RestEnd(c: Closing, base: SkipInfo, d: Closing, info: SkipInfo)
    requires Rest(c, base, d, info)
    ensures d == Broken ==> c == Broken
    ensures d.Closed? && d.items == Nil ==> c.Closed? && c.m == d.m && info == Add(base, CountItems(c.items))
  {
  }

  lemma RestStart(c: Closing, base: SkipInfo)
    ensures Rest(c, base, c, base)
  {
  }

  lemma SkippedGrew(key: Label, m: Machine, maxDepth: int, base: SkipInfo, after: Machine, info: SkipInfo)
    requires Inside(m)
    requires var kind := KindOf(Top(m.frames));
      SkipOutcome(Close(m, maxDepth), Add(base, CountContainer(kind)), true, after, info)
    ensures Grew(base, SkippedRest(key, m, maxDepth), info)
  {
    hide Close, Grew, Add, CountContainer, CountItems, ItemsEvents;
    if Close(m, maxDepth).Closed? {
      GrewByNode(base, key, KindOf(Top(m.frames)), Close(m, maxDepth).items);
    }
  }

  method CountStart(p: Utf8JsonParser, kind: Kind)
    requires p.Valid()
    modifies p`skipInfo
    ensures p.Valid() && p.M() == old(p.M()) && p.skipInfo == Add(old(p.skipInfo), CountContainer(kind))
  {
    if kind == ObjectKind {
      p.skipInfo := p.skipInfo.(objects := p.skipInfo.objects + 1);
    } else {
      p.skipInfo := p.skipInfo.(arrays := p.skipInfo.arrays + 1);
    }
  }

  predicate IsValue(ev: JsonEvent) {
    ev == ValueString || ev == ValueNumber || ev == ValueBool || ev == ValueNull
  }

  predicate IsStart(ev: JsonEvent) {
    ev == ObjectStart || ev == ArrayStart
  }

  /** Counts the value the last event delivered. */
  method CountValue(p: Utf8JsonParser)
    requires p.Settled() && IsValue(p.lastEvent)
    modifies p`skipInfo
    ensures p.Settled() && p.M() == old(p.M())
    ensures p.skipInfo == Add(old(p.skipInfo), CountScalar(p.Observed(p.lastEvent).v))
  {
    if p.lastEvent == ValueString {
      p.skipInfo := p.skipInfo.(strings := p.skipInfo.strings + 1);
    } else if p.lastEvent == ValueNumber {
      if p.isFloat {
        p.skipInfo := p.skipInfo.(floats := p.skipInfo.floats + 1);
      } else {
        p.skipInfo := p.skipInfo.(integers := p.skipInfo.integers + 1);
      }
    } else if p.lastEvent == ValueBool {
      p.skipInfo := p.skipInfo.(booleans := p.skipInfo.booleans + 1);
    } else {
      p.skipInfo := p.skipInfo.(nulls := p.skipInfo.nulls + 1);
    }
  }

  /** The container being skipped: how it ends, the counters at its start, and what it does to the path
      buffer. */
  datatype Pending = Pending(c: Closing, base: SkipInfo, fit: Fit)

  /** Between two items of the container. */
  ghost predicate Skipping(p: Utf8JsonParser, kind: Kind, t: Pending)
    reads p, p.input, p.input.buf, p.input.inputArray
  {
    && p.Valid() && Inside(p.M()) && KindOf(Top(p.M().frames)) == kind
    && Rest(t.c, t.base, Close(p.M(), p.maxDepth), p.skipInfo)
    && CloseFit(p.M(), p.pathCapacity, p.maxDepth) == t.fit
  }

  /** The part of both loops for an item that has just been read: counts a value, skips a container. */
  method SkipItem(p: Utf8JsonParser, ev: JsonEvent, ghost kind: Kind, ghost m: Machine, ghost t: Pending)
    returns (r: Outcome<bool>)
    requires p.Settled() && p.lastEvent == ev && Inside(m) && KindOf(Top(m.frames)) == kind
    requires p.M() == Step(m, p.maxDepth).m && p.Observed(ev) == Step(m, p.maxDepth).ev
    requires Step(m, p.maxDepth).ev.Value? || Step(m, p.maxDepth).ev.Start?
    requires Rest(t.c, t.base, Close(m, p.maxDepth), p.skipInfo)
    requires ItemFit(p.M(), Step(m, p.maxDepth).ev, p.pathCapacity, p.maxDepth) == t.fit
    modifies p, p.input, p.input.buf
    ensures p.Ready() && p.maxDepth == old(p.maxDepth) && p.input.inputArray == old(p.input.inputArray)
    ensures r == Ok(true) ==> Skipping(p, kind, t) && p.M().Unread() < m.Unread()
    ensures r == Ok(false) ==>
      p.Settled() && p.M() == Failed && t.c == Broken && t.fit == Fit(p.pathCapacity)
    ensures r.Throw? ==> r.e == IndexOutOfRange && t.fit.Overrun?
    decreases p.M().Unread(), 2
  {
    hide Step, Close, CloseFit, CountScalar, Rest, CountItems, Add;
    hide Utf8JsonParser.Agrees, Utf8JsonParser.M, Utf8JsonParser.Live, Utf8JsonParser.Frames, Utf8JsonParser.KeyAt;
    ghost var step, info := Step(m, p.maxDepth), p.skipInfo;
    CloseCases(m, p.maxDepth);
    RestEnd(t.c, t.base, Close(m, p.maxDepth), info);
    var ok := true;
    if ev == ObjectStart {
      ok :- SkipObject(p);
    } else if ev == ArrayStart {
      ok :- SkipArray(p);
    } else {
      CountValue(p);
      RestValue(t.c, t.base, Close(p.M(), p.maxDepth), info, step.ev.key, step.ev.v);
      return Ok(true);
    }
    if ok {
      RestNode(t.c, t.base, Close(p.M(), p.maxDepth), info, step.ev.key, step.ev.kind,
               Close(step.m, p.maxDepth).items);
    }
    return Ok(ok);
  }

  /** The body of both loops: reads the next event and deals with it. */
  method SkipNext(p: Utf8JsonParser, kind: Kind, ghost t: Pending) returns (done: bool, r: Outcome<bool>)
    requires Skipping(p, kind, t)
    modifies p, p.input, p.input.buf
    ensures p.Ready() && p.maxDepth == old(p.maxDepth) && p.input.inputArray == old(p.input.inputArray)
    ensures !done ==> Skipping(p, kind, t) && p.M().Unread() < old(p.M().Unread())
    ensures done ==> Spent(r, t.fit, p.pathCapacity)
    ensures done && r.Ok? ==>
      p.Valid() && p.Settled() && SkipOutcome(t.c, t.base, r.value, p.M(), p.skipInfo)
    decreases p.M().Unread(), 0
  {
    hide Step, Close, CloseFit, ItemFit, Overruns, CapacityAfter, CountScalar, Rest, CountItems, Advanced;
    hide Utf8JsonParser.Agrees, Utf8JsonParser.M, Utf8JsonParser.Live, Utf8JsonParser.Frames, Utf8JsonParser.KeyAt;
    ghost var m := p.M();
    CloseCases(m, p.maxDepth);
    RestEnd(t.c, t.base, Close(m, p.maxDepth), p.skipInfo);
    CloseFitCases(m, p.pathCapacity, p.maxDepth);
    var next := p.NextEvent();
    if next.Throw? {
      return true, Throw(next.e);
    }
    if next.value == (if kind == ObjectKind then ObjectEnd else ArrayEnd) {
      return true, Ok(true);
    }
    if next.value == ErrorEvent {
      return true, Ok(false);
    }
    r := SkipItem(p, next.value, kind, m, t);
    done := r.Throw? || !r.value;
  }

  method SkipObject(p: Utf8JsonParser) returns (r: Outcome<bool>)
    requires p.Valid() && Inside(p.M()) && Top(p.M().frames).InObject?
    modifies p, p.input, p.input.buf
    ensures p.Ready() && p.maxDepth == old(p.maxDepth) && p.input.inputArray == old(p.input.inputArray)
    ensures r.Ok? ==> p.Settled()
    ensures r.Ok? ==>
      SkipOutcome(Close(old(p.M()), p.maxDepth), Add(old(p.skipInfo), ONE_OBJECT), r.value, p.M(), p.skipInfo)
    ensures r == Ok(true) ==> Grew(old(p.skipInfo), SkippedRest(NoKey, old(p.M()), p.maxDepth), p.skipInfo)
    ensures Spent(r, CloseFit(old(p.M()), old(p.pathCapacity), p.maxDepth), p.pathCapacity)
    decreases p.M().Unread(), 1
  {
    hide Step, Close, CloseFit, Rest, SkipOutcome, Utf8JsonParser.M, Utf8JsonParser.Live, Utf8JsonParser.Settled;
    hide Grew, SkippedRest;
    ghost var m, capacity, base := p.M(), p.pathCapacity, p.skipInfo;
    CountStart(p, ObjectKind);
    ghost var t := Pending(Close(m, p.maxDepth), p.skipInfo, CloseFit(m, capacity, p.maxDepth));
    RestStart(t.c, t.base);
    var done := false;
    r := Ok(true);
    while !done
      invariant p.Ready() && p.maxDepth == old(p.maxDepth) && p.input.inputArray == old(p.input.inputArray)
      invariant !done ==> Skipping(p, ObjectKind, t) && p.M().Unread() <= m.Unread()
      invariant done ==> Spent(r, t.fit, p.pathCapacity)
      invariant done && r.Ok? ==>
        p.Valid() && p.Settled() && SkipOutcome(t.c, t.base, r.value, p.M(), p.skipInfo)
      decreases !done, if done then 0 else p.M().Unread()
    {
      done, r := SkipNext(p, ObjectKind, t);
    }
    if r == Ok(true) {
      SkippedGrew(NoKey, m, p.maxDepth, base, p.M(), p.skipInfo);
    }
  }

  method SkipArray(p: Utf8JsonParser) returns (r: Outcome<bool>)
    requires p.Valid() && Inside(p.M()) && Top(p.M().frames).InArray?
    modifies p, p.input, p.input.buf
    ensures p.Ready() && p.maxDepth == old(p.maxDepth) && p.input.inputArray == old(p.input.inputArray)
    ensures r.Ok? ==> p.Settled()
    ensures r.Ok? ==>
      SkipOutcome(Close(old(p.M()), p.maxDepth), Add(old(p.skipInfo), ONE_ARRAY), r.value, p.M(), p.skipInfo)
    ensures r == Ok(true) ==> Grew(old(p.skipInfo), SkippedRest(NoKey, old(p.M()), p.maxDepth), p.skipInfo)
    ensures Spent(r, CloseFit(old(p.M()), old(p.pathCapacity), p.maxDepth), p.pathCapacity)
    decreases p.M().Unread(), 1
  {
    hide Step, Close, CloseFit, Rest, SkipOutcome, Utf8JsonParser.M, Utf8JsonParser.Live, Utf8JsonParser.Settled;
    hide Grew, SkippedRest;
    ghost var m, capacity, base := p.M(), p.pathCapacity, p.skipInfo;
    CountStart(p, ArrayKind);
    ghost var t := Pending(Close(m, p.maxDepth), p.skipInfo, CloseFit(m, capacity, p.maxDepth));
    RestStart(t.c, t.base);
    var done := false;
    r := Ok(true);
    while !done
      invariant p.Ready() && p.maxDepth == old(p.maxDepth) && p.input.inputArray == old(p.input.inputArray)
      invariant !done ==> Skipping(p, ArrayKind, t) && p.M().Unread() <= m.Unread()
      invariant done ==> Spent(r, t.fit, p.pathCapacity)
      invariant done && r.Ok? ==>
        p.Valid() && p.Settled() && SkipOutcome(t.c, t.base, r.value, p.M(), p.skipInfo)
      decreases !done, if done then 0 else p.M().Unread()
    {
      done, r := SkipNext(p, ArrayKind, t);
    }
    if r == Ok(true) {
      SkippedGrew(NoKey, m, p.maxDepth, base, p.M(), p.skipInfo);
    }
  }

  /** Skips the whole value the current event starts, or the whole document at the root. */
  method SkipTree(p: Utf8JsonParser) returns (r: Outcome<bool>)
    requires p.Settled()
    modifies p, p.input, p.input.buf
    ensures p.Ready() && p.maxDepth == old(p.maxDepth) && p.input.inputArray == old(p.input.inputArray)
    ensures r.Ok? ==> p.Settled()
    ensures r.Ok? ==> TreeOutcome(old(p.M()), old(p.skipInfo), p.maxDepth, r.value, p.M(), p.skipInfo)
    ensures r == Ok(true) ==> Grew(old(p.skipInfo), SkippedTree(old(p.M()), p.maxDepth), p.skipInfo)
    ensures old(p.lastEvent) == ErrorEvent ==> r == Ok(false) && unchanged(p)
    ensures Spent(r, TreeFit(old(p.M()), old(p.pathCapacity), p.maxDepth), p.pathCapacity)
    decreases if p.M().Fresh? then 1 else 0, 1
  {
    hide Step, Close, CloseFit, SkipOutcome, RootOutcome, Add, FramesOf, Encodes, Utf8JsonParser.Agrees;
    hide Grew, SkippedRest, SkippedTree;
    ghost var m, base := p.M(), p.skipInfo;
    if p.stateLevel > 0 && p.lastEvent != ErrorEvent {
      TopKind(p.B(), p.stateLevel);
    }
    match p.state[p.stateLevel] {
      case ExpectMember => r := SkipObject(p);
      case ExpectMemberFirst => r := SkipObject(p);
      case ExpectElement => r := SkipArray(p);
      case ExpectElementFirst => r := SkipArray(p);
      case ExpectRoot => r := SkipRoot(p);
      case _ => r := Ok(false);
    }
    if r == Ok(true) {
      TreeGrew(m, base, p.maxDepth, p.M(), p.skipInfo);
    }
  }

  /** The case of SkipTree before the first event. */
  method SkipRoot(p: Utf8JsonParser) returns (r: Outcome<bool>)
    requires p.Settled() && p.M().Fresh?
    modifies p, p.input, p.input.buf
    ensures p.Ready() && p.maxDepth == old(p.maxDepth) && p.input.inputArray == old(p.input.inputArray)
    ensures r.Ok? ==> p.Settled()
    ensures r.Ok? ==>
      RootOutcome(Step(old(p.M()), p.maxDepth), old(p.skipInfo), p.maxDepth, r.value, p.M(), p.skipInfo)
    ensures Spent(r, TreeFit(old(p.M()), old(p.pathCapacity), p.maxDepth), p.pathCapacity)
    decreases 1, 0
  {
    hide Step, Close, CloseFit, Overruns, CapacityAfter, SkipOutcome, Add, CountScalar, TreeFit, EventFit;
    hide Utf8JsonParser.Agrees, Utf8JsonParser.Live, Utf8JsonParser.Frames;
    StepFresh(p.M().rest, p.maxDepth);
    NoKeyNoChange(p.M(), p.pathCapacity);
    RootFit(p.M(), p.pathCapacity, p.maxDepth);
    var ev := p.NextEvent();
    r := SkipEvent(p);
  }

  /** Where SkipTree ends: after the innermost container, after the root value, or nowhere. */
  predicate TreeOutcome(m: Machine, base: SkipInfo, maxDepth: int, ok: bool, after: Machine, info: SkipInfo) {
    if Inside(m) then SkipOutcome(Close(m, maxDepth), Add(base, CountContainer(KindOf(Top(m.frames)))), ok, after, info)
    else if m.Fresh? then RootOutcome(Step(m, maxDepth), base, maxDepth, ok, after, info)
    else !ok && after == m && info == base
  }

  predicate RootOutcome(r: Result, base: SkipInfo, maxDepth: int, ok: bool, after: Machine, info: SkipInfo) {
    match r.ev
    case Value(_, v) => ok && after == r.m && info == Add(base, CountScalar(v))
    case Start(kind, _) => Inside(r.m)
        && SkipOutcome(Close(r.m, maxDepth), Add(base, CountContainer(kind)), ok, after, info)
    case _ => !ok && after == r.m && info == base
  }

  lemma TreeGrew(m: Machine, base: SkipInfo, maxDepth: int, after: Machine, info: SkipInfo)
    requires TreeOutcome(m, base, maxDepth, true, after, info)
    ensures Grew(base, SkippedTree(m, maxDepth), info)
  {
    hide Close, Grew, Add, CountContainer, CountScalar, SkipOutcome, SkippedRest;
    if Inside(m) {
      SkippedGrew(NoKey, m, maxDepth, base, after, info);
    } else {
      StepFresh(m.rest, maxDepth);
      var r := Step(m, maxDepth);
      if r.ev.Value? {
        GrewByValue(base, r.ev.key, r.ev.v);
      } else {
        SkippedGrew(NoKey, r.m, maxDepth, base, after, info);
      }
    }
  }

  /** What SkipTree does to the path buffer. */
  function TreeFit(m: Machine, capacity: nat, maxDepth: int): Fit {
    if Inside(m) then CloseFit(m, capacity, maxDepth)
    else if m.Fresh? && Step(m, maxDepth).ev.Start? && Inside(Step(m, maxDepth).m) then
      CloseFit(Step(m, maxDepth).m, capacity, maxDepth)
    else Fit(capacity)
  }

  function EventFit(ev: JsonEvent, m: Machine, capacity: nat, maxDepth: int): Fit {
    if IsStart(ev) then TreeFit(m, capacity, maxDepth) else Fit(capacity)
  }

  lemma RootFit(m: Machine, capacity: nat, maxDepth: int)
    requires m.Fresh?
    ensures forall ev :: IsStart(ev) == Step(m, maxDepth).ev.Start? ==>
      EventFit(ev, Step(m, maxDepth).m, capacity, maxDepth) == TreeFit(m, capacity, maxDepth)
  {
    hide Step, CloseFit;
    StepFresh(m.rest, maxDepth);
  }

  /** Skips what the last event delivered or started. */
  method SkipEvent(p: Utf8JsonParser) returns (r: Outcome<bool>)
    requires p.Settled()
    modifies p, p.input, p.input.buf
    ensures p.Ready() && p.maxDepth == old(p.maxDepth) && p.input.inputArray == old(p.input.inputArray)
    ensures r.Ok? ==> p.Settled()
    ensures r.Ok? && IsValue(old(p.lastEvent)) ==>
      r.value && p.M() == old(p.M()) && p.skipInfo == Add(old(p.skipInfo), CountScalar(old(p.Observed(p.lastEvent).v)))
    ensures r.Ok? && IsStart(old(p.lastEvent)) ==>
      TreeOutcome(old(p.M()), old(p.skipInfo), p.maxDepth, r.value, p.M(), p.skipInfo)
    ensures r.Ok? && IsValue(old(p.lastEvent)) ==>
      Grew(old(p.skipInfo), [old(p.Observed(p.lastEvent))], p.skipInfo)
    ensures r == Ok(true) && IsStart(old(p.lastEvent)) ==>
      Grew(old(p.skipInfo), SkippedTree(old(p.M()), p.maxDepth), p.skipInfo)
    ensures !IsValue(old(p.lastEvent)) && !IsStart(old(p.lastEvent)) ==>
      && r == Ok(old(p.lastEvent) == Initialized || old(p.lastEvent) == None)
      && unchanged(p) && p.M() == old(p.M())
    ensures old(p.lastEvent) == ErrorEvent ==> r == Ok(false) && unchanged(p)
    ensures Spent(r, EventFit(old(p.lastEvent), old(p.M()), old(p.pathCapacity), p.maxDepth), p.pathCapacity)
    decreases if p.M().Fresh? then 1 else 0, 2
  {
    hide Step, Close, CloseFit, TreeOutcome, TreeFit, Add, CountScalar, Utf8JsonParser.Agrees, Utf8JsonParser.Live;
    hide Utf8JsonParser.Frames, Utf8JsonParser.M, Grew, SkippedTree;
    if IsValue(p.lastEvent) {
      GrewByValue(p.skipInfo, p.Observed(p.lastEvent).key, p.Observed(p.lastEvent).v);
    }
    match p.lastEvent {
      case ArrayStart => r := SkipTree(p);
      case ObjectStart => r := SkipTree(p);
      case ArrayEnd => r := Ok(false);
      case ObjectEnd => r := Ok(false);
      case ValueString => CountValue(p); r := Ok(true);
      case ValueNumber => CountValue(p); r := Ok(true);
      case ValueBool => CountValue(p); r := Ok(true);
      case ValueNull => CountValue(p); r := Ok(true);
      case ErrorEvent => r := Ok(false);
      case EndOfFile => r := Ok(false);
      case _ => r := Ok(true);
    }
  }
}
