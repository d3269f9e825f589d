/** Copying what a parser reads straight into a writer. The copy of a container feeds the writer exactly the
    events that are read up to its end, or up to the first error. */
module WriteTree {
  import opened Tree
  import opened Machine
  import opened Containers
  import opened ParserState
  import opened Outcome
  import opened Emitter
  import opened Parser
  import opened PathSafety
  import opened Skip
  import opened Layout
  import opened Writer

  // ------------------------------------------------------------ the events of one container

  /** The events from here to the end of the innermost container, or as far as an error lets them go. */
  function Rest(m: Machine, maxDepth: int): seq<Event>
    requires Inside(m)
    decreases m.Unread()
  {
    StepInside(m, maxDepth);
    var r := Step(m, maxDepth);
    match r.ev
    case Value(_, _) => [r.ev] + Rest(r.m, maxDepth)
    case Start(_, _) =>
      [r.ev] + Rest(r.m, maxDepth)
        + (match Close(r.m, maxDepth) case Broken => [] case Closed(_, m1) => Rest(m1, maxDepth))
    case End(_) => [r.ev]
    case _ => []
  }

  /** One unfolding of Rest. */
  lemma RestCases(m: Machine, maxDepth: int)
    requires Inside(m)
    ensures StepShape(m.frames, Step(m, maxDepth))
    ensures var r := Step(m, maxDepth);
      match r.ev
      case Value(_, _) => Rest(m, maxDepth) == [r.ev] + Rest(r.m, maxDepth)
      case Start(_, _) =>
        var d := Close(r.m, maxDepth);
        Rest(m, maxDepth) == [r.ev] + Rest(r.m, maxDepth) + (if d.Broken? then [] else Rest(d.m, maxDepth))
      case End(_) => Rest(m, maxDepth) == [r.ev]
      case _ => Rest(m, maxDepth) == []
  {
    hide Step, Close;
    StepInside(m, maxDepth);
  }

  /** What RestIsItems says of one container. */
  predicate RestItems(m: Machine, maxDepth: int)
    requires Inside(m) && Close(m, maxDepth).Closed?
  {
    Rest(m, maxDepth) == ItemsEvents(Close(m, maxDepth).items) + [End(KindOf(Top(m.frames)))]
  }

  /** A container that closes contributes the pre-order events of its items and its end event. */
  lemma {:induction false} RestIsItems(m: Machine, maxDepth: int)
    requires Inside(m) && Close(m, maxDepth).Closed?
    ensures RestItems(m, maxDepth)
    decreases m.Unread()
  {
    hide Step, RestItems, Rest, Close;
    CloseCases(m, maxDepth);
    var r := Step(m, maxDepth);
    match r.ev
    case End(_) =>
      RestAtEnd(m, maxDepth);
    case Value(key, v) =>
      RestIsItems(r.m, maxDepth);
      RestAtValue(m, maxDepth);
    case Start(kind, key) =>
      RestIsItems(r.m, maxDepth);
      RestIsItems(Close(r.m, maxDepth).m, maxDepth);
      RestAtStart(m, maxDepth);
  }

  lemma RestAtEnd(m: Machine, maxDepth: int)
    requires Inside(m) && Step(m, maxDepth).ev.End? && Close(m, maxDepth).Closed?
    ensures RestItems(m, maxDepth)
  {
    hide Step, Close;
    CloseEnd(m, maxDepth);
    RestCases(m, maxDepth);
  }

  lemma RestAtValue(m: Machine, maxDepth: int)
    requires Inside(m) && Step(m, maxDepth).ev.Value? && Inside(Step(m, maxDepth).m)
    requires Close(Step(m, maxDepth).m, maxDepth).Closed? && RestItems(Step(m, maxDepth).m, maxDepth)
      && Close(m, maxDepth).Closed?
    ensures RestItems(m, maxDepth)
  {
    hide Step, Close, Rest, Events, ItemsEvents;
    CloseCases(m, maxDepth);
    RestCases(m, maxDepth);
    var r := Step(m, maxDepth);
    FirstValue(r.ev.key, r.ev.v, Close(r.m, maxDepth).items, End(KindOf(Top(m.frames))));
  }

  lemma RestAtStart(m: Machine, maxDepth: int)
    requires Inside(m) && Step(m, maxDepth).ev.Start? && Inside(Step(m, maxDepth).m)
    requires Close(Step(m, maxDepth).m, maxDepth).Closed? && RestItems(Step(m, maxDepth).m, maxDepth)
      && Close(m, maxDepth).Closed?
    requires var d := Close(Step(m, maxDepth).m, maxDepth);
      Inside(d.m) && Close(d.m, maxDepth).Closed? && RestItems(d.m, maxDepth)
    ensures RestItems(m, maxDepth)
  {
    hide Step, Close, Rest, Events, ItemsEvents;
    CloseCases(m, maxDepth);
    RestCases(m, maxDepth);
    var r := Step(m, maxDepth);
    var d := Close(r.m, maxDepth);
    FirstNode(r.ev.key, r.ev.kind, d.items, Close(d.m, maxDepth).items, End(KindOf(Top(m.frames))));
  }

  lemma FirstValue(key: Label, v: Scalar, items: Items, end: Event)
    ensures [Value(key, v)] + (ItemsEvents(items) + [end]) == ItemsEvents(Cons(key, Leaf(v), items)) + [end]
  {
    assert Events(key, Leaf(v)) == [Value(key, v)];
  }

  lemma FirstNode(key: Label, kind: Kind, inner: Items, items: Items, end: Event)
    ensures [Start(kind, key)] + (ItemsEvents(inner) + [End(kind)]) + (ItemsEvents(items) + [end])
      == ItemsEvents(Cons(key, Node(kind, inner), items)) + [end]
  {
    assert Events(key, Node(kind, inner)) == [Start(kind, key)] + ItemsEvents(inner) + [End(kind)];
  }

  /** The writer calls for these events: arrays are always wrapped. */
  function Wrapped(evs: seq<Event>): (r: seq<Call>)
    ensures |r| == |evs|
  {
    seq(|evs|, i requires 0 <= i < |evs| => Call(evs[i], true))
  }

  lemma WrappedConcat(a: seq<Event>, b: seq<Event>)
    ensures Wrapped(a + b) == Wrapped(a) + Wrapped(b)
  {
  }

  lemma {:induction false} WrappedCalls(key: Label, t: Json, path: seq<nat>, wraps: Wraps)
    requires forall p :: wraps(p)
    ensures Wrapped(Events(key, t)) == Calls(key, t, path, wraps)
    decreases t
  {
    match t
    case Leaf(v) =>
    case Node(kind, items) =>
      WrappedItemsCalls(items, path, 0, wraps);
      WrappedConcat([Start(kind, key)] + ItemsEvents(items), [End(kind)]);
      WrappedConcat([Start(kind, key)], ItemsEvents(items));
      assert Wrapped([Start(kind, key)]) == [Call(Start(kind, key), wraps(path))];
      assert Wrapped([End(kind)]) == [Call(End(kind), true)];
  }

  lemma {:induction false} WrappedItemsCalls(items: Items, path: seq<nat>, i: nat, wraps: Wraps)
    requires forall p :: wraps(p)
    ensures Wrapped(ItemsEvents(items)) == ItemsCalls(items, path, i, wraps)
    decreases items
  {
    match items
    case Nil =>
    case Cons(key, v, tail) =>
      WrappedCalls(key, v, path + [i], wraps);
      WrappedItemsCalls(tail, path, i + 1, wraps);
      WrappedConcat(Events(key, v), ItemsEvents(tail));
  }

  // ------------------------------------------------------------ the copy so far

  /** The innermost level of the writer is still the one it was, apart from its flags. */
  predicate SameLevel(l: seq<Level>, l0: seq<Level>) {
    |l| == |l0| > 1 && Init(l) == Init(l0) && Top(l).node == Top(l0).node
  }

  /** Where the parser is after copying a container. */
  predicate Copied(c: Closing, ok: bool, m: Machine) {
    match c
    case Broken => !ok && m == Failed
    case Closed(_, after) => ok && m == after
  }

  /** What is still to be fed. */
  function Remaining(m: Machine, maxDepth: int): seq<Event>
    requires m == Failed || Inside(m)
  {
    if m == Failed then [] else Rest(m, maxDepth)
  }

  /** Feeding what remains completes the copy, and the container closes as it would have from the start. */
  predicate Going(m0: Machine, w0: Writing, m: Machine, w: Writing, maxDepth: int, cfg: Config)
    requires Inside(m0)
  {
    && (m == Failed || (Inside(m) && KindOf(Top(m.frames)) == KindOf(Top(m0.frames)) && SameLevel(w.levels, w0.levels)))
    && Feed(w0, Wrapped(Rest(m0, maxDepth)), cfg) == Feed(w, Wrapped(Remaining(m, maxDepth)), cfg)
    && (if m == Failed then Close(m0, maxDepth).Broken?
        else match Close(m, maxDepth)
          case Broken => Close(m0, maxDepth).Broken?
          case Closed(_, after) => Close(m0, maxDepth).Closed? && Close(m0, maxDepth).m == after)
  }

  /** The calls one item causes: for a container everything that is read of it. */
  function ItemEvents(ev: Event, m: Machine, maxDepth: int): seq<Event> {
    [ev] + (if ev.Start? && Inside(m) then Rest(m, maxDepth) else [])
  }

  /** The item has been read and is now written. */
  lemma FeedSplit(w: Writing, a: seq<Event>, b: seq<Event>, cfg: Config)
    ensures Feed(w, Wrapped(a + b), cfg)
      == if Feed(w, Wrapped(a), cfg).Throw? then Feed(w, Wrapped(a), cfg)
          else Feed(Feed(w, Wrapped(a), cfg).value, Wrapped(b), cfg)
  {
    WrappedConcat(a, b);
    FeedConcat(w, Wrapped(a), Wrapped(b), cfg);
  }

  /** One more item: the step that delivered it, then its copy. */
  lemma GoesOn(m0: Machine, w0: Writing, m: Machine, w: Writing, maxDepth: int, cfg: Config, ok: bool, after: Machine,
      w1: Writing)
    requires Inside(m0) && Inside(m) && Going(m0, w0, m, w, maxDepth, cfg)
    requires var s := Step(m, maxDepth);
      && (s.ev.Value? || s.ev.Start?) && Inside(s.m)
      && Feed(w, Wrapped(ItemEvents(s.ev, s.m, maxDepth)), cfg) == Ok(w1)
      && (if s.ev.Start? then Copied(Close(s.m, maxDepth), ok, after) else ok && after == s.m)
      && (ok ==> SameLevel(w1.levels, w.levels))
    ensures Going(m0, w0, after, w1, maxDepth, cfg)
    ensures after == Failed || (Inside(after) && KindOf(Top(after.frames)) == KindOf(Top(m0.frames)))
  {
    var s := Step(m, maxDepth);
    hide Step, Close, Rest, Feed, Wrapped;
    RestCases(m, maxDepth);
    CloseCases(m, maxDepth);
    var item := ItemEvents(s.ev, s.m, maxDepth);
    assert Rest(m, maxDepth) == item + Remaining(after, maxDepth);
    FeedSplit(w, item, Remaining(after, maxDepth), cfg);
  }

  lemma GoingThrows(m0: Machine, w0: Writing, m: Machine, w: Writing, maxDepth: int, cfg: Config, e: Exception)
    requires Inside(m0) && Inside(m) && Going(m0, w0, m, w, maxDepth, cfg)
    requires var s := Step(m, maxDepth);
      && (s.ev.Value? || s.ev.Start?) && Inside(s.m)
      && Feed(w, Wrapped(ItemEvents(s.ev, s.m, maxDepth)), cfg) == Throw(e)
    ensures Feed(w0, Wrapped(Rest(m0, maxDepth)), cfg) == Throw(e)
  {
    var s := Step(m, maxDepth);
    hide Step, Close, Rest, Feed, Wrapped;
    RestCases(m, maxDepth);
    var item := ItemEvents(s.ev, s.m, maxDepth);
    var tail := Rest(m, maxDepth)[|item|..];
    assert Rest(m, maxDepth) == item + tail;
    FeedSplit(w, item, tail, cfg);
  }

  // ------------------------------------------------------------ the copying methods

  /** What a static advance reads: the next event, without skipping. */
  method NextObjectMember(p: Utf8JsonParser) returns (r: Outcome<bool>)
    requires p.Valid() && (p.M() == Failed || (Inside(p.M()) && KindOf(Top(p.M().frames)) == ObjectKind))
    modifies p, p.input, p.input.buf
    ensures p.Ready() && p.maxDepth == old(p.maxDepth) && p.input.inputArray == old(p.input.inputArray)
    ensures r.Ok? ==> p.Settled() && Moved(Step(old(p.M()), p.maxDepth), p.M(), p.Observed(p.lastEvent), r.value)
    ensures Spent(r, StepFit(old(p.M()), old(p.pathCapacity)), p.pathCapacity)
  {
    hide Step, Overruns, CapacityAfter, Utf8JsonParser.Agrees, Utf8JsonParser.Live, Utf8JsonParser.Frames;
    if Inside(p.M()) {
      StepInside(p.M(), p.maxDepth);
    }
    FailedStep(p.maxDepth);
    var ev :- p.NextEvent();
    match ev {
      case ValueString => return Ok(true);
      case ValueNumber => return Ok(true);
      case ValueBool => return Ok(true);
      case ValueNull => return Ok(true);
      case ObjectStart => return Ok(true);
      case ArrayStart => return Ok(true);
      case ArrayEnd => return Throw(InvalidOperation);
      case _ => return Ok(false);
    }
  }

  method NextArrayElement(p: Utf8JsonParser) returns (r: Outcome<bool>)
    requires p.Valid() && (p.M() == Failed || (Inside(p.M()) && KindOf(Top(p.M().frames)) == ArrayKind))
    modifies p, p.input, p.input.buf
    ensures p.Ready() && p.maxDepth == old(p.maxDepth) && p.input.inputArray == old(p.input.inputArray)
    ensures r.Ok? ==> p.Settled() && Moved(Step(old(p.M()), p.maxDepth), p.M(), p.Observed(p.lastEvent), r.value)
    ensures Spent(r, StepFit(old(p.M()), old(p.pathCapacity)), p.pathCapacity)
  {
    hide Step, Overruns, CapacityAfter, Utf8JsonParser.Agrees, Utf8JsonParser.Live, Utf8JsonParser.Frames;
    if Inside(p.M()) {
      StepInside(p.M(), p.maxDepth);
    }
    FailedStep(p.maxDepth);
    var ev :- p.NextEvent();
    match ev {
      case ValueString => return Ok(true);
      case ValueNumber => return Ok(true);
      case ValueBool => return Ok(true);
      case ValueNull => return Ok(true);
      case ObjectStart => return Ok(true);
      case ArrayStart => return Ok(true);
      case ObjectEnd => return Throw(InvalidOperation);
      case _ => return Ok(false);
    }
  }

  lemma FailedStep(maxDepth: int)
    ensures Step(Failed, maxDepth) == FAIL
  {
  }

  predicate Moved(s: Result, m: Machine, ev: Event, more: bool) {
    m == s.m && ev == s.ev && (more <==> ev.Value? || ev.Start?)
  }

  /** The scalar the last event delivered. */
  function ScalarOf(p: Utf8JsonParser): (v: Scalar)
    requires IsValue(p.lastEvent)
    ensures p.Observed(p.lastEvent).v == v
    reads p
  {
    if p.lastEvent == ValueString then Str(p.value)
    else if p.lastEvent == ValueNumber then Num(p.value)
    else if p.lastEvent == ValueBool then Bool(p.boolValue)
    else Null
  }

  lemma FeedFirst(w: Writing, ev: Event, tail: seq<Event>, cfg: Config)
    requires Follows(w.levels, ev)
    ensures var r := Emit(w, Call(ev, true), cfg);
      Feed(w, Wrapped([ev] + tail), cfg) == if r.Throw? then Throw(r.e) else Feed(r.value, Wrapped(tail), cfg)
  {
    hide Emit, Feed;
    FeedSplit(w, [ev], tail, cfg);
    FeedOne(w, Call(ev, true), cfg);
    assert Wrapped([ev]) == [Call(ev, true)];
  }

  lemma FeedEmpty(w: Writing, ev: Event, cfg: Config)
    requires Follows(w.levels, ev)
    ensures Feed(w, Wrapped([ev]), cfg) == Emit(w, Call(ev, true), cfg)
  {
    hide Emit, Feed;
    FeedOne(w, Call(ev, true), cfg);
    assert Wrapped([ev]) == [Call(ev, true)];
  }

  lemma FeedNothing(w: Writing, cfg: Config)
    ensures Feed(w, Wrapped([]), cfg) == Ok(w)
  {
  }

  /** The event of an item that is written without its key. */
  function Unkeyed(ev: Event): Event {
    match ev
    case Value(_, v) => Value(NoKey, v)
    case Start(kind, _) => Start(kind, NoKey)
    case _ => ev
  }

  lemma EmitLevels(w: Writing, c: Call, cfg: Config)
    requires Follows(w.levels, c.ev)
    ensures Emit(w, c, cfg).Ok? ==> Emit(w, c, cfg).value.levels == CallLevels(w.levels, c)
    ensures Emit(w, c, cfg).Ok? && c.ev.End? ==> Emit(w, c, cfg).value.levels == EndLevels(w.levels)
  {
  }

  /** Writes the current scalar. */
  method WriteScalar(p: Utf8JsonParser, w: Utf8JsonWriter, keyed: bool, ghost ev: Event) returns (r: Outcome<()>)
    requires p.Valid() && w.Valid() && IsValue(p.lastEvent)
    requires var e := p.Observed(p.lastEvent); (ev == if keyed then e else Unkeyed(e)) && (keyed ==> e.key.Key?)
    requires Follows(w.W().levels, ev)
    modifies w
    ensures w.Cfg() == old(w.Cfg())
    ensures w.Agrees(r, Feed(old(w.W()), Wrapped([ev]), w.Cfg()))
    ensures r.Ok? ==> w.W().levels == Cleared(old(w.W().levels))
  {
    hide Emit, Feed, Wrapped;
    FeedEmpty(w.W(), ev, w.Cfg());
    EmitLevels(w.W(), Call(ev, true), w.Cfg());
    var v := ScalarOf(p);
    if keyed {
      r := w.MemberScalar(p.key, v);
    } else {
      r := w.ElementScalar(v);
    }
  }

  /** Writes the start of the current container. */
  method WriteStart(p: Utf8JsonParser, w: Utf8JsonWriter, keyed: bool, ghost ev: Event) returns (r: Outcome<()>)
    requires p.Valid() && w.Valid() && IsStart(p.lastEvent)
    requires var e := p.Observed(p.lastEvent); (ev == if keyed then e else Unkeyed(e)) && (keyed ==> e.key.Key?)
    requires Follows(w.W().levels, ev)
    modifies w
    ensures w.Cfg() == old(w.Cfg())
    ensures w.Agrees(r, Emit(old(w.W()), Call(ev, true), w.Cfg()))
    ensures r.Ok? ==> w.W().levels == Inner(old(w.W().levels), ev.kind, ev.key, true)
  {
    hide Emit;
    EmitLevels(w.W(), Call(ev, true), w.Cfg());
    var kind := if p.lastEvent == ObjectStart then ObjectKind else ArrayKind;
    if keyed {
      r := w.MemberStart(kind, p.key, true);
    } else {
      r := w.NodeStart(kind, true);
    }
  }

  /** What reading the rest of an item does to the path buffer. */
  function ReadFit(m: Machine, ev: Event, capacity: nat, maxDepth: int): Fit {
    if ev.Start? && Inside(m) then CloseFit(m, capacity, maxDepth) else Fit(capacity)
  }

  /** What reading the rest of a container does to it, if there has been no error. */
  function RemainingFit(m: Machine, capacity: nat, maxDepth: int): Fit {
    if Inside(m) then CloseFit(m, capacity, maxDepth) else Fit(capacity)
  }

  lemma AllRemains(m: Machine, capacity: nat, maxDepth: int)
    requires Inside(m)
    ensures RemainingFit(m, capacity, maxDepth) == CloseFit(m, capacity, maxDepth)
  {
  }

  /** One step takes its part of that. */
  lemma StepsOn(m: Machine, capacity: nat, maxDepth: int)
    requires m == Failed || Inside(m)
    ensures var s, fit, step := Step(m, maxDepth), RemainingFit(m, capacity, maxDepth), StepFit(m, capacity);
      if step.Overrun? then fit.Overrun?
      else if s.ev.Value? || s.ev.Start? then Inside(s.m) && fit == ItemFit(s.m, s.ev, step.capacity, maxDepth)
      else fit == step
  {
    hide Step, CloseFit, ItemFit, Overruns, CapacityAfter;
    if m == Failed {
      FailedStep(maxDepth);
      NoKeyNoChange(m, capacity);
    } else {
      CloseFitCases(m, capacity, maxDepth);
    }
  }

  /** Copies the current item, with its key into an object or without one into an array or at the root. The
      returned flag is what the nested call returned; the loops below ignore it. */
  method WriteItem(p: Utf8JsonParser, w: Utf8JsonWriter, keyed: bool, ghost ev: Event) returns (r: Outcome<bool>)
    requires p.Settled() && w.Valid() && (IsValue(p.lastEvent) || IsStart(p.lastEvent))
    requires var e := p.Observed(p.lastEvent); (ev == if keyed then e else Unkeyed(e)) && (keyed ==> e.key.Key?)
    requires Follows(w.W().levels, ev)
    modifies p, p.input, p.input.buf, w
    ensures p.Ready() && p.maxDepth == old(p.maxDepth) && p.input.inputArray == old(p.input.inputArray)
      && w.Cfg() == old(w.Cfg())
    ensures r.Ok? ==> p.Settled() && w.Valid() && (r.value ==> w.W().levels == Cleared(old(w.W().levels)))
    ensures var m := old(p.M());
      var fed := Feed(old(w.W()), Wrapped(ItemEvents(ev, m, p.maxDepth)), w.Cfg());
      match r
      case Ok(ok) => fed == Ok(w.W())
          && (if ev.Start? then Inside(m) && Copied(Close(m, p.maxDepth), ok, p.M()) else ok && p.M() == m)
          && ReadFit(m, ev, old(p.pathCapacity), p.maxDepth) == Fit(p.pathCapacity)
      case Throw(e) =>
        fed == Throw(e)
        || (e == IndexOutOfRange && ReadFit(m, ev, old(p.pathCapacity), p.maxDepth).Overrun?)
    decreases p.M().Unread(), 1
  {
    hide Step, Close, CloseFit, Emit, Feed, Rest, Wrapped, FramesOf, Encodes, Follows;
    hide Utf8JsonParser.Agrees, Utf8JsonParser.Live, Utf8JsonParser.Frames, Utf8JsonWriter.W;
    ghost var m, w0 := p.M(), w.W();
    if IsStart(p.lastEvent) {
      FeedFirst(w0, ev, Rest(m, p.maxDepth), w.Cfg());
      var _ :- WriteStart(p, w, keyed, ev);
      if p.lastEvent == ObjectStart {
        r := WriteObject(p, w);
      } else {
        r := WriteArray(p, w);
      }
    } else {
      assert [ev] + [] == [ev];
      var _ :- WriteScalar(p, w, keyed, ev);
      return Ok(true);
    }
  }

  lemma GoingFromStart(m: Machine, w: Writing, maxDepth: int, cfg: Config)
    requires Inside(m) && |w.levels| > 1
    ensures Going(m, w, m, w, maxDepth, cfg)
  {
    hide Close, Feed, Rest, Wrapped;
  }

  /** The advance that delivers no item: the end of the container, or an error now or before. */
  lemma GoingEnds(m0: Machine, w0: Writing, m: Machine, w: Writing, maxDepth: int, cfg: Config, kind: Kind)
    requires Inside(m0) && KindOf(Top(m0.frames)) == kind && AtItems(w0.levels, kind)
    requires (m == Failed || Inside(m)) && Going(m0, w0, m, w, maxDepth, cfg)
    requires var ev := Step(m, maxDepth).ev; !ev.Value? && !ev.Start?
    ensures var s, fed := Step(m, maxDepth), Feed(w0, Wrapped(Rest(m0, maxDepth)), cfg);
      if s.ev.End? then
        && s.ev == End(kind) && Follows(w.levels, s.ev) && fed == Emit(w, Call(s.ev, true), cfg)
        && Close(m0, maxDepth).Closed? && Close(m0, maxDepth).m == s.m && EndLevels(w.levels) == EndLevels(w0.levels)
      else s == FAIL && fed == Ok(w) && Close(m0, maxDepth).Broken?
  {
    hide Step, Close, Rest, Feed, Wrapped, Emit;
    FeedNothing(w, cfg);
    FailedStep(maxDepth);
    if m != Failed {
      RestCases(m, maxDepth);
      CloseCases(m, maxDepth);
      var s := Step(m, maxDepth);
      if s.ev.End? {
        FeedEmpty(w, s.ev, cfg);
      }
    }
  }

  /** An item is delivered where it can be written. */
  lemma GoingItem(m0: Machine, w0: Writing, m: Machine, w: Writing, maxDepth: int, cfg: Config, kind: Kind)
    requires Inside(m0) && KindOf(Top(m0.frames)) == kind && AtItems(w0.levels, kind)
    requires (m == Failed || Inside(m)) && Going(m0, w0, m, w, maxDepth, cfg)
    requires var ev := Step(m, maxDepth).ev; ev.Value? || ev.Start?
    ensures var s := Step(m, maxDepth);
      Inside(m) && Inside(s.m) && Follows(w.levels, s.ev) && s.ev.key.Key? == kind.ObjectKind?
          && AtItems(w.levels, kind)
  {
    hide Step, Close, Rest, Feed, Wrapped;
    FailedStep(maxDepth);
    StepInside(m, maxDepth);
  }

  /** The container being copied: where parser and writer started on it, and what reading it does to the path
      buffer. */
  datatype Copy = Copy(m0: Machine, w0: Writing, cfg: Config, kind: Kind, fit: Fit)

  predicate Begun(t: Copy) {
    Inside(t.m0) && KindOf(Top(t.m0.frames)) == t.kind && AtItems(t.w0.levels, t.kind)
  }

  /** Between two items of the container. */
  ghost predicate Copying(p: Utf8JsonParser, w: Utf8JsonWriter, t: Copy)
    requires Begun(t)
    reads p, p.input, p.input.buf, p.input.inputArray, w
  {
    && p.Settled() && w.Valid() && w.Cfg() == t.cfg
    && (p.M() == Failed || (Inside(p.M()) && KindOf(Top(p.M().frames)) == t.kind))
    && Going(t.m0, t.w0, p.M(), w.W(), p.maxDepth, t.cfg)
    && t.fit == RemainingFit(p.M(), p.pathCapacity, p.maxDepth)
  }

  /** The part of both loops for an item that has just been read. */
  method CopyItem(p: Utf8JsonParser, w: Utf8JsonWriter, ghost m: Machine, ghost t: Copy,
                  keyed: bool) returns (r: Outcome<()>)
    requires keyed == t.kind.ObjectKind?
    requires Begun(t) && p.Settled() && w.Valid() && w.Cfg() == t.cfg && (m == Failed || Inside(m))
    requires Going(t.m0, t.w0, m, w.W(), p.maxDepth, t.cfg)
    requires Moved(Step(m, p.maxDepth), p.M(), p.Observed(p.lastEvent), true)
    requires Inside(p.M()) && t.fit == ItemFit(p.M(), Step(m, p.maxDepth).ev, p.pathCapacity, p.maxDepth)
    modifies p, p.input, p.input.buf, w
    ensures p.Ready() && p.maxDepth == old(p.maxDepth) && p.input.inputArray == old(p.input.inputArray)
    ensures w.Cfg() == t.cfg
    ensures r.Ok? ==> Copying(p, w, t) && p.M().Unread() <= old(p.M().Unread())
    ensures r.Throw? ==>
      || Feed(t.w0, Wrapped(Rest(t.m0, p.maxDepth)), t.cfg) == Throw(r.e)
      || (r.e == IndexOutOfRange && t.fit.Overrun?)
    decreases p.M().Unread(), 2
  {
    hide Step, Close, CloseFit, Emit, Feed, Rest, Wrapped, Going, Follows, ItemEvents;
    hide Utf8JsonParser.Agrees, Utf8JsonParser.Live, Utf8JsonParser.Frames, Utf8JsonParser.M, Utf8JsonWriter.W;
    ghost var w1, s, m1 := w.W(), Step(m, p.maxDepth), p.M();
    GoingItem(t.m0, t.w0, m, w1, p.maxDepth, t.cfg, t.kind);
    var written := WriteItem(p, w, keyed, s.ev);
    if written.Throw? {
      if Feed(w1, Wrapped(ItemEvents(s.ev, m1, p.maxDepth)), t.cfg) == Throw(written.e) {
        GoingThrows(t.m0, t.w0, m, w1, p.maxDepth, t.cfg, written.e);
      }
      return Throw(written.e);
    }
    GoesOn(t.m0, t.w0, m, w1, p.maxDepth, t.cfg, written.value, p.M(), w.W());
    return Ok(());
  }

  /** The part of both methods behind the last item: the end is written if it has been read. */
  method CopyEnd(p: Utf8JsonParser, w: Utf8JsonWriter, ghost m: Machine, ghost t: Copy, kind: Kind)
    returns (r: Outcome<bool>)
    requires kind == t.kind
    requires Begun(t) && p.Settled() && w.Valid() && w.Cfg() == t.cfg && (m == Failed || Inside(m))
    requires Going(t.m0, t.w0, m, w.W(), p.maxDepth, t.cfg)
    requires Moved(Step(m, p.maxDepth), p.M(), p.Observed(p.lastEvent), false)
    modifies w
    ensures w.Cfg() == t.cfg && (r.Ok? ==> w.Valid())
    ensures r == Ok(true) ==> w.W().levels == EndLevels(t.w0.levels)
    ensures var fed := Feed(t.w0, Wrapped(Rest(t.m0, p.maxDepth)), t.cfg);
      match r
      case Ok(ok) => fed == Ok(w.W()) && Copied(Close(t.m0, p.maxDepth), ok, p.M())
      case Throw(e) => fed == Throw(e)
  {
    hide Step, Close, Emit, Feed, Rest, Wrapped, Going, CallLevels, Follows;
    hide Utf8JsonParser.Agrees, Utf8JsonParser.Live, Utf8JsonParser.Frames, Utf8JsonParser.M, Utf8JsonWriter.W;
    GoingEnds(t.m0, t.w0, m, w.W(), p.maxDepth, t.cfg, t.kind);
    if p.lastEvent == (if kind == ObjectKind then ObjectEnd else ArrayEnd) {
      EmitLevels(w.W(), Call(End(kind), true), t.cfg);
      hide EndLevels;
      var _ :- w.NodeEnd(kind);
      return Ok(true);
    }
    return Ok(false);
  }

  lemma AtItemsNested(levels: seq<Level>, kind: Kind)
    requires AtItems(levels, kind)
    ensures |levels| > 1
  {
  }

  /** Copies the members of the object the parser is in, up to its end. */
  method WriteObject(p: Utf8JsonParser, w: Utf8JsonWriter) returns (r: Outcome<bool>)
    requires p.Settled() && Inside(p.M()) && KindOf(Top(p.M().frames)) == ObjectKind
    requires w.Valid() && AtItems(w.W().levels, ObjectKind)
    modifies p, p.input, p.input.buf, w
    ensures p.Ready() && p.maxDepth == old(p.maxDepth) && p.input.inputArray == old(p.input.inputArray)
    ensures w.Cfg() == old(w.Cfg())
    ensures r.Ok? ==> p.Settled() && w.Valid() && (r.value ==> w.W().levels == EndLevels(old(w.W().levels)))
    ensures var m := old(p.M());
      var fed := Feed(old(w.W()), Wrapped(Rest(m, p.maxDepth)), w.Cfg());
      match r
      case Ok(ok) =>
        && fed == Ok(w.W()) && Copied(Close(m, p.maxDepth), ok, p.M())
        && CloseFit(m, old(p.pathCapacity), p.maxDepth) == Fit(p.pathCapacity)
      case Throw(e) =>
        fed == Throw(e) || (e == IndexOutOfRange && CloseFit(m, old(p.pathCapacity), p.maxDepth).Overrun?)
    decreases p.M().Unread(), 0
  {
    hide Step, Close, CloseFit, ItemFit, RemainingFit, Emit, Feed, Rest, Wrapped, Going, Follows, AtItems, EndLevels;
    hide Utf8JsonParser.Agrees, Utf8JsonParser.Live, Utf8JsonParser.Frames, Utf8JsonParser.M, Utf8JsonWriter.W;
    ghost var t := Copy(p.M(), w.W(), w.Cfg(), ObjectKind, CloseFit(p.M(), p.pathCapacity, p.maxDepth));
    ghost var m := t.m0;
    AtItemsNested(t.w0.levels, ObjectKind);
    GoingFromStart(t.m0, t.w0, p.maxDepth, t.cfg);
    AllRemains(m, p.pathCapacity, p.maxDepth);
    while true
      invariant Copying(p, w, t) && p.maxDepth == old(p.maxDepth) && p.input.inputArray == old(p.input.inputArray)
      invariant p.M().Unread() <= t.m0.Unread()
      decreases p.M().Unread()
    {
      m := p.M();
      StepsOn(m, p.pathCapacity, p.maxDepth);
      var more :- NextObjectMember(p);
      if !more {
        break;
      }
      var _ :- CopyItem(p, w, m, t, true);
    }
    r := CopyEnd(p, w, m, t, ObjectKind);
  }

  /** Copies the elements of the array the parser is in, up to its end. */
  method WriteArray(p: Utf8JsonParser, w: Utf8JsonWriter) returns (r: Outcome<bool>)
    requires p.Settled() && Inside(p.M()) && KindOf(Top(p.M().frames)) == ArrayKind
    requires w.Valid() && AtItems(w.W().levels, ArrayKind)
    modifies p, p.input, p.input.buf, w
    ensures p.Ready() && p.maxDepth == old(p.maxDepth) && p.input.inputArray == old(p.input.inputArray)
    ensures w.Cfg() == old(w.Cfg())
    ensures r.Ok? ==> p.Settled() && w.Valid() && (r.value ==> w.W().levels == EndLevels(old(w.W().levels)))
    ensures var m := old(p.M());
      var fed := Feed(old(w.W()), Wrapped(Rest(m, p.maxDepth)), w.Cfg());
      match r
      case Ok(ok) =>
        && fed == Ok(w.W()) && Copied(Close(m, p.maxDepth), ok, p.M())
        && CloseFit(m, old(p.pathCapacity), p.maxDepth) == Fit(p.pathCapacity)
      case Throw(e) =>
        fed == Throw(e) || (e == IndexOutOfRange && CloseFit(m, old(p.pathCapacity), p.maxDepth).Overrun?)
    decreases p.M().Unread(), 0
  {
    hide Step, Close, CloseFit, ItemFit, RemainingFit, Emit, Feed, Rest, Wrapped, Going, Follows, AtItems, EndLevels;
    hide Utf8JsonParser.Agrees, Utf8JsonParser.Live, Utf8JsonParser.Frames, Utf8JsonParser.M, Utf8JsonWriter.W;
    ghost var t := Copy(p.M(), w.W(), w.Cfg(), ArrayKind, CloseFit(p.M(), p.pathCapacity, p.maxDepth));
    ghost var m := t.m0;
    AtItemsNested(t.w0.levels, ArrayKind);
    GoingFromStart(t.m0, t.w0, p.maxDepth, t.cfg);
    AllRemains(m, p.pathCapacity, p.maxDepth);
    while true
      invariant Copying(p, w, t) && p.maxDepth == old(p.maxDepth) && p.input.inputArray == old(p.input.inputArray)
      invariant p.M().Unread() <= t.m0.Unread()
      decreases p.M().Unread()
    {
      m := p.M();
      StepsOn(m, p.pathCapacity, p.maxDepth);
      var more :- NextArrayElement(p);
      if !more {
        break;
      }
      var _ :- CopyItem(p, w, m, t, false);
    }
    r := CopyEnd(p, w, m, t, ArrayKind);
  }

  /** Copies the value the last event delivered or started, without its key, up to its end. It returns whether
      this end was reached, although the flags of the nested copies are ignored. */
  method WriteTree(p: Utf8JsonParser, w: Utf8JsonWriter) returns (r: Outcome<bool>)
    requires p.Settled() && w.Valid() && Placed(Top(w.W().levels), NoKey)
    modifies p, p.input, p.input.buf, w
    ensures p.Ready() && p.maxDepth == old(p.maxDepth) && p.input.inputArray == old(p.input.inputArray)
      && w.Cfg() == old(w.Cfg())
    ensures r.Ok? ==> p.Settled() && w.Valid()
    ensures
      var m, ev := old(p.M()), Unkeyed(old(p.Observed(p.lastEvent)));
      var fed := Feed(old(w.W()), Wrapped(ItemEvents(ev, m, p.maxDepth)), w.Cfg());
      if ev.Value? || ev.Start? then
        match r
        case Ok(ok) => fed == Ok(w.W())
            && (if ev.Start? then Inside(m) && Copied(Close(m, p.maxDepth), ok, p.M()) else ok && p.M() == m)
            && ReadFit(m, ev, old(p.pathCapacity), p.maxDepth) == Fit(p.pathCapacity)
        case Throw(e) =>
          fed == Throw(e)
          || (e == IndexOutOfRange && ReadFit(m, ev, old(p.pathCapacity), p.maxDepth).Overrun?)
      else r == Ok(false) && unchanged(p) && unchanged(w)
  {
    hide Step, Close, CloseFit, Emit, Feed, Rest, Wrapped, Utf8JsonParser.Agrees, Utf8JsonParser.Live,
      Utf8JsonParser.Frames, FramesOf, Encodes;
    if IsValue(p.lastEvent) || IsStart(p.lastEvent) {
      r := WriteItem(p, w, false, Unkeyed(p.Observed(p.lastEvent)));
    } else {
      return Ok(false);
    }
  }
}
