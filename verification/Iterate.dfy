/** Iterating over the direct members of an object or the elements of an array, with automatic skipping
    of what the caller leaves alone. The level checks of the debug build are part of the model. */
module Iterate {
  import opened Ascii
  import opened Tree
  import opened Machine
  import opened Containers
  import opened ParserState
  import opened Outcome
  import opened Parser
  import opened PathSafety
  import opened Skip

  predicate IsEnd(ev: JsonEvent) {
    ev == ObjectEnd || ev == ArrayEnd || ev == EndOfFile
  }

  /** What skipping the current item adds to the counters, given the rest of a container it started. */
  function Current(ev: Event, inner: Items): SkipInfo {
    match ev
    case Value(_, v) => CountScalar(v)
    case Start(kind, _) => Add(CountContainer(kind), CountItems(inner))
    case _ => NO_SKIPS
  }

  /** The last event started a container that is to be skipped. */
  predicate SkipsContainer(m: Machine, ev: Event, skip: bool) {
    skip && ev.Start? && Inside(m)
  }

  /** Leaving the current item behind: from machine m, whose last event was ev, to machine m1. */
  predicate LeaveOutcome(m: Machine, ev: Event, skip: bool, maxDepth: int, base: SkipInfo, ok: bool, m1: Machine,
      info: SkipInfo)
  {
    if SkipsContainer(m, ev, skip) then
      match Close(m, maxDepth)
      case Broken => !ok && m1 == Failed
      case Closed(inner, after) => ok && m1 == after && info == Add(base, Current(ev, inner))
    else ok && m1 == m && info == if skip then Add(base, Current(ev, Nil)) else base
  }

  /** One advance of an iterator: the current item is left behind, then the machine makes one step. */
  predicate NextOutcome(m: Machine, ev: Event, skip: bool, maxDepth: int, base: SkipInfo,
                        after: Machine, ev2: Event, info: SkipInfo, more: bool)
  {
    if SkipsContainer(m, ev, skip) && Close(m, maxDepth).Broken? then !more && after == Failed && ev2 == Tree.Error
    else
      var m1 := if SkipsContainer(m, ev, skip) then Close(m, maxDepth).m else m;
      var s := Step(m1, maxDepth);
      && LeaveOutcome(m, ev, skip, maxDepth, base, true, m1, info)
      && after == s.m && ev2 == s.ev && (more <==> s.ev.Value? || s.ev.Start?)
  }

  /** The events that are skipped when the current item is left behind. */
  function LeftEvents(m: Machine, ev: Event, skip: bool, maxDepth: int): seq<Event> {
    if SkipsContainer(m, ev, skip) then
      match Close(m, maxDepth)
      case Broken => []
      case Closed(inner, _) => [ev] + ItemsEvents(inner)
    else if skip && (ev.Value? || ev.Start?) then [ev]
    else []
  }

  /** The counters have grown by these events, unless an error came first. */
  predicate LeftGrew(m: Machine, ev: Event, skip: bool, maxDepth: int, base: SkipInfo, info: SkipInfo) {
    (SkipsContainer(m, ev, skip) && Close(m, maxDepth).Broken?) || Grew(base, LeftEvents(m, ev, skip, maxDepth), info)
  }

  lemma LeavingGrows(m: Machine, ev: Event, skip: bool, maxDepth: int, base: SkipInfo, ok: bool, m1: Machine,
                     info: SkipInfo)
    requires LeaveOutcome(m, ev, skip, maxDepth, base, ok, m1, info)
    ensures LeftGrew(m, ev, skip, maxDepth, base, info)
  {
    hide Close, Grew, Add, CountScalar, CountContainer, CountItems;
    GrewByNothing(base);
    ValueCount(ev, base);
    if ev.Value? {
      GrewByValue(base, ev.key, ev.v);
    } else if ev.Start? {
      var items := if SkipsContainer(m, ev, skip) && Close(m, maxDepth).Closed? then Close(m, maxDepth).items else Nil;
      GrewByNode(base, ev.key, ev.kind, items);
      AddAssociates(base, CountContainer(ev.kind), CountItems(items));
      assert [ev] + ItemsEvents(Nil) == [ev];
    }
  }

  /** What leaving the current item behind does to the path buffer. */
  function LeaveFit(m: Machine, ev: Event, skip: bool, capacity: nat, maxDepth: int): Fit {
    if SkipsContainer(m, ev, skip) then CloseFit(m, capacity, maxDepth) else Fit(capacity)
  }

  /** What one advance does to it. */
  function NextFit(m: Machine, ev: Event, skip: bool, capacity: nat, maxDepth: int): Fit {
    var left := LeaveFit(m, ev, skip, capacity, maxDepth);
    if left.Overrun? || (SkipsContainer(m, ev, skip) && Close(m, maxDepth).Broken?) then left
    else StepFit(if SkipsContainer(m, ev, skip) then Close(m, maxDepth).m else m, left.capacity)
  }

  /** The outcome of skipping the container that the last event started. */
  lemma SkippedStart(m: Machine, kind: Kind, key: Label, base: SkipInfo, maxDepth: int, ok: bool, after: Machine,
      info: SkipInfo)
    requires Inside(m) && KindOf(Top(m.frames)) == kind && TreeOutcome(m, base, maxDepth, ok, after, info)
    ensures ok <==> Close(m, maxDepth).Closed?
    ensures !ok ==> after == Failed
    ensures ok ==>
      after == Close(m, maxDepth).m && info == Add(base, Current(Start(kind, key), Close(m, maxDepth).items))
  {
    hide Close, Count, CountItems, CountContainer;
    if ok {
      AddAssociates(base, CountContainer(kind), CountItems(Close(m, maxDepth).items));
    }
  }

  lemma ValueCount(ev: Event, base: SkipInfo)
    ensures ev.Value? ==> Current(ev, Nil) == CountScalar(ev.v)
    ensures !ev.Value? && !ev.Start? ==> Add(base, Current(ev, Nil)) == base
  {
  }

  /** What an iterator answers for the next event: the end of the other kind of container is an exception. */
  function Answer(ev: Event, other: Kind): Outcome<bool> {
    if ev == End(other) then Throw(InvalidOperation) else Ok(ev.Value? || ev.Start?)
  }

  /** Skips the current item, as every advance does unless the item was used. Behind an end nothing happens. */
  method SkipCurrent(p: Utf8JsonParser) returns (r: Outcome<bool>)
    requires p.Settled() && p.lastEvent != ErrorEvent
    modifies p, p.input, p.input.buf
    ensures p.Ready() && p.maxDepth == old(p.maxDepth) && p.input.inputArray == old(p.input.inputArray)
    ensures r.Ok? ==> p.Settled()
    ensures IsEnd(old(p.lastEvent)) ==> r == Ok(false) && unchanged(p)
    ensures !IsEnd(old(p.lastEvent)) ==>
      Spent(r, LeaveFit(old(p.M()), old(p.Observed(p.lastEvent)), true, old(p.pathCapacity), p.maxDepth),
            p.pathCapacity)
    ensures !IsEnd(old(p.lastEvent)) && r.Ok? ==>
      LeaveOutcome(old(p.M()), old(p.Observed(p.lastEvent)), true, p.maxDepth, old(p.skipInfo),
                   r.value, p.M(), p.skipInfo)
  {
    hide Step, Close, CloseFit, Add, Current, CountScalar, CountItems, TreeOutcome;
    hide Utf8JsonParser.M, Utf8JsonParser.Agrees, Utf8JsonParser.Live;
    ghost var m, ev, base := p.M(), p.Observed(p.lastEvent), p.skipInfo;
    ValueCount(ev, base);
    r := SkipEvent(p);
    if r.Ok? && Inside(m) && ev.Start? {
      SkippedStart(m, ev.kind, ev.key, base, p.maxDepth, r.value, p.M(), p.skipInfo);
    }
  }

  /** Behind the item that was left behind, the machine is inside the container of this kind. */
  lemma LeftBehind(m: Machine, ev: Event, skip: bool, maxDepth: int, base: SkipInfo, m1: Machine, info: SkipInfo,
                   kind: Kind)
    requires Inside(m) && LeaveOutcome(m, ev, skip, maxDepth, base, true, m1, info)
    requires var frames := if skip && ev.Start? then Init(m.frames) else m.frames;
      frames != [] && KindOf(Top(frames)) == kind
    ensures !Step(m1, maxDepth).ev.End? || Step(m1, maxDepth).ev.kind == kind
  {
    hide Step, Close, Add, Current;
    StepInside(m1, maxDepth);
  }

  /** An advance is leaving the current item behind and one step. */
  lemma NextIs(m: Machine, ev: Event, skip: bool, maxDepth: int, base: SkipInfo, ok: bool, m1: Machine, info: SkipInfo,
               capacity: nat)
    requires LeaveOutcome(m, ev, skip, maxDepth, base, ok, m1, info)
    ensures !ok ==> m1 == Failed && NextOutcome(m, ev, skip, maxDepth, base, m1, Tree.Error, info, false)
    ensures ok ==> var s := Step(m1, maxDepth);
      NextOutcome(m, ev, skip, maxDepth, base, s.m, s.ev, info, s.ev.Value? || s.ev.Start?)
    ensures var left, fit := LeaveFit(m, ev, skip, capacity, maxDepth), NextFit(m, ev, skip, capacity, maxDepth);
      if left.Overrun? || !ok then fit == left else fit == StepFit(m1, left.capacity)
    ensures LeftGrew(m, ev, skip, maxDepth, base, info)
  {
    hide Step, Close, CloseFit, Add, Current, StepFit, LeftGrew;
    LeavingGrows(m, ev, skip, maxDepth, base, ok, m1, info);
  }

  /** What an advance that passes its checks does, from machine m behind event ev: the exception of the path buffer
      exactly where reading meets it, and otherwise one step behind what is left behind. */
  ghost predicate WentOn(p: Utf8JsonParser, r: Outcome<bool>, other: Kind, m: Machine, ev: Event, skip: bool,
                           base: SkipInfo, capacity: nat)
    reads p, p.input, p.input.buf, p.input.inputArray
  {
    var fit := NextFit(m, ev, skip, capacity, p.maxDepth);
    if fit.Overrun? then r == Throw(IndexOutOfRange)
    else
      && p.Settled() && p.pathCapacity == fit.capacity
      && NextOutcome(m, ev, skip, p.maxDepth, base, p.M(), p.Observed(p.lastEvent), p.skipInfo, r == Ok(true))
      && r == Answer(p.Observed(p.lastEvent), other)
      && LeftGrew(m, ev, skip, p.maxDepth, base, p.skipInfo)
  }

  lemma NotSkipped(m: Machine, ev: Event, maxDepth: int, base: SkipInfo, capacity: nat)
    ensures LeaveOutcome(m, ev, false, maxDepth, base, true, m, base)
    ensures LeaveFit(m, ev, false, capacity, maxDepth) == Fit(capacity)
  {
  }

  /** An advance that ends while it skips. */
  lemma LeaveFails(p: Utf8JsonParser, r: Outcome<bool>, m: Machine, ev: Event, skip: bool, base: SkipInfo,
                   capacity: nat)
    requires p.Ready() && (r.Ok? ==> p.Settled() && !r.value)
    requires Spent(r, LeaveFit(m, ev, skip, capacity, p.maxDepth), p.pathCapacity)
    requires r.Ok? ==> LeaveOutcome(m, ev, skip, p.maxDepth, base, false, p.M(), p.skipInfo)
    ensures NextFit(m, ev, skip, capacity, p.maxDepth) == if r.Throw? then Overrun else Fit(p.pathCapacity)
    ensures r.Ok? ==>
      p.Observed(p.lastEvent) == Tree.Error
      && NextOutcome(m, ev, skip, p.maxDepth, base, p.M(), Tree.Error, p.skipInfo, false)
      && LeftGrew(m, ev, skip, p.maxDepth, base, p.skipInfo)
  {
    hide Step, Close, CloseFit, Add, Current, FramesOf, Encodes, LeftGrew;
    if r.Ok? {
      LeavingGrows(m, ev, skip, p.maxDepth, base, false, p.M(), p.skipInfo);
    }
  }

  class JObj {
    const expectedLevel: int
    const debug: bool
    var hasIterated: bool
    var usedMember: bool

    constructor (level: int, debug: bool)
      ensures expectedLevel == level && this.debug == debug && !hasIterated && !usedMember
    {
      expectedLevel, this.debug, hasIterated, usedMember := level, debug, false, false;
    }

    /** The checks of the iterator: it is called at its own level inside its own kind of container. */
    predicate InPlace(p: Utf8JsonParser)
      reads this, p
    {
      if hasIterated then
        var level := if IsStart(p.lastEvent) then p.stateLevel - 1 else p.stateLevel;
        level == expectedLevel && 0 <= level < |p.state| && p.state[level] == ExpectMember
      else p.lastEvent == ObjectStart
    }

    /** The innermost container at the time of the call is the one the iterator belongs to, and a used
        container has been iterated to its end. */
    ghost predicate Consistent(p: Utf8JsonParser)
      requires p.Settled()
      reads this, p, p.input, p.input.buf, p.input.inputArray
    {
      && InPlace(p) && p.lastEvent != ErrorEvent && Inside(p.M())
      && (hasIterated ==>
            var frames := if IsStart(p.lastEvent) then Init(p.M().frames) else p.M().frames;
            frames != [] && KindOf(Top(frames)) == ObjectKind)
      && (hasIterated && IsStart(p.lastEvent) ==> !usedMember)
      && (IsEnd(p.lastEvent) ==> usedMember)
      && (!hasIterated ==> !usedMember) && (IsValue(p.lastEvent) || IsStart(p.lastEvent) || IsEnd(p.lastEvent))
    }

    /** Behind the end of a container that was not used, or of the document. */
    predicate EndNotUsed(p: Utf8JsonParser)
      reads this, p
    {
      hasIterated && !usedMember && IsEnd(p.lastEvent)
    }

    /** What the checks of an advance ask for: without the debug checks only the first call has one. */
    predicate Passes(p: Utf8JsonParser)
      reads this, p
    {
      (hasIterated && !debug) || InPlace(p)
    }

    /** Where a consistent iterator stands. */
    lemma Place(p: Utf8JsonParser)
      requires p.Settled() && Consistent(p)
      ensures p.lastEvent != ErrorEvent && Inside(p.M()) && Passes(p) && !EndNotUsed(p)
      ensures (IsStart(p.lastEvent) <==> p.Observed(p.lastEvent).Start?) && (!hasIterated ==> !usedMember)
      ensures var skip := hasIterated && !usedMember && p.Observed(p.lastEvent).Start?;
        var frames := if skip then Init(p.M().frames) else p.M().frames;
        frames != [] && KindOf(Top(frames)) == ObjectKind
    {
      hide Utf8JsonParser.M, Utf8JsonParser.Live;
    }

    /** The part of an advance before the next event is read. */
    method LeaveCurrent(p: Utf8JsonParser) returns (r: Outcome<bool>)
      requires p.Settled() && p.lastEvent != ErrorEvent
      modifies this`hasIterated, this`usedMember, p, p.input, p.input.buf
      ensures p.Ready() && p.maxDepth == old(p.maxDepth) && p.input.inputArray == old(p.input.inputArray)
      ensures r.Ok? ==> p.Settled() && hasIterated && usedMember == old(!hasIterated && usedMember)
      ensures !old(Passes(p)) ==> r == Throw(InvalidOperation) && unchanged(this) && unchanged(p)
      ensures old(Passes(p) && EndNotUsed(p)) ==> r == Ok(false) && unchanged(p)
      ensures old(Passes(p) && !EndNotUsed(p)) ==>
        Spent(r, LeaveFit(old(p.M()), old(p.Observed(p.lastEvent)), old(hasIterated && !usedMember),
                          old(p.pathCapacity), p.maxDepth), p.pathCapacity)
      ensures old(Passes(p) && !EndNotUsed(p)) && r.Ok? ==>
        LeaveOutcome(old(p.M()), old(p.Observed(p.lastEvent)), old(hasIterated && !usedMember), p.maxDepth,
                     old(p.skipInfo), r.value, p.M(), p.skipInfo)
    {
      hide LeaveOutcome, LeaveFit, Utf8JsonParser.M, Utf8JsonParser.Agrees, Utf8JsonParser.Live;
      hide Utf8JsonParser.Observed;
      NotSkipped(p.M(), p.Observed(p.lastEvent), p.maxDepth, p.skipInfo, p.pathCapacity);
      if hasIterated {
        if debug {
          var level := p.stateLevel;
          if p.lastEvent == ObjectStart || p.lastEvent == ArrayStart {
            level := level - 1;
          }
          if level != expectedLevel {
            return Throw(InvalidOperation);
          }
          if level < 0 || p.state[level] != ExpectMember {
            return Throw(InvalidOperation);
          }
        }
        if !usedMember {
          r := SkipCurrent(p);
          return;
        }
        usedMember := false;
      } else {
        if p.lastEvent != ObjectStart {
          return Throw(InvalidOperation);
        }
        hasIterated := true;
      }
      return Ok(true);
    }

    /** The next event of an advance. */
    static method ReadNext(p: Utf8JsonParser) returns (r: Outcome<bool>)
      requires p.Settled()
      modifies p, p.input, p.input.buf
      ensures p.Ready() && p.maxDepth == old(p.maxDepth) && p.input.inputArray == old(p.input.inputArray)
      ensures p.skipInfo == old(p.skipInfo)
      ensures var fit := StepFit(old(p.M()), old(p.pathCapacity));
        if fit.Overrun? then r == Throw(IndexOutOfRange)
        else
          var s := Step(old(p.M()), p.maxDepth);
          && p.Settled() && p.M() == s.m && p.Observed(p.lastEvent) == s.ev && r == Answer(s.ev, ArrayKind)
          && p.pathCapacity == fit.capacity
    {
      hide Step, Overruns, CapacityAfter, Utf8JsonParser.Agrees, Utf8JsonParser.M, Utf8JsonParser.Live;
      var ev :- p.NextEvent();
      match ev {
        case ValueString => return Ok(true);
        case ValueNumber => return Ok(true);
        case ValueBool => return Ok(true);
        case ValueNull => return Ok(true);
        case ObjectStart => return Ok(true);
        case ArrayStart => return Ok(true);
        case ArrayEnd => return Throw(InvalidOperation);
        case _ => return Ok(false);
      }
    }

    /** Moves to the next member and skips the current one unless it has been used. The checks of its place exist in
        debug builds only. */
    method NextObjectMember(p: Utf8JsonParser) returns (r: Outcome<bool>)
      requires p.Settled()
      modifies this`hasIterated, this`usedMember, p, p.input, p.input.buf
      ensures p.Ready() && p.maxDepth == old(p.maxDepth) && p.input.inputArray == old(p.input.inputArray)
      ensures r.Ok? ==> p.Settled()
      ensures old(p.lastEvent) == ErrorEvent ==> r == Ok(false) && unchanged(p)
      ensures old(p.lastEvent) != ErrorEvent && !old(Passes(p)) ==> r == Throw(InvalidOperation) && unchanged(p)
      ensures old(p.lastEvent) != ErrorEvent && old(Passes(p) && EndNotUsed(p)) ==> r == Ok(false) && unchanged(p)
      ensures old(p.lastEvent) != ErrorEvent && old(Passes(p) && !EndNotUsed(p)) ==>
        WentOn(p, r, ArrayKind, old(p.M()), old(p.Observed(p.lastEvent)), old(hasIterated && !usedMember),
                 old(p.skipInfo), old(p.pathCapacity))
      ensures old(p.lastEvent) != ErrorEvent && old(Passes(p)) && r.Ok? ==>
        hasIterated && usedMember == old(!hasIterated && usedMember)
      ensures old(Consistent(p)) ==> r != Throw(InvalidOperation) && (r.Ok? ==> !usedMember)
      ensures old(Consistent(p)) ==> old(p.lastEvent) != ErrorEvent && old(Passes(p) && !EndNotUsed(p))
    {
      hide Step, Close, CloseFit, LeaveOutcome, NextOutcome, LeaveFit, NextFit, LeftGrew, JObj.Consistent, JObj.InPlace;
      hide Utf8JsonParser.Agrees, Utf8JsonParser.Live, Utf8JsonParser.Frames, Utf8JsonParser.M, Utf8JsonParser.Observed;
      ghost var consistent, passes := Consistent(p), Passes(p) && !EndNotUsed(p);
      ghost var m, ev, base, skip := p.M(), p.Observed(p.lastEvent), p.skipInfo, hasIterated && !usedMember;
      ghost var capacity := p.pathCapacity;
      if consistent {
        Place(p);
      }
      if p.lastEvent == ErrorEvent {
        return Ok(false);
      }
      r := LeaveCurrent(p);
      if r.Throw? || !r.value {
        if passes {
          LeaveFails(p, r, m, ev, skip, base, capacity);
        }
        return;
      }
      if passes {
        NextIs(m, ev, skip, p.maxDepth, base, true, p.M(), p.skipInfo, capacity);
      }
      if consistent {
        LeftBehind(m, ev, skip, p.maxDepth, base, p.M(), p.skipInfo, ObjectKind);
      }
      r := ReadNext(p);
    }

    /** The check of the Use methods, which exists in debug builds only. */
    method UseMember(p: Utf8JsonParser) returns (r: Outcome<()>)
      requires p.Valid()
      ensures r == if !debug || (hasIterated && InPlace(p)) then Ok(()) else Throw(InvalidOperation)
    {
      if !debug {
        return Ok(());
      }
      if !hasIterated {
        return Throw(InvalidOperation);
      }
      var level := p.stateLevel;
      if IsStart(p.lastEvent) {
        level := level - 1;
      }
      if level != expectedLevel {
        return Throw(InvalidOperation);
      }
      if level < 0 || p.state[level] != ExpectMember {
        return Throw(InvalidOperation);
      }
      return Ok(());
    }

    /** UseMemberNum, UseMemberStr, UseMemberBln and UseMemberNul differ only in the event they expect. */
    method UseMemberValue(p: Utf8JsonParser, ev: JsonEvent, name: seq<byte>) returns (r: Outcome<bool>)
      requires p.Valid() && IsValue(ev)
      modifies this`usedMember
      ensures r == if !debug || (hasIterated && old(InPlace(p))) then Ok(p.lastEvent == ev && p.key == name)
                   else Throw(InvalidOperation)
      ensures usedMember == (old(usedMember) || r == Ok(true))
    {
      var _ :- UseMember(p);
      if p.lastEvent != ev || p.key != name {
        return Ok(false);
      }
      usedMember := true;
      return Ok(true);
    }

    method UseMemberObj(p: Utf8JsonParser, name: seq<byte>) returns (r: Outcome<bool>, obj: JObj)
      requires p.Valid()
      modifies this`usedMember
      ensures r == if !debug || (hasIterated && old(InPlace(p))) then Ok(p.lastEvent == ObjectStart && p.key == name)
                   else Throw(InvalidOperation)
      ensures usedMember == (old(usedMember) || r == Ok(true))
      ensures fresh(obj) && obj.debug == debug
      ensures !obj.hasIterated && !obj.usedMember && (r == Ok(true) ==> obj.expectedLevel == p.stateLevel)
    {
      var check := UseMember(p);
      if check.Throw? || p.lastEvent != ObjectStart || p.key != name {
        obj := new JObj(-1, debug);
        return if check.Throw? then Throw(check.e) else Ok(false), obj;
      }
      obj := new JObj(p.stateLevel, debug);
      usedMember := true;
      return Ok(true), obj;
    }

    method UseMemberArr(p: Utf8JsonParser, name: seq<byte>) returns (r: Outcome<bool>, arr: JArr)
      requires p.Valid()
      modifies this`usedMember
      ensures r == if !debug || (hasIterated && old(InPlace(p))) then Ok(p.lastEvent == ArrayStart && p.key == name)
                   else Throw(InvalidOperation)
      ensures usedMember == (old(usedMember) || r == Ok(true))
      ensures fresh(arr) && arr.debug == debug
      ensures !arr.hasIterated && !arr.usedMember && (r == Ok(true) ==> arr.expectedLevel == p.stateLevel)
    {
      var check := UseMember(p);
      if check.Throw? || p.lastEvent != ArrayStart || p.key != name {
        arr := new JArr(-1, debug);
        return if check.Throw? then Throw(check.e) else Ok(false), arr;
      }
      usedMember := true;
      arr := new JArr(p.stateLevel, debug);
      return Ok(true), arr;
    }
  }

  class JArr {
    const expectedLevel: int
    const debug: bool
    var hasIterated: bool
    var usedMember: bool

    constructor (level: int, debug: bool)
      ensures expectedLevel == level && this.debug == debug && !hasIterated && !usedMember
    {
      expectedLevel, this.debug, hasIterated, usedMember := level, debug, false, false;
    }

    /** The checks of the iterator: it is called at its own level inside its own kind of container. */
    predicate InPlace(p: Utf8JsonParser)
      reads this, p
    {
      if hasIterated then
        var level := if IsStart(p.lastEvent) then p.stateLevel - 1 else p.stateLevel;
        level == expectedLevel && 0 <= level < |p.state| && p.state[level] == ExpectElement
      else p.lastEvent == ArrayStart
    }

    /** The innermost container at the time of the call is the one the iterator belongs to, and a used
        container has been iterated to its end. */
    ghost predicate Consistent(p: Utf8JsonParser)
      requires p.Settled()
      reads this, p, p.input, p.input.buf, p.input.inputArray
    {
      && InPlace(p) && p.lastEvent != ErrorEvent && Inside(p.M())
      && (hasIterated ==>
            var frames := if IsStart(p.lastEvent) then Init(p.M().frames) else p.M().frames;
            frames != [] && KindOf(Top(frames)) == ArrayKind)
      && (hasIterated && IsStart(p.lastEvent) ==> !usedMember)
      && (IsEnd(p.lastEvent) ==> usedMember)
      && (!hasIterated ==> !usedMember) && (IsValue(p.lastEvent) || IsStart(p.lastEvent) || IsEnd(p.lastEvent))
    }

    /** Behind the end of a container that was not used, or of the document. */
    predicate EndNotUsed(p: Utf8JsonParser)
      reads this, p
    {
      hasIterated && !usedMember && IsEnd(p.lastEvent)
    }

    /** What the checks of an advance ask for: without the debug checks only the first call has one. */
    predicate Passes(p: Utf8JsonParser)
      reads this, p
    {
      (hasIterated && !debug) || InPlace(p)
    }

    /** Where a consistent iterator stands. */
    lemma Place(p: Utf8JsonParser)
      requires p.Settled() && Consistent(p)
      ensures p.lastEvent != ErrorEvent && Inside(p.M()) && Passes(p) && !EndNotUsed(p)
      ensures (IsStart(p.lastEvent) <==> p.Observed(p.lastEvent).Start?) && (!hasIterated ==> !usedMember)
      ensures var skip := hasIterated && !usedMember && p.Observed(p.lastEvent).Start?;
        var frames := if skip then Init(p.M().frames) else p.M().frames;
        frames != [] && KindOf(Top(frames)) == ArrayKind
    {
      hide Utf8JsonParser.M, Utf8JsonParser.Live;
    }

    /** The part of an advance before the next event is read. */
    method LeaveCurrent(p: Utf8JsonParser) returns (r: Outcome<bool>)
      requires p.Settled() && p.lastEvent != ErrorEvent
      modifies this`hasIterated, this`usedMember, p, p.input, p.input.buf
      ensures p.Ready() && p.maxDepth == old(p.maxDepth) && p.input.inputArray == old(p.input.inputArray)
      ensures r.Ok? ==> p.Settled() && hasIterated && usedMember == old(!hasIterated && usedMember)
      ensures !old(Passes(p)) ==> r == Throw(InvalidOperation) && unchanged(this) && unchanged(p)
      ensures old(Passes(p) && EndNotUsed(p)) ==> r == Ok(false) && unchanged(p)
      ensures old(Passes(p) && !EndNotUsed(p)) ==>
        Spent(r, LeaveFit(old(p.M()), old(p.Observed(p.lastEvent)), old(hasIterated && !usedMember),
                          old(p.pathCapacity), p.maxDepth), p.pathCapacity)
      ensures old(Passes(p) && !EndNotUsed(p)) && r.Ok? ==>
        LeaveOutcome(old(p.M()), old(p.Observed(p.lastEvent)), old(hasIterated && !usedMember), p.maxDepth,
                     old(p.skipInfo), r.value, p.M(), p.skipInfo)
    {
      hide LeaveOutcome, LeaveFit, Utf8JsonParser.M, Utf8JsonParser.Agrees, Utf8JsonParser.Live;
      hide Utf8JsonParser.Observed;
      NotSkipped(p.M(), p.Observed(p.lastEvent), p.maxDepth, p.skipInfo, p.pathCapacity);
      if hasIterated {
        if debug {
          var level := p.stateLevel;
          if p.lastEvent == ObjectStart || p.lastEvent == ArrayStart {
            level := level - 1;
          }
          if level != expectedLevel {
            return Throw(InvalidOperation);
          }
          if level < 0 || p.state[level] != ExpectElement {
            return Throw(InvalidOperation);
          }
        }
        if !usedMember {
          r := SkipCurrent(p);
          return;
        }
        usedMember := false;
      } else {
        if p.lastEvent != ArrayStart {
          return Throw(InvalidOperation);
        }
        hasIterated := true;
      }
      return Ok(true);
    }

    /** The next event of an advance. */
    static method ReadNext(p: Utf8JsonParser) returns (r: Outcome<bool>)
      requires p.Settled()
      modifies p, p.input, p.input.buf
      ensures p.Ready() && p.maxDepth == old(p.maxDepth) && p.input.inputArray == old(p.input.inputArray)
      ensures p.skipInfo == old(p.skipInfo)
      ensures var fit := StepFit(old(p.M()), old(p.pathCapacity));
        if fit.Overrun? then r == Throw(IndexOutOfRange)
        else
          var s := Step(old(p.M()), p.maxDepth);
          && p.Settled() && p.M() == s.m && p.Observed(p.lastEvent) == s.ev && r == Answer(s.ev, ObjectKind)
          && p.pathCapacity == fit.capacity
    {
      hide Step, Overruns, CapacityAfter, Utf8JsonParser.Agrees, Utf8JsonParser.M, Utf8JsonParser.Live;
      var ev :- p.NextEvent();
      match ev {
        case ValueString => return Ok(true);
        case ValueNumber => return Ok(true);
        case ValueBool => return Ok(true);
        case ValueNull => return Ok(true);
        case ObjectStart => return Ok(true);
        case ArrayStart => return Ok(true);
        case ObjectEnd => return Throw(InvalidOperation);
        case _ => return Ok(false);
      }
    }

    /** Moves to the next element and skips the current one unless it has been used. The checks of its place exist in
        debug builds only. */
    method NextArrayElement(p: Utf8JsonParser) returns (r: Outcome<bool>)
      requires p.Settled()
      modifies this`hasIterated, this`usedMember, p, p.input, p.input.buf
      ensures p.Ready() && p.maxDepth == old(p.maxDepth) && p.input.inputArray == old(p.input.inputArray)
      ensures r.Ok? ==> p.Settled()
      ensures old(p.lastEvent) == ErrorEvent ==> r == Ok(false) && unchanged(p)
      ensures old(p.lastEvent) != ErrorEvent && !old(Passes(p)) ==> r == Throw(InvalidOperation) && unchanged(p)
      ensures old(p.lastEvent) != ErrorEvent && old(Passes(p) && EndNotUsed(p)) ==> r == Ok(false) && unchanged(p)
      ensures old(p.lastEvent) != ErrorEvent && old(Passes(p) && !EndNotUsed(p)) ==>
        WentOn(p, r, ObjectKind, old(p.M()), old(p.Observed(p.lastEvent)), old(hasIterated && !usedMember),
                 old(p.skipInfo), old(p.pathCapacity))
      ensures old(p.lastEvent) != ErrorEvent && old(Passes(p)) && r.Ok? ==>
        hasIterated && usedMember == old(!hasIterated && usedMember)
      ensures old(Consistent(p)) ==> r != Throw(InvalidOperation) && (r.Ok? ==> !usedMember)
      ensures old(Consistent(p)) ==> old(p.lastEvent) != ErrorEvent && old(Passes(p) && !EndNotUsed(p))
    {
      hide Step, Close, CloseFit, LeaveOutcome, NextOutcome, LeaveFit, NextFit, LeftGrew, JArr.Consistent, JArr.InPlace;
      hide Utf8JsonParser.Agrees, Utf8JsonParser.Live, Utf8JsonParser.Frames, Utf8JsonParser.M, Utf8JsonParser.Observed;
      ghost var consistent, passes := Consistent(p), Passes(p) && !EndNotUsed(p);
      ghost var m, ev, base, skip := p.M(), p.Observed(p.lastEvent), p.skipInfo, hasIterated && !usedMember;
      ghost var capacity := p.pathCapacity;
      if consistent {
        Place(p);
      }
      if p.lastEvent == ErrorEvent {
        return Ok(false);
      }
      r := LeaveCurrent(p);
      if r.Throw? || !r.value {
        if passes {
          LeaveFails(p, r, m, ev, skip, base, capacity);
        }
        return;
      }
      if passes {
        NextIs(m, ev, skip, p.maxDepth, base, true, p.M(), p.skipInfo, capacity);
      }
      if consistent {
        LeftBehind(m, ev, skip, p.maxDepth, base, p.M(), p.skipInfo, ArrayKind);
      }
      r := ReadNext(p);
    }

    /** The check of the Use methods, which exists in debug builds only. */
    method UseElement(p: Utf8JsonParser) returns (r: Outcome<()>)
      requires p.Valid()
      ensures r == if !debug || (hasIterated && InPlace(p)) then Ok(()) else Throw(InvalidOperation)
    {
      if !debug {
        return Ok(());
      }
      if !hasIterated {
        return Throw(InvalidOperation);
      }
      var level := p.stateLevel;
      if IsStart(p.lastEvent) {
        level := level - 1;
      }
      if level != expectedLevel {
        return Throw(InvalidOperation);
      }
      if level < 0 || p.state[level] != ExpectElement {
        return Throw(InvalidOperation);
      }
      return Ok(());
    }

    /** UseElementNum, UseElementStr, UseElementBln and UseElementNul differ only in the event they expect. */
    method UseElementValue(p: Utf8JsonParser, ev: JsonEvent) returns (r: Outcome<bool>)
      requires p.Valid() && IsValue(ev)
      modifies this`usedMember
      ensures r == if !debug || (hasIterated && old(InPlace(p))) then Ok(p.lastEvent == ev)
                   else Throw(InvalidOperation)
      ensures usedMember == (old(usedMember) || r == Ok(true))
    {
      var _ :- UseElement(p);
      if p.lastEvent != ev {
        return Ok(false);
      }
      usedMember := true;
      return Ok(true);
    }

    method UseElementObj(p: Utf8JsonParser) returns (r: Outcome<bool>, obj: JObj)
      requires p.Valid()
      modifies this`usedMember
      ensures r == if !debug || (hasIterated && old(InPlace(p))) then Ok(p.lastEvent == ObjectStart)
                   else Throw(InvalidOperation)
      ensures usedMember == (old(usedMember) || r == Ok(true))
      ensures fresh(obj) && obj.debug == debug
      ensures !obj.hasIterated && !obj.usedMember && (r == Ok(true) ==> obj.expectedLevel == p.stateLevel)
    {
      var check := UseElement(p);
      if check.Throw? || p.lastEvent != ObjectStart {
        obj := new JObj(-1, debug);
        return if check.Throw? then Throw(check.e) else Ok(false), obj;
      }
      obj := new JObj(p.stateLevel, debug);
      usedMember := true;
      return Ok(true), obj;
    }

    method UseElementArr(p: Utf8JsonParser) returns (r: Outcome<bool>, arr: JArr)
      requires p.Valid()
      modifies this`usedMember
      ensures r == if !debug || (hasIterated && old(InPlace(p))) then Ok(p.lastEvent == ArrayStart)
                   else Throw(InvalidOperation)
      ensures usedMember == (old(usedMember) || r == Ok(true))
      ensures fresh(arr) && arr.debug == debug
      ensures !arr.hasIterated && !arr.usedMember && (r == Ok(true) ==> arr.expectedLevel == p.stateLevel)
    {
      var check := UseElement(p);
      if check.Throw? || p.lastEvent != ArrayStart {
        arr := new JArr(-1, debug);
        return if check.Throw? then Throw(check.e) else Ok(false), arr;
      }
      usedMember := true;
      arr := new JArr(p.stateLevel, debug);
      return Ok(true), arr;
    }
  }
}
