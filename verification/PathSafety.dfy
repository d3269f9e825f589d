/** When reading a document runs into the exception of the path buffer: an empty key at the end of a
    full buffer. The buffer keeps its capacity from one document to the next, so this is the one thing
    in which a reused parser differs from a fresh one. */
module PathSafety {
  import opened Ascii
  import opened Lexer
  import opened Tree
  import opened Machine
  import opened Containers
  import opened Grammar
  import opened ParserState
  import opened Outcome
  import opened Session

  predicate HasEmptyKey(ev: Event) {
    (ev.Value? || ev.Start?) && ev.key == Key([])
  }

  // ------------------------------------------------------------ the exact condition, from the keys of the tree

  /** What reading some way does to the path buffer: its capacity afterwards, or the exception. */
  datatype Fit = Fit(capacity: nat) | Overrun

  /** A result that shows the exception exactly if there is one, and the capacity it left otherwise. */
  predicate Spent<T>(r: Outcome<T>, fit: Fit, capacity: nat) {
    if r.Throw? then r.e == IndexOutOfRange && fit.Overrun? else fit == Fit(capacity)
  }

  /** Walks over the keys in pre-order with the length of the path to the container and the capacity: fails at
      an empty key where the path fills the buffer. */
  function KeysFit(items: Items, length: nat, capacity: nat): Fit
    decreases items
  {
    match items
    case Nil => Fit(capacity)
    case Cons(key, v, tail) =>
      if key == Key([]) && length == capacity then Overrun
      else
        var longer := length + KeyLength(key);
        var grown := if key.Key? then Grown(capacity, longer) else capacity;
        var inner := if v.Node? then KeysFit(v.items, longer, grown) else Fit(grown);
        if inner.Overrun? then Overrun else KeysFit(tail, length, inner.capacity)
  }

  function KeyLength(key: Label): nat {
    if key.Key? then |key.text| else 0
  }

  /** What a step that reads an item does to the capacity, and to the length of the path below the item. */
  lemma ItemCapacity(m: Machine, capacity: nat, maxDepth: int)
    requires Inside(m) && var ev := Step(m, maxDepth).ev; ev.Value? || ev.Start?
    ensures var s, length := Step(m, maxDepth), PathLength(Init(m.frames));
      && (Overruns(m, capacity) <==> s.ev.key == Key([]) && length == capacity)
      && CapacityAfter(m, capacity)
          == (if s.ev.key.Key? then Grown(capacity, length + KeyLength(s.ev.key)) else capacity)
      && Inside(s.m)
      && (s.ev.Value? ==> PathLength(Init(s.m.frames)) == length)
      && (s.ev.Start? ==> PathLength(Init(s.m.frames)) == length + KeyLength(s.ev.key))
  {
    hide SkipWs, ReadKey, StepColon, StepValue, Grown;
    StepInside(m, maxDepth);
    var s := Step(m, maxDepth);
    if Top(m.frames).InObject? {
      MemberStep(m.frames, m.rest, maxDepth);
      ItemFrames(m, s, InObject(Key(ReadKey(Top(m.frames).key, SkipWs(m.rest)).text)));
    } else {
      ElementStep(m.frames, m.rest, maxDepth);
      ItemFrames(m, s, InArray(Top(m.frames).count + 1));
    }
  }

  lemma ItemFrames(m: Machine, s: Result, top: Frame)
    requires Inside(m) && (s.ev.Value? || s.ev.Start?) && s.m.Open?
    requires s.m.frames == Init(m.frames) + [top] + if s.ev.Start? then [NewFrame(s.ev.kind)] else []
    ensures Inside(s.m)
    ensures s.ev.Value? ==> PathLength(Init(s.m.frames)) == PathLength(Init(m.frames))
    ensures s.ev.Start? ==>
      PathLength(Init(s.m.frames)) == PathLength(Init(m.frames)) + (match top case InObject(Key(k)) => |k| case _ => 0)
  {
    if s.ev.Start? {
      assert Init(s.m.frames) == Init(m.frames) + [top];
      assert Init(Init(m.frames) + [top]) == Init(m.frames);
    } else {
      assert Init(s.m.frames) == Init(m.frames);
    }
  }

  lemma NoKeyAtEnd(m: Machine, maxDepth: int)
    requires Inside(m) && Step(m, maxDepth).ev.End?
    ensures KeyOf(m) == Bad
  {
    hide ReadKey, StepColon, StepValue;
    if Top(m.frames).InObject? {
      MemberStep(m.frames, m.rest, maxDepth);
    }
  }

  /** One call. */
  function StepFit(m: Machine, capacity: nat): Fit {
    if Overruns(m, capacity) then Overrun else Fit(CapacityAfter(m, capacity))
  }

  /** Reads on to the end of the innermost container, or to the first error in it: the capacity there, unless a
      call on the way runs into the exception. */
  function CloseFit(m: Machine, capacity: nat, maxDepth: int): Fit
    requires Inside(m)
    decreases m.Unread(), 0
  {
    StepInside(m, maxDepth);
    var s, grown := Step(m, maxDepth), CapacityAfter(m, capacity);
    if Overruns(m, capacity) then Overrun
    else if s.ev.Value? || s.ev.Start? then ItemFit(s.m, s.ev, grown, maxDepth)
    else Fit(grown)
  }

  /** The same from behind the event of an item: through the container it starts, then on. */
  function ItemFit(m: Machine, ev: Event, capacity: nat, maxDepth: int): Fit
    requires Inside(m)
    decreases m.Unread(), 1
  {
    if !ev.Start? then CloseFit(m, capacity, maxDepth)
    else
      var inner, d := CloseFit(m, capacity, maxDepth), Close(m, maxDepth);
      if inner.Overrun? || d.Broken? || !Inside(d.m) then inner else CloseFit(d.m, inner.capacity, maxDepth)
  }

  lemma CloseFitCases(m: Machine, capacity: nat, maxDepth: int)
    requires Inside(m)
    ensures StepShape(m.frames, Step(m, maxDepth))
    ensures var s, grown := Step(m, maxDepth), CapacityAfter(m, capacity);
      CloseFit(m, capacity, maxDepth) ==
        if Overruns(m, capacity) then Overrun
        else if s.ev.Value? || s.ev.Start? then ItemFit(s.m, s.ev, grown, maxDepth)
        else Fit(grown)
  {
    hide Step, ItemFit, Overruns, CapacityAfter;
    StepInside(m, maxDepth);
  }

  /** A container is read on safely exactly if it is safe to its end and what follows is. */
  lemma {:induction false} SafeIffCloseFit(m: Machine, capacity: nat, maxDepth: int)
    requires Inside(m)
    ensures var fit, c := CloseFit(m, capacity, maxDepth), Close(m, maxDepth);
      Safe(m, capacity, maxDepth) <==> fit.Fit? && (c.Closed? ==> Safe(c.m, fit.capacity, maxDepth))
    decreases m.Unread()
  {
    hide Step, Close, CloseFit, Safe, Overruns, CapacityAfter;
    CloseCases(m, maxDepth);
    CloseFitCases(m, capacity, maxDepth);
    SafeStep(m, capacity, maxDepth);
    var s, grown := Step(m, maxDepth), CapacityAfter(m, capacity);
    if s.ev.Value? || s.ev.Start? {
      SafeIffCloseFit(s.m, grown, maxDepth);
      var d, inner := Close(s.m, maxDepth), CloseFit(s.m, grown, maxDepth);
      if s.ev.Start? && d.Closed? && inner.Fit? {
        SafeIffCloseFit(d.m, inner.capacity, maxDepth);
      }
    }
  }

  /** For a container that closes the condition is a walk over its keys. */
  lemma {:induction false} CloseFitIsKeysFit(m: Machine, capacity: nat, maxDepth: int)
    requires Inside(m) && Close(m, maxDepth).Closed?
    ensures CloseFit(m, capacity, maxDepth)
      == KeysFit(Close(m, maxDepth).items, PathLength(Init(m.frames)), capacity)
    decreases m.Unread()
  {
    hide Step, Close, CloseFit, Overruns, CapacityAfter, PathLength, Grown;
    CloseCases(m, maxDepth);
    CloseFitCases(m, capacity, maxDepth);
    var s := Step(m, maxDepth);
    if s.ev.End? {
      NoKeyAtEnd(m, maxDepth);
      NoKeyNoChange(m, capacity);
    } else {
      ItemCapacity(m, capacity, maxDepth);
      var grown := CapacityAfter(m, capacity);
      CloseFitIsKeysFit(s.m, grown, maxDepth);
      if s.ev.Start? {
        var d := Close(s.m, maxDepth);
        var inner := KeysFit(d.items, PathLength(Init(s.m.frames)), grown);
        assert Init(d.m.frames) == Init(m.frames);
        if inner.Fit? {
          CloseFitIsKeysFit(d.m, inner.capacity, maxDepth);
        }
      }
    }
  }

  lemma NoKeyNoChange(m: Machine, capacity: nat)
    requires KeyOf(m) == Bad
    ensures !Overruns(m, capacity) && CapacityAfter(m, capacity) == capacity
  {
  }

  /** An accepted document is read without the exception exactly if the keys of its tree fit. */
  lemma SafeIffKeysFit(s: seq<byte>, capacity: nat, maxDepth: int)
    requires ReadDocument(s, maxDepth).Document?
    ensures Safe(Fresh(s), capacity, maxDepth) <==>
      KeysFit(Cons(NoKey, ReadDocument(s, maxDepth).tree, Nil), 0, capacity).Fit?
  {
    hide Step, Close, Safe, Overruns, CapacityAfter, Grown;
    SafeStep(Fresh(s), capacity, maxDepth);
    NoKeyNoChange(Fresh(s), capacity);
    StepFresh(s, maxDepth);
    var r := Step(Fresh(s), maxDepth);
    if r.ev.Start? {
      var c := Close(r.m, maxDepth);
      assert Init(r.m.frames) == [];
      SafeIffCloseFit(r.m, capacity, maxDepth);
      CloseFitIsKeysFit(r.m, capacity, maxDepth);
      var fit := KeysFit(c.items, 0, capacity);
      if fit.Fit? {
        SafeAtRoot(c.m, fit.capacity, maxDepth);
      }
    } else {
      SafeAtRoot(r.m, capacity, maxDepth);
    }
  }

  lemma SafeAtRoot(m: Machine, capacity: nat, maxDepth: int)
    requires m.Open? && m.frames == []
    ensures Safe(m, capacity, maxDepth)
  {
    hide Step;
    StepAtRoot(m, maxDepth);
    NoKeyNoChange(m, capacity);
  }

  // ------------------------------------------------------------ the exact condition for every input, from its events

  /** The length of the path to the innermost open container. */
  function Here(lengths: seq<nat>): nat {
    if lengths == [] then 0 else Top(lengths)
  }

  predicate KeyFits(key: Label, lengths: seq<nat>, capacity: nat) {
    !(key == Key([]) && Here(lengths) == capacity)
  }

  /** Walks over events with the lengths of the paths to the open containers, outermost first, and the capacity;
      behind them, the key that the call after the last event reads before it fails. */
  predicate EventsFit(evs: seq<Event>, failing: Label, lengths: seq<nat>, capacity: nat)
    decreases |evs|
  {
    if evs == [] then KeyFits(failing, lengths, capacity)
    else if evs[0].Value? || evs[0].Start? then
      var key := evs[0].key;
      var longer := Here(lengths) + KeyLength(key);
      && KeyFits(key, lengths, capacity)
      && EventsFit(evs[1..], failing, if evs[0].Start? then lengths + [longer] else lengths,
                   if key.Key? then Grown(capacity, longer) else capacity)
    else EventsFit(evs[1..], failing, if lengths == [] then [] else Init(lengths), capacity)
  }

  /** The key the next call reads, whether or not the call fails behind it. */
  function NextKey(m: Machine): Label {
    if KeyOf(m).Token? then Key(KeyOf(m).text) else NoKey
  }

  /** The events before EOF or the first error, and the machine in front of the final call. */
  function EventsBefore(m: Machine, maxDepth: int): seq<Event> {
    Init(Run(m, maxDepth))
  }

  function LastState(m: Machine, maxDepth: int): Machine {
    After(m, |EventsBefore(m, maxDepth)|, maxDepth)
  }

  function Lengths(frames: seq<Frame>): seq<nat> {
    if frames == [] then [] else Lengths(Init(frames)) + [PathLength(Init(frames))]
  }

  function Below(m: Machine): seq<nat> {
    if m.Open? then Lengths(m.frames) else []
  }

  lemma LastStateStep(m: Machine, maxDepth: int)
    ensures var r := Step(m, maxDepth);
      if Last(r.ev) then EventsBefore(m, maxDepth) == [] && LastState(m, maxDepth) == m
      else
        && EventsBefore(m, maxDepth) == [r.ev] + EventsBefore(r.m, maxDepth)
        && LastState(m, maxDepth) == LastState(r.m, maxDepth)
  {
    hide Step;
    if !Last(Step(m, maxDepth).ev) {
      RunStep(m, maxDepth);
    }
  }

  /** One step that reads an item, an end or the root value, as the walk sees it. */
  lemma WalkStep(m: Machine, capacity: nat, maxDepth: int)
    requires !Last(Step(m, maxDepth).ev)
    ensures var s, here := Step(m, maxDepth), Here(Below(m));
      if s.ev.End? then
        !Overruns(m, capacity) && CapacityAfter(m, capacity) == capacity && Below(m) != []
            && Below(s.m) == Init(Below(m))
      else
        && (s.ev.Value? || s.ev.Start?)
        && (Overruns(m, capacity) <==> !KeyFits(s.ev.key, Below(m), capacity))
        && CapacityAfter(m, capacity)
          == (if s.ev.key.Key? then Grown(capacity, here + KeyLength(s.ev.key)) else capacity)
        && Below(s.m) == if s.ev.Start? then Below(m) + [here + KeyLength(s.ev.key)] else Below(m)
  {
    hide Step, Overruns, CapacityAfter, PathLength, Grown;
    var s := Step(m, maxDepth);
    if Inside(m) {
      StepInside(m, maxDepth);
      if s.ev.End? {
        NoKeyAtEnd(m, maxDepth);
        NoKeyNoChange(m, capacity);
      } else {
        ItemCapacity(m, capacity, maxDepth);
        LengthsSnoc(m.frames);
        LengthsSnoc(s.m.frames);
        if s.ev.Start? {
          LengthsSnoc(Init(s.m.frames));
        }
      }
    } else {
      NoKeyNoChange(m, capacity);
      RootStep(m, maxDepth);
      OuterLength(NewFrame(if s.ev.Start? then s.ev.kind else ObjectKind));
    }
  }

  lemma LengthsSnoc(frames: seq<Frame>)
    requires frames != []
    ensures Lengths(frames) == Lengths(Init(frames)) + [PathLength(Init(frames))]
  {
  }

  lemma OuterLength(f: Frame)
    ensures Lengths([f]) == [0] && Lengths([]) == []
  {
    assert Init([f]) == [];
  }

  lemma RootStep(m: Machine, maxDepth: int)
    requires !Inside(m) && !Last(Step(m, maxDepth).ev)
    ensures m.Fresh?
    ensures var r := Step(m, maxDepth);
      && !r.ev.End? && r.m.Open? && r.ev.key == NoKey
      && r.m.frames == if r.ev.Start? then [NewFrame(r.ev.kind)] else []
  {
    if m.Open? {
      StepAtRoot(m, maxDepth);
    } else if m.Fresh? {
      StepFresh(m.rest, maxDepth);
    }
  }

  lemma FinalCall(m: Machine, capacity: nat)
    ensures Overruns(m, capacity) <==> !KeyFits(NextKey(m), Below(m), capacity)
  {
    hide PathLength;
  }

  /** Whether reading runs into the exception is decided by the events before the end or the error and by the
      key that the failing call may have read, in every state and for every input. */
  lemma {:induction false} SafeIffEventsFit(m: Machine, capacity: nat, maxDepth: int)
    ensures Safe(m, capacity, maxDepth) <==>
      EventsFit(EventsBefore(m, maxDepth), NextKey(LastState(m, maxDepth)), Below(m), capacity)
    decreases m.Unread()
  {
    hide Step, Safe, Overruns, CapacityAfter, NextKey, LastState, EventsBefore, KeyFits, Grown, Below;
    SafeStep(m, capacity, maxDepth);
    LastStateStep(m, maxDepth);
    var r := Step(m, maxDepth);
    if Last(r.ev) {
      FinalCall(m, capacity);
    } else {
      WalkStep(m, capacity, maxDepth);
      SafeIffEventsFit(r.m, CapacityAfter(m, capacity), maxDepth);
      assert ([r.ev] + EventsBefore(r.m, maxDepth))[1..] == EventsBefore(r.m, maxDepth);
    }
  }

  lemma {:induction false} NoEmptyKeyFits(evs: seq<Event>, failing: Label, lengths: seq<nat>, capacity: nat)
    requires failing != Key([]) && forall i :: 0 <= i < |evs| ==> !HasEmptyKey(evs[i])
    ensures EventsFit(evs, failing, lengths, capacity)
    decreases |evs|
  {
    if evs != [] {
      var key := if evs[0].Value? || evs[0].Start? then evs[0].key else NoKey;
      var longer := Here(lengths) + KeyLength(key);
      assert !HasEmptyKey(evs[0]);
      NoEmptyKeyFits(evs[1..], failing,
        if evs[0].Start? then lengths + [longer]
        else if evs[0].Value? then lengths
        else if lengths == [] then [] else Init(lengths),
        if key.Key? then Grown(capacity, longer) else capacity);
    }
  }

  /** An input whose calls read no empty key, the failing one included, is read without the exception, whatever
      the capacity. */
  lemma SafeWithoutEmptyKeys(s: seq<byte>, capacity: nat, maxDepth: int)
    requires forall i :: 0 <= i < |EventsBefore(Fresh(s), maxDepth)| ==>
      !HasEmptyKey(EventsBefore(Fresh(s), maxDepth)[i])
    requires NextKey(LastState(Fresh(s), maxDepth)) != Key([])
    ensures Safe(Fresh(s), capacity, maxDepth)
  {
    hide Safe, EventsFit, EventsBefore, LastState, NextKey;
    SafeIffEventsFit(Fresh(s), capacity, maxDepth);
    NoEmptyKeyFits(EventsBefore(Fresh(s), maxDepth), NextKey(LastState(Fresh(s), maxDepth)), [], capacity);
  }

  // ------------------------------------------------------------ a document that only some parsers read

  /** The written document {"units":{"":null}}. */
  function NestedDocument(units: seq<Unit>): CDocument {
    var inner := CCons([], [], CKey([], [], []), CScalar(LNull), CNil);
    CDocument([], CNode(ObjectKind, CCons([], [], CKey(units, [], []), CNode(ObjectKind, inner, []), CNil), []), [])
  }

  lemma NestedTree(units: seq<Unit>, maxDepth: int)
    requires ValidUnits(units) && maxDepth >= 2
    ensures ValidDocument(NestedDocument(units), maxDepth)
    ensures TreeOf(NestedDocument(units).v)
      == Node(ObjectKind, Cons(Key(BodyBytes(units)), Node(ObjectKind, Cons(Key([]), Leaf(Null), Nil)), Nil))
  {
    var items := NestedDocument(units).v.items;
    var inner := items.v.items;
    assert ValidItems(ObjectKind, inner) && Valid(items.v);
    assert ItemsOf(ObjectKind, inner) == Cons(Key([]), Leaf(Null), Nil);
    assert ItemsOf(ObjectKind, items) == Cons(Key(BodyBytes(units)), TreeOf(items.v), Nil);
    assert Depth(TreeOf(items.v)) == 1;
  }

  /** A well-formed document that is read or not depending only on the capacity the parser happens to have:
      the exception comes exactly when the path buffer ends with the outer key. */
  lemma CapacityDecides(units: seq<Unit>, capacity: nat, maxDepth: int)
    requires ValidUnits(units) && maxDepth >= 2 && capacity >= 1
    ensures ValidDocument(NestedDocument(units), maxDepth)
    ensures Safe(Fresh(DocumentText(NestedDocument(units))), capacity, maxDepth)
      <==> Grown(capacity, |BodyBytes(units)|) != |BodyBytes(units)|
  {
    hide Safe, Grown, TreeOf, Valid, DocumentText, ReadDocument, BodyBytes;
    NestedTree(units, maxDepth);
    DocumentComplete(NestedDocument(units), maxDepth);
    SafeIffKeysFit(DocumentText(NestedDocument(units)), capacity, maxDepth);
    var key := BodyBytes(units);
    var inner := Cons(Key([]), Leaf(Null), Nil);
    var items := Cons(Key(key), Node(ObjectKind, inner), Nil);
    var grown := Grown(capacity, |key|);
    assert KeysFit(inner, |key|, grown).Fit? <==> grown != |key|;
    assert KeysFit(items, 0, capacity).Fit? <==> KeysFit(inner, |key|, grown).Fit?;
  }
}
