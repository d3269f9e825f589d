/** Reading whole documents with the parser: what a caller observes does not depend on the block size,
    on where blocks end, or on the documents read before. */
module Session {
  import opened Ascii
  import opened Lexer
  import opened Tree
  import opened Machine
  import opened ParserState
  import opened Outcome
  import opened Parser
  import opened Path

  /** One successful call: the event with its key and value, the number flag, the path and the position after it. */
  datatype Observation = Observation(ev: Event, float: bool, path: seq<byte>, position: int)

  predicate FloatFlag(ev: Event) {
    ev.Value? && ev.v.Num? && IsFloat(ev.v.text)
  }

  function FramesIn(m: Machine): seq<Frame> {
    if m.Open? then m.frames else []
  }

  /** What one call lets its caller observe; nothing if it is an error. */
  function Seen(r: Result, len: int): seq<Observation> {
    if r.ev == Error then []
    else [Observation(r.ev, FloatFlag(r.ev), RenderPath(FramesIn(r.m)), len - r.m.Unread())]
  }

  /** All observations on a document of len bytes up to EOF or the first error. */
  function Observations(m: Machine, maxDepth: int, len: int): seq<Observation>
    decreases m.Unread()
  {
    var r := Step(m, maxDepth);
    Seen(r, len) + if Last(r.ev) then [] else Observations(r.m, maxDepth, len)
  }

  /** The observed events are the run of the machine, without a final error. */
  lemma {:induction false} ObservedRun(m: Machine, maxDepth: int, len: int)
    ensures var obs, run := Observations(m, maxDepth, len), Run(m, maxDepth);
      && |obs| == (if Top(run) == Error then |run| - 1 else |run|)
      && forall i :: 0 <= i < |obs| ==> obs[i].ev == run[i]
    decreases m.Unread()
  {
    hide Step, RenderPath;
    var r := Step(m, maxDepth);
    if !Last(r.ev) {
      ObservedRun(r.m, maxDepth, len);
    }
  }

  method ObserveEvent(p: Utf8JsonParser, ev: JsonEvent, ghost r: Result, ghost len: int) returns (o: Observation)
    requires p.Agrees(ev, r) && r.ev != Error
    requires p.input.Position() + |p.input.Rem()| == len
    requires r.m == Finished ==> p.input.Rem() == []
    ensures o == Observation(r.ev, FloatFlag(r.ev), RenderPath(FramesIn(r.m)), len - r.m.Unread())
  {
    hide Step, RenderPath, FramesOf, Encodes, IsFloat;
    var path := GetPath(p);
    if p.stateLevel > 0 {
      TopKind(p.B(), p.stateLevel);
    } else {
      RootEncodes(p.B());
    }
    o := Observation(p.Observed(ev), ev == ValueNumber && p.isFloat, path, p.input.Position());
  }

  /** One observed call: what it showed, and whether it was the last one. */
  datatype ObservedCall = ObservedCall(seen: seq<Observation>, last: bool)

  method ObserveNext(p: Utf8JsonParser, ghost len: int) returns (r: Outcome<ObservedCall>)
    requires p.Valid() && p.input.inputArrayEnd - p.input.inputStart == len
    modifies p.input`pos, p.input`bufEnd, p.input`bufferCount, p.input`inputArrayPos, p.input`inputStreamOpen,
      p.input.buf
    modifies p`stateLevel, p`state, p`pathPos, p`arrIndex, p`path, p`pathCapacity, p`key, p`value, p`boolValue,
      p`isFloat
    modifies p`lastEvent, p`preErrorState, p`errorSet, p`errorMsg, p`errorPos
    ensures p.Ready()
    ensures r.Throw? <==> Overruns(old(p.M()), old(p.pathCapacity))
    ensures p.pathCapacity == CapacityAfter(old(p.M()), old(p.pathCapacity))
    ensures r.Ok? ==>
      var s := Step(old(p.M()), p.maxDepth);
      p.Valid() && p.M() == s.m && r.value == ObservedCall(Seen(s, len), Last(s.ev))
  {
    hide Step, RenderPath, Overruns, CapacityAfter, FloatFlag, FramesIn, Utf8JsonParser.Agrees, Utf8JsonParser.M;
    hide Utf8JsonParser.Live, Utf8JsonParser.Observed, Utf8JsonParser.Frames, Utf8JsonParser.Settled;
    ghost var s := Step(p.M(), p.maxDepth);
    var ev :- p.NextEvent();
    if ev == ErrorEvent {
      return Ok(ObservedCall([], true));
    }
    var o := ObserveEvent(p, ev, s, len);
    return Ok(ObservedCall([o], ev == EndOfFile));
  }

  /** Reads a document with a parser in any state, with blocks of any size. */
  method Observe(p: Utf8JsonParser, bytes: array<byte>, start: int, len: int) returns (r: Outcome<seq<Observation>>)
    requires p.Ready() && p.input.buf != bytes
    requires 0 <= start && 0 <= len && start + len <= bytes.Length
    modifies p, p.input, p.input.buf
    ensures p.Ready() && p.maxDepth == old(p.maxDepth)
    ensures var doc := bytes[start..start + len];
      && (r.Throw? <==> !Safe(Fresh(doc), old(p.pathCapacity), p.maxDepth))
      && (r.Ok? ==> r.value == Observations(Fresh(doc), p.maxDepth, len))
  {
    hide Step, Seen, Observations, Overruns, CapacityAfter, Safe, Utf8JsonParser.M, Utf8JsonParser.Live;
    hide Utf8JsonParser.Settled, Utf8JsonParser.Frames;
    p.InitParser(bytes, start, len);
    ghost var all, safe := Observations(p.M(), p.maxDepth, len), Safe(p.M(), p.pathCapacity, p.maxDepth);
    var obs := [];
    while true
      invariant p.Valid() && p.maxDepth == old(p.maxDepth) && p.input.inputArrayEnd - p.input.inputStart == len
      invariant obs + Observations(p.M(), p.maxDepth, len) == all
      invariant Safe(p.M(), p.pathCapacity, p.maxDepth) == safe
      decreases p.M().Unread()
    {
      ObservationsStep(p.M(), p.maxDepth, len, obs);
      SafeStep(p.M(), p.pathCapacity, p.maxDepth);
      var call :- ObserveNext(p, len);
      obs := obs + call.seen;
      if call.last {
        return Ok(obs);
      }
    }
  }

  lemma ObservationsStep(m: Machine, maxDepth: int, len: int, before: seq<Observation>)
    ensures var r := Step(m, maxDepth);
      before + Observations(m, maxDepth, len)
        == before + Seen(r, len) + if Last(r.ev) then [] else Observations(r.m, maxDepth, len)
  {
    hide Step, Seen;
  }

  lemma SafeStep(m: Machine, capacity: nat, maxDepth: int)
    ensures Safe(m, capacity, maxDepth) <==>
      !Overruns(m, capacity) && (Last(Step(m, maxDepth).ev)
          || Safe(Step(m, maxDepth).m, CapacityAfter(m, capacity), maxDepth))
  {
    hide Step, Overruns, CapacityAfter;
  }
}
