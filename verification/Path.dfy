/** The textual path of the current position, rendered from the shared path buffer. */
module Path {
  import opened Ascii
  import opened Tree
  import opened Machine
  import opened ParserState
  import opened Parser

  const PATH_LIMIT := 500
  const ELLIPSIS: seq<byte> := [46, 46, 46]
  const ROOT_TEXT: seq<byte> := [40, 114, 111, 111, 116, 41]

  /** Decimal digits of a number. */
  function Decimal(n: nat): seq<byte> {
    if n < 10 then [48 + n] else Decimal(n / 10) + [48 + n % 10]
  }

  /** What the n-th open container adds to the path, counting from 1. */
  function Segment(f: Frame, n: nat): seq<byte> {
    match f
    case InObject(NoKey) => []
    case InObject(Key(k)) => if n > 1 then [DOT] + k else k
    case InArray(count) => if count == 0 then [LBRACKET, RBRACKET] else [LBRACKET] + Decimal(count - 1) + [RBRACKET]
  }

  /** The path text of the frames from the n-th on, cut off once it is longer than the limit. */
  function RenderFrom(frames: seq<Frame>, n: nat, acc: seq<byte>): seq<byte>
    requires 1 <= n <= |frames| + 1
    decreases |frames| + 1 - n
  {
    if n > |frames| then (if acc == [] then ROOT_TEXT else acc)
    else
      var text := acc + Segment(frames[n - 1], n);
      if |text| > PATH_LIMIT then text + ELLIPSIS else RenderFrom(frames, n + 1, text)
  }

  function RenderPath(frames: seq<Frame>): seq<byte> {
    RenderFrom(frames, 1, [])
  }

  /** The path of a plain stack of frames, without a limit. */
  function PlainPath(frames: seq<Frame>): seq<byte> {
    if frames == [] then [] else PlainPath(Init(frames)) + Segment(Top(frames), |frames|)
  }

  lemma {:induction false} PlainPrefix(frames: seq<Frame>, n: nat)
    requires n <= |frames|
    ensures |PlainPath(frames[..n])| <= |PlainPath(frames)|
    decreases |frames| - n
  {
    if n < |frames| {
      assert Init(frames[..n + 1]) == frames[..n];
      PlainPrefix(frames, n + 1);
    } else {
      assert frames[..n] == frames;
    }
  }

  lemma {:induction false} RenderIsPlain(frames: seq<Frame>, n: nat)
    requires 1 <= n <= |frames| + 1 && |PlainPath(frames)| <= PATH_LIMIT
    ensures RenderFrom(frames, n, PlainPath(frames[..n - 1]))
      == if PlainPath(frames) == [] then ROOT_TEXT else PlainPath(frames)
    decreases |frames| + 1 - n
  {
    if n > |frames| {
      assert frames[..n - 1] == frames;
    } else {
      assert Init(frames[..n]) == frames[..n - 1];
      PlainPrefix(frames, n);
      RenderIsPlain(frames, n + 1);
    }
  }

  /** A path within the limit is the plain concatenation of its segments, and an empty one is (root). */
  lemma PathWithinLimit(frames: seq<Frame>)
    requires |PlainPath(frames)| <= 500
    ensures RenderPath(frames)
      == if PlainPath(frames) == [] then [40, 114, 111, 111, 116, 41] else PlainPath(frames)
  {
    RenderIsPlain(frames, 1);
  }

  lemma {:induction false} RenderIsCut(frames: seq<Frame>, n: nat) returns (cut: nat)
    requires 1 <= n <= |frames| + 1 && |PlainPath(frames)| > PATH_LIMIT >= |PlainPath(frames[..n - 1])|
    ensures n <= cut <= |frames| && |PlainPath(frames[..cut - 1])| <= PATH_LIMIT < |PlainPath(frames[..cut])|
    ensures RenderFrom(frames, n, PlainPath(frames[..n - 1])) == PlainPath(frames[..cut]) + ELLIPSIS
    decreases |frames| + 1 - n
  {
    hide Segment;
    assert frames[..|frames|] == frames;
    assert Init(frames[..n]) == frames[..n - 1] && Top(frames[..n]) == frames[n - 1];
    cut := n;
    if |PlainPath(frames[..n])| <= PATH_LIMIT {
      cut := RenderIsCut(frames, n + 1);
    }
  }

  /** A longer path ends with the first segment that passes the limit, and three dots. */
  lemma PathBeyondLimit(frames: seq<Frame>) returns (cut: nat)
    requires |PlainPath(frames)| > 500
    ensures 1 <= cut <= |frames| && |PlainPath(frames[..cut - 1])| <= 500 < |PlainPath(frames[..cut])|
    ensures RenderPath(frames) == PlainPath(frames[..cut]) + [46, 46, 46]
  {
    cut := RenderIsCut(frames, 1);
  }

  // ------------------------------------------------------------ reading a path back

  /** The number that decimal digits stand for. */
  function NumberOf(ds: seq<byte>): int {
    if ds == [] then 0 else 10 * NumberOf(ds[..|ds| - 1]) + ds[|ds| - 1] - 48
  }

  predicate IsDecimal(ds: seq<byte>) {
    ds != [] && (forall i :: 0 <= i < |ds| ==> 48 <= ds[i] <= 57) && (ds[0] == 48 ==> |ds| == 1)
  }

  /** The printed index is the one decimal numeral of its number. */
  lemma {:induction false} DecimalExactly(n: nat, ds: seq<byte>)
    ensures ds == Decimal(n) <==> IsDecimal(ds) && NumberOf(ds) == n
    decreases n
  {
    DecimalReads(n);
    if IsDecimal(ds) && NumberOf(ds) == n {
      DecimalIsOne(ds);
    }
  }

  lemma {:induction false} DecimalReads(n: nat)
    ensures IsDecimal(Decimal(n)) && NumberOf(Decimal(n)) == n
    ensures n > 0 ==> Decimal(n)[0] != 48
  {
    if n < 10 {
      assert NumberOf([]) == 0;
    } else {
      DecimalReads(n / 10);
      assert Decimal(n)[..|Decimal(n)| - 1] == Decimal(n / 10);
    }
  }

  lemma {:induction false} DecimalIsOne(ds: seq<byte>)
    requires IsDecimal(ds)
    ensures NumberOf(ds) >= 0 && Decimal(NumberOf(ds)) == ds && (ds[0] != 48 ==> NumberOf(ds) > 0)
    decreases |ds|
  {
    var init, last := ds[..|ds| - 1], ds[|ds| - 1];
    assert ds == init + [last];
    if init != [] {
      DecimalIsOne(init);
    }
  }

  /** What a path says of one open container. */
  datatype Part = Member(name: seq<byte>) | Element(index: int) | NotStarted

  function Until(s: seq<byte>, stops: set<byte>): (n: nat)
    ensures n <= |s|
  {
    if s == [] || s[0] in stops then 0 else 1 + Until(s[1..], stops)
  }

  lemma {:induction false} UntilConcat(a: seq<byte>, b: seq<byte>, stops: set<byte>)
    requires forall i :: 0 <= i < |a| ==> a[i] !in stops
    requires b != [] ==> b[0] in stops
    ensures Until(a + b, stops) == |a|
  {
    if a == [] {
      assert a + b == b;
    } else {
      assert (a + b)[1..] == a[1..] + b;
      UntilConcat(a[1..], b, stops);
    }
  }

  /** Reads a path from the left: names up to the next dot or bracket, and indices in brackets. */
  function ReadParts(s: seq<byte>): seq<Part>
    decreases |s|
  {
    if s == [] then []
    else if s[0] == 91 then
      var n := Until(s, {93});
      if n == |s| then [] else
      [if n == 1 then NotStarted else Element(NumberOf(s[1..n]))]
      + ReadParts(s[n + 1..])
    else
      var t := if s[0] == 46 then s[1..] else s;
      var n := Until(t, {46, 91});
      [Member(t[..n])] + ReadParts(t[n..])
  }

  function Parts(frames: seq<Frame>): seq<Part> {
    if frames == [] then []
    else
      (match frames[0]
       case InObject(NoKey) => []
       case InObject(Key(k)) => [Member(k)]
       case InArray(count) => [if count == 0 then NotStarted else Element(count - 1)])
      + Parts(frames[1..])
  }

  /** Keys that a path shows as they are. */
  predicate IsPlainKey(key: Label) {
    key.Key? ==> key.text != [] && forall i :: 0 <= i < |key.text| ==> key.text[i] != 46 && key.text[i] != 91
  }

  predicate PlainKeys(frames: seq<Frame>) {
    forall i :: 0 <= i < |frames| && frames[i].InObject? ==> IsPlainKey(frames[i].key)
  }

  /** The segments of the frames from the n-th on. */
  function PathFrom(frames: seq<Frame>, n: nat): (r: seq<byte>)
    requires 1 <= n <= |frames| + 1
    ensures n > 1 && r != [] ==> r[0] == 46 || r[0] == 91
    decreases |frames| + 1 - n
  {
    if n > |frames| then [] else Segment(frames[n - 1], n) + PathFrom(frames, n + 1)
  }

  lemma {:induction false} PlainIsFrom(frames: seq<Frame>, n: nat)
    requires 1 <= n <= |frames| + 1
    ensures PlainPath(frames) == PlainPath(frames[..n - 1]) + PathFrom(frames, n)
    decreases |frames| + 1 - n
  {
    if n > |frames| {
      assert frames[..n - 1] == frames;
    } else {
      assert Init(frames[..n]) == frames[..n - 1] && Top(frames[..n]) == frames[n - 1];
      PlainIsFrom(frames, n + 1);
    }
  }

  lemma ReadMember(k: seq<byte>, dot: bool, rest: seq<byte>)
    requires IsPlainKey(Key(k)) && (rest != [] ==> rest[0] == 46 || rest[0] == 91)
    ensures ReadParts((if dot then [46] + k else k) + rest) == [Member(k)] + ReadParts(rest)
  {
    hide Until, NumberOf, IsPlainKey;
    var t := k + rest;
    KeyBytes(k);
    UntilConcat(k, rest, {46, 91});
    assert t[..|k|] == k && t[|k|..] == rest;
    ReadName([46] + k + rest, t);
    assert ([46] + k + rest)[1..] == t;
    ReadName(t, t);
  }

  lemma KeyBytes(k: seq<byte>)
    requires IsPlainKey(Key(k))
    ensures k != [] && forall i :: 0 <= i < |k| ==> k[i] !in {46, 91}
  {
  }

  /** A name is read up to the next dot or bracket. */
  lemma ReadName(s: seq<byte>, t: seq<byte>)
    requires s != [] && s[0] != 91 && t == if s[0] == 46 then s[1..] else s
    ensures var n := Until(t, {46, 91});
      ReadParts(s) == [Member(t[..n])] + ReadParts(t[n..])
  {
    hide Until, NumberOf;
  }

  lemma ReadBrackets(ds: seq<byte>, rest: seq<byte>)
    requires forall i :: 0 <= i < |ds| ==> ds[i] != 93
    ensures ReadParts([91] + ds + [93] + rest)
      == [if ds == [] then NotStarted else Element(NumberOf(ds))] + ReadParts(rest)
  {
    hide Until, NumberOf;
    var s := [91] + ds + [93] + rest;
    UntilConcat([91] + ds, [93] + rest, {93});
    assert s == [91] + ds + ([93] + rest);
    assert s[1..|ds| + 1] == ds && s[|ds| + 2..] == rest;
  }

  lemma ReadElement(count: nat, rest: seq<byte>)
    ensures ReadParts(Segment(InArray(count), 1) + rest)
      == [if count == 0 then NotStarted else Element(count - 1)] + ReadParts(rest)
  {
    hide ReadParts, NumberOf;
    var ds: seq<byte> := if count == 0 then [] else Decimal(count - 1);
    if count > 0 {
      DecimalReads(count - 1);
    }
    ReadBrackets(ds, rest);
    assert Segment(InArray(count), 1) == [91] + ds + [93];
  }

  lemma {:induction false} ReadFrom(frames: seq<Frame>, n: nat)
    requires 1 <= n <= |frames| + 1 && PlainKeys(frames)
    ensures ReadParts(PathFrom(frames, n)) == Parts(frames[n - 1..])
    decreases |frames| + 1 - n
  {
    hide ReadParts, Decimal;
    if n > |frames| {
      NothingToRead();
    } else {
      var rest := PathFrom(frames, n + 1);
      ReadFrom(frames, n + 1);
      assert frames[n - 1..][1..] == frames[n..];
      match frames[n - 1]
      case InObject(NoKey) => assert [] + rest == rest;
      case InObject(Key(k)) => ReadMember(k, n > 1, rest);
      case InArray(count) => ReadElement(count, rest);
    }
  }

  lemma NothingToRead()
    ensures ReadParts([]) == [] && Parts([]) == []
  {
  }

  /** If no key is empty or has a dot or an opening bracket, the path names the open containers one by one: the
      key of the current member, the index of the current element, or that there is none yet. */
  lemma PathIsRead(frames: seq<Frame>)
    requires PlainKeys(frames)
    ensures ReadParts(PlainPath(frames)) == Parts(frames)
  {
    hide ReadParts;
    PlainIsFrom(frames, 1);
    ReadFrom(frames, 1);
    assert frames[..0] == [] && frames[0..] == frames && [] + PathFrom(frames, 1) == PathFrom(frames, 1);
  }

  // ------------------------------------------------------------ the path of a parser

  /** The current path of a parser that is not in error. */
  method GetPath(p: Utf8JsonParser) returns (str: seq<byte>)
    requires p.Valid() && p.lastEvent != ErrorEvent
    ensures str == RenderPath(p.Frames())
  {
    hide FramesOf, Segment, Encodes, EncodesAt;
    str := [];
    var lastPos := 0;
    var n := 1;
    while n <= p.stateLevel
      invariant 1 <= n <= p.stateLevel + 1 && lastPos == p.pathPos[n - 1]
      invariant |p.Frames()| == p.stateLevel && RenderFrom(p.Frames(), n, str) == RenderPath(p.Frames())
    {
      str, lastPos := AppendSegment(p, n, lastPos, str);
      if |str| > PATH_LIMIT {
        return str + ELLIPSIS;
      }
      n := n + 1;
    }
    if str == [] {
      str := ROOT_TEXT;
    }
  }

  /** The body of its loop: what one level adds. */
  method AppendSegment(p: Utf8JsonParser, n: nat, lastPos: int, str: seq<byte>) returns (out: seq<byte>, pos: int)
    requires p.Valid() && p.lastEvent != ErrorEvent && 1 <= n <= p.stateLevel == |p.Frames()|
    requires lastPos == p.pathPos[n - 1]
    ensures out == str + Segment(p.Frames()[n - 1], n) && pos == p.pathPos[n]
  {
    hide FramesOf, Decimal, EncodesAt, Encodes;
    FrameIs(p.B(), p.stateLevel, n);
    LevelBounds(p.B(), n);
    out, pos := str, lastPos;
    if p.state[n] == ExpectMember {
      if n > 1 {
        out := out + [DOT];
      }
      out := out + p.path[lastPos..p.pathPos[n]];
      pos := p.pathPos[n];
    } else if p.state[n] == ExpectMemberFirst {
      out := out + p.path[lastPos..p.pathPos[n]];
      pos := p.pathPos[n];
    } else if p.arrIndex[n] != -1 {
      out := out + [LBRACKET];
      out := out + Decimal(p.arrIndex[n]);
      out := out + [RBRACKET];
    } else {
      out := out + [LBRACKET, RBRACKET];
    }
    assert out == str + Segment(p.Frames()[n - 1], n);
  }

  lemma LevelBounds(b: Buffers, n: nat)
    requires 1 <= n < |b.state| == |b.pathPos| == |b.arrIndex| && EncodesAt(b, n)
    ensures 0 <= b.pathPos[n - 1] <= b.pathPos[n] <= |b.path|
    ensures IsContainer(b.state[n])
    ensures !b.state[n].ExpectMember? ==> b.pathPos[n] == b.pathPos[n - 1]
    ensures b.state[n].ExpectElementFirst? || b.state[n].ExpectElement? ==> b.arrIndex[n] >= -1
  {
  }
}
