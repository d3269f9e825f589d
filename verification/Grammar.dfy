/** The language of the parser, stated by concrete syntax trees: sections 2, 4 and 5 of RFC 8259
    with this parser's own number and string lexemes. */
module Grammar {
  import opened Ascii
  import opened Lexer
  import opened Tree
  import opened Machine
  import opened Containers

  datatype Lexeme = LString(units: seq<Unit>) | LNumber(text: seq<byte>) | LTrue | LFalse | LNull

  /** A written member key with the blanks around its colon. */
  datatype CKey = NoCKey | CKey(units: seq<Unit>, mid: seq<byte>, post: seq<byte>)

  datatype CValue = CScalar(lex: Lexeme) | CNode(kind: Kind, items: CItems, close: seq<byte>)

  /** Written items: blanks before and after the separating comma, which the first item does not have. */
  datatype CItems = CNil | CCons(before: seq<byte>, after: seq<byte>, key: CKey, v: CValue, tail: CItems)

  // ------------------------------------------------------------ text

  function LexText(lex: Lexeme): seq<byte> {
    match lex
    case LString(units) => [QUOTE] + BodyText(units) + [QUOTE]
    case LNumber(text) => text
    case LTrue => TRUE_TEXT
    case LFalse => FALSE_TEXT
    case LNull => NULL_TEXT
  }

  function KeyText(key: CKey): seq<byte> {
    match key
    case NoCKey => []
    case CKey(units, mid, post) => [QUOTE] + BodyText(units) + [QUOTE] + mid + [COLON] + post
  }

  function Lead(first: bool, before: seq<byte>, after: seq<byte>): seq<byte> {
    if first then after else before + [COMMA] + after
  }

  function Text(v: CValue): seq<byte>
    decreases v
  {
    match v
    case CScalar(lex) => LexText(lex)
    case CNode(kind, items, close) => [Opener(kind)] + ItemsText(items, true) + close + [Closer(kind)]
  }

  function ItemsText(items: CItems, first: bool): seq<byte>
    decreases items
  {
    match items
    case CNil => []
    case CCons(before, after, key, v, tail) =>
      Lead(first, before, after) + KeyText(key) + Text(v) + ItemsText(tail, false)
  }

  // ------------------------------------------------------------ validity, tree, depth

  predicate ValidLexeme(lex: Lexeme) {
    match lex
    case LString(units) => ValidUnits(units)
    case LNumber(text) => ValidNumber(text)
    case _ => true
  }

  predicate ValidKey(key: CKey) {
    key.CKey? ==> ValidUnits(key.units) && Blanks(key.mid) && Blanks(key.post)
  }

  predicate Valid(v: CValue)
    decreases v
  {
    match v
    case CScalar(lex) => ValidLexeme(lex)
    case CNode(kind, items, close) => Blanks(close) && ValidItems(kind, items)
  }

  predicate ValidItems(kind: Kind, items: CItems)
    decreases items
  {
    match items
    case CNil => true
    case CCons(before, after, key, v, tail) =>
      && Blanks(before) && Blanks(after) && ValidKey(key) && key.CKey? == kind.ObjectKind?
      && Valid(v) && ValidItems(kind, tail)
  }

  function ScalarOf(lex: Lexeme): Scalar
    requires ValidLexeme(lex)
  {
    match lex
    case LString(units) => Str(BodyBytes(units))
    case LNumber(text) => Num(text)
    case LTrue => Bool(true)
    case LFalse => Bool(false)
    case LNull => Null
  }

  function LabelOf(key: CKey): Label
    requires ValidKey(key)
  {
    if key.NoCKey? then NoKey else Key(BodyBytes(key.units))
  }

  function TreeOf(v: CValue): Json
    requires Valid(v)
    decreases v
  {
    match v
    case CScalar(lex) => Leaf(ScalarOf(lex))
    case CNode(kind, items, _) => Node(kind, ItemsOf(kind, items))
  }

  function ItemsOf(kind: Kind, items: CItems): Items
    requires ValidItems(kind, items)
    decreases items
  {
    match items
    case CNil => Nil
    case CCons(_, _, key, v, tail) => Cons(LabelOf(key), TreeOf(v), ItemsOf(kind, tail))
  }

  /** A document is one value between blanks. */
  datatype CDocument = CDocument(pre: seq<byte>, v: CValue, post: seq<byte>)

  function DocumentText(d: CDocument): seq<byte> {
    d.pre + Text(d.v) + d.post
  }

  predicate ValidDocument(d: CDocument, maxDepth: int) {
    Blanks(d.pre) && Valid(d.v) && Blanks(d.post) && Depth(TreeOf(d.v)) <= Limit(maxDepth)
  }

  // ------------------------------------------------------------ text followed by more bytes

  function ValueThen(v: CValue, k: seq<byte>): seq<byte>
    decreases v
  {
    match v
    case CScalar(lex) => LexText(lex) + k
    case CNode(kind, items, close) => [Opener(kind)] + ItemsThen(items, true, close + [Closer(kind)] + k)
  }

  function ItemsThen(items: CItems, first: bool, k: seq<byte>): seq<byte>
    decreases items
  {
    match items
    case CNil => k
    case CCons(before, after, key, v, tail) =>
      Lead(first, before, after) + (KeyText(key) + ValueThen(v, ItemsThen(tail, false, k)))
  }

  lemma {:induction false} ValueThenIsText(v: CValue, k: seq<byte>)
    ensures ValueThen(v, k) == Text(v) + k
    decreases v
  {
    match v
    case CScalar(lex) =>
    case CNode(kind, items, close) =>
      ItemsThenIsText(items, true, close + [Closer(kind)] + k);
  }

  lemma Rebracket(a: seq<byte>, b: seq<byte>, c: seq<byte>, d: seq<byte>, k: seq<byte>)
    ensures a + (b + (c + (d + k))) == a + b + c + d + k
  {
  }

  lemma {:induction false} ItemsThenIsText(items: CItems, first: bool, k: seq<byte>)
    ensures ItemsThen(items, first, k) == ItemsText(items, first) + k
    decreases items
  {
    match items
    case CNil =>
    case CCons(before, after, key, v, tail) =>
      ItemsThenIsText(tail, false, k);
      ValueThenIsText(v, ItemsThen(tail, false, k));
      hide Text, ValueThen, Lead, KeyText;
      Rebracket(Lead(first, before, after), KeyText(key), Text(v), ItemsText(tail, false), k);
  }

  // ------------------------------------------------------------ every text of the grammar is read back

  /** What may follow a number: its terminator, or the end of the input at the root. */
  predicate Ends(k: seq<byte>, atRoot: bool) {
    if k == [] then atRoot else IsNumberEnd(k[0])
  }

  lemma ReadKeyword(lex: Lexeme, k: seq<byte>, frames: seq<Frame>, key: Label, maxDepth: int)
    requires lex == LTrue || lex == LFalse || lex == LNull
    ensures StepValue(frames, key, LexText(lex) + k, maxDepth) == Result(Value(key, ScalarOf(lex)), Open(frames, k))
  {
    hide StringFrom, NumberFrom;
    var text := LexText(lex);
    assert (text + k)[1..] == text[1..] + k;
    MatchComplete(text[1..], k);
  }

  lemma ReadStringLexeme(units: seq<Unit>, k: seq<byte>, frames: seq<Frame>, key: Label, maxDepth: int)
    requires ValidUnits(units)
    ensures StepValue(frames, key, LexText(LString(units)) + k, maxDepth)
      == Result(Value(key, Str(BodyBytes(units))), Open(frames, k))
  {
    hide StringFrom, NumberFrom, KeywordFrom, BodyText, BodyBytes;
    StringComplete(units, k, []);
    assert (LexText(LString(units)) + k)[1..] == BodyText(units) + [QUOTE] + k;
    assert [] + BodyBytes(units) == BodyBytes(units);
  }

  lemma ReadNumberLexeme(text: seq<byte>, k: seq<byte>, frames: seq<Frame>, key: Label, maxDepth: int)
    requires ValidNumber(text) && Ends(k, frames == [])
    ensures StepValue(frames, key, text + k, maxDepth) == Result(Value(key, Num(text)), Open(frames, k))
  {
    hide StringFrom, NumberFrom, KeywordFrom;
    NumberComplete(text[1..], k, [text[0]], frames == []);
    assert (text + k)[1..] == text[1..] + k;
    assert [text[0]] + text[1..] == text;
  }

  lemma ReadLexeme(lex: Lexeme, k: seq<byte>, frames: seq<Frame>, key: Label, maxDepth: int)
    requires ValidLexeme(lex) && Ends(k, frames == [])
    ensures StepValue(frames, key, LexText(lex) + k, maxDepth) == Result(Value(key, ScalarOf(lex)), Open(frames, k))
  {
    hide StepValue;
    match lex
    case LString(units) => ReadStringLexeme(units, k, frames, key, maxDepth);
    case LNumber(text) => ReadNumberLexeme(text, k, frames, key, maxDepth);
    case _ => ReadKeyword(lex, k, frames, key, maxDepth);
  }

  /** A written value starts with a byte that is neither a blank nor a closing bracket. */
  lemma ValueHead(v: CValue, k: seq<byte>)
    requires Valid(v)
    ensures var s := ValueThen(v, k); s != [] && !IsWs(s[0]) && s[0] != RBRACKET && SkipWs(s) == s
  {
  }

  lemma ReadKeyText(c: CKey, v: seq<byte>)
    requires c.CKey? && ValidKey(c)
    ensures var s := KeyText(c) + v;
      && s != [] && s[0] == QUOTE
      && StringFrom(s[1..], []) == Token(BodyBytes(c.units), c.mid + [COLON] + c.post + v)
  {
    var rest := c.mid + [COLON] + c.post + v;
    assert (KeyText(c) + v)[1..] == BodyText(c.units) + [QUOTE] + rest;
    StringComplete(c.units, rest, []);
    assert [] + BodyBytes(c.units) == BodyBytes(c.units);
  }

  lemma SkipToColon(mid: seq<byte>, post: seq<byte>, v: seq<byte>)
    requires Blanks(mid) && Blanks(post) && SkipWs(v) == v
    ensures var c := SkipWs(mid + [COLON] + post + v); c != [] && c[0] == COLON && SkipWs(c[1..]) == v
  {
    var c := [COLON] + (post + v);
    assert mid + [COLON] + post + v == mid + c;
    SkipBlanks(mid, c);
    assert c[1..] == post + v;
    SkipBlanks(post, v);
  }

  /** Skipping the lead of an item: the bytes of its key or value, behind a comma unless it is the first. */
  lemma SkipLead(first: bool, before: seq<byte>, after: seq<byte>, s: seq<byte>)
    requires Blanks(before) && Blanks(after) && s != [] && !IsWs(s[0])
    ensures var w := SkipWs(Lead(first, before, after) + s);
      if first then w == s else w != [] && w[0] == COMMA && SkipWs(w[1..]) == s
  {
    SkipBlanks(after, s);
    if !first {
      var w := [COMMA] + (after + s);
      assert Lead(first, before, after) + s == before + w;
      SkipBlanks(before, w);
      assert w[1..] == after + s;
    }
  }

  lemma ReadMember(below: seq<Frame>, key: Label, c: CItems, k: seq<byte>, maxDepth: int)
    requires c.CCons? && ValidItems(ObjectKind, c)
    ensures
      var v := ValueThen(c.v, k);
      Step(Open(below + [InObject(key)], Lead(key == NoKey, c.before, c.after) + (KeyText(c.key) + v)), maxDepth)
        == StepValue(below + [InObject(LabelOf(c.key))], LabelOf(c.key), v, maxDepth)
  {
    hide StringFrom, StepValue, SkipWs, ValueThen, BodyText, BodyBytes;
    var v := ValueThen(c.v, k);
    ValueHead(c.v, k);
    ReadKeyText(c.key, v);
    SkipLead(key == NoKey, c.before, c.after, KeyText(c.key) + v);
    SkipToColon(c.key.mid, c.key.post, v);
    assert Init(below + [InObject(key)]) == below;
  }

  lemma ReadElement(below: seq<Frame>, count: nat, c: CItems, k: seq<byte>, maxDepth: int)
    requires c.CCons? && ValidItems(ArrayKind, c)
    ensures
      var v := ValueThen(c.v, k);
      Step(Open(below + [InArray(count)], Lead(count == 0, c.before, c.after) + (KeyText(c.key) + v)), maxDepth)
        == StepValue(below + [InArray(count + 1)], NoKey, v, maxDepth)
  {
    hide StepValue, SkipWs, ValueThen;
    var v := ValueThen(c.v, k);
    ValueHead(c.v, k);
    assert KeyText(c.key) + v == v;
    SkipLead(count == 0, c.before, c.after, v);
    assert Init(below + [InArray(count)]) == below;
  }

  /** Inside a container the bytes after a value start with something that ends a number. */
  lemma ItemsHead(kind: Kind, items: CItems, close: seq<byte>, rest: seq<byte>)
    requires ValidItems(kind, items) && Blanks(close)
    ensures Ends(ItemsThen(items, false, close + [Closer(kind)] + rest), false)
  {
    var k := close + [Closer(kind)] + rest;
    if items.CNil? {
      assert k[0] == if close == [] then Closer(kind) else close[0];
    } else {
      var s := items.before + [COMMA];
      assert ItemsThen(items, false, k)[0] == s[0];
    }
  }

  predicate Fits(level: nat, items: CItems, kind: Kind, maxDepth: int)
    requires ValidItems(kind, items)
  {
    level + ItemsDepth(ItemsOf(kind, items)) <= Limit(maxDepth)
  }

  lemma StepClose(below: seq<Frame>, top: Frame, close: seq<byte>, rest: seq<byte>, maxDepth: int)
    requires Blanks(close)
    ensures var kind := KindOf(top);
      Step(Open(below + [top], close + [Closer(kind)] + rest), maxDepth) == Result(End(kind), Open(below, rest))
  {
    var w := [Closer(KindOf(top))] + rest;
    assert close + [Closer(KindOf(top))] + rest == close + w;
    SkipBlanks(close, w);
    assert Init(below + [top]) == below;
  }

  function NextFrame(top: Frame, key: Label): Frame {
    if top.InObject? then InObject(key) else InArray(top.count + 1)
  }

  lemma ReadItem(below: seq<Frame>, top: Frame, c: CItems, k: seq<byte>, maxDepth: int)
    requires c.CCons? && ValidItems(KindOf(top), c)
    ensures
      Step(Open(below + [top], ItemsThen(c, IsFirst(top), k)), maxDepth)
        == StepValue(below + [NextFrame(top, LabelOf(c.key))], LabelOf(c.key),
            ValueThen(c.v, ItemsThen(c.tail, false, k)), maxDepth)
  {
    hide Step, StepValue;
    match top
    case InObject(key) => ReadMember(below, key, c, ItemsThen(c.tail, false, k), maxDepth);
    case InArray(count) => ReadElement(below, count, c, ItemsThen(c.tail, false, k), maxDepth);
  }

  lemma ReadOpener(kind: Kind, items: CItems, close: seq<byte>, k: seq<byte>, frames: seq<Frame>, key: Label,
      maxDepth: int)
    requires frames != [] ==> |frames| < maxDepth
    ensures StepValue(frames, key, ValueThen(CNode(kind, items, close), k), maxDepth)
      == Result(Start(kind, key), Open(frames + [NewFrame(kind)], ItemsThen(items, true, close + [Closer(kind)] + k)))
  {
    var s := ValueThen(CNode(kind, items, close), k);
    assert s[1..] == ItemsThen(items, true, close + [Closer(kind)] + k);
  }

  lemma WrittenScalar(lex: Lexeme, k: seq<byte>)
    ensures ValueThen(CScalar(lex), k) == LexText(lex) + k
  {
  }

  /** The machine about to read items c in the container top, with text k after them. */
  function At(below: seq<Frame>, top: Frame, c: CItems, k: seq<byte>): Machine {
    Open(below + [top], ItemsThen(c, IsFirst(top), k))
  }

  lemma ScalarItem(below: seq<Frame>, top: Frame, c: CItems, k: seq<byte>, maxDepth: int)
    requires c.CCons? && c.v.CScalar? && ValidItems(KindOf(top), c) && Ends(ItemsThen(c.tail, false, k), false)
    requires Close(At(below, NextFrame(top, LabelOf(c.key)), c.tail, k), maxDepth).Closed?
    ensures var rest := Close(At(below, NextFrame(top, LabelOf(c.key)), c.tail, k), maxDepth);
      Close(At(below, top, c, k), maxDepth) == Closed(Cons(LabelOf(c.key), TreeOf(c.v), rest.items), rest.m)
  {
    hide Step, StepValue, Close, ItemsThen, ValueThen;
    var tk := ItemsThen(c.tail, false, k);
    var next := NextFrame(top, LabelOf(c.key));
    ReadItem(below, top, c, k, maxDepth);
    WrittenScalar(c.v.lex, tk);
    ReadLexeme(c.v.lex, tk, below + [next], LabelOf(c.key), maxDepth);
    CloseValue(At(below, top, c, k), maxDepth);
  }

  lemma NodeItem(below: seq<Frame>, top: Frame, c: CItems, k: seq<byte>, maxDepth: int)
    requires c.CCons? && c.v.CNode? && ValidItems(KindOf(top), c) && Valid(c.v) && |below| + 1 < maxDepth
    requires var next, v, tk := NextFrame(top, LabelOf(c.key)), c.v, ItemsThen(c.tail, false, k);
      Close(At(below + [next], NewFrame(v.kind), v.items, v.close + [Closer(v.kind)] + tk), maxDepth)
        == Closed(ItemsOf(v.kind, v.items), Open(below + [next], tk))
    requires Close(At(below, NextFrame(top, LabelOf(c.key)), c.tail, k), maxDepth).Closed?
    ensures var rest := Close(At(below, NextFrame(top, LabelOf(c.key)), c.tail, k), maxDepth);
      Close(At(below, top, c, k), maxDepth) == Closed(Cons(LabelOf(c.key), TreeOf(c.v), rest.items), rest.m)
  {
    hide Step, StepValue, Close, ItemsThen, ValueThen;
    var tk := ItemsThen(c.tail, false, k);
    var next := NextFrame(top, LabelOf(c.key));
    ReadItem(below, top, c, k, maxDepth);
    ReadOpener(c.v.kind, c.v.items, c.v.close, tk, below + [next], LabelOf(c.key), maxDepth);
    CloseNode(At(below, top, c, k), maxDepth);
  }

  lemma EmptyItems(first: bool, k: seq<byte>)
    ensures ItemsThen(CNil, first, k) == k
  {
  }

  lemma FitsParts(level: nat, items: CItems, kind: Kind, maxDepth: int)
    requires items.CCons? && level > 0 && ValidItems(kind, items) && Fits(level, items, kind, maxDepth)
    ensures Fits(level, items.tail, kind, maxDepth)
    ensures items.v.CNode? ==>
      level < maxDepth && Valid(items.v) && Fits(level + 1, items.v.items, items.v.kind, maxDepth)
  {
    if items.v.CNode? {
      assert Depth(TreeOf(items.v)) == 1 + ItemsDepth(ItemsOf(items.v.kind, items.v.items));
    }
  }

  /** Every well-formed text of items is read back as those items. */
  lemma {:induction false} ItemsComplete(below: seq<Frame>, top: Frame, items: CItems, close: seq<byte>,
      rest: seq<byte>, maxDepth: int)
    requires ValidItems(KindOf(top), items) && Blanks(close)
    requires Fits(|below| + 1, items, KindOf(top), maxDepth)
    ensures Close(At(below, top, items, close + [Closer(KindOf(top))] + rest), maxDepth)
      == Closed(ItemsOf(KindOf(top), items), Open(below, rest))
    decreases items
  {
    hide Step, Close, ItemsThen, Depth, ItemsDepth, Limit;
    var kind := KindOf(top);
    var k := close + [Closer(kind)] + rest;
    match items
    case CNil =>
      assert ItemsThen(CNil, IsFirst(top), k) == k by { EmptyItems(IsFirst(top), k); }
      StepClose(below, top, close, rest, maxDepth);
      CloseEnd(At(below, top, items, k), maxDepth);
    case CCons(before, after, key, v, tail) =>
      var tk := ItemsThen(tail, false, k);
      var next := NextFrame(top, LabelOf(key));
      ItemsHead(kind, tail, close, rest);
      FitsParts(|below| + 1, items, kind, maxDepth);
      ItemsComplete(below, next, tail, close, rest, maxDepth);
      match v
      case CScalar(lex) =>
        ScalarItem(below, top, items, k, maxDepth);
      case CNode(k2, inner, close2) =>
        ItemsComplete(below + [next], NewFrame(k2), inner, close2, tk, maxDepth);
        NodeItem(below, top, items, k, maxDepth);
  }

  lemma BlanksEnd(w: seq<byte>)
    requires Blanks(w)
    ensures Ends(w, true) && SkipWs(w) == []
  {
    SkipBlanks(w, []);
    assert w + [] == w;
  }

  lemma ReadRoot(pre: seq<byte>, v: CValue, post: seq<byte>, maxDepth: int)
    requires Blanks(pre) && Valid(v)
    ensures Step(Fresh(pre + Text(v) + post), maxDepth) == StepValue([], NoKey, ValueThen(v, post), maxDepth)
  {
    hide StepValue, ValueThen, SkipWs;
    ValueThenIsText(v, post);
    assert pre + Text(v) + post == pre + ValueThen(v, post);
    SkipBlanks(pre, ValueThen(v, post));
    ValueHead(v, post);
  }

  /** Every document of the grammar is read to EOF and yields its tree. */
  lemma DocumentComplete(d: CDocument, maxDepth: int)
    requires ValidDocument(d, maxDepth)
    ensures ReadDocument(DocumentText(d), maxDepth) == Document(TreeOf(d.v))
  {
    hide Step, StepValue, ItemsThen, ValueThen, Close;
    ReadRoot(d.pre, d.v, d.post, maxDepth);
    BlanksEnd(d.post);
    StepAtRoot(Open([], d.post), maxDepth);
    match d.v
    case CScalar(lex) =>
      WrittenScalar(lex, d.post);
      ReadLexeme(lex, d.post, [], NoKey, maxDepth);
    case CNode(kind, items, close) =>
      ReadOpener(kind, items, close, d.post, [], NoKey, maxDepth);
      assert [] + [NewFrame(kind)] == [NewFrame(kind)];
      ItemsComplete([], NewFrame(kind), items, close, d.post, maxDepth);
  }

  // ------------------------------------------------------------ nothing else is read to EOF

  lemma LexemeSound(frames: seq<Frame>, key: Label, v: seq<byte>, maxDepth: int) returns (lex: Lexeme)
    requires StepValue(frames, key, v, maxDepth).ev.Value?
    ensures ValidLexeme(lex)
    ensures var r := StepValue(frames, key, v, maxDepth);
      r.ev.v == ScalarOf(lex) && v == LexText(lex) + r.m.rest && r.m.frames == frames
  {
    hide StringFrom, NumberFrom;
    if v[0] == QUOTE {
      var units := StringSound(v[1..], []);
      lex := LString(units);
      assert [] + BodyBytes(units) == BodyBytes(units);
    } else if IsNumberStart(v[0]) {
      var t := NumberSound(v[1..], [v[0]], frames == []);
      lex := LNumber([v[0]] + t);
    } else if v[0] == TRUE_TEXT[0] {
      lex := LTrue;
    } else if v[0] == FALSE_TEXT[0] {
      lex := LFalse;
    } else {
      lex := LNull;
    }
  }

  lemma OpenerSound(frames: seq<Frame>, key: Label, v: seq<byte>, maxDepth: int)
    requires StepValue(frames, key, v, maxDepth).ev.Start?
    ensures var r := StepValue(frames, key, v, maxDepth);
      && v == [Opener(r.ev.kind)] + r.m.rest
      && (frames != [] ==> |frames| < maxDepth)
  {
    hide StringFrom, NumberFrom;
  }

  lemma KeySound(key: Label, w: seq<byte>) returns (after: seq<byte>, units: seq<Unit>)
    requires ReadKey(key, w).Token?
    ensures Blanks(after) && ValidUnits(units)
    ensures w == (if key == NoKey then [] else [COMMA] + after) + KeyHead(units, ReadKey(key, w).rest)
    ensures ReadKey(key, w).text == BodyBytes(units)
  {
    hide StringFrom, BodyText, BodyBytes, SkipWs;
    var s := KeyStart(key, w).rest;
    units := StringSound(s, []);
    assert [] + BodyBytes(units) == BodyBytes(units);
    after := [];
    if key != NoKey {
      after := SkipSound(w[1..]);
    }
  }

  function KeyHead(units: seq<Unit>, rest: seq<byte>): seq<byte> {
    [QUOTE] + (BodyText(units) + [QUOTE] + rest)
  }

  lemma KeyParts(units: seq<Unit>, mid: seq<byte>, post: seq<byte>, v: seq<byte>)
    ensures KeyText(CKey(units, mid, post)) + v == KeyHead(units, mid + [COLON] + post + v)
  {
    hide BodyText;
    var b, rest := BodyText(units) + [QUOTE], mid + [COLON] + post;
    assert KeyText(CKey(units, mid, post)) == [QUOTE] + b + rest;
    assert [QUOTE] + b + rest + v == [QUOTE] + (b + (rest + v));
  }

  lemma ColonSound(s: seq<byte>) returns (mid: seq<byte>, post: seq<byte>)
    requires var c := SkipWs(s); c != [] && c[0] == COLON
    ensures Blanks(mid) && Blanks(post) && s == mid + [COLON] + post + SkipWs(SkipWs(s)[1..])
  {
    hide SkipWs;
    mid := SkipSound(s);
    post := SkipSound(SkipWs(s)[1..]);
  }

  /** A step that reads an item takes exactly its written lead, key and the start of its value. */
  lemma MemberSound(frames: seq<Frame>, key: Label, rest: seq<byte>, maxDepth: int)
    returns (before: seq<byte>, after: seq<byte>, ck: CKey, v: seq<byte>)
    requires frames != [] && Top(frames) == InObject(key)
    requires var ev := Step(Open(frames, rest), maxDepth).ev; ev.Value? || ev.Start?
    ensures Blanks(before) && Blanks(after) && ValidKey(ck) && ck.CKey?
    ensures rest == Lead(key == NoKey, before, after) + (KeyText(ck) + v)
    ensures Step(Open(frames, rest), maxDepth)
      == StepValue(Init(frames) + [InObject(LabelOf(ck))], LabelOf(ck), v, maxDepth)
  {
    hide StepValue, ReadKey, SkipWs, KeyHead, KeyText;
    var w := SkipWs(rest);
    before := SkipSound(rest);
    var t := ReadKey(key, w);
    var units;
    after, units := KeySound(key, w);
    var mid, post := ColonSound(t.rest);
    v := SkipWs(SkipWs(t.rest)[1..]);
    ck := CKey(units, mid, post);
    KeyParts(units, mid, post, v);
    if key == NoKey {
      after := before;
    }
  }

  lemma ElementSound(frames: seq<Frame>, count: nat, rest: seq<byte>, maxDepth: int)
    returns (before: seq<byte>, after: seq<byte>, v: seq<byte>)
    requires frames != [] && Top(frames) == InArray(count)
    requires var ev := Step(Open(frames, rest), maxDepth).ev; ev.Value? || ev.Start?
    ensures Blanks(before) && Blanks(after)
    ensures rest == Lead(count == 0, before, after) + v
    ensures Step(Open(frames, rest), maxDepth) == StepValue(Init(frames) + [InArray(count + 1)], NoKey, v, maxDepth)
  {
    hide StepValue, SkipWs;
    var w := SkipWs(rest);
    before := SkipSound(rest);
    if count == 0 {
      after, v := before, w;
    } else {
      after := SkipSound(w[1..]);
      v := SkipWs(w[1..]);
    }
  }

  lemma ItemSound(m: Machine, maxDepth: int)
    returns (before: seq<byte>, after: seq<byte>, key: CKey, v: seq<byte>)
    requires Inside(m)
    requires var ev := Step(m, maxDepth).ev; ev.Value? || ev.Start?
    ensures Blanks(before) && Blanks(after) && ValidKey(key) && key.CKey? == Top(m.frames).InObject?
    ensures m.rest == Lead(IsFirst(Top(m.frames)), before, after) + (KeyText(key) + v)
    ensures Step(m, maxDepth)
      == StepValue(Init(m.frames) + [NextFrame(Top(m.frames), LabelOf(key))], LabelOf(key), v, maxDepth)
  {
    hide Step, StepValue;
    match Top(m.frames)
    case InObject(k) =>
      before, after, key, v := MemberSound(m.frames, k, m.rest, maxDepth);
    case InArray(count) =>
      before, after, v := ElementSound(m.frames, count, m.rest, maxDepth);
      key := NoCKey;
      assert KeyText(key) + v == v;
  }

  lemma EndSound(m: Machine, maxDepth: int) returns (close: seq<byte>)
    requires Inside(m) && Step(m, maxDepth).ev.End?
    ensures Blanks(close) && m.rest == close + [Closer(KindOf(Top(m.frames)))] + Step(m, maxDepth).m.rest
  {
    hide StepValue, ReadKey, SkipWs;
    close := SkipSound(m.rest);
  }

  /** items and close are a written form of what Close reads at m. */
  predicate Writes(items: CItems, close: seq<byte>, m: Machine, maxDepth: int)
    requires Inside(m) && Close(m, maxDepth).Closed?
  {
    var kind, c := KindOf(Top(m.frames)), Close(m, maxDepth);
    && ValidItems(kind, items) && Blanks(close)
    && m.rest == ItemsThen(items, IsFirst(Top(m.frames)), close + [Closer(kind)] + c.m.rest)
    && ItemsOf(kind, items) == c.items
    && Fits(|m.frames|, items, kind, maxDepth)
  }

  lemma WrittenItem(c: CItems, first: bool, k: seq<byte>)
    requires c.CCons?
    ensures ItemsThen(c, first, k) ==
      Lead(first, c.before, c.after) + (KeyText(c.key) + ValueThen(c.v, ItemsThen(c.tail, false, k)))
  {
  }

  lemma WrittenNode(kind: Kind, items: CItems, close: seq<byte>, k: seq<byte>)
    ensures ValueThen(CNode(kind, items, close), k)
      == [Opener(kind)] + ItemsThen(items, true, close + [Closer(kind)] + k)
  {
  }

  /** One more written item in front of those that follow it. */
  lemma WritesCons(m: Machine, item: CItems, close: seq<byte>, m1: Machine, maxDepth: int)
    requires Inside(m) && Inside(m1) && Close(m, maxDepth).Closed? && Close(m1, maxDepth).Closed?
    requires item.CCons? && Writes(item.tail, close, m1, maxDepth)
    requires Blanks(item.before) && Blanks(item.after) && ValidKey(item.key) && Valid(item.v)
    requires item.key.CKey? == Top(m.frames).InObject?
    requires m1.frames == Init(m.frames) + [NextFrame(Top(m.frames), LabelOf(item.key))]
    requires m.rest
      == Lead(IsFirst(Top(m.frames)), item.before, item.after) + (KeyText(item.key) + ValueThen(item.v, m1.rest))
    requires Close(m, maxDepth)
      == Closed(Cons(LabelOf(item.key), TreeOf(item.v), Close(m1, maxDepth).items), Close(m1, maxDepth).m)
    requires |m.frames| + Depth(TreeOf(item.v)) <= Limit(maxDepth)
    ensures Writes(item, close, m, maxDepth)
  {
    hide Close, ItemsThen, ValueThen, KeyText, Lead;
    WrittenItem(item, IsFirst(Top(m.frames)), close + [Closer(KindOf(Top(m.frames)))] + Close(m, maxDepth).m.rest);
  }

  lemma ScalarWrites(m: Machine, items: CItems, close: seq<byte>, maxDepth: int) returns (all: CItems)
    requires Inside(m) && Step(m, maxDepth).ev.Value? && |m.frames| <= Limit(maxDepth) && Close(m, maxDepth).Closed?
    requires var r := Step(m, maxDepth);
      Inside(r.m) && Close(r.m, maxDepth).Closed? && Writes(items, close, r.m, maxDepth)
    ensures Writes(all, close, m, maxDepth)
  {
    hide Step, StepValue, Close, Writes, ValueThen, Limit, Lead, KeyText, LexText;
    var before, after, key, v := ItemSound(m, maxDepth);
    var r := Step(m, maxDepth);
    var next := NextFrame(Top(m.frames), LabelOf(key));
    var lex := LexemeSound(Init(m.frames) + [next], LabelOf(key), v, maxDepth);
    all := CCons(before, after, key, CScalar(lex), items);
    CloseValue(m, maxDepth);
    WrittenScalar(lex, r.m.rest);
    WritesCons(m, all, close, r.m, maxDepth);
  }

  lemma NodeWrites(m: Machine, inner: CItems, close2: seq<byte>, items: CItems, close: seq<byte>, maxDepth: int)
    returns (all: CItems)
    requires Inside(m) && Step(m, maxDepth).ev.Start? && |m.frames| <= Limit(maxDepth) && Close(m, maxDepth).Closed?
    requires var r := Step(m, maxDepth);
      Inside(r.m) && Close(r.m, maxDepth).Closed? && Writes(inner, close2, r.m, maxDepth)
    requires var m1 := Close(Step(m, maxDepth).m, maxDepth).m;
      Inside(m1) && Close(m1, maxDepth).Closed? && Writes(items, close, m1, maxDepth)
    ensures Writes(all, close, m, maxDepth)
  {
    hide Step, StepValue, Close, ItemsThen, ValueThen, Limit, Lead, KeyText;
    var before, after, key, v := ItemSound(m, maxDepth);
    var r := Step(m, maxDepth);
    var m1 := Close(r.m, maxDepth).m;
    var frames := Init(m.frames) + [NextFrame(Top(m.frames), LabelOf(key))];
    OpenerSound(frames, LabelOf(key), v, maxDepth);
    assert Init(frames + [NewFrame(r.ev.kind)]) == frames;
    var node := CNode(r.ev.kind, inner, close2);
    all := CCons(before, after, key, node, items);
    CloseNode(m, maxDepth);
    WrittenNode(r.ev.kind, inner, close2, m1.rest);
    assert Depth(TreeOf(node)) == 1 + ItemsDepth(ItemsOf(r.ev.kind, inner));
    WritesCons(m, all, close, m1, maxDepth);
  }

  /** Whatever a container is read as, its bytes are a written form of it. */
  lemma {:induction false} ItemsSound(m: Machine, maxDepth: int) returns (items: CItems, close: seq<byte>)
    requires Inside(m) && Close(m, maxDepth).Closed? && |m.frames| <= Limit(maxDepth)
    ensures Writes(items, close, m, maxDepth)
    decreases m.Unread()
  {
    hide Step, ItemsThen;
    StepInside(m, maxDepth);
    var r := Step(m, maxDepth);
    match r.ev
    case End(_) =>
      items := CNil;
      close := EndSound(m, maxDepth);
      EmptyItems(IsFirst(Top(m.frames)), m.rest);
    case Value(key, v) =>
      items, close := ItemsSound(r.m, maxDepth);
      items := ScalarWrites(m, items, close, maxDepth);
    case Start(kind, key) =>
      StepKinds(m, maxDepth);
      var inner, close2 := ItemsSound(r.m, maxDepth);
      items, close := ItemsSound(Close(r.m, maxDepth).m, maxDepth);
      items := NodeWrites(m, inner, close2, items, close, maxDepth);
  }

  /** The root value of an accepted text. */
  lemma RootSound(v: seq<byte>, maxDepth: int) returns (value: CValue, end: Machine)
    requires var r := StepValue([], NoKey, v, maxDepth);
      if r.ev.Start? then Close(r.m, maxDepth).Closed? else r.ev.Value?
    ensures Valid(value) && Depth(TreeOf(value)) <= Limit(maxDepth)
    ensures end.Open? && end.frames == [] && v == ValueThen(value, end.rest)
    ensures var r := StepValue([], NoKey, v, maxDepth);
      if r.ev.Start? then TreeOf(value) == Node(r.ev.kind, Close(r.m, maxDepth).items) && end == Close(r.m, maxDepth).m
      else TreeOf(value) == Leaf(r.ev.v) && end == r.m
  {
    hide StepValue, Close, ValueThen, ItemsThen, Writes, LexText;
    var r := StepValue([], NoKey, v, maxDepth);
    if r.ev.Value? {
      var lex := LexemeSound([], NoKey, v, maxDepth);
      value, end := CScalar(lex), r.m;
      WrittenScalar(lex, end.rest);
    } else {
      OpenerSound([], NoKey, v, maxDepth);
      var items, close := ItemsSound(r.m, maxDepth);
      end := Close(r.m, maxDepth).m;
      value := CNode(r.ev.kind, items, close);
      RootWrites(r.ev.kind, r.m, items, close, maxDepth);
    }
  }

  /** The written root container, from the written form of its items. */
  lemma RootWrites(kind: Kind, m: Machine, items: CItems, close: seq<byte>, maxDepth: int)
    requires m.Open? && m.frames == [NewFrame(kind)] && Close(m, maxDepth).Closed? && Writes(items, close, m, maxDepth)
    ensures var c, value := Close(m, maxDepth), CNode(kind, items, close);
      && c.m.frames == [] && Valid(value)
      && TreeOf(value) == Node(kind, c.items) && Depth(TreeOf(value)) <= Limit(maxDepth)
      && [Opener(kind)] + m.rest == ValueThen(value, c.m.rest)
  {
    hide Close, ItemsThen, ValueThen;
    WrittenNode(kind, items, close, Close(m, maxDepth).m.rest);
    assert Depth(TreeOf(CNode(kind, items, close))) == 1 + ItemsDepth(ItemsOf(kind, items));
  }

  lemma FreshStep(s: seq<byte>, maxDepth: int)
    ensures Step(Fresh(s), maxDepth) == StepValue([], NoKey, SkipWs(s), maxDepth)
  {
    hide StepValue, SkipWs;
  }

  /** Every document read to EOF is a document of the grammar within the depth limit. */
  lemma DocumentSound(s: seq<byte>, maxDepth: int) returns (d: CDocument)
    requires ReadDocument(s, maxDepth).Document?
    ensures ValidDocument(d, maxDepth) && DocumentText(d) == s && TreeOf(d.v) == ReadDocument(s, maxDepth).tree
  {
    hide Step, Close, StepValue, SkipWs, ValueThen, Text;
    var pre := SkipSound(s);
    FreshStep(s, maxDepth);
    StepFresh(s, maxDepth);
    var value, end := RootSound(SkipWs(s), maxDepth);
    StepAtRoot(end, maxDepth);
    var post := SkipSound(end.rest);
    ValueThenIsText(value, end.rest);
    d := CDocument(pre, value, post);
  }

  // ------------------------------------------------------------ the language

  /** The parser reaches EOF exactly on the documents of the grammar within the depth limit. */
  lemma Language(s: seq<byte>, maxDepth: int)
    ensures Accepted(Fresh(s), maxDepth) <==> exists d :: ValidDocument(d, maxDepth) && DocumentText(d) == s
  {
    RunDocument(s, maxDepth);
    if ReadDocument(s, maxDepth).Document? {
      var d := DocumentSound(s, maxDepth);
    }
    forall d | ValidDocument(d, maxDepth) && DocumentText(d) == s
      ensures Accepted(Fresh(s), maxDepth)
    {
      DocumentComplete(d, maxDepth);
    }
  }

  /** The events of an accepted text are the pre-order walk of its tree. */
  lemma LanguageEvents(d: CDocument, maxDepth: int)
    requires ValidDocument(d, maxDepth)
    ensures Run(Fresh(DocumentText(d)), maxDepth) == Events(NoKey, TreeOf(d.v)) + [EOF]
  {
    DocumentComplete(d, maxDepth);
    RunDocument(DocumentText(d), maxDepth);
  }

  /** The grammar is unambiguous: a text has one tree, whatever written form it is derived by. */
  lemma UniqueTree(d1: CDocument, d2: CDocument, depth1: int, depth2: int)
    requires ValidDocument(d1, depth1) && ValidDocument(d2, depth2)
    requires DocumentText(d1) == DocumentText(d2)
    ensures TreeOf(d1.v) == TreeOf(d2.v)
  {
    DocumentComplete(d1, Max(depth1, depth2));
    DocumentComplete(d2, Max(depth1, depth2));
  }
}
