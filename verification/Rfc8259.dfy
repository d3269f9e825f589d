/** JSON texts as RFC 8259 defines them, in byte values and independent of the predicates of the parser, and what
    the parser makes of them. */
module Rfc8259 {
  import opened Ascii
  import opened Lexer
  import opened Tree
  import opened Machine
  import opened Containers
  import opened Grammar

  // ------------------------------------------------------------ lexemes: sections 2, 6 and 7

  predicate IsSpace(w: seq<byte>) {
    forall i :: 0 <= i < |w| ==> w[i] == 32 || w[i] == 9 || w[i] == 10 || w[i] == 13
  }

  predicate Digits(ds: seq<byte>) {
    forall i :: 0 <= i < |ds| ==> 48 <= ds[i] <= 57
  }

  function HexDigit(b: byte): int {
    if 48 <= b <= 57 then b as int - 48
    else if 65 <= b <= 70 then b as int - 55
    else if 97 <= b <= 102 then b as int - 87
    else -1
  }

  /** One character of a string: unescaped, behind a backslash, or by four hexadecimal digits. */
  datatype Char = Literal(b: byte) | Short(c: byte) | Long(hex: seq<byte>)

  predicate IsChar(c: Char) {
    match c
    case Literal(b) => b >= 32 && b != 34 && b != 92
    case Short(b) => b == 34 || b == 92 || b == 47 || b == 98 || b == 102 || b == 110 || b == 114 || b == 116
    case Long(h) => |h| == 4 && forall i :: 0 <= i < 4 ==> HexDigit(h[i]) >= 0
  }

  function CharText(c: Char): seq<byte> {
    match c
    case Literal(b) => [b]
    case Short(b) => [92, b]
    case Long(h) => [92, 117] + h
  }

  function CodeUnit(h: seq<byte>): (u: int)
    requires |h| == 4 && forall i :: 0 <= i < 4 ==> HexDigit(h[i]) >= 0
    ensures 0 <= u <= 65535
  {
    4096 * HexDigit(h[0]) + 256 * HexDigit(h[1]) + 16 * HexDigit(h[2]) + HexDigit(h[3])
  }

  /** What a character stands for, in UTF-8. */
  function CharBytes(c: Char): seq<byte>
    requires IsChar(c)
  {
    match c
    case Literal(b) => [b]
    case Short(b) => [if b == 98 then 8 else if b == 102 then 12 else if b == 110 then 10
                      else if b == 114 then 13 else if b == 116 then 9 else b]
    case Long(h) => Utf8(CodeUnit(h))
  }

  predicate IsChars(cs: seq<Char>) {
    forall i :: 0 <= i < |cs| ==> IsChar(cs[i])
  }

  function CharsText(cs: seq<Char>): seq<byte> {
    if cs == [] then [] else CharText(cs[0]) + CharsText(cs[1..])
  }

  function CharsBytes(cs: seq<Char>): seq<byte>
    requires IsChars(cs)
  {
    if cs == [] then [] else CharBytes(cs[0]) + CharsBytes(cs[1..])
  }

  datatype Exponent = NoExponent | Exponent(e: byte, sign: seq<byte>, digits: seq<byte>)

  /** A number; without a fraction frac is empty. */
  datatype JNumber = JNumber(minus: bool, whole: seq<byte>, frac: seq<byte>, exponent: Exponent)

  predicate IsNumber(n: JNumber) {
    && n.whole != [] && Digits(n.whole) && (n.whole[0] == 48 ==> |n.whole| == 1) && Digits(n.frac)
    && match n.exponent
       case NoExponent => true
       case Exponent(e, sign, digits) =>
         (e == 101 || e == 69) && (sign == [] || sign == [43] || sign == [45]) && digits != [] && Digits(digits)
  }

  function FractionText(n: JNumber): seq<byte> {
    if n.frac == [] then [] else [46] + n.frac
  }

  function ExponentText(x: Exponent): seq<byte> {
    match x
    case NoExponent => []
    case Exponent(e, sign, digits) => [e] + sign + digits
  }

  function NumberText(n: JNumber): seq<byte> {
    (if n.minus then [45] else []) + n.whole + FractionText(n) + ExponentText(n.exponent)
  }

  // ------------------------------------------------------------ values: sections 3 to 5

  datatype Name = NoName | Name(chars: seq<Char>, mid: seq<byte>, post: seq<byte>)

  datatype RValue =
    | RString(chars: seq<Char>)
    | RNumber(n: JNumber)
    | RTrue
    | RFalse
    | RNull
    | RNode(named: bool, items: RItems, close: seq<byte>)

  /** Members or elements, with the space before and after the separating comma. */
  datatype RItems = RNil | RCons(before: seq<byte>, after: seq<byte>, name: Name, v: RValue, tail: RItems)

  predicate IsName(name: Name) {
    name.Name? ==> IsChars(name.chars) && IsSpace(name.mid) && IsSpace(name.post)
  }

  predicate IsValue(v: RValue)
    decreases v
  {
    match v
    case RString(cs) => IsChars(cs)
    case RNumber(n) => IsNumber(n)
    case RNode(named, items, close) => IsSpace(close) && AreItems(named, items)
    case _ => true
  }

  predicate AreItems(named: bool, items: RItems)
    decreases items
  {
    match items
    case RNil => true
    case RCons(before, after, name, v, tail) =>
      && IsSpace(before) && IsSpace(after) && IsName(name) && name.Name? == named
      && IsValue(v) && AreItems(named, tail)
  }

  function NameText(name: Name): seq<byte> {
    match name
    case NoName => []
    case Name(cs, mid, post) => [34] + CharsText(cs) + [34] + mid + [58] + post
  }

  function ValueText(v: RValue): seq<byte>
    decreases v
  {
    match v
    case RString(cs) => [34] + CharsText(cs) + [34]
    case RNumber(n) => NumberText(n)
    case RTrue => [116, 114, 117, 101]
    case RFalse => [102, 97, 108, 115, 101]
    case RNull => [110, 117, 108, 108]
    case RNode(named, items, close) =>
      [if named then 123 else 91] + ItemsText(items, true) + close + [if named then 125 else 93]
  }

  function ItemsText(items: RItems, first: bool): seq<byte>
    decreases items
  {
    match items
    case RNil => []
    case RCons(before, after, name, v, tail) =>
      (if first then after else before + [44] + after) + NameText(name) + ValueText(v) + ItemsText(tail, false)
  }

  function ValueTree(v: RValue): Json
    requires IsValue(v)
    decreases v
  {
    match v
    case RString(cs) => Leaf(Str(CharsBytes(cs)))
    case RNumber(n) => Leaf(Num(NumberText(n)))
    case RTrue => Leaf(Bool(true))
    case RFalse => Leaf(Bool(false))
    case RNull => Leaf(Null)
    case RNode(named, items, _) => Node(if named then ObjectKind else ArrayKind, ItemsTree(named, items))
  }

  function ItemsTree(named: bool, items: RItems): Items
    requires AreItems(named, items)
    decreases items
  {
    match items
    case RNil => Nil
    case RCons(_, _, name, v, tail) =>
      Cons(if named then Key(CharsBytes(name.chars)) else NoKey, ValueTree(v), ItemsTree(named, tail))
  }

  /** How deep arrays and objects are nested. */
  function Nesting(v: RValue): nat
    decreases v
  {
    if v.RNode? then 1 + ItemsNesting(v.items) else 0
  }

  function ItemsNesting(items: RItems): nat
    decreases items
  {
    if items.RNil? then 0
    else if Nesting(items.v) > ItemsNesting(items.tail) then Nesting(items.v)
    else ItemsNesting(items.tail)
  }

  /** A whole text: one value between spaces. */
  datatype JText = JText(pre: seq<byte>, v: RValue, post: seq<byte>)

  predicate IsText(d: JText) {
    IsSpace(d.pre) && IsValue(d.v) && IsSpace(d.post)
  }

  function TextBytes(d: JText): seq<byte> {
    d.pre + ValueText(d.v) + d.post
  }

  // ------------------------------------------------------------ lexemes of the RFC are lexemes of the parser

  function UnitFor(c: Char): Unit {
    match c
    case Literal(b) => Plain(b)
    case Short(b) => Escape(b)
    case Long(h) => Lexer.Unicode(h)
  }

  function UnitsFor(cs: seq<Char>): seq<Unit> {
    if cs == [] then [] else [UnitFor(cs[0])] + UnitsFor(cs[1..])
  }

  lemma CharIsUnit(c: Char)
    requires IsChar(c)
    ensures ValidUnit(UnitFor(c)) && UnitText(UnitFor(c)) == CharText(c) && UnitBytes(UnitFor(c)) == CharBytes(c)
  {
    if c.Long? {
      assert forall i :: 0 <= i < 4 ==> Digit2Int(c.hex[i]) == HexDigit(c.hex[i]);
    }
  }

  lemma {:induction false} CharsAreUnits(cs: seq<Char>)
    requires IsChars(cs)
    ensures ValidUnits(UnitsFor(cs))
    ensures BodyText(UnitsFor(cs)) == CharsText(cs) && BodyBytes(UnitsFor(cs)) == CharsBytes(cs)
  {
    hide IsChar, CharText, CharBytes, UnitFor, UnitText, UnitBytes, ValidUnit;
    if cs != [] {
      CharIsUnit(cs[0]);
      CharsAreUnits(cs[1..]);
      BodyCons(UnitFor(cs[0]), UnitsFor(cs[1..]));
    }
  }

  predicate NumberChars(s: seq<byte>) {
    forall i :: 0 <= i < |s| ==> IsNumberChar(s[i])
  }

  predicate NoFloatChars(s: seq<byte>) {
    forall i :: 0 <= i < |s| ==> !IsFloatChar(s[i])
  }

  lemma WholeChars(n: JNumber)
    requires IsNumber(n)
    ensures var head := (if n.minus then [45] else []) + n.whole;
      head != [] && IsNumberStart(head[0]) && NumberChars(head) && NoFloatChars(head)
  {
  }

  lemma FractionChars(n: JNumber)
    requires IsNumber(n)
    ensures NumberChars(FractionText(n)) && (n.frac == [] ==> FractionText(n) == [])
    ensures n.frac != [] ==> FractionText(n) != [] && IsFloatChar(FractionText(n)[0])
  {
  }

  lemma ExponentChars(n: JNumber)
    requires IsNumber(n)
    ensures NumberChars(ExponentText(n.exponent)) && (n.exponent.NoExponent? ==> ExponentText(n.exponent) == [])
    ensures n.exponent.Exponent? ==> ExponentText(n.exponent) != [] && IsFloatChar(ExponentText(n.exponent)[0])
  {
  }

  /** A number of the RFC is read, and flagged as floating point exactly if it has a fraction or an exponent. */
  lemma NumberIsNumber(n: JNumber)
    requires IsNumber(n)
    ensures ValidNumber(NumberText(n))
    ensures IsFloat(NumberText(n)) <==> n.frac != [] || n.exponent.Exponent?
  {
    hide IsNumber, FractionText, ExponentText, IsNumberChar, IsNumberStart, IsFloatChar;
    WholeChars(n);
    FractionChars(n);
    ExponentChars(n);
    var head, tail := (if n.minus then [45] else []) + n.whole, FractionText(n) + ExponentText(n.exponent);
    assert NumberText(n) == head + tail;
    assert tail != [] ==> NumberText(n)[|head|] == tail[0];
  }

  // ------------------------------------------------------------ texts of the RFC are texts of the parser's grammar

  function KeyFor(name: Name): CKey {
    match name
    case NoName => NoCKey
    case Name(cs, mid, post) => CKey(UnitsFor(cs), mid, post)
  }

  function ValueFor(v: RValue): CValue
    decreases v
  {
    match v
    case RString(cs) => CScalar(LString(UnitsFor(cs)))
    case RNumber(n) => CScalar(LNumber(NumberText(n)))
    case RTrue => CScalar(LTrue)
    case RFalse => CScalar(LFalse)
    case RNull => CScalar(LNull)
    case RNode(named, items, close) => CNode(if named then ObjectKind else ArrayKind, ItemsFor(items), close)
  }

  function ItemsFor(items: RItems): CItems
    decreases items
  {
    match items
    case RNil => CNil
    case RCons(before, after, name, v, tail) => CCons(before, after, KeyFor(name), ValueFor(v), ItemsFor(tail))
  }

  lemma NameIsKey(name: Name)
    requires IsName(name)
    ensures ValidKey(KeyFor(name)) && KeyText(KeyFor(name)) == NameText(name)
    ensures LabelOf(KeyFor(name)) == if name.Name? then Key(CharsBytes(name.chars)) else NoKey
  {
    if name.Name? {
      CharsAreUnits(name.chars);
    }
  }

  lemma {:induction false} ValueIsValue(v: RValue)
    requires IsValue(v)
    ensures Valid(ValueFor(v)) && Text(ValueFor(v)) == ValueText(v)
    ensures TreeOf(ValueFor(v)) == ValueTree(v) && Depth(ValueTree(v)) == Nesting(v)
    decreases v
  {
    match v
    case RString(cs) => CharsAreUnits(cs);
    case RNumber(n) => NumberIsNumber(n);
    case RNode(named, items, _) => ItemsAreItems(named, items, true);
    case _ =>
  }

  lemma {:induction false} ItemsAreItems(named: bool, items: RItems, first: bool)
    requires AreItems(named, items)
    ensures var kind, c := if named then ObjectKind else ArrayKind, ItemsFor(items);
      && ValidItems(kind, c) && Grammar.ItemsText(c, first) == ItemsText(items, first)
      && ItemsOf(kind, c) == ItemsTree(named, items) && ItemsDepth(ItemsTree(named, items)) == ItemsNesting(items)
    decreases items
  {
    if items.RCons? {
      NameIsKey(items.name);
      ValueIsValue(items.v);
      ItemsAreItems(named, items.tail, false);
      hide Text, ValueText, KeyText, NameText, CharsBytes;
    }
  }

  // ------------------------------------------------------------ main results

  /** Every text of RFC 8259 is accepted, as its tree, exactly if it is not nested deeper than the limit; a root
      container alone is always within it. */
  lemma TextsAreRead(d: JText, maxDepth: int)
    requires IsText(d)
    ensures ReadDocument(TextBytes(d), maxDepth)
      == if Nesting(d.v) <= 1 || Nesting(d.v) <= maxDepth then Document(ValueTree(d.v)) else Rejected
  {
    hide ReadDocument, Valid, Text, TreeOf, ValueText, ValueTree, Nesting;
    ValueIsValue(d.v);
    var c := CDocument(d.pre, ValueFor(d.v), d.post);
    assert DocumentText(c) == TextBytes(d);
    if Nesting(d.v) <= 1 || Nesting(d.v) <= maxDepth {
      DocumentComplete(c, maxDepth);
    } else if ReadDocument(TextBytes(d), maxDepth).Document? {
      var e := DocumentSound(TextBytes(d), maxDepth);
      UniqueTree(c, e, Nesting(d.v), maxDepth);
    }
  }

  /** Its events are the pre-order walk of this tree, and then the end. */
  lemma TextsAreWalked(d: JText, maxDepth: int)
    requires IsText(d) && (Nesting(d.v) <= 1 || Nesting(d.v) <= maxDepth)
    ensures Run(Fresh(TextBytes(d)), maxDepth) == Events(NoKey, ValueTree(d.v)) + [EOF]
  {
    hide ReadDocument, ValueTree, Nesting, Run;
    TextsAreRead(d, maxDepth);
    RunDocument(TextBytes(d), maxDepth);
  }

  // ------------------------------------------------------------ surrogate escapes

  /** Two escapes that stand for one code point together. */
  predicate IsPair(a: Char, b: Char) {
    && a.Long? && b.Long? && IsChar(a) && IsChar(b)
    && 55296 <= CodeUnit(a.hex) <= 56319 && 56320 <= CodeUnit(b.hex) <= 57343
  }

  predicate HasPair(cs: seq<Char>) {
    exists i :: 0 <= i < |cs| - 1 && IsPair(cs[i], cs[i + 1])
  }

  /** What the RFC has a string stand for: pairs of surrogate escapes are one code point. */
  function StringBytes(cs: seq<Char>): seq<byte>
    requires IsChars(cs)
    decreases |cs|
  {
    if cs == [] then []
    else if |cs| > 1 && IsPair(cs[0], cs[1]) then
      Utf8(65536 + 1024 * (CodeUnit(cs[0].hex) - 55296) + (CodeUnit(cs[1].hex) - 56320)) + StringBytes(cs[2..])
    else CharBytes(cs[0]) + StringBytes(cs[1..])
  }

  lemma {:induction false} PairsAreLonger(cs: seq<Char>)
    requires IsChars(cs)
    ensures |StringBytes(cs)| <= |CharsBytes(cs)|
    ensures HasPair(cs) ==> |StringBytes(cs)| < |CharsBytes(cs)|
    ensures !HasPair(cs) ==> StringBytes(cs) == CharsBytes(cs)
    decreases |cs|
  {
    if cs != [] {
      var tail := cs[1..];
      assert CharsBytes(cs) == CharBytes(cs[0]) + CharsBytes(tail);
      PairsAreLonger(tail);
      assert forall i :: 0 <= i < |tail| ==> tail[i] == cs[i + 1];
      if |cs| > 1 && IsPair(cs[0], cs[1]) {
        assert HasPair(cs) && cs[1..][1..] == cs[2..];
        PairsAreLonger(cs[2..]);
        assert CharsBytes(tail) == CharBytes(cs[1]) + CharsBytes(cs[2..]);
        assert |CharBytes(cs[0])| == 3 == |CharBytes(cs[1])|;
      } else if HasPair(cs) {
        var i :| 0 <= i < |cs| - 1 && IsPair(cs[i], cs[i + 1]);
        assert i > 0 && IsPair(tail[i - 1], tail[i]);
      } else {
        assert !HasPair(tail);
      }
    }
  }

  /** The parser decodes each escape for itself, so its text is the one of the RFC exactly if no two surrogate
      escapes stand for one code point. */
  lemma SurrogatesStayApart(cs: seq<Char>)
    requires IsChars(cs)
    ensures StringFrom(CharsText(cs) + [34], []) == Token(CharsBytes(cs), [])
    ensures CharsBytes(cs) == StringBytes(cs) <==> !HasPair(cs)
  {
    hide CharsBytes, StringBytes, CharsText, BodyText, BodyBytes, StringFrom;
    CharsAreUnits(cs);
    StringComplete(UnitsFor(cs), [], []);
    PairsAreLonger(cs);
    assert CharsText(cs) + [34] + [] == CharsText(cs) + [34] && [] + CharsBytes(cs) == CharsBytes(cs);
  }

  /** The tree the RFC means. */
  function MeantTree(v: RValue): Json
    requires IsValue(v)
    decreases v
  {
    match v
    case RString(cs) => Leaf(Str(StringBytes(cs)))
    case RNode(named, items, _) => Node(if named then ObjectKind else ArrayKind, MeantItems(named, items))
    case _ => ValueTree(v)
  }

  function MeantItems(named: bool, items: RItems): Items
    requires AreItems(named, items)
    decreases items
  {
    match items
    case RNil => Nil
    case RCons(_, _, name, v, tail) =>
      Cons(if named then Key(StringBytes(name.chars)) else NoKey, MeantTree(v), MeantItems(named, tail))
  }

  /** No string and no key has two escapes for one code point. */
  predicate NoPairs(v: RValue)
    decreases v
  {
    match v
    case RString(cs) => !HasPair(cs)
    case RNode(_, items, _) => ItemsNoPairs(items)
    case _ => true
  }

  predicate ItemsNoPairs(items: RItems)
    decreases items
  {
    match items
    case RNil => true
    case RCons(_, _, name, v, tail) => (name.Name? ==> !HasPair(name.chars)) && NoPairs(v) && ItemsNoPairs(tail)
  }

  lemma {:induction false} TreeIsMeant(v: RValue)
    requires IsValue(v)
    ensures ValueTree(v) == MeantTree(v) <==> NoPairs(v)
    decreases v
  {
    match v
    case RString(cs) => PairsAreLonger(cs);
    case RNode(named, items, _) => ItemsAreMeant(named, items);
    case _ =>
  }

  lemma {:induction false} ItemsAreMeant(named: bool, items: RItems)
    requires AreItems(named, items)
    ensures ItemsTree(named, items) == MeantItems(named, items) <==> ItemsNoPairs(items)
    decreases items
  {
    hide HasPair, CharsBytes, StringBytes;
    if items.RCons? {
      if named {
        PairsAreLonger(items.name.chars);
      }
      TreeIsMeant(items.v);
      ItemsAreMeant(named, items.tail);
    }
  }

  /** A text of the RFC is read as the tree the RFC means exactly if it is not nested too deep and no two escapes
      stand for one code point. */
  lemma TextsAreMeant(d: JText, maxDepth: int)
    requires IsText(d)
    ensures ReadDocument(TextBytes(d), maxDepth) == Document(MeantTree(d.v))
      <==> (Nesting(d.v) <= 1 || Nesting(d.v) <= maxDepth) && NoPairs(d.v)
  {
    hide ReadDocument, ValueTree, MeantTree, Nesting, NoPairs;
    TextsAreRead(d, maxDepth);
    TreeIsMeant(d.v);
  }

  // ------------------------------------------------------------ what the parser accepts beyond the RFC

  /** Numbers are any run of these characters, strings hold any byte but four, and any byte but u may stand behind
      a backslash, where those the RFC does not know stand for nothing. */
  lemma BeyondTheRfc(t: seq<byte>, b: byte, h: seq<byte>)
    ensures ValidNumber(t) <==>
      && t != [] && (48 <= t[0] <= 57 || t[0] in {43, 45, 46})
      && forall i :: 0 <= i < |t| ==> 48 <= t[i] <= 57 || t[i] in {43, 45, 46, 69, 101}
    ensures IsFloat(t) <==> exists i :: 1 <= i < |t| && t[i] in {46, 69, 101}
    ensures IsNumberEnd(b) <==> b in {44, 93, 125, 9, 10, 13, 32}
    ensures ValidUnit(Plain(b)) <==> b !in {10, 13, 34, 92}
    ensures ValidUnit(Escape(b)) <==> b != 117
    ensures UnitBytes(if b == 117 then Escape(0) else Escape(b))
      == if IsChar(Short(b)) then CharBytes(Short(b)) else []
    ensures ValidUnit(Lexer.Unicode(h)) <==> IsChar(Long(h))
    ensures Blanks(t) <==> IsSpace(t)
  {
    if |h| == 4 {
      assert forall i :: 0 <= i < 4 ==> Digit2Int(h[i]) == HexDigit(h[i]);
    }
    assert forall i :: 0 <= i < |t| ==> (IsFloatChar(t[i]) <==> t[i] in {46, 69, 101});
    assert forall i :: 0 <= i < |t| ==> (IsNumberChar(t[i]) <==> 48 <= t[i] <= 57 || t[i] in {43, 45, 46, 69, 101});
  }
}
