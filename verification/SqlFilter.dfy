/** The filter printer of the SQLite provider: comparisons, NOT, AND and OR over fields, numbers and null. AND
    and OR operands are joined without parentheses, so the meaning of the text rests on operator precedence. */
module SqlFilter {

  // ------------------------------------------------------------ filters and the printed tokens

  datatype Operand = Field(column: string) | Number(value: int) | NullLiteral

  datatype Cmp = Equal | NotEqual | Less | LessOrEqual | Greater | GreaterOrEqual

  datatype Filter =
    | Compare(cmp: Cmp, left: Operand, right: Operand)
    | Not(operand: Filter)
    | And(operands: Filters)
    | Or(operands: Filters)

  datatype Filters = Nil | Cons(head: Filter, tail: Filters)

  datatype Token =
    | Name(operand: Operand)
    | Operator(cmp: Cmp)
    | IsNull
    | IsNotNull
    | NotWord
    | AndWord
    | OrWord
    | LeftParen
    | RightParen

  function PrintCompare(cmp: Cmp, l: Operand, r: Operand): seq<Token> {
    match cmp
    case Equal =>
      if l == NullLiteral then [LeftParen, Name(r), IsNull, RightParen]
      else if r == NullLiteral then [LeftParen, Name(l), IsNull, RightParen]
      else [Name(l), Operator(Equal), Name(r)]
    case NotEqual =>
      if l == NullLiteral then [LeftParen, Name(r), IsNotNull, RightParen]
      else if r == NullLiteral then [LeftParen, Name(l), IsNotNull, RightParen]
      else [LeftParen, Name(l), IsNull, OrWord, Name(r), IsNull, OrWord, Name(l), Operator(NotEqual), Name(r),
            RightParen]
    case _ => [Name(l), Operator(cmp), Name(r)]
  }

  function Print(f: Filter): seq<Token>
    decreases f
  {
    match f
    case Compare(cmp, l, r) => PrintCompare(cmp, l, r)
    case Not(g) => [NotWord, LeftParen] + Print(g) + [RightParen]
    case And(fs) => Join(AndWord, PrintAll(fs))
    case Or(fs) => Join(OrWord, PrintAll(fs))
  }

  function PrintAll(fs: Filters): seq<seq<Token>>
    decreases fs
  {
    match fs
    case Nil => []
    case Cons(f, tail) => [Print(f)] + PrintAll(tail)
  }

  function Join(word: Token, parts: seq<seq<Token>>): seq<Token> {
    if parts == [] then []
    else if |parts| == 1 then parts[0]
    else parts[0] + [word] + Join(word, parts[1..])
  }

  /** The printer: recursion over the tree, with the operands collected in a loop. */
  method Traverse(f: Filter) returns (sql: seq<Token>)
    ensures sql == Print(f)
    decreases f
  {
    match f {
      case Compare(cmp, l, r) => sql := PrintCompare(cmp, l, r);
      case Not(g) =>
        var operand := Traverse(g);
        sql := [NotWord, LeftParen] + operand + [RightParen];
      case And(fs) =>
        var operands := GetOperands(fs);
        sql := Join(AndWord, operands);
      case Or(fs) =>
        var operands := GetOperands(fs);
        sql := Join(OrWord, operands);
    }
  }

  method GetOperands(operands: Filters) returns (result: seq<seq<Token>>)
    ensures result == PrintAll(operands)
    decreases operands
  {
    var left := operands;
    result := [];
    while left.Cons?
      invariant result + PrintAll(left) == PrintAll(operands)
      invariant left == operands || left < operands
      decreases left
    {
      var sql := Traverse(left.head);
      result := result + [sql];
      left := left.tail;
    }
  }

  // ------------------------------------------------------------ reading SQL

  /** What the text says: alternatives of conjunctions of these. */
  datatype Unit =
    | Test(cmp: Cmp, left: Operand, right: Operand)
    | NullTest(operand: Operand, negated: bool)
    | Negation(u: Unit)
    | Paren(alts: seq<Conjunction>)

  datatype Conjunction = Conjunction(units: seq<Unit>)

  function Pack(alts: seq<seq<Unit>>): (r: seq<Conjunction>)
    ensures |r| == |alts| && forall i :: 0 <= i < |r| ==> r[i].units == alts[i]
  {
    if alts == [] then [] else [Conjunction(alts[0])] + Pack(alts[1..])
  }

  datatype Read<T> = Read(value: T, rest: seq<Token>) | Unreadable

  /** NOT binds tighter than AND, and AND tighter than OR. */
  function ReadUnit(ts: seq<Token>): (r: Read<Unit>)
    ensures r.Read? ==> |r.rest| < |ts|
    decreases |ts|, 0
  {
    if ts == [] then Unreadable
    else match ts[0]
      case NotWord =>
        var u := ReadUnit(ts[1..]);
        if u.Unreadable? then Unreadable else Read(Negation(u.value), u.rest)
      case LeftParen =>
        var d := ReadAlternatives(ts[1..]);
        if d.Unreadable? || d.rest == [] || d.rest[0] != RightParen then Unreadable
        else Read(Paren(Pack(d.value)), d.rest[1..])
      case Name(l) =>
        if |ts| >= 2 && ts[1] == IsNull then Read(NullTest(l, false), ts[2..])
        else if |ts| >= 2 && ts[1] == IsNotNull then Read(NullTest(l, true), ts[2..])
        else if |ts| >= 3 && ts[1].Operator? && ts[2].Name? then Read(Test(ts[1].cmp, l, ts[2].operand), ts[3..])
        else Unreadable
      case _ => Unreadable
  }

  function ReadConjunction(ts: seq<Token>): (r: Read<seq<Unit>>)
    ensures r.Read? ==> |r.rest| < |ts| && r.value != []
    decreases |ts|, 1
  {
    var u := ReadUnit(ts);
    if u.Unreadable? then Unreadable
    else if u.rest != [] && u.rest[0] == AndWord then
      var tail := ReadConjunction(u.rest[1..]);
      if tail.Unreadable? then Unreadable else Read([u.value] + tail.value, tail.rest)
    else Read([u.value], u.rest)
  }

  function ReadAlternatives(ts: seq<Token>): (r: Read<seq<seq<Unit>>>)
    ensures r.Read? ==> |r.rest| < |ts| && r.value != []
    decreases |ts|, 2
  {
    var c := ReadConjunction(ts);
    if c.Unreadable? then Unreadable
    else if c.rest != [] && c.rest[0] == OrWord then
      var tail := ReadAlternatives(c.rest[1..]);
      if tail.Unreadable? then Unreadable else Read([c.value] + tail.value, tail.rest)
    else Read([c.value], c.rest)
  }

  // ------------------------------------------------------------ what is read of a printed filter

  function One(u: Unit): seq<seq<Unit>> {
    [[u]]
  }

  function CompareUnit(cmp: Cmp, l: Operand, r: Operand): Unit {
    match cmp
    case Equal =>
      if l == NullLiteral then Paren(Pack(One(NullTest(r, false))))
      else if r == NullLiteral then Paren(Pack(One(NullTest(l, false))))
      else Test(Equal, l, r)
    case NotEqual =>
      if l == NullLiteral then Paren(Pack(One(NullTest(r, true))))
      else if r == NullLiteral then Paren(Pack(One(NullTest(l, true))))
      else Paren(Pack([[NullTest(l, false)], [NullTest(r, false)], [Test(NotEqual, l, r)]]))
    case _ => Test(cmp, l, r)
  }

  /** Joining two texts with AND: only the neighbouring conjunctions are joined. */
  function Glue(a: seq<seq<Unit>>, b: seq<seq<Unit>>): seq<seq<Unit>>
    requires a != [] && b != []
  {
    a[..|a| - 1] + [a[|a| - 1] + b[0]] + b[1..]
  }

  /** Every And and Or has an operand. */
  predicate NonEmpty(f: Filter)
    decreases f
  {
    match f
    case Compare(_, _, _) => true
    case Not(g) => NonEmpty(g)
    case And(fs) => fs.Cons? && AllNonEmpty(fs)
    case Or(fs) => fs.Cons? && AllNonEmpty(fs)
  }

  predicate AllNonEmpty(fs: Filters)
    decreases fs
  {
    fs.Cons? ==> NonEmpty(fs.head) && AllNonEmpty(fs.tail)
  }

  function Reading(f: Filter): (r: seq<seq<Unit>>)
    requires NonEmpty(f)
    ensures r != []
    decreases f
  {
    match f
    case Compare(cmp, l, r) => One(CompareUnit(cmp, l, r))
    case Not(g) => One(Negation(Paren(Pack(Reading(g)))))
    case And(fs) => AndReading(fs)
    case Or(fs) => OrReading(fs)
  }

  function AndReading(fs: Filters): (r: seq<seq<Unit>>)
    requires fs.Cons? && AllNonEmpty(fs)
    ensures r != []
    decreases fs
  {
    if fs.tail.Nil? then Reading(fs.head) else Glue(Reading(fs.head), AndReading(fs.tail))
  }

  function OrReading(fs: Filters): (r: seq<seq<Unit>>)
    requires fs.Cons? && AllNonEmpty(fs)
    ensures r != []
    decreases fs
  {
    if fs.tail.Nil? then Reading(fs.head) else Reading(fs.head) + OrReading(fs.tail)
  }

  // ------------------------------------------------------------ reading back what was printed

  predicate Joins(k: seq<Token>) {
    k != [] && (k[0] == AndWord || k[0] == OrWord)
  }

  /** Alternatives that have been read, continued by the text behind them. */
  function Extend(r: seq<seq<Unit>>, k: seq<Token>): Read<seq<seq<Unit>>>
    requires r != []
  {
    if !Joins(k) then Read(r, k)
    else
      var t := ReadAlternatives(k[1..]);
      if t.Unreadable? then Unreadable
      else Read(if k[0] == OrWord then r + t.value else Glue(r, t.value), t.rest)
  }

  lemma ReadOne(ts: seq<Token>, u: Unit, k: seq<Token>)
    requires ReadUnit(ts) == Read(u, k)
    ensures ReadAlternatives(ts) == Extend(One(u), k)
  {
    hide ReadUnit;
    if Joins(k) && k[0] == AndWord {
      var c := ReadConjunction(k[1..]);
      if c.Read? {
        var joined := [u] + c.value;
        assert ReadConjunction(ts) == Read(joined, c.rest);
        if c.rest != [] && c.rest[0] == OrWord {
          var t := ReadAlternatives(c.rest[1..]);
          if t.Read? {
            assert ReadAlternatives(ts) == Read([joined] + t.value, t.rest);
            assert ReadAlternatives(k[1..]) == Read([c.value] + t.value, t.rest);
            assert Glue(One(u), [c.value] + t.value) == [joined] + t.value;
          }
        } else {
          assert ReadAlternatives(ts) == Read([joined], c.rest);
          assert ReadAlternatives(k[1..]) == Read([c.value], c.rest);
          assert Glue(One(u), [c.value]) == [joined];
        }
      }
    }
  }

  lemma ReadParen(ts: seq<Token>, alts: seq<seq<Unit>>, k: seq<Token>)
    requires ts != [] && ts[0] == LeftParen && ReadAlternatives(ts[1..]) == Read(alts, [RightParen] + k)
    ensures ReadUnit(ts) == Read(Paren(Pack(alts)), k)
  {
    hide ReadAlternatives;
    assert ([RightParen] + k)[1..] == k;
  }

  lemma ReadName(l: Operand, k: seq<Token>)
    ensures ReadUnit([Name(l), IsNull] + k) == Read(NullTest(l, false), k)
    ensures ReadUnit([Name(l), IsNotNull] + k) == Read(NullTest(l, true), k)
    ensures forall cmp, r :: ReadUnit([Name(l), Operator(cmp), Name(r)] + k) == Read(Test(cmp, l, r), k)
  {
    assert ([Name(l), IsNull] + k)[2..] == k && ([Name(l), IsNotNull] + k)[2..] == k;
    forall cmp, r
      ensures ReadUnit([Name(l), Operator(cmp), Name(r)] + k) == Read(Test(cmp, l, r), k)
    {
      assert ([Name(l), Operator(cmp), Name(r)] + k)[3..] == k;
    }
  }

  lemma ReadNullTest(o: Operand, negated: bool, k: seq<Token>)
    ensures ReadUnit([LeftParen, Name(o), if negated then IsNotNull else IsNull, RightParen] + k)
      == Read(Paren(Pack(One(NullTest(o, negated)))), k)
  {
    var word := if negated then IsNotNull else IsNull;
    var ts := [LeftParen, Name(o), word, RightParen] + k;
    assert ts[1..] == [Name(o), word] + ([RightParen] + k);
    hide ReadUnit, ReadAlternatives;
    ReadName(o, [RightParen] + k);
    ReadOne(ts[1..], NullTest(o, negated), [RightParen] + k);
    ReadParen(ts, One(NullTest(o, negated)), k);
  }

  /** The printed not-equal behind its opening parenthesis, alternative by alternative. */
  function NotEqualTail(l: Operand, r: Operand, k: seq<Token>): seq<Token> {
    [Name(l), IsNull] + ([OrWord] + ([Name(r), IsNull] + ([OrWord]
      + ([Name(l), Operator(NotEqual), Name(r)] + ([RightParen] + k)))))
  }

  lemma NotEqualTokens(l: Operand, r: Operand, k: seq<Token>)
    ensures [LeftParen, Name(l), IsNull, OrWord, Name(r), IsNull, OrWord, Name(l), Operator(NotEqual), Name(r),
             RightParen]
              + k
      == [LeftParen] + NotEqualTail(l, r, k)
  {
  }

  lemma ReadNotEqual(l: Operand, r: Operand, k: seq<Token>)
    ensures ReadUnit([LeftParen] + NotEqualTail(l, r, k))
      == Read(Paren(Pack([[NullTest(l, false)], [NullTest(r, false)], [Test(NotEqual, l, r)]])), k)
  {
    var end := [RightParen] + k;
    var t3 := [Name(l), Operator(NotEqual), Name(r)] + end;
    var t2 := [Name(r), IsNull] + ([OrWord] + t3);
    var t1, ts := NotEqualTail(l, r, k), [LeftParen] + NotEqualTail(l, r, k);
    assert ts[1..] == t1;
    assert ([OrWord] + t3)[1..] == t3 && ([OrWord] + t2)[1..] == t2;
    hide ReadUnit, ReadAlternatives;
    ReadName(l, end);
    ReadOne(t3, Test(NotEqual, l, r), end);
    ReadName(r, [OrWord] + t3);
    ReadOne(t2, NullTest(r, false), [OrWord] + t3);
    ReadName(l, [OrWord] + t2);
    ReadOne(t1, NullTest(l, false), [OrWord] + t2);
    var alts := [[NullTest(l, false)], [NullTest(r, false)], [Test(NotEqual, l, r)]];
    assert One(NullTest(l, false)) + (One(NullTest(r, false)) + One(Test(NotEqual, l, r))) == alts;
    ReadParen(ts, alts, k);
  }

  lemma ReadCompare(cmp: Cmp, l: Operand, r: Operand, k: seq<Token>)
    ensures ReadUnit(PrintCompare(cmp, l, r) + k) == Read(CompareUnit(cmp, l, r), k)
  {
    hide ReadUnit;
    ReadName(l, k);
    ReadNullTest(r, cmp == NotEqual, k);
    ReadNullTest(l, cmp == NotEqual, k);
    NotEqualTokens(l, r, k);
    ReadNotEqual(l, r, k);
  }

  /** Continuing twice: behind OR, and behind AND where only the neighbours join. */
  lemma ExtendTwice(a: seq<seq<Unit>>, b: seq<seq<Unit>>, k: seq<Token>, tail: seq<Token>, word: Token)
    requires a != [] && b != [] && (word == OrWord || word == AndWord) && ReadAlternatives(tail) == Extend(b, k)
    ensures Extend(a, [word] + tail) == Extend(if word == OrWord then a + b else Glue(a, b), k)
  {
    assert ([word] + tail)[1..] == tail;
    hide ReadAlternatives;
    if Joins(k) {
      var t := ReadAlternatives(k[1..]);
      if t.Read? {
        GlueConcat(a, b, t.value);
        GlueAssociates(a, b, t.value);
      }
    }
  }

  lemma GlueConcat(a: seq<seq<Unit>>, b: seq<seq<Unit>>, c: seq<seq<Unit>>)
    requires a != [] && b != [] && c != []
    ensures a + (b + c) == (a + b) + c
    ensures a + Glue(b, c) == Glue(a + b, c)
    ensures Glue(a, b + c) == Glue(a, b) + c
  {
    assert (a + b)[..|a + b| - 1] == a + b[..|b| - 1];
    assert (b + c)[1..] == b[1..] + c;
  }

  lemma GlueAssociates(a: seq<seq<Unit>>, b: seq<seq<Unit>>, c: seq<seq<Unit>>)
    requires a != [] && b != [] && c != []
    ensures Glue(a, Glue(b, c)) == Glue(Glue(a, b), c)
  {
    var al, bl, before, rest := a[|a| - 1], b[|b| - 1], a[..|a| - 1], c[1..];
    if |b| == 1 {
      assert Glue(b, c) == [b[0] + c[0]] + rest;
      assert Glue(a, b) == before + [al + b[0]];
      assert (al + b[0]) + c[0] == al + (b[0] + c[0]);
    } else {
      var mid := b[1..|b| - 1];
      assert b[1..] == mid + [bl] && b[..|b| - 1] == [b[0]] + mid;
      var bc, ab := Glue(b, c), Glue(a, b);
      assert bc == [b[0]] + (mid + [bl + c[0]] + rest);
      assert bc[0] == b[0] && bc[1..] == mid + [bl + c[0]] + rest;
      assert ab == (before + [al + b[0]] + mid) + [bl];
      assert ab[..|ab| - 1] == before + [al + b[0]] + mid && ab[|ab| - 1] == bl;
    }
  }

  /** The printed filter, in front of any text, reads as its reading continued by this text. */
  lemma {:induction false} ReadPrinted(f: Filter, k: seq<Token>)
    requires NonEmpty(f)
    ensures ReadAlternatives(Print(f) + k) == Extend(Reading(f), k)
    decreases f
  {
    hide ReadUnit, ReadAlternatives, Extend;
    match f
    case Compare(cmp, l, r) =>
      ReadCompare(cmp, l, r, k);
      ReadOne(Print(f) + k, CompareUnit(cmp, l, r), k);
    case Not(g) =>
      var ts, end := Print(f) + k, [RightParen] + k;
      ReadPrinted(g, end);
      ExtendNot(Reading(g), k);
      assert ts[1..] == [LeftParen] + (Print(g) + end);
      assert ts[1..][1..] == Print(g) + end;
      ReadParen(ts[1..], Reading(g), k);
      ReadNegation(ts, Paren(Pack(Reading(g))), k);
      ReadOne(ts, Negation(Paren(Pack(Reading(g)))), k);
    case And(fs) => ReadPrintedAll(fs, AndWord, k);
    case Or(fs) => ReadPrintedAll(fs, OrWord, k);
  }

  lemma ExtendNot(r: seq<seq<Unit>>, k: seq<Token>)
    requires r != []
    ensures Extend(r, [RightParen] + k) == Read(r, [RightParen] + k)
  {
  }

  lemma ReadNegation(ts: seq<Token>, u: Unit, k: seq<Token>)
    requires ts != [] && ts[0] == NotWord && ReadUnit(ts[1..]) == Read(u, k)
    ensures ReadUnit(ts) == Read(Negation(u), k)
  {
  }

  lemma {:induction false} ReadPrintedAll(fs: Filters, word: Token, k: seq<Token>)
    requires fs.Cons? && AllNonEmpty(fs) && (word == AndWord || word == OrWord)
    ensures ReadAlternatives(Join(word, PrintAll(fs)) + k)
      == Extend(if word == AndWord then AndReading(fs) else OrReading(fs), k)
    decreases fs
  {
    hide ReadUnit, ReadAlternatives, Extend, Print;
    if fs.tail.Nil? {
      ReadPrinted(fs.head, k);
    } else {
      var tail := Join(word, PrintAll(fs.tail)) + k;
      ReadPrintedAll(fs.tail, word, k);
      ReadPrinted(fs.head, [word] + tail);
      assert PrintAll(fs)[1..] == PrintAll(fs.tail);
      assert Join(word, PrintAll(fs)) + k == Print(fs.head) + ([word] + tail);
      ExtendTwice(Reading(fs.head), if word == AndWord then AndReading(fs.tail) else OrReading(fs.tail), k, tail, word);
    }
  }

  // ------------------------------------------------------------ when the text says what the tree says

  /** The reading a printer with parentheses would get: an operand of AND with several alternatives is
      enclosed in parentheses. */
  function Intended(f: Filter): (r: seq<seq<Unit>>)
    requires NonEmpty(f)
    ensures r != []
    decreases f
  {
    match f
    case Compare(cmp, l, r) => One(CompareUnit(cmp, l, r))
    case Not(g) => One(Negation(Paren(Pack(Intended(g)))))
    case And(fs) => if fs.tail.Nil? then Intended(fs.head) else [IntendedAnd(fs)]
    case Or(fs) => IntendedOr(fs)
  }

  function AsConjunct(d: seq<seq<Unit>>): seq<Unit>
    requires d != []
  {
    if |d| == 1 then d[0] else [Paren(Pack(d))]
  }

  function IntendedAnd(fs: Filters): seq<Unit>
    requires AllNonEmpty(fs)
    decreases fs
  {
    if fs.Nil? then [] else AsConjunct(Intended(fs.head)) + IntendedAnd(fs.tail)
  }

  function IntendedOr(fs: Filters): (r: seq<seq<Unit>>)
    requires AllNonEmpty(fs)
    ensures fs.Cons? ==> r != []
    decreases fs
  {
    if fs.Nil? then [] else Intended(fs.head) + IntendedOr(fs.tail)
  }

  /** No OR of several operands at the surface; an And or Or of one operand is this operand. */
  predicate Single(f: Filter)
    decreases f
  {
    match f
    case And(fs) => fs.Cons? && (fs.tail.Cons? || Single(fs.head))
    case Or(fs) => fs.Cons? && fs.tail.Nil? && Single(fs.head)
    case _ => true
  }

  predicate AllSingle(fs: Filters)
    decreases fs
  {
    fs.Cons? ==> Single(fs.head) && AllSingle(fs.tail)
  }

  /** No And of several operands has an OR at the surface of an operand. */
  predicate Guarded(f: Filter)
    decreases f
  {
    match f
    case Compare(_, _, _) => true
    case Not(g) => Guarded(g)
    case And(fs) => AllGuarded(fs) && (fs.Cons? && fs.tail.Cons? ==> AllSingle(fs))
    case Or(fs) => AllGuarded(fs)
  }

  predicate AllGuarded(fs: Filters)
    decreases fs
  {
    fs.Cons? ==> Guarded(fs.head) && AllGuarded(fs.tail)
  }

  lemma {:induction false} OneAlternative(f: Filter)
    requires NonEmpty(f)
    ensures |Intended(f)| == 1 <==> Single(f)
    decreases f
  {
    match f
    case Compare(_, _, _) =>
    case Not(_) =>
    case And(fs) => OneAlternative(fs.head);
    case Or(fs) =>
      OneAlternative(fs.head);
      assert IntendedOr(fs) == Intended(fs.head) + IntendedOr(fs.tail);
  }

  /** The text never has fewer alternatives than intended; with one, it has as many conjuncts as intended. */
  lemma {:induction false} Sizes(f: Filter)
    requires NonEmpty(f)
    ensures |Reading(f)| >= |Intended(f)|
    ensures |Reading(f)| == 1 ==> |Intended(f)| == 1 && |Reading(f)[0]| == |Intended(f)[0]|
    decreases f
  {
    match f
    case Compare(_, _, _) =>
    case Not(_) =>
    case And(fs) =>
      AndSizes(fs);
      if fs.tail.Nil? {
        Sizes(fs.head);
      }
    case Or(fs) => OrSizes(fs);
  }

  lemma {:induction false} AndSizes(fs: Filters)
    requires fs.Cons? && AllNonEmpty(fs)
    ensures |AndReading(fs)| == 1 ==> |AndReading(fs)[0]| == |IntendedAnd(fs)|
    decreases fs
  {
    Sizes(fs.head);
    if fs.tail.Cons? {
      AndSizes(fs.tail);
    }
  }

  lemma {:induction false} OrSizes(fs: Filters)
    requires fs.Cons? && AllNonEmpty(fs)
    ensures |OrReading(fs)| >= |IntendedOr(fs)|
    ensures |OrReading(fs)| == 1 ==> |IntendedOr(fs)| == 1 && |OrReading(fs)[0]| == |IntendedOr(fs)[0]|
    decreases fs
  {
    Sizes(fs.head);
    if fs.tail.Cons? {
      OrSizes(fs.tail);
    }
  }

  lemma SplitEqual<T>(a: seq<T>, b: seq<T>, c: seq<T>, d: seq<T>)
    requires |a| == |c|
    ensures a + b == c + d <==> a == c && b == d
  {
    if a + b == c + d {
      assert a == (a + b)[..|a|] && c == (c + d)[..|c|];
      assert b == (a + b)[|a|..] && d == (c + d)[|c|..];
    }
  }

  lemma {:induction false} PackInjective(a: seq<seq<Unit>>, b: seq<seq<Unit>>)
    ensures Pack(a) == Pack(b) <==> a == b
  {
    if Pack(a) == Pack(b) {
      assert forall i :: 0 <= i < |a| ==> a[i] == Pack(a)[i].units == Pack(b)[i].units == b[i];
    }
  }

  /** The text says what the tree says exactly if no And of several operands has an OR at the surface of one. */
  lemma {:induction false} SaysWhatIsMeant(f: Filter)
    requires NonEmpty(f)
    ensures Reading(f) == Intended(f) <==> Guarded(f)
    decreases f
  {
    match f
    case Compare(_, _, _) =>
    case Not(g) =>
      SaysWhatIsMeant(g);
      PackInjective(Reading(g), Intended(g));
      assert Reading(f)[0][0] == Negation(Paren(Pack(Reading(g))))
        && Intended(f)[0][0] == Negation(Paren(Pack(Intended(g))));
    case And(fs) =>
      if fs.tail.Nil? {
        SaysWhatIsMeant(fs.head);
        assert AllGuarded(fs.tail) && (AllGuarded(fs) <==> Guarded(fs.head));
      } else {
        AndMeant(fs);
      }
    case Or(fs) => OrMeant(fs);
  }

  lemma {:induction false} AndMeant(fs: Filters)
    requires fs.Cons? && AllNonEmpty(fs)
    ensures AndReading(fs) == [IntendedAnd(fs)] <==> AllGuarded(fs) && AllSingle(fs)
    decreases fs
  {
    var r, i := Reading(fs.head), Intended(fs.head);
    SaysWhatIsMeant(fs.head);
    OneAlternative(fs.head);
    Sizes(fs.head);
    assert |r| == 1 && r[0] == i[0] && |i| == 1 ==> r == i;
    if fs.tail.Nil? {
      assert AsConjunct(i) + [] == AsConjunct(i);
    } else {
      var t, it := AndReading(fs.tail), IntendedAnd(fs.tail);
      AndMeant(fs.tail);
      AndSizes(fs.tail);
      if |r| == 1 && |t| == 1 {
        assert Glue(r, t) == [r[0] + t[0]];
        SplitEqual(r[0], t[0], i[0], it);
        assert t == [t[0]];
      }
    }
  }

  lemma {:induction false} OrMeant(fs: Filters)
    requires fs.Cons? && AllNonEmpty(fs)
    ensures OrReading(fs) == IntendedOr(fs) <==> AllGuarded(fs)
    decreases fs
  {
    var r, i := Reading(fs.head), Intended(fs.head);
    SaysWhatIsMeant(fs.head);
    Sizes(fs.head);
    if fs.tail.Nil? {
      assert i + [] == i;
    } else {
      var t, it := OrReading(fs.tail), IntendedOr(fs.tail);
      OrMeant(fs.tail);
      OrSizes(fs.tail);
      if |r + t| == |i + it| {
        SplitEqual(r, t, i, it);
      }
    }
  }

  // ------------------------------------------------------------ meaning on a row

  datatype Value = Null | Num(n: int)

  type Row = string -> Value

  /** Three-valued truth: 0 false, 1 unknown, 2 true. */
  type Truth = x: int | 0 <= x <= 2

  function Least(a: Truth, b: Truth): Truth {
    if a < b then a else b
  }

  function Greatest(a: Truth, b: Truth): Truth {
    if a < b then b else a
  }

  function ValueOf(o: Operand, row: Row): Value {
    match o
    case Field(column) => row(column)
    case Number(value) => Num(value)
    case NullLiteral => Null
  }

  function Holds(cmp: Cmp, a: int, b: int): bool {
    match cmp
    case Equal => a == b
    case NotEqual => a != b
    case Less => a < b
    case LessOrEqual => a <= b
    case Greater => a > b
    case GreaterOrEqual => a >= b
  }

  /** A comparison of SQL: unknown as soon as one side is null. */
  function Compared(cmp: Cmp, a: Value, b: Value): Truth {
    if a.Null? || b.Null? then 1 else if Holds(cmp, a.n, b.n) then 2 else 0
  }

  function Known(b: bool): Truth {
    if b then 2 else 0
  }

  /** What a comparison of the filter means: with the null literal = and != ask for null, and != of two other
      operands is true if one of them is null. */
  function CompareMeaning(cmp: Cmp, l: Operand, r: Operand, row: Row): Truth {
    var a, b := ValueOf(l, row), ValueOf(r, row);
    if (cmp == Equal || cmp == NotEqual) && (l == NullLiteral || r == NullLiteral) then
      Known((a == Null && b == Null) == (cmp == Equal))
    else if cmp == NotEqual then Known(a == Null || b == Null || a != b)
    else Compared(cmp, a, b)
  }

  function Meaning(f: Filter, row: Row): Truth
    decreases f
  {
    match f
    case Compare(cmp, l, r) => CompareMeaning(cmp, l, r, row)
    case Not(g) => 2 - Meaning(g, row)
    case And(fs) => AllOf(fs, row)
    case Or(fs) => AnyOf(fs, row)
  }

  function AllOf(fs: Filters, row: Row): Truth
    decreases fs
  {
    if fs.Nil? then 2 else Least(Meaning(fs.head, row), AllOf(fs.tail, row))
  }

  function AnyOf(fs: Filters, row: Row): Truth
    decreases fs
  {
    if fs.Nil? then 0 else Greatest(Meaning(fs.head, row), AnyOf(fs.tail, row))
  }

  // ------------------------------------------------------------ what this meaning is

  function Operands(fs: Filters): seq<Filter> {
    if fs.Nil? then [] else [fs.head] + Operands(fs.tail)
  }

  lemma {:induction false} AllOfOperands(fs: Filters, row: Row)
    ensures AllOf(fs, row) == 2 <==> forall g :: g in Operands(fs) ==> Meaning(g, row) == 2
    ensures AllOf(fs, row) == 0 <==> exists g :: g in Operands(fs) && Meaning(g, row) == 0
  {
    if fs.Cons? {
      hide Meaning;
      AllOfOperands(fs.tail, row);
      assert fs.head in Operands(fs) && forall g :: g in Operands(fs.tail) ==> g in Operands(fs);
    }
  }

  lemma {:induction false} AnyOfOperands(fs: Filters, row: Row)
    ensures AnyOf(fs, row) == 2 <==> exists g :: g in Operands(fs) && Meaning(g, row) == 2
    ensures AnyOf(fs, row) == 0 <==> forall g :: g in Operands(fs) ==> Meaning(g, row) == 0
  {
    if fs.Cons? {
      hide Meaning;
      AnyOfOperands(fs.tail, row);
      assert fs.head in Operands(fs) && forall g :: g in Operands(fs.tail) ==> g in Operands(fs);
    }
  }

  /** The truth tables of the filter: true (2) and false (0) of NOT, AND and OR by their operands, and unknown
      otherwise. */
  lemma TruthTables(f: Filter, row: Row)
    ensures f.Not? ==>
      && (Meaning(f, row) == 2 <==> Meaning(f.operand, row) == 0)
      && (Meaning(f, row) == 0 <==> Meaning(f.operand, row) == 2)
    ensures f.And? ==>
      && (Meaning(f, row) == 2 <==> forall g :: g in Operands(f.operands) ==> Meaning(g, row) == 2)
      && (Meaning(f, row) == 0 <==> exists g :: g in Operands(f.operands) && Meaning(g, row) == 0)
    ensures f.Or? ==>
      && (Meaning(f, row) == 2 <==> exists g :: g in Operands(f.operands) && Meaning(g, row) == 2)
      && (Meaning(f, row) == 0 <==> forall g :: g in Operands(f.operands) ==> Meaning(g, row) == 0)
  {
    if f.And? {
      AllOfOperands(f.operands, row);
    } else if f.Or? {
      AnyOfOperands(f.operands, row);
    }
  }

  /** No comparison of the filter meets a null on this row. */
  predicate WithoutNulls(f: Filter, row: Row)
    decreases f
  {
    match f
    case Compare(_, l, r) => ValueOf(l, row).Num? && ValueOf(r, row).Num?
    case Not(g) => WithoutNulls(g, row)
    case And(fs) => AllWithoutNulls(fs, row)
    case Or(fs) => AllWithoutNulls(fs, row)
  }

  predicate AllWithoutNulls(fs: Filters, row: Row)
    decreases fs
  {
    fs.Cons? ==> WithoutNulls(fs.head, row) && AllWithoutNulls(fs.tail, row)
  }

  /** The filter as a condition of the host language. */
  predicate Selects(f: Filter, row: Row)
    requires WithoutNulls(f, row)
    decreases f
  {
    match f
    case Compare(cmp, l, r) =>
      var a, b := ValueOf(l, row).n, ValueOf(r, row).n;
      (match cmp
       case Equal => a == b
       case NotEqual => a != b
       case Less => a < b
       case LessOrEqual => a <= b
       case Greater => b < a
       case GreaterOrEqual => b <= a)
    case Not(g) => !Selects(g, row)
    case And(fs) => SelectsAll(fs, row)
    case Or(fs) => SelectsAny(fs, row)
  }

  predicate SelectsAll(fs: Filters, row: Row)
    requires AllWithoutNulls(fs, row)
    decreases fs
  {
    fs.Cons? ==> Selects(fs.head, row) && SelectsAll(fs.tail, row)
  }

  predicate SelectsAny(fs: Filters, row: Row)
    requires AllWithoutNulls(fs, row)
    decreases fs
  {
    fs.Cons? && (Selects(fs.head, row) || SelectsAny(fs.tail, row))
  }

  /** On such a row the filter is never unknown, and true exactly if the condition holds. */
  lemma {:induction false} PlainMeaning(f: Filter, row: Row)
    requires WithoutNulls(f, row)
    ensures Meaning(f, row) == if Selects(f, row) then 2 else 0
    decreases f
  {
    match f
    case Compare(_, _, _) =>
    case Not(g) => PlainMeaning(g, row);
    case And(fs) => PlainMeanings(fs, row);
    case Or(fs) => PlainMeanings(fs, row);
  }

  lemma {:induction false} PlainMeanings(fs: Filters, row: Row)
    requires AllWithoutNulls(fs, row)
    ensures AllOf(fs, row) == if SelectsAll(fs, row) then 2 else 0
    ensures AnyOf(fs, row) == if SelectsAny(fs, row) then 2 else 0
    decreases fs
  {
    if fs.Cons? {
      PlainMeaning(fs.head, row);
      PlainMeanings(fs.tail, row);
    }
  }

  /** Comparisons with null: = and != ask for it where the literal stands, != of a null operand is true, and
      every other comparison is unknown. */
  lemma NullMeaning(cmp: Cmp, l: Operand, r: Operand, row: Row)
    requires ValueOf(l, row) == Null || ValueOf(r, row) == Null
    ensures var t, literal, both := Meaning(Compare(cmp, l, r), row), l.NullLiteral? || r.NullLiteral?,
                                   ValueOf(l, row) == Null && ValueOf(r, row) == Null;
      && (cmp == Equal && literal ==> t == if both then 2 else 0)
      && (cmp == NotEqual && literal ==> t == if both then 0 else 2)
      && (cmp == NotEqual && !literal ==> t == 2)
      && (cmp == Equal && !literal ==> t == 1)
      && (cmp != Equal && cmp != NotEqual ==> t == 1)
  {
  }

  // ------------------------------------------------------------ truth of what is read

  function UnitTruth(u: Unit, row: Row): Truth
    decreases u
  {
    match u
    case Test(cmp, l, r) => Compared(cmp, ValueOf(l, row), ValueOf(r, row))
    case NullTest(o, negated) => Known((ValueOf(o, row) == Null) != negated)
    case Negation(v) => 2 - UnitTruth(v, row)
    case Paren(cs) => AnyTruth(cs, row)
  }

  function AnyTruth(cs: seq<Conjunction>, row: Row): Truth
    decreases cs
  {
    if cs == [] then 0 else Greatest(AllTruth(cs[0].units, row), AnyTruth(cs[1..], row))
  }

  function AllTruth(us: seq<Unit>, row: Row): Truth
    decreases us
  {
    if us == [] then 2 else Least(UnitTruth(us[0], row), AllTruth(us[1..], row))
  }

  function Truth3(alts: seq<seq<Unit>>, row: Row): Truth {
    AnyTruth(Pack(alts), row)
  }

  lemma {:induction false} AllTruthConcat(a: seq<Unit>, b: seq<Unit>, row: Row)
    ensures AllTruth(a + b, row) == Least(AllTruth(a, row), AllTruth(b, row))
  {
    hide UnitTruth;
    if a == [] {
      assert a + b == b;
    } else {
      assert (a + b)[1..] == a[1..] + b && (a + b)[0] == a[0];
      AllTruthConcat(a[1..], b, row);
    }
  }

  lemma {:induction false} TruthConcat(a: seq<seq<Unit>>, b: seq<seq<Unit>>, row: Row)
    ensures Truth3(a + b, row) == Greatest(Truth3(a, row), Truth3(b, row))
  {
    hide AllTruth;
    if a == [] {
      assert a + b == b;
    } else {
      assert (a + b)[1..] == a[1..] + b && (a + b)[0] == a[0];
      assert Pack(a + b)[1..] == Pack(a[1..] + b) && Pack(a)[1..] == Pack(a[1..]);
      TruthConcat(a[1..], b, row);
    }
  }

  lemma TruthOne(us: seq<Unit>, row: Row)
    ensures Truth3([us], row) == AllTruth(us, row)
  {
    assert Pack([us]) == [Conjunction(us)];
    assert AnyTruth([Conjunction(us)][1..], row) == 0;
  }

  lemma UnitOne(u: Unit, row: Row)
    ensures AllTruth([u], row) == UnitTruth(u, row) && Truth3(One(u), row) == UnitTruth(u, row)
  {
    assert [u][1..] == [];
    TruthOne([u], row);
  }

  lemma CompareTruth(cmp: Cmp, l: Operand, r: Operand, row: Row)
    ensures Truth3(One(CompareUnit(cmp, l, r)), row) == CompareMeaning(cmp, l, r, row)
  {
    var u := CompareUnit(cmp, l, r);
    UnitOne(u, row);
    UnitOne(NullTest(l, cmp == NotEqual), row);
    UnitOne(NullTest(r, cmp == NotEqual), row);
    var nl, nr, t := NullTest(l, false), NullTest(r, false), Test(NotEqual, l, r);
    TruthConcat([[nl]], [[nr], [t]], row);
    TruthConcat([[nr]], [[t]], row);
    assert [[nl]] + [[nr], [t]] == [[nl], [nr], [t]] && [[nr]] + [[t]] == [[nr], [t]];
    UnitOne(nl, row);
    UnitOne(nr, row);
    UnitOne(t, row);
  }

  /** The intended reading has the meaning of the tree on every row. */
  lemma {:induction false} IntendedIsMeant(f: Filter, row: Row)
    requires NonEmpty(f)
    ensures Truth3(Intended(f), row) == Meaning(f, row)
    decreases f
  {
    match f
    case Compare(cmp, l, r) => CompareTruth(cmp, l, r, row);
    case Not(g) =>
      IntendedIsMeant(g, row);
      UnitOne(Negation(Paren(Pack(Intended(g)))), row);
    case And(fs) =>
      if fs.tail.Nil? {
        IntendedIsMeant(fs.head, row);
        assert AllOf(fs.tail, row) == 2 && AllOf(fs, row) == Least(Meaning(fs.head, row), 2);
      } else {
        AndIsMeant(fs, row);
        TruthOne(IntendedAnd(fs), row);
      }
    case Or(fs) => OrIsMeant(fs, row);
  }

  lemma {:induction false} AndIsMeant(fs: Filters, row: Row)
    requires AllNonEmpty(fs)
    ensures AllTruth(IntendedAnd(fs), row) == AllOf(fs, row)
    decreases fs
  {
    if fs.Cons? {
      var d := Intended(fs.head);
      IntendedIsMeant(fs.head, row);
      AndIsMeant(fs.tail, row);
      AllTruthConcat(AsConjunct(d), IntendedAnd(fs.tail), row);
      if |d| == 1 {
        assert d == [d[0]];
        TruthOne(d[0], row);
      } else {
        UnitOne(Paren(Pack(d)), row);
      }
    }
  }

  lemma {:induction false} OrIsMeant(fs: Filters, row: Row)
    requires AllNonEmpty(fs)
    ensures Truth3(IntendedOr(fs), row) == AnyOf(fs, row)
    decreases fs
  {
    if fs.Cons? {
      IntendedIsMeant(fs.head, row);
      OrIsMeant(fs.tail, row);
      TruthConcat(Intended(fs.head), IntendedOr(fs.tail), row);
    }
  }

  // ------------------------------------------------------------ main results

  /** The printed text is always readable, as the reading of the tree and nothing more. */
  lemma PrintedIsReadable(f: Filter)
    requires NonEmpty(f)
    ensures ReadAlternatives(Print(f)) == Read(Reading(f), [])
  {
    hide ReadAlternatives;
    ReadPrinted(f, []);
    assert Print(f) + [] == Print(f);
  }

  /** If no And of several operands has an OR at the surface of one, the printed SQL has the truth value of
      the filter on every row. */
  lemma PrintedMeaning(f: Filter, row: Row)
    requires NonEmpty(f) && Guarded(f)
    ensures var d := ReadAlternatives(Print(f)); d.Read? && d.rest == [] && Truth3(d.value, row) == Meaning(f, row)
  {
    hide ReadAlternatives, Truth3;
    PrintedIsReadable(f);
    SaysWhatIsMeant(f);
    IntendedIsMeant(f, row);
  }

  /** Otherwise the text is read as another tree than the one that was printed. */
  lemma PrintedTree(f: Filter)
    requires NonEmpty(f)
    ensures ReadAlternatives(Print(f)) == Read(Intended(f), []) <==> Guarded(f)
  {
    hide ReadAlternatives;
    PrintedIsReadable(f);
    SaysWhatIsMeant(f);
  }

  /** (a OR b) AND c is printed as a OR b AND c, which holds on a row where a does and c does not. */
  lemma OrUnderAnd(a: Filter, b: Filter, c: Filter, row: Row)
    requires a.Compare? && b.Compare? && c.Compare?
    requires Meaning(a, row) == 2 && Meaning(c, row) == 0
    ensures var f := And(Cons(Or(Cons(a, Cons(b, Nil))), Cons(c, Nil)));
      && NonEmpty(f) && !Guarded(f)
      && var d := ReadAlternatives(Print(f)); d.Read? && Truth3(d.value, row) == 2 && Meaning(f, row) == 0
  {
    var or := Or(Cons(a, Cons(b, Nil)));
    var f := And(Cons(or, Cons(c, Nil)));
    assert AllNonEmpty(Cons(b, Nil)) && AllNonEmpty(Cons(a, Cons(b, Nil))) && AllNonEmpty(Cons(c, Nil))
      && AllNonEmpty(Cons(or, Cons(c, Nil)));
    assert !Single(or);
    hide ReadAlternatives, Truth3, CompareUnit;
    PrintedIsReadable(f);
    var ua, ub, uc := CompareUnit(a.cmp, a.left, a.right), CompareUnit(b.cmp, b.left, b.right),
      CompareUnit(c.cmp, c.left, c.right);
    assert OrReading(Cons(b, Nil)) == One(ub);
    assert OrReading(Cons(a, Cons(b, Nil))) == Reading(a) + OrReading(Cons(b, Nil));
    assert Reading(or) == One(ua) + One(ub);
    assert AndReading(Cons(c, Nil)) == One(uc) && Reading(f) == Glue(One(ua) + One(ub), One(uc));
    assert (One(ua) + One(ub))[..1] == One(ua) && (One(ua) + One(ub))[1] + One(uc)[0] == [ub, uc] && One(uc)[1..] == [];
    assert Reading(f) == One(ua) + [[ub, uc]];
    TruthConcat(One(ua), [[ub, uc]], row);
    CompareTruth(a.cmp, a.left, a.right, row);
    assert AllOf(Cons(c, Nil), row) == 0;
  }
}
