/** JSON trees, the events of the pull parser and the pre-order walk that connects them. */
module Tree {
  import opened Ascii
  import opened Lexer

  /** The key of an object member, or nothing for array elements and the root value. */
  datatype Label = NoKey | Key(text: seq<byte>)

  datatype Scalar = Str(text: seq<byte>) | Num(text: seq<byte>) | Bool(value: bool) | Null

  datatype Kind = ObjectKind | ArrayKind

  datatype Json = Leaf(v: Scalar) | Node(kind: Kind, items: Items)

  /** The members of an object or the elements of an array, in order. */
  datatype Items = Nil | Cons(key: Label, value: Json, tail: Items)

  datatype Event =
    | Value(key: Label, v: Scalar)
    | Start(kind: Kind, key: Label)
    | End(kind: Kind)
    | EOF
    | Error

  predicate Last(ev: Event) {
    ev == EOF || ev == Error
  }

  function Max(a: int, b: int): int {
    if a < b then b else a
  }

  function Depth(t: Json): (d: nat) {
    match t
    case Leaf(_) => 0
    case Node(_, items) => 1 + ItemsDepth(items)
  }

  function ItemsDepth(items: Items): (d: nat) {
    match items
    case Nil => 0
    case Cons(_, v, tail) => Max(Depth(v), ItemsDepth(tail))
  }

  /** The pre-order walk of a tree. */
  function Events(key: Label, t: Json): seq<Event>
    decreases t
  {
    match t
    case Leaf(v) => [Value(key, v)]
    case Node(kind, items) => [Start(kind, key)] + ItemsEvents(items) + [End(kind)]
  }

  function ItemsEvents(items: Items): seq<Event>
    decreases items
  {
    match items
    case Nil => []
    case Cons(key, v, tail) => Events(key, v) + ItemsEvents(tail)
  }

  /** Keys exactly on the members of objects, and lexer-accepted number texts. */
  predicate WellFormed(t: Json)
    decreases t
  {
    match t
    case Leaf(v) => v.Num? ==> ValidNumber(v.text)
    case Node(kind, items) => ItemsWellFormed(kind, items)
  }

  predicate ItemsWellFormed(kind: Kind, items: Items)
    decreases items
  {
    match items
    case Nil => true
    case Cons(key, v, tail) =>
      key.Key? == kind.ObjectKind? && WellFormed(v) && ItemsWellFormed(kind, tail)
  }
}
