/** The transaction depth of one SQLite connection: nested transactions are flattened into one, and every
    container call runs in a scope that ends on every return path. The engine is a committed and a working
    table; statements may fail, BEGIN, COMMIT and ROLLBACK do not. */
module SqlTransaction {
  import opened Outcome

  type Table = map<string, string>

  datatype Entity = Entity(key: string, value: string)

  datatype Sql = BeginSql | CommitSql | RollbackSql

  /** A failure of the prepared statement: none, when it is prepared, or at the row with this index. */
  datatype Fault = NoFault | AtPrepare | AtRow(row: nat)

  /** The state of a connection and its database: what has been sent so far, and the two tables. */
  datatype State = State(depth: int, committed: Table, working: Table, log: seq<Sql>)

  predicate IsOpen(log: seq<Sql>) {
    log != [] && log[|log| - 1] == BeginSql
  }

  /** BEGIN and COMMIT or ROLLBACK strictly alternate, starting with BEGIN. */
  predicate Alternates(log: seq<Sql>) {
    forall i :: 0 <= i < |log| ==> (log[i] == BeginSql <==> i % 2 == 0)
  }

  /** A transaction is open exactly while the depth is positive; without one there is only one table. */
  predicate Consistent(s: State) {
    && s.depth >= 0 && Alternates(s.log) && (s.depth > 0 <==> IsOpen(s.log))
    && (s.depth == 0 ==> s.committed == s.working)
  }

  // ------------------------------------------------------------ the engine

  function Exec(s: State, sql: Sql): State {
    match sql
    case BeginSql => s.(log := s.log + [sql])
    case CommitSql => s.(log := s.log + [sql], committed := s.working)
    case RollbackSql => s.(log := s.log + [sql], working := s.committed)
  }

  /** A statement outside a transaction is committed at once. */
  function Update(s: State, t: Table): State {
    s.(working := t, committed := if IsOpen(s.log) then s.committed else t)
  }

  // ------------------------------------------------------------ statements row by row

  /** The rows of an INSERT before the first that fails: an injected fault, or a key that is there already. */
  function InsertRows(t: Table, es: seq<Entity>, fault: Fault): (r: (Table, bool))
    decreases |es|
  {
    if es == [] then (t, true)
    else if fault == AtRow(0) || es[0].key in t then (t, false)
    else InsertRows(t[es[0].key := es[0].value], es[1..], NextRow(fault))
  }

  function UpsertRows(t: Table, es: seq<Entity>, fault: Fault): (r: (Table, bool))
    decreases |es|
  {
    if es == [] then (t, true)
    else if fault == AtRow(0) then (t, false)
    else UpsertRows(t[es[0].key := es[0].value], es[1..], NextRow(fault))
  }

  function DeleteRows(t: Table, keys: seq<string>, fault: Fault): (r: (Table, bool))
    decreases |keys|
  {
    if keys == [] then (t, true)
    else if fault == AtRow(0) then (t, false)
    else DeleteRows(t - {keys[0]}, keys[1..], NextRow(fault))
  }

  function NextRow(fault: Fault): Fault {
    if fault.AtRow? && fault.row > 0 then AtRow(fault.row - 1) else fault
  }

  // ------------------------------------------------------------ commands

  datatype Command =
    | Begin
    | Commit
    | Rollback
    | Create(entities: seq<Entity>, fault: Fault)
    | Upsert(entities: seq<Entity>, fault: Fault)
    | Delete(keys: seq<string>, fault: Fault)
    | DeleteAll(fault: Fault)

  predicate IsContainerCall(c: Command) {
    !c.Begin? && !c.Commit? && !c.Rollback?
  }

  /** The table a container call leaves behind, and whether it reports success. */
  function Rows(t: Table, c: Command): (Table, bool)
    requires IsContainerCall(c)
  {
    match c
    case Create(es, fault) => if fault == AtPrepare then (t, false) else InsertRows(t, es, fault)
    case Upsert(es, fault) => if es != [] && fault == AtPrepare then (t, false) else UpsertRows(t, es, fault)
    case Delete(keys, fault) => if fault == AtPrepare then (t, false) else DeleteRows(t, keys, fault)
    case DeleteAll(fault) => if fault == NoFault then (map[], true) else (t, false)
  }

  function Begun(s: State): State {
    var s1 := s.(depth := s.depth + 1);
    if s1.depth == 1 then Exec(s1, BeginSql) else s1
  }

  function Ended(s: State, sql: Sql): State {
    var s1 := s.(depth := s.depth - 1);
    if s1.depth == 0 then Exec(s1, sql) else s1
  }

  /** DELETE of everything, and an upsert of nothing, use no scope. */
  predicate Scoped(c: Command) {
    !c.DeleteAll? && !(c.Upsert? && c.entities == [])
  }

  function Apply(s: State, c: Command): State {
    if c.Begin? then Begun(s)
    else if c.Commit? then (if s.depth <= 0 then s else Ended(s, CommitSql))
    else if c.Rollback? then (if s.depth <= 0 then s else Ended(s, RollbackSql))
    else if Scoped(c) then Ended(Update(Begun(s), Rows(s.working, c).0), CommitSql)
    else Update(s, Rows(s.working, c).0)
  }

  function Run(s: State, cs: seq<Command>): State
    decreases |cs|
  {
    if cs == [] then s else Run(Apply(s, cs[0]), cs[1..])
  }

  // ------------------------------------------------------------ whole runs

  lemma ApplyConsistent(s: State, c: Command)
    requires Consistent(s)
    ensures Consistent(Apply(s, c))
    ensures IsContainerCall(c) ==> Apply(s, c).depth == s.depth
  {
    hide Rows;
    if IsContainerCall(c) {
      var t := Rows(s.working, c).0;
      assert Consistent(Update(s, t));
      assert Consistent(Begun(s)) && Consistent(Update(Begun(s), t))
        && Consistent(Ended(Update(Begun(s), t), CommitSql));
    }
  }

  /** In every run BEGIN and its end strictly alternate and the depth is positive exactly while a transaction is
      open. */
  lemma {:induction false} RunConsistent(s: State, cs: seq<Command>)
    requires Consistent(s)
    ensures Consistent(Run(s, cs))
    decreases |cs|
  {
    hide Apply, Consistent;
    if cs != [] {
      ApplyConsistent(s, cs[0]);
      RunConsistent(Apply(s, cs[0]), cs[1..]);
    }
  }

  function Depth(depth: int, c: Command): int {
    match c
    case Begin => depth + 1
    case Commit => if depth <= 0 then depth else depth - 1
    case Rollback => if depth <= 0 then depth else depth - 1
    case _ => depth
  }

  /** From this depth the commands never end the outermost transaction, and lead to depth end. */
  predicate StaysOpen(depth: int, cs: seq<Command>, end: int)
    decreases |cs|
  {
    if cs == [] then depth == end else Depth(depth, cs[0]) > 0 && StaysOpen(Depth(depth, cs[0]), cs[1..], end)
  }

  /** The container calls among the commands. */
  function CallsOnly(cs: seq<Command>): seq<Command> {
    if cs == [] then []
    else (if IsContainerCall(cs[0]) then [cs[0]] else []) + CallsOnly(cs[1..])
  }

  /** The table after container calls, one after the other. */
  function AllRows(t: Table, calls: seq<Command>): Table
    requires forall i :: 0 <= i < |calls| ==> IsContainerCall(calls[i])
    decreases |calls|
  {
    if calls == [] then t else AllRows(Rows(t, calls[0]).0, calls[1..])
  }

  lemma {:induction false} CallsOnlyAreCalls(cs: seq<Command>)
    ensures forall i :: 0 <= i < |CallsOnly(cs)| ==> IsContainerCall(CallsOnly(cs)[i])
  {
    if cs != [] {
      CallsOnlyAreCalls(cs[1..]);
    }
  }

  /** Inside an open transaction nothing is sent or committed, and inner Begin, Commit and Rollback change
      nothing at all: the working table is what the container calls alone make of it. */
  lemma {:induction false} Flattened(s: State, cs: seq<Command>, end: int)
    requires Consistent(s) && s.depth > 0 && StaysOpen(s.depth, cs, end)
    ensures Run(s, cs).depth == end > 0
    ensures Run(s, cs).log == s.log && Run(s, cs).committed == s.committed
    ensures (forall i :: 0 <= i < |CallsOnly(cs)| ==> IsContainerCall(CallsOnly(cs)[i]))
      && Run(s, cs).working == AllRows(s.working, CallsOnly(cs))
    decreases |cs|
  {
    CallsOnlyAreCalls(cs);
    if cs != [] {
      var c, s1, rest := cs[0], Apply(s, cs[0]), CallsOnly(cs[1..]);
      OpenStep(s, c);
      ApplyConsistent(s, c);
      Flattened(s1, cs[1..], end);
      if IsContainerCall(c) {
        assert CallsOnly(cs) == [c] + rest && ([c] + rest)[1..] == rest;
      } else {
        assert CallsOnly(cs) == rest;
      }
    }
  }

  lemma OpenStep(s: State, c: Command)
    requires Consistent(s) && s.depth > 0 && Depth(s.depth, c) > 0
    ensures var s1 := Apply(s, c);
      && s1.depth == Depth(s.depth, c) && s1.log == s.log && s1.committed == s.committed
      && s1.working == if IsContainerCall(c) then Rows(s.working, c).0 else s.working
  {
    hide Rows;
  }

  lemma {:induction false} RunConcat(s: State, a: seq<Command>, b: seq<Command>)
    ensures Run(s, a + b) == Run(Run(s, a), b)
    decreases |a|
  {
    hide Apply;
    if a == [] {
      assert a + b == b;
    } else {
      assert (a + b)[1..] == a[1..] + b && (a + b)[0] == a[0];
      RunConcat(Apply(s, a[0]), a[1..], b);
    }
  }

  lemma RunOne(s: State, c: Command)
    ensures Run(s, [c]) == Apply(s, c)
  {
    assert [c][1..] == [];
  }

  /** A whole outermost transaction: one BEGIN, one end. Rollback restores the data at the outermost Begin,
      whatever was committed inside; Commit publishes all rows, whatever was rolled back inside. */
  lemma Transaction(s: State, cs: seq<Command>, last: Command)
    requires Consistent(s) && s.depth == 0 && StaysOpen(1, cs, 1) && (last == Commit || last == Rollback)
    ensures forall i :: 0 <= i < |CallsOnly(cs)| ==> IsContainerCall(CallsOnly(cs)[i])
    ensures var end := Run(s, [Begin] + cs + [last]);
      && end.depth == 0 && end.committed == end.working
      && end.log == s.log + [BeginSql, if last == Commit then CommitSql else RollbackSql]
      && end.working == if last == Commit then AllRows(s.working, CallsOnly(cs)) else s.working
  {
    hide Run, AllRows, CallsOnly;
    RunConcat(s, [Begin] + cs, [last]);
    RunConcat(s, [Begin], cs);
    RunOne(s, Begin);
    ApplyConsistent(s, Begin);
    Flattened(Apply(s, Begin), cs, 1);
    RunOne(Run(Apply(s, Begin), cs), last);
  }

  // ------------------------------------------------------------ what a failing call leaves behind

  /** Every call but DELETE of everything stores row by row. */
  predicate HasRows(c: Command) {
    c.Create? || c.Upsert? || c.Delete?
  }

  function Size(c: Command): nat
    requires HasRows(c)
  {
    if c.Delete? then |c.keys| else |c.entities|
  }

  predicate PrepareFails(c: Command)
    requires HasRows(c)
  {
    c.fault == AtPrepare && !(c.Upsert? && c.entities == [])
  }

  /** A row fails by a fault; a row to create fails as well if its key is in the table or in a row before it. */
  predicate RowFails(t: Table, c: Command, i: nat)
    requires HasRows(c) && i < Size(c)
  {
    || c.fault == AtRow(i)
    || (c.Create? && (c.entities[i].key in t || c.entities[i].key in KeysOf(c.entities[..i])))
  }

  function KeysOf(es: seq<Entity>): set<string> {
    set e | e in es :: e.key
  }

  /** The index of the first row from i on that fails, or the number of rows. */
  function FirstFailing(t: Table, c: Command, i: nat): (n: nat)
    requires HasRows(c) && i <= Size(c)
    ensures i <= n <= Size(c) && (n < Size(c) ==> RowFails(t, c, n))
    ensures forall j :: i <= j < n ==> !RowFails(t, c, j)
    decreases Size(c) - i
  {
    if i == Size(c) || RowFails(t, c, i) then i else FirstFailing(t, c, i + 1)
  }

  function StoredRows(t: Table, c: Command): (n: nat)
    requires HasRows(c)
    ensures n <= Size(c)
  {
    if PrepareFails(c) then 0 else FirstFailing(t, c, 0)
  }

  /** After holds what was there before and these rows; of rows with the same key the last one stays. */
  predicate Holds(before: Table, es: seq<Entity>, after: Table) {
    && after.Keys == before.Keys + KeysOf(es)
    && (forall k :: k in before && k !in KeysOf(es) ==> after[k] == before[k])
    && (forall i :: 0 <= i < |es| && es[i].key !in KeysOf(es[i + 1..]) ==> after[es[i].key] == es[i].value)
  }

  lemma KeysCons(e: Entity, es: seq<Entity>)
    ensures KeysOf([e] + es) == {e.key} + KeysOf(es)
  {
    var all := [e] + es;
    assert e == all[0] && forall i :: 0 <= i < |es| ==> es[i] == all[i + 1];
  }

  lemma KeyIn(es: seq<Entity>, i: nat)
    requires i < |es|
    ensures es[i].key in KeysOf(es)
  {
    assert es[i] in es;
  }

  lemma HoldsCons(t: Table, e: Entity, es: seq<Entity>, after: Table)
    requires Holds(t[e.key := e.value], es, after)
    ensures Holds(t, [e] + es, after)
  {
    var all := [e] + es;
    KeysCons(e, es);
    hide KeysOf;
    forall i | 0 <= i < |all| && all[i].key !in KeysOf(all[i + 1..])
      ensures all[i].key in after && after[all[i].key] == all[i].value
    {
      KeyIn(all, i);
      if i == 0 {
        assert all[1..] == es;
      } else {
        assert all[i + 1..] == es[i..] && all[i] == es[i - 1];
      }
    }
  }

  lemma FirstAndRest<T>(s: seq<T>, n: nat)
    requires 0 < n <= |s|
    ensures s[..n] == [s[0]] + s[1..][..n - 1]
  {
  }

  lemma RowFailsLater(t: Table, es: seq<Entity>, fault: Fault, i: nat)
    requires i + 1 < |es| && fault != AtRow(0)
    ensures RowFails(t[es[0].key := es[0].value], Create(es[1..], NextRow(fault)), i)
      == RowFails(t, Create(es, fault), i + 1)
  {
    FirstAndRest(es, i + 1);
    KeysCons(es[0], es[1..][..i]);
    hide KeysOf;
  }

  lemma {:induction false} InsertedRows(t: Table, es: seq<Entity>, fault: Fault, n: nat)
    requires n <= |es|
    requires var c := Create(es, fault);
      (forall i :: 0 <= i < n ==> !RowFails(t, c, i)) && (n < |es| ==> RowFails(t, c, n))
    ensures var r := InsertRows(t, es, fault); (r.1 <==> n == |es|) && Holds(t, es[..n], r.0)
    decreases |es|
  {
    var c := Create(es, fault);
    if n == 0 {
      assert es[..0] == [] && KeysOf([]) == {};
    } else {
      assert !RowFails(t, c, 0);
      var t1, rest := t[es[0].key := es[0].value], es[1..];
      assert InsertRows(t, es, fault) == InsertRows(t1, rest, NextRow(fault));
      hide RowFails, Holds;
      forall i | 0 <= i < |rest|
        ensures RowFails(t1, Create(rest, NextRow(fault)), i) == RowFails(t, c, i + 1)
      {
        RowFailsLater(t, es, fault, i);
      }
      InsertedRows(t1, rest, NextRow(fault), n - 1);
      FirstAndRest(es, n);
      HoldsCons(t, es[0], rest[..n - 1], InsertRows(t, es, fault).0);
    }
  }

  lemma FaultsLater(fault: Fault, n: nat, size: nat)
    requires 0 < n <= size
    requires (forall i :: 0 <= i < n ==> fault != AtRow(i)) && (n < size ==> fault == AtRow(n))
    ensures (forall i :: 0 <= i < n - 1 ==> NextRow(fault) != AtRow(i)) && (n < size ==> NextRow(fault) == AtRow(n - 1))
  {
    forall i | 0 <= i < n - 1
      ensures NextRow(fault) != AtRow(i)
    {
      assert fault != AtRow(i + 1);
    }
  }

  lemma {:induction false} UpsertedRows(t: Table, es: seq<Entity>, fault: Fault, n: nat)
    requires n <= |es|
    requires (forall i :: 0 <= i < n ==> fault != AtRow(i)) && (n < |es| ==> fault == AtRow(n))
    ensures var r := UpsertRows(t, es, fault); (r.1 <==> n == |es|) && Holds(t, es[..n], r.0)
    decreases |es|
  {
    if n > 0 {
      assert fault != AtRow(0);
      FaultsLater(fault, n, |es|);
      hide Holds;
      UpsertedRows(t[es[0].key := es[0].value], es[1..], NextRow(fault), n - 1);
      FirstAndRest(es, n);
      HoldsCons(t, es[0], es[1..][..n - 1], UpsertRows(t, es, fault).0);
    } else {
      assert es[..0] == [] && KeysOf([]) == {};
    }
  }

  lemma {:induction false} DeletedRows(t: Table, keys: seq<string>, fault: Fault, n: nat)
    requires n <= |keys|
    requires (forall i :: 0 <= i < n ==> fault != AtRow(i)) && (n < |keys| ==> fault == AtRow(n))
    ensures var r := DeleteRows(t, keys, fault);
      (r.1 <==> n == |keys|) && r.0 == t - set k | k in keys[..n]
    decreases |keys|
  {
    if n > 0 {
      assert fault != AtRow(0);
      FaultsLater(fault, n, |keys|);
      DeletedRows(t - {keys[0]}, keys[1..], NextRow(fault), n - 1);
      var rest := keys[1..][..n - 1];
      FirstAndRest(keys, n);
      assert (set k | k in keys[..n]) == {keys[0]} + set k | k in rest;
    }
  }

  lemma RowFaults(t: Table, c: Command, n: nat)
    requires (c.Upsert? || c.Delete?) && n <= Size(c)
    requires forall i :: 0 <= i < n ==> !RowFails(t, c, i)
    ensures forall i :: 0 <= i < n ==> c.fault != AtRow(i)
  {
    forall i | 0 <= i < n
      ensures c.fault != AtRow(i)
    {
      assert !RowFails(t, c, i);
    }
  }

  /** Outside a transaction a container call commits at once whatever it stored, successful or not. What it
      stored are its rows before the first one that fails. */
  lemma CallCommitsPrefix(s: State, c: Command)
    requires Consistent(s) && s.depth == 0 && IsContainerCall(c)
    ensures var end := Apply(s, c);
      && end.depth == 0 && end.log == s.log + (if Scoped(c) then [BeginSql, CommitSql] else [])
      && end.committed == end.working == Rows(s.working, c).0
    ensures HasRows(c) ==>
      var n := StoredRows(s.committed, c);
      && (Rows(s.working, c).1 <==> n == Size(c) && !PrepareFails(c))
      && if c.Delete? then Apply(s, c).committed == s.committed - set k | k in c.keys[..n]
         else Holds(s.committed, c.entities[..n], Apply(s, c).committed)
    ensures c.DeleteAll? ==>
      && (Rows(s.working, c).1 <==> c.fault == NoFault)
      && Apply(s, c).committed == if c.fault == NoFault then map[] else s.committed
  {
    if HasRows(c) {
      var t, n := s.committed, StoredRows(s.committed, c);
      hide Holds;
      HoldsNothing(t);
      if PrepareFails(c) {
        assert c.Delete? ==> c.keys[..0] == [] && t - {} == t;
        assert !c.Delete? ==> c.entities[..0] == [];
      } else if c.Create? {
        InsertedRows(t, c.entities, c.fault, n);
      } else if c.Upsert? {
        RowFaults(t, c, n);
        UpsertedRows(t, c.entities, c.fault, n);
      } else {
        RowFaults(t, c, n);
        DeletedRows(t, c.keys, c.fault, n);
      }
    }
  }

  lemma HoldsNothing(t: Table)
    ensures Holds(t, [], t)
  {
    assert KeysOf([]) == {};
  }

  /** The call reports success, or it leaves the data as they were. */
  predicate AllOrNothing(s: State, c: Command)
    requires IsContainerCall(c)
  {
    Rows(s.working, c).1 || Apply(s, c).committed == s.committed
  }

  /** The rows before the failing one are in the table already, or deleted from it already. */
  predicate Redundant(t: Table, c: Command, n: nat)
    requires HasRows(c) && n <= Size(c)
  {
    match c
    case Create(es, _) => n == 0
    case Upsert(es, _) =>
      forall i :: 0 <= i < n ==>
        es[i].key in t && (es[i].key !in KeysOf(es[i + 1..n]) ==> t[es[i].key] == es[i].value)
    case Delete(keys, _) => forall i :: 0 <= i < n ==> keys[i] !in t
  }

  lemma DeleteChanges(t: Table, c: Command, n: nat)
    requires c.Delete? && n <= |c.keys|
    ensures (t - set k | k in c.keys[..n]) == t <==> Redundant(t, c, n)
  {
    var gone := set k | k in c.keys[..n];
    assert forall i :: 0 <= i < n ==> c.keys[..n][i] == c.keys[i] && c.keys[i] in gone;
    if !Redundant(t, c, n) {
      var i :| 0 <= i < n && c.keys[i] in t;
      assert c.keys[i] !in t - gone;
    }
  }

  lemma UpsertChanges(t: Table, c: Command, n: nat, after: Table)
    requires c.Upsert? && n <= |c.entities| && Holds(t, c.entities[..n], after)
    ensures after == t <==> Redundant(t, c, n)
  {
    var es := c.entities;
    forall i | 0 <= i < n
      ensures es[..n][i] == es[i] && es[i].key in after && es[..n][i + 1..] == es[i + 1..n]
    {
      assert es[..n][i] in es[..n] && es[i].key in KeysOf(es[..n]);
    }
    if Redundant(t, c, n) {
      assert forall k :: k in KeysOf(es[..n]) ==> exists e :: e in es[..n] && e.key == k;
      assert after.Keys == t.Keys;
      forall k | k in t
        ensures after[k] == t[k]
      {
        if k in KeysOf(es[..n]) {
          var i := LastWith(es[..n], k);
        }
      }
    }
  }

  lemma {:induction false} LastWith(es: seq<Entity>, k: string) returns (i: nat)
    requires k in KeysOf(es)
    ensures i < |es| && es[i].key == k && k !in KeysOf(es[i + 1..])
  {
    if k in KeysOf(es[1..]) {
      i := LastWith(es[1..], k);
      i := i + 1;
      assert es[1..][i..] == es[i + 1..];
    } else {
      i := 0;
    }
  }

  lemma CreateChanges(t: Table, c: Command, n: nat, after: Table)
    requires c.Create? && 0 < n <= |c.entities| && !RowFails(t, c, 0) && Holds(t, c.entities[..n], after)
    ensures after != t
  {
    assert c.entities[..n][0] in c.entities[..n];
    assert c.entities[0].key in after;
  }

  /** Exactly when a call outside a transaction is atomic: if no row fails, if the prepared statement does, or
      if the rows before the failing one change nothing; to create, there must be none. */
  lemma Atomic(s: State, c: Command)
    requires Consistent(s) && s.depth == 0 && HasRows(c)
    ensures AllOrNothing(s, c) <==>
      var n := FirstFailing(s.committed, c, 0); PrepareFails(c) || n == Size(c) || Redundant(s.committed, c, n)
  {
    var t, n, end := s.committed, FirstFailing(s.committed, c, 0), Apply(s, c).committed;
    CallCommitsPrefix(s, c);
    if !PrepareFails(c) && n < Size(c) {
      hide Apply, Rows;
      hide Holds;
      if c.Delete? {
        DeleteChanges(t, c, n);
      } else if c.Upsert? {
        UpsertChanges(t, c, n, end);
      } else if n > 0 {
        CreateChanges(t, c, n, end);
      }
    }
  }

  /** A call that is not atomic without any fault: two entities with one key. The first is committed, the
      second fails, and the call reports an error. */
  lemma DuplicateKeyCommits(s: State, first: Entity, second: Entity)
    requires Consistent(s) && s.depth == 0 && first.key !in s.committed && second.key == first.key
    ensures var c := Create([first, second], NoFault);
      && FirstFailing(s.committed, c, 0) == 1
      && !Rows(s.working, c).1
      && Apply(s, c).committed == s.committed[first.key := first.value]
      && !AllOrNothing(s, c)
  {
    var es := [first, second];
    var c := Create(es, NoFault);
    assert es[1..] == [second] && es[..0] == [] && es[..1] == [first] && first in es[..1];
    assert KeysOf(es[..0]) == {} && first.key in KeysOf(es[..1]);
    assert !RowFails(s.committed, c, 0) && RowFails(s.committed, c, 1);
    assert InsertRows(s.working, es, NoFault) == InsertRows(s.working[first.key := first.value], es[1..], NoFault);
  }

  // ------------------------------------------------------------ the connection

  /** The SQLite engine behind a connection. */
  class Engine {
    var committed: Table
    var working: Table
    var log: seq<Sql>

    constructor (t: Table)
      ensures committed == working == t && log == []
    {
      committed, working, log := t, t, [];
    }

    /** The engine rejects a BEGIN inside a transaction and an end outside of one; neither is ever sent. */
    method Exec(sql: Sql)
      requires sql == BeginSql <==> !IsOpen(log)
      modifies this
      ensures log == old(log) + [sql]
      ensures committed == if sql == CommitSql then old(working) else old(committed)
      ensures working == if sql == RollbackSql then old(committed) else old(working)
    {
      log := log + [sql];
      match sql {
        case BeginSql =>
        case CommitSql => committed := working;
        case RollbackSql => working := committed;
      }
    }

    /** One executed row statement. */
    method Store(t: Table)
      modifies this`working, this`committed
      ensures working == t && committed == if IsOpen(log) then old(committed) else t
    {
      working := t;
      if !IsOpen(log) {
        committed := t;
      }
    }
  }

  class SyncConnection {
    const db: Engine
    var transactionDepth: int

    constructor (db: Engine)
      ensures this.db == db && transactionDepth == 0
    {
      this.db, transactionDepth := db, 0;
    }

    ghost function S(): State
      reads this, db
    {
      State(transactionDepth, db.committed, db.working, db.log)
    }

    method BeginTransaction() returns (scope: TransactionScope)
      requires Consistent(S())
      modifies this, db
      ensures S() == Begun(old(S())) && Consistent(S())
      ensures fresh(scope) && scope.connection == this
    {
      transactionDepth := transactionDepth + 1;
      if transactionDepth == 1 {
        db.Exec(BeginSql);
      }
      scope := new TransactionScope(this);
    }

    method EndTransaction(sql: Sql) returns (r: Outcome<()>)
      requires Consistent(S()) && sql != BeginSql
      modifies this, db
      ensures Consistent(S())
      ensures r.Throw? <==> old(transactionDepth) <= 0
      ensures r.Throw? ==> r.e == InvalidOperation && S() == old(S())
      ensures r.Ok? ==> S() == Ended(old(S()), sql)
    {
      if transactionDepth <= 0 {
        return Throw(InvalidOperation);
      }
      transactionDepth := transactionDepth - 1;
      if transactionDepth == 0 {
        db.Exec(sql);
      }
      return Ok(());
    }

    /** A transaction command of the user. An end without a begin is an exception. */
    method Transaction(command: Command) returns (r: Outcome<()>)
      requires Consistent(S()) && !IsContainerCall(command)
      modifies this, db
      ensures Consistent(S()) && S() == Apply(old(S()), command)
      ensures r == if command == Begin || old(transactionDepth) > 0 then Ok(()) else Throw(InvalidOperation)
    {
      match command {
        case Begin =>
          var scope := BeginTransaction();
          return Ok(());
        case Commit =>
          var _ :- EndTransaction(CommitSql);
          return Ok(());
        case Rollback =>
          var _ :- EndTransaction(RollbackSql);
          return Ok(());
      }
    }
  }

  /** Ends its transaction once: by EndTransaction, or by Dispose when the scope is left without it. */
  class TransactionScope {
    var connection: SyncConnection?

    constructor (c: SyncConnection)
      ensures connection == c
    {
      connection := c;
    }

    /** Ends the transaction and detaches the scope; a scope detached before is a null reference. */
    method EndTransaction(sql: Sql) returns (r: Outcome<()>)
      requires connection != null ==> Consistent(connection.S())
      requires sql != BeginSql
      modifies this, connection, if connection == null then {} else {connection.db}
      ensures connection == null
      ensures old(connection) == null ==> r == Throw(NullReference)
      ensures old(connection) != null ==>
        && Consistent(old(connection).S())
        && (r.Throw? <==> old(connection != null && connection.transactionDepth <= 0))
        && (r.Throw? ==> r.e == InvalidOperation && old(connection).S() == old(connection.S()))
        && (r.Ok? ==> old(connection).S() == Ended(old(connection.S()), sql))
    {
      var c := connection;
      connection := null;
      if c == null {
        return Throw(NullReference);
      }
      r := c.EndTransaction(sql);
    }

    /** A scope that is still attached but whose level was ended elsewhere throws and stays attached. */
    method Dispose() returns (r: Outcome<()>)
      requires connection != null ==> Consistent(connection.S())
      modifies this, connection, if connection == null then {} else {connection.db}
      ensures r.Throw? <==> old(connection != null && connection.transactionDepth <= 0)
      ensures r.Throw? ==> r.e == InvalidOperation && connection == old(connection)
      ensures r.Throw? ==> connection.S() == old(connection.S())
      ensures r.Ok? ==> connection == null
      ensures r.Ok? && old(connection) != null ==>
        Consistent(old(connection).S()) && old(connection).S() == Ended(old(connection.S()), CommitSql)
    {
      if connection == null {
        return Ok(());
      }
      var _ :- connection.EndTransaction(CommitSql);
      connection := null;
      return Ok(());
    }
  }

  // ------------------------------------------------------------ container calls

  /** Inserts or upserts the entities row by row inside a transaction. */
  method AppendValues(c: SyncConnection, entities: seq<Entity>, fault: Fault, upsert: bool) returns (ok: bool)
    requires Consistent(c.S()) && c.transactionDepth > 0
    modifies c.db`working, c.db`committed
    ensures var rows := if upsert then UpsertRows(old(c.db.working), entities, fault)
      else InsertRows(old(c.db.working), entities, fault);
      ok == rows.1 && c.S() == Update(old(c.S()), rows.0) && Consistent(c.S())
  {
    var n, left := 0, fault;
    assert entities[0..] == entities;
    while n < |entities|
      invariant 0 <= n <= |entities| && c.S() == Update(old(c.S()), c.db.working)
      invariant upsert ==>
        UpsertRows(c.db.working, entities[n..], left) == UpsertRows(old(c.db.working), entities, fault)
      invariant !upsert ==>
        InsertRows(c.db.working, entities[n..], left) == InsertRows(old(c.db.working), entities, fault)
    {
      var e := entities[n];
      assert entities[n..][0] == e && entities[n..][1..] == entities[n + 1..];
      if left == AtRow(0) || (!upsert && e.key in c.db.working) {
        return false;
      }
      c.db.Store(c.db.working[e.key := e.value]);
      n, left := n + 1, NextRow(left);
    }
    assert entities[n..] == [];
    return true;
  }

  /** Deletes the keys row by row inside a transaction. */
  method AppendKeys(c: SyncConnection, keys: seq<string>, fault: Fault) returns (ok: bool)
    requires Consistent(c.S()) && c.transactionDepth > 0
    modifies c.db`working, c.db`committed
    ensures var rows := DeleteRows(old(c.db.working), keys, fault);
      ok == rows.1 && c.S() == Update(old(c.S()), rows.0) && Consistent(c.S())
  {
    var n, left := 0, fault;
    assert keys[0..] == keys;
    while n < |keys|
      invariant 0 <= n <= |keys| && c.S() == Update(old(c.S()), c.db.working)
      invariant DeleteRows(c.db.working, keys[n..], left) == DeleteRows(old(c.db.working), keys, fault)
    {
      assert keys[n..][0] == keys[n] && keys[n..][1..] == keys[n + 1..];
      if left == AtRow(0) {
        return false;
      }
      c.db.Store(c.db.working - {keys[n]});
      n, left := n + 1, NextRow(left);
    }
    assert keys[n..] == [];
    return true;
  }

  /** What every container call promises on every return path. */
  ghost predicate Called(before: State, command: Command, ok: bool, after: State)
    requires IsContainerCall(command)
  {
    after == Apply(before, command) && ok == Rows(before.working, command).1 && Consistent(after)
  }

  method CreateEntities(c: SyncConnection, entities: seq<Entity>, fault: Fault) returns (ok: bool)
    requires Consistent(c.S())
    modifies c, c.db
    ensures Called(old(c.S()), Create(entities, fault), ok, c.S())
  {
    var scope := c.BeginTransaction();
    var r: Outcome<()>;
    if fault == AtPrepare {
      r := scope.Dispose();
      return false;
    }
    ok := AppendValues(c, entities, fault, false);
    if !ok {
      r := scope.Dispose();
      return false;
    }
    r := scope.EndTransaction(CommitSql);
    r := scope.Dispose();
  }

  method UpsertEntities(c: SyncConnection, entities: seq<Entity>, fault: Fault) returns (ok: bool)
    requires Consistent(c.S())
    modifies c, c.db
    ensures Called(old(c.S()), Upsert(entities, fault), ok, c.S())
  {
    if |entities| == 0 {
      return true;
    }
    var scope := c.BeginTransaction();
    var r: Outcome<()>;
    if fault == AtPrepare {
      r := scope.Dispose();
      return false;
    }
    ok := AppendValues(c, entities, fault, true);
    if !ok {
      r := scope.Dispose();
      return false;
    }
    r := scope.EndTransaction(CommitSql);
    r := scope.Dispose();
  }

  method DeleteEntities(c: SyncConnection, all: bool, keys: seq<string>, fault: Fault) returns (ok: bool)
    requires Consistent(c.S())
    modifies c, c.db
    ensures Called(old(c.S()), if all then DeleteAll(fault) else Delete(keys, fault), ok, c.S())
  {
    if all {
      if fault != NoFault {
        return false;
      }
      c.db.Store(map[]);
      return true;
    }
    var scope := c.BeginTransaction();
    var r: Outcome<()>;
    if fault == AtPrepare {
      r := scope.Dispose();
      return false;
    }
    ok := AppendKeys(c, keys, fault);
    if !ok {
      r := scope.Dispose();
      return false;
    }
    r := scope.EndTransaction(CommitSql);
    r := scope.Dispose();
  }
}
