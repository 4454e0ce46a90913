/** The two cursor paginators of the backfill engine: `paginate` over a table
    keyed by one integer and `paginate_relation` over a join table keyed by a
    pair. A getter is modelled over an in-memory table; what happens to a page
    (conversion, serialization, `create_many`) is a `Sink`. */
module Pagination {
  import opened Wrappers
  import opened SyncModel

  /** A row as a getter returns it: its local key (`id`, or the pair
      `(group id, item id)` of a join table), the local key of its owning
      device, and its other columns with the joined related rows. */
  datatype Row<K, T> = Row(key: K, deviceId: Option<int>, data: T)

  type KeyedRow<T> = Row<int, T>

  type RelationRow<T> = Row<(int, int), T>

  /** Which of a table's queries and `create_many` writes fail, by the number
      of the getter call (0 for the first). */
  datatype IoFaults = IoFaults(readFails: nat -> bool, writeFails: nat -> bool)

  /** What is done with a page: each row's operation, the rows
      `crdt_op_unchecked_db` can serialize, and the faults of the store. */
  datatype Sink<!R> = Sink(convert: R -> CrdtOperation, encodable: CrdtOperation -> bool, faults: IoFaults)

  /** One turn of a pagination loop: the cursor the getter was called with, and
      the number of rows `create_many` was called with (`None`: not called). */
  datatype PageAttempt<C> = PageAttempt(cursor: C, created: Option<nat>)

  /** The result of a pagination (the operation table afterwards, or the
      error) and its turns, in order. */
  datatype Outcome<C> = Outcome(result: Result<seq<CrdtOperation>, Error>, trace: seq<PageAttempt<C>>)

  ghost predicate Reliable(f: IoFaults) {
    forall n: nat :: !f.readFails(n) && !f.writeFails(n)
  }

  ghost predicate AllEncodable(encodable: CrdtOperation -> bool) {
    forall op :: encodable(op)
  }

  // ---------------------------------------------------------------- getters

  predicate InScope<K, T>(x: Row<K, T>, scope: Option<int>) {
    scope.None? || x.deviceId == scope
  }

  /** The `device_id::equals(Some(device_id))` condition of a getter, or no
      condition when `scope` is `None`. */
  function Scoped<K, T>(rows: seq<Row<K, T>>, scope: Option<int>): (r: seq<Row<K, T>>)
    ensures |r| <= |rows|
    ensures forall i :: 0 <= i < |r| ==> InScope(r[i], scope)
  {
    if rows == [] then []
    else (if InScope(rows[0], scope) then [rows[0]] else []) + Scoped(rows[1..], scope)
  }

  /** `id::gt(cursor)`. */
  function Above<T>(rows: seq<KeyedRow<T>>, cursor: int): (r: seq<KeyedRow<T>>)
    ensures |r| <= |rows|
    ensures forall i :: 0 <= i < |r| ==> r[i].key > cursor
  {
    if rows == [] then []
    else (if rows[0].key > cursor then [rows[0]] else []) + Above(rows[1..], cursor)
  }

  /** `.take(n)`, for the getters that carry one. */
  function Limit<R>(rows: seq<R>, take: Option<nat>): seq<R> {
    if take.Some? && take.value < |rows| then rows[..take.value] else rows
  }

  /** A table's getter: the table in ascending key order (the `order_by`),
      the device it is scoped to, if any, and its `take`, if any. */
  datatype Getter<T> = Getter(table: seq<KeyedRow<T>>, scope: Option<int>, take: Option<nat>)

  /** `getter(cursor)`: the rows in scope whose key is above the cursor, at most `take` of them. */
  function Fetch<T>(g: Getter<T>, cursor: int): (page: seq<KeyedRow<T>>)
    ensures forall i :: 0 <= i < |page| ==> page[i].key > cursor
    ensures g.take.Some? ==> |page| <= g.take.value
  {
    var a := Above(Scoped(g.table, g.scope), cursor);
    assert forall i :: 0 <= i < |Limit(a, g.take)| ==> Limit(a, g.take)[i] == a[i];
    Limit(a, g.take)
  }

  function LastKey<K, T>(page: seq<Row<K, T>>): K
    requires page != []
  {
    page[|page| - 1].key
  }

  ghost predicate Ascending<T>(rows: seq<KeyedRow<T>>) {
    forall i, j :: 0 <= i < j < |rows| ==> rows[i].key < rows[j].key
  }

  // ---------------------------------------------------------------- pages

  /** One operation per row, in row order. */
  function Ops<R>(rows: seq<R>, convert: R -> CrdtOperation): (ops: seq<CrdtOperation>)
    ensures |ops| == |rows|
    ensures forall i :: 0 <= i < |rows| ==> ops[i] == convert(rows[i])
  {
    if rows == [] then [] else [convert(rows[0])] + Ops(rows[1..], convert)
  }

  lemma {:induction false} OpsAppend<R>(a: seq<R>, b: seq<R>, convert: R -> CrdtOperation)
    ensures Ops(a + b, convert) == Ops(a, convert) + Ops(b, convert)
  {
    if a == [] {
      assert a + b == b;
    } else {
      assert (a + b)[1..] == a[1..] + b;
      OpsAppend(a[1..], b, convert);
    }
  }

  lemma AppendAssoc<X>(a: seq<X>, b: seq<X>, c: seq<X>)
    ensures (a + b) + c == a + (b + c)
  {
  }

  lemma PrefixTrans<X>(a: seq<X>, b: seq<X>, c: seq<X>)
    requires a <= b && b <= c
    ensures a <= c
  {
    assert a == c[..|b|][..|a|];
  }

  lemma PrefixOfAppend<X>(a: seq<X>, b: seq<X>)
    ensures a <= a + b
  {
    assert (a + b)[..|a|] == a;
  }

  lemma OpsSplit<R>(rows: seq<R>, m: nat, convert: R -> CrdtOperation)
    requires m <= |rows|
    ensures Ops(rows, convert) == Ops(rows[..m], convert) + Ops(rows[m..], convert)
  {
    assert rows == rows[..m] + rows[m..];
    OpsAppend(rows[..m], rows[m..], convert);
  }

  /** The `operations` closure up to `create_many`: every row converted and
      passed through `crdt_op_unchecked_db`, collected into one `Result`, so
      one row that cannot be serialized fails the whole page. */
  function EncodePage<R>(page: seq<R>, convert: R -> CrdtOperation, encodable: CrdtOperation -> bool)
    : (r: Result<seq<CrdtOperation>, Error>)
    ensures r.Ok? <==> forall i :: 0 <= i < |page| ==> encodable(convert(page[i]))
    ensures r.Ok? ==> r.value == Ops(page, convert)
    ensures r.Err? ==> r.error == Serialization
  {
    if page == [] then Ok([])
    else
      var head := CrdtOpUncheckedDb(convert(page[0]), encodable);
      var tail := EncodePage(page[1..], convert, encodable);
      if head.Err? then head.PropagateFailure()
      else if tail.Err? then
        assert exists i :: 0 <= i < |page[1..]| && !encodable(convert(page[1..][i]));
        tail
      else
        assert forall i :: 0 < i < |page| ==> page[i] == page[1..][i - 1];
        assert [head.value] + tail.value == Ops(page, convert);
        Ok([head.value] + tail.value)
  }

  // ---------------------------------------------------------------- paginate

  /** Pagination from `cursor` on, after the turns `trace`, with the
      operation table `log`: the loop of `paginate`, one turn per call. */
  ghost function Run<T>(g: Getter<T>, sink: Sink<KeyedRow<T>>, cursor: int, log: seq<CrdtOperation>,
                        trace: seq<PageAttempt<int>>): Outcome<int>
    decreases |Above(Scoped(g.table, g.scope), cursor)|
  {
    var n := |trace|;
    if sink.faults.readFails(n) then Outcome(Err(Database), trace + [PageAttempt(cursor, None)])
    else
      var items := Fetch(g, cursor);
      match EncodePage(items, sink.convert, sink.encodable)
      case Err(e) => Outcome(Err(e), trace + [PageAttempt(cursor, None)])
      case Ok(creates) =>
        var trace' := trace + [PageAttempt(cursor, Some(|creates|))];
        if sink.faults.writeFails(n) then Outcome(Err(Database), trace')
        else if items == [] then Outcome(Ok(log + creates), trace')
        else
          FetchAdvances(g, cursor);
          Run(g, sink, LastKey(items), log + creates, trace')
  }

  /** `paginate(getter, id, operations)`: starting from cursor -1, fetch a
      page, remember its last key as the next cursor, write the page, and stop
      after an empty page or at the first error. */
  method Paginate<T>(g: Getter<T>, sink: Sink<KeyedRow<T>>, log: seq<CrdtOperation>)
    returns (r: Result<seq<CrdtOperation>, Error>, trace: seq<PageAttempt<int>>)
    ensures Outcome(r, trace) == Run(g, sink, -1, log, [])
  {
    var nextCursor: Option<int> := Some(-1);
    var ops := log;
    trace := [];
    while nextCursor.Some?
      invariant nextCursor.Some? ==> Run(g, sink, nextCursor.value, ops, trace) == Run(g, sink, -1, log, [])
      invariant nextCursor.None? ==> Outcome(Ok(ops), trace) == Run(g, sink, -1, log, [])
      decreases if nextCursor.Some? then 1 + |Above(Scoped(g.table, g.scope), nextCursor.value)| else 0
    {
      var cursor := nextCursor.value;
      var n := |trace|;
      if sink.faults.readFails(n) {
        return Err(Database), trace + [PageAttempt(cursor, None)];
      }
      var items := Fetch(g, cursor);
      nextCursor := if items == [] then None else Some(LastKey(items));
      var creates := EncodePage(items, sink.convert, sink.encodable);
      if creates.Err? {
        return Err(creates.error), trace + [PageAttempt(cursor, None)];
      }
      trace := trace + [PageAttempt(cursor, Some(|creates.value|))];
      if sink.faults.writeFails(n) {
        return Err(Database), trace;
      }
      ops := ops + creates.value;
      if items != [] {
        FetchAdvances(g, cursor);
      }
    }
    r := Ok(ops);
  }

  // ---------------------------------------------------------------- termination

  lemma {:induction false} AboveIndexShrinks<T>(a: seq<KeyedRow<T>>, m: nat)
    requires m < |a|
    ensures |Above(a, a[m].key)| < |a|
  {
    if m > 0 {
      assert a[1..][m - 1] == a[m];
      AboveIndexShrinks(a[1..], m - 1);
    }
  }

  /** Filtering twice by key is filtering once by the larger cursor. */
  lemma {:induction false} AboveAbove<T>(s: seq<KeyedRow<T>>, c: int, d: int)
    requires c <= d
    ensures Above(Above(s, c), d) == Above(s, d)
  {
    if s != [] {
      AboveAbove(s[1..], c, d);
      var a := Above(s, c);
      if s[0].key > c {
        assert a == [s[0]] + Above(s[1..], c);
        assert a[1..] == Above(s[1..], c);
        assert Above(a, d) == (if s[0].key > d then [s[0]] else []) + Above(a[1..], d);
      } else {
        assert a == Above(s[1..], c);
        assert Above(s, d) == Above(s[1..], d);
      }
    }
  }

  /** A page is the first `take` rows in scope above the cursor, or all of them. */
  lemma FetchShape<T>(g: Getter<T>, cursor: int)
    ensures var a := Above(Scoped(g.table, g.scope), cursor);
            var page := Fetch(g, cursor);
            && |page| == (if g.take.Some? && g.take.value < |a| then g.take.value else |a|)
            && page == a[..|page|]
  {
  }

  /** A non-empty page moves the cursor forward: fewer rows are left above the new cursor. */
  lemma FetchAdvances<T>(g: Getter<T>, cursor: int)
    requires Fetch(g, cursor) != []
    ensures |Above(Scoped(g.table, g.scope), LastKey(Fetch(g, cursor)))| < |Above(Scoped(g.table, g.scope), cursor)|
  {
    var s := Scoped(g.table, g.scope);
    var a := Above(s, cursor);
    var page := Fetch(g, cursor);
    FetchShape(g, cursor);
    var last := a[|page| - 1];
    assert LastKey(page) == last.key;
    AboveAbove(s, cursor, last.key);
    AboveIndexShrinks(a, |page| - 1);
  }

  // ---------------------------------------------------------------- ordering

  ghost predicate KeysAbove<T>(rows: seq<KeyedRow<T>>, k: int) {
    forall i :: 0 <= i < |rows| ==> rows[i].key > k
  }

  lemma ConsAscending<T>(x: KeyedRow<T>, t: seq<KeyedRow<T>>)
    requires Ascending(t) && KeysAbove(t, x.key)
    ensures Ascending([x] + t)
  {
    var s := [x] + t;
    forall i, j | 0 <= i < j < |s| ensures s[i].key < s[j].key {
      assert s[j] == t[j - 1];
      if i > 0 {
        assert s[i] == t[i - 1];
      }
    }
  }

  /** A property of every row holds of every row in scope. */
  lemma {:induction false} ScopedKeeps<K, T>(rows: seq<Row<K, T>>, scope: Option<int>, p: Row<K, T> -> bool)
    requires forall i :: 0 <= i < |rows| ==> p(rows[i])
    ensures forall i :: 0 <= i < |Scoped(rows, scope)| ==> p(Scoped(rows, scope)[i])
  {
    if rows != [] {
      assert forall i :: 0 <= i < |rows[1..]| ==> rows[1..][i] == rows[i + 1];
      ScopedKeeps(rows[1..], scope, p);
      var t := Scoped(rows[1..], scope);
      if InScope(rows[0], scope) {
        assert forall i :: 0 < i < |[rows[0]] + t| ==> ([rows[0]] + t)[i] == t[i - 1];
      }
    }
  }

  /** The device condition keeps exactly the rows in scope: every row kept
      comes from the table, and every row of the table in scope is kept. */
  lemma {:induction false} ScopedExactly<K, T>(rows: seq<Row<K, T>>, scope: Option<int>)
    ensures forall i :: 0 <= i < |Scoped(rows, scope)| ==> Scoped(rows, scope)[i] in rows
    ensures forall i :: 0 <= i < |rows| && InScope(rows[i], scope) ==> rows[i] in Scoped(rows, scope)
  {
    if rows != [] {
      ScopedExactly(rows[1..], scope);
      assert forall i :: 0 < i < |rows| ==> rows[i] == rows[1..][i - 1];
      var t := Scoped(rows[1..], scope);
      if InScope(rows[0], scope) {
        assert forall i :: 0 < i < |[rows[0]] + t| ==> ([rows[0]] + t)[i] == t[i - 1];
      }
    }
  }

  /** `id > cursor` keeps exactly the rows above the cursor. */
  lemma {:induction false} AboveExactly<T>(rows: seq<KeyedRow<T>>, cursor: int)
    ensures forall i :: 0 <= i < |Above(rows, cursor)| ==> Above(rows, cursor)[i] in rows
    ensures forall i :: 0 <= i < |rows| && rows[i].key > cursor ==> rows[i] in Above(rows, cursor)
  {
    if rows != [] {
      AboveExactly(rows[1..], cursor);
      assert forall i :: 0 < i < |rows| ==> rows[i] == rows[1..][i - 1];
      var t := Above(rows[1..], cursor);
      if rows[0].key > cursor {
        assert forall i :: 0 < i < |[rows[0]] + t| ==> ([rows[0]] + t)[i] == t[i - 1];
      }
    }
  }

  /** The componentwise join-table filter keeps exactly the rows with both ids above the cursor's. */
  lemma {:induction false} AboveBothExactly<T>(rows: seq<RelationRow<T>>, cursor: (int, int))
    ensures forall i :: 0 <= i < |AboveBoth(rows, cursor)| ==> AboveBoth(rows, cursor)[i] in rows
    ensures forall i :: 0 <= i < |rows| && rows[i].key.0 > cursor.0 && rows[i].key.1 > cursor.1
              ==> rows[i] in AboveBoth(rows, cursor)
  {
    if rows != [] {
      AboveBothExactly(rows[1..], cursor);
      assert forall i :: 0 < i < |rows| ==> rows[i] == rows[1..][i - 1];
      var t := AboveBoth(rows[1..], cursor);
      if rows[0].key.0 > cursor.0 && rows[0].key.1 > cursor.1 {
        assert forall i :: 0 < i < |[rows[0]] + t| ==> ([rows[0]] + t)[i] == t[i - 1];
      }
    }
  }

  /** A join-table getter call returns exactly the rows of the table that
      are in scope and have both ids above the cursor's. */
  lemma FetchRelationExactly<T>(g: RelationGetter<T>, cursor: (int, int))
    ensures forall i :: 0 <= i < |FetchRelation(g, cursor)| ==>
              FetchRelation(g, cursor)[i] in g.table && InScope(FetchRelation(g, cursor)[i], g.scope)
    ensures forall i :: 0 <= i < |g.table| && InScope(g.table[i], g.scope)
                        && g.table[i].key.0 > cursor.0 && g.table[i].key.1 > cursor.1
              ==> g.table[i] in FetchRelation(g, cursor)
  {
    var s := Scoped(g.table, g.scope);
    ScopedExactly(g.table, g.scope);
    AboveBothExactly(s, cursor);
    AboveBothKeeps(s, cursor, (x: RelationRow<T>) => x in g.table && InScope(x, g.scope));
    forall i | 0 <= i < |g.table| && InScope(g.table[i], g.scope) && g.table[i].key.0 > cursor.0 && g.table[i].key.1 > cursor.1
      ensures g.table[i] in FetchRelation(g, cursor)
    {
      var j :| 0 <= j < |s| && s[j] == g.table[i];
    }
  }

  /** A property of every row holds of every row above the cursor. */
  lemma {:induction false} AboveKeeps<T>(rows: seq<KeyedRow<T>>, c: int, p: KeyedRow<T> -> bool)
    requires forall i :: 0 <= i < |rows| ==> p(rows[i])
    ensures forall i :: 0 <= i < |Above(rows, c)| ==> p(Above(rows, c)[i])
  {
    if rows != [] {
      assert forall i :: 0 <= i < |rows[1..]| ==> rows[1..][i] == rows[i + 1];
      AboveKeeps(rows[1..], c, p);
      var t := Above(rows[1..], c);
      if rows[0].key > c {
        assert forall i :: 0 < i < |[rows[0]] + t| ==> ([rows[0]] + t)[i] == t[i - 1];
      }
    }
  }

  /** A property of every row holds of every row whose ids are both above the cursor's. */
  lemma {:induction false} AboveBothKeeps<T>(rows: seq<RelationRow<T>>, c: (int, int), p: RelationRow<T> -> bool)
    requires forall i :: 0 <= i < |rows| ==> p(rows[i])
    ensures forall i :: 0 <= i < |AboveBoth(rows, c)| ==> p(AboveBoth(rows, c)[i])
  {
    if rows != [] {
      assert forall i :: 0 <= i < |rows[1..]| ==> rows[1..][i] == rows[i + 1];
      AboveBothKeeps(rows[1..], c, p);
      var t := AboveBoth(rows[1..], c);
      if rows[0].key.0 > c.0 && rows[0].key.1 > c.1 {
        assert forall i :: 0 < i < |[rows[0]] + t| ==> ([rows[0]] + t)[i] == t[i - 1];
      }
    }
  }

  /** Whatever the cursor, a getter returns only rows of its device. */
  lemma FetchInScope<T>(g: Getter<T>)
    ensures forall c, i :: 0 <= i < |Fetch(g, c)| ==> InScope(Fetch(g, c)[i], g.scope)
  {
    forall c: int ensures forall i :: 0 <= i < |Fetch(g, c)| ==> InScope(Fetch(g, c)[i], g.scope) {
      var a := Above(Scoped(g.table, g.scope), c);
      AboveKeeps(Scoped(g.table, g.scope), c, (x: KeyedRow<T>) => InScope(x, g.scope));
      assert forall i :: 0 <= i < |Limit(a, g.take)| ==> Limit(a, g.take)[i] == a[i];
    }
  }

  /** Whatever the cursor, a join-table getter returns only rows of its device. */
  lemma FetchRelationInScope<T>(g: RelationGetter<T>)
    ensures forall c, i :: 0 <= i < |FetchRelation(g, c)| ==> InScope(FetchRelation(g, c)[i], g.scope)
  {
    forall c: (int, int) ensures forall i :: 0 <= i < |FetchRelation(g, c)| ==> InScope(FetchRelation(g, c)[i], g.scope) {
      AboveBothKeeps(Scoped(g.table, g.scope), c, (x: RelationRow<T>) => InScope(x, g.scope));
    }
  }

  lemma {:induction false} AboveKeysAbove<T>(rows: seq<KeyedRow<T>>, c: int, k: int)
    requires KeysAbove(rows, k)
    ensures KeysAbove(Above(rows, c), k)
  {
    if rows != [] {
      assert KeysAbove(rows[1..], k) by {
        assert forall i :: 0 <= i < |rows[1..]| ==> rows[1..][i] == rows[i + 1];
      }
      AboveKeysAbove(rows[1..], c, k);
    }
  }

  lemma TailKeysAbove<T>(rows: seq<KeyedRow<T>>)
    requires Ascending(rows) && rows != []
    ensures Ascending(rows[1..]) && KeysAbove(rows[1..], rows[0].key)
  {
    assert forall i :: 0 <= i < |rows[1..]| ==> rows[1..][i] == rows[i + 1];
  }

  lemma {:induction false} ScopedAscending<T>(rows: seq<KeyedRow<T>>, scope: Option<int>)
    requires Ascending(rows)
    ensures Ascending(Scoped(rows, scope))
  {
    if rows != [] {
      TailKeysAbove(rows);
      ScopedAscending(rows[1..], scope);
      ScopedKeeps(rows[1..], scope, (x: KeyedRow<T>) => x.key > rows[0].key);
      if InScope(rows[0], scope) {
        ConsAscending(rows[0], Scoped(rows[1..], scope));
      }
    }
  }

  lemma {:induction false} AboveAscending<T>(rows: seq<KeyedRow<T>>, c: int)
    requires Ascending(rows)
    ensures Ascending(Above(rows, c))
  {
    if rows != [] {
      TailKeysAbove(rows);
      AboveAscending(rows[1..], c);
      AboveKeysAbove(rows[1..], c, rows[0].key);
      if rows[0].key > c {
        ConsAscending(rows[0], Above(rows[1..], c));
      }
    }
  }

  lemma {:induction false} AboveAll<T>(a: seq<KeyedRow<T>>, c: int)
    requires KeysAbove(a, c)
    ensures Above(a, c) == a
  {
    if a != [] {
      assert KeysAbove(a[1..], c) by {
        assert forall i :: 0 <= i < |a[1..]| ==> a[1..][i] == a[i + 1];
      }
      AboveAll(a[1..], c);
      assert a == [a[0]] + a[1..];
    }
  }

  /** In an ascending sequence, the rows above the key of element m - 1 are those after it. */
  lemma {:induction false} AboveAtIndex<T>(a: seq<KeyedRow<T>>, m: nat)
    requires Ascending(a) && 0 < m <= |a|
    ensures Above(a, a[m - 1].key) == a[m..]
  {
    TailKeysAbove(a);
    if m == 1 {
      AboveAll(a[1..], a[0].key);
    } else {
      AboveAtIndex(a[1..], m - 1);
      assert a[1..][m - 2] == a[m - 1];
      assert a[1..][m - 1..] == a[m..];
      assert KeysAbove(a[1..], a[0].key);
      assert a[0].key < a[m - 1].key;
    }
  }

  /** The cursor is the key of the last row handed over: on an ascending
      table the rows above it are exactly the rows after the page. */
  lemma CursorSkipsPage<T>(g: Getter<T>, cursor: int)
    requires Ascending(g.table) && Fetch(g, cursor) != []
    ensures var a := Above(Scoped(g.table, g.scope), cursor);
            var page := Fetch(g, cursor);
            && page == a[..|page|]
            && Above(Scoped(g.table, g.scope), LastKey(page)) == a[|page|..]
  {
    var s := Scoped(g.table, g.scope);
    var a := Above(s, cursor);
    var page := Fetch(g, cursor);
    ScopedAscending(g.table, g.scope);
    AboveAscending(s, cursor);
    FetchShape(g, cursor);
    var last := a[|page| - 1];
    assert LastKey(page) == last.key;
    AboveAbove(s, cursor, last.key);
    AboveAtIndex(a, |page|);
  }

  /** On an ascending table, a page takes exactly its own rows off what is left. */
  lemma PageLeavesRest<T>(g: Getter<T>, cursor: int)
    requires Ascending(g.table) && Fetch(g, cursor) != []
    ensures |Above(Scoped(g.table, g.scope), LastKey(Fetch(g, cursor)))|
            == |Above(Scoped(g.table, g.scope), cursor)| - |Fetch(g, cursor)|
  {
    CursorSkipsPage(g, cursor);
  }

  // ---------------------------------------------------------------- page count

  /** The number of getter calls for `rows` rows: one per page with rows
      (`ceil(rows / take)` of them), then the empty page that ends the loop. */
  function PageCount(rows: nat, take: Option<nat>): nat
    requires take != Some(0)
    decreases rows
  {
    if rows == 0 then 1
    else if take.Some? && take.value < rows then 1 + PageCount(rows - take.value, take)
    else 2
  }

  /** The 2,500-row example with pages of 1,000: three pages with rows and the
      final empty one, so four getter calls; without `take`, two. */
  lemma PageCountExample()
    ensures PageCount(2500, Some(1000)) == 4
    ensures PageCount(2500, None) == 2
  {
    assert PageCount(500, Some(1000)) == 2;
    assert PageCount(1500, Some(1000)) == 3;
  }

  /** The page count in closed form: `ceil(rows / take)` pages with rows, then the empty one. */
  lemma {:induction false} PageCountClosed(rows: nat, take: nat)
    requires take > 0
    ensures PageCount(rows, Some(take)) == (rows + take - 1) / take + 1
    decreases rows
  {
    if rows == 0 {
      DivUnique(take - 1, take, 0, take - 1);
    } else if take < rows {
      PageCountClosed(rows - take, take);
      DivStep(rows - 1, take);
    } else {
      DivUnique(rows + take - 1, take, 1, rows - 1);
    }
  }

  /** Without `take`: one call for an empty scope, otherwise the full page and the empty one. */
  lemma PageCountUnlimited(rows: nat)
    ensures PageCount(rows, None) == if rows == 0 then 1 else 2
  {
  }

  lemma DivUnique(a: int, k: int, q: int, r: int)
    requires k > 0 && 0 <= r < k && a == q * k + r
    ensures a / k == q
  {
    var q', r' := a / k, a % k;
    assert a == q' * k + r';
    if q > q' {
      MulDiff(q, q', k);
      MulAtLeast(q - q', k);
    } else if q < q' {
      MulDiff(q', q, k);
      MulAtLeast(q' - q, k);
    }
  }

  lemma MulDiff(x: int, y: int, k: int)
    ensures (x - y) * k == x * k - y * k
  {
  }

  lemma {:induction false} MulAtLeast(d: int, k: int)
    requires d >= 1 && k > 0
    ensures d * k >= k
    decreases d
  {
    if d > 1 {
      MulAtLeast(d - 1, k);
      MulDiff(d, 1, k);
    }
  }

  lemma DivStep(m: nat, k: nat)
    requires k > 0
    ensures (m + k) / k == m / k + 1
  {
    var q, r := m / k, m % k;
    assert m == q * k + r;
    assert m + k == (q + 1) * k + r;
    DivUnique(m + k, k, q + 1, r);
  }

  /** A turn that goes through on a non-empty page hands over to the next
      turn, from the page's last key, with the page's operations added. */
  lemma RunStep<T>(g: Getter<T>, sink: Sink<KeyedRow<T>>, cursor: int,
                   log: seq<CrdtOperation>, trace: seq<PageAttempt<int>>)
    requires !sink.faults.readFails(|trace|) && !sink.faults.writeFails(|trace|)
    requires EncodePage(Fetch(g, cursor), sink.convert, sink.encodable).Ok? && Fetch(g, cursor) != []
    ensures var items := Fetch(g, cursor);
            && |Above(Scoped(g.table, g.scope), LastKey(items))| < |Above(Scoped(g.table, g.scope), cursor)|
            && Run(g, sink, cursor, log, trace)
               == Run(g, sink, LastKey(items), log + Ops(items, sink.convert),
                      trace + [PageAttempt(cursor, Some(|items|))])
  {
    FetchAdvances(g, cursor);
  }

  lemma PageCountStep(rest: nat, page: nat, take: Option<nat>)
    requires take != Some(0) && 0 < rest
    requires page == (if take.Some? && take.value < rest then take.value else rest)
    ensures PageCount(rest, take) == 1 + PageCount(rest - page, take)
  {
  }

  // ---------------------------------------------------------------- completeness

  /** Whenever pagination over an ascending table succeeds, it has handed
      every row in scope above the cursor to `operations` exactly once, in
      ascending key order. */
  lemma {:induction false} RunCollectsAll<T>(g: Getter<T>, sink: Sink<KeyedRow<T>>, cursor: int,
                                              log: seq<CrdtOperation>, trace: seq<PageAttempt<int>>)
    requires Ascending(g.table) && g.take != Some(0)
    ensures var r := Run(g, sink, cursor, log, trace).result;
            r.Ok? ==> r.value == log + Ops(Above(Scoped(g.table, g.scope), cursor), sink.convert)
    decreases |Above(Scoped(g.table, g.scope), cursor)|
  {
    var n := |trace|;
    var items := Fetch(g, cursor);
    if sink.faults.readFails(n) || EncodePage(items, sink.convert, sink.encodable).Err?
       || sink.faults.writeFails(n) || items == [] {
      LastTurn(g, sink, cursor, log, trace);
      FetchShape(g, cursor);
    } else {
      var rest := Above(Scoped(g.table, g.scope), cursor);
      RunStep(g, sink, cursor, log, trace);
      CursorSkipsPage(g, cursor);
      var log' := log + Ops(items, sink.convert);
      RunCollectsAll(g, sink, LastKey(items), log', trace + [PageAttempt(cursor, Some(|items|))]);
      OpsSplit(rest, |items|, sink.convert);
      AppendAssoc(log, Ops(items, sink.convert), Ops(rest[|items|..], sink.convert));
    }
  }

  /** With no store fault and every operation serializable, pagination over
      an ascending table makes `PageCount` getter calls. */
  lemma {:induction false} RunPageCount<T>(g: Getter<T>, sink: Sink<KeyedRow<T>>, cursor: int,
                                            log: seq<CrdtOperation>, trace: seq<PageAttempt<int>>)
    requires Ascending(g.table) && g.take != Some(0)
    requires Reliable(sink.faults) && AllEncodable(sink.encodable)
    ensures var out := Run(g, sink, cursor, log, trace);
            |out.trace| == |trace| + PageCount(|Above(Scoped(g.table, g.scope), cursor)|, g.take)
    decreases |Above(Scoped(g.table, g.scope), cursor)|
  {
    var items := Fetch(g, cursor);
    assert !sink.faults.readFails(|trace|) && !sink.faults.writeFails(|trace|);
    assert EncodePage(items, sink.convert, sink.encodable).Ok?;
    if items == [] {
      LastTurn(g, sink, cursor, log, trace);
      FetchShape(g, cursor);
    } else {
      var rest := Above(Scoped(g.table, g.scope), cursor);
      RunStep(g, sink, cursor, log, trace);
      PageLeavesRest(g, cursor);
      RunPageCount(g, sink, LastKey(items), log + Ops(items, sink.convert), trace + [PageAttempt(cursor, Some(|items|))]);
      FetchShape(g, cursor);
      PageCountStep(|rest|, |items|, g.take);
    }
  }

  /** The main case, from cursor -1 over keys that are never negative
      (database ids), with no store fault and every operation serializable:
      the pagination succeeds, hands every row in scope over once and in
      order, makes `PageCount` getter calls and ends on an empty page written
      as an empty batch. */
  lemma PaginateComplete<T>(g: Getter<T>, sink: Sink<KeyedRow<T>>, log: seq<CrdtOperation>)
    requires Ascending(g.table) && g.take != Some(0) && KeysAbove(g.table, -1)
    requires Reliable(sink.faults) && AllEncodable(sink.encodable)
    ensures var out := Run(g, sink, -1, log, []);
            var rows := Scoped(g.table, g.scope);
            && out.result == Ok(log + Ops(rows, sink.convert))
            && |out.trace| == PageCount(|rows|, g.take)
            && out.trace[|out.trace| - 1].created == Some(0)
  {
    var out := Run(g, sink, -1, log, []);
    ScopedKeeps(g.table, g.scope, (x: KeyedRow<T>) => x.key > -1);
    AboveAll(Scoped(g.table, g.scope), -1);
    PaginateTurns(g, sink, log);
    assert Succeeded(g, sink, |out.trace| - 1, out.trace[|out.trace| - 1]);
    RunCollectsAll(g, sink, -1, log, []);
    RunPageCount(g, sink, -1, log, []);
  }

  /** From cursor -1 over keys that are never negative: whenever the
      pagination succeeds, it has handed over every row in scope, in order. */
  lemma PaginateCollects<T>(g: Getter<T>, sink: Sink<KeyedRow<T>>, log: seq<CrdtOperation>)
    requires Ascending(g.table) && g.take != Some(0) && KeysAbove(g.table, -1)
    ensures var r := Run(g, sink, -1, log, []).result;
            r.Ok? ==> r.value == log + Ops(Scoped(g.table, g.scope), sink.convert)
  {
    ScopedKeeps(g.table, g.scope, (x: KeyedRow<T>) => x.key > -1);
    AboveAll(Scoped(g.table, g.scope), -1);
    RunCollectsAll(g, sink, -1, log, []);
  }

  // ---------------------------------------------------------------- turns

  /** Turn `j` went through: its query and its `create_many` succeeded and
      every row of its page could be serialized. */
  ghost predicate Succeeded<T>(g: Getter<T>, sink: Sink<KeyedRow<T>>, j: nat, a: PageAttempt<int>) {
    && !sink.faults.readFails(j)
    && EncodePage(Fetch(g, a.cursor), sink.convert, sink.encodable).Ok?
    && !sink.faults.writeFails(j)
  }

  /** Turn `j` went through on a non-empty page, written whole. */
  ghost predicate WentThrough<T>(g: Getter<T>, sink: Sink<KeyedRow<T>>, j: nat, a: PageAttempt<int>) {
    && Succeeded(g, sink, j, a)
    && Fetch(g, a.cursor) != []
    && a.created == Some(|Fetch(g, a.cursor)|)
  }

  /** The first `upTo` turns each went through, and each following turn
      starts from the key of the last row of the page before. */
  ghost predicate Advancing<T>(g: Getter<T>, sink: Sink<KeyedRow<T>>, trace: seq<PageAttempt<int>>, upTo: nat)
    requires upTo <= |trace|
  {
    forall j :: 0 <= j < upTo ==>
      && WentThrough(g, sink, j, trace[j])
      && (j + 1 < |trace| ==> trace[j + 1].cursor == LastKey(Fetch(g, trace[j].cursor)))
  }

  /** How the last turn ended: `create_many` was called (with the whole page)
      exactly when the query succeeded and the page could be serialized; the
      pagination succeeded exactly when the turn went through, and then its
      page was empty. */
  ghost predicate EndsWith<T>(g: Getter<T>, sink: Sink<KeyedRow<T>>, j: nat, last: PageAttempt<int>,
                              result: Result<seq<CrdtOperation>, Error>)
  {
    var page := Fetch(g, last.cursor);
    && last.created == (if !sink.faults.readFails(j) && EncodePage(page, sink.convert, sink.encodable).Ok?
                        then Some(|page|) else None)
    && (result.Ok? <==> Succeeded(g, sink, j, last))
    && (result.Ok? ==> page == [])
  }

  lemma AdvancingExtend<T>(g: Getter<T>, sink: Sink<KeyedRow<T>>, trace: seq<PageAttempt<int>>, a: PageAttempt<int>)
    requires Advancing(g, sink, trace, |trace|)
    requires trace != [] ==> a.cursor == LastKey(Fetch(g, trace[|trace| - 1].cursor))
    ensures Advancing(g, sink, trace + [a], |trace|)
  {
    var t := trace + [a];
    forall j | 0 <= j < |trace|
      ensures && WentThrough(g, sink, j, t[j])
              && (j + 1 < |t| ==> t[j + 1].cursor == LastKey(Fetch(g, t[j].cursor)))
    {
      assert t[j] == trace[j];
      if j + 1 < |trace| {
        assert t[j + 1] == trace[j + 1];
      }
    }
  }

  lemma AdvancingAppend<T>(g: Getter<T>, sink: Sink<KeyedRow<T>>, trace: seq<PageAttempt<int>>, a: PageAttempt<int>)
    requires Advancing(g, sink, trace, |trace|)
    requires trace != [] ==> a.cursor == LastKey(Fetch(g, trace[|trace| - 1].cursor))
    requires WentThrough(g, sink, |trace|, a)
    ensures Advancing(g, sink, trace + [a], |trace| + 1)
  {
    AdvancingExtend(g, sink, trace, a);
    assert (trace + [a])[|trace|] == a;
  }

  /** How the getter call and `create_many` of turn `n` went: the page could
      be serialized after a successful query. */
  ghost predicate Encoded<T>(g: Getter<T>, sink: Sink<KeyedRow<T>>, n: nat, cursor: int) {
    !sink.faults.readFails(n) && EncodePage(Fetch(g, cursor), sink.convert, sink.encodable).Ok?
  }

  /** A turn that hits a fault, or an empty page, is the last one: a failed
      query or serialization issues no `create_many`, and the error is the
      first one met; otherwise the page is written whole. */
  lemma LastTurn<T>(g: Getter<T>, sink: Sink<KeyedRow<T>>, cursor: int,
                    log: seq<CrdtOperation>, trace: seq<PageAttempt<int>>)
    requires var n := |trace|;
             || sink.faults.readFails(n)
             || EncodePage(Fetch(g, cursor), sink.convert, sink.encodable).Err?
             || sink.faults.writeFails(n)
             || Fetch(g, cursor) == []
    ensures var n := |trace|;
            var items := Fetch(g, cursor);
            Run(g, sink, cursor, log, trace)
            == Outcome(if !Encoded(g, sink, n, cursor)
                       then (if sink.faults.readFails(n) then Err(Database) else Err(Serialization))
                       else if sink.faults.writeFails(n) then Err(Database)
                       else Ok(log + Ops(items, sink.convert)),
                       trace + [PageAttempt(cursor, if Encoded(g, sink, n, cursor) then Some(|items|) else None)])
  {
  }

  /** The last turn as `EndsWith` describes it, and what comes before it untouched. */
  lemma LastTurnEnds<T>(g: Getter<T>, sink: Sink<KeyedRow<T>>, cursor: int,
                        log: seq<CrdtOperation>, trace: seq<PageAttempt<int>>)
    requires Advancing(g, sink, trace, |trace|)
    requires trace != [] ==> cursor == LastKey(Fetch(g, trace[|trace| - 1].cursor))
    requires var n := |trace|;
             || sink.faults.readFails(n)
             || EncodePage(Fetch(g, cursor), sink.convert, sink.encodable).Err?
             || sink.faults.writeFails(n)
             || Fetch(g, cursor) == []
    ensures TurnsFrom(g, sink, cursor, log, trace)
  {
    var n := |trace|;
    LastTurn(g, sink, cursor, log, trace);
    var out := Run(g, sink, cursor, log, trace);
    var last := out.trace[n];
    assert out.trace == trace + [last];
    PrefixOfAppend(trace, [last]);
    if out.result.Ok? {
      PrefixOfAppend(log, Ops(Fetch(g, cursor), sink.convert));
    }
    AdvancingExtend(g, sink, trace, last);
    assert EndsWith(g, sink, n, last, out.result);
  }

  /** What pagination from `cursor` does with its turns: every turn but the
      last went through on a non-empty page and moved the cursor to that
      page's last key; the last turn ended the pagination as `EndsWith` says;
      and rows are only ever added to the operation table. */
  ghost predicate TurnsFrom<T>(g: Getter<T>, sink: Sink<KeyedRow<T>>, cursor: int,
                               log: seq<CrdtOperation>, trace: seq<PageAttempt<int>>)
  {
    var out := Run(g, sink, cursor, log, trace);
    && |trace| < |out.trace|
    && trace <= out.trace
    && out.trace[|trace|].cursor == cursor
    && (out.result.Ok? ==> log <= out.result.value)
    && Ended(g, sink, out)
  }

  /** Every turn of `out` but the last went through, and the last ended it. */
  ghost predicate Ended<T>(g: Getter<T>, sink: Sink<KeyedRow<T>>, out: Outcome<int>) {
    && out.trace != []
    && Advancing(g, sink, out.trace, |out.trace| - 1)
    && EndsWith(g, sink, |out.trace| - 1, out.trace[|out.trace| - 1], out.result)
  }

  /** A turn that goes through on a non-empty page keeps `TurnsFrom` from the next cursor on. */
  lemma TurnsCarry<T>(g: Getter<T>, sink: Sink<KeyedRow<T>>, cursor: int,
                      log: seq<CrdtOperation>, trace: seq<PageAttempt<int>>)
    requires Advancing(g, sink, trace, |trace|)
    requires trace != [] ==> cursor == LastKey(Fetch(g, trace[|trace| - 1].cursor))
    requires !sink.faults.readFails(|trace|) && !sink.faults.writeFails(|trace|)
    requires EncodePage(Fetch(g, cursor), sink.convert, sink.encodable).Ok? && Fetch(g, cursor) != []
    requires var items := Fetch(g, cursor);
             TurnsFrom(g, sink, LastKey(items), log + Ops(items, sink.convert),
                       trace + [PageAttempt(cursor, Some(|items|))])
    ensures TurnsFrom(g, sink, cursor, log, trace)
  {
    var items := Fetch(g, cursor);
    var a := PageAttempt(cursor, Some(|items|));
    var trace' := trace + [a];
    var log' := log + Ops(items, sink.convert);
    RunStep(g, sink, cursor, log, trace);
    var out := Run(g, sink, LastKey(items), log', trace');
    assert Run(g, sink, cursor, log, trace) == out;
    PrefixOfAppend(trace, [a]);
    PrefixTrans(trace, trace', out.trace);
    PrefixOfAppend(log, Ops(items, sink.convert));
    if out.result.Ok? {
      PrefixTrans(log, log', out.result.value);
    }
    assert out.trace[|trace|] == trace'[|trace|];
  }

  lemma {:induction false} RunTurns<T>(g: Getter<T>, sink: Sink<KeyedRow<T>>, cursor: int,
                                        log: seq<CrdtOperation>, trace: seq<PageAttempt<int>>)
    requires Advancing(g, sink, trace, |trace|)
    requires trace != [] ==> cursor == LastKey(Fetch(g, trace[|trace| - 1].cursor))
    ensures TurnsFrom(g, sink, cursor, log, trace)
    decreases |Above(Scoped(g.table, g.scope), cursor)|
  {
    var n := |trace|;
    var items := Fetch(g, cursor);
    var enc := EncodePage(items, sink.convert, sink.encodable);
    if sink.faults.readFails(n) || enc.Err? || sink.faults.writeFails(n) || items == [] {
      LastTurnEnds(g, sink, cursor, log, trace);
    } else {
      var a := PageAttempt(cursor, Some(|items|));
      assert WentThrough(g, sink, n, a);
      AdvancingAppend(g, sink, trace, a);
      assert (trace + [a])[n] == a;
      FetchAdvances(g, cursor);
      RunTurns(g, sink, LastKey(items), log + Ops(items, sink.convert), trace + [a]);
      TurnsCarry(g, sink, cursor, log, trace);
    }
  }

  /** The turns of a whole pagination, from cursor -1. */
  lemma PaginateTurns<T>(g: Getter<T>, sink: Sink<KeyedRow<T>>, log: seq<CrdtOperation>)
    ensures var out := Run(g, sink, -1, log, []);
            && out.trace != []
            && out.trace[0].cursor == -1
            && Advancing(g, sink, out.trace, |out.trace| - 1)
            && EndsWith(g, sink, |out.trace| - 1, out.trace[|out.trace| - 1], out.result)
            && (out.result.Ok? ==> log <= out.result.value)
  {
    RunTurns(g, sink, -1, log, []);
  }

  // ---------------------------------------------------------------- paginate_relation

  /** A join table's getter: the rows in ascending (group id, item id) order
      (the two `order_by`s) and the device scope of its filter. It has no `take`. */
  datatype RelationGetter<T> = RelationGetter(table: seq<RelationRow<T>>, scope: Option<int>)

  /** `group_id::gt(g)` and `item_id::gt(i)` together: both ids above the cursor's. */
  function AboveBoth<T>(rows: seq<RelationRow<T>>, cursor: (int, int)): (r: seq<RelationRow<T>>)
    ensures |r| <= |rows|
    ensures forall i :: 0 <= i < |r| ==> r[i].key.0 > cursor.0 && r[i].key.1 > cursor.1
  {
    if rows == [] then []
    else
      (if rows[0].key.0 > cursor.0 && rows[0].key.1 > cursor.1 then [rows[0]] else [])
      + AboveBoth(rows[1..], cursor)
  }

  /** `getter(cursor)` of a join table. */
  function FetchRelation<T>(g: RelationGetter<T>, cursor: (int, int)): (page: seq<RelationRow<T>>)
    ensures forall i :: 0 <= i < |page| ==> page[i].key.0 > cursor.0 && page[i].key.1 > cursor.1
  {
    AboveBoth(Scoped(g.table, g.scope), cursor)
  }

  /** The loop of `paginate_relation`, one turn per call. */
  ghost function RunRelation<T>(g: RelationGetter<T>, sink: Sink<RelationRow<T>>, cursor: (int, int),
                                log: seq<CrdtOperation>, trace: seq<PageAttempt<(int, int)>>): Outcome<(int, int)>
    decreases |FetchRelation(g, cursor)|
  {
    var n := |trace|;
    if sink.faults.readFails(n) then Outcome(Err(Database), trace + [PageAttempt(cursor, None)])
    else
      var items := FetchRelation(g, cursor);
      match EncodePage(items, sink.convert, sink.encodable)
      case Err(e) => Outcome(Err(e), trace + [PageAttempt(cursor, None)])
      case Ok(creates) =>
        var trace' := trace + [PageAttempt(cursor, Some(|creates|))];
        if sink.faults.writeFails(n) then Outcome(Err(Database), trace')
        else if items == [] then Outcome(Ok(log + creates), trace')
        else
          FetchRelationAdvances(g, cursor);
          RunRelation(g, sink, LastKey(items), log + creates, trace')
  }

  /** `paginate_relation(getter, group_id, item_id, operations)`: as
      `Paginate`, with the pair cursor starting at (-1, -1) and moving to the
      (group id, item id) of each page's last row. */
  method PaginateRelation<T>(g: RelationGetter<T>, sink: Sink<RelationRow<T>>, log: seq<CrdtOperation>)
    returns (r: Result<seq<CrdtOperation>, Error>, trace: seq<PageAttempt<(int, int)>>)
    ensures Outcome(r, trace) == RunRelation(g, sink, (-1, -1), log, [])
  {
    var nextCursor: Option<(int, int)> := Some((-1, -1));
    var ops := log;
    trace := [];
    while nextCursor.Some?
      invariant nextCursor.Some? ==> RunRelation(g, sink, nextCursor.value, ops, trace) == RunRelation(g, sink, (-1, -1), log, [])
      invariant nextCursor.None? ==> Outcome(Ok(ops), trace) == RunRelation(g, sink, (-1, -1), log, [])
      decreases if nextCursor.Some? then 1 + |FetchRelation(g, nextCursor.value)| else 0
    {
      var cursor := nextCursor.value;
      var n := |trace|;
      if sink.faults.readFails(n) {
        return Err(Database), trace + [PageAttempt(cursor, None)];
      }
      var items := FetchRelation(g, cursor);
      nextCursor := if items == [] then None else Some(LastKey(items));
      var creates := EncodePage(items, sink.convert, sink.encodable);
      if creates.Err? {
        return Err(creates.error), trace + [PageAttempt(cursor, None)];
      }
      trace := trace + [PageAttempt(cursor, Some(|creates.value|))];
      if sink.faults.writeFails(n) {
        return Err(Database), trace;
      }
      ops := ops + creates.value;
      if items != [] {
        FetchRelationAdvances(g, cursor);
      }
    }
    r := Ok(ops);
  }

  lemma {:induction false} AboveBothIndexShrinks<T>(a: seq<RelationRow<T>>, m: nat)
    requires m < |a|
    ensures |AboveBoth(a, a[m].key)| < |a|
  {
    if m > 0 {
      assert a[1..][m - 1] == a[m];
      AboveBothIndexShrinks(a[1..], m - 1);
    }
  }

  /** Filtering twice by both ids is filtering once by the larger ones. */
  lemma {:induction false} AboveBothAbove<T>(s: seq<RelationRow<T>>, c: (int, int), d: (int, int))
    requires c.0 <= d.0 && c.1 <= d.1
    ensures AboveBoth(AboveBoth(s, c), d) == AboveBoth(s, d)
  {
    if s != [] {
      AboveBothAbove(s[1..], c, d);
      var a := AboveBoth(s, c);
      if s[0].key.0 > c.0 && s[0].key.1 > c.1 {
        assert a == [s[0]] + AboveBoth(s[1..], c);
        assert a[1..] == AboveBoth(s[1..], c);
        assert AboveBoth(a, d)
            == (if s[0].key.0 > d.0 && s[0].key.1 > d.1 then [s[0]] else []) + AboveBoth(a[1..], d);
      } else {
        assert a == AboveBoth(s[1..], c);
        assert AboveBoth(s, d) == AboveBoth(s[1..], d);
      }
    }
  }

  /** A non-empty page leaves fewer rows above the new cursor. */
  lemma FetchRelationAdvances<T>(g: RelationGetter<T>, cursor: (int, int))
    requires FetchRelation(g, cursor) != []
    ensures |FetchRelation(g, LastKey(FetchRelation(g, cursor)))| < |FetchRelation(g, cursor)|
  {
    var s := Scoped(g.table, g.scope);
    var page := FetchRelation(g, cursor);
    var last := page[|page| - 1];
    AboveBothAbove(s, cursor, last.key);
    AboveBothIndexShrinks(page, |page| - 1);
  }

  predicate LexLess(a: (int, int), b: (int, int)) {
    a.0 < b.0 || (a.0 == b.0 && a.1 < b.1)
  }

  /** The `order_by(group_id)`, `order_by(item_id)` order of a join table. */
  ghost predicate LexAscending<T>(rows: seq<RelationRow<T>>) {
    forall i, j :: 0 <= i < j < |rows| ==> LexLess(rows[i].key, rows[j].key)
  }

  ghost predicate GroupsSorted<T>(rows: seq<RelationRow<T>>) {
    forall i, j :: 0 <= i < j < |rows| ==> rows[i].key.0 <= rows[j].key.0
  }

  lemma {:induction false} ScopedGroupsSorted<T>(rows: seq<RelationRow<T>>, scope: Option<int>)
    requires GroupsSorted(rows)
    ensures GroupsSorted(Scoped(rows, scope))
  {
    if rows != [] {
      assert forall i :: 0 <= i < |rows[1..]| ==> rows[1..][i] == rows[i + 1];
      ScopedGroupsSorted(rows[1..], scope);
      var t := Scoped(rows[1..], scope);
      ScopedKeeps(rows[1..], scope, (x: RelationRow<T>) => x.key.0 >= rows[0].key.0);
      if InScope(rows[0], scope) {
        var u := [rows[0]] + t;
        forall i, j | 0 <= i < j < |u| ensures u[i].key.0 <= u[j].key.0 {
          assert u[j] == t[j - 1];
          if i > 0 {
            assert u[i] == t[i - 1];
          }
        }
      }
    }
  }

  lemma {:induction false} AboveBothAll<T>(a: seq<RelationRow<T>>, c: (int, int))
    requires forall i :: 0 <= i < |a| ==> a[i].key.0 > c.0 && a[i].key.1 > c.1
    ensures AboveBoth(a, c) == a
  {
    if a != [] {
      assert forall i :: 0 <= i < |a[1..]| ==> a[1..][i] == a[i + 1];
      AboveBothAll(a[1..], c);
      assert a == [a[0]] + a[1..];
    }
  }

  lemma {:induction false} AboveBothNone<T>(a: seq<RelationRow<T>>, c: (int, int))
    requires forall i :: 0 <= i < |a| ==> a[i].key.0 <= c.0
    ensures AboveBoth(a, c) == []
  {
    if a != [] {
      assert forall i :: 0 <= i < |a[1..]| ==> a[1..][i] == a[i + 1];
      AboveBothNone(a[1..], c);
    }
  }

  ghost predicate RelationEncoded<T>(g: RelationGetter<T>, sink: Sink<RelationRow<T>>, n: nat, cursor: (int, int)) {
    !sink.faults.readFails(n) && EncodePage(FetchRelation(g, cursor), sink.convert, sink.encodable).Ok?
  }

  /** A turn that hits a fault, or an empty page, is the last one. */
  lemma RelationLastTurn<T>(g: RelationGetter<T>, sink: Sink<RelationRow<T>>, cursor: (int, int),
                            log: seq<CrdtOperation>, trace: seq<PageAttempt<(int, int)>>)
    requires var n := |trace|;
             || sink.faults.readFails(n)
             || EncodePage(FetchRelation(g, cursor), sink.convert, sink.encodable).Err?
             || sink.faults.writeFails(n)
             || FetchRelation(g, cursor) == []
    ensures var n := |trace|;
            var items := FetchRelation(g, cursor);
            RunRelation(g, sink, cursor, log, trace)
            == Outcome(if !RelationEncoded(g, sink, n, cursor)
                       then (if sink.faults.readFails(n) then Err(Database) else Err(Serialization))
                       else if sink.faults.writeFails(n) then Err(Database)
                       else Ok(log + Ops(items, sink.convert)),
                       trace + [PageAttempt(cursor, if RelationEncoded(g, sink, n, cursor) then Some(|items|) else None)])
  {
  }

  /** A turn that goes through on a non-empty page hands over to the next one. */
  lemma RelationStep<T>(g: RelationGetter<T>, sink: Sink<RelationRow<T>>, cursor: (int, int),
                        log: seq<CrdtOperation>, trace: seq<PageAttempt<(int, int)>>)
    requires !sink.faults.readFails(|trace|) && !sink.faults.writeFails(|trace|)
    requires EncodePage(FetchRelation(g, cursor), sink.convert, sink.encodable).Ok? && FetchRelation(g, cursor) != []
    ensures var items := FetchRelation(g, cursor);
            RunRelation(g, sink, cursor, log, trace)
            == RunRelation(g, sink, LastKey(items), log + Ops(items, sink.convert),
                           trace + [PageAttempt(cursor, Some(|items|))])
  {
  }

  /** On a join table in (group id, item id) order with ids that are never
      negative: the first call, from (-1, -1), returns every row in scope; the
      second, from the last row's ids, returns none, since no row has a
      larger group id. So whenever the pagination succeeds it has handed
      every row in scope over once, in order, in at most two getter calls. */
  lemma RelationCollectsAll<T>(g: RelationGetter<T>, sink: Sink<RelationRow<T>>, log: seq<CrdtOperation>)
    requires LexAscending(g.table)
    requires forall i :: 0 <= i < |g.table| ==> g.table[i].key.0 >= 0 && g.table[i].key.1 >= 0
    ensures var out := RunRelation(g, sink, (-1, -1), log, []);
            var rows := Scoped(g.table, g.scope);
            && out.trace != [] && out.trace[0].cursor == (-1, -1)
            && |out.trace| <= 2
            && (out.result.Ok? ==> out.result.value == log + Ops(rows, sink.convert))
            && (rows == [] ==> |out.trace| == 1)
            && (|out.trace| == 2 ==> rows != [] && out.trace[1].cursor == LastKey(rows))
  {
    var rows := Scoped(g.table, g.scope);
    RelationPages(g);
    if sink.faults.readFails(0) || EncodePage(rows, sink.convert, sink.encodable).Err?
       || sink.faults.writeFails(0) || rows == [] {
      RelationLastTurn(g, sink, (-1, -1), log, []);
    } else {
      var first := PageAttempt((-1, -1), Some(|rows|));
      RelationStep(g, sink, (-1, -1), log, []);
      RelationLastTurn(g, sink, LastKey(rows), log + Ops(rows, sink.convert), [first]);
      var out := RunRelation(g, sink, (-1, -1), log, []);
      assert out.trace[0] == first;
      if out.result.Ok? {
        assert log + Ops(rows, sink.convert) + [] == log + Ops(rows, sink.convert);
      }
    }
  }

  /** The two pages of such a join table: everything in scope from (-1, -1),
      then nothing from the last row's ids. */
  lemma RelationPages<T>(g: RelationGetter<T>)
    requires LexAscending(g.table)
    requires forall i :: 0 <= i < |g.table| ==> g.table[i].key.0 >= 0 && g.table[i].key.1 >= 0
    ensures FetchRelation(g, (-1, -1)) == Scoped(g.table, g.scope)
    ensures Scoped(g.table, g.scope) != [] ==> FetchRelation(g, LastKey(Scoped(g.table, g.scope))) == []
  {
    var rows := Scoped(g.table, g.scope);
    ScopedKeeps(g.table, g.scope, (x: RelationRow<T>) => x.key.0 > -1 && x.key.1 > -1);
    AboveBothAll(rows, (-1, -1));
    if rows != [] {
      assert GroupsSorted(g.table);
      ScopedGroupsSorted(g.table, g.scope);
      AboveBothNone(rows, LastKey(rows));
    }
  }

  /** With no store fault and every operation serializable, the pagination of
      such a join table succeeds: two getter calls, or one for an empty scope. */
  lemma RelationReliable<T>(g: RelationGetter<T>, sink: Sink<RelationRow<T>>, log: seq<CrdtOperation>)
    requires LexAscending(g.table)
    requires forall i :: 0 <= i < |g.table| ==> g.table[i].key.0 >= 0 && g.table[i].key.1 >= 0
    requires Reliable(sink.faults) && AllEncodable(sink.encodable)
    ensures var out := RunRelation(g, sink, (-1, -1), log, []);
            var rows := Scoped(g.table, g.scope);
            && out.result == Ok(log + Ops(rows, sink.convert))
            && |out.trace| == (if rows == [] then 1 else 2)
  {
    var rows := Scoped(g.table, g.scope);
    RelationPages(g);
    assert !sink.faults.readFails(0) && !sink.faults.writeFails(0) && !sink.faults.readFails(1) && !sink.faults.writeFails(1);
    if rows == [] {
      RelationLastTurn(g, sink, (-1, -1), log, []);
    } else {
      var first := PageAttempt((-1, -1), Some(|rows|));
      RelationStep(g, sink, (-1, -1), log, []);
      RelationLastTurn(g, sink, LastKey(rows), log + Ops(rows, sink.convert), [first]);
      assert Ops<RelationRow<T>>([], sink.convert) == [];
      assert log + Ops(rows, sink.convert) + [] == log + Ops(rows, sink.convert);
    }
  }

  /** The join-table cursor compares the two ids separately, not as a pair: a
      row that comes after the cursor in (group id, item id) order but has a
      smaller item id is not above it. */
  lemma ComponentwiseNotLexicographic()
    ensures var row: RelationRow<int> := Row((3, 1), None, 0);
            LexLess((2, 3), row.key) && AboveBoth([row], (2, 3)) == []
  {
    var row: RelationRow<int> := Row((3, 1), None, 0);
    assert [row][1..] == [];
  }
}
