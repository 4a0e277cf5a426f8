/** Lookups by an indexed field (src/model.py). An index only knows the rows written since it exists; a backfill
    adds the older ones a batch at a time, and until it has, a lookup reads the whole table. */
module Index {
  import opened Options
  import opened Tables

  datatype Table = Grants | Canisters | Wasms | Stands

  datatype Field = Principal | Scope | CanisterId | Sha | State

  const INDEXES: seq<Field> := [Principal, Scope, CanisterId, Sha, State]

  function TableOf(f: Field): Table {
    match f
    case Principal | Scope => Grants
    case CanisterId => Canisters
    case Sha => Wasms
    case State => Stands
  }

  /** A field at its default is absent from `values`: defaults are not indexed. */
  datatype Row = Row(values: map<Field, string>, builtAt: nat, buildError: string)

  type Rows = seq<Entry<Row>>

  function Stored(r: Row, f: Field): Option<string> {
    if f in r.values then Some(r.values[f]) else None
  }

  function StandState(r: Row): Option<string> {
    if r.builtAt > 0 then None else if r.buildError != "" then Some("failed") else Some("pending")
  }

  /** What the field's value is, also of a row from before the field. */
  function Derived(r: Row, f: Field): Option<string> {
    if f == State then StandState(r) else Stored(r, f)
  }

  function With(r: Row, f: Field, v: Option<string>): (w: Row)
    ensures Stored(w, f) == v && forall g :: g != f ==> Stored(w, g) == Stored(r, g)
    ensures w.builtAt == r.builtAt && w.buildError == r.buildError
  {
    r.(values := if v.Some? then r.values[f := v.value] else r.values - {f})
  }

  function Built(r: Row, at: nat, error: string): Row {
    var w := r.(builtAt := at, buildError := error);
    With(w, State, StandState(w))
  }

  datatype Key = Key(field: Field, value: Option<string>, id: nat)

  datatype Db = Db(grants: Rows, canisters: Rows, wasms: Rows, stands: Rows, index: set<Key>, indexes: nat, from: nat)
  {
    function Of(t: Table): Rows {
      match t case Grants => grants case Canisters => canisters case Wasms => wasms case Stands => stands
    }

    function WithRows(t: Table, rows: Rows): Db {
      match t
      case Grants => this.(grants := rows)
      case Canisters => this.(canisters := rows)
      case Wasms => this.(wasms := rows)
      case Stands => this.(stands := rows)
    }
  }

  // ---------- writes ----------

  function Replaced(rows: Rows, id: nat, r: Row): Rows {
    seq(|rows|, i requires 0 <= i < |rows| => if rows[i].id == id then Entry(id, r) else rows[i])
  }

  /** The index after row `id` is saved with this value of the field. */
  function Reindexed(index: set<Key>, f: Field, id: nat, v: Option<string>): set<Key> {
    (set k <- index | !(k.field == f && k.id == id)) + (if v.Some? then {Key(f, v, id)} else {})
  }

  function SaveStep(db: Db, f: Field, id: nat, r: Row): Db {
    db.WithRows(TableOf(f), Replaced(db.Of(TableOf(f)), id, r)).(index := Reindexed(db.index, f, id, Stored(r, f)))
  }

  function ReindexedAll(index: set<Key>, fs: seq<Field>, t: Table, id: nat, r: Row): set<Key> {
    if fs == [] then index
    else
      var rest := ReindexedAll(index, fs[1..], t, id, r);
      if TableOf(fs[0]) == t then Reindexed(rest, fs[0], id, Stored(r, fs[0])) else rest
  }

  function CreateStep(db: Db, t: Table, id: nat, r: Row): Db {
    db.WithRows(t, db.Of(t) + [Entry(id, r)]).(index := ReindexedAll(db.index, INDEXES, t, id, r))
  }

  function DeleteStep(db: Db, t: Table, k: nat): Db
    requires k < |db.Of(t)|
  {
    var rows := db.Of(t);
    db.WithRows(t, rows[..k] + rows[k + 1..])
      .(index := set x <- db.index | !(TableOf(x.field) == t && x.id == rows[k].id))
  }

  // ---------- the backfill ----------

  function DeriveEach(db: Db, rows: Rows): Db
    decreases |rows|
  {
    if rows == [] then db
    else
      var e := rows[0];
      DeriveEach(SaveStep(db, State, e.id, With(e.row, State, StandState(e.row))), rows[1..])
  }

  /** What the database's own index rebuild does with a batch: file every row under its stored value. */
  function Filed(index: set<Key>, f: Field, rows: Rows): set<Key> {
    index + (set e <- rows | Stored(e.row, f).Some? :: Key(f, Stored(e.row, f), e.id))
  }

  function Start(db: Db): nat { if db.from == 0 then 1 else db.from }

  function RebuildStep(db: Db, f: Field): Db {
    var (got, next) := Page(db.Of(TableOf(f)), Start(db), PAGE);
    db.(index := Filed(db.index, f, got),
        from := if next.Some? then next.value else 1,
        indexes := if next.Some? then db.indexes else db.indexes + 1)
  }

  /** The rows of the batch that is next for a field. */
  function Batch(db: Db, f: Field): Rows {
    Page(db.Of(TableOf(f)), Start(db), PAGE).0
  }

  /** The database once the batch's derived values are written; only a stand's state is derived. */
  function Prepared(db: Db, f: Field): Db {
    if f == State then DeriveEach(db, Batch(db, f)) else db
  }

  function ReindexStep(db: Db): Db {
    if db.indexes >= |INDEXES| then db
    else var f := INDEXES[db.indexes]; RebuildStep(Prepared(db, f), f)
  }

  // ---------- lookups ----------

  predicate Indexed(db: Db, f: Field) {
    exists k :: 0 <= k < db.indexes && k < |INDEXES| && INDEXES[k] == f
  }

  /** The rows whose value, derived where it has to be, is `v`: what a lookup should find. */
  function Holding(rows: Rows, f: Field, v: Option<string>): Rows {
    if rows == [] then []
    else (if Derived(rows[0].row, f) == v then [rows[0]] else []) + Holding(rows[1..], f, v)
  }

  /** The rows that the index lists under `v`. */
  function Listed(rows: Rows, index: set<Key>, f: Field, v: Option<string>): Rows {
    if rows == [] then []
    else (if Key(f, v, rows[0].id) in index then [rows[0]] else []) + Listed(rows[1..], index, f, v)
  }

  function Limited<R>(rows: seq<R>, limit: nat): seq<R> {
    if limit > 0 && |rows| > limit then rows[..limit] else rows
  }

  /** A lookup's whole answer, before any limit. */
  function Found(db: Db, f: Field, v: Option<string>): Rows {
    if !Indexed(db, f) then Holding(db.Of(TableOf(f)), f, v) else Listed(db.Of(TableOf(f)), db.index, f, v)
  }

  lemma HoldingCons(e: Entry<Row>, rows: Rows, f: Field, v: Option<string>)
    ensures Holding([e] + rows, f, v) == (if Derived(e.row, f) == v then [e] else []) + Holding(rows, f, v)
  {
    assert ([e] + rows)[1..] == rows;
  }

  lemma Regroup<T>(a: seq<T>, b: seq<T>, c: seq<T>)
    ensures a + (b + c) == a + b + c
  {
  }

  lemma {:induction false} HoldingJoin(a: Rows, b: Rows, f: Field, v: Option<string>)
    ensures Holding(a + b, f, v) == Holding(a, f, v) + Holding(b, f, v)
  {
    if a == [] {
      assert a + b == b;
    } else {
      assert a + b == [a[0]] + (a[1..] + b);
      HoldingCons(a[0], a[1..] + b, f, v);
      HoldingJoin(a[1..], b, f, v);
      Regroup(if Derived(a[0].row, f) == v then [a[0]] else [], Holding(a[1..], f, v), Holding(b, f, v));
    }
  }

  lemma {:induction false} ListedAbove(rows: Rows, index: set<Key>, f: Field, v: Option<string>, low: nat)
    requires forall i :: 0 <= i < |rows| ==> rows[i].id > low
    ensures forall i :: 0 <= i < |Listed(rows, index, f, v)| ==> Listed(rows, index, f, v)[i].id > low
  {
    if rows != [] { ListedAbove(rows[1..], index, f, v, low); }
  }

  lemma {:induction false} ListedAscends(rows: Rows, index: set<Key>, f: Field, v: Option<string>)
    requires Ascending(rows)
    ensures Ascending(Listed(rows, index, f, v))
  {
    if rows != [] {
      RestAscends(rows);
      ListedAscends(rows[1..], index, f, v);
      ListedAbove(rows[1..], index, f, v, rows[0].id);
      PrependAscends(rows[0], Listed(rows[1..], index, f, v));
    }
  }

  predicate Full<R>(rows: seq<R>, limit: nat) { limit > 0 && |rows| >= limit }

  method ScanPage(found: Rows, got: Rows, f: Field, v: Option<string>, limit: nat) returns (out: Rows)
    requires !Full(found, limit)
    ensures Full(out, limit) <==> Full(found + Holding(got, f, v), limit)
    ensures out == Limited(found + Holding(got, f, v), limit)
    ensures !Full(out, limit) ==> out == found + Holding(got, f, v)
  {
    out := found;
    assert got[0..] == got;
    for i := 0 to |got|
      invariant found + Holding(got, f, v) == out + Holding(got[i..], f, v)
      invariant !Full(out, limit)
    {
      assert got[i..][0] == got[i] && got[i..][1..] == got[i + 1..];
      if Derived(got[i].row, f) == v {
        out := out + [got[i]];
        if Full(out, limit) {
          assert found + Holding(got, f, v) == out + Holding(got[i + 1..], f, v);
          return;
        }
      }
    }
  }

  ghost predicate Remaining<R>(rows: seq<Entry<R>>, cursor: Option<nat>, rest: seq<Entry<R>>) {
    Ascending(rows) && rest == Rest(rows, cursor)
  }

  lemma FirstPage<R>(rows: seq<Entry<R>>)
    requires Ascending(rows)
    ensures Remaining(rows, Some(1), rows)
  {
    FromAll(rows, 1);
  }

  method ReadPage<R>(rows: seq<Entry<R>>, start: Option<nat>, count: int, ghost rest: seq<Entry<R>>)
    returns (got: seq<Entry<R>>, next: Option<nat>, ghost later: seq<Entry<R>>)
    requires start.Some? && Remaining(rows, start, rest)
    ensures Remaining(rows, next, later)
    ensures rest == got + later && (next.Some? ==> |later| < |rest|) && (next.None? ==> later == [])
  {
    PageThenRest(rows, start.value, count);
    PageShrinks(rows, start.value, count);
    got, next := Page(rows, start.value, count).0, Page(rows, start.value, count).1;
    later := Rest(rows, next);
  }

  lemma LimitedEarly<R>(out: seq<R>, rest: seq<R>, limit: nat)
    requires rest == [] || Full(out, limit)
    ensures Limited(out + rest, limit) == Limited(out, limit)
  {
  }

  method ScanNext(rows: Rows, start: Option<nat>, ghost rest: Rows, found: Rows, f: Field, v: Option<string>, limit: nat)
    returns (out: Rows, next: Option<nat>, ghost later: Rows)
    requires start.Some? && Remaining(rows, start, rest) && !Full(found, limit)
    ensures Remaining(rows, next, later) && (next.Some? ==> |later| < |rest|) && (next.None? ==> later == [])
    ensures !Full(out, limit) ==> found + Holding(rest, f, v) == out + Holding(later, f, v)
    ensures Full(out, limit) ==> out == Limited(found + Holding(rest, f, v), limit)
  {
    var got;
    got, next, later := ReadPage(rows, start, PAGE, rest);
    HoldingJoin(got, later, f, v);
    out := ScanPage(found, got, f, v, limit);
    assert found + Holding(rest, f, v) == found + Holding(got, f, v) + Holding(later, f, v);
    if Full(out, limit) { LimitedEarly(found + Holding(got, f, v), Holding(later, f, v), limit); }
  }

  method Scan(rows: Rows, f: Field, v: Option<string>, limit: nat) returns (out: Rows)
    requires Ascending(rows)
    ensures out == Limited(Holding(rows, f, v), limit)
  {
    var start := Some(1);
    ghost var rest := rows;
    FirstPage(rows);
    out := [];
    while start.Some? && !Full(out, limit)
      invariant Remaining(rows, start, rest) && (start.None? ==> rest == [])
      invariant !Full(out, limit) ==> Holding(rows, f, v) == out + Holding(rest, f, v)
      invariant Full(out, limit) ==> out == Limited(Holding(rows, f, v), limit)
      decreases start.Some?, |rest|
    {
      out, start, rest := ScanNext(rows, start, rest, out, f, v, limit);
    }
  }

  method ReadIndex<R>(hits: seq<Entry<R>>, limit: nat) returns (out: seq<Entry<R>>)
    requires Ascending(hits)
    ensures out == Limited(hits, limit)
  {
    var start, count := Some(1), if 0 < limit < PAGE then limit else PAGE;
    ghost var rest := hits;
    FirstPage(hits);
    out := [];
    while start.Some? && !Full(out, limit)
      invariant Remaining(hits, start, rest) && (start.None? ==> rest == [])
      invariant hits == out + rest
      decreases start.Some?, |rest|
    {
      var got, next;
      ghost var later;
      got, next, later := ReadPage(hits, start, count, rest);
      Regroup(out, got, later);
      out, start, rest := out + got, next, later;
    }
    LimitedEarly(out, rest, limit);
    out := Limited(out, limit);
  }

  /** The stored database, updated in place. */
  class Database {
    var db: Db

    constructor (db: Db)
      ensures this.db == db
    {
      this.db := db;
    }

    /** The stand's build fields are written and its state with them: the row stores the state that its fields derive,
        the index lists it under that state and no other, and nothing else changes. */
    method SetBuild(k: nat, at: nat, error: string)
      requires k < |db.stands| && Ascending(db.stands)
      modifies this
      ensures db == SaveStep(old(db), State, old(db).stands[k].id, Built(old(db).stands[k].row, at, error))
      ensures |db.stands| == |old(db).stands| && forall j :: 0 <= j < |db.stands| && j != k ==> db.stands[j] == old(db).stands[j]
      ensures var r := db.stands[k].row;
        && r.builtAt == at && r.buildError == error && (forall g :: g != State ==> Stored(r, g) == Stored(old(db).stands[k].row, g))
        && Stored(r, State) == if at > 0 then None else if error != "" then Some("failed") else Some("pending")
      ensures forall x: Key :: x in db.index <==>
        if x.field == State && x.id == db.stands[k].id then x.value.Some? && x.value == Stored(db.stands[k].row, State) else x in old(db).index
    {
      var e := db.stands[k];
      var row := e.row.(builtAt := at, buildError := error);
      row := With(row, State, StandState(row));
      db := SaveStep(db, State, e.id, row);
    }

    method DeriveAll(rows: Rows)
      modifies this
      ensures db == DeriveEach(old(db), rows)
    {
      assert rows[0..] == rows;
      for i := 0 to |rows|
        invariant DeriveEach(db, rows[i..]) == DeriveEach(old(db), rows)
      {
        assert rows[i..][0] == rows[i] && rows[i..][1..] == rows[i + 1..];
        db := SaveStep(db, State, rows[i].id, With(rows[i].row, State, StandState(rows[i].row)));
      }
    }

    /** One batch; true once every index is complete. */
    method ReindexBatch() returns (complete: bool)
      modifies this
      ensures db == ReindexStep(old(db))
      ensures complete <==> db.indexes >= |INDEXES|
    {
      if db.indexes < |INDEXES| {
        var f := INDEXES[db.indexes];
        if f == State {
          DeriveAll(Batch(db, f));
        }
        db := RebuildStep(db, f);
      }
      complete := db.indexes >= |INDEXES|;
    }

    /** The rows found, in id order, and no more of them than asked for (`0` for all). */
    method Matching(f: Field, v: Option<string>, limit: nat) returns (out: Rows)
      requires Ascending(db.Of(TableOf(f)))
      ensures out == Limited(Found(db, f, v), limit)
    {
      var rows := db.Of(TableOf(f));
      if !Indexed(db, f) {
        out := Scan(rows, f, v, limit);
      } else {
        ListedAscends(rows, db.index, f, v);
        out := ReadIndex(Listed(rows, db.index, f, v), limit);
      }
    }
  }
}
