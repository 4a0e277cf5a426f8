/** Over every run of writes and backfill batches, a lookup by an indexed field finds exactly the rows that a scan
    would; and the backfill ends. */
module IndexRuns {
  import opened Options
  import opened Tables
  import opened Index
  import opened Filters

  function Pos(f: Field): (p: nat)
    ensures p < |INDEXES| && INDEXES[p] == f
  {
    match f case Principal => 0 case Scope => 1 case CanisterId => 2 case Sha => 3 case State => 4
  }

  /** A row the index has caught up with: its stored value is its derived one, and it is listed under it. */
  ghost predicate Caught(e: Entry<Row>, index: set<Key>, f: Field) {
    && Derived(e.row, f) == Stored(e.row, f)
    && (Stored(e.row, f).Some? ==> Key(f, Stored(e.row, f), e.id) in index)
  }

  /** The index never lists a row under a value that is not its own, nor under a default. */
  ghost predicate Honest(e: Entry<Row>, index: set<Key>, f: Field) {
    forall v :: Key(f, v, e.id) in index ==> v.Some? && Stored(e.row, f) == v
  }

  ghost predicate Right(rows: Rows, index: set<Key>, f: Field, reached: iset<nat>) {
    forall i :: 0 <= i < |rows| ==> Honest(rows[i], index, f) && (rows[i].id in reached ==> Caught(rows[i], index, f))
  }

  ghost predicate HasPassed(db: Db, f: Field, id: nat) {
    Pos(f) < db.indexes || (Pos(f) == db.indexes && id < db.from)
  }

  /** The ids that the backfill of a field has passed. */
  ghost function Passed(db: Db, f: Field): iset<nat> {
    iset id: nat | HasPassed(db, f, id)
  }

  ghost predicate FieldInv(db: Db, f: Field, reached: iset<nat>) {
    Right(db.Of(TableOf(f)), db.index, f, reached)
  }

  ghost predicate AllAscend(db: Db) {
    forall t: Table :: Ascending(db.Of(t))
  }

  ghost predicate AllFields(db: Db) {
    forall f: Field :: FieldInv(db, f, Passed(db, f))
  }

  ghost predicate Inv(db: Db) {
    AllAscend(db) && AllFields(db)
  }

  // ---------- lookups in a state that keeps the invariant ----------

  lemma {:induction false} ListedIsHolding(rows: Rows, index: set<Key>, f: Field, v: string, reached: iset<nat>)
    requires Right(rows, index, f, reached) && forall i :: 0 <= i < |rows| ==> rows[i].id in reached
    ensures Listed(rows, index, f, Some(v)) == Holding(rows, f, Some(v))
  {
    if rows != [] {
      assert Honest(rows[0], index, f) && Caught(rows[0], index, f);
      ListedIsHolding(rows[1..], index, f, v, reached);
    }
  }

  /** Indexed or not yet, a lookup finds the rows that a scan with derived values finds. */
  lemma FoundIsHolding(db: Db, f: Field, v: string)
    requires Inv(db)
    ensures Found(db, f, Some(v)) == Holding(db.Of(TableOf(f)), f, Some(v))
  {
    if Indexed(db, f) {
      var k :| 0 <= k < db.indexes && k < |INDEXES| && INDEXES[k] == f;
      assert k == Pos(f);
      assert FieldInv(db, f, Passed(db, f));
      ListedIsHolding(db.Of(TableOf(f)), db.index, f, v, Passed(db, f));
    }
  }

  lemma {:induction false} NoneIsListed(rows: Rows, index: set<Key>, f: Field, reached: iset<nat>)
    requires Right(rows, index, f, reached)
    ensures Listed(rows, index, f, None) == []
  {
    if rows != [] {
      assert Honest(rows[0], index, f);
      NoneIsListed(rows[1..], index, f, reached);
    }
  }

  // ---------- what a write keeps ----------

  lemma ReplacedAscends(rows: Rows, id: nat, r: Row)
    requires Ascending(rows)
    ensures Ascending(Replaced(rows, id, r))
  {
  }

  lemma SaveRight(rows: Rows, index: set<Key>, f: Field, id: nat, r: Row, reached: iset<nat>)
    requires Right(rows, index, f, reached) && Derived(r, f) == Stored(r, f)
    ensures Right(Replaced(rows, id, r), Reindexed(index, f, id, Stored(r, f)), f, reached + iset{id})
  {
    var now, later := Replaced(rows, id, r), Reindexed(index, f, id, Stored(r, f));
    forall i | 0 <= i < |now|
      ensures Honest(now[i], later, f) && (now[i].id in reached + iset{id} ==> Caught(now[i], later, f))
    {
      assert Honest(rows[i], index, f);
    }
  }

  ghost predicate SameIn(a: Row, b: Row, g: Field) {
    Stored(a, g) == Stored(b, g) && Derived(a, g) == Derived(b, g)
  }

  /** The index keeps every key of field `g`. */
  ghost predicate SameKeys(a: set<Key>, b: set<Key>, g: Field) {
    forall v, id :: Key(g, v, id) in a <==> Key(g, v, id) in b
  }

  lemma RightCarries(rows: Rows, now: Rows, index: set<Key>, later: set<Key>, g: Field, reached: iset<nat>)
    requires Right(rows, index, g, reached) && SameKeys(index, later, g)
    requires |now| == |rows| && forall i :: 0 <= i < |rows| ==> now[i].id == rows[i].id && SameIn(now[i].row, rows[i].row, g)
    ensures Right(now, later, g, reached)
  {
    forall i | 0 <= i < |now|
      ensures Honest(now[i], later, g) && (now[i].id in reached ==> Caught(now[i], later, g))
    {
      assert Honest(rows[i], index, g) && SameIn(now[i].row, rows[i].row, g);
    }
  }

  /** A write of `f` that leaves the row's other fields as they are. */
  ghost predicate Writes(db: Db, f: Field, id: nat, r: Row) {
    && Derived(r, f) == Stored(r, f)
    && forall i, g :: 0 <= i < |db.Of(TableOf(f))| && db.Of(TableOf(f))[i].id == id && g != f ==> SameIn(r, db.Of(TableOf(f))[i].row, g)
  }

  lemma SaveKeepsField(db: Db, f: Field, id: nat, r: Row, g: Field, reached: iset<nat>)
    requires Writes(db, f, id, r) && FieldInv(db, g, reached)
    ensures FieldInv(SaveStep(db, f, id, r), g, if g == f then reached + iset{id} else reached)
  {
    var rows, now := db.Of(TableOf(g)), SaveStep(db, f, id, r);
    if g == f {
      SaveRight(rows, db.index, f, id, r, reached);
    } else {
      assert SameKeys(db.index, now.index, g);
      forall i | 0 <= i < |rows|
        ensures now.Of(TableOf(g))[i].id == rows[i].id && SameIn(now.Of(TableOf(g))[i].row, rows[i].row, g)
      {
      }
      RightCarries(rows, now.Of(TableOf(g)), db.index, now.index, g, reached);
    }
  }

  lemma SamePassed(db: Db, now: Db, g: Field)
    requires now.indexes == db.indexes && now.from == db.from
    ensures Passed(now, g) == Passed(db, g)
  {
  }

  lemma MorePassed(db: Db, g: Field, reached: iset<nat>, id: nat)
    requires FieldInv(db, g, reached + iset{id})
    ensures FieldInv(db, g, reached)
  {
  }

  lemma SaveAscends(db: Db, f: Field, id: nat, r: Row, t: Table)
    requires Inv(db)
    ensures Ascending(SaveStep(db, f, id, r).Of(t))
  {
    assert Ascending(db.Of(t));
    if t == TableOf(f) { ReplacedAscends(db.Of(t), id, r); }
  }

  lemma SaveKeepsPassed(db: Db, f: Field, id: nat, r: Row, g: Field)
    requires Inv(db) && Writes(db, f, id, r)
    ensures FieldInv(SaveStep(db, f, id, r), g, Passed(SaveStep(db, f, id, r), g))
  {
    var now := SaveStep(db, f, id, r);
    assert FieldInv(db, g, Passed(db, g));
    SaveKeepsField(db, f, id, r, g, Passed(db, g));
    SamePassed(db, now, g);
    if g == f { MorePassed(now, g, Passed(db, g), id); }
  }

  lemma SaveKeepsInv(db: Db, f: Field, id: nat, r: Row)
    requires Inv(db) && Writes(db, f, id, r)
    ensures Inv(SaveStep(db, f, id, r))
  {
    forall t: Table { SaveAscends(db, f, id, r, t); }
    forall g: Field { SaveKeepsPassed(db, f, id, r, g); }
  }

  // ---------- creation and deletion ----------

  lemma {:induction false} ReindexedAllAt(index: set<Key>, fs: seq<Field>, t: Table, id: nat, r: Row, k: Key)
    ensures k in ReindexedAll(index, fs, t, id, r) <==> (
      if k.id == id && k.field in fs && TableOf(k.field) == t then k.value.Some? && Stored(r, k.field) == k.value else k in index)
  {
    if fs != [] { ReindexedAllAt(index, fs[1..], t, id, r, k); }
  }

  ghost predicate Fresh(db: Db, t: Table, id: nat) {
    id >= 1 && forall i :: 0 <= i < |db.Of(t)| ==> db.Of(t)[i].id < id
  }

  ghost predicate Creates(t: Table, r: Row) {
    forall g: Field :: TableOf(g) == t ==> Derived(r, g) == Stored(r, g)
  }

  lemma CreateKeepsField(db: Db, t: Table, id: nat, r: Row, g: Field, reached: iset<nat>)
    requires Fresh(db, t, id) && Creates(t, r) && FieldInv(db, g, reached)
    ensures FieldInv(CreateStep(db, t, id, r), g, reached)
  {
    var rows, now := db.Of(TableOf(g)), CreateStep(db, t, id, r);
    var after := now.Of(TableOf(g));
    forall v, i: nat ensures Key(g, v, i) in now.index <==> (if i == id && TableOf(g) == t then v.Some? && Stored(r, g) == v else Key(g, v, i) in db.index) {
      assert INDEXES[Pos(g)] == g;
      ReindexedAllAt(db.index, INDEXES, t, id, r, Key(g, v, i));
    }
    forall i | 0 <= i < |after|
      ensures Honest(after[i], now.index, g) && (after[i].id in reached ==> Caught(after[i], now.index, g))
    {
      if i < |rows| { assert after[i] == rows[i] && Honest(rows[i], db.index, g); }
    }
  }

  lemma OneMoreAscends(rows: Rows, id: nat, r: Row)
    requires Ascending(rows) && id >= 1 && forall i :: 0 <= i < |rows| ==> rows[i].id < id
    ensures Ascending(rows + [Entry(id, r)])
  {
  }

  lemma CreateAscends(db: Db, t: Table, id: nat, r: Row, u: Table)
    requires Inv(db) && Fresh(db, t, id)
    ensures Ascending(CreateStep(db, t, id, r).Of(u))
  {
    assert Ascending(db.Of(u));
    if u == t { OneMoreAscends(db.Of(t), id, r); }
  }

  lemma CreateKeepsPassed(db: Db, t: Table, id: nat, r: Row, g: Field)
    requires Inv(db) && Fresh(db, t, id) && Creates(t, r)
    ensures FieldInv(CreateStep(db, t, id, r), g, Passed(CreateStep(db, t, id, r), g))
  {
    assert FieldInv(db, g, Passed(db, g));
    CreateKeepsField(db, t, id, r, g, Passed(db, g));
    SamePassed(db, CreateStep(db, t, id, r), g);
  }

  lemma CreateKeepsInv(db: Db, t: Table, id: nat, r: Row)
    requires Inv(db) && Fresh(db, t, id) && Creates(t, r)
    ensures Inv(CreateStep(db, t, id, r))
  {
    forall u: Table { CreateAscends(db, t, id, r, u); }
    forall g: Field { CreateKeepsPassed(db, t, id, r, g); }
  }

  lemma RowStays(e: Entry<Row>, index: set<Key>, later: set<Key>, f: Field)
    requires Honest(e, index, f) && forall v :: Key(f, v, e.id) in later <==> Key(f, v, e.id) in index
    ensures Honest(e, later, f) && (Caught(e, later, f) <==> Caught(e, index, f))
  {
  }

  lemma OneLessAt(rows: Rows, k: nat, i: nat)
    requires Ascending(rows) && k < |rows| && i + 1 < |rows|
    ensures var j := if i < k then i else i + 1;
      (rows[..k] + rows[k + 1..])[i] == rows[j] && rows[j].id != rows[k].id
  {
  }

  lemma DeleteKeepsRow(db: Db, t: Table, k: nat, g: Field, reached: iset<nat>, i: nat)
    requires k < |db.Of(t)| && Ascending(db.Of(t)) && FieldInv(db, g, reached) && i < |DeleteStep(db, t, k).Of(TableOf(g))|
    ensures var now := DeleteStep(db, t, k); var e := now.Of(TableOf(g))[i];
      Honest(e, now.index, g) && (e.id in reached ==> Caught(e, now.index, g))
  {
    var rows, now := db.Of(TableOf(g)), DeleteStep(db, t, k);
    if TableOf(g) == t { OneLessAt(rows, k, i); }
    var j := if TableOf(g) == t && i >= k then i + 1 else i;
    assert now.Of(TableOf(g))[i] == rows[j] && Honest(rows[j], db.index, g);
    RowStays(rows[j], db.index, now.index, g);
  }

  lemma DeleteKeepsField(db: Db, t: Table, k: nat, g: Field, reached: iset<nat>)
    requires k < |db.Of(t)| && Ascending(db.Of(t)) && FieldInv(db, g, reached)
    ensures FieldInv(DeleteStep(db, t, k), g, reached)
  {
    forall i: nat | i < |DeleteStep(db, t, k).Of(TableOf(g))| { DeleteKeepsRow(db, t, k, g, reached, i); }
  }

  lemma OneLessAscends(rows: Rows, k: nat)
    requires Ascending(rows) && k < |rows|
    ensures Ascending(rows[..k] + rows[k + 1..])
  {
  }

  lemma DeleteAscends(db: Db, t: Table, k: nat, u: Table)
    requires Inv(db) && k < |db.Of(t)|
    ensures Ascending(DeleteStep(db, t, k).Of(u))
  {
    assert Ascending(db.Of(u));
    if u == t { OneLessAscends(db.Of(t), k); }
  }

  lemma DeleteKeepsPassed(db: Db, t: Table, k: nat, g: Field)
    requires Inv(db) && k < |db.Of(t)|
    ensures FieldInv(DeleteStep(db, t, k), g, Passed(DeleteStep(db, t, k), g))
  {
    assert Ascending(db.Of(t)) && FieldInv(db, g, Passed(db, g));
    DeleteKeepsField(db, t, k, g, Passed(db, g));
    SamePassed(db, DeleteStep(db, t, k), g);
  }

  lemma DeleteKeepsInv(db: Db, t: Table, k: nat)
    requires Inv(db) && k < |db.Of(t)|
    ensures Inv(DeleteStep(db, t, k))
  {
    forall u: Table { DeleteAscends(db, t, k, u); }
    forall g: Field { DeleteKeepsPassed(db, t, k, g); }
  }

  // ---------- the backfill ----------

  ghost predicate Has(rows: Rows, id: nat) {
    exists j :: 0 <= j < |rows| && rows[j].id == id
  }

  ghost function Ids(rows: Rows): iset<nat> {
    iset id: nat | Has(rows, id)
  }

  ghost predicate Within(rows: Rows, t: Rows) {
    forall j :: 0 <= j < |rows| ==> rows[j] in t
  }

  ghost predicate SameIds(a: Rows, b: Rows) {
    |a| == |b| && forall i :: 0 <= i < |a| ==> a[i].id == b[i].id
  }

  lemma DerivingWrites(db: Db, e: Entry<Row>)
    requires Ascending(db.stands) && e in db.stands
    ensures Writes(db, State, e.id, With(e.row, State, StandState(e.row)))
  {
  }

  lemma StillWithin(t: Rows, id: nat, r: Row, rest: Rows)
    requires Within(rest, t) && !Has(rest, id)
    ensures Within(rest, Replaced(t, id, r))
  {
    forall j | 0 <= j < |rest| ensures rest[j] in Replaced(t, id, r) {
      var i :| 0 <= i < |t| && t[i] == rest[j];
      assert Replaced(t, id, r)[i] == t[i];
    }
  }

  lemma {:induction false} DeriveFrame(db: Db, rows: Rows)
    requires Ascending(db.stands)
    ensures var now := DeriveEach(db, rows);
      now == db.(stands := now.stands, index := now.index) && SameIds(now.stands, db.stands) && Ascending(now.stands)
    decreases |rows|
  {
    if rows != [] {
      var e := rows[0];
      var r := With(e.row, State, StandState(e.row));
      ReplacedAscends(db.stands, e.id, r);
      DeriveFrame(SaveStep(db, State, e.id, r), rows[1..]);
    }
  }

  lemma DeriveOneKeeps(db: Db, rows: Rows, g: Field, reached: iset<nat>)
    requires Ascending(db.stands) && Ascending(rows) && Within(rows, db.stands) && FieldInv(db, g, reached) && rows != []
    ensures var now := SaveStep(db, State, rows[0].id, With(rows[0].row, State, StandState(rows[0].row)));
      && Ascending(now.stands) && Within(rows[1..], now.stands)
      && FieldInv(now, g, if g == State then reached + iset{rows[0].id} else reached)
  {
    var e, rest := rows[0], rows[1..];
    var r := With(e.row, State, StandState(e.row));
    DerivingWrites(db, e);
    SaveKeepsField(db, State, e.id, r, g, reached);
    ReplacedAscends(db.stands, e.id, r);
    assert !Has(rest, e.id);
    StillWithin(db.stands, e.id, r, rest);
  }

  lemma {:induction false} DeriveKeeps(db: Db, rows: Rows, g: Field, reached: iset<nat>)
    requires Ascending(db.stands) && Ascending(rows) && Within(rows, db.stands) && FieldInv(db, g, reached)
    ensures FieldInv(DeriveEach(db, rows), g, if g == State then reached + Ids(rows) else reached)
    decreases |rows|
  {
    if rows == [] {
      assert Ids(rows) == iset{};
    } else {
      var e, rest := rows[0], rows[1..];
      DeriveOneKeeps(db, rows, g, reached);
      var reached1 := if g == State then reached + iset{e.id} else reached;
      DeriveKeeps(SaveStep(db, State, e.id, With(e.row, State, StandState(e.row))), rest, g, reached1);
      IdsSplit(rows);
      assert reached + iset{e.id} + Ids(rest) == reached + Ids(rows);
    }
  }

  lemma IdsSplit(rows: Rows)
    requires rows != []
    ensures Ids(rows) == iset{rows[0].id} + Ids(rows[1..])
  {
    forall id: nat ensures Has(rows, id) <==> id == rows[0].id || Has(rows[1..], id) {
      if Has(rows, id) && id != rows[0].id {
        var j :| 0 <= j < |rows| && rows[j].id == id;
        assert rows[1..][j - 1].id == id;
      }
      if Has(rows[1..], id) {
        var j :| 0 <= j < |rows[1..]| && rows[1..][j].id == id;
        assert rows[j + 1].id == id;
      }
    }
  }

  lemma FiledRight(rows: Rows, index: set<Key>, f: Field, got: Rows, reached: iset<nat>)
    requires Ascending(rows) && Right(rows, index, f, reached) && Within(got, rows)
    requires forall j :: 0 <= j < |got| ==> Derived(got[j].row, f) == Stored(got[j].row, f)
    ensures Right(rows, Filed(index, f, got), f, reached + Ids(got))
  {
    var later := Filed(index, f, got);
    forall i | 0 <= i < |rows|
      ensures Honest(rows[i], later, f) && (rows[i].id in reached + Ids(got) ==> Caught(rows[i], later, f))
    {
      assert Honest(rows[i], index, f);
      forall e <- got | e.id == rows[i].id ensures e == rows[i] { var j :| 0 <= j < |rows| && rows[j] == e; }
      if Has(got, rows[i].id) {
        var j :| 0 <= j < |got| && got[j].id == rows[i].id;
        assert got[j] == rows[i];
      }
    }
  }

  /** A page holds every row from its start up to where the next one begins. */
  lemma PageCovers(t: Rows, start: nat, count: int, k: nat)
    requires Ascending(t) && k < |t| && t[k].id >= start
    requires Page(t, start, count).1.Some? ==> t[k].id < Page(t, start, count).1.value
    ensures Has(Page(t, start, count).0, t[k].id)
  {
    var j := FromHas(t, start, k);
    var rest := From(t, start);
    FromAscends(t, start);
    if |rest| >= Clamp(count) {
      var n, _ := FullPage(t, start, count);
      assert rest[..n][j].id == t[k].id;
    } else {
      ShortPage(t, start, count);
      assert rest[j].id == t[k].id;
    }
  }

  lemma PageWithin(t: Rows, start: nat, count: int)
    ensures Within(Page(t, start, count).0, t)
  {
    var got := Page(t, start, count).0;
    forall j | 0 <= j < |got| ensures got[j] in t {
      assert got[j] == From(t, start)[j];
      FromMembers(t, start, j);
    }
  }

  lemma PageAscends(t: Rows, start: nat, count: int)
    requires Ascending(t)
    ensures Ascending(Page(t, start, count).0)
  {
    FromAscends(t, start);
  }

  lemma {:induction false} FromSameIds(a: Rows, b: Rows, start: nat)
    requires SameIds(a, b)
    ensures SameIds(From(a, start), From(b, start))
  {
    if a != [] {
      assert SameIds(a[1..], b[1..]);
      FromSameIds(a[1..], b[1..], start);
    }
  }

  lemma PageSameIds(a: Rows, b: Rows, start: nat, count: int)
    requires SameIds(a, b)
    ensures SameIds(Page(a, start, count).0, Page(b, start, count).0)
    ensures Page(a, start, count).1 == Page(b, start, count).1
  {
    FromSameIds(a, b, start);
  }

  lemma RightFor(rows: Rows, index: set<Key>, f: Field, reached: iset<nat>, less: iset<nat>)
    requires Right(rows, index, f, reached)
    requires forall i :: 0 <= i < |rows| && rows[i].id in less ==> rows[i].id in reached
    ensures Right(rows, index, f, less)
  {
  }

  ghost predicate BatchDerived(db: Db, f: Field) {
    forall i :: 0 <= i < |Batch(db, f)| ==> Derived(Batch(db, f)[i].row, f) == Stored(Batch(db, f)[i].row, f)
  }

  lemma RebuildKeepsField(db: Db, f: Field, g: Field, reached: iset<nat>)
    requires Ascending(db.Of(TableOf(f))) && FieldInv(db, g, reached) && (f == g ==> BatchDerived(db, f))
    ensures FieldInv(RebuildStep(db, f), g, if g == f then reached + Ids(Batch(db, f)) else reached)
  {
    var rows, got := db.Of(TableOf(f)), Batch(db, f);
    PageWithin(rows, Start(db), PAGE);
    if g == f {
      FiledRight(rows, db.index, f, got, reached);
    } else {
      assert SameKeys(db.index, Filed(db.index, f, got), g);
      RightCarries(db.Of(TableOf(g)), db.Of(TableOf(g)), db.index, Filed(db.index, f, got), g, reached);
    }
  }

  lemma PreparedAscends(db: Db, f: Field)
    requires AllAscend(db)
    ensures AllAscend(Prepared(db, f)) && SameIds(Prepared(db, f).stands, db.stands)
  {
    assert Ascending(db.Of(Stands));
    DeriveFrame(db, Batch(db, f));
    StandsAscend(db, Prepared(db, f));
  }

  lemma StandsAscend(db: Db, now: Db)
    requires AllAscend(db) && now == db.(stands := now.stands, index := now.index) && Ascending(now.stands)
    ensures AllAscend(now)
  {
    forall t: Table ensures Ascending(now.Of(t)) {
      assert t != Stands ==> now.Of(t) == db.Of(t);
      assert Ascending(db.Of(t));
    }
  }

  lemma PreparedFrame(db: Db, f: Field)
    requires AllAscend(db)
    ensures var now := Prepared(db, f);
      now == db.(stands := now.stands, index := now.index) && SameIds(now.stands, db.stands) && AllAscend(now)
  {
    assert Ascending(db.Of(Stands));
    DeriveFrame(db, Batch(db, f));
    PreparedAscends(db, f);
  }

  lemma PreparedKeepsField(db: Db, f: Field, g: Field, reached: iset<nat>)
    requires AllAscend(db) && FieldInv(db, g, reached)
    ensures FieldInv(Prepared(db, f), g, if g == f == State then reached + Ids(Batch(db, f)) else reached)
  {
    assert Ascending(db.Of(Stands));
    if f == State {
      PageWithin(db.stands, Start(db), PAGE);
      PageAscends(db.stands, Start(db), PAGE);
      DeriveKeeps(db, Batch(db, f), g, reached);
    }
  }

  lemma BatchRowCaught(now: Db, batch: Rows, e: Entry<Row>, reached: iset<nat>)
    requires FieldInv(now, State, reached + Ids(batch)) && e in now.stands && Has(batch, e.id)
    ensures Caught(e, now.index, State)
  {
    var i :| 0 <= i < |now.stands| && now.stands[i] == e;
    assert now.stands[i].id in reached + Ids(batch);
  }

  /** Every row of the batch now stores its derived value. */
  lemma PreparedIsDerived(db: Db, f: Field, reached: iset<nat>)
    requires AllAscend(db) && FieldInv(db, f, reached)
    ensures BatchDerived(Prepared(db, f), f)
  {
    if f == State {
      var now := Prepared(db, f);
      PreparedFrame(db, f);
      PreparedKeepsField(db, f, f, reached);
      PageSameIds(now.stands, db.stands, Start(db), PAGE);
      PageWithin(now.stands, Start(db), PAGE);
      forall j | 0 <= j < |Batch(now, f)|
        ensures Derived(Batch(now, f)[j].row, f) == Stored(Batch(now, f)[j].row, f)
      {
        assert Batch(db, f)[j].id == Batch(now, f)[j].id;
        BatchRowCaught(now, Batch(db, f), Batch(now, f)[j], reached);
      }
    }
  }

  lemma LessReached(db: Db, f: Field, reached: iset<nat>, less: iset<nat>)
    requires FieldInv(db, f, reached) && less <= reached
    ensures FieldInv(db, f, less)
  {
  }

  lemma StepPasses(db: Db, f: Field, g: Field, reached: iset<nat>)
    requires AllAscend(db) && FieldInv(db, f, iset{}) && FieldInv(db, g, reached)
    ensures FieldInv(RebuildStep(Prepared(db, f), f), g, if g == f then reached + Ids(Batch(Prepared(db, f), f)) else reached)
  {
    var now := Prepared(db, f);
    PreparedFrame(db, f);
    PreparedKeepsField(db, f, g, reached);
    if g == f == State { LessReached(now, g, reached + Ids(Batch(db, f)), reached); }
    if g == f { PreparedIsDerived(db, f, reached); }
    RebuildKeepsField(now, f, g, reached);
  }

  /** What counts as passed after a batch was passed before it, or was in it. */
  lemma PassedGrows(db: Db, now: Db, g: Field, i: nat)
    requires AllAscend(now) && db.indexes < |INDEXES| && i < |now.Of(TableOf(g))|
    requires now.indexes == db.indexes && now.from == db.from
    requires HasPassed(RebuildStep(now, INDEXES[db.indexes]), g, now.Of(TableOf(g))[i].id)
    ensures var id := now.Of(TableOf(g))[i].id; HasPassed(db, g, id) || (g == INDEXES[db.indexes] && Has(Batch(now, g), id))
  {
    var rows := now.Of(TableOf(g));
    assert Ascending(rows);
    assert INDEXES[Pos(g)] == g;
    if g == INDEXES[db.indexes] {
      assert Pos(g) == db.indexes;
      if rows[i].id >= Start(db) { PageCovers(rows, Start(db), PAGE, i); }
    }
  }

  lemma StepReaches(db: Db, g: Field, reached: iset<nat>)
    requires Inv(db) && db.indexes < |INDEXES|
    requires var f := INDEXES[db.indexes]; reached == if g == f then Passed(db, g) + Ids(Batch(Prepared(db, f), f)) else Passed(db, g)
    requires FieldInv(ReindexStep(db), g, reached)
    ensures FieldInv(ReindexStep(db), g, Passed(ReindexStep(db), g))
  {
    var f, after := INDEXES[db.indexes], ReindexStep(db);
    var now, rows := Prepared(db, f), after.Of(TableOf(g));
    PreparedFrame(db, f);
    assert rows == now.Of(TableOf(g));
    forall i: nat | i < |rows| && rows[i].id in Passed(after, g) ensures rows[i].id in reached { PassedGrows(db, now, g, i); }
    RightFor(rows, after.index, g, reached, Passed(after, g));
  }

  lemma ReindexKeepsField(db: Db, g: Field)
    requires Inv(db) && db.indexes < |INDEXES|
    ensures FieldInv(ReindexStep(db), g, Passed(ReindexStep(db), g))
  {
    var f := INDEXES[db.indexes];
    assert FieldInv(db, f, Passed(db, f)) && FieldInv(db, g, Passed(db, g));
    LessReached(db, f, Passed(db, f), iset{});
    StepPasses(db, f, g, Passed(db, g));
    StepReaches(db, g, if g == f then Passed(db, g) + Ids(Batch(Prepared(db, f), f)) else Passed(db, g));
  }

  lemma ReindexKeepsOrder(db: Db)
    requires AllAscend(db)
    ensures AllAscend(ReindexStep(db))
  {
    if db.indexes < |INDEXES| {
      var now, after := Prepared(db, INDEXES[db.indexes]), ReindexStep(db);
      PreparedFrame(db, INDEXES[db.indexes]);
      forall t: Table ensures Ascending(after.Of(t)) { assert after.Of(t) == now.Of(t) && Ascending(now.Of(t)); }
    }
  }

  lemma ReindexKeepsInv(db: Db)
    requires Inv(db)
    ensures Inv(ReindexStep(db))
  {
    ReindexKeepsOrder(db);
    if db.indexes < |INDEXES| {
      forall g: Field ensures FieldInv(ReindexStep(db), g, Passed(ReindexStep(db), g)) { ReindexKeepsField(db, g); }
      assert AllFields(ReindexStep(db));
    }
  }

  // ---------- runs ----------

  datatype Event =
    | Create(table: Table, id: nat, row: Row)
    | Delete(table: Table, at: nat)
    | SetField(field: Field, at: nat, value: Option<string>)
    | SetBuild(at: nat, built: nat, error: string)
    | Reindex

  ghost predicate Valid(db: Db, e: Event) {
    match e
    case Create(t, id, r) => Fresh(db, t, id) && Creates(t, r)
    case Delete(t, k) => k < |db.Of(t)|
    case SetField(f, k, _) => f != State && k < |db.Of(TableOf(f))|
    case SetBuild(k, _, _) => k < |db.stands|
    case Reindex => true
  }

  ghost function Apply(db: Db, e: Event): Db
    requires Valid(db, e)
  {
    match e
    case Create(t, id, r) => CreateStep(db, t, id, r)
    case Delete(t, k) => DeleteStep(db, t, k)
    case SetField(f, k, v) => var row := db.Of(TableOf(f))[k]; SaveStep(db, f, row.id, With(row.row, f, v))
    case SetBuild(k, at, error) => SaveStep(db, State, db.stands[k].id, Built(db.stands[k].row, at, error))
    case Reindex => ReindexStep(db)
  }

  lemma FieldWrites(db: Db, f: Field, k: nat, v: Option<string>)
    requires AllAscend(db) && f != State && k < |db.Of(TableOf(f))|
    ensures Writes(db, f, db.Of(TableOf(f))[k].id, With(db.Of(TableOf(f))[k].row, f, v))
  {
    assert Ascending(db.Of(TableOf(f)));
  }

  lemma BuildWrites(db: Db, k: nat, at: nat, error: string)
    requires AllAscend(db) && k < |db.stands|
    ensures Writes(db, State, db.stands[k].id, Built(db.stands[k].row, at, error))
  {
    assert Ascending(db.Of(Stands));
  }

  lemma StepKeepsInv(db: Db, e: Event)
    requires Inv(db) && Valid(db, e)
    ensures Inv(Apply(db, e))
  {
    match e
    case Create(t, id, r) => CreateKeepsInv(db, t, id, r);
    case Delete(t, k) => DeleteKeepsInv(db, t, k);
    case SetField(f, k, v) =>
      FieldWrites(db, f, k, v);
      SaveKeepsInv(db, f, db.Of(TableOf(f))[k].id, With(db.Of(TableOf(f))[k].row, f, v));
    case SetBuild(k, at, error) =>
      BuildWrites(db, k, at, error);
      SaveKeepsInv(db, State, db.stands[k].id, Built(db.stands[k].row, at, error));
    case Reindex => ReindexKeepsInv(db);
  }

  ghost predicate ValidRun(db: Db, run: seq<Event>)
    decreases |run|
  {
    run == [] || (Valid(db, run[0]) && ValidRun(Apply(db, run[0]), run[1..]))
  }

  ghost function After(db: Db, run: seq<Event>): Db
    requires ValidRun(db, run)
    decreases |run|
  {
    if run == [] then db else After(Apply(db, run[0]), run[1..])
  }

  /** The database as an upgrade leaves it: rows from before the indexes, not listed and with no stored state. */
  ghost predicate Upgraded(db: Db) {
    db.index == {} && db.indexes == 0 && db.from == 0 && AllAscend(db)
  }

  lemma {:induction false} RunKeepsInv(db: Db, run: seq<Event>)
    requires Inv(db) && ValidRun(db, run)
    ensures Inv(After(db, run))
    decreases |run|
  {
    if run != [] {
      StepKeepsInv(db, run[0]);
      RunKeepsInv(Apply(db, run[0]), run[1..]);
    }
  }

  lemma UpgradedInv(db: Db)
    requires Upgraded(db)
    ensures Inv(db)
  {
    forall f: Field ensures FieldInv(db, f, Passed(db, f)) {}
  }

  /** At every stage of the backfill, whatever is written meanwhile, a lookup finds what a scan would. */
  lemma LookupsAgreeWithScans(db: Db, run: seq<Event>, f: Field, v: string)
    requires Upgraded(db) && ValidRun(db, run)
    ensures var now := After(db, run); Found(now, f, Some(v)) == Holding(now.Of(TableOf(f)), f, Some(v))
  {
    UpgradedInv(db);
    RunKeepsInv(db, run);
    FoundIsHolding(After(db, run), f, v);
  }

  /** A default is never listed: over any run from an upgrade on, a lookup of it finds nothing once its field's index
      is complete, where until then it found every row at the default. */
  lemma DefaultsAreNotListed(db: Db, run: seq<Event>, f: Field)
    requires Upgraded(db) && ValidRun(db, run)
    ensures var now := After(db, run); Found(now, f, None) == if Indexed(now, f) then [] else Holding(now.Of(TableOf(f)), f, None)
  {
    UpgradedInv(db);
    RunKeepsInv(db, run);
    var now := After(db, run);
    assert FieldInv(now, f, Passed(now, f));
    NoneIsListed(now.Of(TableOf(f)), now.index, f, Passed(now, f));
  }

  // ---------- what a lookup answers ----------

  /** A row whose field has this value; a stand's state is what its build fields say, whatever is stored. */
  ghost predicate HasValue(r: Row, f: Field, v: Option<string>) {
    match f
    case State => v == if r.builtAt > 0 then None else if r.buildError != "" then Some("failed") else Some("pending")
    case _ => if f in r.values then v == Some(r.values[f]) else v == None
  }

  ghost predicate AreTheRows(found: Rows, rows: Rows, f: Field, v: Option<string>) {
    IsFilter(found, rows, (e: Entry<Row>) => HasValue(e.row, f, v), (e: Entry<Row>) => e)
  }

  lemma HoldingNext(rows: Rows, f: Field, v: Option<string>)
    requires rows != []
    ensures Holding(rows, f, v) == if HasValue(rows[0].row, f, v) then [rows[0]] + Holding(rows[1..], f, v) else Holding(rows[1..], f, v)
  {
    assert Derived(rows[0].row, f) == v <==> HasValue(rows[0].row, f, v);
    assert [] + Holding(rows[1..], f, v) == Holding(rows[1..], f, v);
  }

  lemma AreTheRowsNext(found: Rows, rows: Rows, f: Field, v: Option<string>)
    requires rows != [] && AreTheRows(found, rows[1..], f, v)
    ensures AreTheRows(if HasValue(rows[0].row, f, v) then [rows[0]] + found else found, rows, f, v)
  {
    FilterNext(found, rows, (e: Entry<Row>) => HasValue(e.row, f, v), (e: Entry<Row>) => e);
  }

  lemma {:induction false} HoldingIsFilter(rows: Rows, f: Field, v: Option<string>)
    ensures AreTheRows(Holding(rows, f, v), rows, f, v)
  {
    if rows == [] {
      FilterNone((e: Entry<Row>) => HasValue(e.row, f, v), (e: Entry<Row>) => e);
    } else {
      HoldingIsFilter(rows[1..], f, v);
      AreTheRowsNext(Holding(rows[1..], f, v), rows, f, v);
      HoldingNext(rows, f, v);
    }
  }

  /** A field's index is used once the backfill has come past it, and not before. */
  lemma IndexedIff(db: Db, f: Field)
    ensures Indexed(db, f) <==> Pos(f) < db.indexes
  {
    if Pos(f) < db.indexes { assert INDEXES[Pos(f)] == f; }
  }

  /** Over any run from an upgrade on, a lookup answers with exactly the rows of the value, in id order, the first of them
      where it is limited. */
  lemma LookupAnswers(db: Db, run: seq<Event>, f: Field, v: string, limit: nat) returns (all: Rows)
    requires Upgraded(db) && ValidRun(db, run)
    ensures AreTheRows(all, After(db, run).Of(TableOf(f)), f, Some(v))
    ensures Limited(Found(After(db, run), f, Some(v)), limit) == if limit == 0 || |all| <= limit then all else all[..limit]
  {
    var now := After(db, run);
    LookupsAgreeWithScans(db, run, f, v);
    all := Holding(now.Of(TableOf(f)), f, Some(v));
    HoldingIsFilter(now.Of(TableOf(f)), f, Some(v));
  }

  /** A lookup of a default, until the field's index is complete and after. */
  lemma DefaultLookupAnswers(db: Db, run: seq<Event>, f: Field, limit: nat) returns (all: Rows)
    requires Upgraded(db) && ValidRun(db, run)
    ensures AreTheRows(all, After(db, run).Of(TableOf(f)), f, None)
    ensures Indexed(After(db, run), f) ==> Limited(Found(After(db, run), f, None), limit) == []
    ensures !Indexed(After(db, run), f) ==> Limited(Found(After(db, run), f, None), limit) == if limit == 0 || |all| <= limit then all else all[..limit]
  {
    var now := After(db, run);
    DefaultsAreNotListed(db, run, f);
    all := Holding(now.Of(TableOf(f)), f, None);
    HoldingIsFilter(now.Of(TableOf(f)), f, None);
  }

  /** A new row is the last, listed under its values; no other key changes. */
  lemma CreateLeaves(db: Db, t: Table, id: nat, r: Row, f: Field, v: Option<string>, i: nat)
    ensures var now := CreateStep(db, t, id, r);
      && now.Of(t) == db.Of(t) + [Entry(id, r)] && (forall u: Table :: u != t ==> now.Of(u) == db.Of(u))
      && (Key(f, v, i) in now.index <==> if i == id && TableOf(f) == t then v.Some? && f in r.values && v.value == r.values[f] else Key(f, v, i) in db.index)
  {
    assert INDEXES[Pos(f)] == f;
    ReindexedAllAt(db.index, INDEXES, t, id, r, Key(f, v, i));
  }

  /** A deleted row is gone, and so are its keys; no other row or key changes. */
  lemma DeleteLeaves(db: Db, t: Table, k: nat, key: Key)
    requires k < |db.Of(t)|
    ensures var now := DeleteStep(db, t, k);
      && now.Of(t) == db.Of(t)[..k] + db.Of(t)[k + 1..] && (forall u: Table :: u != t ==> now.Of(u) == db.Of(u))
      && (key in now.index <==> key in db.index && !(TableOf(key.field) == t && key.id == db.Of(t)[k].id))
  {
  }

  // ---------- the backfill ends ----------

  /** How many batches are left: each index takes its full pages and one more. */
  function BatchesFrom(db: Db, k: nat): nat
    decreases |INDEXES| - k
  {
    if k >= |INDEXES| then 0 else |db.Of(TableOf(INDEXES[k]))| / PAGE + 1 + BatchesFrom(db, k + 1)
  }

  function BatchesLeft(db: Db): nat {
    if db.indexes >= |INDEXES| then 0
    else |From(db.Of(TableOf(INDEXES[db.indexes])), Start(db))| / PAGE + 1 + BatchesFrom(db, db.indexes + 1)
  }

  lemma {:induction false} BatchesSame(a: Db, b: Db, k: nat)
    requires forall t: Table :: |a.Of(t)| == |b.Of(t)|
    ensures BatchesFrom(a, k) == BatchesFrom(b, k)
    decreases |INDEXES| - k
  {
    if k < |INDEXES| { BatchesSame(a, b, k + 1); }
  }

  lemma PreparedSameIds(db: Db, f: Field, t: Table)
    requires AllAscend(db)
    ensures SameIds(Prepared(db, f).Of(t), db.Of(t))
  {
    PreparedFrame(db, f);
  }

  lemma RowsShrink(rows: Rows, start: nat)
    requires Ascending(rows) && Page(rows, start, PAGE).1.Some?
    ensures Page(rows, start, PAGE).1.value > start
    ensures |From(rows, start)| >= PAGE && |From(rows, Page(rows, start, PAGE).1.value)| == |From(rows, start)| - PAGE
  {
    PageShrinks(rows, start, PAGE);
    PageAdvances(rows, start, PAGE);
  }

  lemma OnePageLess(n: nat, m: nat)
    requires n >= PAGE && m == n - PAGE
    ensures m / PAGE + 1 == n / PAGE
  {
  }

  lemma LeftNow(db: Db, rows: Rows)
    requires db.indexes < |INDEXES| && rows == db.Of(TableOf(INDEXES[db.indexes]))
    ensures BatchesLeft(db) == |From(rows, Start(db))| / PAGE + 1 + BatchesFrom(db, db.indexes + 1)
  {
  }

  lemma FromOne(rows: Rows)
    requires Ascending(rows)
    ensures From(rows, 1) == rows
  {
    FromAll(rows, 1);
  }

  lemma BatchesFromNext(db: Db, k: nat, rows: Rows)
    requires k < |INDEXES| && rows == db.Of(TableOf(INDEXES[k]))
    ensures BatchesFrom(db, k) == |rows| / PAGE + 1 + BatchesFrom(db, k + 1)
  {
  }

  /** An index whose turn has just come has its whole table to read. */
  lemma LeftAtTurn(db: Db)
    requires AllAscend(db) && db.from == 1
    ensures BatchesLeft(db) == BatchesFrom(db, db.indexes)
  {
    if db.indexes < |INDEXES| {
      var rows := db.Of(TableOf(INDEXES[db.indexes]));
      assert Ascending(rows);
      FromOne(rows);
      LeftNow(db, rows);
      BatchesFromNext(db, db.indexes, rows);
    }
  }

  lemma RebuildFrame(db: Db, f: Field, t: Table)
    ensures RebuildStep(db, f).Of(t) == db.Of(t)
  {
  }

  lemma RebuildAscends(db: Db, f: Field)
    requires AllAscend(db)
    ensures AllAscend(RebuildStep(db, f))
  {
    forall t: Table ensures Ascending(RebuildStep(db, f).Of(t)) {
      RebuildFrame(db, f, t);
      assert Ascending(db.Of(t));
    }
  }

  lemma OneBatchOn(db: Db, after: Db, rows: Rows)
    requires db.indexes < |INDEXES| && after.indexes == db.indexes && rows == db.Of(TableOf(INDEXES[db.indexes]))
    requires forall t: Table :: after.Of(t) == db.Of(t)
    requires |From(rows, Start(db))| >= PAGE && |From(rows, Start(after))| == |From(rows, Start(db))| - PAGE
    ensures BatchesLeft(after) == BatchesLeft(db) - 1
  {
    BatchesSame(db, after, db.indexes + 1);
    LeftNow(db, rows);
    LeftNow(after, rows);
    OnePageLess(|From(rows, Start(db))|, |From(rows, Start(after))|);
  }

  lemma FullBatchCounts(db: Db, f: Field)
    requires AllAscend(db) && db.indexes < |INDEXES| && INDEXES[db.indexes] == f
    requires Page(db.Of(TableOf(f)), Start(db), PAGE).1.Some?
    ensures BatchesLeft(RebuildStep(db, f)) == BatchesLeft(db) - 1
  {
    var rows := db.Of(TableOf(f));
    assert Ascending(rows);
    RowsShrink(rows, Start(db));
    forall t: Table { RebuildFrame(db, f, t); }
    OneBatchOn(db, RebuildStep(db, f), rows);
  }

  lemma NoneOnLastPage(rows: Rows, start: nat)
    requires Page(rows, start, PAGE).1.None?
    ensures |From(rows, start)| / PAGE == 0
  {
  }

  lemma LastBatchCounts(db: Db, f: Field)
    requires AllAscend(db) && db.indexes < |INDEXES| && INDEXES[db.indexes] == f
    requires Page(db.Of(TableOf(f)), Start(db), PAGE).1.None?
    ensures BatchesLeft(RebuildStep(db, f)) == BatchesLeft(db) - 1
  {
    var after := RebuildStep(db, f);
    forall t: Table { RebuildFrame(db, f, t); }
    BatchesSame(db, after, after.indexes);
    LeftNow(db, db.Of(TableOf(f)));
    NoneOnLastPage(db.Of(TableOf(f)), Start(db));
    RebuildAscends(db, f);
    LeftAtTurn(after);
  }

  lemma RebuildCountsDown(db: Db)
    requires AllAscend(db) && db.indexes < |INDEXES|
    ensures BatchesLeft(RebuildStep(db, INDEXES[db.indexes])) == BatchesLeft(db) - 1
  {
    var f := INDEXES[db.indexes];
    if Page(db.Of(TableOf(f)), Start(db), PAGE).1.Some? { FullBatchCounts(db, f); } else { LastBatchCounts(db, f); }
  }

  lemma SameIdsLeft(a: Db, b: Db)
    requires a.indexes == b.indexes && a.from == b.from && forall t: Table :: SameIds(a.Of(t), b.Of(t))
    ensures BatchesLeft(a) == BatchesLeft(b)
  {
    forall t: Table ensures |a.Of(t)| == |b.Of(t)| { assert SameIds(a.Of(t), b.Of(t)); }
    BatchesSame(a, b, a.indexes + 1);
    if a.indexes < |INDEXES| {
      var t := TableOf(INDEXES[a.indexes]);
      FromSameIds(a.Of(t), b.Of(t), Start(a));
      LeftNow(a, a.Of(t));
      LeftNow(b, b.Of(t));
    }
  }

  lemma PreparedCountsSame(db: Db, f: Field)
    requires AllAscend(db)
    ensures BatchesLeft(Prepared(db, f)) == BatchesLeft(db)
  {
    PreparedFrame(db, f);
    forall t: Table { PreparedSameIds(db, f, t); }
    SameIdsLeft(Prepared(db, f), db);
  }

  /** Every batch brings the end exactly one batch nearer. */
  lemma BatchCountsDown(db: Db)
    requires Inv(db) && db.indexes < |INDEXES|
    ensures BatchesLeft(ReindexStep(db)) == BatchesLeft(db) - 1
  {
    var f := INDEXES[db.indexes];
    PreparedFrame(db, f);
    PreparedCountsSame(db, f);
    RebuildCountsDown(Prepared(db, f));
  }

  lemma OneMoreBatch(db: Db)
    requires Inv(db) && BatchesLeft(db) > 0
    ensures Inv(ReindexStep(db)) && BatchesLeft(ReindexStep(db)) == BatchesLeft(db) - 1
  {
    assert db.indexes < |INDEXES|;
    BatchCountsDown(db);
    ReindexKeepsInv(db);
  }

  function Steps<S>(s: S, step: S -> S, n: nat): S
    decreases n
  {
    if n == 0 then s else Steps(step(s), step, n - 1)
  }

  lemma {:induction false} CountsDown<S(!new)>(s: S, step: S -> S, left: S -> nat, inv: S -> bool, n: nat)
    requires inv(s) && n <= left(s)
    requires forall x: S :: inv(x) && left(x) > 0 ==> inv(step(x)) && left(step(x)) == left(x) - 1
    ensures inv(Steps(s, step, n)) && left(Steps(s, step, n)) == left(s) - n
    decreases n
  {
    if n > 0 { CountsDown(step(s), step, left, inv, n - 1); }
  }

  /** The backfill, left alone, is complete after exactly that many batches and not before. */
  lemma BackfillEnds(db: Db, n: nat)
    requires Inv(db) && n <= BatchesLeft(db)
    ensures Inv(Steps(db, ReindexStep, n))
    ensures Steps(db, ReindexStep, n).indexes >= |INDEXES| <==> n == BatchesLeft(db)
  {
    var inv := x => Inv(x);
    forall x: Db | inv(x) && BatchesLeft(x) > 0 ensures inv(ReindexStep(x)) && BatchesLeft(ReindexStep(x)) == BatchesLeft(x) - 1 { OneMoreBatch(x); }
    CountsDown(db, ReindexStep, BatchesLeft, inv, n);
    LeftNoneIff(Steps(db, ReindexStep, n));
  }

  lemma LeftNoneIff(db: Db)
    ensures db.indexes >= |INDEXES| <==> BatchesLeft(db) == 0
  {
  }
}
