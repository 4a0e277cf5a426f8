/** Incremental replay: however the syncs fall between the baton's actions, the stand ends as one replay of
    the completed actions, by the time they were proposed, would leave it. */
module BatonRuns {
  import opened Options
  import opened Order
  import opened Batons

  /** By time, and every time is known. */
  ghost predicate Ascending(log: seq<Action>) {
    ByTime(log) && forall a <- log :: a.at > 0
  }

  /** The completed actions as one sync from the start replays them: by the time they were proposed, and of those of
      one time the latest first, as the list that is sorted has them. */
  function Replayed(log: seq<Action>): seq<Action> {
    SortedByTime(Done(Reversed(log)))
  }

  // ---------- sorting and filtering ----------

  ghost predicate ByTime(log: seq<Action>) {
    forall i, j :: 0 <= i < j < |log| ==> log[i].at <= log[j].at
  }

  lemma {:induction false} InsertMembers(a: Action, sorted: seq<Action>)
    ensures forall x :: x in Insert(a, sorted) <==> x == a || x in sorted
  {
    if sorted != [] && a.at > sorted[0].at {
      InsertMembers(a, sorted[1..]);
      assert forall x :: x in sorted <==> x == sorted[0] || x in sorted[1..];
    }
  }

  lemma {:induction false} InsertSorted(a: Action, sorted: seq<Action>)
    requires ByTime(sorted)
    ensures ByTime(Insert(a, sorted))
  {
    if sorted != [] && a.at > sorted[0].at {
      var rest := Insert(a, sorted[1..]);
      InsertSorted(a, sorted[1..]);
      InsertMembers(a, sorted[1..]);
      forall i | 0 <= i < |rest| ensures sorted[0].at <= rest[i].at { assert rest[i] in rest; }
    }
  }

  lemma {:induction false} SortFacts(log: seq<Action>)
    ensures ByTime(SortedByTime(log)) && forall x :: x in SortedByTime(log) <==> x in log
  {
    if log != [] {
      SortFacts(log[1..]);
      InsertSorted(log[0], SortedByTime(log[1..]));
      InsertMembers(log[0], SortedByTime(log[1..]));
      assert forall x :: x in log <==> x == log[0] || x in log[1..];
    }
  }

  lemma {:induction false} InsertNewer(a: Action, sorted: seq<Action>, since: nat)
    requires ByTime(sorted)
    ensures Newer(Insert(a, sorted), since) == if a.at > since then Insert(a, Newer(sorted, since)) else Newer(sorted, since)
  {
    if sorted != [] && a.at > sorted[0].at {
      InsertNewer(a, sorted[1..], since);
      assert Insert(a, sorted)[1..] == Insert(a, sorted[1..]);
    } else {
      assert ([a] + sorted)[1..] == sorted;
      if a.at > since && sorted != [] { NewerFirst(sorted, since); }
    }
  }

  lemma NewerFirst(sorted: seq<Action>, since: nat)
    requires sorted != [] && sorted[0].at > since
    ensures Newer(sorted, since) != [] && Newer(sorted, since)[0] == sorted[0]
  {
  }

  /** The sort keeps the order of what a filter by time leaves. */
  lemma {:induction false} SortNewer(log: seq<Action>, since: nat)
    ensures SortedByTime(Newer(log, since)) == Newer(SortedByTime(log), since)
  {
    if log != [] {
      SortNewer(log[1..], since);
      SortFacts(log[1..]);
      InsertNewer(log[0], SortedByTime(log[1..]), since);
    }
  }

  lemma {:induction false} FiltersCommute(log: seq<Action>, since: nat)
    ensures Done(Newer(log, since)) == Newer(Done(log), since)
  {
    if log != [] { FiltersCommute(log[1..], since); }
  }

  lemma {:induction false} ReversedMembers(log: seq<Action>)
    ensures forall x :: x in Reversed(log) <==> x in log
  {
    if log != [] {
      ReversedMembers(log[1..]);
      assert forall x :: x in log <==> x == log[0] || x in log[1..];
    }
  }

  lemma {:induction false} DoneMembers(log: seq<Action>)
    ensures forall x :: x in Done(log) <==> x in log && x.complete
  {
    if log != [] {
      DoneMembers(log[1..]);
      assert forall x :: x in log <==> x == log[0] || x in log[1..];
    }
  }

  /** Exactly what is complete, by time. */
  lemma ReplayedFacts(log: seq<Action>)
    requires forall a <- log :: a.at > 0
    ensures Ascending(Replayed(log)) && forall x :: x in Replayed(log) <==> x in log && x.complete
  {
    ReversedMembers(log);
    DoneMembers(Reversed(log));
    SortFacts(Done(Reversed(log)));
  }

  // ---------- one sync ----------

  /** What a sync does, told on the log itself: follow the version, then replay what completed after the cursor,
      by the time it was proposed. */
  lemma SyncReplaysNewer(st: Stand, catalog: Catalog, baton: string, version: string, log: seq<Action>)
    ensures SyncStep(st, catalog, baton, version, Newer(Reversed(log), st.synced)) ==
      ReplayAll(FollowVersion(st, catalog, baton, version), catalog, Newer(Replayed(log), st.synced))
  {
    FiltersCommute(Reversed(log), st.synced);
    SortNewer(Done(Reversed(log)), st.synced);
  }

  /** A sync of the baton's log, whichever way the pages split it. */
  function Sync(st: Stand, catalog: Catalog, baton: string, version: string, log: seq<Action>): Stand {
    SyncStep(st, catalog, baton, version, Newer(Reversed(log), st.synced))
  }

  lemma {:induction false} ReplayAppend(st: Stand, catalog: Catalog, a: seq<Action>, b: seq<Action>)
    ensures ReplayAll(st, catalog, a + b) == ReplayAll(ReplayAll(st, catalog, a), catalog, b)
    decreases |a|
  {
    if a == [] {
      assert a + b == b;
    } else {
      assert (a + b)[1..] == a[1..] + b;
      ReplayAppend(Replay(st, catalog, a[0]), catalog, a[1..], b);
    }
  }

  lemma {:induction false} FollowKeepsCursor(st: Stand, catalog: Catalog, ts: seq<Target>, clears: bool)
    ensures FollowAll(st, catalog, ts, clears).synced == st.synced
    decreases |ts|
  {
    if ts != [] {
      var next := Follow(st, catalog, ts[0]);
      FollowKeepsCursor(if clears && Moves(st, ts[0]) then next.(release := "") else next, catalog, ts[1..], clears);
    }
  }

  lemma {:induction false} ReplaySetsCursor(st: Stand, catalog: Catalog, done: seq<Action>)
    requires forall a <- done :: a.at > 0
    ensures ReplayAll(st, catalog, done).synced == if done == [] then st.synced else done[|done| - 1].at
    decreases |done|
  {
    if done != [] {
      assert done[0] in done;
      ReplaySetsCursor(Replay(st, catalog, done[0]), catalog, done[1..]);
    }
  }

  lemma {:induction false} NewerIsSuffix(done: seq<Action>, since: nat, k: nat)
    requires Ascending(done) && k <= |done|
    requires (k > 0 ==> done[k - 1].at <= since) && (k < |done| ==> since < done[k].at)
    ensures Newer(done, since) == done[k..]
  {
    if done != [] {
      assert Ascending(done[1..]) by { assert forall a <- done[1..] :: a in done; }
      if k > 0 {
        assert done[0].at <= done[k - 1].at;
        NewerIsSuffix(done[1..], since, k - 1);
        assert done[1..][k - 1..] == done[k..];
      } else {
        assert done[0].at > since && (|done| > 1 ==> done[0].at <= done[1].at);
        NewerIsSuffix(done[1..], since, 0);
      }
    }
  }

  // ---------- the baton's own row ----------

  /** No action names the baton's own canister. */
  ghost predicate SparesWork(work: Work, baton: string) {
    match work
    case Release(_, ms) => forall m <- ms :: m.id != baton
    case Upgrade(ts) => forall t <- ts :: t.id != baton
    case Restore(ts) => forall t <- ts :: t.id != baton
    case Otherwise => true
  }

  ghost predicate Spares(log: seq<Action>, baton: string) {
    forall a <- log :: SparesWork(a.work, baton)
  }

  lemma {:induction false} FollowCommutes(st: Stand, catalog: Catalog, ts: seq<Target>, clears: bool, baton: string, row: Row)
    requires baton in st.rows && forall t <- ts :: t.id != baton
    ensures var moved := st.(rows := st.rows[baton := row]); var end := FollowAll(st, catalog, ts, clears);
      && FollowAll(moved, catalog, ts, clears) == end.(rows := end.rows[baton := row])
      && baton in end.rows && end.rows[baton] == st.rows[baton]
    decreases |ts|
  {
    if ts != [] {
      var t, moved := ts[0], st.(rows := st.rows[baton := row]);
      var a, b := Follow(st, catalog, t), Follow(moved, catalog, t);
      assert t in ts;
      assert b == a.(rows := a.rows[baton := row]);
      var a' := if clears && Moves(st, t) then a.(release := "") else a;
      FollowCommutes(a', catalog, ts[1..], clears, baton, row);
    }
  }

  lemma {:induction false} ReleaseCommutes(st: Stand, among: set<string>, also: set<string>, ms: seq<Member>, baton: string, row: Row)
    requires baton in st.rows && (forall m <- ms :: m.id != baton) && among - {baton} == also - {baton}
    ensures var moved := st.(rows := st.rows[baton := row]); var end := ReleaseAll(st, among, ms);
      && ReleaseAll(moved, also, ms) == end.(rows := end.rows[baton := row])
      && baton in end.rows && end.rows[baton] == st.rows[baton] && end.release == st.release && end.synced == st.synced
    decreases |ms|
  {
    if ms != [] {
      var m, moved := ms[0], st.(rows := st.rows[baton := row]);
      assert m in ms && (m.id in among - {baton} <==> m.id in also - {baton});
      if m.id in among && m.id in st.rows {
        var r := st.rows[m.id];
        var w := if m.wasm.Some? then r.(wasm := m.wasm.value.key, wasmHash := m.wasm.value.sha) else r;
        var served := if m.bundle.Some? then w.(content := m.bundle.value.namespace, props := m.bundle.value.props) else w;
        assert moved.rows[m.id := served] == st.rows[m.id := served][baton := row];
        ReleaseCommutes(st.(rows := st.rows[m.id := served]), among, also, ms[1..], baton, row);
      } else {
        ReleaseCommutes(st, among, also, ms[1..], baton, row);
      }
    }
  }

  /** Replaying actions that spare the baton commutes with moving the baton's row. */
  lemma {:induction false} ReplayCommutes(st: Stand, catalog: Catalog, done: seq<Action>, baton: string, row: Row)
    requires baton in st.rows && Spares(done, baton)
    ensures var end := ReplayAll(st, catalog, done);
      && ReplayAll(st.(rows := st.rows[baton := row]), catalog, done) == end.(rows := end.rows[baton := row])
      && baton in end.rows && end.rows[baton] == st.rows[baton]
    decreases |done|
  {
    if done != [] {
      var a, moved := done[0], st.(rows := st.rows[baton := row]);
      assert a in done;
      match a.work {
        case Release(_, ms) => ReleaseCommutes(st, ReleaseMembers(st), ReleaseMembers(moved), ms, baton, row);
        case Upgrade(ts) => FollowCommutes(st, catalog, ts, true, baton, row);
        case Restore(ts) => FollowCommutes(st, catalog, ts, false, baton, row);
        case Otherwise =>
      }
      FollowKeepsRest(st, catalog, a.work);
      var next := Replay(st, catalog, a);
      assert Replay(moved, catalog, a) == next.(rows := next.rows[baton := row]);
      ReplayCommutes(next, catalog, done[1..], baton, row);
    }
  }

  lemma FollowKeepsRest(st: Stand, catalog: Catalog, work: Work)
    ensures work.Upgrade? ==> FollowAll(st, catalog, work.targets, true).synced == st.synced
    ensures work.Restore? ==> FollowAll(st, catalog, work.restored, false).synced == st.synced
  {
    match work {
      case Upgrade(ts) => FollowKeepsCursor(st, catalog, ts, true);
      case Restore(ts) => FollowKeepsCursor(st, catalog, ts, false);
      case _ =>
    }
  }

  lemma VersionCommutes(st: Stand, catalog: Catalog, done: seq<Action>, baton: string, version: string)
    requires Spares(done, baton)
    ensures ReplayAll(FollowVersion(st, catalog, baton, version), catalog, done) ==
            FollowVersion(ReplayAll(st, catalog, done), catalog, baton, version)
  {
    if baton in st.rows {
      var row := if BATON + version in catalog then st.rows[baton].(wasm := BATON + version, wasmHash := catalog[BATON + version]) else st.rows[baton];
      ReplayCommutes(st, catalog, done, baton, row);
    } else {
      ReplayAddsNoRow(st, catalog, done, baton);
    }
  }

  lemma {:induction false} ReplayAddsNoRow(st: Stand, catalog: Catalog, done: seq<Action>, id: string)
    requires id !in st.rows
    ensures id !in ReplayAll(st, catalog, done).rows
    decreases |done|
  {
    if done != [] {
      match done[0].work {
        case Release(_, ms) => ReleaseAddsNoRow(st, ReleaseMembers(st), ms, id);
        case Upgrade(ts) => FollowAddsNoRow(st, catalog, ts, true, id);
        case Restore(ts) => FollowAddsNoRow(st, catalog, ts, false, id);
        case Otherwise =>
      }
      ReplayAddsNoRow(Replay(st, catalog, done[0]), catalog, done[1..], id);
    }
  }

  lemma {:induction false} ReleaseAddsNoRow(st: Stand, among: set<string>, ms: seq<Member>, id: string)
    requires id !in st.rows
    ensures id !in ReleaseAll(st, among, ms).rows
    decreases |ms|
  {
    if ms != [] {
      if ms[0].id !in among || ms[0].id !in st.rows {
        ReleaseAddsNoRow(st, among, ms[1..], id);
      } else {
        var row := st.rows[ms[0].id];
        var moved := if ms[0].wasm.Some? then row.(wasm := ms[0].wasm.value.key, wasmHash := ms[0].wasm.value.sha) else row;
        var served := if ms[0].bundle.Some? then moved.(content := ms[0].bundle.value.namespace, props := ms[0].bundle.value.props) else moved;
        ReleaseAddsNoRow(st.(rows := st.rows[ms[0].id := served]), among, ms[1..], id);
      }
    }
  }

  lemma {:induction false} FollowAddsNoRow(st: Stand, catalog: Catalog, ts: seq<Target>, clears: bool, id: string)
    requires id !in st.rows
    ensures id !in FollowAll(st, catalog, ts, clears).rows
    decreases |ts|
  {
    if ts != [] {
      var next := Follow(st, catalog, ts[0]);
      FollowAddsNoRow(if clears && Moves(st, ts[0]) then next.(release := "") else next, catalog, ts[1..], clears, id);
    }
  }

  // ---------- many syncs ----------

  datatype Visit = Visit(version: string, log: seq<Action>)

  function Syncs(st: Stand, catalog: Catalog, baton: string, visits: seq<Visit>): Stand
    decreases |visits|
  {
    if visits == [] then st else Syncs(Sync(st, catalog, baton, visits[0].version, visits[0].log), catalog, baton, visits[1..])
  }

  function Versions(st: Stand, catalog: Catalog, baton: string, visits: seq<Visit>): Stand
    decreases |visits|
  {
    if visits == [] then st else Versions(FollowVersion(st, catalog, baton, visits[0].version), catalog, baton, visits[1..])
  }

  /** What was replayed is where the replay of the log begins, and what is left of it came later. */
  ghost predicate UpTo(before: seq<Action>, log: seq<Action>) {
    before <= Replayed(log) && (before != [] && |before| < |Replayed(log)| ==> before[|before| - 1].at < Replayed(log)[|before|].at)
  }

  /** Actions complete in the order they were proposed, and those of one time between the same two visits. `before` is
      what had been replayed by the last one. */
  ghost predicate InOrder(before: seq<Action>, visits: seq<Visit>, baton: string)
    decreases |visits|
  {
    visits == [] || (
      && Ascending(visits[0].log) && Spares(visits[0].log, baton) && UpTo(before, visits[0].log)
      && InOrder(Replayed(visits[0].log), visits[1..], baton))
  }

  function Last(before: seq<Action>, visits: seq<Visit>): seq<Action> {
    if visits == [] then before else Replayed(visits[|visits| - 1].log)
  }

  lemma LastOfRest(before: seq<Action>, visits: seq<Visit>)
    requires visits != []
    ensures Last(before, visits) == Last(Replayed(visits[0].log), visits[1..])
  {
  }

  lemma PrefixSpares(before: seq<Action>, log: seq<Action>, baton: string)
    requires Ascending(log) && Spares(log, baton) && before <= Replayed(log)
    ensures Spares(before, baton) && forall a <- before :: a.at > 0
  {
    ReplayedFacts(log);
    forall a <- before ensures a in log {
      var i :| 0 <= i < |before| && before[i] == a;
      assert Replayed(log)[i] == a && Replayed(log)[i] in Replayed(log);
    }
  }

  /** After replaying `before`, what is newer than the cursor is what is left of the log. */
  lemma LeftIsNewer(st: Stand, catalog: Catalog, before: seq<Action>, log: seq<Action>)
    requires Ascending(log) && UpTo(before, log) && st.synced == 0
    ensures Newer(Replayed(log), ReplayAll(st, catalog, before).synced) == Replayed(log)[|before|..]
  {
    var done, k := Replayed(log), |before|;
    ReplayedFacts(log);
    forall a <- before ensures a.at > 0 {
      var i :| 0 <= i < |before| && before[i] == a;
      assert done[i] == a && done[i] in done;
    }
    ReplaySetsCursor(st, catalog, before);
    if k > 0 { assert done[k - 1] == before[k - 1]; }
    if k < |done| { assert done[k] in done; }
    NewerIsSuffix(done, ReplayAll(st, catalog, before).synced, k);
  }

  /** A sync brings a stand that is up to date with `before` up to date with everything completed. */
  lemma SyncCatchesUp(st: Stand, catalog: Catalog, baton: string, version: string, before: seq<Action>, log: seq<Action>)
    requires Ascending(log) && Spares(log, baton) && UpTo(before, log) && st.synced == 0
    ensures var now := ReplayAll(st, catalog, before);
      Sync(now, catalog, baton, version, log) == ReplayAll(FollowVersion(st, catalog, baton, version), catalog, Replayed(log))
  {
    var now, done := ReplayAll(st, catalog, before), Replayed(log);
    LeftIsNewer(st, catalog, before, log);
    SyncReplaysNewer(now, catalog, baton, version, log);
    PrefixSpares(before, log, baton);
    VersionCommutes(st, catalog, before, baton, version);
    ReplayAppend(FollowVersion(st, catalog, baton, version), catalog, before, done[|before|..]);
    assert done == before + done[|before|..];
  }

  /** Any split into incremental syncs gives what one replay of the completed actions gives (and the baton's row
      follows the versions seen). */
  lemma {:induction false} IncrementalIsWhole(st: Stand, catalog: Catalog, baton: string, before: seq<Action>, visits: seq<Visit>)
    requires st.synced == 0 && InOrder(before, visits, baton)
    ensures Syncs(ReplayAll(st, catalog, before), catalog, baton, visits) ==
            ReplayAll(Versions(st, catalog, baton, visits), catalog, Last(before, visits))
    decreases |visits|
  {
    if visits != [] {
      var v, rest := visits[0], visits[1..];
      var own := FollowVersion(st, catalog, baton, v.version);
      SyncCatchesUp(st, catalog, baton, v.version, before, v.log);
      IncrementalIsWhole(own, catalog, baton, Replayed(v.log), rest);
      LastOfRest(before, visits);
    }
  }

  /** What two syncs replay is everything completed, in order, exactly when actions complete in the order they were
      proposed and none of one time between them: one that completes behind the cursor is never replayed. */
  lemma OutOfOrderIsLost(first: seq<Action>, second: seq<Action>)
    requires Ascending(first) && Ascending(second) && Replayed(first) != []
    ensures var cursor := Replayed(first)[|Replayed(first)| - 1].at;
      Replayed(first) + Newer(Replayed(second), cursor) == Replayed(second) <==> UpTo(Replayed(first), second)
  {
    ReplayedAscends(second);
    SplitAtCursor(Replayed(first), Replayed(second));
  }

  lemma ReplayedAscends(log: seq<Action>)
    requires Ascending(log)
    ensures Ascending(Replayed(log))
  {
    ReplayedFacts(log);
  }

  lemma SplitMeansUpTo(a: seq<Action>, b: seq<Action>, cursor: nat)
    requires a != [] && Ascending(b) && cursor == a[|a| - 1].at && a + Newer(b, cursor) == b
    ensures a <= b && (|a| < |b| ==> cursor < b[|a|].at)
  {
    var more := Newer(b, cursor);
    if |a| < |b| {
      assert b[|a|] == more[0];
      NewerFacts(b, cursor);
    }
  }

  lemma UpToMeansSplit(a: seq<Action>, b: seq<Action>, cursor: nat)
    requires a != [] && Ascending(b) && cursor == a[|a| - 1].at && a <= b && (|a| < |b| ==> cursor < b[|a|].at)
    ensures a + Newer(b, cursor) == b
  {
    assert b[|a| - 1] == a[|a| - 1];
    NewerIsSuffix(b, cursor, |a|);
  }

  lemma SplitAtCursor(a: seq<Action>, b: seq<Action>)
    requires a != [] && Ascending(b)
    ensures var cursor := a[|a| - 1].at; a + Newer(b, cursor) == b <==> a <= b && (|a| < |b| ==> cursor < b[|a|].at)
  {
    var cursor := a[|a| - 1].at;
    if a + Newer(b, cursor) == b { SplitMeansUpTo(a, b, cursor); }
    if a <= b && (|a| < |b| ==> cursor < b[|a|].at) { UpToMeansSplit(a, b, cursor); }
  }

  // ---------- what a late action leaves out, canister by canister ----------

  function RowAt(st: Stand, id: string): Option<Row> {
    if id in st.rows then Some(st.rows[id]) else None
  }

  function FollowNext(st: Stand, catalog: Catalog, t: Target, clears: bool): Stand {
    if clears && Moves(st, t) then Follow(st, catalog, t).(release := "") else Follow(st, catalog, t)
  }

  lemma FollowRowAt(a: Stand, b: Stand, catalog: Catalog, t: Target, clears: bool, id: string)
    requires RowAt(a, id) == RowAt(b, id)
    ensures RowAt(FollowNext(a, catalog, t, clears), id) == RowAt(FollowNext(b, catalog, t, clears), id)
  {
  }

  lemma {:induction false} FollowAllRowAt(a: Stand, b: Stand, catalog: Catalog, ts: seq<Target>, clears: bool, id: string)
    requires RowAt(a, id) == RowAt(b, id)
    ensures RowAt(FollowAll(a, catalog, ts, clears), id) == RowAt(FollowAll(b, catalog, ts, clears), id)
    decreases |ts|
  {
    if ts != [] {
      FollowRowAt(a, b, catalog, ts[0], clears, id);
      FollowAllRowAt(FollowNext(a, catalog, ts[0], clears), FollowNext(b, catalog, ts[0], clears), catalog, ts[1..], clears, id);
    }
  }

  function Released(row: Row, m: Member): Row {
    var moved := if m.wasm.Some? then row.(wasm := m.wasm.value.key, wasmHash := m.wasm.value.sha) else row;
    if m.bundle.Some? then moved.(content := m.bundle.value.namespace, props := m.bundle.value.props) else moved
  }

  function ReleaseNext(st: Stand, among: set<string>, m: Member): Stand {
    if m.id !in among || m.id !in st.rows then st else st.(rows := st.rows[m.id := Released(st.rows[m.id], m)])
  }

  lemma ReleaseUnfolds(st: Stand, among: set<string>, ms: seq<Member>)
    requires ms != []
    ensures ReleaseAll(st, among, ms) == ReleaseAll(ReleaseNext(st, among, ms[0]), among, ms[1..])
  {
  }

  lemma {:induction false} ReleaseAllRowAt(a: Stand, b: Stand, among: set<string>, also: set<string>, ms: seq<Member>, id: string)
    requires RowAt(a, id) == RowAt(b, id) && (id in among <==> id in also)
    ensures RowAt(ReleaseAll(a, among, ms), id) == RowAt(ReleaseAll(b, also, ms), id)
    decreases |ms|
  {
    if ms != [] {
      ReleaseUnfolds(a, among, ms);
      ReleaseUnfolds(b, also, ms);
      ReleaseAllRowAt(ReleaseNext(a, among, ms[0]), ReleaseNext(b, also, ms[0]), among, also, ms[1..], id);
    }
  }

  /** What an action makes of a canister's row depends on that row alone. */
  lemma ReplayRowAt(a: Stand, b: Stand, catalog: Catalog, x: Action, id: string)
    requires RowAt(a, id) == RowAt(b, id)
    ensures RowAt(Replay(a, catalog, x), id) == RowAt(Replay(b, catalog, x), id)
  {
    match x.work
    case Release(_, ms) => ReleaseAllRowAt(a, b, ReleaseMembers(a), ReleaseMembers(b), ms, id);
    case Upgrade(ts) => FollowAllRowAt(a, b, catalog, ts, true, id);
    case Restore(ts) => FollowAllRowAt(a, b, catalog, ts, false, id);
    case Otherwise =>
  }

  lemma {:induction false} ReplayAllRowAt(a: Stand, b: Stand, catalog: Catalog, done: seq<Action>, id: string)
    requires RowAt(a, id) == RowAt(b, id)
    ensures RowAt(ReplayAll(a, catalog, done), id) == RowAt(ReplayAll(b, catalog, done), id)
    decreases |done|
  {
    if done != [] {
      ReplayRowAt(a, b, catalog, done[0], id);
      ReplayAllRowAt(Replay(a, catalog, done[0]), Replay(b, catalog, done[0]), catalog, done[1..], id);
    }
  }

  lemma SparedRow(st: Stand, catalog: Catalog, done: seq<Action>, id: string)
    requires Spares(done, id)
    ensures RowAt(ReplayAll(st, catalog, done), id) == RowAt(st, id)
  {
    if id in st.rows { ReplayCommutes(st, catalog, done, id, st.rows[id]); } else { ReplayAddsNoRow(st, catalog, done, id); }
  }

  /** Leaving actions out matters to a canister, if nothing replayed after them names it too, exactly if they change its
      row where they belong. */
  lemma LeftOutIff(st: Stand, catalog: Catalog, before: seq<Action>, late: seq<Action>, later: seq<Action>, id: string)
    requires Spares(late, id) || Spares(later, id)
    ensures RowAt(ReplayAll(st, catalog, before + later), id) == RowAt(ReplayAll(st, catalog, before + late + later), id)
        <==> RowAt(ReplayAll(st, catalog, before + late), id) == RowAt(ReplayAll(st, catalog, before), id)
  {
    var p, q := ReplayAll(st, catalog, before), ReplayAll(st, catalog, before + late);
    ReplayAppend(st, catalog, before, late);
    ReplayAppend(st, catalog, before, later);
    ReplayAppend(st, catalog, before + late, later);
    if Spares(later, id) {
      SparedRow(p, catalog, later, id);
      SparedRow(q, catalog, later, id);
    } else {
      SparedRow(p, catalog, late, id);
      ReplayAllRowAt(p, q, catalog, later, id);
    }
  }

  /** A log in which `late` completed behind the cursor that `first` left: after `before` and before the end of what was
      replayed then, `seen`; `more` is newer. */
  ghost predicate Late(first: seq<Action>, second: seq<Action>, before: seq<Action>, late: seq<Action>, seen: seq<Action>, more: seq<Action>) {
    && Replayed(first) == before + seen && seen != []
    && Replayed(second) == before + late + (seen + more)
    && (more != [] ==> seen[|seen| - 1].at < more[0].at)
  }

  lemma OneSync(st: Stand, catalog: Catalog, baton: string, version: string, log: seq<Action>)
    requires Ascending(log) && Spares(log, baton) && st.synced == 0
    ensures Sync(st, catalog, baton, version, log) == ReplayAll(FollowVersion(st, catalog, baton, version), catalog, Replayed(log))
  {
    SyncCatchesUp(st, catalog, baton, version, [], log);
  }

  lemma NewerOfLate(first: seq<Action>, second: seq<Action>, before: seq<Action>, late: seq<Action>, seen: seq<Action>, more: seq<Action>)
    requires Ascending(second) && Late(first, second, before, late, seen, more)
    ensures Newer(Replayed(second), seen[|seen| - 1].at) == more
  {
    var done, k := Replayed(second), |before| + |late| + |seen|;
    ReplayedAscends(second);
    assert done[k - 1] == seen[|seen| - 1] && done[k..] == more;
    NewerIsSuffix(done, seen[|seen| - 1].at, k);
  }

  lemma VersionTwice(st: Stand, catalog: Catalog, baton: string, version: string)
    ensures FollowVersion(FollowVersion(st, catalog, baton, version), catalog, baton, version) == FollowVersion(st, catalog, baton, version)
    ensures FollowVersion(st, catalog, baton, version).synced == st.synced
  {
  }

  lemma AllSpared(log: seq<Action>, baton: string)
    requires Ascending(log) && Spares(log, baton)
    ensures Spares(Replayed(log), baton) && forall a <- Replayed(log) :: a.at > 0
  {
    ReplayedFacts(log);
  }

  /** A sync of a stand that has followed its version already, and replayed `done`. */
  lemma SyncAfter(own: Stand, catalog: Catalog, baton: string, version: string, done: seq<Action>, cursor: nat, log: seq<Action>, more: seq<Action>)
    requires FollowVersion(own, catalog, baton, version) == own && Spares(done, baton)
    requires ReplayAll(own, catalog, done).synced == cursor && Newer(Replayed(log), cursor) == more
    ensures Sync(ReplayAll(own, catalog, done), catalog, baton, version, log) == ReplayAll(own, catalog, done + more)
  {
    VersionCommutes(own, catalog, done, baton, version);
    SyncReplaysNewer(ReplayAll(own, catalog, done), catalog, baton, version, log);
    ReplayAppend(own, catalog, done, more);
  }

  /** Where a sync of `first` leaves the stand, and its cursor. */
  lemma FirstSync(st: Stand, catalog: Catalog, baton: string, version: string, first: seq<Action>, own: Stand)
    requires st.synced == 0 && Ascending(first) && Spares(first, baton) && Replayed(first) != []
    requires own == FollowVersion(st, catalog, baton, version)
    ensures Sync(st, catalog, baton, version, first) == ReplayAll(own, catalog, Replayed(first))
    ensures FollowVersion(own, catalog, baton, version) == own && Spares(Replayed(first), baton)
    ensures ReplayAll(own, catalog, Replayed(first)).synced == Replayed(first)[|Replayed(first)| - 1].at
  {
    OneSync(st, catalog, baton, version, first);
    AllSpared(first, baton);
    VersionTwice(st, catalog, baton, version);
    ReplaySetsCursor(own, catalog, Replayed(first));
  }

  lemma TwoSyncs(st: Stand, catalog: Catalog, baton: string, version: string, first: seq<Action>, second: seq<Action>,
                 before: seq<Action>, late: seq<Action>, seen: seq<Action>, more: seq<Action>)
    requires st.synced == 0 && Ascending(first) && Ascending(second) && Spares(first, baton) && Spares(second, baton)
    requires Late(first, second, before, late, seen, more)
    ensures Sync(Sync(st, catalog, baton, version, first), catalog, baton, version, second)
         == ReplayAll(FollowVersion(st, catalog, baton, version), catalog, before + (seen + more))
  {
    var own, cursor := FollowVersion(st, catalog, baton, version), seen[|seen| - 1].at;
    SeenThenMore(first, second, before, late, seen, more);
    FirstSync(st, catalog, baton, version, first, own);
    NewerOfLate(first, second, before, late, seen, more);
    SyncAfter(own, catalog, baton, version, Replayed(first), cursor, second, more);
  }

  lemma SeenThenMore(first: seq<Action>, second: seq<Action>, before: seq<Action>, late: seq<Action>, seen: seq<Action>, more: seq<Action>)
    requires Late(first, second, before, late, seen, more)
    ensures Replayed(first) != [] && Replayed(first)[|Replayed(first)| - 1] == seen[|seen| - 1]
    ensures Replayed(first) + more == before + (seen + more)
  {
  }

  /** Two syncs, with actions completing behind the first one's cursor, leave a canister's row as one sync of the whole log
      does if and only if those actions change nothing of it where they belong: for every stand and catalog, and every
      canister but one that both they and a later action name. */
  lemma LateRowsIff(st: Stand, catalog: Catalog, baton: string, version: string, first: seq<Action>, second: seq<Action>,
                    before: seq<Action>, late: seq<Action>, seen: seq<Action>, more: seq<Action>, id: string)
    requires st.synced == 0 && Ascending(first) && Ascending(second) && Spares(first, baton) && Spares(second, baton)
    requires Late(first, second, before, late, seen, more) && (Spares(late, id) || Spares(seen + more, id))
    ensures var own := FollowVersion(st, catalog, baton, version);
      RowAt(Sync(Sync(st, catalog, baton, version, first), catalog, baton, version, second), id)
        == RowAt(Sync(st, catalog, baton, version, second), id)
      <==> RowAt(ReplayAll(own, catalog, before + late), id) == RowAt(ReplayAll(own, catalog, before), id)
  {
    TwoSyncs(st, catalog, baton, version, first, second, before, late, seen, more);
    OneSync(st, catalog, baton, version, second);
    LeftOutIff(FollowVersion(st, catalog, baton, version), catalog, before, late, seen + more, id);
  }

  // ---------- two inputs ----------

  function Upgrading(at: nat, complete: bool, id: string): Action {
    Action(at, complete, Upgrade([Target(id, "new", "")]))
  }

  /** Two canisters on old modules, and a catalog that knows none. */
  const Old: Stand := Stand(map["x" := Row("", "old", "", ""), "y" := Row("", "old", "", "")], "", 0)
  const Empty: Catalog := map[]

  function Moved(st: Stand, id: string): map<string, Row>
    requires id in st.rows
  {
    st.rows[id := st.rows[id].(wasmHash := "new")]
  }

  lemma UpgradeOne(st: Stand, id: string, at: nat)
    requires id in st.rows && st.rows[id].wasmHash != "new" && st.release == "" && at > 0
    ensures ReplayAll(st, Empty, [Upgrading(at, true, id)]) == st.(rows := Moved(st, id), synced := at)
  {
    var a, t := Upgrading(at, true, id), Target(id, "new", "");
    assert WasmFor(Empty, "new", "") == None;
    assert Follow(st, Empty, t) == st.(rows := Moved(st, id));
    assert [t][1..] == [];
    assert FollowAll(st, Empty, [t], true) == st.(rows := Moved(st, id));
    assert [a][1..] == [];
    assert Replay(st, Empty, a) == st.(rows := Moved(st, id), synced := at);
  }

  lemma NoVersion(st: Stand, baton: string)
    ensures FollowVersion(st, Empty, baton, "") == st
  {
  }

  /** The earlier action, on `x`, completes only after a sync has replayed the later one, on `y`: `x` keeps its old
      hash for ever, where one replay of both would have moved it. */
  lemma LateCompletionIsLost(baton: string)
    ensures var early, log := [Upgrading(1, false, "x"), Upgrading(2, true, "y")], [Upgrading(1, true, "x"), Upgrading(2, true, "y")];
      var first := Sync(Old, Empty, baton, "", early);
      && first.rows == Moved(Old, "y") && Sync(first, Empty, baton, "", log).rows == Moved(Old, "y")
      && ReplayAll(Old, Empty, Replayed(log)).rows == Moved(Old.(rows := Moved(Old, "x")), "y")
  {
    var x, y, waits := Upgrading(1, true, "x"), Upgrading(2, true, "y"), Upgrading(1, false, "x");
    NoVersion(Old, baton);
    TwoReplayed(waits, y);
    SyncReplaysNewer(Old, Empty, baton, "", [waits, y]);
    assert [y][1..] == [] && Newer([y], 0) == [y];
    UpgradeOne(Old, "y", 2);
    var first := Sync(Old, Empty, baton, "", [waits, y]);
    NoVersion(first, baton);
    TwoReplayed(x, y);
    SyncReplaysNewer(first, Empty, baton, "", [x, y]);
    assert [x, y][1..] == [y];
    assert Newer([y], 2) == [];
    assert Newer([x, y], 2) == [];
    UpgradeOne(Old, "x", 1);
    assert [x][1..] == [] && Replay(Old, Empty, x) == ReplayAll(Old, Empty, [x]);
    UpgradeOne(Replay(Old, Empty, x), "y", 2);
  }

  lemma TwoReplayed(a: Action, b: Action)
    requires b.complete
    ensures Replayed([a, b]) == if !a.complete then [b] else if a.at < b.at then [a, b] else [b, a]
  {
    assert [a, b][1..] == [b] && [b][1..] == [];
    assert Reversed([b]) == Reversed([]) + [b] == [b];
    assert Reversed([a, b]) == [b] + [a] == [b, a];
    assert [b, a][1..] == [a] && [a][1..] == [];
    assert Done([a]) == if a.complete then [a] else [];
    assert Done([b, a]) == [b] + Done([a]);
    assert SortedByTime([a]) == [a] && SortedByTime([b]) == [b];
    if a.complete {
      assert Done([b, a]) == [b, a];
      assert SortedByTime([b, a]) == Insert(b, [a]);
    }
  }

  /** Two completed actions of one time are replayed latest first. */
  lemma TiesReplayLatestFirst(a: Action, b: Action)
    requires a.complete && b.complete && a.at == b.at
    ensures Replayed([a, b]) == [b, a]
  {
    TwoReplayed(a, b);
  }

  // ---------- the cursor ----------

  lemma SyncedIsLast(st: Stand, catalog: Catalog, baton: string, version: string, log: seq<Action>)
    requires Ascending(log)
    ensures var newer := Newer(Replayed(log), st.synced);
      Sync(st, catalog, baton, version, log).synced == if newer == [] then st.synced else newer[|newer| - 1].at
  {
    SyncReplaysNewer(st, catalog, baton, version, log);
    ReplayedFacts(log);
    NewerFacts(Replayed(log), st.synced);
    ReplaySetsCursor(FollowVersion(st, catalog, baton, version), catalog, Newer(Replayed(log), st.synced));
  }

  /** The cursor never moves back, and leaves nothing completed ahead of it. */
  lemma CursorIsMonotone(st: Stand, catalog: Catalog, baton: string, version: string, log: seq<Action>)
    requires Ascending(log)
    ensures Sync(st, catalog, baton, version, log).synced >= st.synced
    ensures Newer(Replayed(log), Sync(st, catalog, baton, version, log).synced) == []
  {
    SyncedIsLast(st, catalog, baton, version, log);
    ReplayedFacts(log);
    var newer := Newer(Replayed(log), st.synced);
    NewerFacts(Replayed(log), st.synced);
    if newer != [] {
      assert newer[|newer| - 1] in newer;
      NewerThanLast(Replayed(log), st.synced);
    }
  }

  lemma {:induction false} NewerFacts(done: seq<Action>, since: nat)
    requires Ascending(done)
    ensures forall a <- Newer(done, since) :: a in done && a.at > since
    ensures Newer(Newer(done, since), since) == Newer(done, since)
  {
    if done != [] {
      assert Ascending(done[1..]) by { assert forall a <- done[1..] :: a in done; }
      NewerFacts(done[1..], since);
    }
  }

  lemma {:induction false} NewerThanLast(done: seq<Action>, since: nat)
    requires Ascending(done) && Newer(done, since) != []
    ensures var newer := Newer(done, since); Newer(done, newer[|newer| - 1].at) == [] && newer[|newer| - 1] == done[|done| - 1]
  {
    assert Ascending(done[1..]) by { assert forall a <- done[1..] :: a in done; }
    if Newer(done[1..], since) != [] {
      NewerThanLast(done[1..], since);
      assert done[0].at <= done[|done| - 1].at;
    } else {
      assert done[1..] == [];
    }
  }

  /** Syncing again with nothing new done changes nothing. */
  lemma SyncTwiceIsOnce(st: Stand, catalog: Catalog, baton: string, version: string, log: seq<Action>)
    requires Ascending(log) && Spares(log, baton)
    ensures var once := Sync(st, catalog, baton, version, log); Sync(once, catalog, baton, version, log) == once
  {
    var once := Sync(st, catalog, baton, version, log);
    SyncReplaysNewer(st, catalog, baton, version, log);
    SyncReplaysNewer(once, catalog, baton, version, log);
    CursorIsMonotone(st, catalog, baton, version, log);
    ReplayedFacts(log);
    NewerFacts(Replayed(log), st.synced);
    var newer := Newer(Replayed(log), st.synced);
    assert Spares(newer, baton);
    VersionCommutes(st, catalog, newer, baton, version);
    var done := ReplayAll(st, catalog, newer);
    assert FollowVersion(FollowVersion(done, catalog, baton, version), catalog, baton, version) == FollowVersion(done, catalog, baton, version);
  }

  /** A baton without pages shows its newest 100 actions: nothing is missed exactly when no more are new. */
  lemma UnpagedSeesAllIff(newestFirst: seq<Action>, since: nat)
    requires NewestFirst(newestFirst)
    ensures var shown := if |newestFirst| <= UNPAGED_MAX then newestFirst else newestFirst[..UNPAGED_MAX];
      Newer(shown, since) == Newer(newestFirst, since) <==> |Newer(newestFirst, since)| <= UNPAGED_MAX
  {
    if |newestFirst| > UNPAGED_MAX {
      var a, b := newestFirst[..UNPAGED_MAX], newestFirst[UNPAGED_MAX..];
      assert newestFirst == a + b;
      NewerAppend(a, b, since);
      NewerLength(a, since);
      if b[0].at <= since {
        NewerOfOld(b, since);
      } else {
        NewerAll(a, since);
      }
    } else {
      NewerLength(newestFirst, since);
    }
  }

  lemma {:induction false} NewerLength(log: seq<Action>, since: nat)
    ensures |Newer(log, since)| <= |log|
  {
    if log != [] { NewerLength(log[1..], since); }
  }

  lemma {:induction false} NewerAll(log: seq<Action>, since: nat)
    requires forall a <- log :: a.at > since
    ensures Newer(log, since) == log
  {
    if log != [] {
      assert log[0] in log && forall a <- log[1..] :: a in log;
      NewerAll(log[1..], since);
    }
  }
}
