/** What one action of a baton does to a stand's rows, told row by row, and which of a log's actions are replayed. */
module BatonRows {
  import opened Options
  import opened Filters
  import opened Order
  import opened Batons
  import opened BatonRuns

  // ---------- releases ----------

  /** The last member that gives this canister a module, and the last that gives it content. */
  ghost predicate LastWasm(ms: seq<Member>, id: string, i: nat) {
    i < |ms| && ms[i].id == id && ms[i].wasm.Some? && forall j :: i < j < |ms| ==> !(ms[j].id == id && ms[j].wasm.Some?)
  }

  ghost predicate LastBundle(ms: seq<Member>, id: string, i: nat) {
    i < |ms| && ms[i].id == id && ms[i].bundle.Some? && forall j :: i < j < |ms| ==> !(ms[j].id == id && ms[j].bundle.Some?)
  }

  lemma ReleaseOneRow(st: Stand, among: set<string>, m: Member, id: string)
    ensures var t := ReleaseNext(st, among, m); (id in t.rows <==> id in st.rows) && t.release == st.release && t.synced == st.synced
    ensures var t := ReleaseNext(st, among, m); id in st.rows ==>
      t.rows[id] == if m.id == id && id in among then Released(st.rows[id], m) else st.rows[id]
  {
  }

  /** Only rows among the members named change, and they stay there. */
  lemma {:induction false} ReleaseSpares(st: Stand, among: set<string>, ms: seq<Member>, id: string)
    ensures var t := ReleaseAll(st, among, ms);
      && (id in t.rows <==> id in st.rows) && t.release == st.release && t.synced == st.synced
      && (id in st.rows && (id !in among || forall j :: 0 <= j < |ms| ==> ms[j].id != id) ==> t.rows[id] == st.rows[id])
    decreases |ms|
  {
    if ms != [] {
      ReleaseUnfolds(st, among, ms);
      ReleaseOneRow(st, among, ms[0], id);
      ReleaseSpares(ReleaseNext(st, among, ms[0]), among, ms[1..], id);
    }
  }

  lemma {:induction false} WasmKept(st: Stand, among: set<string>, ms: seq<Member>, id: string)
    requires id in st.rows && id in among && forall j :: 0 <= j < |ms| ==> !(ms[j].id == id && ms[j].wasm.Some?)
    ensures var t := ReleaseAll(st, among, ms); id in t.rows && t.rows[id].wasm == st.rows[id].wasm && t.rows[id].wasmHash == st.rows[id].wasmHash
    decreases |ms|
  {
    if ms != [] {
      ReleaseUnfolds(st, among, ms);
      ReleaseOneRow(st, among, ms[0], id);
      WasmKept(ReleaseNext(st, among, ms[0]), among, ms[1..], id);
    }
  }

  /** A row's module is the one that the last member with one gives it. */
  lemma {:induction false} WasmGiven(st: Stand, among: set<string>, ms: seq<Member>, id: string, i: nat)
    requires id in st.rows && id in among && LastWasm(ms, id, i)
    ensures var t := ReleaseAll(st, among, ms); id in t.rows && t.rows[id].wasm == ms[i].wasm.value.key && t.rows[id].wasmHash == ms[i].wasm.value.sha
    decreases |ms|
  {
    var next := ReleaseNext(st, among, ms[0]);
    ReleaseUnfolds(st, among, ms);
    ReleaseOneRow(st, among, ms[0], id);
    forall j | 0 <= j < |ms[1..]| ensures ms[1..][j] == ms[j + 1] {}
    if i > 0 { WasmGiven(next, among, ms[1..], id, i - 1); } else { WasmKept(next, among, ms[1..], id); }
  }

  lemma {:induction false} BundleKept(st: Stand, among: set<string>, ms: seq<Member>, id: string)
    requires id in st.rows && id in among && forall j :: 0 <= j < |ms| ==> !(ms[j].id == id && ms[j].bundle.Some?)
    ensures var t := ReleaseAll(st, among, ms); id in t.rows && t.rows[id].content == st.rows[id].content && t.rows[id].props == st.rows[id].props
    decreases |ms|
  {
    if ms != [] {
      ReleaseUnfolds(st, among, ms);
      ReleaseOneRow(st, among, ms[0], id);
      BundleKept(ReleaseNext(st, among, ms[0]), among, ms[1..], id);
    }
  }

  /** A row's content is what the last member with some gives it. */
  lemma {:induction false} BundleGiven(st: Stand, among: set<string>, ms: seq<Member>, id: string, i: nat)
    requires id in st.rows && id in among && LastBundle(ms, id, i)
    ensures var t := ReleaseAll(st, among, ms); id in t.rows && t.rows[id].content == ms[i].bundle.value.namespace && t.rows[id].props == ms[i].bundle.value.props
    decreases |ms|
  {
    var next := ReleaseNext(st, among, ms[0]);
    ReleaseUnfolds(st, among, ms);
    ReleaseOneRow(st, among, ms[0], id);
    forall j | 0 <= j < |ms[1..]| ensures ms[1..][j] == ms[j + 1] {}
    if i > 0 { BundleGiven(next, among, ms[1..], id, i - 1); } else { BundleKept(next, among, ms[1..], id); }
  }

  predicate Orchestrates(row: Row) { "orchestration-" <= row.wasm }

  /** A release: the label is its own; a row that it does not name, or that is the orchestration's, is as it was. */
  lemma ReleaseLeaves(st: Stand, catalog: Catalog, a: Action, id: string)
    requires a.work.Release?
    ensures var t := Replay(st, catalog, a); t.release == a.work.name && (id in t.rows <==> id in st.rows)
    ensures id in st.rows && (Orchestrates(st.rows[id]) || forall m <- a.work.members :: m.id != id) ==>
      Replay(st, catalog, a).rows[id] == st.rows[id]
  {
    assert forall j :: 0 <= j < |a.work.members| ==> a.work.members[j] in a.work.members;
    ReleaseSpares(st, ReleaseMembers(st), a.work.members, id);
  }

  /** A row that it names and that is not the orchestration's has the module and the content given last, and keeps what none
      of its members gives. */
  lemma ReleasedRow(st: Stand, catalog: Catalog, a: Action, id: string)
    requires a.work.Release? && id in st.rows && !Orchestrates(st.rows[id])
    ensures id in Replay(st, catalog, a).rows
    ensures var row, ms := Replay(st, catalog, a).rows[id], a.work.members;
      forall i: nat :: LastWasm(ms, id, i) ==> row.wasm == ms[i].wasm.value.key && row.wasmHash == ms[i].wasm.value.sha
    ensures var row, ms := Replay(st, catalog, a).rows[id], a.work.members;
      forall i: nat :: LastBundle(ms, id, i) ==> row.content == ms[i].bundle.value.namespace && row.props == ms[i].bundle.value.props
    ensures var row := Replay(st, catalog, a).rows[id];
      (forall m <- a.work.members :: !(m.id == id && m.wasm.Some?)) ==> row.wasm == st.rows[id].wasm && row.wasmHash == st.rows[id].wasmHash
    ensures var row := Replay(st, catalog, a).rows[id];
      (forall m <- a.work.members :: !(m.id == id && m.bundle.Some?)) ==> row.content == st.rows[id].content && row.props == st.rows[id].props
  {
    var among, ms := ReleaseMembers(st), a.work.members;
    ReleaseSpares(st, among, ms, id);
    assert forall j :: 0 <= j < |ms| ==> ms[j] in ms;
    forall i: nat | LastWasm(ms, id, i) { WasmGiven(st, among, ms, id, i); }
    forall i: nat | LastBundle(ms, id, i) { BundleGiven(st, among, ms, id, i); }
    if forall m <- ms :: !(m.id == id && m.wasm.Some?) { WasmKept(st, among, ms, id); }
    if forall m <- ms :: !(m.id == id && m.bundle.Some?) { BundleKept(st, among, ms, id); }
  }

  // ---------- upgrades and restores ----------

  /** The key of a row that comes to a hash: the hint if the catalog has that hash under it, else the least key that it has
      the hash under, else the key it had. */
  ghost predicate IsKeyFor(catalog: Catalog, sha: string, hint: string, had: string, key: string) {
    if hint in catalog && catalog[hint] == sha then key == hint
    else if exists k :: k in catalog && catalog[k] == sha then
      key in catalog && catalog[key] == sha && forall k :: k in catalog && catalog[k] == sha ==> Leq(key, k)
    else key == had
  }

  lemma WasmForIsKey(catalog: Catalog, sha: string, hint: string, had: string)
    requires sha != ""
    ensures var w := WasmFor(catalog, sha, hint); IsKeyFor(catalog, sha, hint, had, if w.Some? then w.value else had)
  {
    var found := set k | k in catalog && catalog[k] == sha;
    if found != {} {
      LeastIsLeast(found);
      var k :| k in found;
      assert k in catalog && catalog[k] == sha;
    } else {
      forall k | k in catalog ensures catalog[k] != sha { assert k !in found; }
    }
  }

  /** A target that finds the row at another hash. */
  ghost predicate Changes(st: Stand, t: Target) {
    t.id in st.rows && t.sha != "" && st.rows[t.id].wasmHash != t.sha
  }

  lemma FollowOneRow(st: Stand, catalog: Catalog, t: Target, clears: bool, id: string)
    ensures var n := FollowNext(st, catalog, t, clears);
      && (id in n.rows <==> id in st.rows) && n.synced == st.synced
      && n.release == (if clears && Changes(st, t) then "" else st.release)
      && (id in st.rows && (t.id != id || !Changes(st, t)) ==> n.rows[id] == st.rows[id])
      && (t.id == id && Changes(st, t) ==> n.rows[id] == st.rows[id].(wasm := n.rows[id].wasm, wasmHash := t.sha))
      && (t.id == id && Changes(st, t) ==> IsKeyFor(catalog, t.sha, t.hint, st.rows[id].wasm, n.rows[id].wasm))
  {
    if Changes(st, t) { WasmForIsKey(catalog, t.sha, t.hint, st.rows[t.id].wasm); }
  }

  lemma FollowUnfolds(st: Stand, catalog: Catalog, ts: seq<Target>, clears: bool)
    requires ts != []
    ensures FollowAll(st, catalog, ts, clears) == FollowAll(FollowNext(st, catalog, ts[0], clears), catalog, ts[1..], clears)
  {
  }

  /** A target that says something of this canister. */
  predicate Names(t: Target, id: string) { t.id == id && t.sha != "" }

  ghost predicate LastNames(ts: seq<Target>, id: string, i: nat) {
    i < |ts| && Names(ts[i], id) && forall j :: i < j < |ts| ==> !Names(ts[j], id)
  }

  /** Rows stay, with their content, and one that no target names is as it was. */
  lemma {:induction false} FollowSpares(st: Stand, catalog: Catalog, ts: seq<Target>, clears: bool, id: string)
    ensures var t := FollowAll(st, catalog, ts, clears);
      && (id in t.rows <==> id in st.rows)
      && (id in st.rows ==> t.rows[id].content == st.rows[id].content && t.rows[id].props == st.rows[id].props)
      && (id in st.rows && (forall j :: 0 <= j < |ts| ==> !Names(ts[j], id)) ==> t.rows[id] == st.rows[id])
    decreases |ts|
  {
    if ts != [] {
      FollowUnfolds(st, catalog, ts, clears);
      FollowOneRow(st, catalog, ts[0], clears, id);
      FollowSpares(FollowNext(st, catalog, ts[0], clears), catalog, ts[1..], clears, id);
    }
  }

  lemma NamesTail(ts: seq<Target>, id: string, i: nat)
    requires 0 < i && LastNames(ts, id, i)
    ensures LastNames(ts[1..], id, i - 1)
  {
    forall j | i - 1 < j < |ts[1..]| ensures !Names(ts[1..][j], id) { assert ts[1..][j] == ts[j + 1]; }
  }

  /** A row that targets name has the hash of the last of them. */
  lemma {:induction false} FollowHash(st: Stand, catalog: Catalog, ts: seq<Target>, clears: bool, id: string, i: nat)
    requires id in st.rows && LastNames(ts, id, i)
    ensures id in FollowAll(st, catalog, ts, clears).rows && FollowAll(st, catalog, ts, clears).rows[id].wasmHash == ts[i].sha
    decreases |ts|
  {
    var next := FollowNext(st, catalog, ts[0], clears);
    FollowUnfolds(st, catalog, ts, clears);
    FollowOneRow(st, catalog, ts[0], clears, id);
    if i > 0 {
      NamesTail(ts, id, i);
      FollowHash(next, catalog, ts[1..], clears, id, i - 1);
    } else {
      forall j | 0 <= j < |ts[1..]| ensures !Names(ts[1..][j], id) { assert ts[1..][j] == ts[j + 1]; }
      FollowSpares(next, catalog, ts[1..], clears, id);
    }
  }

  /** The key of a row that one target names: it is found for the hash if that is new, else as it was. */
  lemma {:induction false} FollowKey(st: Stand, catalog: Catalog, ts: seq<Target>, clears: bool, id: string, i: nat)
    requires id in st.rows && LastNames(ts, id, i) && forall j :: 0 <= j < i ==> !Names(ts[j], id)
    ensures id in FollowAll(st, catalog, ts, clears).rows
    ensures var key := FollowAll(st, catalog, ts, clears).rows[id].wasm;
      if st.rows[id].wasmHash == ts[i].sha then key == st.rows[id].wasm else IsKeyFor(catalog, ts[i].sha, ts[i].hint, st.rows[id].wasm, key)
    decreases |ts|
  {
    var next := FollowNext(st, catalog, ts[0], clears);
    FollowUnfolds(st, catalog, ts, clears);
    FollowOneRow(st, catalog, ts[0], clears, id);
    if i > 0 {
      NamesTail(ts, id, i);
      forall j | 0 <= j < i - 1 ensures !Names(ts[1..][j], id) { assert ts[1..][j] == ts[j + 1]; }
      FollowKey(next, catalog, ts[1..], clears, id, i - 1);
    } else {
      forall j | 0 <= j < |ts[1..]| ensures !Names(ts[1..][j], id) { assert ts[1..][j] == ts[j + 1]; }
      FollowSpares(next, catalog, ts[1..], clears, id);
    }
  }

  /** An upgrade takes the release's label exactly if it changes a row. */
  lemma {:induction false} FollowLabel(st: Stand, catalog: Catalog, ts: seq<Target>, clears: bool)
    ensures FollowAll(st, catalog, ts, clears).release ==
      if clears && exists i :: 0 <= i < |ts| && Changes(st, ts[i]) then "" else st.release
    decreases |ts|
  {
    if ts != [] {
      var next := FollowNext(st, catalog, ts[0], clears);
      FollowUnfolds(st, catalog, ts, clears);
      FollowOneRow(st, catalog, ts[0], clears, ts[0].id);
      FollowLabel(next, catalog, ts[1..], clears);
      if !Changes(st, ts[0]) {
        forall i | 0 <= i < |ts[1..]| ensures Changes(next, ts[1..][i]) <==> Changes(st, ts[i + 1]) {
          FollowOneRow(st, catalog, ts[0], clears, ts[i + 1].id);
        }
        if i :| 0 <= i < |ts| && Changes(st, ts[i]) { assert Changes(next, ts[1..][i - 1]); }
      }
    }
  }

  predicate Moving(work: Work) { work.Upgrade? || work.Restore? }

  function TargetsOf(work: Work): seq<Target>
    requires Moving(work)
  {
    if work.Upgrade? then work.targets else work.restored
  }

  /** An upgrade or a restore: every row that it does not name is as it was, and the others keep their content. A restore
      takes the label, an upgrade if it changes a row. */
  lemma MovesLeave(st: Stand, catalog: Catalog, a: Action, id: string)
    requires Moving(a.work)
    ensures var t, ts := Replay(st, catalog, a), TargetsOf(a.work);
      && (id in t.rows <==> id in st.rows)
      && (id in st.rows ==> t.rows[id].content == st.rows[id].content && t.rows[id].props == st.rows[id].props)
      && (id in st.rows && (forall j :: 0 <= j < |ts| ==> !Names(ts[j], id)) ==> t.rows[id] == st.rows[id])
      && t.release == if a.work.Restore? || exists i :: 0 <= i < |ts| && Changes(st, ts[i]) then "" else st.release
  {
    FollowSpares(st, catalog, TargetsOf(a.work), a.work.Upgrade?, id);
    FollowLabel(st, catalog, TargetsOf(a.work), a.work.Upgrade?);
  }

  /** A row that it names has the last hash it gives; one that it names once has the key that is found for that hash, if it
      is new to the row. */
  lemma MovedRow(st: Stand, catalog: Catalog, a: Action, id: string, i: nat)
    requires Moving(a.work) && id in st.rows && LastNames(TargetsOf(a.work), id, i)
    ensures id in Replay(st, catalog, a).rows && Replay(st, catalog, a).rows[id].wasmHash == TargetsOf(a.work)[i].sha
    ensures var t, key := TargetsOf(a.work)[i], Replay(st, catalog, a).rows[id].wasm;
      (forall j :: 0 <= j < i ==> !Names(TargetsOf(a.work)[j], id)) ==>
        if st.rows[id].wasmHash == t.sha then key == st.rows[id].wasm else IsKeyFor(catalog, t.sha, t.hint, st.rows[id].wasm, key)
  {
    FollowHash(st, catalog, TargetsOf(a.work), a.work.Upgrade?, id, i);
    if forall j :: 0 <= j < i ==> !Names(TargetsOf(a.work)[j], id) { FollowKey(st, catalog, TargetsOf(a.work), a.work.Upgrade?, id, i); }
  }

  /** The cursor follows the action's time, where it has one; an action of any other kind does nothing else. */
  lemma ReplayMovesCursor(st: Stand, catalog: Catalog, a: Action)
    ensures Replay(st, catalog, a).synced == if a.at != 0 then a.at else st.synced
    ensures a.work.Otherwise? ==> Replay(st, catalog, a).rows == st.rows && Replay(st, catalog, a).release == st.release
  {
  }

  /** The baton's own row moves to its version, if the catalog has that and it is not there yet; nothing else changes. */
  lemma VersionLeaves(st: Stand, catalog: Catalog, baton: string, version: string)
    ensures var t, key := FollowVersion(st, catalog, baton, version), "orchestration-baton@" + version;
      if version != "" && key in catalog && baton in st.rows && st.rows[baton].wasm != key
      then t == st.(rows := st.rows[baton := st.rows[baton].(wasm := key, wasmHash := catalog[key])])
      else t == st
  {
  }

  // ---------- which actions are replayed ----------

  lemma {:induction false} DoneIsFilter(log: seq<Action>)
    ensures IsFilter(Done(log), log, (a: Action) => a.complete, (a: Action) => a)
  {
    if log == [] {
      FilterNone((a: Action) => a.complete, (a: Action) => a);
    } else {
      DoneIsFilter(log[1..]);
      FilterNext(Done(log[1..]), log, (a: Action) => a.complete, (a: Action) => a);
    }
  }

  lemma {:induction false} NewerIsFilter(log: seq<Action>, since: nat)
    ensures IsFilter(Newer(log, since), log, (a: Action) => a.at > since, (a: Action) => a)
  {
    if log == [] {
      FilterNone((a: Action) => a.at > since, (a: Action) => a);
    } else {
      NewerIsFilter(log[1..], since);
      FilterNext(Newer(log[1..], since), log, (a: Action) => a.at > since, (a: Action) => a);
    }
  }

  lemma {:induction false} InsertKeeps(a: Action, sorted: seq<Action>)
    ensures multiset(Insert(a, sorted)) == multiset{a} + multiset(sorted)
  {
    if sorted != [] && a.at > sorted[0].at {
      InsertKeeps(a, sorted[1..]);
      assert sorted == [sorted[0]] + sorted[1..];
    }
  }

  /** No action is dropped or doubled by the sort, and they are in order of time. */
  lemma {:induction false} SortKeeps(log: seq<Action>)
    ensures multiset(SortedByTime(log)) == multiset(log) && ByTime(SortedByTime(log))
  {
    SortFacts(log);
    if log != [] {
      SortKeeps(log[1..]);
      InsertKeeps(log[0], SortedByTime(log[1..]));
      assert log == [log[0]] + log[1..];
    }
  }
}
