/** Following a stand's baton (src/batons.py): the conductor pages through the actions the baton filed since
    its cursor and replays the completed ones, in the order they were proposed, onto the stand's rows. */
module Batons {
  import opened Options
  import opened Order

  const BATON := "orchestration-baton@"
  const ORCHESTRATION := "orchestration-"
  const UNPAGED_MAX: nat := 100

  /** A catalog row to move to, and content to serve, in a release. */
  datatype Module = Module(key: string, sha: string)
  datatype Bundle = Bundle(namespace: string, props: string)
  datatype Member = Member(id: string, wasm: Option<Module>, bundle: Option<Bundle>)

  datatype Target = Target(id: string, sha: string, hint: string)

  datatype Work =
    | Release(name: string, members: seq<Member>)
    | Upgrade(targets: seq<Target>)
    | Restore(restored: seq<Target>)   // sorted by canister, no hints
    | Otherwise

  datatype Action = Action(at: nat, complete: bool, work: Work)

  datatype Row = Row(wasm: string, wasmHash: string, content: string, props: string)

  /** `rows` by canister id; `catalog` gives each wasm key's hash. */
  datatype Stand = Stand(rows: map<string, Row>, release: string, synced: nat)

  type Catalog = map<string, string>

  // ---------- one action ----------

  /** Where a hash is found in the catalog: under the hinted key if that has it, else under the least key that does. */
  function WasmFor(catalog: Catalog, sha: string, hint: string): Option<string> {
    var found := set k | k in catalog && catalog[k] == sha;
    if sha == "" || found == {} then None else if hint in found then Some(hint) else Some(Least(found))
  }

  predicate Moves(st: Stand, t: Target) {
    t.id in st.rows && t.sha != "" && st.rows[t.id].wasmHash != t.sha
  }

  function Follow(st: Stand, catalog: Catalog, t: Target): Stand {
    if !Moves(st, t) then st
    else
      var w := WasmFor(catalog, t.sha, t.hint);
      st.(rows := st.rows[t.id := st.rows[t.id].(wasm := if w.Some? then w.value else st.rows[t.id].wasm, wasmHash := t.sha)])
  }

  function FollowAll(st: Stand, catalog: Catalog, ts: seq<Target>, clears: bool): Stand
    decreases |ts|
  {
    if ts == [] then st
    else
      var next := Follow(st, catalog, ts[0]);
      FollowAll(if clears && Moves(st, ts[0]) then next.(release := "") else next, catalog, ts[1..], clears)
  }

  /** A release moves only the members it names that were not the orchestration's own when it was applied. */
  function ReleaseAll(st: Stand, among: set<string>, ms: seq<Member>): Stand
    decreases |ms|
  {
    if ms == [] then st
    else if ms[0].id !in among || ms[0].id !in st.rows then ReleaseAll(st, among, ms[1..])
    else
      var row := st.rows[ms[0].id];
      var moved := if ms[0].wasm.Some? then row.(wasm := ms[0].wasm.value.key, wasmHash := ms[0].wasm.value.sha) else row;
      var served := if ms[0].bundle.Some? then moved.(content := ms[0].bundle.value.namespace, props := ms[0].bundle.value.props) else moved;
      ReleaseAll(st.(rows := st.rows[ms[0].id := served]), among, ms[1..])
  }

  function ReleaseMembers(st: Stand): set<string> {
    set id | id in st.rows && !(ORCHESTRATION <= st.rows[id].wasm)
  }

  function Do(st: Stand, catalog: Catalog, work: Work): Stand {
    match work
    case Release(name, members) => ReleaseAll(st, ReleaseMembers(st), members).(release := name)
    case Upgrade(targets) => FollowAll(st, catalog, targets, true)
    case Restore(restored) => FollowAll(st, catalog, restored, false).(release := "")
    case Otherwise => st
  }

  function Replay(st: Stand, catalog: Catalog, a: Action): Stand {
    var done := Do(st, catalog, a.work);
    done.(synced := if a.at != 0 then a.at else st.synced)
  }

  function ReplayAll(st: Stand, catalog: Catalog, done: seq<Action>): Stand
    decreases |done|
  {
    if done == [] then st else ReplayAll(Replay(st, catalog, done[0]), catalog, done[1..])
  }

  // ---------- the log ----------

  function Done(log: seq<Action>): seq<Action> {
    if log == [] then []
    else if log[0].complete then [log[0]] + Done(log[1..])
    else Done(log[1..])
  }

  function Newer(log: seq<Action>, since: nat): seq<Action> {
    if log == [] then []
    else if log[0].at > since then [log[0]] + Newer(log[1..], since)
    else Newer(log[1..], since)
  }

  function Reversed(log: seq<Action>): seq<Action> {
    if log == [] then [] else Reversed(log[1..]) + [log[0]]
  }

  function Joined(pages: seq<seq<Action>>): seq<Action> {
    if pages == [] then [] else pages[0] + Joined(pages[1..])
  }

  /** Stable, by the time an action was proposed. */
  function Insert(a: Action, sorted: seq<Action>): seq<Action> {
    if sorted == [] || a.at <= sorted[0].at then [a] + sorted else [sorted[0]] + Insert(a, sorted[1..])
  }

  function SortedByTime(log: seq<Action>): seq<Action> {
    if log == [] then [] else Insert(log[0], SortedByTime(log[1..]))
  }

  /** The baton's own row follows its version, when the catalog has it. */
  function FollowVersion(st: Stand, catalog: Catalog, baton: string, version: string): Stand {
    if version == "" || BATON + version !in catalog || baton !in st.rows || st.rows[baton].wasm == BATON + version then st
    else st.(rows := st.rows[baton := st.rows[baton].(wasm := BATON + version, wasmHash := catalog[BATON + version])])
  }

  /** `newestFirst` is what was found newer than the cursor. */
  function SyncStep(st: Stand, catalog: Catalog, baton: string, version: string, newestFirst: seq<Action>): Stand {
    ReplayAll(FollowVersion(st, catalog, baton, version), catalog, SortedByTime(Done(newestFirst)))
  }

  ghost predicate NewestFirst(log: seq<Action>) {
    forall i, j :: 0 <= i < j < |log| ==> log[i].at >= log[j].at
  }

  lemma {:induction false} NewerOfOld(log: seq<Action>, since: nat)
    requires NewestFirst(log) && (log != [] ==> log[0].at <= since)
    ensures Newer(log, since) == []
  {
    if log != [] {
      assert log[1..] != [] ==> log[1..][0].at <= log[0].at;
      NewerOfOld(log[1..], since);
    }
  }

  lemma {:induction false} NewerAppend(a: seq<Action>, b: seq<Action>, since: nat)
    ensures Newer(a + b, since) == Newer(a, since) + Newer(b, since)
  {
    if a == [] {
      assert a + b == b;
    } else {
      assert (a + b)[1..] == a[1..] + b;
      NewerAppend(a[1..], b, since);
    }
  }

  class Conductor {
    var rows: map<string, Row>
    var release: string
    var synced: nat
    const catalog: Catalog
    const baton: string

    ghost function View(): Stand
      reads this
    {
      Stand(rows, release, synced)
    }

    constructor (st: Stand, catalog: Catalog, baton: string)
      ensures View() == st && this.catalog == catalog && this.baton == baton
    {
      rows, release, synced := st.rows, st.release, st.synced;
      this.catalog, this.baton := catalog, baton;
    }

    /** Stops at the first action the cursor has seen: the pages come newest first. */
    method ActionsSince(pages: seq<seq<Action>>) returns (out: seq<Action>)
      requires NewestFirst(Joined(pages))
      ensures out == Newer(Joined(pages), synced)
    {
      out := [];
      for i := 0 to |pages|
        invariant NewestFirst(Joined(pages[i..]))
        invariant out + Newer(Joined(pages[i..]), synced) == Newer(Joined(pages), synced)
      {
        assert pages[i..][0] == pages[i] && pages[i..][1..] == pages[i + 1..];
        ghost var tail := Joined(pages[i + 1..]);
        var page := pages[i];
        for j := 0 to |page|
          invariant NewestFirst(page[j..] + tail)
          invariant out + Newer(page[j..] + tail, synced) == Newer(Joined(pages), synced)
        {
          ghost var rest := page[j..] + tail;
          assert rest[0] == page[j] && rest[1..] == page[j + 1..] + tail;
          if page[j].at <= synced {
            NewerOfOld(rest, synced);
            return;
          }
          assert out + ([page[j]] + Newer(rest[1..], synced)) == out + [page[j]] + Newer(rest[1..], synced);
          out := out + [page[j]];
        }
        assert page[|page|..] + tail == tail;
      }
    }

    method FollowEach(ts: seq<Target>, clears: bool)
      modifies this`rows, this`release
      ensures View() == FollowAll(old(View()), catalog, ts, clears)
    {
      for i := 0 to |ts|
        invariant synced == old(synced) && FollowAll(View(), catalog, ts[i..], clears) == FollowAll(old(View()), catalog, ts, clears)
      {
        assert ts[i..][0] == ts[i] && ts[i..][1..] == ts[i + 1..];
        var t := ts[i];
        if t.id in rows && t.sha != "" && rows[t.id].wasmHash != t.sha {
          var w := WasmFor(catalog, t.sha, t.hint);
          rows := rows[t.id := rows[t.id].(wasm := if w.Some? then w.value else rows[t.id].wasm, wasmHash := t.sha)];
          if clears {
            release := "";
          }
        }
      }
    }

    method ReleaseEach(ms: seq<Member>)
      modifies this`rows
      ensures View() == ReleaseAll(old(View()), ReleaseMembers(old(View())), ms)
    {
      var among := set id | id in rows && !(ORCHESTRATION <= rows[id].wasm);
      for i := 0 to |ms|
        invariant synced == old(synced) && release == old(release)
        invariant ReleaseAll(View(), among, ms[i..]) == ReleaseAll(old(View()), among, ms)
      {
        assert ms[i..][0] == ms[i] && ms[i..][1..] == ms[i + 1..];
        var m := ms[i];
        if m.id in among && m.id in rows {
          var row := rows[m.id];
          if m.wasm.Some? {
            row := row.(wasm := m.wasm.value.key, wasmHash := m.wasm.value.sha);
          }
          if m.bundle.Some? {
            row := row.(content := m.bundle.value.namespace, props := m.bundle.value.props);
          }
          rows := rows[m.id := row];
        }
      }
    }

    method Sync(version: string, pages: seq<seq<Action>>)
      requires NewestFirst(Joined(pages))
      modifies this`rows, this`release, this`synced
      ensures View() == SyncStep(old(View()), catalog, baton, version, Newer(Joined(pages), old(synced)))
    {
      if version != "" && BATON + version in catalog && baton in rows && rows[baton].wasm != BATON + version {
        rows := rows[baton := rows[baton].(wasm := BATON + version, wasmHash := catalog[BATON + version])];
      }
      var newer := ActionsSince(pages);
      var done := SortedByTime(Done(newer));
      ghost var start := View();
      for i := 0 to |done|
        invariant ReplayAll(View(), catalog, done[i..]) == ReplayAll(start, catalog, done)
      {
        assert done[i..][0] == done[i] && done[i..][1..] == done[i + 1..];
        var a := done[i];
        match a.work {
          case Release(name, members) =>
            ReleaseEach(members);
            release := name;
          case Upgrade(targets) => FollowEach(targets, true);
          case Restore(restored) =>
            FollowEach(restored, false);
            release := "";
          case Otherwise =>
        }
        if a.at != 0 {
          synced := a.at;
        }
      }
    }
  }
}
