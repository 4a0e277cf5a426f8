/** The group upgrade is all or nothing: it ends with every target on the new module, or with every canister,
    snapshot and row as before. */
module UpgradeRuns {
  import opened Options
  import opened Upgrade

  /** Snapshots are numbered as they were taken. */
  ghost predicate Numbered(s: State) {
    forall id <- s.hosts.Keys :: forall x <- s.hosts[id].snapshots :: x.id < s.nextSnapshot
  }

  /** What the takes of an upgrade add to a canister: one snapshot of its image per target on it. */
  function Own(s: State, ts: seq<Taken>, id: string): seq<Snapshot>
    requires id in s.hosts
  {
    if ts == [] then []
    else if ts[0].name in s.rows && s.rows[ts[0].name].id == id
    then [Snapshot(ts[0].snapshot, s.hosts[id].image)] + Own(s, ts[1..], id)
    else Own(s, ts[1..], id)
  }

  /** What a taken entry remembers is the row as it was, and the entries are numbered from `from` on. */
  ghost predicate Remembers(s: State, ts: seq<Taken>, from: nat) {
    forall i :: 0 <= i < |ts| ==>
      ts[i].snapshot == from + i && ts[i].name in s.rows && s.rows[ts[i].name].id in s.hosts
      && ts[i].wasm == s.rows[ts[i].name].wasm && ts[i].wasmHash == s.rows[ts[i].name].wasmHash
  }

  lemma {:induction false} OwnSame(s: State, t: State, ts: seq<Taken>, id: string)
    requires id in s.hosts && id in t.hosts && s.rows == t.rows && s.hosts[id].image == t.hosts[id].image
    ensures Own(s, ts, id) == Own(t, ts, id)
  {
    if ts != [] { OwnSame(s, t, ts[1..], id); }
  }

  predicate HasNext(s: State, names: seq<string>)
    requires Knows(s, names)
  {
    names != [] && |s.hosts[s.rows[names[0]].id].snapshots| < SNAPSHOTS_MAX
  }

  function FirstTaken(s: State, names: seq<string>): Taken
    requires Knows(s, names) && names != []
  {
    Taken(names[0], s.rows[names[0]].wasm, s.rows[names[0]].wasmHash, s.nextSnapshot)
  }

  lemma TakeNext(s: State, names: seq<string>) returns (u: State)
    requires Knows(s, names) && HasNext(s, names)
    ensures u == TakeOne(s, s.rows[names[0]].id) && Knows(u, names[1..])
    ensures var (t, rest, ok) := TakeAll(u, names[1..]); TakeAll(s, names) == (t, [FirstTaken(s, names)] + rest, ok)
  {
    u := TakeOne(s, s.rows[names[0]].id);
  }

  lemma RemembersTail(s: State, ts: seq<Taken>, from: nat)
    requires Remembers(s, ts, from) && ts != []
    ensures Remembers(s, ts[1..], from + 1)
  {
    forall i | 0 <= i < |ts[1..]| ensures ts[1..][i] == ts[i + 1] {}
  }

  lemma RemembersCons(s: State, t: Taken, ts: seq<Taken>, from: nat)
    requires Remembers(s, [t], from) && Remembers(s, ts, from + 1)
    ensures Remembers(s, [t] + ts, from)
  {
    assert [t][0] == t;
    forall i | 1 <= i < |ts| + 1 ensures ([t] + ts)[i] == ts[i - 1] {}
  }

  lemma RemembersSame(s: State, u: State, ts: seq<Taken>, from: nat)
    requires Remembers(u, ts, from) && u.rows == s.rows && u.hosts.Keys == s.hosts.Keys
    ensures Remembers(s, ts, from)
  {
  }

  lemma {:induction false} TakeAllRemembers(s: State, names: seq<string>)
    requires Knows(s, names)
    ensures var (t, ts, ok) := TakeAll(s, names);
      t.rows == s.rows && t.hosts.Keys == s.hosts.Keys && Remembers(s, ts, s.nextSnapshot) && t.nextSnapshot == s.nextSnapshot + |ts|
    decreases |names|
  {
    if HasNext(s, names) {
      var u := TakeNext(s, names);
      TakeAllRemembers(u, names[1..]);
      RemembersSame(s, u, TakeAll(u, names[1..]).1, s.nextSnapshot + 1);
      assert names[0] in names;
      RemembersCons(s, FirstTaken(s, names), TakeAll(u, names[1..]).1, s.nextSnapshot);
    }
  }

  lemma OwnCons(s: State, t: Taken, ts: seq<Taken>, id: string, before: seq<Snapshot>)
    requires id in s.hosts && t.name in s.rows
    ensures before + Own(s, [t] + ts, id) ==
      if s.rows[t.name].id == id then before + [Snapshot(t.snapshot, s.hosts[id].image)] + Own(s, ts, id) else before + Own(s, ts, id)
  {
    assert ([t] + ts)[1..] == ts;
  }

  lemma {:induction false} TakeAllHost(s: State, names: seq<string>, id: string)
    requires Knows(s, names) && id in s.hosts
    ensures var (t, ts, ok) := TakeAll(s, names);
      id in t.hosts && t.hosts[id] == Host(s.hosts[id].image, s.hosts[id].snapshots + Own(s, ts, id))
    decreases |names|
  {
    if HasNext(s, names) {
      var u := TakeNext(s, names);
      var rest := TakeAll(u, names[1..]).1;
      TakeAllHost(u, names[1..], id);
      OwnSame(s, u, rest, id);
      assert names[0] in names;
      OwnCons(s, FirstTaken(s, names), rest, id, s.hosts[id].snapshots);
    } else {
      assert s.hosts[id].snapshots + [] == s.hosts[id].snapshots;
    }
  }

  /** Taking only adds the snapshots, in order. */
  lemma TakeAllEffect(s: State, names: seq<string>)
    requires Knows(s, names)
    ensures var (t, ts, ok) := TakeAll(s, names);
      && t.rows == s.rows && t.hosts.Keys == s.hosts.Keys && Remembers(s, ts, s.nextSnapshot) && t.nextSnapshot == s.nextSnapshot + |ts|
      && forall id <- s.hosts.Keys :: t.hosts[id] == Host(s.hosts[id].image, s.hosts[id].snapshots + Own(s, ts, id))
  {
    TakeAllRemembers(s, names);
    forall id <- s.hosts.Keys { TakeAllHost(s, names, id); }
  }

  lemma {:induction false} InstallAllHost(s: State, names: seq<string>, w: Wasm, attempts: seq<Attempt>, id: string)
    requires Knows(s, names) && |names| == |attempts| && id in s.hosts
    ensures var t := InstallAll(s, names, w, attempts).0;
      id in t.hosts && t.hosts[id].snapshots == s.hosts[id].snapshots
      && (t.hosts[id] == s.hosts[id] || exists n <- names :: s.rows[n].id == id)
    decreases |names|
  {
    if names != [] {
      var (u, ok) := InstallOne(s, names[0], w, attempts[0]);
      assert Knows(u, names[1..]) && names[0] in names;
      if ok { InstallAllHost(u, names[1..], w, attempts[1..], id); }
    }
  }

  lemma {:induction false} InstallAllRow(s: State, names: seq<string>, w: Wasm, attempts: seq<Attempt>, n: string)
    requires Knows(s, names) && |names| == |attempts| && n in s.rows
    ensures var t := InstallAll(s, names, w, attempts).0;
      n in t.rows && (t.rows[n] == s.rows[n] || (n in names && t.rows[n] == s.rows[n].(wasm := w.key, wasmHash := w.sha)))
    decreases |names|
  {
    if names != [] {
      var (u, ok) := InstallOne(s, names[0], w, attempts[0]);
      assert Knows(u, names[1..]) && names[0] in names;
      if ok { InstallAllRow(u, names[1..], w, attempts[1..], n); }
    }
  }

  lemma {:induction false} InstallAllTakesNone(s: State, names: seq<string>, w: Wasm, attempts: seq<Attempt>)
    requires Knows(s, names) && |names| == |attempts|
    ensures InstallAll(s, names, w, attempts).0.nextSnapshot == s.nextSnapshot
    decreases |names|
  {
    if names != [] {
      var (u, ok) := InstallOne(s, names[0], w, attempts[0]);
      assert Knows(u, names[1..]);
      if ok { InstallAllTakesNone(u, names[1..], w, attempts[1..]); }
    }
  }

  /** Installing changes images and what rows say they run, of targets only, and no snapshot. */
  lemma InstallAllFrame(s: State, names: seq<string>, w: Wasm, attempts: seq<Attempt>)
    requires Knows(s, names) && |names| == |attempts|
    ensures var t := InstallAll(s, names, w, attempts).0;
      && SameKeys(s, t) && t.nextSnapshot == s.nextSnapshot
      && (forall id <- s.hosts.Keys :: t.hosts[id].snapshots == s.hosts[id].snapshots)
      && (forall id <- s.hosts.Keys :: t.hosts[id] == s.hosts[id] || exists n <- names :: s.rows[n].id == id)
      && (forall n <- s.rows.Keys :: t.rows[n] == s.rows[n] || (n in names && t.rows[n] == s.rows[n].(wasm := w.key, wasmHash := w.sha)))
  {
    LoopsKeepKnowing(s, names, w, attempts);
    InstallAllTakesNone(s, names, w, attempts);
    forall id <- s.hosts.Keys { InstallAllHost(s, names, w, attempts, id); }
    forall n <- s.rows.Keys { InstallAllRow(s, names, w, attempts, n); }
  }

  /** It goes through exactly when every attempt works, and then every target runs the new module. */
  lemma {:induction false} InstallAllWorks(s: State, names: seq<string>, w: Wasm, attempts: seq<Attempt>)
    requires Knows(s, names) && |names| == |attempts|
    ensures InstallAll(s, names, w, attempts).1 <==> forall a <- attempts :: a.Works?
    ensures InstallAll(s, names, w, attempts).1 ==> Runs(InstallAll(s, names, w, attempts).0, names, w)
    decreases |names|
  {
    if names != [] {
      var (u, ok) := InstallOne(s, names[0], w, attempts[0]);
      assert Knows(u, names[1..]) && attempts[0] in attempts;
      assert forall a <- attempts :: a == attempts[0] || a in attempts[1..];
      if ok {
        InstallAllWorks(u, names[1..], w, attempts[1..]);
        InstallAllFrame(u, names[1..], w, attempts[1..]);
        StillRuns(s, u, names, w, attempts);
      }
    }
  }

  ghost predicate RunsAt(s: State, n: string, w: Wasm) {
    && n in s.rows && s.rows[n].id in s.hosts && s.hosts[s.rows[n].id].image.code == w.sha
    && s.rows[n].wasm == w.key && s.rows[n].wasmHash == w.sha
  }

  ghost predicate Runs(s: State, names: seq<string>, w: Wasm) {
    forall n <- names :: RunsAt(s, n, w)
  }

  lemma StillRuns(s: State, u: State, names: seq<string>, w: Wasm, attempts: seq<Attempt>)
    requires Knows(s, names) && names != [] && |names| == |attempts| && InstallOne(s, names[0], w, attempts[0]) == (u, true)
    requires Knows(u, names[1..])
    requires InstallAll(u, names[1..], w, attempts[1..]).1 ==> Runs(InstallAll(u, names[1..], w, attempts[1..]).0, names[1..], w)
    ensures InstallAll(u, names[1..], w, attempts[1..]).1 ==> Runs(InstallAll(u, names[1..], w, attempts[1..]).0, names, w)
  {
    var (t, ok) := InstallAll(u, names[1..], w, attempts[1..]);
    InstallAllFrame(u, names[1..], w, attempts[1..]);
    if ok {
      var n, id := names[0], s.rows[names[0]].id;
      assert u.rows[n] == s.rows[n].(wasm := w.key, wasmHash := w.sha) && u.hosts[id].image.code == w.sha;
      if t.hosts[id] != u.hosts[id] {
        var m :| m in names[1..] && u.rows[m].id == id;
        assert RunsAt(t, m, w);
      }
      assert RunsAt(t, n, w);
      assert forall m <- names :: m == n || m in names[1..];
    }
  }

  // ---------- rolling back ----------

  lemma {:induction false} ImageOfAppend(a: seq<Snapshot>, b: seq<Snapshot>, id: nat)
    requires forall x <- a :: x.id != id
    ensures ImageOf(a + b, id) == ImageOf(b, id) && Without(a + b, id) == a + Without(b, id)
  {
    if a == [] {
      assert a + b == b;
    } else {
      assert (a + b)[1..] == a[1..] + b && a[0] in a;
      assert forall x <- a[1..] :: x in a;
      ImageOfAppend(a[1..], b, id);
      assert [a[0]] + (a[1..] + Without(b, id)) == a + Without(b, id);
    }
  }

  lemma {:induction false} OwnIsLater(s: State, ts: seq<Taken>, id: string, from: nat)
    requires id in s.hosts && Remembers(s, ts, from)
    ensures forall x <- Own(s, ts, id) :: x.id >= from && x.id < from + |ts| && x.image == s.hosts[id].image
  {
    if ts != [] {
      RemembersTail(s, ts, from);
      OwnIsLater(s, ts[1..], id, from + 1);
    }
  }

  lemma {:induction false} WithoutAbsent(snaps: seq<Snapshot>, id: nat)
    requires forall x <- snaps :: x.id != id
    ensures Without(snaps, id) == snaps
  {
    if snaps != [] {
      assert snaps[0] in snaps && forall x <- snaps[1..] :: x in snaps;
      WithoutAbsent(snaps[1..], id);
    }
  }

  ghost predicate OnTarget(s: State, ts: seq<Taken>, id: string) {
    exists t <- ts :: t.name in s.rows && s.rows[t.name].id == id
  }

  ghost predicate IsTarget(ts: seq<Taken>, name: string) {
    exists t <- ts :: t.name == name
  }

  ghost predicate HostUndoing(s: State, h: Host, ts: seq<Taken>, id: string)
    requires id in s.hosts
  {
    && h.snapshots == s.hosts[id].snapshots + Own(s, ts, id)
    && (h.image == s.hosts[id].image || OnTarget(s, ts, id))
  }

  ghost predicate RowUndoing(s: State, row: Row, ts: seq<Taken>, name: string)
    requires name in s.rows
  {
    && row == s.rows[name].(wasm := row.wasm, wasmHash := row.wasmHash)
    && (row == s.rows[name] || IsTarget(ts, name))
  }

  /** The state between the takes and the end of the roll back: what `ts` still has to undo. */
  ghost predicate Undoing(s: State, x: State, ts: seq<Taken>, from: nat) {
    && Remembers(s, ts, from) && s.nextSnapshot <= from
    && x.hosts.Keys == s.hosts.Keys && x.rows.Keys == s.rows.Keys
    && (forall id <- s.hosts.Keys :: HostUndoing(s, x.hosts[id], ts, id))
    && (forall n <- s.rows.Keys :: RowUndoing(s, x.rows[n], ts, n))
  }

  /** Loading and deleting the first snapshot puts its canister's image back and leaves the later snapshots. */
  lemma FirstSnapshotLoads(s: State, h: Host, ts: seq<Taken>, from: nat, id: string)
    requires Numbered(s) && Remembers(s, ts, from) && s.nextSnapshot <= from && ts != []
    requires id == s.rows[ts[0].name].id && h.snapshots == s.hosts[id].snapshots + Own(s, ts, id)
    ensures ImageOf(h.snapshots, from) == Some(s.hosts[id].image)
    ensures Without(h.snapshots, from) == s.hosts[id].snapshots + Own(s, ts[1..], id)
  {
    var rest := ts[1..];
    RemembersTail(s, ts, from);
    OwnIsLater(s, rest, id, from + 1);
    var own := [Snapshot(from, s.hosts[id].image)] + Own(s, rest, id);
    ImageOfAppend(s.hosts[id].snapshots, own, from);
    assert own[1..] == Own(s, rest, id);
    WithoutAbsent(Own(s, rest, id), from);
  }

  lemma RestoreOneUndoesHosts(s: State, x: State, ts: seq<Taken>, from: nat, i: string)
    requires Numbered(s) && Undoing(s, x, ts, from) && ts != [] && i in s.hosts
    requires ts[0].name in x.rows && x.rows[ts[0].name].id == s.rows[ts[0].name].id && s.rows[ts[0].name].id in x.hosts
    ensures i in RestoreOne(x, ts[0]).hosts && HostUndoing(s, RestoreOne(x, ts[0]).hosts[i], ts[1..], i)
  {
    var id := s.rows[ts[0].name].id;
    assert HostUndoing(s, x.hosts[i], ts, i);
    if i == id { FirstSnapshotLoads(s, x.hosts[id], ts, from, id); }
    assert forall u <- ts :: u == ts[0] || u in ts[1..];
  }

  lemma RestoreOneUndoesRows(s: State, x: State, ts: seq<Taken>, from: nat, n: string)
    requires Undoing(s, x, ts, from) && ts != [] && n in s.rows
    requires ts[0].name in x.rows && x.rows[ts[0].name].id in x.hosts
    ensures n in RestoreOne(x, ts[0]).rows && RowUndoing(s, RestoreOne(x, ts[0]).rows[n], ts[1..], n)
  {
    assert RowUndoing(s, x.rows[n], ts, n);
    assert forall u <- ts :: u == ts[0] || u in ts[1..];
  }

  lemma FirstIsKnown(s: State, x: State, ts: seq<Taken>, from: nat)
    requires Undoing(s, x, ts, from) && ts != []
    ensures ts[0].name in s.rows && ts[0].name in x.rows && x.rows[ts[0].name].id == s.rows[ts[0].name].id
    ensures s.rows[ts[0].name].id in x.hosts
  {
    assert RowUndoing(s, x.rows[ts[0].name], ts, ts[0].name);
  }

  lemma RestoreOneUndoes(s: State, x: State, ts: seq<Taken>, from: nat)
    requires Numbered(s) && Undoing(s, x, ts, from) && ts != []
    ensures ts[0].name in x.rows && x.rows[ts[0].name].id in x.hosts
    ensures Undoing(s, RestoreOne(x, ts[0]), ts[1..], from + 1)
  {
    FirstIsKnown(s, x, ts, from);
    RemembersTail(s, ts, from);
    var y := RestoreOne(x, ts[0]);
    assert y.hosts.Keys == s.hosts.Keys && y.rows.Keys == s.rows.Keys;
    forall i <- s.hosts.Keys { RestoreOneUndoesHosts(s, x, ts, from, i); }
    forall n <- s.rows.Keys { RestoreOneUndoesRows(s, x, ts, from, n); }
  }

  lemma {:induction false} RestoreAllUndoes(s: State, x: State, ts: seq<Taken>, from: nat)
    requires Numbered(s) && Undoing(s, x, ts, from)
    ensures KnowsTaken(x, ts)
    ensures RestoreAll(x, ts).hosts == s.hosts && RestoreAll(x, ts).rows == s.rows
    decreases |ts|
  {
    forall t <- ts ensures t.name in x.rows && x.rows[t.name].id in x.hosts {
      var i :| 0 <= i < |ts| && ts[i] == t;
      assert RowUndoing(s, x.rows[t.name], ts, t.name);
    }
    if ts != [] {
      RestoreOneUndoes(s, x, ts, from);
      RestoreAllUndoes(s, RestoreOne(x, ts[0]), ts[1..], from + 1);
    } else {
      forall id <- s.hosts.Keys ensures x.hosts[id] == s.hosts[id] {
        assert HostUndoing(s, x.hosts[id], ts, id);
      }
      forall n <- s.rows.Keys ensures x.rows[n] == s.rows[n] {
        assert RowUndoing(s, x.rows[n], ts, n);
      }
    }
  }

  lemma TakenAreTargets(s: State, names: seq<string>, n: string)
    requires Knows(s, names) && TakeAll(s, names).2 && n in names
    ensures IsTarget(TakeAll(s, names).1, n)
  {
    TakeAllKnows(s, names);
    var i :| 0 <= i < |names| && names[i] == n;
    assert TakeAll(s, names).1[i] in TakeAll(s, names).1;
  }

  /** What an upgrade has changed when its installs stop, the roll back undoes. */
  lemma StoppedIsUndoing(s: State, names: seq<string>, w: Wasm, attempts: seq<Attempt>)
    requires Knows(s, names) && |names| == |attempts| && TakeAll(s, names).2
    ensures Knows(TakeAll(s, names).0, names)
    ensures Undoing(s, InstallAll(TakeAll(s, names).0, names, w, attempts).0, TakeAll(s, names).1, s.nextSnapshot)
  {
    TakeAllEffect(s, names);
    var taken, ts := TakeAll(s, names).0, TakeAll(s, names).1;
    assert Knows(taken, names);
    InstallAllFrame(taken, names, w, attempts);
    var x := InstallAll(taken, names, w, attempts).0;
    forall n <- names { TakenAreTargets(s, names, n); }
    forall id <- s.hosts.Keys ensures HostUndoing(s, x.hosts[id], ts, id) {
      if x.hosts[id] != taken.hosts[id] {
        var n :| n in names && s.rows[n].id == id;
        assert IsTarget(ts, n);
      }
    }
  }

  /** All or nothing, the nothing half: after an upgrade that rolled back, every canister runs what it ran with
      the memory it had, has the snapshots it had, and every row says what it said. */
  lemma RollBackRestoresEverything(s: State, names: seq<string>, w: Wasm, attempts: seq<Attempt>, note: string, keep: nat)
    requires Numbered(s) && Knows(s, names) && |names| == |attempts|
    requires UpgradeStep(s, names, w, attempts, note, keep).1 == RolledBack
    ensures UpgradeStep(s, names, w, attempts, note, keep).0.hosts == s.hosts
    ensures UpgradeStep(s, names, w, attempts, note, keep).0.rows == s.rows
  {
    StoppedIsUndoing(s, names, w, attempts);
    RestoreAllUndoes(s, InstallAll(TakeAll(s, names).0, names, w, attempts).0, TakeAll(s, names).1, s.nextSnapshot);
  }

  // ---------- going through ----------

  lemma NewestTwice(snaps: seq<Snapshot>, keep: nat)
    ensures Newest(Newest(snaps, keep), keep) == Newest(snaps, keep) && |Newest(snaps, keep)| <= keep
    ensures |snaps| > 0 && keep > 0 ==> |Newest(snaps, keep)| > 0 && Newest(snaps, keep)[|Newest(snaps, keep)| - 1] == snaps[|snaps| - 1]
  {
  }

  lemma OnTargetNext(s: State, u: State, ts: seq<Taken>, id: string)
    requires KnowsTaken(s, ts) && ts != [] && SameKeys(s, u)
    ensures KnowsTaken(u, ts[1..]) && ts[0].name in s.rows && s.rows[ts[0].name].id in s.hosts
    ensures OnTarget(s, ts, id) <==> OnTarget(u, ts[1..], id) || id == s.rows[ts[0].name].id
  {
    assert ts[0] in ts && forall t <- ts :: t == ts[0] || t in ts[1..];
  }

  lemma KeepOneHost(s: State, t: Taken, note: string, keep: nat, id: string)
    requires t.name in s.rows && s.rows[t.name].id in s.hosts && id in s.hosts
    ensures SameKeys(s, KeepOne(s, t, note, keep))
    ensures KeepOne(s, t, note, keep).hosts[id] ==
      if id == s.rows[t.name].id then s.hosts[id].(snapshots := Newest(s.hosts[id].snapshots, keep)) else s.hosts[id]
  {
  }

  /** Pruning touches only the targets' snapshots... */
  lemma {:induction false} KeepAllHost(s: State, ts: seq<Taken>, note: string, keep: nat, id: string)
    requires KnowsTaken(s, ts) && id in s.hosts
    ensures var t := KeepAll(s, ts, note, keep);
      id in t.hosts && t.hosts[id] ==
        if OnTarget(s, ts, id) then s.hosts[id].(snapshots := Newest(s.hosts[id].snapshots, keep)) else s.hosts[id]
    decreases |ts|
  {
    if ts != [] {
      assert ts[0] in ts;
      var u := KeepOne(s, ts[0], note, keep);
      KeepOneHost(s, ts[0], note, keep, id);
      OnTargetNext(s, u, ts, id);
      KeepAllHost(u, ts[1..], note, keep, id);
      NewestTwice(s.hosts[id].snapshots, keep);
    }
  }

  /** ... and what their rows say of snapshots. */
  lemma {:induction false} KeepAllRows(s: State, ts: seq<Taken>, note: string, keep: nat)
    requires KnowsTaken(s, ts)
    ensures var t := KeepAll(s, ts, note, keep);
      && SameKeys(s, t)
      && (forall n <- s.rows.Keys :: t.rows[n].wasm == s.rows[n].wasm && t.rows[n].wasmHash == s.rows[n].wasmHash)
      && (forall n <- s.rows.Keys :: !IsTarget(ts, n) ==> t.rows[n] == s.rows[n])
    decreases |ts|
  {
    if ts != [] {
      var u := KeepOne(s, ts[0], note, keep);
      assert ts[0] in ts && KnowsTaken(u, ts[1..]);
      KeepAllRows(u, ts[1..], note, keep);
    }
  }

  lemma KeepAllEffect(s: State, ts: seq<Taken>, note: string, keep: nat)
    requires KnowsTaken(s, ts)
    ensures var t := KeepAll(s, ts, note, keep);
      && SameKeys(s, t)
      && (forall id <- s.hosts.Keys :: t.hosts[id] ==
            if OnTarget(s, ts, id) then s.hosts[id].(snapshots := Newest(s.hosts[id].snapshots, keep)) else s.hosts[id])
      && (forall n <- s.rows.Keys :: t.rows[n].wasm == s.rows[n].wasm && t.rows[n].wasmHash == s.rows[n].wasmHash)
      && (forall n <- s.rows.Keys :: !IsTarget(ts, n) ==> t.rows[n] == s.rows[n])
  {
    KeepAllRows(s, ts, note, keep);
    forall id <- s.hosts.Keys
      ensures KeepAll(s, ts, note, keep).hosts[id] ==
        if OnTarget(s, ts, id) then s.hosts[id].(snapshots := Newest(s.hosts[id].snapshots, keep)) else s.hosts[id]
    {
      KeepAllHost(s, ts, note, keep, id);
    }
  }

  /** The takes succeed or not; given that they do, the outcome follows the attempts. */
  lemma OutcomeIff(s: State, names: seq<string>, w: Wasm, attempts: seq<Attempt>, note: string, keep: nat)
    requires Knows(s, names) && |names| == |attempts|
    ensures var out := UpgradeStep(s, names, w, attempts, note, keep).1;
      && (out.NotTaken? <==> !TakeAll(s, names).2)
      && (out.Upgraded? <==> TakeAll(s, names).2 && forall a <- attempts :: a.Works?)
      && (out.RolledBack? <==> TakeAll(s, names).2 && exists a <- attempts :: a.Breaks?)
  {
    TakeAllKnows(s, names);
    var (taken, ts, ok) := TakeAll(s, names);
    assert Knows(taken, names);
    InstallAllWorks(taken, names, w, attempts);
  }

  // What each phase of a successful upgrade did, between the states around it.

  ghost predicate TookAll(s: State, taken: State, ts: seq<Taken>, names: seq<string>) {
    && taken.rows == s.rows && taken.hosts.Keys == s.hosts.Keys
    && |ts| == |names| && (forall i :: 0 <= i < |ts| ==> ts[i].name == names[i])
    && (forall id <- s.hosts.Keys :: taken.hosts[id] == Host(s.hosts[id].image, s.hosts[id].snapshots + Own(s, ts, id)))
  }

  ghost predicate Installed(s: State, x: State, names: seq<string>, w: Wasm)
    requires Knows(s, names)
  {
    && SameKeys(s, x) && Runs(x, names, w)
    && (forall id <- s.hosts.Keys :: x.hosts[id].snapshots == s.hosts[id].snapshots)
    && (forall id <- s.hosts.Keys :: x.hosts[id] == s.hosts[id] || exists n <- names :: s.rows[n].id == id)
    && (forall n <- s.rows.Keys :: x.rows[n] == s.rows[n] || n in names)
  }

  ghost predicate Kept(x: State, t: State, ts: seq<Taken>, keep: nat) {
    && SameKeys(x, t)
    && (forall id <- x.hosts.Keys :: t.hosts[id] ==
          if OnTarget(x, ts, id) then x.hosts[id].(snapshots := Newest(x.hosts[id].snapshots, keep)) else x.hosts[id])
    && (forall n <- x.rows.Keys :: t.rows[n].wasm == x.rows[n].wasm && t.rows[n].wasmHash == x.rows[n].wasmHash)
    && (forall n <- x.rows.Keys :: !IsTarget(ts, n) ==> t.rows[n] == x.rows[n])
  }

  lemma UpgradedThrough(s: State, names: seq<string>, w: Wasm, attempts: seq<Attempt>, note: string, keep: nat)
    returns (taken: State, ts: seq<Taken>, x: State)
    requires Knows(s, names) && |names| == |attempts|
    requires UpgradeStep(s, names, w, attempts, note, keep).1 == Upgraded
    ensures Knows(taken, names) && ts == TakeAll(s, names).1 && Remembers(s, ts, s.nextSnapshot)
    ensures TookAll(s, taken, ts, names) && Installed(taken, x, names, w)
    ensures Kept(x, UpgradeStep(s, names, w, attempts, note, keep).0, ts, keep)
  {
    TakeAllKnows(s, names);
    TakeAllEffect(s, names);
    taken, ts := TakeAll(s, names).0, TakeAll(s, names).1;
    InstallAllFrame(taken, names, w, attempts);
    InstallAllWorks(taken, names, w, attempts);
    x := InstallAll(taken, names, w, attempts).0;
    KeepAllEffect(x, ts, note, keep);
  }

  lemma KeptRunsAt(x: State, t: State, ts: seq<Taken>, keep: nat, n: string, w: Wasm)
    requires Kept(x, t, ts, keep) && RunsAt(x, n, w)
    ensures RunsAt(t, n, w)
  {
  }

  lemma NoTargetOfOthers(s: State, taken: State, ts: seq<Taken>, names: seq<string>, n: string)
    requires TookAll(s, taken, ts, names) && n !in names
    ensures !IsTarget(ts, n)
  {
  }

  lemma InstalledRuns(s: State, taken: State, ts: seq<Taken>, x: State, t: State, names: seq<string>, w: Wasm, keep: nat)
    requires Knows(s, names) && Knows(taken, names)
    requires TookAll(s, taken, ts, names) && Installed(taken, x, names, w) && Kept(x, t, ts, keep)
    ensures Runs(t, names, w) && SameKeys(s, t) && forall n <- s.rows.Keys :: n !in names ==> t.rows[n] == s.rows[n]
  {
    forall n <- names ensures RunsAt(t, n, w) { assert RunsAt(x, n, w); KeptRunsAt(x, t, ts, keep, n, w); }
    forall n <- s.rows.Keys | n !in names ensures t.rows[n] == s.rows[n] { NoTargetOfOthers(s, taken, ts, names, n); }
  }

  lemma TargetKeepsNewest(s: State, taken: State, ts: seq<Taken>, x: State, t: State, names: seq<string>, w: Wasm, keep: nat, n: string)
    requires Knows(s, names) && Knows(taken, names) && n in names
    requires TookAll(s, taken, ts, names) && Installed(taken, x, names, w) && Kept(x, t, ts, keep)
    ensures s.rows[n].id in t.hosts
    ensures t.hosts[s.rows[n].id].snapshots == Newest(s.hosts[s.rows[n].id].snapshots + Own(s, ts, s.rows[n].id), keep)
  {
    var i :| 0 <= i < |names| && names[i] == n;
    assert x.rows[n].id == s.rows[n].id;
    assert ts[i] in ts && OnTarget(x, ts, s.rows[n].id);
  }

  lemma OthersSpared(s: State, taken: State, ts: seq<Taken>, x: State, t: State, names: seq<string>, w: Wasm, keep: nat, id: string)
    requires Knows(s, names) && Knows(taken, names) && id in s.hosts && !(exists n <- names :: s.rows[n].id == id)
    requires TookAll(s, taken, ts, names) && Installed(taken, x, names, w) && Kept(x, t, ts, keep)
    ensures id in t.hosts && t.hosts[id] == s.hosts[id]
  {
    forall u <- ts ensures u.name in names && u.name in s.rows && x.rows[u.name].id == s.rows[u.name].id {
      var i :| 0 <= i < |ts| && ts[i] == u;
    }
    OwnOfNoTarget(s, ts, names, id);
    assert s.hosts[id].snapshots + [] == s.hosts[id].snapshots;
  }

  /** All or nothing, the other half: every target runs the new module and its row says so, every other row
      and canister is as it was, and a target keeps the newest `keep` of its snapshots and the ones taken. */
  lemma UpgradeReachesEveryTarget(s: State, names: seq<string>, w: Wasm, attempts: seq<Attempt>, note: string, keep: nat)
    requires Knows(s, names) && |names| == |attempts|
    requires UpgradeStep(s, names, w, attempts, note, keep).1 == Upgraded
    ensures var t := UpgradeStep(s, names, w, attempts, note, keep).0; var ts := TakeAll(s, names).1;
      && Runs(t, names, w) && SameKeys(s, t)
      && (forall n <- s.rows.Keys :: n !in names ==> t.rows[n] == s.rows[n])
      && (forall id <- s.hosts.Keys :: !(exists n <- names :: s.rows[n].id == id) ==> t.hosts[id] == s.hosts[id])
      && (forall n <- names :: t.hosts[s.rows[n].id].snapshots ==
            Newest(s.hosts[s.rows[n].id].snapshots + Own(s, ts, s.rows[n].id), keep))
  {
    var t := UpgradeStep(s, names, w, attempts, note, keep).0;
    var taken, ts, x := UpgradedThrough(s, names, w, attempts, note, keep);
    InstalledRuns(s, taken, ts, x, t, names, w, keep);
    forall id <- s.hosts.Keys | !(exists n <- names :: s.rows[n].id == id)
      ensures t.hosts[id] == s.hosts[id]
    {
      OthersSpared(s, taken, ts, x, t, names, w, keep, id);
    }
    forall n <- names
      ensures t.hosts[s.rows[n].id].snapshots == Newest(s.hosts[s.rows[n].id].snapshots + Own(s, ts, s.rows[n].id), keep)
    {
      TargetKeepsNewest(s, taken, ts, x, t, names, w, keep, n);
    }
  }

  lemma {:induction false} OwnOfNoTarget(s: State, ts: seq<Taken>, names: seq<string>, id: string)
    requires id in s.hosts && (forall t <- ts :: t.name in names && t.name in s.rows) && !(exists n <- names :: n in s.rows && s.rows[n].id == id)
    ensures Own(s, ts, id) == []
  {
    if ts != [] {
      assert ts[0] in ts && forall t <- ts[1..] :: t in ts;
      OwnOfNoTarget(s, ts[1..], names, id);
    }
  }

  lemma {:induction false} OwnIsTaken(s: State, ts: seq<Taken>, id: string, t: Taken)
    requires id in s.hosts && t in ts && t.name in s.rows && s.rows[t.name].id == id
    ensures Own(s, ts, id) != []
  {
    if ts[0] != t { OwnIsTaken(s, ts[1..], id, t); }
  }

  /** The snapshot that undoes the upgrade survives its pruning: the newest one kept has the image from before,
      and there are never more than `keep`. */
  lemma PreUpgradeImageSurvives(s: State, names: seq<string>, w: Wasm, attempts: seq<Attempt>, note: string, keep: nat, n: string)
    requires Knows(s, names) && |names| == |attempts| && n in names && keep > 0
    requires UpgradeStep(s, names, w, attempts, note, keep).1 == Upgraded
    ensures s.rows[n].id in UpgradeStep(s, names, w, attempts, note, keep).0.hosts
    ensures var id := s.rows[n].id; var snaps := UpgradeStep(s, names, w, attempts, note, keep).0.hosts[id].snapshots;
      && 0 < |snaps| <= keep && snaps[|snaps| - 1].image == s.hosts[id].image && snaps[|snaps| - 1].id >= s.nextSnapshot
  {
    var taken, ts, x := UpgradedThrough(s, names, w, attempts, note, keep);
    ImageKept(s, taken, ts, x, UpgradeStep(s, names, w, attempts, note, keep).0, names, w, keep, n);
  }

  lemma ImageKept(s: State, taken: State, ts: seq<Taken>, x: State, t: State, names: seq<string>, w: Wasm, keep: nat, n: string)
    requires Knows(s, names) && Knows(taken, names) && n in names && keep > 0 && Remembers(s, ts, s.nextSnapshot)
    requires TookAll(s, taken, ts, names) && Installed(taken, x, names, w) && Kept(x, t, ts, keep)
    ensures s.rows[n].id in t.hosts
    ensures var id := s.rows[n].id; var snaps := t.hosts[id].snapshots;
      0 < |snaps| <= keep && snaps[|snaps| - 1].image == s.hosts[id].image && snaps[|snaps| - 1].id >= s.nextSnapshot
  {
    TargetKeepsNewest(s, taken, ts, x, t, names, w, keep, n);
    var i :| 0 <= i < |names| && names[i] == n;
    OwnIsTaken(s, ts, s.rows[n].id, ts[i]);
    LastOwn(s, ts, s.rows[n].id, s.nextSnapshot, s.hosts[s.rows[n].id].snapshots, keep);
  }

  lemma LastOwn(s: State, ts: seq<Taken>, id: string, from: nat, before: seq<Snapshot>, keep: nat)
    requires id in s.hosts && Remembers(s, ts, from) && Own(s, ts, id) != [] && keep > 0
    ensures var snaps := Newest(before + Own(s, ts, id), keep);
      0 < |snaps| <= keep && snaps[|snaps| - 1].image == s.hosts[id].image && snaps[|snaps| - 1].id >= from
  {
    var own := Own(s, ts, id);
    OwnIsLater(s, ts, id, from);
    assert own[|own| - 1] in own;
    NewestTwice(before + own, keep);
  }

  /** A take that fails changes no image and no row; the snapshots taken before it stay. */
  lemma FailedTakeChangesNoImage(s: State, names: seq<string>, w: Wasm, attempts: seq<Attempt>, note: string, keep: nat)
    requires Knows(s, names) && |names| == |attempts|
    requires UpgradeStep(s, names, w, attempts, note, keep).1 == NotTaken
    ensures var t := UpgradeStep(s, names, w, attempts, note, keep).0;
      && t.rows == s.rows && t.hosts.Keys == s.hosts.Keys
      && forall id <- s.hosts.Keys :: t.hosts[id] == Host(s.hosts[id].image, s.hosts[id].snapshots + Own(s, TakeAll(s, names).1, id))
  {
    OutcomeIff(s, names, w, attempts, note, keep);
    TakeAllEffect(s, names);
  }

  /** How many of the targets are on a canister. */
  function CountOn(s: State, names: seq<string>, id: string): nat
    requires Knows(s, names)
  {
    if names == [] then 0 else (if s.rows[names[0]].id == id then 1 else 0) + CountOn(s, names[1..], id)
  }

  lemma {:induction false} CountSame(s: State, t: State, names: seq<string>, id: string)
    requires Knows(s, names) && Knows(t, names) && s.rows == t.rows
    ensures CountOn(s, names, id) == CountOn(t, names, id)
  {
    if names != [] { CountSame(s, t, names[1..], id); }
  }

  ghost predicate HasRoom(s: State, names: seq<string>, id: string)
    requires Knows(s, names) && id in s.hosts
  {
    CountOn(s, names, id) == 0 || |s.hosts[id].snapshots| + CountOn(s, names, id) <= SNAPSHOTS_MAX
  }

  /** The takes succeed exactly when every canister has room for a snapshot of each target on it. */
  lemma {:induction false} TakesSucceedIff(s: State, names: seq<string>)
    requires Knows(s, names)
    ensures TakeAll(s, names).2 <==> forall id <- s.hosts.Keys :: HasRoom(s, names, id)
    decreases |names|
  {
    if names != [] {
      assert names[0] in names;
      var row, rest := s.rows[names[0]], names[1..];
      if |s.hosts[row.id].snapshots| < SNAPSHOTS_MAX {
        var u := TakeOne(s, row.id);
        assert Knows(u, rest);
        TakesSucceedIff(u, rest);
        forall id <- s.hosts.Keys ensures HasRoom(s, names, id) <==> HasRoom(u, rest, id) { CountSame(s, u, rest, id); }
      } else {
        assert !HasRoom(s, names, row.id);
      }
    }
  }

  lemma {:induction false} CountedIsTarget(s: State, names: seq<string>, id: string) returns (n: string)
    requires Knows(s, names) && CountOn(s, names, id) > 0
    ensures n in names && s.rows[n].id == id
  {
    if s.rows[names[0]].id == id { n := names[0]; } else { n := CountedIsTarget(s, names[1..], id); }
  }

  /** Because at most `keep` are kept, an upgraded group has room for the next upgrade unless more targets share a
      canister than the platform's limit leaves. */
  lemma NextUpgradeHasRoom(s: State, names: seq<string>, w: Wasm, attempts: seq<Attempt>, note: string, keep: nat)
    requires Knows(s, names) && |names| == |attempts| && 0 < keep <= SNAPSHOTS_KEEP_MAX
    requires UpgradeStep(s, names, w, attempts, note, keep).1 == Upgraded
    requires forall id <- s.hosts.Keys :: CountOn(s, names, id) <= SNAPSHOTS_MAX - keep
    ensures var t := UpgradeStep(s, names, w, attempts, note, keep).0; Knows(t, names) && TakeAll(t, names).2
  {
    UpgradeReachesEveryTarget(s, names, w, attempts, note, keep);
    var t := UpgradeStep(s, names, w, attempts, note, keep).0;
    assert Knows(t, names);
    forall id <- t.hosts.Keys ensures HasRoom(t, names, id) {
      CountKept(s, t, names, id);
      if CountOn(s, names, id) > 0 {
        var n := CountedIsTarget(s, names, id);
        PreUpgradeImageSurvives(s, names, w, attempts, note, keep, n);
      }
    }
    TakesSucceedIff(t, names);
  }

  lemma {:induction false} CountKept(s: State, t: State, names: seq<string>, id: string)
    requires Knows(s, names) && Knows(t, names) && forall n <- names :: t.rows[n].id == s.rows[n].id
    ensures CountOn(s, names, id) == CountOn(t, names, id)
  {
    if names != [] {
      assert names[0] in names && forall n <- names[1..] :: n in names;
      CountKept(s, t, names[1..], id);
    }
  }

  /** One target to a canister always leaves room: the most that may be kept is one below the limit. */
  lemma {:induction false} DifferentCanistersCountOnce(s: State, names: seq<string>, id: string)
    requires Knows(s, names) && forall i, j :: 0 <= i < j < |names| ==> s.rows[names[i]].id != s.rows[names[j]].id
    ensures CountOn(s, names, id) <= 1 <= SNAPSHOTS_MAX - SNAPSHOTS_KEEP_MAX
  {
    if names != [] {
      DifferentCanistersCountOnce(s, names[1..], id);
      if CountOn(s, names[1..], id) > 0 { var n := CountedIsTarget(s, names[1..], id); }
    }
  }
}
