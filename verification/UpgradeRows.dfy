/** What a group upgrade leaves of each target: what its canister runs, which snapshots it keeps, and what its row says of
    them. */
module UpgradeRows {
  import opened Options
  import opened Upgrade
  import opened UpgradeRuns

  // ---------- pruning one canister ----------

  /** The ids of the snapshots that are not among the newest. */
  ghost predicate IsOlder(snaps: seq<Snapshot>, keep: nat, id: nat) {
    exists i :: 0 <= i < |snaps| - keep && snaps[i].id == id
  }

  lemma OlderIsDropped(snaps: seq<Snapshot>, keep: nat, id: nat)
    ensures id in Dropped(snaps, keep) <==> IsOlder(snaps, keep, id)
  {
    if IsOlder(snaps, keep, id) {
      var i :| 0 <= i < |snaps| - keep && snaps[i].id == id;
      assert snaps[..|snaps| - keep][i] == snaps[i];
    }
  }

  /** A row from which the ids of older snapshots are forgotten, and which labels a new one. */
  ghost predicate Relabelled(now: Row, was: Row, snaps: seq<Snapshot>, keep: nat, snapshot: nat, note: string) {
    && now == was.(labels := now.labels, snapshot := now.snapshot)
    && (forall l :: l in now.labels <==> (l in was.labels || l == snapshot) && !IsOlder(snaps, keep, l))
    && (forall l :: l in now.labels ==> now.labels[l] == if l == snapshot then note else was.labels[l])
    && now.snapshot == if was.snapshot.Some? && IsOlder(snaps, keep, was.snapshot.value) then None else was.snapshot
  }

  /** The newest snapshots stay, in order; exactly the older ones' ids are forgotten, and the new snapshot has its label,
      unless it is one of them. Nothing else changes. */
  lemma PruningLeaves(s: State, t: Taken, note: string, keep: nat)
    requires t.name in s.rows && s.rows[t.name].id in s.hosts
    ensures var u := KeepOne(s, t, note, keep); var id := s.rows[t.name].id;
      && u.hosts.Keys == s.hosts.Keys && u.rows.Keys == s.rows.Keys && u.nextSnapshot == s.nextSnapshot
      && (forall x <- s.hosts.Keys :: x != id ==> u.hosts[x] == s.hosts[x]) && (forall n <- s.rows.Keys :: n != t.name ==> u.rows[n] == s.rows[n])
      && u.hosts[id].image == s.hosts[id].image
      && u.hosts[id].snapshots == (var all := s.hosts[id].snapshots; if |all| <= keep then all else all[|all| - keep..])
      && Relabelled(u.rows[t.name], s.rows[t.name], s.hosts[id].snapshots, keep, t.snapshot, note)
  {
    forall l ensures l in Dropped(s.hosts[s.rows[t.name].id].snapshots, keep) <==> IsOlder(s.hosts[s.rows[t.name].id].snapshots, keep, l) {
      OlderIsDropped(s.hosts[s.rows[t.name].id].snapshots, keep, l);
    }
  }

  // ---------- targets on canisters of their own ----------

  ghost predicate Apart(s: State, names: seq<string>)
    requires Knows(s, names)
  {
    forall i, j :: 0 <= i < j < |names| ==> s.rows[names[i]].id != s.rows[names[j]].id
  }

  ghost predicate ApartTaken(s: State, ts: seq<Taken>)
    requires KnowsTaken(s, ts)
  {
    forall i, j :: 0 <= i < j < |ts| ==> s.rows[ts[i].name].id != s.rows[ts[j].name].id
  }

  lemma {:induction false} KeepOthers(s: State, ts: seq<Taken>, note: string, keep: nat, n: string)
    requires KnowsTaken(s, ts) && n in s.rows && s.rows[n].id in s.hosts && forall t <- ts :: s.rows[t.name].id != s.rows[n].id
    ensures var u := KeepAll(s, ts, note, keep); n in u.rows && u.rows[n] == s.rows[n] && s.rows[n].id in u.hosts && u.hosts[s.rows[n].id] == s.hosts[s.rows[n].id]
    decreases |ts|
  {
    if ts != [] {
      var next := KeepOne(s, ts[0], note, keep);
      assert ts[0] in ts && KnowsTaken(next, ts[1..]);
      PruningLeaves(s, ts[0], note, keep);
      forall t <- ts[1..] ensures next.rows[t.name].id != next.rows[n].id { assert t in ts; }
      KeepOthers(next, ts[1..], note, keep, n);
    }
  }

  lemma ApartTail(s: State, ts: seq<Taken>, note: string, keep: nat)
    requires KnowsTaken(s, ts) && ApartTaken(s, ts) && ts != []
    ensures var next := KeepOne(s, ts[0], note, keep); KnowsTaken(next, ts[1..]) && ApartTaken(next, ts[1..])
    ensures forall j :: 0 < j < |ts| ==> ts[j].name in s.rows && s.rows[ts[j].name].id != s.rows[ts[0].name].id
  {
    var next := KeepOne(s, ts[0], note, keep);
    assert ts[0] in ts;
    PruningLeaves(s, ts[0], note, keep);
    forall j | 0 <= j < |ts[1..]| ensures ts[1..][j] == ts[j + 1] && next.rows[ts[j + 1].name].id == s.rows[ts[j + 1].name].id { assert ts[j + 1] in ts; }
    assert forall j :: 0 < j < |ts| ==> ts[j] in ts;
  }

  /** The row of a target alone on its canister changes in its own turn of the pruning. */
  lemma {:induction false} KeepOwnTurn(s: State, ts: seq<Taken>, note: string, keep: nat, i: nat)
    requires KnowsTaken(s, ts) && ApartTaken(s, ts) && i < |ts| && ts[i].name in s.rows && s.rows[ts[i].name].id in s.hosts
    ensures var u := KeepAll(s, ts, note, keep); var n := ts[i].name; n in u.rows && u.rows[n] == KeepOne(s, ts[i], note, keep).rows[n]
    decreases |ts|
  {
    var next := KeepOne(s, ts[0], note, keep);
    ApartTail(s, ts, note, keep);
    assert ts[0] in ts && ts[i] in ts;
    PruningLeaves(s, ts[0], note, keep);
    if i > 0 {
      assert ts[1..][i - 1] == ts[i];
      KeepOwnTurn(next, ts[1..], note, keep, i - 1);
    } else {
      forall t <- ts[1..] ensures next.rows[t.name].id != next.rows[ts[0].name].id {
        var j :| 0 <= j < |ts[1..]| && ts[1..][j] == t;
        assert ts[j + 1] == t && t in ts;
      }
      KeepOthers(next, ts[1..], note, keep, ts[0].name);
    }
  }

  // ---------- what a target runs ----------

  /** An install that works leaves the module with its memory, and the row follows; one that fails leaves whatever it left,
      and the row as it was. Snapshots, other canisters and other rows are as they were. */
  lemma InstallLeaves(s: State, name: string, w: Wasm, attempt: Attempt)
    requires name in s.rows && s.rows[name].id in s.hosts
    ensures var (t, ok) := InstallOne(s, name, w, attempt); var id := s.rows[name].id;
      && ok == attempt.Works? && t.hosts.Keys == s.hosts.Keys && t.rows.Keys == s.rows.Keys && t.nextSnapshot == s.nextSnapshot
      && (forall x <- s.hosts.Keys :: x != id ==> t.hosts[x] == s.hosts[x]) && (forall n <- s.rows.Keys :: n != name ==> t.rows[n] == s.rows[n])
      && t.hosts[id].snapshots == s.hosts[id].snapshots
      && t.hosts[id].image == (if attempt.Works? then Image(w.sha, attempt.memory) else attempt.left)
      && t.rows[name] == (if attempt.Works? then s.rows[name].(wasm := w.key, wasmHash := w.sha) else s.rows[name])
  {
  }

  /** The last attempt on a canister leaves the module and its memory there. */
  lemma {:induction false} LastInstall(s: State, names: seq<string>, w: Wasm, attempts: seq<Attempt>, i: nat)
    requires Knows(s, names) && |names| == |attempts| && i < |names| && (forall a <- attempts :: a.Works?)
    requires names[i] in s.rows && forall j :: i < j < |names| ==> names[j] in s.rows && s.rows[names[j]].id != s.rows[names[i]].id
    ensures var id := s.rows[names[i]].id; var t := InstallAll(s, names, w, attempts).0; id in t.hosts && t.hosts[id].image == Image(w.sha, attempts[i].memory)
    decreases |names|
  {
    var (u, ok) := InstallOne(s, names[0], w, attempts[0]);
    assert names[0] in names && attempts[0] in attempts && attempts[i] in attempts && Knows(u, names[1..]);
    assert forall a <- attempts[1..] :: a in attempts;
    if i > 0 {
      assert names[1..][i - 1] == names[i] && attempts[1..][i - 1] == attempts[i];
      forall j | i - 1 < j < |names[1..]| ensures names[1..][j] == names[j + 1] && names[j + 1] in names {}
      LastInstall(u, names[1..], w, attempts[1..], i - 1);
    } else {
      forall n <- names[1..] ensures u.rows[n].id != s.rows[names[0]].id { var j :| 0 <= j < |names[1..]| && names[1..][j] == n; assert names[j + 1] == n; }
      InstallAllHost(u, names[1..], w, attempts[1..], s.rows[names[0]].id);
    }
  }

  // ---------- the whole upgrade ----------

  lemma UpgradedIs(s: State, names: seq<string>, w: Wasm, attempts: seq<Attempt>, note: string, keep: nat) returns (taken: State, ts: seq<Taken>, x: State)
    requires Knows(s, names) && |names| == |attempts| && UpgradeStep(s, names, w, attempts, note, keep).1 == Upgraded
    ensures TakeAll(s, names) == (taken, ts, true) && Knows(taken, names) && x == InstallAll(taken, names, w, attempts).0
    ensures KnowsTaken(x, ts) && UpgradeStep(s, names, w, attempts, note, keep).0 == KeepAll(x, ts, note, keep)
    ensures (forall a <- attempts :: a.Works?) && SameKeys(s, taken)
  {
    OutcomeIff(s, names, w, attempts, note, keep);
    TakeAllKnows(s, names);
    taken, ts := TakeAll(s, names).0, TakeAll(s, names).1;
    assert Knows(taken, names);
    LoopsKeepKnowing(taken, names, w, attempts);
    x := InstallAll(taken, names, w, attempts).0;
  }

  lemma {:induction false} OwnOfOthers(s: State, ts: seq<Taken>, id: string)
    requires id in s.hosts && forall t <- ts :: t.name in s.rows && s.rows[t.name].id != id
    ensures Own(s, ts, id) == []
  {
    if ts != [] {
      assert ts[0] in ts && forall t <- ts[1..] :: t in ts;
      OwnOfOthers(s, ts[1..], id);
    }
  }

  lemma {:induction false} OwnAlone(s: State, ts: seq<Taken>, i: nat)
    requires KnowsTaken(s, ts) && ApartTaken(s, ts) && i < |ts| && ts[i].name in s.rows && s.rows[ts[i].name].id in s.hosts
    ensures var id := s.rows[ts[i].name].id; Own(s, ts, id) == [Snapshot(ts[i].snapshot, s.hosts[id].image)]
  {
    var id := s.rows[ts[i].name].id;
    assert ts[0] in ts && forall t <- ts[1..] :: t in ts;
    forall j | 0 <= j < |ts[1..]| ensures ts[1..][j] == ts[j + 1] {}
    if i > 0 { OwnAlone(s, ts[1..], i - 1); } else { OwnOfOthers(s, ts[1..], id); }
  }

  lemma TakenTarget(s: State, names: seq<string>, taken: State, ts: seq<Taken>, i: nat)
    requires Knows(s, names) && Apart(s, names) && i < |names| && TakeAll(s, names) == (taken, ts, true)
    ensures taken.rows == s.rows && KnowsTaken(s, ts) && ApartTaken(s, ts)
    ensures |ts| == |names| && ts[i].name == names[i] && ts[i].snapshot == s.nextSnapshot + i
  {
    TakeAllKnows(s, names);
    TakeAllRemembers(s, names);
    TakenApart(s, names, ts);
  }

  lemma TakenHost(s: State, names: seq<string>, taken: State, ts: seq<Taken>, i: nat)
    requires Knows(s, names) && Apart(s, names) && i < |names| && TakeAll(s, names) == (taken, ts, true)
    ensures names[i] in s.rows && var id := s.rows[names[i]].id;
      id in s.hosts && id in taken.hosts && taken.hosts[id] == Host(s.hosts[id].image, s.hosts[id].snapshots + [Snapshot(s.nextSnapshot + i, s.hosts[id].image)])
  {
    assert names[i] in names;
    TakenTarget(s, names, taken, ts, i);
    TakeAllHost(s, names, s.rows[names[i]].id);
    OwnAlone(s, ts, i);
  }

  lemma InstalledTarget(taken: State, names: seq<string>, w: Wasm, attempts: seq<Attempt>, i: nat)
    requires Knows(taken, names) && Apart(taken, names) && |names| == |attempts| && i < |names| && forall a <- attempts :: a.Works?
    ensures names[i] in taken.rows && taken.rows[names[i]].id in taken.hosts
    ensures var x := InstallAll(taken, names, w, attempts).0; var n, id := names[i], taken.rows[names[i]].id;
      && SameKeys(taken, x) && n in x.rows && id in x.hosts && x.rows[n] == taken.rows[n].(wasm := w.key, wasmHash := w.sha)
      && x.hosts[id] == Host(Image(w.sha, attempts[i].memory), taken.hosts[id].snapshots)
  {
    assert names[i] in names && attempts[i] in attempts;
    forall j | i < j < |names| ensures names[j] in taken.rows { assert names[j] in names; }
    LoopsKeepKnowing(taken, names, w, attempts);
    InstallAllRow(taken, names, w, attempts, names[i]);
    InstallAllHost(taken, names, w, attempts, taken.rows[names[i]].id);
    InstallAllWorks(taken, names, w, attempts);
    assert RunsAt(InstallAll(taken, names, w, attempts).0, names[i], w);
    LastInstall(taken, names, w, attempts, i);
  }

  lemma PrunedTarget(x: State, ts: seq<Taken>, note: string, keep: nat, i: nat)
    requires KnowsTaken(x, ts) && ApartTaken(x, ts) && i < |ts|
    ensures ts[i].name in x.rows && x.rows[ts[i].name].id in x.hosts
    ensures var t := KeepAll(x, ts, note, keep); var n, id := ts[i].name, x.rows[ts[i].name].id;
      && n in t.rows && id in t.hosts && t.hosts[id].image == x.hosts[id].image
      && Relabelled(t.rows[n], x.rows[n], x.hosts[id].snapshots, keep, ts[i].snapshot, note)
  {
    assert ts[i] in ts;
    KeepOwnTurn(x, ts, note, keep, i);
    PruningLeaves(x, ts[i], note, keep);
    KeepAllHost(x, ts, note, keep, x.rows[ts[i].name].id);
  }

  lemma StillApart(s: State, x: State, ts: seq<Taken>)
    requires KnowsTaken(s, ts) && ApartTaken(s, ts) && SameKeys(s, x)
    ensures KnowsTaken(x, ts) && ApartTaken(x, ts)
  {
    assert forall j :: 0 <= j < |ts| ==> ts[j] in ts;
  }

  lemma TakenApart(s: State, names: seq<string>, ts: seq<Taken>)
    requires Knows(s, names) && Apart(s, names) && |ts| == |names| && forall i :: 0 <= i < |ts| ==> ts[i].name == names[i]
    ensures KnowsTaken(s, ts) && ApartTaken(s, ts)
  {
    forall t <- ts ensures t.name in names { var i :| 0 <= i < |ts| && ts[i] == t; }
  }

  /** A successful upgrade of targets each on a canister of its own: a target runs the new module with the memory its install
      left, its row has the module's key and hash, the new snapshot has its label, and exactly the ids of the snapshots that
      were pruned are forgotten. */
  lemma TargetAfterUpgrade(s: State, names: seq<string>, w: Wasm, attempts: seq<Attempt>, note: string, keep: nat, i: nat)
    requires Knows(s, names) && Apart(s, names) && |names| == |attempts| && i < |names|
    requires UpgradeStep(s, names, w, attempts, note, keep).1 == Upgraded
    ensures names[i] in s.rows && s.rows[names[i]].id in s.hosts
    ensures var t := UpgradeStep(s, names, w, attempts, note, keep).0; var n, id := names[i], s.rows[names[i]].id;
      && n in t.rows && id in t.hosts && attempts[i].Works? && t.hosts[id].image == Image(w.sha, attempts[i].memory)
      && Relabelled(t.rows[n], s.rows[n].(wasm := w.key, wasmHash := w.sha),
                    s.hosts[id].snapshots + [Snapshot(s.nextSnapshot + i, s.hosts[id].image)], keep, s.nextSnapshot + i, note)
  {
    var taken, ts, x := UpgradedIs(s, names, w, attempts, note, keep);
    assert attempts[i] in attempts;
    TakenTarget(s, names, taken, ts, i);
    TakenHost(s, names, taken, ts, i);
    InstalledTarget(taken, names, w, attempts, i);
    StillApart(s, x, ts);
    PrunedTarget(x, ts, note, keep, i);
  }
}
