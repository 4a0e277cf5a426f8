/** The group upgrade (`canister_upgrade` in src/canisters.py) and the pruning of snapshots after it
    (src/snapshots.py): every target is snapshotted, then every target is installed, and if any install
    fails every target is loaded back.

    How each install turns out is a parameter: it works, leaving some memory, or it fails and may leave the
    canister with any module and memory. Loading and deleting a snapshot do not fail here. */
module Upgrade {
  import opened Options

  /** The platform's limit of snapshots per canister, and the most the conductor may be told to keep. */
  const SNAPSHOTS_MAX: nat := 10
  const SNAPSHOTS_KEEP_MAX: nat := 9

  /** What a canister runs: its module's hash and its memory. */
  datatype Image = Image(code: string, memory: string)

  datatype Snapshot = Snapshot(id: nat, image: Image)

  /** `snapshots` oldest first. */
  datatype Host = Host(image: Image, snapshots: seq<Snapshot>)

  datatype Row = Row(id: string, wasm: string, wasmHash: string, labels: map<nat, string>, snapshot: Option<nat>)

  datatype Wasm = Wasm(key: string, sha: string)

  datatype Attempt = Works(memory: string) | Breaks(left: Image)

  /** `nextSnapshot` numbers snapshots in the order they are taken. */
  datatype State = State(hosts: map<string, Host>, rows: map<string, Row>, nextSnapshot: nat)

  datatype Outcome = Upgraded | RolledBack | NotTaken

  /** What `taken` remembers of a target: its row's name, what the row said, and the snapshot. */
  datatype Taken = Taken(name: string, wasm: string, wasmHash: string, snapshot: nat)

  ghost predicate Knows(s: State, names: seq<string>) {
    forall n <- names :: n in s.rows && s.rows[n].id in s.hosts
  }

  // ---------- one canister ----------

  function TakeOne(s: State, id: string): State
    requires id in s.hosts
  {
    var h := s.hosts[id];
    s.(hosts := s.hosts[id := h.(snapshots := h.snapshots + [Snapshot(s.nextSnapshot, h.image)])], nextSnapshot := s.nextSnapshot + 1)
  }

  function InstallOne(s: State, name: string, w: Wasm, attempt: Attempt): (State, bool)
    requires name in s.rows && s.rows[name].id in s.hosts
  {
    var id := s.rows[name].id;
    match attempt
    case Works(memory) =>
      (s.(hosts := s.hosts[id := s.hosts[id].(image := Image(w.sha, memory))],
          rows := s.rows[name := s.rows[name].(wasm := w.key, wasmHash := w.sha)]), true)
    case Breaks(left) => (s.(hosts := s.hosts[id := s.hosts[id].(image := left)]), false)
  }

  function ImageOf(snaps: seq<Snapshot>, id: nat): Option<Image> {
    if snaps == [] then None else if snaps[0].id == id then Some(snaps[0].image) else ImageOf(snaps[1..], id)
  }

  function Without(snaps: seq<Snapshot>, id: nat): seq<Snapshot> {
    if snaps == [] then []
    else if snaps[0].id == id then Without(snaps[1..], id)
    else [snaps[0]] + Without(snaps[1..], id)
  }

  function RestoreOne(s: State, t: Taken): State
    requires t.name in s.rows && s.rows[t.name].id in s.hosts
  {
    var id := s.rows[t.name].id;
    var h := s.hosts[id];
    var image := ImageOf(h.snapshots, t.snapshot);
    s.(hosts := s.hosts[id := Host(if image.Some? then image.value else h.image, Without(h.snapshots, t.snapshot))],
       rows := s.rows[t.name := s.rows[t.name].(wasm := t.wasm, wasmHash := t.wasmHash)])
  }

  /** The newest `keep` snapshots, and the ids of the others. */
  function Newest(snaps: seq<Snapshot>, keep: nat): seq<Snapshot> {
    if |snaps| <= keep then snaps else snaps[|snaps| - keep..]
  }

  function Ids(snaps: seq<Snapshot>): set<nat> {
    set x: Snapshot | x in snaps :: x.id
  }

  function Dropped(snaps: seq<Snapshot>, keep: nat): set<nat> {
    if |snaps| <= keep then {} else Ids(snaps[..|snaps| - keep])
  }

  lemma IdsOfRest(snaps: seq<Snapshot>, n: nat)
    requires n < |snaps|
    ensures Ids(snaps[n..]) == Ids(snaps[n + 1..]) + {snaps[n].id}
  {
    assert snaps[n..] == [snaps[n]] + snaps[n + 1..];
  }

  /** Label the snapshot, then delete all but the newest, forgetting what the row said of them. */
  function KeepOne(s: State, t: Taken, note: string, keep: nat): State
    requires t.name in s.rows && s.rows[t.name].id in s.hosts
  {
    var row := s.rows[t.name];
    var h := s.hosts[row.id];
    var gone := Dropped(h.snapshots, keep);
    s.(hosts := s.hosts[row.id := h.(snapshots := Newest(h.snapshots, keep))],
       rows := s.rows[t.name := row.(labels := row.labels[t.snapshot := note] - gone,
                                     snapshot := if row.snapshot.Some? && row.snapshot.value in gone then None else row.snapshot)])
  }

  // ---------- all targets ----------

  function TakeAll(s: State, names: seq<string>): (State, seq<Taken>, bool)
    requires Knows(s, names)
    decreases |names|
  {
    if names == [] then (s, [], true)
    else
      var row := s.rows[names[0]];
      if |s.hosts[row.id].snapshots| >= SNAPSHOTS_MAX then (s, [], false)
      else
        assert Knows(TakeOne(s, row.id), names[1..]);
        var (t, rest, ok) := TakeAll(TakeOne(s, row.id), names[1..]);
        (t, [Taken(names[0], row.wasm, row.wasmHash, s.nextSnapshot)] + rest, ok)
  }

  function InstallAll(s: State, names: seq<string>, w: Wasm, attempts: seq<Attempt>): (State, bool)
    requires Knows(s, names) && |names| == |attempts|
    decreases |names|
  {
    if names == [] then (s, true)
    else
      var (t, ok) := InstallOne(s, names[0], w, attempts[0]);
      assert Knows(t, names[1..]);
      if ok then InstallAll(t, names[1..], w, attempts[1..]) else (t, false)
  }

  ghost predicate KnowsTaken(s: State, ts: seq<Taken>) {
    forall t <- ts :: t.name in s.rows && s.rows[t.name].id in s.hosts
  }

  function RestoreAll(s: State, ts: seq<Taken>): State
    requires KnowsTaken(s, ts)
    decreases |ts|
  {
    if ts == [] then s
    else
      assert KnowsTaken(RestoreOne(s, ts[0]), ts[1..]);
      RestoreAll(RestoreOne(s, ts[0]), ts[1..])
  }

  function KeepAll(s: State, ts: seq<Taken>, note: string, keep: nat): State
    requires KnowsTaken(s, ts)
    decreases |ts|
  {
    if ts == [] then s
    else
      assert KnowsTaken(KeepOne(s, ts[0], note, keep), ts[1..]);
      KeepAll(KeepOne(s, ts[0], note, keep), ts[1..], note, keep)
  }

  /** Every loop of the upgrade only changes known rows and hosts in place. */
  lemma {:induction false} LoopsKeepKnowing(s: State, names: seq<string>, w: Wasm, attempts: seq<Attempt>)
    requires Knows(s, names) && |names| == |attempts|
    ensures SameKeys(s, InstallAll(s, names, w, attempts).0)
    decreases |names|
  {
    if names != [] {
      var (t, ok) := InstallOne(s, names[0], w, attempts[0]);
      assert Knows(t, names[1..]);
      if ok { LoopsKeepKnowing(t, names[1..], w, attempts[1..]); }
    }
  }

  /** Same rows, each for the same canister, and same hosts. */
  ghost predicate SameKeys(s: State, t: State) {
    s.rows.Keys == t.rows.Keys && s.hosts.Keys == t.hosts.Keys && forall n <- s.rows.Keys :: s.rows[n].id == t.rows[n].id
  }

  lemma {:induction false} TakeAllKnows(s: State, names: seq<string>)
    requires Knows(s, names)
    ensures var (t, ts, ok) := TakeAll(s, names);
      && SameKeys(s, t) && t.rows == s.rows && (forall x <- ts :: x.name in names) && KnowsTaken(t, ts)
      && |ts| <= |names| && (ok ==> |ts| == |names| && forall i :: 0 <= i < |ts| ==> ts[i].name == names[i])
    decreases |names|
  {
    if names != [] {
      var row := s.rows[names[0]];
      if |s.hosts[row.id].snapshots| < SNAPSHOTS_MAX {
        assert Knows(TakeOne(s, row.id), names[1..]);
        TakeAllKnows(TakeOne(s, row.id), names[1..]);
      }
    }
  }

  function UpgradeStep(s: State, names: seq<string>, w: Wasm, attempts: seq<Attempt>, note: string, keep: nat): (State, Outcome)
    requires Knows(s, names) && |names| == |attempts|
  {
    TakeAllKnows(s, names);
    var (taken, ts, ok) := TakeAll(s, names);
    if !ok then (taken, NotTaken)
    else
      assert Knows(taken, names);
      LoopsKeepKnowing(taken, names, w, attempts);
      var (t, installed) := InstallAll(taken, names, w, attempts);
      if installed then (KeepAll(t, ts, note, keep), Upgraded) else (RestoreAll(t, ts), RolledBack)
  }

  // ---------- the upgrade as it runs ----------

  class Conductor {
    var hosts: map<string, Host>
    var rows: map<string, Row>
    var nextSnapshot: nat

    ghost function View(): State
      reads this
    {
      State(hosts, rows, nextSnapshot)
    }

    constructor (s: State)
      ensures View() == s
    {
      hosts, rows, nextSnapshot := s.hosts, s.rows, s.nextSnapshot;
    }

    method Take(id: string) returns (snap: Option<nat>)
      requires id in hosts
      modifies this`hosts, this`nextSnapshot
      ensures snap.Some? <==> |old(hosts)[id].snapshots| < SNAPSHOTS_MAX
      ensures snap.Some? ==> snap.value == old(nextSnapshot) && View() == TakeOne(old(View()), id)
      ensures snap.None? ==> View() == old(View())
    {
      var h := hosts[id];
      if |h.snapshots| >= SNAPSHOTS_MAX {
        return None;
      }
      snap := Some(nextSnapshot);
      hosts := hosts[id := h.(snapshots := h.snapshots + [Snapshot(nextSnapshot, h.image)])];
      nextSnapshot := nextSnapshot + 1;
    }

    method Install(name: string, w: Wasm, attempt: Attempt) returns (ok: bool)
      requires name in rows && rows[name].id in hosts
      modifies this`hosts, this`rows
      ensures (View(), ok) == InstallOne(old(View()), name, w, attempt)
    {
      var id := rows[name].id;
      match attempt {
        case Works(memory) =>
          hosts := hosts[id := hosts[id].(image := Image(w.sha, memory))];
          rows := rows[name := rows[name].(wasm := w.key, wasmHash := w.sha)];
          ok := true;
        case Breaks(left) =>
          hosts := hosts[id := hosts[id].(image := left)];
          ok := false;
      }
    }

    /** Newest first, so everything after the first `keep` goes. */
    method KeepNewest(t: Taken, note: string, keep: nat)
      requires t.name in rows && rows[t.name].id in hosts
      modifies this`hosts, this`rows
      ensures View() == KeepOne(old(View()), t, note, keep)
    {
      var row := rows[t.name];
      var snaps := hosts[row.id].snapshots;
      var older := if |snaps| <= keep then [] else snaps[..|snaps| - keep];
      var labels, snapshot := row.labels[t.snapshot := note], row.snapshot;
      var n := |older|;
      while n > 0
        invariant 0 <= n <= |older| && View() == old(View())
        invariant labels == row.labels[t.snapshot := note] - Ids(older[n..])
        invariant snapshot == if row.snapshot.Some? && row.snapshot.value in Ids(older[n..]) then None else row.snapshot
      {
        n := n - 1;
        IdsOfRest(older, n);
        labels := labels - {older[n].id};
        if snapshot == Some(older[n].id) {
          snapshot := None;
        }
      }
      assert older[0..] == older && Ids(older) == Dropped(snaps, keep);
      hosts := hosts[row.id := hosts[row.id].(snapshots := Newest(snaps, keep))];
      rows := rows[t.name := row.(labels := labels, snapshot := snapshot)];
    }

    method TakeEach(names: seq<string>) returns (taken: seq<Taken>, ok: bool)
      requires Knows(View(), names)
      modifies this`hosts, this`nextSnapshot
      ensures (View(), taken, ok) == TakeAll(old(View()), names)
    {
      ghost var s := View();
      taken := [];
      assert names[0..] == names;
      for i := 0 to |names|
        invariant rows == s.rows && Knows(View(), names)
        invariant TakeAll(View(), names[i..]).0 == TakeAll(s, names).0 && TakeAll(View(), names[i..]).2 == TakeAll(s, names).2
        invariant taken + TakeAll(View(), names[i..]).1 == TakeAll(s, names).1
      {
        assert names[i..][0] == names[i] && names[i..][1..] == names[i + 1..];
        var row := rows[names[i]];
        var snap := Take(row.id);
        if snap.None? {
          assert taken + [] == taken;
          return taken, false;
        }
        var t := Taken(names[i], row.wasm, row.wasmHash, snap.value);
        assert forall rest :: taken + ([t] + rest) == taken + [t] + rest;
        taken := taken + [t];
      }
      assert names[|names|..] == [] && taken + [] == taken;
      ok := true;
    }

    method InstallEach(names: seq<string>, w: Wasm, attempts: seq<Attempt>) returns (ok: bool)
      requires Knows(View(), names) && |names| == |attempts|
      modifies this`hosts, this`rows
      ensures (View(), ok) == InstallAll(old(View()), names, w, attempts)
    {
      assert names[0..] == names && attempts[0..] == attempts;
      for i := 0 to |names|
        invariant nextSnapshot == old(nextSnapshot) && Knows(View(), names)
        invariant InstallAll(View(), names[i..], w, attempts[i..]) == InstallAll(old(View()), names, w, attempts)
      {
        assert names[i..][0] == names[i] && names[i..][1..] == names[i + 1..] && attempts[i..][1..] == attempts[i + 1..];
        ok := Install(names[i], w, attempts[i]);
        if !ok {
          return false;
        }
      }
      ok := true;
    }

    method RestoreEach(taken: seq<Taken>)
      requires KnowsTaken(View(), taken)
      modifies this`hosts, this`rows
      ensures View() == RestoreAll(old(View()), taken)
    {
      for i := 0 to |taken|
        invariant nextSnapshot == old(nextSnapshot) && KnowsTaken(View(), taken)
        invariant RestoreAll(View(), taken[i..]) == RestoreAll(old(View()), taken)
      {
        assert taken[i..][0] == taken[i] && taken[i..][1..] == taken[i + 1..];
        var t := taken[i];
        var id := rows[t.name].id;
        var h := hosts[id];
        var image := ImageOf(h.snapshots, t.snapshot);
        hosts := hosts[id := Host(if image.Some? then image.value else h.image, Without(h.snapshots, t.snapshot))];
        rows := rows[t.name := rows[t.name].(wasm := t.wasm, wasmHash := t.wasmHash)];
      }
    }

    method KeepEach(taken: seq<Taken>, note: string, keep: nat)
      requires KnowsTaken(View(), taken)
      modifies this`hosts, this`rows
      ensures View() == KeepAll(old(View()), taken, note, keep)
    {
      for i := 0 to |taken|
        invariant nextSnapshot == old(nextSnapshot) && KnowsTaken(View(), taken)
        invariant KeepAll(View(), taken[i..], note, keep) == KeepAll(old(View()), taken, note, keep)
      {
        assert taken[i..][0] == taken[i] && taken[i..][1..] == taken[i + 1..];
        KeepNewest(taken[i], note, keep);
      }
    }

    method CanisterUpgrade(names: seq<string>, w: Wasm, attempts: seq<Attempt>, note: string, keep: nat) returns (out: Outcome)
      requires Knows(View(), names) && |names| == |attempts|
      modifies this
      ensures (View(), out) == UpgradeStep(old(View()), names, w, attempts, note, keep)
    {
      TakeAllKnows(View(), names);
      var taken, ok := TakeEach(names);
      if !ok {
        return NotTaken;
      }
      LoopsKeepKnowing(View(), names, w, attempts);
      ok := InstallEach(names, w, attempts);
      if !ok {
        RestoreEach(taken);
        return RolledBack;
      }
      KeepEach(taken, note, keep);
      out := Upgraded;
    }
  }
}
