/** The build pipeline behind `orchestra_up` (src/up.py, src/stands.py): every canister of every pending
    stand is created before any stand is built, then stands are built in order, then grants whose
    principal names a canister or a variable are rewritten, page by page. One call of `BuildAll` is one
    round of the scheduler; a round is atomic here.

    `luck` says which call of a round raises, if any. `files` is how many files a sync still has to write. */
module Up {
  import opened Options
  import opened Tables
  import Grants

  const MAX_FILES: nat := 10

  datatype Status = Created | Installed | Ready | Stopped

  /** One row a section's template asks for in a stand, its name already filled in. */
  datatype Spec = Spec(name: string, content: bool, files: nat)

  datatype Canister = Canister(name: string, stand: string, status: Status, content: bool, files: nat)

  datatype StandState = Pending | Failed | Built

  /** `commanders` are the template's, as (principal, permissions). */
  datatype Stand = Stand(name: string, state: StandState, specs: seq<Spec>, commanders: seq<(string, set<string>)>)

  type Calls = set<Grants.Call>

  datatype Grant = Grant(scope: string, principal: string, permissions: set<string>, calls: Calls)

  type GrantTable = seq<Entry<Grant>>

  datatype State = State(stands: seq<Stand>, canisters: seq<Canister>, grants: GrantTable, nextGrant: nat,
                         cursor: nat, builtAt: bool)

  /** None: every call succeeds. Some(n): the call after the first n raises. */
  type Luck = Option<nat>

  datatype Phase =
    | Through(canisters: seq<Canister>, luck: Luck)
    | Remaining(canisters: seq<Canister>)
    | Raised(canisters: seq<Canister>)

  type Resolve = string -> string

  // ---------- canisters ----------

  predicate Named(cs: seq<Canister>, name: string) {
    exists c <- cs :: c.name == name
  }

  function AddMembers(cs: seq<Canister>, stand: string, specs: seq<Spec>): seq<Canister>
    decreases |specs|
  {
    if specs == [] then cs
    else if Named(cs, specs[0].name) then AddMembers(cs, stand, specs[1..])
    else AddMembers(cs + [Canister(specs[0].name, stand, Created, specs[0].content, specs[0].files)], stand, specs[1..])
  }

  /** The first canister of the stand from `i` on that is not on the chain yet; |cs| if none. */
  function FirstCreated(cs: seq<Canister>, stand: string, i: nat): (r: nat)
    requires i <= |cs|
    ensures i <= r <= |cs| && (r < |cs| ==> cs[r].stand == stand && cs[r].status.Created?)
    ensures forall j :: i <= j < r ==> !(cs[j].stand == stand && cs[j].status.Created?)
    decreases |cs| - i
  {
    if i == |cs| || (cs[i].stand == stand && cs[i].status.Created?) then i else FirstCreated(cs, stand, i + 1)
  }

  function Unprovisioned(stands: seq<Stand>, cs: seq<Canister>): (seq<Canister>, Option<nat>)
    decreases |stands|
  {
    if stands == [] then (cs, None)
    else if !stands[0].state.Pending? then Unprovisioned(stands[1..], cs)
    else
      var cs' := AddMembers(cs, stands[0].name, stands[0].specs);
      var i := FirstCreated(cs', stands[0].name, 0);
      if i < |cs'| then (cs', Some(i)) else Unprovisioned(stands[1..], cs')
  }

  predicate Raises(luck: Luck) { luck == Some(0) }

  function Spent(luck: Luck): Luck
    requires !Raises(luck)
  {
    if luck.Some? then Some(luck.value - 1) else None
  }

  function SyncAll(cs: seq<Canister>, stand: string, i: nat, luck: Luck): Phase
    requires i <= |cs|
    decreases |cs| - i
  {
    if i == |cs| then Through(cs, luck)
    else if !(cs[i].stand == stand && cs[i].status.Installed? && cs[i].content) then SyncAll(cs, stand, i + 1, luck)
    else if Raises(luck) then Raised(cs)
    else if cs[i].files > MAX_FILES then Remaining(cs[i := cs[i].(files := cs[i].files - MAX_FILES)])
    else SyncAll(cs[i := cs[i].(files := 0)], stand, i + 1, Spent(luck))
  }

  function HandOffAll(cs: seq<Canister>, stand: string, i: nat, luck: Luck): Phase
    requires i <= |cs|
    decreases |cs| - i
  {
    if i == |cs| then Through(cs, luck)
    else if !(cs[i].stand == stand && cs[i].status.Installed?) then HandOffAll(cs, stand, i + 1, luck)
    else if Raises(luck) then Raised(cs)
    else HandOffAll(cs[i := cs[i].(status := Ready)], stand, i + 1, Spent(luck))
  }

  // ---------- grants ----------

  /** The row under the joined key of a scope and a principal; |gs| if there is none. */
  function Find(gs: GrantTable, key: string): (r: nat)
    ensures r <= |gs| && (r < |gs| ==> Grants.KeyOf(gs[r].row.scope, gs[r].row.principal) == key)
    ensures forall j :: 0 <= j < r ==> Grants.KeyOf(gs[j].row.scope, gs[j].row.principal) != key
  {
    if gs == [] || Grants.KeyOf(gs[0].row.scope, gs[0].row.principal) == key then 0 else 1 + Find(gs[1..], key)
  }

  /** What an upsert writes: a row's permissions, and its calls where they are given too. */
  function Allowed(g: Grant, permissions: set<string>, calls: Option<Calls>): Grant {
    g.(permissions := permissions, calls := if calls.Some? then calls.value else g.calls)
  }

  /** The row under the key, new ones with the next id. */
  function Put(gs: GrantTable, next: nat, scope: string, principal: string, permissions: set<string>, calls: Option<Calls>): (GrantTable, nat) {
    var i := Find(gs, Grants.KeyOf(scope, principal));
    if i < |gs| then (gs[i := gs[i].(row := Allowed(gs[i].row, permissions, calls))], next)
    else (gs + [Entry(next, Allowed(Grant(scope, principal, {}, {}), permissions, calls))], next + 1)
  }

  function PutAll(gs: GrantTable, next: nat, scope: string, more: seq<(string, set<string>)>, resolve: Resolve): (GrantTable, nat)
    decreases |more|
  {
    if more == [] then (gs, next)
    else
      var (a, n) := Put(gs, next, scope, resolve(more[0].0), more[0].1, None);
      PutAll(a, n, scope, more[1..], resolve)
  }

  function Without(gs: GrantTable, id: nat): GrantTable {
    if gs == [] then []
    else if gs[0].id == id then Without(gs[1..], id)
    else [gs[0]] + Without(gs[1..], id)
  }

  function Current(gs: GrantTable, id: nat): Option<Grant> {
    if gs == [] then None else if gs[0].id == id then Some(gs[0].row) else Current(gs[1..], id)
  }

  /** One row: moved to what its principal resolves to. */
  function Move(gs: GrantTable, next: nat, id: nat, resolve: Resolve): (GrantTable, nat) {
    var g := Current(gs, id);
    if g.None? || resolve(g.value.principal) == g.value.principal then (gs, next)
    else
      var (a, n) := Put(gs, next, g.value.scope, resolve(g.value.principal), g.value.permissions, Some(g.value.calls));
      (Without(a, id), n)
  }

  function MoveAll(gs: GrantTable, next: nat, ids: GrantTable, resolve: Resolve): (GrantTable, nat)
    decreases |ids|
  {
    if ids == [] then (gs, next)
    else
      var (a, n) := Move(gs, next, ids[0].id, resolve);
      MoveAll(a, n, ids[1..], resolve)
  }

  // ---------- rounds ----------

  function StandAt(stands: seq<Stand>, name: string): (r: nat)
    ensures r <= |stands| && (r < |stands| ==> stands[r].name == name)
    ensures forall j :: 0 <= j < r ==> stands[j].name != name
  {
    if stands == [] || stands[0].name == name then 0 else 1 + StandAt(stands[1..], name)
  }

  function SetState(st: State, name: string, state: StandState): State {
    var i := StandAt(st.stands, name);
    if i < |st.stands| then st.(stands := st.stands[i := st.stands[i].(state := state)]) else st
  }

  /** Where the build goes on: the first stand that is not built, whether it waits or failed. */
  function NextUnbuilt(stands: seq<Stand>): (r: nat)
    ensures r <= |stands| && (r < |stands| ==> !stands[r].state.Built?)
    ensures forall j :: 0 <= j < r ==> stands[j].state.Built?
  {
    if stands == [] || !stands[0].state.Built? then 0 else 1 + NextUnbuilt(stands[1..])
  }

  function FirstPending(stands: seq<Stand>): (r: nat)
    ensures r <= |stands| && (r < |stands| ==> stands[r].state.Pending?)
    ensures forall j :: 0 <= j < r ==> !stands[j].state.Pending?
  {
    if stands == [] || stands[0].state.Pending? then 0 else 1 + FirstPending(stands[1..])
  }

  /** What a step's round reports: finished, not finished, or an exception for its fail handler. */
  datatype Outcome = Finished | Unfinished | Raise

  /** What a build does to the rows once they all exist. */
  function BuildCanisters(cs: seq<Canister>, stand: string, luck: Luck): (seq<Canister>, Outcome) {
    var i := FirstCreated(cs, stand, 0);
    if i < |cs| then if Raises(luck) then (cs, Raise) else (cs[i := cs[i].(status := Installed)], Unfinished)
    else
      match SyncAll(cs, stand, 0, luck)
      case Raised(a) => (a, Raise)
      case Remaining(a) => (a, Unfinished)
      case Through(a, luck') =>
        match HandOffAll(a, stand, 0, luck')
        case Raised(b) => (b, Raise)
        case Remaining(b) => (b, Unfinished)
        case Through(b, _) => (b, Finished)
  }

  function Build(st: State, k: nat, luck: Luck, resolve: Resolve): (State, Outcome)
    requires k < |st.stands|
  {
    var s := st.stands[k];
    var (cs, out) := BuildCanisters(AddMembers(st.canisters, s.name, s.specs), s.name, luck);
    if out.Finished? then
      var (gs, next) := PutAll(st.grants, st.nextGrant, "stand:" + s.name, s.commanders, resolve);
      (st.(canisters := cs, grants := gs, nextGrant := next, stands := st.stands[k := s.(state := Built)]), Finished)
    else (st.(canisters := cs), out)
  }

  /** The exception of a round goes to the step's fail handler: `up` fails the first pending stand. */
  function UpFailed(st: State): State {
    var k := FirstPending(st.stands);
    if k < |st.stands| then st.(stands := st.stands[k := st.stands[k].(state := Failed)]) else st
  }

  /** One round of `up`. The last one also shares the canisters' status, which never raises. */
  function BuildAll(st: State, luck: Luck, resolve: Resolve): (State, Outcome) {
    var k := NextUnbuilt(st.stands);
    if k < |st.stands| then
      if st.stands[k].state.Failed? then (st, Finished)
      else
        var (cs, c) := Unprovisioned(st.stands, st.canisters);
        if c.Some? && c.value < |cs| then
          if Raises(luck) then (SetState(st.(canisters := cs), cs[c.value].stand, Failed), Finished)
          else (st.(canisters := cs[c.value := cs[c.value].(status := Installed)]), Unfinished)
        else
          var (st', out) := Build(st.(canisters := cs), k, luck, resolve);
          if out.Raise? then (UpFailed(st'), Raise) else (st', Unfinished)
    else if st.cursor != 0 then
      var (got, after) := Page(st.grants, st.cursor, PAGE);
      var (gs, next) := MoveAll(st.grants, st.nextGrant, got, resolve);
      (st.(cursor := if after.Some? then after.value else 0, grants := gs, nextGrant := next), Unfinished)
    else (st.(builtAt := true), Finished)
  }

  // ---------- the rounds as they run ----------

  class Conductor {
    var stands: seq<Stand>
    var canisters: seq<Canister>
    var grants: GrantTable
    var nextGrant: nat
    var cursor: nat
    var builtAt: bool
    const resolve: Resolve

    ghost function View(): State
      reads this
    {
      State(stands, canisters, grants, nextGrant, cursor, builtAt)
    }

    constructor (st: State, resolve: Resolve)
      ensures View() == st && this.resolve == resolve
    {
      stands, canisters, grants := st.stands, st.canisters, st.grants;
      nextGrant, cursor, builtAt := st.nextGrant, st.cursor, st.builtAt;
      this.resolve := resolve;
    }

    method Materialise(s: Stand)
      modifies this`canisters
      ensures canisters == AddMembers(old(canisters), s.name, s.specs)
    {
      for i := 0 to |s.specs|
        invariant AddMembers(canisters, s.name, s.specs[i..]) == AddMembers(old(canisters), s.name, s.specs)
      {
        var spec := s.specs[i];
        assert s.specs[i..][0] == spec && s.specs[i..][1..] == s.specs[i + 1..];
        if !Named(canisters, spec.name) {
          canisters := canisters + [Canister(spec.name, s.name, Created, spec.content, spec.files)];
        }
      }
    }

    method NextToProvision() returns (c: Option<nat>)
      modifies this`canisters
      ensures (canisters, c) == Unprovisioned(stands, old(canisters))
      ensures c.Some? ==> c.value < |canisters|
    {
      for i := 0 to |stands|
        invariant Unprovisioned(stands[i..], canisters) == Unprovisioned(stands, old(canisters))
      {
        assert stands[i..][0] == stands[i] && stands[i..][1..] == stands[i + 1..];
        if stands[i].state.Pending? {
          Materialise(stands[i]);
          var j := FirstCreated(canisters, stands[i].name, 0);
          if j < |canisters| {
            return Some(j);
          }
        }
      }
      c := None;
    }

    method SyncStand(stand: string, luck: Luck) returns (phase: Phase)
      modifies this`canisters
      ensures phase == SyncAll(old(canisters), stand, 0, luck) && canisters == phase.canisters
    {
      var left := luck;
      var i := 0;
      while i < |canisters|
        invariant i <= |canisters|
        invariant SyncAll(canisters, stand, i, left) == SyncAll(old(canisters), stand, 0, luck)
        decreases |canisters| - i
      {
        var c := canisters[i];
        if c.stand == stand && c.status.Installed? && c.content {
          if Raises(left) {
            return Phase.Raised(canisters);
          }
          if c.files > MAX_FILES {
            canisters := canisters[i := c.(files := c.files - MAX_FILES)];
            return Remaining(canisters);
          }
          canisters := canisters[i := c.(files := 0)];
          left := Spent(left);
        }
        i := i + 1;
      }
      phase := Through(canisters, left);
    }

    method HandOffStand(stand: string, luck: Luck) returns (phase: Phase)
      modifies this`canisters
      ensures phase == HandOffAll(old(canisters), stand, 0, luck) && canisters == phase.canisters
    {
      var left := luck;
      var i := 0;
      while i < |canisters|
        invariant i <= |canisters|
        invariant HandOffAll(canisters, stand, i, left) == HandOffAll(old(canisters), stand, 0, luck)
        decreases |canisters| - i
      {
        var c := canisters[i];
        if c.stand == stand && c.status.Installed? {
          if Raises(left) {
            return Phase.Raised(canisters);
          }
          canisters := canisters[i := c.(status := Ready)];
          left := Spent(left);
        }
        i := i + 1;
      }
      phase := Through(canisters, left);
    }

    method Upsert(scope: string, principal: string, permissions: set<string>, calls: Option<Calls>)
      modifies this`grants, this`nextGrant
      ensures (grants, nextGrant) == Put(old(grants), old(nextGrant), scope, principal, permissions, calls)
    {
      var i := Find(grants, Grants.KeyOf(scope, principal));
      if i < |grants| {
        grants := grants[i := grants[i].(row := Allowed(grants[i].row, permissions, calls))];
      } else {
        grants := grants + [Entry(nextGrant, Allowed(Grant(scope, principal, {}, {}), permissions, calls))];
        nextGrant := nextGrant + 1;
      }
    }

    method BuildStand(k: nat, luck: Luck) returns (out: Outcome)
      requires k < |stands|
      modifies this
      ensures (View(), out) == Build(old(View()), k, luck, resolve)
    {
      var s := stands[k];
      Materialise(s);
      var i := FirstCreated(canisters, s.name, 0);
      if i < |canisters| {
        if Raises(luck) {
          return Raise;
        }
        canisters := canisters[i := canisters[i].(status := Installed)];
        return Unfinished;
      }
      var synced := SyncStand(s.name, luck);
      if synced.Raised? {
        return Raise;
      }
      if synced.Remaining? {
        return Unfinished;
      }
      var handed := HandOffStand(s.name, synced.luck);
      if handed.Raised? {
        return Raise;
      }
      if handed.Remaining? {
        return Unfinished;
      }
      ghost var gs, next := grants, nextGrant;
      for j := 0 to |s.commanders|
        invariant PutAll(grants, nextGrant, "stand:" + s.name, s.commanders[j..], resolve) == PutAll(gs, next, "stand:" + s.name, s.commanders, resolve)
        invariant stands == old(stands) && canisters == handed.canisters && cursor == old(cursor) && builtAt == old(builtAt)
      {
        assert s.commanders[j..][0] == s.commanders[j] && s.commanders[j..][1..] == s.commanders[j + 1..];
        Upsert("stand:" + s.name, resolve(s.commanders[j].0), s.commanders[j].1, None);
      }
      stands := stands[k := s.(state := Built)];
      out := Finished;
    }

    method MoveGrants()
      requires cursor != 0
      modifies this`grants, this`nextGrant, this`cursor
      ensures var (got, after) := Page(old(grants), old(cursor), PAGE);
        && (grants, nextGrant) == MoveAll(old(grants), old(nextGrant), got, resolve)
        && cursor == if after.Some? then after.value else 0
    {
      var (got, after) := Page(grants, cursor, PAGE);
      cursor := if after.Some? then after.value else 0;
      ghost var cursor' := cursor;
      for i := 0 to |got|
        invariant cursor == cursor'
        invariant MoveAll(grants, nextGrant, got[i..], resolve) == MoveAll(old(grants), old(nextGrant), got, resolve)
      {
        assert got[i..][0] == got[i] && got[i..][1..] == got[i + 1..];
        var g := Current(grants, got[i].id);
        if g.Some? && resolve(g.value.principal) != g.value.principal {
          Upsert(g.value.scope, resolve(g.value.principal), g.value.permissions, Some(g.value.calls));
          grants := Without(grants, got[i].id);
        }
      }
    }

    method Fail(k: nat)
      requires k < |stands|
      modifies this`stands
      ensures stands == old(stands)[k := old(stands)[k].(state := Failed)]
    {
      stands := stands[k := stands[k].(state := Failed)];
    }

    method Round(luck: Luck) returns (out: Outcome)
      modifies this
      ensures (View(), out) == BuildAll(old(View()), luck, resolve)
    {
      var k := NextUnbuilt(stands);
      if k < |stands| {
        if stands[k].state.Failed? {
          return Finished;
        }
        var c := NextToProvision();
        if c.Some? {
          if Raises(luck) {
            var f := StandAt(stands, canisters[c.value].stand);
            if f < |stands| {
              Fail(f);
            }
            return Finished;
          }
          canisters := canisters[c.value := canisters[c.value].(status := Installed)];
          return Unfinished;
        }
        out := BuildStand(k, luck);
        if out.Raise? {
          var f := FirstPending(stands);
          if f < |stands| {
            Fail(f);
          }
          return Raise;
        }
        return Unfinished;
      }
      if cursor != 0 {
        MoveGrants();
        return Unfinished;
      }
      builtAt := true;
      out := Finished;
    }
  }
}
