/** Scoped permissions (src/auth.py) and the operations that hand them on (src/grants.py, and the rename
    in src/stands.py). A grant gives a principal keys at one scope; keys reach down from the orchestra to a
    section to its stands. A slot is a grant whose principal is the checksum of an access code.

    A scope is a text, and a row is found by its key, the texts of scope and principal joined by a bar. Two
    pairs can join to one key; the row that is found keeps the scope and the principal it was made with. */
module Grants {
  import opened Options

  datatype Place = Orchestra | SectionOf(name: string) | StandOf(name: string)

  const ORCHESTRA := "orchestra"
  const SECTION := "section:"
  const STAND := "stand:"

  function Text(place: Place): string {
    match place
    case Orchestra => ORCHESTRA
    case SectionOf(n) => SECTION + n
    case StandOf(n) => STAND + n
  }

  function Parse(scope: string): (r: Option<Place>)
    ensures r.Some? ==> Text(r.value) == scope
  {
    if scope == ORCHESTRA then Some(Orchestra)
    else if STAND <= scope then Some(StandOf(scope[|STAND|..]))
    else if SECTION <= scope then Some(SectionOf(scope[|SECTION|..]))
    else None
  }

  lemma ParseText(place: Place)
    ensures Parse(Text(place)) == Some(place)
  {
    match place
    case Orchestra =>
    case SectionOf(n) => assert (SECTION + n)[0] == 's' && (SECTION + n)[1] == 'e' && (SECTION + n)[|SECTION|..] == n;
    case StandOf(n) => assert (STAND + n)[0] == 's' && (STAND + n)[|STAND|..] == n;
  }

  datatype Call = Call(canister: string, methodName: string)

  datatype Grant = Grant(scope: string, principal: string, permissions: set<string>, calls: set<Call>)

  type Rows = map<string, Grant>

  function KeyOf(scope: string, principal: string): string { scope + "|" + principal }

  /** Every row is stored under the key of its own scope and principal. */
  ghost predicate Keyed(rows: Rows) {
    forall k :: k in rows ==> KeyOf(rows[k].scope, rows[k].principal) == k
  }

  /** `stands` gives each stand's section. */
  datatype Tree = Tree(sections: set<string>, stands: map<string, string>)

  datatype State = State(tree: Tree, rows: Rows, controllers: set<string>, failures: map<string, seq<nat>>)

  datatype Outcome = Done | Refused(why: Why)

  datatype Why = Unauthorized | UnknownScope | UnknownKey | OwnGrant | Exceeds | ExceedsCalls | NoGrant | TooMany | BadCode | NameTaken | Missing

  const ANONYMOUS := "2vxsx-fae"
  const CLAIM_LIMIT: nat := 5
  const CLAIM_WINDOW: nat := 3600
  const FAILURES_MAX: nat := 2000
  const KEYS: set<string> := {
    "canister.create", "canister.deploy", "canister.config", "canister.lifecycle", "canister.delete",
    "canister.call", "canister.browse", "cycles.top_up", "stand.create", "stand.edit", "stand.delete",
    "section.edit", "grant.assign", "wasm.upload", "wasm.authorize", "orchestra.settings", "alias.manage"}

  // ---------- who may do what ----------

  function ChainAt(tree: Tree, place: Place): Option<set<string>> {
    match place
    case Orchestra => Some({ORCHESTRA})
    case SectionOf(n) => if n in tree.sections then Some({Text(place), ORCHESTRA}) else None
    case StandOf(n) =>
      if n in tree.stands && tree.stands[n] in tree.sections
      then Some({Text(place), Text(SectionOf(tree.stands[n])), ORCHESTRA}) else None
  }

  /** The scope and the ones above it; none for a scope that does not exist. */
  function ChainOf(tree: Tree, scope: string): Option<set<string>> {
    if Parse(scope).Some? then ChainAt(tree, Parse(scope).value) else None
  }

  function KeysIn(rows: Rows, above: set<string>, who: set<string>): set<string> {
    set k, perm: string | k in rows && rows[k].scope in above && rows[k].principal in who && perm in rows[k].permissions :: perm
  }

  function CallsIn(rows: Rows, above: set<string>, who: set<string>): set<Call> {
    set k, c: Call | k in rows && rows[k].scope in above && rows[k].principal in who && c in rows[k].calls :: c
  }

  predicate IsController(s: State, p: string) { p != ANONYMOUS && p in s.controllers }

  predicate Holds(s: State, p: string, key: string, above: set<string>) {
    IsController(s, p) || key in KeysIn(s.rows, above, {p}) || "*" in KeysIn(s.rows, above, {p})
  }

  predicate Covers(have: set<string>, perms: set<string>) {
    "*" in have || ("*" !in perms && perms <= have)
  }

  /** An operation that needs `grant.assign` at `scope`. */
  predicate MayAssign(s: State, p: string, scope: string) {
    || IsController(s, p)
    || (p != ANONYMOUS && ChainOf(s.tree, scope).Some? && Holds(s, p, "grant.assign", ChainOf(s.tree, scope).value))
  }

  function CheckDelegation(s: State, p: string, scope: string, target: string, perms: set<string>): Option<Why> {
    if IsController(s, p) then None
    else if target == p then Some(OwnGrant)
    else if ChainOf(s.tree, scope).None? then Some(UnknownScope)
    else
      var have, key := KeysIn(s.rows, ChainOf(s.tree, scope).value, {p}), KeyOf(scope, target);
      if !Covers(have, perms) || (key in s.rows && !Covers(have, s.rows[key].permissions))
      then Some(Exceeds) else None
  }

  function SetRefusal(s: State, p: string, scope: string, target: string, perms: set<string>, calls: set<Call>): Option<Why> {
    if !MayAssign(s, p, scope) then Some(Unauthorized)
    else if !(perms <= KEYS + {"*"}) then Some(UnknownKey)
    else if CheckDelegation(s, p, scope, target, perms).Some? then CheckDelegation(s, p, scope, target, perms)
    else if ChainOf(s.tree, scope).None? then Some(UnknownScope)
    else
      var above := ChainOf(s.tree, scope).value;
      if !IsController(s, p) && "*" !in KeysIn(s.rows, above, {p}) && !(calls <= CallsIn(s.rows, above, {p}))
      then Some(ExceedsCalls) else None
  }

  /** The row under the joined key, or a new one; only what it permits is written. */
  function Upserted(rows: Rows, scope: string, principal: string, perms: set<string>, calls: set<Call>): Rows {
    var key := KeyOf(scope, principal);
    rows[key := if key in rows then rows[key].(permissions := perms, calls := calls) else Grant(scope, principal, perms, calls)]
  }

  function SetStep(s: State, p: string, scope: string, target: string, perms: set<string>, calls: set<Call>): (State, Outcome) {
    var refusal := SetRefusal(s, p, scope, target, perms, calls);
    if refusal.Some? then (s, Refused(refusal.value))
    else (s.(rows := Upserted(s.rows, scope, target, perms, calls)), Done)
  }

  function RemoveStep(s: State, p: string, scope: string, target: string): (State, Outcome) {
    if !MayAssign(s, p, scope) then (s, Refused(Unauthorized))
    else if CheckDelegation(s, p, scope, target, {}).Some?
    then (s, Refused(CheckDelegation(s, p, scope, target, {}).value))
    else if KeyOf(scope, target) !in s.rows then (s, Refused(NoGrant))
    else (s.(rows := s.rows - {KeyOf(scope, target)}), Done)
  }

  function Recent(times: seq<nat>, now: nat): seq<nat> {
    if times == [] then []
    else if now - times[0] < CLAIM_WINDOW then [times[0]] + Recent(times[1..], now)
    else Recent(times[1..], now)
  }

  function FailedBefore(s: State, p: string, now: nat): seq<nat> {
    Recent(if p in s.failures then s.failures[p] else [], now)
  }

  function SlotsOf(rows: Rows, slot: string): set<string> {
    set k | k in rows && rows[k].principal == slot
  }

  function ScopedAt(rows: Rows, scope: string): set<string> {
    set k | k in rows && rows[k].scope == scope
  }

  /** A list of keys, each once. */
  ghost predicate Lists(keys: seq<string>, which: set<string>) {
    && (forall k :: k in keys <==> k in which)
    && (forall i, j :: 0 <= i < j < |keys| ==> keys[i] != keys[j])
  }

  /** One slot: its keys and calls are added to the claimant's row at the slot's scope, and the slot goes. */
  function ClaimOne(rows: Rows, p: string, slot: string): Rows
    requires slot in rows
  {
    var key := KeyOf(rows[slot].scope, p);
    var had := if key in rows then rows[key] else Grant(rows[slot].scope, p, {}, {});
    rows[key := had.(permissions := had.permissions + rows[slot].permissions, calls := had.calls + rows[slot].calls)] - {slot}
  }

  function ClaimEach(rows: Rows, p: string, slots: seq<string>): Rows
    decreases |slots|
  {
    if slots == [] then rows
    else ClaimEach(if slots[0] in rows then ClaimOne(rows, p, slots[0]) else rows, p, slots[1..])
  }

  /** `slot` is the checksum of the access code presented, `order` the rows it finds in stored order. */
  function ClaimStep(s: State, p: string, slot: string, order: seq<string>, now: nat): (State, Outcome) {
    if p == ANONYMOUS then (s, Refused(Unauthorized))
    else
      var recent := FailedBefore(s, p, now);
      if |recent| >= CLAIM_LIMIT then (s, Refused(TooMany))
      else if order == [] then
        var kept := if |s.failures| > FAILURES_MAX then map[] else s.failures;
        (s.(failures := kept[p := recent + [now]]), Refused(BadCode))
      else (s.(failures := s.failures - {p}, rows := ClaimEach(s.rows, p, order)), Done)
  }

  // ---------- renaming a section or a stand ----------

  /** One grant to another scope, over the row that its new key finds. */
  function MoveOne(rows: Rows, to: string, key: string): Rows
    requires key in rows
  {
    var g := rows[key];
    Upserted(rows, to, g.principal, g.permissions, g.calls) - {key}
  }

  function MoveEach(rows: Rows, to: string, keys: seq<string>): Rows
    decreases |keys|
  {
    if keys == [] then rows
    else MoveEach(if keys[0] in rows then MoveOne(rows, to, keys[0]) else rows, to, keys[1..])
  }

  function RenamedTree(tree: Tree, from: Place, name: string): Tree {
    match from
    case SectionOf(n) => Tree(tree.sections - {n} + {name}, map st | st in tree.stands :: if tree.stands[st] == n then name else tree.stands[st])
    case StandOf(n) => Tree(tree.sections, map st | st in tree.stands.Keys - {n} + {name} ::
      if st == name && n in tree.stands then tree.stands[n] else if st in tree.stands then tree.stands[st] else "")
    case _ => tree
  }

  function Named(from: Place, name: string): Place {
    match from case SectionOf(_) => SectionOf(name) case StandOf(_) => StandOf(name) case _ => from
  }

  predicate Exists(tree: Tree, place: Place) {
    match place case SectionOf(n) => n in tree.sections case StandOf(n) => n in tree.stands case _ => false
  }

  /** `order` is the rows at the old scope, in stored order. */
  function RenameStep(s: State, from: Place, name: string, order: seq<string>): (State, Outcome) {
    if !Exists(s.tree, from) then (s, Refused(Missing))
    else if Exists(s.tree, Named(from, name)) then (s, Refused(NameTaken))
    else (s.(rows := MoveEach(s.rows, Text(Named(from, name)), order), tree := RenamedTree(s.tree, from, name)), Done)
  }

  // ---------- the operations as the conductor runs them ----------

  class Conductor {
    var tree: Tree
    var rows: Rows
    var controllers: set<string>
    var failures: map<string, seq<nat>>

    ghost function View(): State
      reads this
    {
      State(tree, rows, controllers, failures)
    }

    constructor (tree: Tree, rows: Rows, controllers: set<string>)
      ensures View() == State(tree, rows, controllers, map[])
    {
      this.tree, this.rows, this.controllers, this.failures := tree, rows, controllers, map[];
    }

    method Upsert(scope: string, principal: string, perms: set<string>, calls: set<Call>)
      modifies this`rows
      ensures rows == Upserted(old(rows), scope, principal, perms, calls)
    {
      var key := KeyOf(scope, principal);
      if key !in rows {
        rows := rows[key := Grant(scope, principal, {}, {})];
      }
      rows := rows[key := rows[key].(permissions := perms, calls := calls)];
    }

    method GrantSet(p: string, scope: string, target: string, perms: set<string>, calls: set<Call>) returns (out: Outcome)
      modifies this`rows
      ensures (View(), out) == SetStep(old(View()), p, scope, target, perms, calls)
      ensures out.Done? ==> KeyOf(scope, target) in rows && rows[KeyOf(scope, target)].permissions == perms && rows[KeyOf(scope, target)].calls == calls
      ensures forall k :: k != KeyOf(scope, target) ==> (k in rows <==> k in old(rows)) && (k in rows ==> rows[k] == old(rows)[k])
    {
      var s := State(tree, rows, controllers, failures);
      var refusal := SetRefusal(s, p, scope, target, perms, calls);
      if refusal.Some? {
        return Refused(refusal.value);
      }
      Upsert(scope, target, perms, calls);
      out := Done;
    }

    method GrantRemove(p: string, scope: string, target: string) returns (out: Outcome)
      modifies this`rows
      ensures (View(), out) == RemoveStep(old(View()), p, scope, target)
      ensures out.Done? ==> KeyOf(scope, target) !in rows
      ensures forall k :: k != KeyOf(scope, target) ==> (k in rows <==> k in old(rows)) && (k in rows ==> rows[k] == old(rows)[k])
    {
      var s := State(tree, rows, controllers, failures);
      if !MayAssign(s, p, scope) {
        return Refused(Unauthorized);
      }
      var refusal := CheckDelegation(s, p, scope, target, {});
      if refusal.Some? {
        return Refused(refusal.value);
      }
      if KeyOf(scope, target) !in rows {
        return Refused(NoGrant);
      }
      rows := rows - {KeyOf(scope, target)};
      out := Done;
    }

    method GrantClaim(p: string, slot: string, order: seq<string>, now: nat) returns (out: Outcome)
      requires Lists(order, SlotsOf(rows, slot))
      modifies this`rows, this`failures
      ensures (View(), out) == ClaimStep(old(View()), p, slot, order, now)
    {
      if p == ANONYMOUS {
        return Refused(Unauthorized);
      }
      var recent := Recent(if p in failures then failures[p] else [], now);
      if |recent| >= CLAIM_LIMIT {
        return Refused(TooMany);
      }
      if order == [] {
        if |failures| > FAILURES_MAX {
          failures := map[];
        }
        failures := failures[p := recent + [now]];
        return Refused(BadCode);
      }
      failures := failures - {p};
      for i := 0 to |order|
        invariant failures == old(failures) - {p} && tree == old(tree) && controllers == old(controllers)
        invariant ClaimEach(rows, p, order[i..]) == ClaimEach(old(rows), p, order)
      {
        assert order[i..][0] == order[i] && order[i..][1..] == order[i + 1..];
        if order[i] in rows {
          var slotRow := rows[order[i]];
          var key := KeyOf(slotRow.scope, p);
          var had := if key in rows then rows[key] else Grant(slotRow.scope, p, {}, {});
          rows := rows[key := had.(permissions := had.permissions + slotRow.permissions, calls := had.calls + slotRow.calls)];
          rows := rows - {order[i]};
        }
      }
      out := Done;
    }

    method Rescope(from: string, to: string, order: seq<string>)
      requires Lists(order, ScopedAt(rows, from))
      modifies this`rows
      ensures rows == MoveEach(old(rows), to, order)
    {
      for i := 0 to |order|
        invariant MoveEach(rows, to, order[i..]) == MoveEach(old(rows), to, order)
      {
        assert order[i..][0] == order[i] && order[i..][1..] == order[i + 1..];
        if order[i] in rows {
          var g := rows[order[i]];
          Upsert(to, g.principal, g.permissions, g.calls);
          rows := rows - {order[i]};
        }
      }
    }

    method Rename(from: Place, name: string, order: seq<string>) returns (out: Outcome)
      requires Lists(order, ScopedAt(rows, Text(from)))
      modifies this`rows, this`tree
      ensures (View(), out) == RenameStep(old(View()), from, name, order)
    {
      if !Exists(tree, from) {
        return Refused(Missing);
      }
      if Exists(tree, Named(from, name)) {
        return Refused(NameTaken);
      }
      Rescope(Text(from), Text(Named(from, name)), order);
      tree := RenamedTree(tree, from, name);
      out := Done;
    }
  }
}
