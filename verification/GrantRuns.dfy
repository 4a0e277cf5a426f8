/** What the delegation rules promise over whole runs: a coalition of principals who are not controllers gains no
    key and no call it did not hold, exactly as long as no two existing scopes can join to one row key. */
module GrantRuns {
  import opened Options
  import opened Grants

  datatype Op =
    | Set(actor: string, scope: string, target: string, permissions: set<string>, calls: set<Call>)
    | Remove(actor: string, scope: string, target: string)
    | Claim(actor: string, slot: string, order: seq<string>, now: nat)

  function Apply(s: State, op: Op): State {
    match op
    case Set(p, scope, target, perms, calls) => SetStep(s, p, scope, target, perms, calls).0
    case Remove(p, scope, target) => RemoveStep(s, p, scope, target).0
    case Claim(p, slot, order, now) => ClaimStep(s, p, slot, order, now).0
  }

  /** A caller's principal and a checksum are texts without a bar. */
  predicate Plain(p: string) { '|' !in p }

  /** The members of the coalition act, none of them a controller, and claim only slots counted as theirs. */
  ghost predicate ByCoalition(s: State, who: set<string>, op: Op) {
    && op.actor in who && !IsController(s, op.actor)
    && (op.Claim? ==> op.slot in who && Lists(op.order, SlotsOf(s.rows, op.slot)))
  }

  ghost predicate AllByCoalition(s: State, who: set<string>, ops: seq<Op>)
    decreases |ops|
  {
    ops == [] || (ByCoalition(s, who, ops[0]) && AllByCoalition(Apply(s, ops[0]), who, ops[1..]))
  }

  function Run(s: State, ops: seq<Op>): State
    decreases |ops|
  {
    if ops == [] then s else Run(Apply(s, ops[0]), ops[1..])
  }

  ghost predicate CoversCalls(have: set<string>, calls: set<Call>, more: set<Call>) {
    "*" in have || more <= calls
  }

  /** At `above`, the coalition holds in `t` nothing it did not hold in `s`, `*` standing for every key and
      for every call. */
  ghost predicate NoMore(s: State, t: State, who: set<string>, above: set<string>) {
    && Covers(KeysIn(s.rows, above, who), KeysIn(t.rows, above, who))
    && CoversCalls(KeysIn(s.rows, above, who), CallsIn(s.rows, above, who), CallsIn(t.rows, above, who))
  }

  // ---------- joined keys ----------

  /** No existing scope, followed by a bar, begins another. */
  ghost predicate Unambiguous(tree: Tree) {
    forall a, b :: ChainOf(tree, a).Some? && ChainOf(tree, b).Some? ==> !(a + "|" <= b)
  }

  lemma SameKey(a: string, p: string, b: string, q: string)
    requires KeyOf(a, p) == KeyOf(b, q)
    ensures (a == b && p == q) || a + "|" <= b || b + "|" <= a
  {
    var key := KeyOf(a, p);
    assert key == a + ("|" + p) && key == b + ("|" + q);
    assert key[..|a|] == a && key[..|b|] == b;
    assert key[..|a| + 1] == a + "|" && key[..|b| + 1] == b + "|";
    if |a| == |b| {
      assert key[|a| + 1..] == p && key[|b| + 1..] == q;
    } else if |a| < |b| {
      assert b[..|a| + 1] == key[..|a| + 1];
    } else {
      assert a[..|b| + 1] == key[..|b| + 1];
    }
  }

  /** Plain principals are told apart by their keys, whatever the scopes. */
  lemma PlainKey(a: string, p: string, b: string, q: string)
    requires KeyOf(a, p) == KeyOf(b, q) && Plain(p) && Plain(q)
    ensures a == b && p == q
  {
    var key := KeyOf(a, p);
    assert p == key[|a| + 1..] && q == key[|b| + 1..];
    assert forall i :: |a| < i < |key| ==> key[i] == p[i - |a| - 1];
    assert forall i :: |b| < i < |key| ==> key[i] == q[i - |b| - 1];
    assert key[|a|] == '|' && key[|b|] == '|';
    assert key[..|a|] == a && key[..|b|] == b;
  }

  lemma ChainsNest(tree: Tree, low: string, high: string)
    requires ChainOf(tree, low).Some? && high in ChainOf(tree, low).value
    ensures ChainOf(tree, high).Some? && ChainOf(tree, high).value <= ChainOf(tree, low).value
  {
    var place := Parse(low).value;
    ParseText(Orchestra);
    ParseText(place);
    if place.StandOf? { ParseText(SectionOf(tree.stands[place.name])); }
  }

  lemma KeysGrow(rows: Rows, a: set<string>, b: set<string>, p: string, who: set<string>)
    requires a <= b && p in who
    ensures KeysIn(rows, a, {p}) <= KeysIn(rows, b, who)
    ensures CallsIn(rows, a, {p}) <= CallsIn(rows, b, who)
  {
  }

  /** A table whose coalition rows are all inside another's gives the coalition no more. */
  lemma FewerRows(a: Rows, b: Rows, above: set<string>, who: set<string>)
    requires forall k :: k in b && b[k].scope in above && b[k].principal in who ==>
      b[k].permissions <= KeysIn(a, above, who) && b[k].calls <= CallsIn(a, above, who)
    ensures KeysIn(b, above, who) <= KeysIn(a, above, who)
    ensures CallsIn(b, above, who) <= CallsIn(a, above, who)
  {
  }

  // ---------- no amplification ----------

  lemma SetGivesNoMore(s: State, who: set<string>, p: string, scope: string, target: string, perms: set<string>,
                       calls: set<Call>, at: string)
    requires Keyed(s.rows) && Unambiguous(s.tree) && p in who && !IsController(s, p) && ChainOf(s.tree, at).Some?
    ensures NoMore(s, SetStep(s, p, scope, target, perms, calls).0, who, ChainOf(s.tree, at).value)
  {
    var t, above, key := SetStep(s, p, scope, target, perms, calls).0, ChainOf(s.tree, at).value, KeyOf(scope, target);
    if SetRefusal(s, p, scope, target, perms, calls).None? {
      var r := t.rows[key];
      if r.scope in above {
        ChainsNest(s.tree, at, r.scope);
        SameKey(r.scope, r.principal, scope, target);
        assert r.scope == scope;
        KeysGrow(s.rows, ChainOf(s.tree, scope).value, above, p, who);
      }
    }
  }

  lemma UpsertKeeps(rows: Rows, scope: string, p: string, perms: set<string>, calls: set<Call>)
    requires Keyed(rows)
    ensures Keyed(Upserted(rows, scope, p, perms, calls))
  {
  }

  /** One slot claimed by a plain principal lands on its own row or on one that nobody can act as. */
  lemma ClaimOneGivesNoMore(rows: Rows, p: string, slot: string, who: set<string>, above: set<string>)
    requires Keyed(rows) && slot in rows && p in who && rows[slot].principal in who && forall w <- who :: Plain(w)
    ensures Keyed(ClaimOne(rows, p, slot))
    ensures KeysIn(ClaimOne(rows, p, slot), above, who) <= KeysIn(rows, above, who)
    ensures CallsIn(ClaimOne(rows, p, slot), above, who) <= CallsIn(rows, above, who)
  {
    var after, key := ClaimOne(rows, p, slot), KeyOf(rows[slot].scope, p);
    forall k | k in after && after[k].scope in above && after[k].principal in who
      ensures after[k].permissions <= KeysIn(rows, above, who) && after[k].calls <= CallsIn(rows, above, who)
    {
      if k == key { PlainKey(after[k].scope, after[k].principal, rows[slot].scope, p); }
    }
    FewerRows(rows, after, above, who);
  }

  lemma {:induction false} ClaimEachGivesNoMore(rows: Rows, p: string, slots: seq<string>, who: set<string>, above: set<string>)
    requires Keyed(rows) && p in who && (forall w <- who :: Plain(w))
    requires forall k <- slots :: k in rows ==> rows[k].principal in who
    ensures Keyed(ClaimEach(rows, p, slots))
    ensures KeysIn(ClaimEach(rows, p, slots), above, who) <= KeysIn(rows, above, who)
    ensures CallsIn(ClaimEach(rows, p, slots), above, who) <= CallsIn(rows, above, who)
    decreases |slots|
  {
    if slots != [] {
      assert slots[0] in slots && forall k <- slots[1..] :: k in slots;
      if slots[0] in rows {
        ClaimOneGivesNoMore(rows, p, slots[0], who, above);
        ClaimEachGivesNoMore(ClaimOne(rows, p, slots[0]), p, slots[1..], who, above);
      } else {
        ClaimEachGivesNoMore(rows, p, slots[1..], who, above);
      }
    }
  }

  lemma RemoveGivesNoMore(s: State, who: set<string>, p: string, scope: string, target: string, at: string)
    requires ChainOf(s.tree, at).Some?
    ensures NoMore(s, RemoveStep(s, p, scope, target).0, who, ChainOf(s.tree, at).value)
  {
    FewerRows(s.rows, RemoveStep(s, p, scope, target).0.rows, ChainOf(s.tree, at).value, who);
  }

  lemma ClaimGivesNoMore(s: State, who: set<string>, p: string, slot: string, order: seq<string>, now: nat, at: string)
    requires Keyed(s.rows) && (forall w <- who :: Plain(w)) && p in who && slot in who && ChainOf(s.tree, at).Some?
    requires forall k <- order :: k in s.rows && s.rows[k].principal == slot
    ensures Keyed(ClaimStep(s, p, slot, order, now).0.rows)
    ensures NoMore(s, ClaimStep(s, p, slot, order, now).0, who, ChainOf(s.tree, at).value)
  {
    ClaimEachGivesNoMore(s.rows, p, order, who, ChainOf(s.tree, at).value);
  }

  lemma SetKeepsTree(s: State, p: string, scope: string, target: string, perms: set<string>, calls: set<Call>)
    requires Keyed(s.rows)
    ensures var t := SetStep(s, p, scope, target, perms, calls).0; t.tree == s.tree && t.controllers == s.controllers && Keyed(t.rows)
  {
    UpsertKeeps(s.rows, scope, target, perms, calls);
  }

  lemma RemoveKeepsTree(s: State, p: string, scope: string, target: string)
    requires Keyed(s.rows)
    ensures var t := RemoveStep(s, p, scope, target).0; t.tree == s.tree && t.controllers == s.controllers && Keyed(t.rows)
  {
  }

  lemma ClaimKeepsTree(s: State, p: string, slot: string, order: seq<string>, now: nat)
    ensures var t := ClaimStep(s, p, slot, order, now).0; t.tree == s.tree && t.controllers == s.controllers
  {
  }

  lemma StepGivesNoMore(s: State, who: set<string>, op: Op, at: string)
    requires Keyed(s.rows) && Unambiguous(s.tree) && (forall w <- who :: Plain(w))
    requires ByCoalition(s, who, op) && ChainOf(s.tree, at).Some?
    ensures Apply(s, op).tree == s.tree && Apply(s, op).controllers == s.controllers && Keyed(Apply(s, op).rows)
    ensures NoMore(s, Apply(s, op), who, ChainOf(s.tree, at).value)
  {
    match op
    case Set(p, scope, target, perms, calls) =>
      SetKeepsTree(s, p, scope, target, perms, calls);
      SetGivesNoMore(s, who, p, scope, target, perms, calls, at);
    case Remove(p, scope, target) =>
      RemoveKeepsTree(s, p, scope, target);
      RemoveGivesNoMore(s, who, p, scope, target, at);
    case Claim(p, slot, order, now) =>
      ClaimKeepsTree(s, p, slot, order, now);
      ClaimGivesNoMore(s, who, p, slot, order, now, at);
  }

  /** Delegation never amplifies: after any run of grant operations by the coalition, what it holds at any
      scope is contained in what it held there at the start. */
  lemma {:induction false} DelegationNeverAmplifies(s: State, who: set<string>, ops: seq<Op>, at: string)
    requires Keyed(s.rows) && Unambiguous(s.tree) && (forall w <- who :: Plain(w))
    requires AllByCoalition(s, who, ops) && ChainOf(s.tree, at).Some?
    ensures Run(s, ops).tree == s.tree
    ensures NoMore(s, Run(s, ops), who, ChainOf(s.tree, at).value)
    decreases |ops|
  {
    if ops != [] {
      StepGivesNoMore(s, who, ops[0], at);
      DelegationNeverAmplifies(Apply(s, ops[0]), who, ops[1..], at);
    }
  }

  // ---------- ... and exactly then ----------

  /** `x` holds keys at the first scope, `y` an empty row at the second. */
  function Colliding(tree: Tree, a: string, b: string): State {
    State(tree, map[KeyOf(a, "x") := Grant(a, "x", {"grant.assign", "canister.delete"}, {}), KeyOf(b, "y") := Grant(b, "y", {}, {})], {}, map[])
  }

  /** The target whose key at the first scope is `y`'s at the second. */
  function Disguised(a: string, b: string): string
    requires a + "|" <= b
  {
    b[|a| + 1..] + "|y"
  }

  lemma CollidingKeys(tree: Tree, a: string, b: string)
    requires a + "|" <= b
    ensures KeyOf(a, Disguised(a, b)) == KeyOf(b, "y") && Disguised(a, b) != "x"
    ensures KeyOf(a, "x") != KeyOf(b, "y") && Keyed(Colliding(tree, a, b).rows)
  {
    assert b == a + "|" + b[|a| + 1..];
    var target := Disguised(a, b);
    assert target[|target| - 1] == 'y';
    assert KeyOf(a, "x")[|KeyOf(a, "x")| - 1] == 'x' && KeyOf(b, "y")[|KeyOf(b, "y")| - 1] == 'y';
  }

  /** A scope is not above one that its text and a bar begin. */
  lemma NotAbove(tree: Tree, a: string, b: string)
    requires ChainOf(tree, b).Some? && a + "|" <= b
    ensures a !in ChainOf(tree, b).value
  {
    var place := Parse(b).value;
    if place.Orchestra? { assert b[|a|] == '|'; }
    assert |a| > 0 ==> a[0] == b[0];
    assert |a| > 1 ==> a[1] == b[1];
    if place.StandOf? {
      var section := Text(SectionOf(tree.stands[place.name]));
      assert section[1] == 'e' && b[1] == 't' && |section| > 1;
    }
    if !place.Orchestra? { assert b[0] == 's' && ORCHESTRA[0] == 'o'; }
  }

  lemma CollidingSetWorks(tree: Tree, a: string, b: string)
    requires ChainOf(tree, a).Some? && a + "|" <= b
    ensures SetRefusal(Colliding(tree, a, b), "x", a, Disguised(a, b), {"canister.delete"}, {}).None?
  {
    var s := Colliding(tree, a, b);
    CollidingKeys(tree, a, b);
    var above := ChainOf(tree, a).value;
    ParseText(Parse(a).value);
    assert a in above;
    var have := KeysIn(s.rows, above, {"x"});
    assert have == {"grant.assign", "canister.delete"} by {
      assert s.rows[KeyOf(a, "x")].permissions == {"grant.assign", "canister.delete"};
    }
    assert "canister.delete" in KEYS;
  }

  /** Where two scopes can join to one key, a single grant gives a coalition a key at a scope where it held none. */
  lemma CollidingScopesAmplify(tree: Tree, a: string, b: string)
    requires ChainOf(tree, a).Some? && ChainOf(tree, b).Some? && a + "|" <= b
    ensures var s := Colliding(tree, a, b); var op := Set("x", a, Disguised(a, b), {"canister.delete"}, {});
      && ByCoalition(s, {"x", "y"}, op) && KeysIn(s.rows, ChainOf(tree, b).value, {"x", "y"}) == {}
      && "canister.delete" in KeysIn(Apply(s, op).rows, ChainOf(tree, b).value, {"x", "y"})
  {
    var s := Colliding(tree, a, b);
    CollidingKeys(tree, a, b);
    CollidingSetWorks(tree, a, b);
    NotAbove(tree, a, b);
    ParseText(Parse(b).value);
    var t := Apply(s, Set("x", a, Disguised(a, b), {"canister.delete"}, {}));
    assert t.rows[KeyOf(b, "y")] == Grant(b, "y", {"canister.delete"}, {});
    assert b in ChainOf(tree, b).value;
  }

  ghost predicate SafeRun(s: State, who: set<string>, ops: seq<Op>, at: string) {
    Keyed(s.rows) && (forall w <- who :: Plain(w)) && AllByCoalition(s, who, ops) && ChainOf(s.tree, at).Some? ==>
      NoMore(s, Run(s, ops), who, ChainOf(s.tree, at).value)
  }

  /** No coalition gains anything in any run over any grants at these scopes, if and only if no existing scope and a
      bar begin another: what a name would have to contain for two rows to share a key. */
  lemma DelegationIsSafeIff(tree: Tree)
    ensures (forall s: State, who, ops, at :: s.tree == tree ==> SafeRun(s, who, ops, at)) <==> Unambiguous(tree)
  {
    if Unambiguous(tree) {
      forall s: State, who, ops, at | s.tree == tree ensures SafeRun(s, who, ops, at) {
        if Keyed(s.rows) && (forall w <- who :: Plain(w)) && AllByCoalition(s, who, ops) && ChainOf(s.tree, at).Some? {
          DelegationNeverAmplifies(s, who, ops, at);
        }
      }
    } else {
      var a, b :| ChainOf(tree, a).Some? && ChainOf(tree, b).Some? && a + "|" <= b;
      CollidingIsUnsafe(tree, a, b);
    }
  }

  lemma OneOp(s: State, who: set<string>, op: Op)
    requires ByCoalition(s, who, op)
    ensures AllByCoalition(s, who, [op]) && Run(s, [op]) == Apply(s, op)
  {
    assert [op][1..] == [];
  }

  lemma CollidingIsUnsafe(tree: Tree, a: string, b: string)
    requires ChainOf(tree, a).Some? && ChainOf(tree, b).Some? && a + "|" <= b
    ensures exists s: State, who, ops, at :: s.tree == tree && !SafeRun(s, who, ops, at)
  {
    var s, who, op := AnAmplifier(tree, a, b);
    OneOp(s, who, op);
    NotSafe(s, who, op, b);
  }

  lemma AnAmplifier(tree: Tree, a: string, b: string) returns (s: State, who: set<string>, op: Op)
    requires ChainOf(tree, a).Some? && ChainOf(tree, b).Some? && a + "|" <= b
    ensures s.tree == tree && Keyed(s.rows) && (forall w <- who :: Plain(w)) && ByCoalition(s, who, op)
    ensures KeysIn(s.rows, ChainOf(tree, b).value, who) == {}
    ensures KeysIn(Apply(s, op).rows, ChainOf(tree, b).value, who) != {}
  {
    s, who, op := Colliding(tree, a, b), {"x", "y"}, Set("x", a, Disguised(a, b), {"canister.delete"}, {});
    CollidingKeys(tree, a, b);
    CollidingScopesAmplify(tree, a, b);
  }

  lemma NotSafe(s: State, who: set<string>, op: Op, at: string)
    requires Keyed(s.rows) && (forall w <- who :: Plain(w)) && AllByCoalition(s, who, [op]) && ChainOf(s.tree, at).Some?
    requires Run(s, [op]) == Apply(s, op) && KeysIn(s.rows, ChainOf(s.tree, at).value, who) == {}
    requires KeysIn(Apply(s, op).rows, ChainOf(s.tree, at).value, who) != {}
    ensures !SafeRun(s, who, [op], at)
  {
  }

  /** Two stands, `a` and `a|b`, are enough. */
  lemma BarInAName()
    ensures !Unambiguous(Tree({"s"}, map["a" := "s", "a|b" := "s"]))
  {
    var tree := Tree({"s"}, map["a" := "s", "a|b" := "s"]);
    ParseText(StandOf("a"));
    ParseText(StandOf("a|b"));
    assert STAND + "a|b" == STAND + "a" + "|" + "b";
    assert ChainOf(tree, Text(StandOf("a"))).Some? && ChainOf(tree, Text(StandOf("a|b"))).Some?;
  }

  /** Claiming slots leaves the row of every plain principal but the claimant's and the slots' own. */
  lemma {:induction false} ClaimSparesOthers(rows: Rows, p: string, slots: seq<string>, slot: string, k: string)
    requires Keyed(rows) && Plain(p) && forall q <- slots :: q in rows ==> rows[q].principal in {p, slot}
    requires k in rows && Plain(rows[k].principal) && rows[k].principal !in {p, slot}
    ensures k in ClaimEach(rows, p, slots) && ClaimEach(rows, p, slots)[k] == rows[k]
    decreases |slots|
  {
    if slots != [] {
      assert slots[0] in slots && forall q <- slots[1..] :: q in slots;
      if slots[0] in rows {
        var scope := rows[slots[0]].scope;
        if k == KeyOf(scope, p) { PlainKey(rows[k].scope, rows[k].principal, scope, p); }
        ClaimSparesOthers(ClaimOne(rows, p, slots[0]), p, slots[1..], slot, k);
      } else {
        ClaimSparesOthers(rows, p, slots[1..], slot, k);
      }
    }
  }

  lemma DelegationCovers(s: State, p: string, scope: string, target: string, perms: set<string>)
    requires !IsController(s, p) && CheckDelegation(s, p, scope, target, perms).None?
    ensures target != p && ChainOf(s.tree, scope).Some?
    ensures KeyOf(scope, target) in s.rows ==>
      Covers(KeysIn(s.rows, ChainOf(s.tree, scope).value, {p}), s.rows[KeyOf(scope, target)].permissions)
  {
  }

  lemma SetTouchesOne(s: State, p: string, scope: string, target: string, perms: set<string>, calls: set<Call>, k: string)
    requires k in s.rows && RowAt(SetStep(s, p, scope, target, perms, calls).0.rows, k) != RowAt(s.rows, k)
    ensures k == KeyOf(scope, target) && SetRefusal(s, p, scope, target, perms, calls).None?
  {
  }

  lemma RemoveTouchesOne(s: State, p: string, scope: string, target: string, k: string)
    requires k in s.rows && RowAt(RemoveStep(s, p, scope, target).0.rows, k) != RowAt(s.rows, k)
    ensures k == KeyOf(scope, target) && CheckDelegation(s, p, scope, target, {}).None?
  {
  }

  lemma SetOrRemoveCovers(s: State, op: Op, k: string)
    requires !op.Claim? && !IsController(s, op.actor) && k in s.rows && RowAt(Apply(s, op).rows, k) != RowAt(s.rows, k)
    ensures k == KeyOf(op.scope, op.target) && op.target != op.actor && ChainOf(s.tree, op.scope).Some?
    ensures Covers(KeysIn(s.rows, ChainOf(s.tree, op.scope).value, {op.actor}), s.rows[k].permissions)
  {
    if op.Set? {
      SetTouchesOne(s, op.actor, op.scope, op.target, op.permissions, op.calls, k);
      DelegationCovers(s, op.actor, op.scope, op.target, op.permissions);
    } else {
      RemoveTouchesOne(s, op.actor, op.scope, op.target, k);
      DelegationCovers(s, op.actor, op.scope, op.target, {});
    }
  }

  /** A row that somebody else holds changes only if what it held was covered by what the actor held where it acted; and
      where no two scopes collide, that is the row's own scope. A claim changes no plain principal's row but the
      claimant's and the slots'. */
  lemma OnlyCoveredRowsChange(s: State, who: set<string>, op: Op, k: string)
    requires Keyed(s.rows) && ByCoalition(s, who, op) && (forall w <- who :: Plain(w))
    requires k in s.rows && (k !in Apply(s, op).rows || Apply(s, op).rows[k] != s.rows[k])
    ensures !op.Claim? ==> k == KeyOf(op.scope, op.target) && op.target != op.actor && ChainOf(s.tree, op.scope).Some?
    ensures !op.Claim? ==> Covers(KeysIn(s.rows, ChainOf(s.tree, op.scope).value, {op.actor}), s.rows[k].permissions)
    ensures !op.Claim? && Unambiguous(s.tree) && ChainOf(s.tree, s.rows[k].scope).Some? ==>
      (s.rows[k].scope, s.rows[k].principal) == (op.scope, op.target)
    ensures op.Claim? && Plain(s.rows[k].principal) ==> s.rows[k].principal in {op.actor, op.slot}
  {
    if op.Claim? {
      if Plain(s.rows[k].principal) && s.rows[k].principal !in {op.actor, op.slot} { ClaimSparesOthers(s.rows, op.actor, op.order, op.slot, k); }
    } else {
      SetOrRemoveCovers(s, op, k);
      SameKey(s.rows[k].scope, s.rows[k].principal, op.scope, op.target);
    }
  }

  // ---------- claims ----------

  function RowAt(rows: Rows, k: string): Option<Grant> {
    if k in rows then Some(rows[k]) else None
  }

  /** What `p` gets from a slot: added to the row under its key at the slot's scope. */
  function Joined(had: Option<Grant>, slot: Grant, p: string): Grant {
    var g := if had.Some? then had.value else Grant(slot.scope, p, {}, {});
    g.(permissions := g.permissions + slot.permissions, calls := g.calls + slot.calls)
  }

  ghost predicate AreSlots(rows: Rows, slots: seq<string>, slot: string) {
    && Keyed(rows) && Plain(slot)
    && (forall k <- slots :: k in rows && rows[k].principal == slot)
    && (forall i, j :: 0 <= i < j < |slots| ==> slots[i] != slots[j])
  }

  /** One claim leaves the other slots as they are and keys of their own. */
  lemma ClaimOneKeeps(rows: Rows, p: string, slots: seq<string>, slot: string)
    requires AreSlots(rows, slots, slot) && Plain(p) && p != slot && slots != []
    ensures var next := ClaimOne(rows, p, slots[0]);
      AreSlots(next, slots[1..], slot) && forall q <- slots[1..] :: next[q] == rows[q] && q != slots[0]
    ensures forall q <- slots :: KeyOf(rows[q].scope, p) !in slots
    ensures forall q <- slots[1..] :: KeyOf(rows[q].scope, p) != KeyOf(rows[slots[0]].scope, p)
  {
    assert forall q <- slots[1..] :: q in slots && q != slots[0];
    forall q <- slots, x <- slots ensures KeyOf(rows[q].scope, p) != x {
      if KeyOf(rows[q].scope, p) == x { PlainKey(rows[q].scope, p, rows[x].scope, slot); }
    }
    forall q <- slots[1..] ensures KeyOf(rows[q].scope, p) != KeyOf(rows[slots[0]].scope, p) {
      if KeyOf(rows[q].scope, p) == KeyOf(rows[slots[0]].scope, p) { PlainKey(rows[q].scope, p, rows[slots[0]].scope, p); }
    }
  }

  lemma ClaimOneAt(rows: Rows, p: string, q: string, k: string)
    requires q in rows && KeyOf(rows[q].scope, p) != q
    ensures RowAt(ClaimOne(rows, p, q), k) ==
      if k == q then None else if k == KeyOf(rows[q].scope, p) then Some(Joined(RowAt(rows, k), rows[q], p)) else RowAt(rows, k)
  {
  }

  lemma {:induction false} ClaimEachSpares(rows: Rows, p: string, slots: seq<string>, slot: string, k: string)
    requires AreSlots(rows, slots, slot) && Plain(p) && p != slot
    requires k !in slots && forall q <- slots :: KeyOf(rows[q].scope, p) != k
    ensures RowAt(ClaimEach(rows, p, slots), k) == RowAt(rows, k)
    decreases |slots|
  {
    if slots != [] {
      assert slots[0] in slots && forall q <- slots[1..] :: q in slots;
      ClaimOneKeeps(rows, p, slots, slot);
      ClaimOneAt(rows, p, slots[0], k);
      ClaimEachSpares(ClaimOne(rows, p, slots[0]), p, slots[1..], slot, k);
    }
  }

  lemma {:induction false} ClaimEachDrops(rows: Rows, p: string, slots: seq<string>, slot: string, k: string)
    requires AreSlots(rows, slots, slot) && Plain(p) && p != slot && k in slots
    ensures k !in ClaimEach(rows, p, slots)
    decreases |slots|
  {
    var next := ClaimOne(rows, p, slots[0]);
    assert slots[0] in slots && forall q <- slots[1..] :: q in slots;
    ClaimOneKeeps(rows, p, slots, slot);
    if k == slots[0] { ClaimEachSpares(next, p, slots[1..], slot, k); } else { ClaimEachDrops(next, p, slots[1..], slot, k); }
  }

  lemma {:induction false} ClaimEachJoins(rows: Rows, p: string, slots: seq<string>, slot: string, q: string)
    requires AreSlots(rows, slots, slot) && Plain(p) && p != slot && q in slots
    ensures var k := KeyOf(rows[q].scope, p); RowAt(ClaimEach(rows, p, slots), k) == Some(Joined(RowAt(rows, k), rows[q], p))
    decreases |slots|
  {
    var k, next := KeyOf(rows[q].scope, p), ClaimOne(rows, p, slots[0]);
    assert slots[0] in slots && forall x <- slots[1..] :: x in slots;
    ClaimOneKeeps(rows, p, slots, slot);
    ClaimOneAt(rows, p, slots[0], k);
    if q == slots[0] { ClaimEachSpares(next, p, slots[1..], slot, k); } else { ClaimEachJoins(next, p, slots[1..], slot, q); }
  }

  /** Key by key, what claiming the slots of a plain checksum leaves to a plain principal. */
  lemma ClaimEachAt(rows: Rows, p: string, slots: seq<string>, slot: string, k: string)
    requires AreSlots(rows, slots, slot) && Plain(p) && p != slot
    ensures var t := ClaimEach(rows, p, slots);
      && (k in slots ==> k !in t)
      && (k !in slots && (forall q <- slots :: KeyOf(rows[q].scope, p) != k) ==> RowAt(t, k) == RowAt(rows, k))
      && (forall q <- slots :: KeyOf(rows[q].scope, p) == k ==> RowAt(t, k) == Some(Joined(RowAt(rows, k), rows[q], p)))
  {
    if k in slots { ClaimEachDrops(rows, p, slots, slot, k); }
    if k !in slots && forall q <- slots :: KeyOf(rows[q].scope, p) != k { ClaimEachSpares(rows, p, slots, slot, k); }
    forall q <- slots | KeyOf(rows[q].scope, p) == k { ClaimEachJoins(rows, p, slots, slot, q); }
  }

  /** The row of a principal at a scope, if the key they join to is theirs. */
  function At(rows: Rows, scope: string, p: string): Option<Grant> {
    var key := KeyOf(scope, p);
    if key in rows && rows[key].scope == scope then Some(rows[key]) else None
  }

  lemma AtIsOwn(rows: Rows, scope: string, p: string)
    requires Keyed(rows) && At(rows, scope, p).Some?
    ensures At(rows, scope, p).value.principal == p
  {
    SameScope(scope, At(rows, scope, p).value.principal, p);
  }

  lemma SameScope(scope: string, p: string, q: string)
    requires KeyOf(scope, p) == KeyOf(scope, q)
    ensures p == q
  {
    assert KeyOf(scope, p)[|scope| + 1..] == p && KeyOf(scope, q)[|scope| + 1..] == q;
  }

  lemma SamePrincipal(a: string, b: string, p: string)
    requires KeyOf(a, p) == KeyOf(b, p)
    ensures a == b
  {
    assert KeyOf(a, p)[..|a|] == a && KeyOf(b, p)[..|b|] == b;
  }

  lemma HoldsThrough(rows: Rows, above: set<string>, p: string, perm: string)
    requires Keyed(rows)
    ensures perm in KeysIn(rows, above, {p}) <==> exists sc :: sc in above && At(rows, sc, p).Some? && perm in At(rows, sc, p).value.permissions
  {
    if perm in KeysIn(rows, above, {p}) {
      var k :| k in rows && rows[k].scope in above && rows[k].principal == p && perm in rows[k].permissions;
      assert At(rows, rows[k].scope, p) == Some(rows[k]);
    }
    if sc :| sc in above && At(rows, sc, p).Some? && perm in At(rows, sc, p).value.permissions {
      AtIsOwn(rows, sc, p);
      assert perm in rows[KeyOf(sc, p)].permissions;
    }
  }

  lemma CallsThrough(rows: Rows, above: set<string>, p: string, c: Call)
    requires Keyed(rows)
    ensures c in CallsIn(rows, above, {p}) <==> exists sc :: sc in above && At(rows, sc, p).Some? && c in At(rows, sc, p).value.calls
  {
    if c in CallsIn(rows, above, {p}) {
      var k :| k in rows && rows[k].scope in above && rows[k].principal == p && c in rows[k].calls;
      assert At(rows, rows[k].scope, p) == Some(rows[k]);
    }
    if sc :| sc in above && At(rows, sc, p).Some? && c in At(rows, sc, p).value.calls {
      AtIsOwn(rows, sc, p);
      assert c in rows[KeyOf(sc, p)].calls;
    }
  }

  /** A slot lands when the row under the claimant's key at its scope is the claimant's, or none. */
  predicate Lands(rows: Rows, slot: string, p: string)
    requires slot in rows
  {
    var key := KeyOf(rows[slot].scope, p);
    key !in rows || rows[key].principal == p
  }

  /** The slot of a scope among those claimed, if it lands. */
  function LandingAt(rows: Rows, slots: seq<string>, slot: string, p: string, scope: string): Option<Grant> {
    var k := KeyOf(scope, slot);
    if k in slots && k in rows && Lands(rows, k, p) then Some(rows[k]) else None
  }

  /** What a claim leaves a plain principal at a scope: the claimant's own row joined with the slot that lands there. */
  lemma ClaimedAt(rows: Rows, p: string, slots: seq<string>, slot: string, sc: string, q: string)
    requires AreSlots(rows, slots, slot) && Plain(p) && p != slot && Plain(q) && q != slot
    ensures At(ClaimEach(rows, p, slots), sc, q) ==
      if q == p && LandingAt(rows, slots, slot, p, sc).Some? then Some(Joined(At(rows, sc, p), LandingAt(rows, slots, slot, p, sc).value, p))
      else At(rows, sc, q)
  {
    var k, x := KeyOf(sc, q), KeyOf(sc, slot);
    ClaimEachAt(rows, p, slots, slot, k);
    if k in slots { PlainKey(sc, q, rows[k].scope, slot); }
    if k in rows && rows[k].principal == p { PlainKey(sc, q, rows[k].scope, p); }
    if x in slots { SamePrincipal(rows[x].scope, sc, slot); }
    forall y <- slots | KeyOf(rows[y].scope, p) == k ensures q == p && y == x { PlainKey(rows[y].scope, p, sc, q); }
    if At(rows, sc, q).Some? { AtIsOwn(rows, sc, q); }
  }

  /** The keys and the calls of the slots that land in the scopes above. */
  function Landed(rows: Rows, slots: seq<string>, slot: string, p: string, above: set<string>): set<string> {
    set sc, perm | sc in above && LandingAt(rows, slots, slot, p, sc).Some? && perm in LandingAt(rows, slots, slot, p, sc).value.permissions :: perm
  }

  function LandedCalls(rows: Rows, slots: seq<string>, slot: string, p: string, above: set<string>): set<Call> {
    set sc, c | sc in above && LandingAt(rows, slots, slot, p, sc).Some? && c in LandingAt(rows, slots, slot, p, sc).value.calls :: c
  }

  lemma {:induction false} ClaimEachKeyed(rows: Rows, p: string, slots: seq<string>)
    requires Keyed(rows)
    ensures Keyed(ClaimEach(rows, p, slots))
    decreases |slots|
  {
    if slots != [] { ClaimEachKeyed(if slots[0] in rows then ClaimOne(rows, p, slots[0]) else rows, p, slots[1..]); }
  }

  lemma ClaimMovesKeys(rows: Rows, p: string, slots: seq<string>, slot: string, above: set<string>, q: string, perm: string)
    requires AreSlots(rows, slots, slot) && Plain(p) && p != slot && Plain(q) && q != slot
    ensures perm in KeysIn(ClaimEach(rows, p, slots), above, {q}) <==>
      perm in KeysIn(rows, above, {q}) || (q == p && perm in Landed(rows, slots, slot, p, above))
  {
    var t := ClaimEach(rows, p, slots);
    ClaimEachKeyed(rows, p, slots);
    HoldsThrough(t, above, q, perm);
    HoldsThrough(rows, above, q, perm);
    forall sc ensures At(t, sc, q).Some? && perm in At(t, sc, q).value.permissions <==>
      (At(rows, sc, q).Some? && perm in At(rows, sc, q).value.permissions)
      || (q == p && LandingAt(rows, slots, slot, p, sc).Some? && perm in LandingAt(rows, slots, slot, p, sc).value.permissions)
    {
      ClaimedAt(rows, p, slots, slot, sc, q);
    }
  }

  lemma ClaimMovesCalls(rows: Rows, p: string, slots: seq<string>, slot: string, above: set<string>, q: string, c: Call)
    requires AreSlots(rows, slots, slot) && Plain(p) && p != slot && Plain(q) && q != slot
    ensures c in CallsIn(ClaimEach(rows, p, slots), above, {q}) <==>
      c in CallsIn(rows, above, {q}) || (q == p && c in LandedCalls(rows, slots, slot, p, above))
  {
    var t := ClaimEach(rows, p, slots);
    ClaimEachKeyed(rows, p, slots);
    CallsThrough(t, above, q, c);
    CallsThrough(rows, above, q, c);
    forall sc ensures At(t, sc, q).Some? && c in At(t, sc, q).value.calls <==>
      (At(rows, sc, q).Some? && c in At(rows, sc, q).value.calls)
      || (q == p && LandingAt(rows, slots, slot, p, sc).Some? && c in LandingAt(rows, slots, slot, p, sc).value.calls)
    {
      ClaimedAt(rows, p, slots, slot, sc, q);
    }
  }

  /** A claim hands over exactly what the slots that land held: no plain principal but the claimant gains or loses
      anything, and the code cannot be used again. */
  lemma ClaimMovesTheSlots(s: State, p: string, slot: string, order: seq<string>, now: nat, above: set<string>, q: string)
    requires Keyed(s.rows) && Plain(p) && Plain(slot) && p != slot && Lists(order, SlotsOf(s.rows, slot))
    requires ClaimStep(s, p, slot, order, now).1 == Done && Plain(q) && q != slot
    ensures var t := ClaimStep(s, p, slot, order, now).0;
      && KeysIn(t.rows, above, {q}) == KeysIn(s.rows, above, {q}) + (if q == p then Landed(s.rows, order, slot, p, above) else {})
      && CallsIn(t.rows, above, {q}) == CallsIn(s.rows, above, {q}) + (if q == p then LandedCalls(s.rows, order, slot, p, above) else {})
      && SlotsOf(t.rows, slot) == {}
  {
    ClaimedKeys(s.rows, p, order, slot, above, q);
    ClaimedCalls(s.rows, p, order, slot, above, q);
    NoSlotIsLeft(s.rows, p, order, slot);
  }

  lemma ClaimedKeys(rows: Rows, p: string, slots: seq<string>, slot: string, above: set<string>, q: string)
    requires AreSlots(rows, slots, slot) && Plain(p) && p != slot && Plain(q) && q != slot
    ensures KeysIn(ClaimEach(rows, p, slots), above, {q}) == KeysIn(rows, above, {q}) + if q == p then Landed(rows, slots, slot, p, above) else {}
  {
    forall perm ensures perm in KeysIn(ClaimEach(rows, p, slots), above, {q}) <==>
      perm in KeysIn(rows, above, {q}) || (q == p && perm in Landed(rows, slots, slot, p, above))
    {
      ClaimMovesKeys(rows, p, slots, slot, above, q, perm);
    }
  }

  lemma ClaimedCalls(rows: Rows, p: string, slots: seq<string>, slot: string, above: set<string>, q: string)
    requires AreSlots(rows, slots, slot) && Plain(p) && p != slot && Plain(q) && q != slot
    ensures CallsIn(ClaimEach(rows, p, slots), above, {q}) == CallsIn(rows, above, {q}) + if q == p then LandedCalls(rows, slots, slot, p, above) else {}
  {
    forall c ensures c in CallsIn(ClaimEach(rows, p, slots), above, {q}) <==>
      c in CallsIn(rows, above, {q}) || (q == p && c in LandedCalls(rows, slots, slot, p, above))
    {
      ClaimMovesCalls(rows, p, slots, slot, above, q, c);
    }
  }

  lemma NoSlotIsLeft(rows: Rows, p: string, slots: seq<string>, slot: string)
    requires AreSlots(rows, slots, slot) && Plain(p) && p != slot && Lists(slots, SlotsOf(rows, slot))
    ensures SlotsOf(ClaimEach(rows, p, slots), slot) == {}
  {
    var t := ClaimEach(rows, p, slots);
    forall k ensures k !in SlotsOf(t, slot) {
      ClaimEachAt(rows, p, slots, slot, k);
      if x :| x in slots && KeyOf(rows[x].scope, p) == k {
        assert RowAt(t, k) == Some(Joined(RowAt(rows, k), rows[x], p));
        assert k in rows && rows[k].principal == slot ==> k in slots;
      }
    }
  }

  /** Where no two scopes collide and every grant is at an existing one, every slot lands. */
  lemma SlotsLand(rows: Rows, tree: Tree, slot: string, p: string)
    requires Keyed(rows) && Unambiguous(tree) && slot in rows && forall k :: k in rows ==> ChainOf(tree, rows[k].scope).Some?
    ensures Lands(rows, slot, p)
  {
    var key := KeyOf(rows[slot].scope, p);
    if key in rows { SameKey(rows[key].scope, rows[key].principal, rows[slot].scope, p); }
  }

  // ---------- renaming ----------

  function Renamed(scope: string, from: Place, name: string): string {
    if scope == Text(from) then Text(Named(from, name)) else scope
  }

  /** No grant to move finds, under its new key, a row of another scope than the new one. */
  ghost predicate NoForeign(rows: Rows, keys: seq<string>, to: string) {
    forall k <- keys :: k in rows && KeyOf(to, rows[k].principal) in rows ==> rows[KeyOf(to, rows[k].principal)].scope == to
  }

  ghost predicate ToMove(rows: Rows, keys: seq<string>, from: string, to: string) {
    && Keyed(rows) && from != to && NoForeign(rows, keys, to)
    && (forall k <- keys :: k in rows && rows[k].scope == from)
    && (forall i, j :: 0 <= i < j < |keys| ==> keys[i] != keys[j])
  }

  lemma MoveOneKeeps(rows: Rows, keys: seq<string>, from: string, to: string)
    requires ToMove(rows, keys, from, to) && keys != []
    ensures var next := MoveOne(rows, to, keys[0]);
      ToMove(next, keys[1..], from, to) && forall q <- keys[1..] :: q in keys && q != keys[0] && next[q] == rows[q]
    ensures KeyOf(to, rows[keys[0]].principal) !in keys
  {
    var first, rest := keys[0], keys[1..];
    var key, next := KeyOf(to, rows[first].principal), MoveOne(rows, to, first);
    assert first in keys && forall q <- rest :: q in keys && q != first;
    assert key !in keys;
    forall q <- rest ensures q in next && next[q] == rows[q] {}
    UpsertKeeps(rows, to, rows[first].principal, rows[first].permissions, rows[first].calls);
  }

  lemma MoveOneAt(rows: Rows, to: string, q: string, k: string)
    requires q in rows && KeyOf(to, rows[q].principal) != q && Keyed(rows)
    requires KeyOf(to, rows[q].principal) in rows ==> rows[KeyOf(to, rows[q].principal)].scope == to
    ensures RowAt(MoveOne(rows, to, q), k) ==
      if k == q then None
      else if k == KeyOf(to, rows[q].principal) then Some(Grant(to, rows[q].principal, rows[q].permissions, rows[q].calls))
      else RowAt(rows, k)
  {
    var key := KeyOf(to, rows[q].principal);
    if key in rows { SameScope(to, rows[key].principal, rows[q].principal); }
  }

  lemma {:induction false} MoveEachSpares(rows: Rows, keys: seq<string>, from: string, to: string, k: string)
    requires ToMove(rows, keys, from, to) && k !in keys && forall q <- keys :: KeyOf(to, rows[q].principal) != k
    ensures RowAt(MoveEach(rows, to, keys), k) == RowAt(rows, k)
    decreases |keys|
  {
    if keys != [] {
      assert keys[0] in keys;
      MoveOneKeeps(rows, keys, from, to);
      MoveOneAt(rows, to, keys[0], k);
      MoveEachSpares(MoveOne(rows, to, keys[0]), keys[1..], from, to, k);
    }
  }

  lemma {:induction false} MoveEachDrops(rows: Rows, keys: seq<string>, from: string, to: string, k: string)
    requires ToMove(rows, keys, from, to) && k in keys
    ensures k !in MoveEach(rows, to, keys)
    decreases |keys|
  {
    var next := MoveOne(rows, to, keys[0]);
    assert keys[0] in keys;
    MoveOneKeeps(rows, keys, from, to);
    if k == keys[0] {
      forall q <- keys[1..] ensures KeyOf(to, next[q].principal) != k { NewKeysDiffer(rows, keys, from, to, q, k); }
      MoveEachSpares(next, keys[1..], from, to, k);
    } else {
      MoveEachDrops(next, keys[1..], from, to, k);
    }
  }

  /** A new key is no key to be moved: that one's row is at the old scope. */
  lemma NewKeysDiffer(rows: Rows, keys: seq<string>, from: string, to: string, q: string, k: string)
    requires ToMove(rows, keys, from, to) && q in keys && k in keys
    ensures KeyOf(to, rows[q].principal) != k
  {
  }

  lemma {:induction false} MoveEachMoves(rows: Rows, keys: seq<string>, from: string, to: string, q: string)
    requires ToMove(rows, keys, from, to) && q in keys
    ensures RowAt(MoveEach(rows, to, keys), KeyOf(to, rows[q].principal)) == Some(Grant(to, rows[q].principal, rows[q].permissions, rows[q].calls))
    decreases |keys|
  {
    var k, next := KeyOf(to, rows[q].principal), MoveOne(rows, to, keys[0]);
    assert keys[0] in keys;
    MoveOneKeeps(rows, keys, from, to);
    if q == keys[0] {
      MoveOneAt(rows, to, q, k);
      forall x <- keys[1..] ensures KeyOf(to, next[x].principal) != k { MovedApart(rows, keys, from, to, x); }
      MoveEachSpares(next, keys[1..], from, to, k);
    } else {
      MoveEachMoves(next, keys[1..], from, to, q);
    }
  }

  lemma MovedApart(rows: Rows, keys: seq<string>, from: string, to: string, x: string)
    requires ToMove(rows, keys, from, to) && keys != [] && x in keys[1..]
    ensures KeyOf(to, rows[x].principal) != KeyOf(to, rows[keys[0]].principal)
  {
    if KeyOf(to, rows[x].principal) == KeyOf(to, rows[keys[0]].principal) {
      SameScope(to, rows[x].principal, rows[keys[0]].principal);
    }
  }

  /** Key by key, what moving the grants of a scope leaves. */
  lemma MoveEachAt(rows: Rows, keys: seq<string>, from: string, to: string, k: string)
    requires ToMove(rows, keys, from, to)
    ensures var t := MoveEach(rows, to, keys);
      && (k in keys ==> k !in t)
      && (k !in keys && (forall q <- keys :: KeyOf(to, rows[q].principal) != k) ==> RowAt(t, k) == RowAt(rows, k))
      && (forall q <- keys :: KeyOf(to, rows[q].principal) == k ==>
            RowAt(t, k) == Some(Grant(to, rows[q].principal, rows[q].permissions, rows[q].calls)))
  {
    if k in keys { MoveEachDrops(rows, keys, from, to, k); }
    if k !in keys && forall q <- keys :: KeyOf(to, rows[q].principal) != k { MoveEachSpares(rows, keys, from, to, k); }
    forall q <- keys | KeyOf(to, rows[q].principal) == k { MoveEachMoves(rows, keys, from, to, q); }
  }

  lemma {:induction false} MoveEachKeyed(rows: Rows, keys: seq<string>, from: string, to: string)
    requires ToMove(rows, keys, from, to)
    ensures Keyed(MoveEach(rows, to, keys))
    decreases |keys|
  {
    if keys != [] {
      assert keys[0] in keys;
      MoveOneKeeps(rows, keys, from, to);
      MoveEachKeyed(MoveOne(rows, to, keys[0]), keys[1..], from, to);
    }
  }

  /** What a principal has at each scope once a scope's grants are moved. */
  lemma MovedAt(rows: Rows, keys: seq<string>, from: string, to: string, sc: string, p: string)
    requires ToMove(rows, keys, from, to) && Lists(keys, ScopedAt(rows, from))
    ensures At(MoveEach(rows, to, keys), sc, p) ==
      if sc == from then None
      else if sc == to && At(rows, from, p).Some?
      then Some(Grant(to, p, At(rows, from, p).value.permissions, At(rows, from, p).value.calls))
      else At(rows, sc, p)
  {
    var t, k := MoveEach(rows, to, keys), KeyOf(sc, p);
    MoveEachAt(rows, keys, from, to, k);
    if At(rows, from, p).Some? {
      AtIsOwn(rows, from, p);
      assert KeyOf(from, p) in keys;
    }
    if q :| q in keys && KeyOf(to, rows[q].principal) == k {
      assert t[k] == Grant(to, rows[q].principal, rows[q].permissions, rows[q].calls);
      if sc == to {
        SameScope(to, rows[q].principal, p);
        assert q == KeyOf(from, p);
      }
    } else {
      assert k in rows && rows[k].scope == from ==> k in keys;
    }
  }

  /** Stands hang from sections that exist. */
  ghost predicate Rooted(tree: Tree) {
    forall st :: st in tree.stands ==> tree.stands[st] in tree.sections
  }

  ghost predicate KeysKept(s: State, t: State, from: Place, name: string) {
    forall p: string, at: string :: ChainOf(s.tree, at).Some? ==>
      && ChainOf(t.tree, Renamed(at, from, name)).Some?
      && KeysIn(t.rows, ChainOf(t.tree, Renamed(at, from, name)).value, {p}) == KeysIn(s.rows, ChainOf(s.tree, at).value, {p})
  }

  /** A rename that is not refused, with the rows at the old scope as they are stored. */
  ghost predicate Renames(s: State, from: Place, name: string, order: seq<string>) {
    && Rooted(s.tree) && Keyed(s.rows) && Lists(order, ScopedAt(s.rows, Text(from)))
    && RenameStep(s, from, name, order).1 == Done
  }

  lemma PlacesDiffer(a: Place, b: Place)
    requires a != b
    ensures Text(a) != Text(b)
  {
    ParseText(a);
    ParseText(b);
  }

  lemma RenamedText(from: Place, name: string, place: Place)
    ensures Renamed(Text(place), from, name) == Text(if place == from then Named(from, name) else place)
  {
    if place != from { PlacesDiffer(place, from); }
  }

  lemma RenamedEach(a: string, b: string, c: string, from: Place, name: string)
    ensures (set sc | sc in {a, b, c} :: Renamed(sc, from, name)) == {Renamed(a, from, name), Renamed(b, from, name), Renamed(c, from, name)}
  {
  }

  lemma StandAfterRename(tree: Tree, from: Place, name: string, st: string)
    requires Rooted(tree) && Exists(tree, from) && !Exists(tree, Named(from, name)) && st in tree.stands
    ensures var t, place, section := RenamedTree(tree, from, name), StandOf(st), SectionOf(tree.stands[st]);
      ChainAt(t, if place == from then Named(from, name) else place) ==
        Some({Text(if place == from then Named(from, name) else place), Text(if section == from then Named(from, name) else section), ORCHESTRA})
  {
  }

  lemma ChainAfterRename(tree: Tree, from: Place, name: string, place: Place)
    requires Rooted(tree) && Exists(tree, from) && !Exists(tree, Named(from, name)) && ChainAt(tree, place).Some?
    ensures var t, to := RenamedTree(tree, from, name), Named(from, name); var now := if place == from then to else place;
      && ChainAt(t, now).Some? && Text(to) !in ChainAt(tree, place).value
      && ChainAt(t, now).value == set sc | sc in ChainAt(tree, place).value :: Renamed(sc, from, name)
  {
    var to, section := Named(from, name), if place.StandOf? then SectionOf(tree.stands[place.name]) else Orchestra;
    PlacesDiffer(place, to);
    PlacesDiffer(section, to);
    PlacesDiffer(Orchestra, to);
    RenamedText(from, name, place);
    RenamedText(from, name, section);
    RenamedText(from, name, Orchestra);
    RenamedEach(Text(place), Text(section), ORCHESTRA, from, name);
    assert ChainAt(tree, place).value == {Text(place), Text(section), ORCHESTRA};
    if place.StandOf? { StandAfterRename(tree, from, name, place.name); }
  }

  lemma ChainMoves(tree: Tree, from: Place, name: string, at: string)
    requires Rooted(tree) && Exists(tree, from) && !Exists(tree, Named(from, name)) && ChainOf(tree, at).Some?
    ensures var t := RenamedTree(tree, from, name);
      && ChainOf(t, Renamed(at, from, name)).Some? && Text(Named(from, name)) !in ChainOf(tree, at).value
      && ChainOf(t, Renamed(at, from, name)).value == set sc | sc in ChainOf(tree, at).value :: Renamed(sc, from, name)
  {
    var place := Parse(at).value;
    ChainAfterRename(tree, from, name, place);
    ParseText(from);
    ParseText(Named(from, name));
  }

  /** What a grant left over at the new name adds. */
  function Extra(rows: Rows, from: string, to: string, p: string, above: set<string>): set<string> {
    if from in above && At(rows, from, p).None? && At(rows, to, p).Some? then At(rows, to, p).value.permissions else {}
  }

  lemma KeysComeFrom(s: State, from: Place, name: string, order: seq<string>, p: string, at: string)
    requires Renames(s, from, name, order) && NoForeign(s.rows, order, Text(Named(from, name))) && ChainOf(s.tree, at).Some?
    requires ChainOf(RenamedTree(s.tree, from, name), Renamed(at, from, name)).Some?
    ensures var t, above := RenameStep(s, from, name, order).0, ChainOf(s.tree, at).value;
      KeysIn(t.rows, ChainOf(t.tree, Renamed(at, from, name)).value, {p})
        <= KeysIn(s.rows, above, {p}) + Extra(s.rows, Text(from), Text(Named(from, name)), p, above)
  {
    var t, a, b, above := RenameStep(s, from, name, order).0, Text(from), Text(Named(from, name)), ChainOf(s.tree, at).value;
    ChainMoves(s.tree, from, name, at);
    PlacesDiffer(from, Named(from, name));
    MoveEachKeyed(s.rows, order, a, b);
    forall perm | perm in KeysIn(t.rows, ChainOf(t.tree, Renamed(at, from, name)).value, {p})
      ensures perm in KeysIn(s.rows, above, {p}) + Extra(s.rows, a, b, p, above)
    {
      HoldsThrough(t.rows, ChainOf(t.tree, Renamed(at, from, name)).value, p, perm);
      var now :| now in ChainOf(t.tree, Renamed(at, from, name)).value && At(t.rows, now, p).Some? && perm in At(t.rows, now, p).value.permissions;
      MovedAt(s.rows, order, a, b, now, p);
      HoldsThrough(s.rows, above, p, perm);
    }
  }

  lemma KeysStay(s: State, from: Place, name: string, order: seq<string>, p: string, at: string)
    requires Renames(s, from, name, order) && NoForeign(s.rows, order, Text(Named(from, name))) && ChainOf(s.tree, at).Some?
    requires ChainOf(RenamedTree(s.tree, from, name), Renamed(at, from, name)).Some?
    ensures var t, above := RenameStep(s, from, name, order).0, ChainOf(s.tree, at).value;
      KeysIn(s.rows, above, {p}) + Extra(s.rows, Text(from), Text(Named(from, name)), p, above)
        <= KeysIn(t.rows, ChainOf(t.tree, Renamed(at, from, name)).value, {p})
  {
    var t, a, b, above := RenameStep(s, from, name, order).0, Text(from), Text(Named(from, name)), ChainOf(s.tree, at).value;
    var above' := ChainOf(t.tree, Renamed(at, from, name)).value;
    ChainMoves(s.tree, from, name, at);
    PlacesDiffer(from, Named(from, name));
    MoveEachKeyed(s.rows, order, a, b);
    forall perm | perm in KeysIn(s.rows, above, {p}) + Extra(s.rows, a, b, p, above)
      ensures perm in KeysIn(t.rows, above', {p})
    {
      HoldsThrough(t.rows, above', p, perm);
      if perm in Extra(s.rows, a, b, p, above) {
        MovedAt(s.rows, order, a, b, b, p);
        assert Renamed(a, from, name) in above';
      } else {
        HoldsThrough(s.rows, above, p, perm);
        var sc :| sc in above && At(s.rows, sc, p).Some? && perm in At(s.rows, sc, p).value.permissions;
        MovedAt(s.rows, order, a, b, Renamed(sc, from, name), p);
        assert Renamed(sc, from, name) in above';
      }
    }
  }

  /** Where the renamed scope is in the chain, a principal's keys are the old ones and those of a grant left
      over at the new name. */
  lemma KeysAfterRename(s: State, from: Place, name: string, order: seq<string>, p: string, at: string)
    requires Renames(s, from, name, order) && NoForeign(s.rows, order, Text(Named(from, name))) && ChainOf(s.tree, at).Some?
    ensures var t, above := RenameStep(s, from, name, order).0, ChainOf(s.tree, at).value;
      && ChainOf(t.tree, Renamed(at, from, name)).Some?
      && KeysIn(t.rows, ChainOf(t.tree, Renamed(at, from, name)).value, {p}) ==
         KeysIn(s.rows, above, {p}) + Extra(s.rows, Text(from), Text(Named(from, name)), p, above)
  {
    ChainMoves(s.tree, from, name, at);
    KeysComeFrom(s, from, name, order, p, at);
    KeysStay(s, from, name, order, p, at);
  }

  /** What a principal with a grant left over at the new name, and none at the old one, would gain. */
  ghost predicate LeftoversHeld(s: State, from: string, to: string) {
    forall p :: At(s.rows, to, p).Some? && At(s.rows, from, p).None? && ChainOf(s.tree, from).Some? ==>
      At(s.rows, to, p).value.permissions <= KeysIn(s.rows, ChainOf(s.tree, from).value, {p})
  }

  lemma FromIsInItsChain(tree: Tree, from: Place)
    requires Rooted(tree) && Exists(tree, from)
    ensures ChainOf(tree, Text(from)).Some? && Text(from) in ChainOf(tree, Text(from)).value
  {
    ParseText(from);
  }

  /** Where no moved grant finds a row of another scope, a rename keeps every principal's keys at every scope exactly
      when each grant left over at the new name is either overwritten or already held. */
  lemma RenameKeepsKeys(s: State, from: Place, name: string, order: seq<string>)
    requires Renames(s, from, name, order) && NoForeign(s.rows, order, Text(Named(from, name)))
    ensures KeysKept(s, RenameStep(s, from, name, order).0, from, name) <==> LeftoversHeld(s, Text(from), Text(Named(from, name)))
  {
    var t, a, b := RenameStep(s, from, name, order).0, Text(from), Text(Named(from, name));
    FromIsInItsChain(s.tree, from);
    if LeftoversHeld(s, a, b) {
      forall p: string, at: string | ChainOf(s.tree, at).Some?
        ensures ChainOf(t.tree, Renamed(at, from, name)).Some?
        ensures KeysIn(t.rows, ChainOf(t.tree, Renamed(at, from, name)).value, {p}) == KeysIn(s.rows, ChainOf(s.tree, at).value, {p})
      {
        KeysAfterRename(s, from, name, order, p, at);
        if a in ChainOf(s.tree, at).value {
          ChainsNest(s.tree, at, a);
          KeysGrow(s.rows, ChainOf(s.tree, a).value, ChainOf(s.tree, at).value, p, {p});
        }
      }
    }
    if KeysKept(s, t, from, name) {
      forall p | At(s.rows, b, p).Some? && At(s.rows, a, p).None?
        ensures At(s.rows, b, p).value.permissions <= KeysIn(s.rows, ChainOf(s.tree, a).value, {p})
      {
        KeysAfterRename(s, from, name, order, p, a);
      }
    }
  }

  /** In particular when the new name holds no grants at all. */
  lemma RenameToFreshName(s: State, from: Place, name: string, order: seq<string>)
    requires Renames(s, from, name, order) && NoForeign(s.rows, order, Text(Named(from, name)))
    requires forall k :: k in s.rows ==> s.rows[k].scope != Text(Named(from, name))
    ensures KeysKept(s, RenameStep(s, from, name, order).0, from, name)
    ensures Rooted(RenameStep(s, from, name, order).0.tree)
  {
    RenameKeepsKeys(s, from, name, order);
  }

  // ---------- exactly when every table is safe ----------

  /** Every grant is at a scope that exists. */
  ghost predicate Placed(s: State) {
    forall k :: k in s.rows ==> ChainOf(s.tree, s.rows[k].scope).Some?
  }

  /** Neither text and a bar begins the other, for any existing scope. */
  ghost predicate Clear(tree: Tree, to: string) {
    forall a :: ChainOf(tree, a).Some? ==> !(a + "|" <= to) && !(to + "|" <= a)
  }

  lemma ClearIsNoForeign(s: State, order: seq<string>, to: string)
    requires Placed(s) && Keyed(s.rows) && Clear(s.tree, to)
    ensures NoForeign(s.rows, order, to)
  {
    forall k <- order | k in s.rows && KeyOf(to, s.rows[k].principal) in s.rows
      ensures s.rows[KeyOf(to, s.rows[k].principal)].scope == to
    {
      var r := s.rows[KeyOf(to, s.rows[k].principal)];
      SameKey(r.scope, r.principal, to, s.rows[k].principal);
    }
  }

  /** A rename to a name that is clear of every existing scope keeps every principal's keys. */
  lemma RenameToClearName(s: State, from: Place, name: string, order: seq<string>)
    requires Renames(s, from, name, order) && Placed(s) && Clear(s.tree, Text(Named(from, name)))
    ensures KeysKept(s, RenameStep(s, from, name, order).0, from, name)
  {
    var to := Text(Named(from, name));
    ClearIsNoForeign(s, order, to);
    ParseText(Named(from, name));
    RenameKeepsKeys(s, from, name, order);
  }

  /** Two rows: the second is the one that the first, moved, will find. */
  function TwoRows(from: string, p: string, other: string, q: string): Rows {
    map[KeyOf(from, p) := Grant(from, p, {"canister.deploy"}, {}), KeyOf(other, q) := Grant(other, q, {}, {})]
  }

  function MovedOrder(from: string, p: string, other: string, q: string): seq<string> {
    if other == from then [KeyOf(from, p), KeyOf(other, q)] else [KeyOf(from, p)]
  }

  lemma FirstIsLost(from: string, to: string, p: string, other: string, q: string)
    requires from != to && KeyOf(to, p) == KeyOf(other, q) && p != q && KeyOf(from, p) != KeyOf(other, q)
    ensures Lists(MovedOrder(from, p, other, q), ScopedAt(TwoRows(from, p, other, q), from)) && Keyed(TwoRows(from, p, other, q))
    ensures forall k :: k in MoveEach(TwoRows(from, p, other, q), to, MovedOrder(from, p, other, q)) ==>
      MoveEach(TwoRows(from, p, other, q), to, MovedOrder(from, p, other, q))[k].principal == q
  {
    var rows, order := TwoRows(from, p, other, q), MovedOrder(from, p, other, q);
    var next := MoveOne(rows, to, order[0]);
    assert next == map[KeyOf(other, q) := Grant(other, q, {"canister.deploy"}, {})];
    if other == from {
      var rest := [KeyOf(other, q)];
      assert order[1..] == rest && rest[1..] == [];
      assert MoveEach(next, to, rest) == MoveEach(MoveOne(next, to, rest[0]), to, []) == MoveOne(next, to, rest[0]);
      assert MoveEach(rows, to, order) == MoveEach(next, to, rest);
    } else {
      assert order[1..] == [];
      assert MoveEach(rows, to, order) == next;
    }
  }

  /** If the new text collides with an existing scope's, some table loses a principal its keys. */
  lemma UnclearNameLosesKeys(tree: Tree, from: Place, name: string, other: string)
    requires Rooted(tree) && Exists(tree, from) && !Exists(tree, Named(from, name)) && ChainOf(tree, other).Some?
    requires other + "|" <= Text(Named(from, name)) || Text(Named(from, name)) + "|" <= other
    ensures exists s: State, order :: (
      s.tree == tree && Placed(s) && Renames(s, from, name, order) && !KeysKept(s, RenameStep(s, from, name, order).0, from, name))
  {
    var a, b := Text(from), Text(Named(from, name));
    var p, q := CollidingPair(b, other);
    PlacesDiffer(from, Named(from, name));
    if KeyOf(a, p) == KeyOf(b, p) { SamePrincipal(a, b, p); }
    FirstIsLost(a, b, p, other, q);
    var s, order := State(tree, TwoRows(a, p, other, q), {}, map[]), MovedOrder(a, p, other, q);
    var t := RenameStep(s, from, name, order).0;
    FromIsInItsChain(tree, from);
    ChainMoves(tree, from, name, a);
    assert s.rows[KeyOf(a, p)].permissions == {"canister.deploy"};
    assert "canister.deploy" in KeysIn(s.rows, ChainOf(tree, a).value, {p});
    assert KeysIn(t.rows, ChainOf(t.tree, Renamed(a, from, name)).value, {p}) == {};
    assert Renames(s, from, name, order) && Placed(s);
  }

  lemma CollidingPair(to: string, other: string) returns (p: string, q: string)
    requires other + "|" <= to || to + "|" <= other
    ensures KeyOf(to, p) == KeyOf(other, q) && p != q
  {
    if other + "|" <= to {
      p, q := "y", to[|other| + 1..] + "|y";
      assert to == other + "|" + to[|other| + 1..];
      assert KeyOf(to, p) == KeyOf(other, q);
    } else {
      p, q := other[|to| + 1..] + "|y", "y";
      assert other == to + "|" + other[|to| + 1..];
      assert KeyOf(to, p) == KeyOf(other, q);
    }
    assert |p| != |q|;
  }

  ghost predicate SafeRename(s: State, from: Place, name: string, order: seq<string>) {
    Placed(s) && Renames(s, from, name, order) ==> KeysKept(s, RenameStep(s, from, name, order).0, from, name)
  }

  /** A rename keeps every principal's keys in every table of grants at existing scopes, in whatever order it is stored,
      if and only if the new scope's text is clear of every existing one's. */
  lemma RenameIsSafeIff(tree: Tree, from: Place, name: string)
    requires Rooted(tree) && Exists(tree, from) && !Exists(tree, Named(from, name))
    ensures (forall s: State, order :: s.tree == tree ==> SafeRename(s, from, name, order)) <==> Clear(tree, Text(Named(from, name)))
  {
    var to := Text(Named(from, name));
    if Clear(tree, to) {
      forall s: State, order | s.tree == tree ensures SafeRename(s, from, name, order) {
        if Placed(s) && Renames(s, from, name, order) { RenameToClearName(s, from, name, order); }
      }
    } else {
      var other :| ChainOf(tree, other).Some? && (other + "|" <= to || to + "|" <= other);
      UnclearNameLosesKeys(tree, from, name, other);
      var s: State, order :| s.tree == tree && Placed(s) && Renames(s, from, name, order)
        && !KeysKept(s, RenameStep(s, from, name, order).0, from, name);
      assert !SafeRename(s, from, name, order);
    }
  }

  /** A grant left over at a name is gained when the name is taken: `y` could deploy nothing at stand `a`. */
  lemma LeftoverIsGained()
    ensures var s := State(Tree({"s"}, map["a" := "s"]), map[KeyOf(Text(StandOf("b")), "y") := Grant(Text(StandOf("b")), "y", {"canister.deploy"}, {})], {}, map[]);
      Renames(s, StandOf("a"), "b", []) && !KeysKept(s, RenameStep(s, StandOf("a"), "b", []).0, StandOf("a"), "b")
  {
    LeftoverAddsKeys(Tree({"s"}, map["a" := "s"]), "a", "b");
  }

  lemma LeftoverAddsKeys(tree: Tree, a: string, b: string)
    requires Rooted(tree) && a in tree.stands && b !in tree.stands
    ensures var s := State(tree, LeftAt(Text(StandOf(b))), {}, map[]);
      Renames(s, StandOf(a), b, []) && !KeysKept(s, RenameStep(s, StandOf(a), b, []).0, StandOf(a), b)
  {
    var s, from, to := State(tree, LeftAt(Text(StandOf(b))), {}, map[]), Text(StandOf(a)), Text(StandOf(b));
    PlacesDiffer(StandOf(a), StandOf(b));
    NothingToMove(from, to);
    RenameKeepsKeys(s, StandOf(a), b, []);
    NotAboveOther(tree, a, b);
    LeftoverIsNotHeld(s, from, to);
  }

  lemma NotAboveOther(tree: Tree, a: string, b: string)
    requires Rooted(tree) && a in tree.stands && a != b
    ensures ChainOf(tree, Text(StandOf(a))).Some? && Text(StandOf(b)) !in ChainOf(tree, Text(StandOf(a))).value
  {
    ParseText(StandOf(a));
    PlacesDiffer(StandOf(a), StandOf(b));
    PlacesDiffer(SectionOf(tree.stands[a]), StandOf(b));
    PlacesDiffer(Orchestra, StandOf(b));
  }

  /** One grant, to `y`, at a scope. */
  function LeftAt(to: string): Rows {
    map[KeyOf(to, "y") := Grant(to, "y", {"canister.deploy"}, {})]
  }

  lemma NothingToMove(from: string, to: string)
    requires from != to
    ensures Keyed(LeftAt(to)) && Lists([], ScopedAt(LeftAt(to), from)) && NoForeign(LeftAt(to), [], to)
  {
  }

  lemma LeftoverIsNotHeld(s: State, from: string, to: string)
    requires from != to && s.rows == LeftAt(to) && ChainOf(s.tree, from).Some? && to !in ChainOf(s.tree, from).value
    ensures !LeftoversHeld(s, from, to)
  {
    if At(s.rows, from, "y").Some? { AtIsOwn(s.rows, from, "y"); }
    assert At(s.rows, to, "y") == Some(Grant(to, "y", {"canister.deploy"}, {}));
    assert KeysIn(s.rows, ChainOf(s.tree, from).value, {"y"}) == {};
    assert "canister.deploy" in At(s.rows, to, "y").value.permissions;
  }
}
