/** The last phase of `up` (src/up.py): grants whose principal names a canister or a variable are rewritten page by
    page to what it resolves to. How much is left to do, and what a page keeps. */
module GrantPass {
  import opened Options
  import opened Tables
  import opened Up
  import Grants

  // ---------- chains of resolutions ----------

  function Iter(resolve: Resolve, p: string, n: nat): string
    decreases n
  {
    if n == 0 then p else Iter(resolve, resolve(p), n - 1)
  }

  predicate FixedAt(resolve: Resolve, p: string, n: nat) {
    resolve(Iter(resolve, p, n)) == Iter(resolve, p, n)
  }

  /** Resolving again and again comes to a principal that resolves to itself. */
  ghost predicate Ends(resolve: Resolve, p: string) {
    exists n :: FixedAt(resolve, p, n)
  }

  lemma {:induction false} LeastFixed(resolve: Resolve, p: string, n: nat)
    requires FixedAt(resolve, p, n)
    ensures exists m :: FixedAt(resolve, p, m) && forall i: nat :: i < m ==> !FixedAt(resolve, p, i)
    decreases n
  {
    if i: nat :| i < n && FixedAt(resolve, p, i) { LeastFixed(resolve, p, i); }
  }

  /** How many times a principal is rewritten before it resolves to itself. */
  ghost function Steps(resolve: Resolve, p: string): (n: nat)
    requires Ends(resolve, p)
    ensures FixedAt(resolve, p, n) && forall i: nat :: i < n ==> !FixedAt(resolve, p, i)
  {
    var m :| FixedAt(resolve, p, m);
    LeastFixed(resolve, p, m);
    var n :| FixedAt(resolve, p, n) && forall i: nat :: i < n ==> !FixedAt(resolve, p, i);
    n
  }

  lemma StepsFall(resolve: Resolve, p: string)
    requires Ends(resolve, p) && resolve(p) != p
    ensures Ends(resolve, resolve(p)) && Steps(resolve, resolve(p)) < Steps(resolve, p)
  {
    var n := Steps(resolve, p);
    assert !FixedAt(resolve, p, 0);
    assert FixedAt(resolve, resolve(p), n - 1);
  }

  lemma ResolvedEnds(resolve: Resolve, p: string)
    requires Ends(resolve, p)
    ensures Ends(resolve, resolve(p))
  {
    if resolve(p) != p { StepsFall(resolve, p); }
  }

  lemma SettledEnds(resolve: Resolve, p: string)
    requires Settles(resolve, p)
    ensures Ends(resolve, p)
  {
    assert Iter(resolve, p, 1) == Iter(resolve, resolve(p), 0);
    assert FixedAt(resolve, p, 1);
  }

  // ---------- rows ----------

  /** Ids ascend and are below the next one. */
  ghost predicate Numbered(gs: GrantTable, next: nat) {
    Ascending(gs) && 1 <= next && forall i :: 0 <= i < |gs| ==> gs[i].id < next
  }

  /** The rows as (id, principal): what resolving looks at. */
  function Heads(gs: GrantTable): set<(nat, string)> {
    set g: Entry<Grant> | g in gs :: (g.id, g.row.principal)
  }

  ghost function UnsettledIds(gs: GrantTable, resolve: Resolve): set<nat> {
    set h | h in Heads(gs) && resolve(h.1) != h.1 :: h.0
  }

  /** What a principal resolves to resolves to itself: no variable's value names another. */
  ghost predicate Settles(resolve: Resolve, principal: string) {
    resolve(resolve(principal)) == resolve(principal)
  }

  ghost predicate AllSettle(gs: GrantTable, resolve: Resolve) {
    forall h <- Heads(gs) :: Settles(resolve, h.1)
  }

  /** Writing a grant adds at most one row, with the next id and that principal. */
  lemma PutFacts(gs: GrantTable, next: nat, scope: string, principal: string, permissions: set<string>, calls: Option<Calls>)
    requires Numbered(gs, next)
    ensures var (a, n) := Put(gs, next, scope, principal, permissions, calls);
      && Numbered(a, n) && next <= n
      && (Heads(a) == Heads(gs) || Heads(a) == Heads(gs) + {(next, principal)})
  {
    var (a, n) := Put(gs, next, scope, principal, permissions, calls);
    var i := Find(gs, Grants.KeyOf(scope, principal));
    if i < |gs| {
      HeadsUpdate(gs, i, Allowed(gs[i].row, permissions, calls));
    } else {
      assert a == gs + [a[|gs|]];
      assert Heads(a) == Heads(gs) + {(next, principal)};
    }
  }

  lemma HeadsUpdate(gs: GrantTable, i: nat, row: Grant)
    requires i < |gs| && row.principal == gs[i].row.principal
    ensures Heads(gs[i := gs[i].(row := row)]) == Heads(gs)
  {
    var a := gs[i := gs[i].(row := row)];
    forall h
      ensures h in Heads(a) <==> h in Heads(gs)
    {
      if h in Heads(a) {
        var j :| 0 <= j < |a| && (a[j].id, a[j].row.principal) == h;
        assert gs[j] in gs;
      }
      if h in Heads(gs) {
        var j :| 0 <= j < |gs| && (gs[j].id, gs[j].row.principal) == h;
        assert a[j] in a;
      }
    }
  }

  lemma {:induction false} PutAllFacts(gs: GrantTable, next: nat, scope: string, more: seq<(string, set<string>)>, resolve: Resolve)
    requires Numbered(gs, next) && AllSettle(gs, resolve) && forall m <- more :: Settles(resolve, resolve(m.0))
    ensures var (a, n) := PutAll(gs, next, scope, more, resolve);
      && Numbered(a, n) && next <= n && AllSettle(a, resolve)
      && forall h <- Heads(a) :: h.0 >= next || h in Heads(gs)
    decreases |more|
  {
    if more != [] {
      PutFacts(gs, next, scope, resolve(more[0].0), more[0].1, None);
      assert more[0] in more;
      var (b, m) := Put(gs, next, scope, resolve(more[0].0), more[0].1, None);
      PutAllFacts(b, m, scope, more[1..], resolve);
    }
  }

  lemma {:induction false} PutAllEnds(gs: GrantTable, next: nat, scope: string, more: seq<(string, set<string>)>, resolve: Resolve)
    requires Numbered(gs, next) && AllEnd(gs, resolve) && forall m <- more :: Ends(resolve, m.0)
    ensures var (a, n) := PutAll(gs, next, scope, more, resolve); Numbered(a, n) && AllEnd(a, resolve)
    decreases |more|
  {
    if more != [] {
      assert more[0] in more;
      ResolvedEnds(resolve, more[0].0);
      PutFacts(gs, next, scope, resolve(more[0].0), more[0].1, None);
      var (b, m) := Put(gs, next, scope, resolve(more[0].0), more[0].1, None);
      PutAllEnds(b, m, scope, more[1..], resolve);
    }
  }

  lemma {:induction false} WithoutMembers(gs: GrantTable, id: nat)
    ensures forall g :: g in Without(gs, id) <==> g in gs && g.id != id
  {
    if gs != [] {
      WithoutMembers(gs[1..], id);
      assert forall g :: g in gs <==> g == gs[0] || g in gs[1..];
    }
  }

  lemma {:induction false} WithoutBetween(gs: GrantTable, low: nat, next: nat, id: nat)
    requires forall i :: 0 <= i < |gs| ==> low < gs[i].id < next
    ensures forall i :: 0 <= i < |Without(gs, id)| ==> low < Without(gs, id)[i].id < next
  {
    if gs != [] { WithoutBetween(gs[1..], low, next, id); }
  }

  lemma {:induction false} WithoutAscends(gs: GrantTable, next: nat, id: nat)
    requires Numbered(gs, next)
    ensures Numbered(Without(gs, id), next)
  {
    if gs != [] {
      WithoutAscends(gs[1..], next, id);
      WithoutBetween(gs[1..], gs[0].id, next, id);
    }
  }

  lemma {:induction false} CurrentFacts(gs: GrantTable, next: nat, id: nat)
    requires Numbered(gs, next)
    ensures var c := Current(gs, id); c.Some? ==> forall h <- Heads(gs) :: h.0 == id ==> h.1 == c.value.principal
    ensures Current(gs, id).Some? ==> (id, Current(gs, id).value.principal) in Heads(gs)
    ensures Current(gs, id).None? ==> forall h <- Heads(gs) :: h.0 != id
  {
    if gs != [] {
      assert Numbered(gs[1..], next);
      CurrentFacts(gs[1..], next, id);
      assert gs[0] in gs;
      assert Heads(gs) == {(gs[0].id, gs[0].row.principal)} + Heads(gs[1..]);
      assert forall h <- Heads(gs[1..]) :: h.0 > gs[0].id;
    }
  }

  lemma UnsettledWithout(gs: GrantTable, next: nat, id: nat, resolve: Resolve)
    requires Numbered(gs, next)
    ensures UnsettledIds(Without(gs, id), resolve) == UnsettledIds(gs, resolve) - {id}
    ensures AllSettle(gs, resolve) ==> AllSettle(Without(gs, id), resolve)
    ensures Numbered(Without(gs, id), next)
  {
    WithoutMembers(gs, id);
    WithoutAscends(gs, next, id);
    assert Heads(Without(gs, id)) == set h | h in Heads(gs) && h.0 != id;
  }

  /** Moving a row settles it and unsettles no other. */
  lemma MoveFacts(gs: GrantTable, next: nat, id: nat, resolve: Resolve)
    requires Numbered(gs, next) && AllSettle(gs, resolve)
    ensures var (a, n) := Move(gs, next, id, resolve);
      && Numbered(a, n) && next <= n && AllSettle(a, resolve)
      && UnsettledIds(a, resolve) == UnsettledIds(gs, resolve) - {id}
      && (id !in UnsettledIds(gs, resolve) ==> (a, n) == (gs, next))
  {
    var g := Current(gs, id);
    CurrentFacts(gs, next, id);
    if g.Some? && resolve(g.value.principal) != g.value.principal {
      var to := resolve(g.value.principal);
      PutFacts(gs, next, g.value.scope, to, g.value.permissions, Some(g.value.calls));
      var (b, m) := Put(gs, next, g.value.scope, to, g.value.permissions, Some(g.value.calls));
      assert resolve(to) == to && UnsettledIds(b, resolve) == UnsettledIds(gs, resolve);
      UnsettledWithout(b, m, id, resolve);
    }
  }

  function IdsOf(rows: GrantTable): set<nat> { set g: Entry<Grant> | g in rows :: g.id }

  lemma IdsNext(rows: GrantTable)
    requires rows != []
    ensures IdsOf(rows) == {rows[0].id} + IdsOf(rows[1..])
  {
    assert rows == [rows[0]] + rows[1..];
  }

  lemma {:induction false} MoveAllFacts(gs: GrantTable, next: nat, ids: GrantTable, resolve: Resolve)
    requires Numbered(gs, next) && AllSettle(gs, resolve)
    ensures var (a, n) := MoveAll(gs, next, ids, resolve);
      && Numbered(a, n) && next <= n && AllSettle(a, resolve)
      && UnsettledIds(a, resolve) == UnsettledIds(gs, resolve) - IdsOf(ids)
      && (UnsettledIds(gs, resolve) !! IdsOf(ids) ==> (a, n) == (gs, next))
    decreases |ids|
  {
    if ids != [] {
      var (a, n) := Move(gs, next, ids[0].id, resolve);
      MoveFacts(gs, next, ids[0].id, resolve);
      MoveAllFacts(a, n, ids[1..], resolve);
      IdsNext(ids);
    }
  }

  /** Every grant still to be rewritten lies ahead of the cursor. */
  ghost predicate Ahead(gs: GrantTable, cursor: nat, resolve: Resolve) {
    forall id <- UnsettledIds(gs, resolve) :: cursor != 0 && cursor <= id
  }

  /** One page of the pass settles its rows, and the others stay ahead of the cursor. */
  lemma PageSettles(gs: GrantTable, next: nat, cursor: nat, resolve: Resolve)
    requires Numbered(gs, next) && AllSettle(gs, resolve) && Ahead(gs, cursor, resolve) && cursor != 0
    ensures var (got, after) := Page(gs, cursor, PAGE); var (a, n) := MoveAll(gs, next, got, resolve);
      var cursor' := if after.Some? then after.value else 0;
      Numbered(a, n) && AllSettle(a, resolve) && Ahead(a, cursor', resolve)
  {
    var (got, after) := Page(gs, cursor, PAGE);
    MoveAllFacts(gs, next, got, resolve);
    PageThenRest(gs, cursor, PAGE);
    forall id <- UnsettledIds(gs, resolve) - IdsOf(got)
      ensures after.Some? && after.value <= id
    {
      PageTakesNext(gs, next, cursor, id);
    }
  }

  /** A row at or past the cursor is on the page, or where the next page starts or later. */
  lemma PageTakesNext(gs: GrantTable, next: nat, cursor: nat, id: nat)
    requires Numbered(gs, next) && cursor <= id && exists h <- Heads(gs) :: h.0 == id
    ensures var (got, after) := Page(gs, cursor, PAGE);
      (exists g <- got :: g.id == id) || (after.Some? && after.value <= id)
  {
    var (got, after) := Page(gs, cursor, PAGE);
    var h :| h in Heads(gs) && h.0 == id;
    var i :| 0 <= i < |gs| && gs[i].id == id;
    var j := FromHas(gs, cursor, i);
    PageThenRest(gs, cursor, PAGE);
    if j < |got| {
      assert got[j] in got;
    } else {
      FromMembers(gs, after.value, j - |got|);
    }
  }

  // ---------- how much is left ----------

  ghost predicate AllEnd(gs: GrantTable, resolve: Resolve) {
    forall h <- Heads(gs) :: Ends(resolve, h.1)
  }

  ghost function StepsOf(resolve: Resolve, p: string): nat {
    if Ends(resolve, p) then Steps(resolve, p) else 0
  }

  /** The rewrites that the rows from an id on can still take, and a visit for each row. */
  ghost function Weight(gs: GrantTable, lo: nat, resolve: Resolve): nat {
    if gs == [] then 0
    else (if gs[0].id >= lo then 1 + StepsOf(resolve, gs[0].row.principal) else 0) + Weight(gs[1..], lo, resolve)
  }

  ghost function Rewrites(gs: GrantTable, resolve: Resolve): nat {
    if gs == [] then 0 else StepsOf(resolve, gs[0].row.principal) + Rewrites(gs[1..], resolve)
  }

  lemma {:induction false} WeightSplits(gs: GrantTable, a: GrantTable, b: GrantTable, start: nat, lo: nat, resolve: Resolve)
    requires From(gs, start) == a + b && b == From(gs, lo)
    ensures Weight(gs, start, resolve) == |a| + Rewrites(a, resolve) + Weight(gs, lo, resolve)
  {
    WeightOfFrom(gs, start, resolve);
    WeightOfFrom(gs, lo, resolve);
    WeightJoin(a, b, resolve);
    assert Weight(a + b, 0, resolve) == Weight(gs, start, resolve);
  }

  lemma {:induction false} WeightOfFrom(gs: GrantTable, lo: nat, resolve: Resolve)
    ensures Weight(From(gs, lo), 0, resolve) == Weight(gs, lo, resolve)
  {
    if gs != [] {
      WeightOfFrom(gs[1..], lo, resolve);
      if gs[0].id >= lo { assert ([gs[0]] + From(gs[1..], lo))[1..] == From(gs[1..], lo); }
    }
  }

  lemma {:induction false} WeightJoin(a: GrantTable, b: GrantTable, resolve: Resolve)
    ensures Weight(a + b, 0, resolve) == |a| + Rewrites(a, resolve) + Weight(b, 0, resolve)
  {
    if a == [] {
      assert a + b == b;
    } else {
      assert (a + b)[1..] == a[1..] + b;
      WeightJoin(a[1..], b, resolve);
    }
  }

  lemma {:induction false} WeightUpdate(gs: GrantTable, i: nat, row: Grant, lo: nat, resolve: Resolve)
    requires i < |gs| && row.principal == gs[i].row.principal
    ensures Weight(gs[i := gs[i].(row := row)], lo, resolve) == Weight(gs, lo, resolve)
  {
    var a := gs[i := gs[i].(row := row)];
    if i == 0 {
      assert a[1..] == gs[1..];
    } else {
      assert a[1..] == gs[1..][i - 1 := gs[1..][i - 1].(row := row)];
      WeightUpdate(gs[1..], i - 1, row, lo, resolve);
    }
  }

  lemma {:induction false} WeightAppend(gs: GrantTable, e: Entry<Grant>, lo: nat, resolve: Resolve)
    ensures Weight(gs + [e], lo, resolve) == Weight(gs, lo, resolve) + if e.id >= lo then 1 + StepsOf(resolve, e.row.principal) else 0
  {
    if gs == [] {
      assert gs + [e] == [e];
    } else {
      assert (gs + [e])[1..] == gs[1..] + [e];
      WeightAppend(gs[1..], e, lo, resolve);
    }
  }

  lemma {:induction false} WeightWithout(gs: GrantTable, id: nat, lo: nat, resolve: Resolve)
    ensures id < lo ==> Weight(Without(gs, id), lo, resolve) == Weight(gs, lo, resolve)
  {
    if gs != [] { WeightWithout(gs[1..], id, lo, resolve); }
  }

  lemma DropBehind(gs: GrantTable, next: nat, id: nat, lo: nat, resolve: Resolve)
    requires Numbered(gs, next) && AllEnd(gs, resolve) && id < lo
    ensures var a := Without(gs, id);
      && Numbered(a, next) && AllEnd(a, resolve) && Weight(a, lo, resolve) == Weight(gs, lo, resolve)
      && forall h <- Heads(gs) :: h.0 != id ==> h in Heads(a)
  {
    WeightWithout(gs, id, lo, resolve);
    UnsettledWithout(gs, next, id, resolve);
    WithoutHeads(gs, id);
  }

  lemma PutEnds(gs: GrantTable, next: nat, scope: string, principal: string, permissions: set<string>, calls: Option<Calls>, resolve: Resolve)
    requires Numbered(gs, next) && AllEnd(gs, resolve) && Ends(resolve, principal)
    ensures var (a, n) := Put(gs, next, scope, principal, permissions, calls);
      Numbered(a, n) && next <= n && AllEnd(a, resolve) && Heads(gs) <= Heads(a)
  {
    PutFacts(gs, next, scope, principal, permissions, calls);
  }

  /** Moving a row behind `lo` adds no more ahead than the rewrites that it had left. */
  lemma MoveWeighs(gs: GrantTable, next: nat, e: Entry<Grant>, lo: nat, resolve: Resolve)
    requires Numbered(gs, next) && AllEnd(gs, resolve) && e.id < lo <= next && (e.id, e.row.principal) in Heads(gs)
    ensures var (a, n) := Move(gs, next, e.id, resolve);
      && Numbered(a, n) && next <= n && AllEnd(a, resolve)
      && Weight(a, lo, resolve) <= Weight(gs, lo, resolve) + StepsOf(resolve, e.row.principal)
      && forall h <- Heads(gs) :: h.0 != e.id ==> h in Heads(a)
  {
    CurrentFacts(gs, next, e.id);
    var g := Current(gs, e.id).value;
    var to := resolve(g.principal);
    if to != g.principal {
      StepsFall(resolve, g.principal);
      PutEnds(gs, next, g.scope, to, g.permissions, Some(g.calls), resolve);
      PutWeighs(gs, next, g.scope, to, g.permissions, Some(g.calls), lo, resolve);
      var (b, m) := Put(gs, next, g.scope, to, g.permissions, Some(g.calls));
      DropBehind(b, m, e.id, lo, resolve);
    }
  }

  lemma WithoutHeads(gs: GrantTable, id: nat)
    ensures Heads(Without(gs, id)) == set h | h in Heads(gs) && h.0 != id
  {
    WithoutMembers(gs, id);
  }

  lemma PutWeighs(gs: GrantTable, next: nat, scope: string, principal: string, permissions: set<string>, calls: Option<Calls>, lo: nat, resolve: Resolve)
    ensures Weight(Put(gs, next, scope, principal, permissions, calls).0, lo, resolve) <= Weight(gs, lo, resolve) + 1 + StepsOf(resolve, principal)
  {
    var i := Find(gs, Grants.KeyOf(scope, principal));
    if i < |gs| {
      WeightUpdate(gs, i, Allowed(gs[i].row, permissions, calls), lo, resolve);
    } else {
      WeightAppend(gs, Entry(next, Allowed(Grant(scope, principal, {}, {}), permissions, calls)), lo, resolve);
    }
  }

  lemma {:induction false} MoveAllWeighs(gs: GrantTable, next: nat, ids: GrantTable, lo: nat, resolve: Resolve)
    requires Numbered(gs, next) && AllEnd(gs, resolve) && lo <= next && Ascending(ids)
    requires forall i :: 0 <= i < |ids| ==> ids[i].id < lo && (ids[i].id, ids[i].row.principal) in Heads(gs)
    ensures var (a, n) := MoveAll(gs, next, ids, resolve);
      && Numbered(a, n) && next <= n && AllEnd(a, resolve)
      && Weight(a, lo, resolve) <= Weight(gs, lo, resolve) + Rewrites(ids, resolve)
    decreases |ids|
  {
    if ids != [] {
      MoveWeighs(gs, next, ids[0], lo, resolve);
      var (a, n) := Move(gs, next, ids[0].id, resolve);
      forall i | 0 <= i < |ids[1..]|
        ensures ids[1..][i].id < lo && (ids[1..][i].id, ids[1..][i].row.principal) in Heads(a)
      {
        assert ids[1..][i] == ids[i + 1];
      }
      MoveAllWeighs(a, n, ids[1..], lo, resolve);
    }
  }

  ghost function PassLeft(gs: GrantTable, cursor: nat, resolve: Resolve): nat {
    if cursor == 0 then 0 else 1 + Weight(gs, cursor, resolve)
  }

  lemma PageRows(gs: GrantTable, next: nat, cursor: nat)
    requires Numbered(gs, next)
    ensures var (got, after) := Page(gs, cursor, PAGE);
      && Ascending(got) && (forall i :: 0 <= i < |got| ==> (got[i].id, got[i].row.principal) in Heads(gs))
      && (after.Some? ==> |got| > 0 && after.value <= next && forall i :: 0 <= i < |got| ==> got[i].id < after.value)
  {
    var (got, after) := Page(gs, cursor, PAGE);
    FromAscends(gs, cursor);
    forall i | 0 <= i < |got| ensures (got[i].id, got[i].row.principal) in Heads(gs) && got[i].id < next {
      assert got[i] == From(gs, cursor)[i];
      FromMembers(gs, cursor, i);
      var j :| 0 <= j < |gs| && gs[j] == From(gs, cursor)[i];
      assert gs[j] in gs;
    }
    if after.Some? { assert got[|got| - 1].id + 1 == after.value; }
  }

  /** One page of the pass leaves less to do, though it may add rows ahead of the cursor. */
  lemma PageProgress(gs: GrantTable, next: nat, cursor: nat, resolve: Resolve)
    requires Numbered(gs, next) && AllEnd(gs, resolve) && cursor != 0
    ensures var (got, after) := Page(gs, cursor, PAGE); var (a, n) := MoveAll(gs, next, got, resolve);
      && Numbered(a, n) && AllEnd(a, resolve)
      && PassLeft(a, if after.Some? then after.value else 0, resolve) < PassLeft(gs, cursor, resolve)
  {
    var (got, after) := Page(gs, cursor, PAGE);
    PageRows(gs, next, cursor);
    if after.Some? {
      PageThenRest(gs, cursor, PAGE);
      MoveAllWeighs(gs, next, got, after.value, resolve);
      WeightSplits(gs, got, From(gs, after.value), cursor, after.value, resolve);
    } else {
      MoveAllEnds(gs, next, got, resolve);
    }
  }

  lemma MoveEnds(gs: GrantTable, next: nat, id: nat, resolve: Resolve)
    requires Numbered(gs, next) && AllEnd(gs, resolve)
    ensures var (a, n) := Move(gs, next, id, resolve); Numbered(a, n) && AllEnd(a, resolve)
  {
    CurrentFacts(gs, next, id);
    var g := Current(gs, id);
    if g.Some? && resolve(g.value.principal) != g.value.principal {
      var to := resolve(g.value.principal);
      StepsFall(resolve, g.value.principal);
      PutEnds(gs, next, g.value.scope, to, g.value.permissions, Some(g.value.calls), resolve);
      var (b, m) := Put(gs, next, g.value.scope, to, g.value.permissions, Some(g.value.calls));
      UnsettledWithout(b, m, id, resolve);
      WithoutHeads(b, id);
    }
  }

  lemma {:induction false} MoveAllEnds(gs: GrantTable, next: nat, ids: GrantTable, resolve: Resolve)
    requires Numbered(gs, next) && AllEnd(gs, resolve)
    ensures var (a, n) := MoveAll(gs, next, ids, resolve); Numbered(a, n) && AllEnd(a, resolve)
    decreases |ids|
  {
    if ids != [] {
      var (a, n) := Move(gs, next, ids[0].id, resolve);
      MoveEnds(gs, next, ids[0].id, resolve);
      MoveAllEnds(a, n, ids[1..], resolve);
    }
  }
}
