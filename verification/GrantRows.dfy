/** What `up` writes in the grant table, row by row: a built stand's commanders get the permissions of its template, and a
    grant whose principal resolves to another moves there with its permissions and calls. */
module GrantRows {
  import opened Options
  import opened Tables
  import opened Up
  import Grants

  function Key(g: Grant): string { g.scope + "|" + g.principal }

  /** The row under a joined key. */
  function RowUnder(gs: GrantTable, key: string): Option<Grant> {
    if gs == [] then None else if Key(gs[0].row) == key then Some(gs[0].row) else RowUnder(gs[1..], key)
  }

  ghost predicate KeysDiffer(gs: GrantTable) {
    forall i, j :: 0 <= i < j < |gs| ==> Key(gs[i].row) != Key(gs[j].row)
  }

  ghost predicate IdsDiffer(gs: GrantTable) {
    forall i, j :: 0 <= i < j < |gs| ==> gs[i].id != gs[j].id
  }

  lemma {:induction false} RowIsAt(gs: GrantTable, key: string, i: nat)
    requires i <= |gs| && (forall j :: 0 <= j < i ==> Key(gs[j].row) != key) && (i < |gs| ==> Key(gs[i].row) == key)
    ensures RowUnder(gs, key) == if i < |gs| then Some(gs[i].row) else None
  {
    if i > 0 { RowIsAt(gs[1..], key, i - 1); }
  }

  lemma {:induction false} RowIsSome(gs: GrantTable, key: string) returns (i: nat)
    ensures i <= |gs| && (forall j :: 0 <= j < i ==> Key(gs[j].row) != key) && (i < |gs| ==> Key(gs[i].row) == key)
    ensures RowUnder(gs, key) == if i < |gs| then Some(gs[i].row) else None
  {
    i := 0;
    if gs != [] && Key(gs[0].row) != key {
      i := RowIsSome(gs[1..], key);
      i := i + 1;
    }
  }

  /** An upsert gives the row under the key, new or not, these permissions and, where they are given, these calls; no other
      key's row changes. */
  lemma PutLeaves(gs: GrantTable, next: nat, scope: string, principal: string, permissions: set<string>, calls: Option<Calls>, key: string)
    ensures RowUnder(Put(gs, next, scope, principal, permissions, calls).0, key) ==
      if key != scope + "|" + principal then RowUnder(gs, key)
      else
        var had := if RowUnder(gs, key).Some? then RowUnder(gs, key).value else Grant(scope, principal, {}, {});
        Some(Grant(had.scope, had.principal, permissions, if calls.Some? then calls.value else had.calls))
  {
    var a, own := Put(gs, next, scope, principal, permissions, calls).0, scope + "|" + principal;
    var f := Find(gs, own);
    RowIsAt(gs, own, f);
    if key == own {
      RowIsAt(a, key, f);
    } else {
      var i := RowIsSome(gs, key);
      if i == |gs| && f == |gs| { RowIsAt(a, key, |a|); } else { RowIsAt(a, key, i); }
    }
  }

  /** The last of a template's commanders that comes to a key. */
  ghost predicate IsLast(more: seq<(string, set<string>)>, scope: string, resolve: Resolve, key: string, i: nat) {
    && i < |more| && scope + "|" + resolve(more[i].0) == key
    && forall j :: i < j < |more| ==> scope + "|" + resolve(more[j].0) != key
  }

  /** Rows under keys that no commander comes to are as they were; the others keep their calls. */
  lemma {:induction false} CommandersSpare(gs: GrantTable, next: nat, scope: string, more: seq<(string, set<string>)>, resolve: Resolve, key: string)
    ensures var now := RowUnder(PutAll(gs, next, scope, more, resolve).0, key); var had := RowUnder(gs, key);
      && ((forall i :: 0 <= i < |more| ==> scope + "|" + resolve(more[i].0) != key) ==> now == had)
      && (had.Some? ==> now.Some? && now.value.calls == had.value.calls) && (had.None? && now.Some? ==> now.value.calls == {})
    decreases |more|
  {
    if more != [] {
      var (a, n) := Put(gs, next, scope, resolve(more[0].0), more[0].1, None);
      PutLeaves(gs, next, scope, resolve(more[0].0), more[0].1, None, key);
      CommandersSpare(a, n, scope, more[1..], resolve, key);
    }
  }

  /** Every commander's row has the permissions that the template gives last under its key. */
  lemma {:induction false} CommandersGet(gs: GrantTable, next: nat, scope: string, more: seq<(string, set<string>)>, resolve: Resolve, key: string, i: nat)
    requires i < |more| && IsLast(more, scope, resolve, key, i)
    ensures var now := RowUnder(PutAll(gs, next, scope, more, resolve).0, key); now.Some? && now.value.permissions == more[i].1
    decreases |more|
  {
    var (a, n) := Put(gs, next, scope, resolve(more[0].0), more[0].1, None);
    if i > 0 {
      LastInTail(more, scope, resolve, key, i);
      CommandersGet(a, n, scope, more[1..], resolve, key, i - 1);
    } else {
      forall j | 0 <= j < |more[1..]| ensures scope + "|" + resolve(more[1..][j].0) != key { assert more[1..][j] == more[j + 1]; }
      PutLeaves(gs, next, scope, resolve(more[0].0), more[0].1, None, key);
      CommandersSpare(a, n, scope, more[1..], resolve, key);
    }
  }

  lemma LastInTail(more: seq<(string, set<string>)>, scope: string, resolve: Resolve, key: string, i: nat)
    requires 0 < i < |more| && IsLast(more, scope, resolve, key, i)
    ensures IsLast(more[1..], scope, resolve, key, i - 1)
  {
    forall j | i - 1 < j < |more[1..]| ensures scope + "|" + resolve(more[1..][j].0) != key { assert more[1..][j] == more[j + 1]; }
  }

  lemma {:induction false} CurrentIsAt(gs: GrantTable, id: nat) returns (i: nat)
    requires Current(gs, id).Some?
    ensures i < |gs| && gs[i].id == id && gs[i].row == Current(gs, id).value
  {
    if gs[0].id == id {
      i := 0;
    } else {
      i := CurrentIsAt(gs[1..], id);
      i := i + 1;
    }
  }

  lemma {:induction false} RowWithout(gs: GrantTable, id: nat, key: string, own: string)
    requires IdsDiffer(gs) && KeysDiffer(gs) && exists i :: 0 <= i < |gs| && gs[i].id == id && Key(gs[i].row) == own
    ensures RowUnder(Without(gs, id), key) == if key == own then None else RowUnder(gs, key)
  {
    if gs[0].id == id {
      NoOther(gs, id);
      if key == own { RowIsAt(gs[1..], key, |gs| - 1); }
    } else {
      var i :| 0 <= i < |gs| && gs[i].id == id && Key(gs[i].row) == own;
      assert gs[1..][i - 1] == gs[i];
      RowWithout(gs[1..], id, key, own);
      assert ([gs[0]] + Without(gs[1..], id))[1..] == Without(gs[1..], id);
    }
  }

  lemma NoOther(gs: GrantTable, id: nat)
    requires IdsDiffer(gs) && gs != [] && gs[0].id == id
    ensures Without(gs, id) == gs[1..]
  {
    WithoutAbsent(gs[1..], id);
  }

  lemma {:induction false} WithoutAbsent(gs: GrantTable, id: nat)
    requires forall i :: 0 <= i < |gs| ==> gs[i].id != id
    ensures Without(gs, id) == gs
  {
    if gs != [] { WithoutAbsent(gs[1..], id); }
  }

  lemma PutKeepsApart(gs: GrantTable, next: nat, scope: string, principal: string, permissions: set<string>, calls: Option<Calls>, id: nat)
    requires IdsDiffer(gs) && KeysDiffer(gs) && (forall i :: 0 <= i < |gs| ==> gs[i].id < next)
    ensures var a := Put(gs, next, scope, principal, permissions, calls).0;
      && IdsDiffer(a) && KeysDiffer(a)
      && forall i :: 0 <= i < |gs| ==> i < |a| && a[i].id == gs[i].id && Key(a[i].row) == Key(gs[i].row)
  {
  }

  /** A grant whose principal resolves to another: the row there has its permissions and calls, the old row is gone, and no
      other row changes. One that resolves to itself stays. */
  lemma MoveLeaves(gs: GrantTable, next: nat, id: nat, resolve: Resolve, key: string)
    requires IdsDiffer(gs) && KeysDiffer(gs) && (forall i :: 0 <= i < |gs| ==> gs[i].id < next) && Current(gs, id).Some?
    ensures var g := Current(gs, id).value; var own, to := g.scope + "|" + g.principal, g.scope + "|" + resolve(g.principal);
      var now := RowUnder(Move(gs, next, id, resolve).0, key);
      && (resolve(g.principal) == g.principal ==> Move(gs, next, id, resolve) == (gs, next))
      && (resolve(g.principal) != g.principal && key == to ==> now.Some? && now.value.permissions == g.permissions && now.value.calls == g.calls)
      && (resolve(g.principal) != g.principal && key == own ==> now == None)
      && (resolve(g.principal) != g.principal && key != own && key != to ==> now == RowUnder(gs, key))
  {
    var g := Current(gs, id).value;
    var to := resolve(g.principal);
    if to != g.principal {
      OtherKey(g.scope, g.principal, to);
      var i := CurrentIsAt(gs, id);
      PutLeaves(gs, next, g.scope, to, g.permissions, Some(g.calls), key);
      PutKeepsApart(gs, next, g.scope, to, g.permissions, Some(g.calls), id);
      var a := Put(gs, next, g.scope, to, g.permissions, Some(g.calls)).0;
      assert a[i].id == id && Key(a[i].row) == Key(g);
      RowWithout(a, id, key, Key(g));
    }
  }

  lemma OtherKey(scope: string, p: string, q: string)
    requires p != q
    ensures scope + "|" + p != scope + "|" + q
  {
    assert (scope + "|" + p)[|scope| + 1..] == p && (scope + "|" + q)[|scope| + 1..] == q;
  }

  /** A build that finishes writes its stand's commanders, and no other grant. */
  lemma BuiltStandHasCommanders(st: State, k: nat, luck: Luck, resolve: Resolve, i: nat)
    requires k < |st.stands| && i < |st.stands[k].commanders| && Build(st, k, luck, resolve).1.Finished?
    requires IsLast(st.stands[k].commanders, "stand:" + st.stands[k].name, resolve, "stand:" + st.stands[k].name + "|" + resolve(st.stands[k].commanders[i].0), i)
    ensures var now := RowUnder(Build(st, k, luck, resolve).0.grants, "stand:" + st.stands[k].name + "|" + resolve(st.stands[k].commanders[i].0));
      now.Some? && now.value.permissions == st.stands[k].commanders[i].1
  {
    var s := st.stands[k];
    CommandersGet(st.grants, st.nextGrant, "stand:" + s.name, s.commanders, resolve, "stand:" + s.name + "|" + resolve(s.commanders[i].0), i);
  }
}
