/** `up` ends: with no failing call and variables whose values lead somewhere, repeated rounds build every stand and
    reach `builtAt`, although the grant pass itself inserts rows with higher ids; and when every grant's principal is
    then resolved. */
module UpEnds {
  import opened Options
  import opened Tables
  import opened Up
  import opened UpRuns
  import opened GrantPass
  import Grants

  // ---------- the measure ----------

  function Unbuilt(stands: seq<Stand>): nat {
    if stands == [] then 0 else (if stands[0].state.Built? then 0 else 1) + Unbuilt(stands[1..])
  }

  lemma {:induction false} UnbuiltDecreases(stands: seq<Stand>, k: nat)
    requires k < |stands| && !stands[k].state.Built?
    ensures Unbuilt(stands[k := stands[k].(state := Built)]) < Unbuilt(stands)
  {
    if k > 0 {
      assert stands[k := stands[k].(state := Built)][1..] == stands[1..][k - 1 := stands[1..][k - 1].(state := Built)];
      UnbuiltDecreases(stands[1..], k - 1);
    } else {
      assert stands[0 := stands[0].(state := Built)][1..] == stands[1..];
    }
  }

  datatype Measure = Measure(todo: nat, files: nat, unbuilt: nat, pass: nat)

  ghost function MeasureOf(st: State, resolve: Resolve): Measure {
    Measure(|Todo(st.stands, st.canisters)|, Files(st.canisters), Unbuilt(st.stands),
            PassLeft(st.grants, st.cursor, resolve))
  }

  ghost predicate Below(a: Measure, b: Measure) {
    || a.todo < b.todo
    || (a.todo == b.todo && a.files < b.files)
    || (a.todo == b.todo && a.files == b.files && a.unbuilt < b.unbuilt)
    || (a.todo == b.todo && a.files == b.files && a.unbuilt == b.unbuilt && a.pass < b.pass)
  }

  /** What `orchestra_up` leaves and every round keeps while nothing fails: unique names, no failed stand, and
      principals whose chains of resolutions end. */
  ghost predicate Going(st: State, resolve: Resolve) {
    && Unique(st.canisters) && Numbered(st.grants, st.nextGrant)
    && (forall s <- st.stands :: !s.state.Failed?)
    && (forall s <- st.stands, m <- s.commanders :: Ends(resolve, m.0))
    && AllEnd(st.grants, resolve)
  }

  /** Besides, every principal settles in one step, and those not settled yet are ahead of the cursor. */
  ghost predicate Settling(st: State, resolve: Resolve) {
    && (forall s <- st.stands, m <- s.commanders :: Settles(resolve, resolve(m.0)))
    && AllSettle(st.grants, resolve) && Ahead(st.grants, st.cursor, resolve)
    && ((exists s <- st.stands :: !s.state.Built?) ==> st.cursor == 1)
  }

  lemma Fewer<T>(a: set<T>, b: set<T>)
    requires a <= b
    ensures |a| <= |b| && (a != b ==> |a| < |b|)
  {
    assert b == a + (b - a) && |b - a| + |a| == |b|;
  }

  /** Creating a canister takes one name off what is to do. */
  lemma InstalledIsOnChain(cs: seq<Canister>, i: nat)
    requires i < |cs| && cs[i].status.Created?
    ensures OnChain(cs[i := cs[i].(status := Installed)]) == OnChain(cs) + {cs[i].name}
  {
    var ds := cs[i := cs[i].(status := Installed)];
    assert ds[i] in ds;
    forall n ensures n in OnChain(ds) <==> n in OnChain(cs) || n == cs[i].name {
      if n in OnChain(ds) {
        var j :| 0 <= j < |ds| && ds[j].name == n && !ds[j].status.Created?;
        if j != i { assert cs[j] in cs; }
      }
      if n in OnChain(cs) {
        var j :| 0 <= j < |cs| && cs[j].name == n && !cs[j].status.Created?;
        assert ds[j] in ds;
      }
    }
  }

  lemma ProvisionProgress(stands: seq<Stand>, cs: seq<Canister>, i: nat)
    requires Unique(cs) && i < |cs| && cs[i].status.Created? && IsPending(stands, cs[i].stand)
    ensures var ds := cs[i := cs[i].(status := Installed)];
      Unique(ds) && |Todo(stands, ds)| < |Todo(stands, cs)|
  {
    var ds := cs[i := cs[i].(status := Installed)];
    assert cs[i] in cs;
    InstalledIsOnChain(cs, i);
    SameNames(stands, cs, ds);
    assert cs[i].name in RowNames(stands, cs);
    assert cs[i].name !in OnChain(cs);
    Fewer(Todo(stands, ds), Todo(stands, cs));
  }

  lemma SameNames(stands: seq<Stand>, cs: seq<Canister>, ds: seq<Canister>)
    requires |cs| == |ds| && forall j :: 0 <= j < |cs| ==> ds[j].name == cs[j].name && ds[j].stand == cs[j].stand
    ensures RowNames(stands, ds) == RowNames(stands, cs)
  {
    forall n
      ensures n in RowNames(stands, ds) <==> n in RowNames(stands, cs)
    {
      if n in RowNames(stands, ds) {
        var j :| 0 <= j < |ds| && ds[j].name == n && IsPending(stands, ds[j].stand);
        assert cs[j] in cs;
      }
      if n in RowNames(stands, cs) {
        var j :| 0 <= j < |cs| && cs[j].name == n && IsPending(stands, cs[j].stand);
        assert ds[j] in ds;
      }
    }
  }

  lemma SameOnChain(cs: seq<Canister>, ds: seq<Canister>)
    requires |cs| == |ds| && forall j :: 0 <= j < |cs| ==> ds[j].name == cs[j].name && ds[j].status.Created? == cs[j].status.Created?
    ensures OnChain(ds) == OnChain(cs)
  {
    forall n
      ensures n in OnChain(ds) <==> n in OnChain(cs)
    {
      if n in OnChain(ds) {
        var j :| 0 <= j < |ds| && ds[j].name == n && !ds[j].status.Created?;
        assert cs[j] in cs;
      }
      if n in OnChain(cs) {
        var j :| 0 <= j < |cs| && cs[j].name == n && !cs[j].status.Created?;
        assert ds[j] in ds;
      }
    }
  }

  lemma {:induction false} NoneIsFirst(cs: seq<Canister>, stand: string, i: nat)
    requires NoneCreated(cs, stand) && i <= |cs|
    ensures FirstCreated(cs, stand, i) == |cs|
    decreases |cs| - i
  {
    if i < |cs| {
      assert cs[i] in cs;
      NoneIsFirst(cs, stand, i + 1);
    }
  }

  /** With every row on the chain, a build either writes files or hands everything off. */
  lemma BuildIdles(cs: seq<Canister>, stand: string)
    requires NoneCreated(cs, stand)
    ensures var (r, out) := BuildCanisters(cs, stand, None);
      && !out.Raise? && SameRows(cs, r)
      && (forall j :: 0 <= j < |cs| ==> r[j].status.Created? == cs[j].status.Created?)
      && Files(r) <= Files(cs) && (out.Unfinished? ==> Files(r) < Files(cs))
  {
    NoneIsFirst(cs, stand, 0);
    SyncAllFacts(cs, stand, 0, None);
    var p := SyncAll(cs, stand, 0, None);
    if p.Through? { HandOffAllFacts(p.canisters, stand, 0, p.luck); }
  }

  lemma BuiltPendsLess(stands: seq<Stand>, k: nat, cs: seq<Canister>)
    requires k < |stands|
    ensures Wanted(stands[k := stands[k].(state := Built)], cs) <= Wanted(stands, cs)
  {
    var ts := stands[k := stands[k].(state := Built)];
    assert forall s <- ts :: s.state.Pending? ==> s in stands;
    assert forall n :: IsPending(ts, n) ==> IsPending(stands, n);
    assert SpecNames(ts) <= SpecNames(stands);
    assert RowNames(ts, cs) <= RowNames(stands, cs);
  }

  lemma BuildProgress(st: State, k: nat, resolve: Resolve)
    requires Going(st, resolve) && k < |st.stands| && st.stands[k].state.Pending?
    requires AllNamed(st.canisters, st.stands[k].specs) && NoneCreated(st.canisters, st.stands[k].name)
    ensures var (t, out) := Build(st, k, None, resolve);
      && !out.Raise? && Going(t, resolve) && Below(MeasureOf(t, resolve), MeasureOf(st, resolve))
      && (Settling(st, resolve) ==> Settling(t, resolve))
  {
    var s := st.stands[k];
    var (t, out) := Build(st, k, None, resolve);
    assert s in st.stands;
    AddMembersIdle(st.canisters, s.name, s.specs);
    BuildIdles(st.canisters, s.name);
    SameNames(st.stands, st.canisters, t.canisters);
    SameOnChain(st.canisters, t.canisters);
    UniqueRows(st.canisters, t.canisters);
    if out.Finished? {
      BuiltPendsLess(st.stands, k, t.canisters);
      Fewer(Todo(t.stands, t.canisters), Todo(st.stands, st.canisters));
      UnbuiltDecreases(st.stands, k);
      CommandersKeep(st, k, t, resolve);
    }
  }

  lemma CommandersKeep(st: State, k: nat, t: State, resolve: Resolve)
    requires Going(st, resolve) && k < |st.stands| && !st.stands[k].state.Built?
    requires t.stands == st.stands[k := st.stands[k].(state := Built)] && Unique(t.canisters) && t.cursor == st.cursor
    requires (t.grants, t.nextGrant) == PutAll(st.grants, st.nextGrant, "stand:" + st.stands[k].name, st.stands[k].commanders, resolve)
    ensures Going(t, resolve) && (Settling(st, resolve) ==> Settling(t, resolve))
  {
    var s := st.stands[k];
    assert s in st.stands;
    PutAllEnds(st.grants, st.nextGrant, "stand:" + s.name, s.commanders, resolve);
    forall x <- t.stands
      ensures !x.state.Failed? && exists y <- st.stands :: y.commanders == x.commanders
    {
      var j :| 0 <= j < |t.stands| && t.stands[j] == x;
      assert st.stands[j] in st.stands && st.stands[j].commanders == x.commanders;
    }
    if Settling(st, resolve) {
      PutAllFacts(st.grants, st.nextGrant, "stand:" + s.name, s.commanders, resolve);
      forall id <- UnsettledIds(t.grants, resolve)
        ensures id >= 1
      {
        var g :| g in t.grants && g.id == id;
      }
    }
  }

  lemma GrantProgress(st: State, resolve: Resolve)
    requires Going(st, resolve) && NextUnbuilt(st.stands) == |st.stands| && st.cursor != 0
    ensures var (t, out) := BuildAll(st, None, resolve);
      && out.Unfinished? && Going(t, resolve) && Below(MeasureOf(t, resolve), MeasureOf(st, resolve))
      && (Settling(st, resolve) ==> Settling(t, resolve))
  {
    PageProgress(st.grants, st.nextGrant, st.cursor, resolve);
    if Settling(st, resolve) { PageSettles(st.grants, st.nextGrant, st.cursor, resolve); }
    assert forall s <- st.stands :: s.state.Built?;
  }

  /** The end of `up`: every stand is built. */
  ghost predicate AtEnd(st: State) {
    st.builtAt && forall s <- st.stands :: s.state.Built?
  }

  /** What `up` is for: besides, no grant's principal resolves to anything else. */
  ghost predicate Reached(st: State, resolve: Resolve) {
    AtEnd(st) && forall g <- st.grants :: resolve(g.row.principal) == g.row.principal
  }

  lemma NothingUnsettled(gs: GrantTable, resolve: Resolve)
    requires Ahead(gs, 0, resolve)
    ensures forall g <- gs :: resolve(g.row.principal) == g.row.principal
  {
    forall g <- gs
      ensures resolve(g.row.principal) == g.row.principal
    {
      assert (g.id, g.row.principal) in Heads(gs);
      assert resolve(g.row.principal) != g.row.principal ==> g.id in UnsettledIds(gs, resolve);
    }
  }

  lemma OtherCanisters(st: State, cs: seq<Canister>, resolve: Resolve)
    requires Going(st, resolve) && Unique(cs)
    ensures Going(st.(canisters := cs), resolve)
  {
  }

  lemma ProvisionRound(st: State, resolve: Resolve, cs: seq<Canister>, i: nat)
    requires Going(st, resolve) && NextUnbuilt(st.stands) < |st.stands|
    requires Unprovisioned(st.stands, st.canisters) == (cs, Some(i))
    ensures var (t, out) := BuildAll(st, None, resolve);
      && out.Unfinished? && Going(t, resolve) && Below(MeasureOf(t, resolve), MeasureOf(st, resolve))
      && (Settling(st, resolve) ==> Settling(t, resolve))
  {
    UnprovisionedFacts(st.stands, st.stands, st.canisters);
    var t := st.(canisters := cs[i := cs[i].(status := Installed)]);
    assert BuildAll(st, None, resolve) == (t, Unfinished) by {
      assert st.stands[NextUnbuilt(st.stands)] in st.stands;
    }
    ProvisionProgress(st.stands, cs, i);
    OtherCanisters(st, t.canisters, resolve);
  }

  lemma BuildRound(st: State, resolve: Resolve, cs: seq<Canister>)
    requires Going(st, resolve) && NextUnbuilt(st.stands) < |st.stands|
    requires Unprovisioned(st.stands, st.canisters) == (cs, None)
    ensures var (t, out) := BuildAll(st, None, resolve);
      && out.Unfinished? && Going(t, resolve) && Below(MeasureOf(t, resolve), MeasureOf(st, resolve))
      && (Settling(st, resolve) ==> Settling(t, resolve))
  {
    var k := NextUnbuilt(st.stands);
    assert st.stands[k] in st.stands && st.stands[k].state.Pending?;
    AllProvisioned(st, cs, k);
    BuildProgress(st, k, resolve);
    BuildAllBuilds(st, resolve, cs);
  }

  lemma AllProvisioned(st: State, cs: seq<Canister>, k: nat)
    requires Unprovisioned(st.stands, st.canisters) == (cs, None) && k < |st.stands| && st.stands[k].state.Pending?
    requires Unique(st.canisters)
    ensures cs == st.canisters && AllNamed(cs, st.stands[k].specs) && NoneCreated(cs, st.stands[k].name)
  {
    assert st.stands[k] in st.stands;
    UnprovisionedFacts(st.stands, st.stands, st.canisters);
  }

  lemma BuildAllBuilds(st: State, resolve: Resolve, cs: seq<Canister>)
    requires NextUnbuilt(st.stands) < |st.stands| && st.stands[NextUnbuilt(st.stands)].state.Pending?
    requires Unprovisioned(st.stands, st.canisters) == (cs, None) && cs == st.canisters
    ensures var (t, out) := Build(st, NextUnbuilt(st.stands), None, resolve);
      !out.Raise? ==> BuildAll(st, None, resolve) == (t, Unfinished)
  {
    assert st.(canisters := cs) == st;
  }

  /** One round with no failing call reaches the end or comes closer to it. */
  lemma RoundProgress(st: State, resolve: Resolve)
    requires Going(st, resolve)
    ensures var (t, out) := BuildAll(st, None, resolve);
      && !out.Raise?
      && (out.Finished? ==> AtEnd(t) && (Settling(st, resolve) ==> Reached(t, resolve)))
      && (out.Unfinished? ==> Going(t, resolve) && Below(MeasureOf(t, resolve), MeasureOf(st, resolve)))
      && (out.Unfinished? && Settling(st, resolve) ==> Settling(t, resolve))
  {
    var k := NextUnbuilt(st.stands);
    if k < |st.stands| {
      assert st.stands[k] in st.stands;
      var (cs, c) := Unprovisioned(st.stands, st.canisters);
      if c.Some? { ProvisionRound(st, resolve, cs, c.value); } else { BuildRound(st, resolve, cs); }
    } else if st.cursor != 0 {
      GrantProgress(st, resolve);
    } else if Settling(st, resolve) {
      NothingUnsettled(st.grants, resolve);
    }
  }

  /** `n` rounds, stopping at the first that reports itself finished. */
  function Rounds(st: State, n: nat, resolve: Resolve): State
    decreases n
  {
    if n == 0 then st
    else
      var (t, out) := BuildAll(st, None, resolve);
      if out.Finished? then t else Rounds(t, n - 1, resolve)
  }

  ghost predicate EndsBy(st: State, n: nat, resolve: Resolve) {
    AtEnd(Rounds(st, n, resolve))
  }

  ghost predicate ResolvesBy(st: State, n: nat, resolve: Resolve) {
    Reached(Rounds(st, n, resolve), resolve)
  }

  /** What `n` rounds reach from `t`, one more reaches from `st`. */
  ghost predicate Leads(st: State, t: State, resolve: Resolve) {
    && (forall n: nat :: EndsBy(t, n, resolve) ==> EndsBy(st, n + 1, resolve))
    && (forall n: nat :: ResolvesBy(t, n, resolve) ==> ResolvesBy(st, n + 1, resolve))
  }

  lemma RoundsNext(st: State, n: nat, resolve: Resolve)
    ensures var (t, out) := BuildAll(st, None, resolve);
      Rounds(st, n + 1, resolve) == if out.Finished? then t else Rounds(t, n, resolve)
  {
  }

  lemma RoundLeads(st: State, resolve: Resolve)
    requires !BuildAll(st, None, resolve).1.Finished?
    ensures Leads(st, BuildAll(st, None, resolve).0, resolve)
  {
    var t := BuildAll(st, None, resolve).0;
    forall n: nat ensures Rounds(st, n + 1, resolve) == Rounds(t, n, resolve) { RoundsNext(st, n, resolve); }
  }

  lemma OneRound(st: State, resolve: Resolve) returns (t: State, ended: bool)
    requires Going(st, resolve)
    ensures ended ==> EndsBy(st, 1, resolve) && (Settling(st, resolve) ==> ResolvesBy(st, 1, resolve))
    ensures !ended ==> Going(t, resolve) && Below(MeasureOf(t, resolve), MeasureOf(st, resolve)) && Leads(st, t, resolve)
    ensures !ended && Settling(st, resolve) ==> Settling(t, resolve)
  {
    t, ended := BuildAll(st, None, resolve).0, BuildAll(st, None, resolve).1.Finished?;
    RoundProgress(st, resolve);
    if ended { RoundsNext(st, 0, resolve); } else { RoundLeads(st, resolve); }
  }

  /** As many rounds as it takes. */
  lemma {:induction false} RoundsToTheEnd(st: State, resolve: Resolve, m: Measure) returns (n: nat)
    requires Going(st, resolve) && m == MeasureOf(st, resolve)
    ensures EndsBy(st, n, resolve) && (Settling(st, resolve) ==> ResolvesBy(st, n, resolve))
    decreases m.todo, m.files, m.unbuilt, m.pass
  {
    var t, ended := OneRound(st, resolve);
    if ended {
      n := 1;
    } else {
      n := RoundsToTheEnd(t, resolve, MeasureOf(t, resolve));
      n := n + 1;
    }
  }

  /** `up` terminates wherever every chain of resolutions ends: some number of rounds with no failing call builds every
      stand and sets `builtAt`; and where they settle in one step, it leaves every grant resolved. */
  lemma UpTerminates(st: State, resolve: Resolve)
    requires Going(st, resolve)
    ensures exists n: nat :: EndsBy(st, n, resolve) && (Settling(st, resolve) ==> ResolvesBy(st, n, resolve))
  {
    var n := RoundsToTheEnd(st, resolve, MeasureOf(st, resolve));
  }

  // ---------- exactly which variables ----------

  /** What `orchestra_up` leaves, whatever its grants name. */
  ghost predicate Starts(st: State) {
    && Unique(st.canisters) && Numbered(st.grants, st.nextGrant) && st.cursor == 1
    && forall s <- st.stands :: !s.state.Failed?
  }

  ghost predicate UpEndsFrom(st: State, resolve: Resolve) {
    Starts(st) ==> exists n: nat :: EndsBy(st, n, resolve)
  }

  ghost predicate UpResolvesFrom(st: State, resolve: Resolve) {
    Starts(st) ==> exists n: nat :: ResolvesBy(st, n, resolve)
  }

  // A table of one grant: it is moved once.

  function Lone(p: string): State {
    State([], [], [Entry(1, Grant("orchestra", p, {}, {}))], 2, 1, false)
  }

  lemma LoneMoves(p: string, resolve: Resolve)
    requires resolve(p) != p
    ensures MoveAll(Lone(p).grants, 2, Lone(p).grants, resolve) == ([Entry(2, Grant("orchestra", resolve(p), {}, {}))], 3)
  {
    var gs, moved := Lone(p).grants, Entry(2, Grant("orchestra", resolve(p), {}, {}));
    SameLengthKeys("orchestra", p, "orchestra", resolve(p));
    assert Find(gs, Grants.KeyOf("orchestra", resolve(p))) == 1;
    var put := [gs[0], moved];
    assert gs + [moved] == put;
    assert Put(gs, 2, "orchestra", resolve(p), {}, Some({})) == (put, 3);
    assert put[1..] == [moved] && [moved][1..] == [] && gs[1..] == [];
    assert Without([moved], 1) == [moved] + Without([], 1);
    assert Without(put, 1) == [moved];
    assert Current(gs, 1) == Some(gs[0].row);
    assert Move(gs, 2, 1, resolve) == ([moved], 3);
    assert MoveAll([moved], 3, [], resolve) == ([moved], 3);
  }

  lemma SameLengthKeys(a: string, p: string, b: string, q: string)
    requires |a| == |b|
    ensures Grants.KeyOf(a, p) == Grants.KeyOf(b, q) <==> (a == b && p == q)
  {
    assert Grants.KeyOf(a, p)[..|a|] == a && Grants.KeyOf(b, q)[..|b|] == b;
    assert Grants.KeyOf(a, p)[|a| + 1..] == p && Grants.KeyOf(b, q)[|b| + 1..] == q;
  }

  /** A grant whose principal resolves in two steps is left at the first. */
  lemma LoneIsLeft(p: string, resolve: Resolve, n: nat)
    requires !Settles(resolve, p)
    ensures !ResolvesBy(Lone(p), n, resolve)
  {
    var st := Lone(p);
    FromAll(st.grants, 1);
    assert Page(st.grants, 1, PAGE) == (st.grants, None);
    LoneMoves(p, resolve);
    var t := st.(cursor := 0, grants := [Entry(2, Grant("orchestra", resolve(p), {}, {}))], nextGrant := 3);
    assert BuildAll(st, None, resolve) == (t, Unfinished);
    assert BuildAll(t, None, resolve) == (t.(builtAt := true), Outcome.Finished);
    assert t.grants[0] in t.grants;
    if n >= 2 { assert Rounds(st, n, resolve) == Rounds(t, n - 1, resolve) == t.(builtAt := true); }
    if n == 1 { assert Rounds(st, 1, resolve) == Rounds(t, 0, resolve); }
  }

  /** From every table, `up` ends with every principal resolved, if and only if resolving twice is resolving once:
      no variable's value names another. */
  lemma ResolvesEveryTableIff(resolve: Resolve)
    ensures (forall st: State :: UpResolvesFrom(st, resolve)) <==> forall p :: Settles(resolve, p)
  {
    if forall p :: Settles(resolve, p) {
      forall st: State ensures UpResolvesFrom(st, resolve) { if Starts(st) { AllSettleResolves(st, resolve); } }
    } else {
      var p :| !Settles(resolve, p);
      forall n: nat ensures !ResolvesBy(Lone(p), n, resolve) { LoneIsLeft(p, resolve, n); }
      assert Starts(Lone(p)) && !UpResolvesFrom(Lone(p), resolve);
    }
  }

  lemma AllSettleResolves(st: State, resolve: Resolve)
    requires Starts(st) && forall p :: Settles(resolve, p)
    ensures exists n: nat :: ResolvesBy(st, n, resolve)
  {
    forall p ensures Ends(resolve, p) { SettledEnds(resolve, p); }
    forall id <- UnsettledIds(st.grants, resolve) ensures 1 <= id { var g :| g in st.grants && g.id == id; }
    UpTerminates(st, resolve);
  }

  // A full page of grants to one principal: each round moves the page behind itself.

  function ScopeFor(i: nat): string
    requires i < PAGE
  {
    "stand:" + [(i + 33) as char]
  }

  function PageRow(p: string, from: nat, i: nat): Entry<Grant>
    requires i < PAGE
  {
    Entry(from + i, Grant(ScopeFor(i), p, {}, {}))
  }

  /** The rows from the `i`th on at `p`, and those before it already moved to `q`. */
  function HalfMoved(p: string, q: string, from: nat, i: nat): (r: GrantTable)
    requires i <= PAGE
    ensures |r| == PAGE
  {
    seq(PAGE, j requires 0 <= j < PAGE => HalfRow(p, q, from, i, j))
  }

  function HalfRow(p: string, q: string, from: nat, i: nat, j: nat): Entry<Grant>
    requires i <= PAGE && j < PAGE
  {
    if j < PAGE - i then PageRow(p, from, i + j) else PageRow(q, from + PAGE, j - (PAGE - i))
  }

  lemma HalfMovedAt(p: string, q: string, from: nat, i: nat, j: nat)
    requires i <= PAGE && j < PAGE
    ensures HalfMoved(p, q, from, i)[j] == HalfRow(p, q, from, i, j)
  {
  }

  function FullOf(p: string, k: nat): State {
    State([], [], HalfMoved(p, p, PAGE * k + 1, 0), PAGE * k + PAGE + 1, PAGE * k + 1, false)
  }

  /** The rows' ids follow each other, moved or not. */
  lemma IdsFollow(p: string, q: string, from: nat, i: nat, j: nat)
    requires i <= PAGE && j < PAGE
    ensures HalfMoved(p, q, from, i)[j].id == from + i + j
  {
    HalfMovedAt(p, q, from, i, j);
  }

  lemma NoKeyYet(p: string, q: string, from: nat, i: nat)
    requires i < PAGE && p != q
    ensures Find(HalfMoved(p, q, from, i), Grants.KeyOf(ScopeFor(i), q)) == PAGE
  {
    var gs := HalfMoved(p, q, from, i);
    forall j | 0 <= j < PAGE ensures Grants.KeyOf(gs[j].row.scope, gs[j].row.principal) != Grants.KeyOf(ScopeFor(i), q) {
      var x := if j < PAGE - i then i + j else j - (PAGE - i);
      HalfMovedAt(p, q, from, i, j);
      assert gs[j].row.scope == ScopeFor(x) && gs[j].row.principal == if j < PAGE - i then p else q;
      assert ScopeFor(x)[6] == (x + 33) as char && ScopeFor(i)[6] == (i + 33) as char;
      SameLengthKeys(ScopeFor(x), gs[j].row.principal, ScopeFor(i), q);
    }
  }

  lemma {:induction false} WithoutNone(gs: GrantTable, id: nat)
    requires forall j :: 0 <= j < |gs| ==> gs[j].id != id
    ensures Without(gs, id) == gs
  {
    if gs != [] { WithoutNone(gs[1..], id); }
  }

  lemma MovesOne(p: string, from: nat, i: nat, resolve: Resolve)
    requires i < PAGE && resolve(p) != p
    ensures Move(HalfMoved(p, resolve(p), from, i), from + PAGE + i, from + i, resolve)
      == (HalfMoved(p, resolve(p), from, i + 1), from + PAGE + i + 1)
  {
    var q := resolve(p);
    var gs, new_ := HalfMoved(p, q, from, i), PageRow(q, from + PAGE, i);
    assert gs[0] == PageRow(p, from, i);
    NoKeyYet(p, q, from, i);
    var put := gs + [new_];
    assert put[0] == gs[0] && put[1..] == gs[1..] + [new_];
    forall j | 0 <= j < |put[1..]| ensures put[1..][j].id != from + i { if j < PAGE - 1 { IdsFollow(p, q, from, i, j + 1); } }
    WithoutNone(put[1..], from + i);
    assert put[1..] == HalfMoved(p, q, from, i + 1);
  }

  lemma RowIsNext(p: string, q: string, from: nat, i: nat)
    requires i < PAGE
    ensures |HalfMoved(p, q, from, 0)| == PAGE && HalfMoved(p, q, from, 0)[i].id == from + i
  {
    assert HalfMoved(p, q, from, 0)[i] == PageRow(p, from, i);
  }

  lemma MoveAllNext(gs: GrantTable, next: nat, ids: GrantTable, i: nat, resolve: Resolve)
    requires i < |ids|
    ensures MoveAll(gs, next, ids[i..], resolve) ==
      MoveAll(Move(gs, next, ids[i].id, resolve).0, Move(gs, next, ids[i].id, resolve).1, ids[i + 1..], resolve)
  {
    assert ids[i..][0] == ids[i] && ids[i..][1..] == ids[i + 1..];
  }

  lemma MovesNext(p: string, from: nat, i: nat, resolve: Resolve)
    requires i < PAGE && resolve(p) != p
    ensures |HalfMoved(p, resolve(p), from, 0)| == PAGE
    ensures MoveAll(HalfMoved(p, resolve(p), from, i), from + PAGE + i, HalfMoved(p, resolve(p), from, 0)[i..], resolve)
         == MoveAll(HalfMoved(p, resolve(p), from, i + 1), from + PAGE + i + 1, HalfMoved(p, resolve(p), from, 0)[i + 1..], resolve)
  {
    RowIsNext(p, resolve(p), from, i);
    MovesOne(p, from, i, resolve);
    MoveAllNext(HalfMoved(p, resolve(p), from, i), from + PAGE + i, HalfMoved(p, resolve(p), from, 0), i, resolve);
  }

  lemma {:induction false} MovesAll(p: string, from: nat, i: nat, resolve: Resolve)
    requires i <= PAGE && resolve(p) != p
    ensures MoveAll(HalfMoved(p, resolve(p), from, i), from + PAGE + i, HalfMoved(p, resolve(p), from, 0)[i..], resolve)
      == (HalfMoved(p, resolve(p), from, PAGE), from + PAGE + PAGE)
    decreases PAGE - i
  {
    if i < PAGE {
      MovesNext(p, from, i, resolve);
      MovesAll(p, from, i + 1, resolve);
    }
  }

  lemma FullIsOnePage(p: string, from: nat)
    ensures Page(HalfMoved(p, p, from, 0), from, PAGE) == (HalfMoved(p, p, from, 0), Some(from + PAGE))
  {
    var gs := HalfMoved(p, p, from, 0);
    forall e <- gs ensures e.id >= from { var j :| 0 <= j < PAGE && gs[j] == e; IdsFollow(p, p, from, 0, j); }
    FromAll(gs, from);
    IdsFollow(p, p, from, 0, PAGE - 1);
    var _, _ := FullPage(gs, from, PAGE);
    assert gs[..PAGE] == gs;
  }

  lemma MovedIsFull(p: string, q: string, from: nat)
    ensures HalfMoved(p, q, from, 0) == HalfMoved(p, p, from, 0) && HalfMoved(p, q, from, PAGE) == HalfMoved(q, q, from + PAGE, 0)
  {
  }

  lemma FullRound(p: string, k: nat, resolve: Resolve)
    requires resolve(p) != p
    ensures BuildAll(FullOf(p, k), None, resolve) == (FullOf(resolve(p), k + 1), Unfinished)
  {
    var from := PAGE * k + 1;
    FullIsOnePage(p, from);
    MovedIsFull(p, resolve(p), from);
    var gs := HalfMoved(p, p, from, 0);
    assert gs[0..] == gs;
    MovesAll(p, from, 0, resolve);
  }

  lemma {:induction false} FullNeverEnds(p: string, k: nat, resolve: Resolve, n: nat)
    requires !Ends(resolve, p)
    ensures !EndsBy(FullOf(p, k), n, resolve)
    decreases n
  {
    assert !FixedAt(resolve, p, 0);
    if n > 0 {
      FullRound(p, k, resolve);
      NextNeverEnds(resolve, p);
      FullNeverEnds(resolve(p), k + 1, resolve, n - 1);
    }
  }

  lemma NextNeverEnds(resolve: Resolve, p: string)
    requires !Ends(resolve, p)
    ensures !Ends(resolve, resolve(p))
  {
    if Ends(resolve, resolve(p)) {
      var n: nat :| FixedAt(resolve, resolve(p), n);
      assert Iter(resolve, p, n + 1) == Iter(resolve, resolve(p), n);
      assert FixedAt(resolve, p, n + 1);
    }
  }

  lemma FullStarts(p: string)
    ensures Starts(FullOf(p, 0))
  {
  }

  /** From every table `up` ends, if and only if every chain of resolutions ends: no variable leads back to itself. */
  lemma EndsFromEveryTableIff(resolve: Resolve)
    ensures (forall st: State :: UpEndsFrom(st, resolve)) <==> forall p :: Ends(resolve, p)
  {
    if forall p :: Ends(resolve, p) {
      forall st: State ensures UpEndsFrom(st, resolve) { if Starts(st) { UpTerminates(st, resolve); } }
    } else {
      var p :| !Ends(resolve, p);
      forall n: nat ensures !EndsBy(FullOf(p, 0), n, resolve) { FullNeverEnds(p, 0, resolve, n); }
      FullStarts(p);
      assert !UpEndsFrom(FullOf(p, 0), resolve);
    }
  }

  /** Two variables that name each other. */
  function Swapped(p: string): string { if p == "$a" then "$b" else if p == "$b" then "$a" else p }

  lemma {:induction false} SwappedGoesRound(p: string, n: nat)
    requires p == "$a" || p == "$b"
    ensures !FixedAt(Swapped, p, n)
    decreases n
  {
    if n > 0 { SwappedGoesRound(Swapped(p), n - 1); }
  }

  /** A page of grants to one of two variables that name each other keeps `up` going for ever. */
  lemma CyclicVariablesNeverEnd(n: nat)
    ensures Starts(FullOf("$a", 0)) && !EndsBy(FullOf("$a", 0), n, Swapped)
  {
    forall m: nat ensures !FixedAt(Swapped, "$a", m) { SwappedGoesRound("$a", m); }
    FullStarts("$a");
    FullNeverEnds("$a", 0, Swapped, n);
  }
}
