/** What the rounds of `up` add up to: it terminates, no stand is built before every canister of every
    pending stand is on the chain, and a built stand has only finished canisters. */
module UpRuns {
  import opened Options
  import opened Up

  // ---------- canisters ----------

  ghost predicate Unique(cs: seq<Canister>) {
    forall i, j :: 0 <= i < j < |cs| ==> cs[i].name != cs[j].name
  }

  ghost predicate IsPending(stands: seq<Stand>, name: string) {
    exists s <- stands :: s.name == name && s.state.Pending?
  }

  ghost predicate NoneCreated(cs: seq<Canister>, stand: string) {
    forall c <- cs :: c.stand == stand ==> !c.status.Created?
  }

  ghost predicate AllNamed(cs: seq<Canister>, specs: seq<Spec>) {
    forall spec <- specs :: Named(cs, spec.name)
  }

  ghost predicate HasSpec(specs: seq<Spec>, name: string) {
    exists spec <- specs :: spec.name == name
  }

  /** Materialising only appends rows of this stand, not yet created, under names its specs give. */
  lemma {:induction false} AddMembersAppends(cs: seq<Canister>, stand: string, specs: seq<Spec>)
    ensures var r := AddMembers(cs, stand, specs);
      && |cs| <= |r| && r[..|cs|] == cs
      && forall i :: |cs| <= i < |r| ==> r[i].stand == stand && r[i].status.Created? && HasSpec(specs, r[i].name)
    decreases |specs|
  {
    if specs != [] {
      var spec, rest := specs[0], specs[1..];
      var next := if Named(cs, spec.name) then cs else cs + [Canister(spec.name, stand, Created, spec.content, spec.files)];
      AddMembersAppends(next, stand, rest);
      var r := AddMembers(next, stand, rest);
      assert r[..|cs|] == r[..|next|][..|cs|];
      forall i | |cs| <= i < |r|
        ensures r[i].stand == stand && r[i].status.Created? && HasSpec(specs, r[i].name)
      {
        if i < |next| {
          assert r[i] == r[..|next|][i] && spec in specs;
        } else {
          var sp :| sp in rest && sp.name == r[i].name;
          assert sp in specs;
        }
      }
    }
  }

  lemma {:induction false} AddMembersFacts(cs: seq<Canister>, stand: string, specs: seq<Spec>)
    requires Unique(cs)
    ensures Unique(AddMembers(cs, stand, specs)) && AllNamed(AddMembers(cs, stand, specs), specs)
    ensures NoneCreated(AddMembers(cs, stand, specs), stand) ==> AddMembers(cs, stand, specs) == cs
    decreases |specs|
  {
    AddMembersAppends(cs, stand, specs);
    var r := AddMembers(cs, stand, specs);
    if |r| > |cs| {
      assert r[|cs|] in r;
    } else {
      assert r == r[..|cs|];
    }
    if specs != [] {
      var spec, rest := specs[0], specs[1..];
      var next := if Named(cs, spec.name) then cs else cs + [Canister(spec.name, stand, Created, spec.content, spec.files)];
      AddMembersAppends(next, stand, rest);
      AddMembersFacts(next, stand, rest);
      assert Named(r, spec.name) by {
        var c :| c in next && c.name == spec.name;
        assert c in r[..|next|];
      }
      assert forall sp <- specs :: sp == spec || sp in rest;
    }
  }

  lemma {:induction false} AddMembersIdle(cs: seq<Canister>, stand: string, specs: seq<Spec>)
    requires AllNamed(cs, specs)
    ensures AddMembers(cs, stand, specs) == cs
    decreases |specs|
  {
    if specs != [] { AddMembersIdle(cs, stand, specs[1..]); }
  }

  ghost function Wanted(stands: seq<Stand>, cs: seq<Canister>): set<string> {
    SpecNames(stands) + RowNames(stands, cs)
  }

  function SpecNames(stands: seq<Stand>): set<string> {
    set s: Stand, spec: Spec | s in stands && s.state.Pending? && spec in s.specs :: spec.name
  }

  ghost function RowNames(stands: seq<Stand>, cs: seq<Canister>): set<string> {
    set c: Canister | c in cs && IsPending(stands, c.stand) :: c.name
  }

  function OnChain(cs: seq<Canister>): set<string> {
    set c: Canister | c in cs && !c.status.Created? :: c.name
  }

  /** The names of the pending stands' canisters that are not on the chain yet, with or without a row. */
  ghost function Todo(stands: seq<Stand>, cs: seq<Canister>): set<string> {
    Wanted(stands, cs) - OnChain(cs)
  }

  lemma TodoAfterAdd(stands: seq<Stand>, s: Stand, cs: seq<Canister>)
    requires Unique(cs) && s in stands && s.state.Pending?
    ensures Todo(stands, AddMembers(cs, s.name, s.specs)) == Todo(stands, cs)
  {
    AddMembersAppends(cs, s.name, s.specs);
    var r := AddMembers(cs, s.name, s.specs);
    assert r == cs + r[|cs|..];
    assert OnChain(r) == OnChain(cs);
    assert Wanted(stands, r) == Wanted(stands, cs);
  }

  /** Looking for a canister to provision leaves what is still to do, and finds none only when every member
      of every pending stand has a row and is on the chain. */
  lemma {:induction false} UnprovisionedFacts(all: seq<Stand>, stands: seq<Stand>, cs: seq<Canister>)
    requires Unique(cs) && forall s <- stands :: s in all
    ensures var (r, c) := Unprovisioned(stands, cs);
      && Unique(r) && Todo(all, r) == Todo(all, cs)
      && |cs| <= |r| && r[..|cs|] == cs && (forall x <- r[|cs|..] :: x.status.Created? && IsPending(all, x.stand))
      && (c.Some? ==> c.value < |r| && r[c.value].status.Created? && IsPending(all, r[c.value].stand))
      && (c.None? ==> r == cs && forall s <- stands :: s.state.Pending? ==> AllNamed(cs, s.specs) && NoneCreated(cs, s.name))
    decreases |stands|
  {
    if stands != [] {
      var s := stands[0];
      assert s in all && forall x <- stands[1..] :: x in all;
      assert forall x <- stands :: x == s || x in stands[1..];
      if s.state.Pending? {
        var cs' := AddMembers(cs, s.name, s.specs);
        AddMembersFacts(cs, s.name, s.specs);
        AddMembersAppends(cs, s.name, s.specs);
        TodoAfterAdd(all, s, cs);
        if FirstCreated(cs', s.name, 0) == |cs'| {
          assert NoneCreated(cs', s.name);
          UnprovisionedFacts(all, stands[1..], cs);
        }
      } else {
        UnprovisionedFacts(all, stands[1..], cs);
      }
    }
  }

  /** Every member row of every pending stand exists and none is still to be created. */
  ghost predicate Barrier(st: State) {
    forall s <- st.stands :: s.state.Pending? ==> AllNamed(st.canisters, s.specs) && NoneCreated(st.canisters, s.name)
  }

  function Files(cs: seq<Canister>): nat {
    if cs == [] then 0 else Files(cs[..|cs| - 1]) + cs[|cs| - 1].files
  }

  lemma {:induction false} FilesUpdate(cs: seq<Canister>, i: nat, c: Canister)
    requires i < |cs|
    ensures Files(cs[i := c]) == Files(cs) - cs[i].files + c.files
  {
    var n := |cs| - 1;
    if i < n {
      assert cs[i := c][..n] == cs[..n][i := c];
      FilesUpdate(cs[..n], i, c);
    } else {
      assert cs[i := c][..n] == cs[..n];
    }
  }

  ghost predicate SameRows(a: seq<Canister>, b: seq<Canister>) {
    |a| == |b| && forall i :: 0 <= i < |a| ==> a[i].name == b[i].name && a[i].stand == b[i].stand && a[i].content == b[i].content
  }

  lemma {:induction false} SyncAllWrites(cs: seq<Canister>, stand: string, i: nat, luck: Luck)
    requires i <= |cs|
    ensures var p := SyncAll(cs, stand, i, luck);
      && Files(p.canisters) <= Files(cs) && (p.Remaining? ==> Files(p.canisters) < Files(cs))
      && (luck.None? ==> !p.Raised? && (p.Through? ==> p.luck.None?))
    decreases |cs| - i
  {
    if i < |cs| {
      if !(cs[i].stand == stand && cs[i].status.Installed? && cs[i].content) {
        SyncAllWrites(cs, stand, i + 1, luck);
      } else if !Raises(luck) {
        if cs[i].files > MAX_FILES {
          FilesUpdate(cs, i, cs[i].(files := cs[i].files - MAX_FILES));
        } else {
          FilesUpdate(cs, i, cs[i].(files := 0));
          SyncAllWrites(cs[i := cs[i].(files := 0)], stand, i + 1, Spent(luck));
        }
      }
    }
  }

  /** Only files still to write change, and only of the stand's installed canisters. */
  lemma {:induction false} SyncAllKeeps(cs: seq<Canister>, stand: string, i: nat, luck: Luck)
    requires i <= |cs|
    ensures var r := SyncAll(cs, stand, i, luck).canisters;
      && |r| == |cs| && (forall j :: 0 <= j < |cs| ==> r[j] == cs[j].(files := r[j].files))
      && (forall j :: 0 <= j < |cs| && !(cs[j].stand == stand && cs[j].status.Installed?) ==> r[j] == cs[j])
    decreases |cs| - i
  {
    if i < |cs| {
      if !(cs[i].stand == stand && cs[i].status.Installed? && cs[i].content) {
        SyncAllKeeps(cs, stand, i + 1, luck);
      } else if !Raises(luck) && cs[i].files <= MAX_FILES {
        SyncAllKeeps(cs[i := cs[i].(files := 0)], stand, i + 1, Spent(luck));
      }
    }
  }

  lemma SyncAllFacts(cs: seq<Canister>, stand: string, i: nat, luck: Luck)
    requires i <= |cs|
    ensures var p := SyncAll(cs, stand, i, luck);
      && SameRows(cs, p.canisters) && (forall j :: 0 <= j < |cs| ==> p.canisters[j].status == cs[j].status)
      && (forall j :: 0 <= j < |cs| && !(cs[j].stand == stand && cs[j].status.Installed?) ==> p.canisters[j] == cs[j])
      && Files(p.canisters) <= Files(cs)
      && (p.Remaining? ==> Files(p.canisters) < Files(cs))
      && (luck.None? ==> !p.Raised? && (p.Through? ==> p.luck.None?))
  {
    SyncAllWrites(cs, stand, i, luck);
    SyncAllKeeps(cs, stand, i, luck);
  }

  lemma HandOffOne(cs: seq<Canister>, i: nat)
    requires i < |cs|
    ensures var next := cs[i := cs[i].(status := Ready)]; SameRows(cs, next) && Files(next) == Files(cs)
  {
    FilesUpdate(cs, i, cs[i].(status := Ready));
  }

  lemma {:induction false} HandOffAllKeeps(cs: seq<Canister>, stand: string, i: nat, luck: Luck)
    requires i <= |cs|
    ensures var p := HandOffAll(cs, stand, i, luck);
      && SameRows(cs, p.canisters) && Files(p.canisters) == Files(cs) && !p.Remaining?
      && (luck.None? ==> p.Through?)
    decreases |cs| - i
  {
    if i < |cs| {
      if !(cs[i].stand == stand && cs[i].status.Installed?) {
        HandOffAllKeeps(cs, stand, i + 1, luck);
      } else if !Raises(luck) {
        HandOffOne(cs, i);
        HandOffAllKeeps(cs[i := cs[i].(status := Ready)], stand, i + 1, Spent(luck));
      }
    }
  }

  /** A canister that is handed off was installed and is ready; any other is as it was. */
  lemma {:induction false} HandOffAllReadies(cs: seq<Canister>, stand: string, i: nat, luck: Luck)
    requires i <= |cs|
    ensures var r := HandOffAll(cs, stand, i, luck).canisters;
      && |r| == |cs|
      && (forall j :: 0 <= j < |cs| ==> r[j] == cs[j] || (cs[j].stand == stand && cs[j].status.Installed? && r[j].status.Ready?))
    decreases |cs| - i
  {
    if i < |cs| {
      if !(cs[i].stand == stand && cs[i].status.Installed?) {
        HandOffAllReadies(cs, stand, i + 1, luck);
      } else if !Raises(luck) {
        HandOffAllReadies(cs[i := cs[i].(status := Ready)], stand, i + 1, Spent(luck));
      }
    }
  }

  lemma {:induction false} HandOffAllPrefix(cs: seq<Canister>, stand: string, i: nat, luck: Luck)
    requires i <= |cs|
    ensures var r := HandOffAll(cs, stand, i, luck).canisters; |r| == |cs| && r[..i] == cs[..i]
    decreases |cs| - i
  {
    if i < |cs| {
      if !(cs[i].stand == stand && cs[i].status.Installed?) {
        HandOffAllPrefix(cs, stand, i + 1, luck);
        var r := HandOffAll(cs, stand, i, luck).canisters;
        assert r[..i] == r[..i + 1][..i];
      } else if !Raises(luck) {
        var next := cs[i := cs[i].(status := Ready)];
        HandOffAllPrefix(next, stand, i + 1, Spent(luck));
        var r := HandOffAll(cs, stand, i, luck).canisters;
        assert r[..i] == r[..i + 1][..i] == next[..i];
      }
    }
  }

  lemma {:induction false} HandOffAllThrough(cs: seq<Canister>, stand: string, i: nat, luck: Luck)
    requires i <= |cs|
    ensures var p := HandOffAll(cs, stand, i, luck);
      |p.canisters| == |cs| && (p.Through? ==> forall j :: i <= j < |cs| && cs[j].stand == stand ==> !p.canisters[j].status.Installed?)
    decreases |cs| - i
  {
    HandOffAllPrefix(cs, stand, i, luck);
    if i < |cs| {
      if !(cs[i].stand == stand && cs[i].status.Installed?) {
        HandOffAllPrefix(cs, stand, i + 1, luck);
        assert HandOffAll(cs, stand, i, luck).canisters[i] == cs[..i + 1][i];
        HandOffAllThrough(cs, stand, i + 1, luck);
      } else if !Raises(luck) {
        var next := cs[i := cs[i].(status := Ready)];
        HandOffAllPrefix(next, stand, i + 1, Spent(luck));
        assert HandOffAll(cs, stand, i, luck).canisters[i] == next[..i + 1][i];
        HandOffAllThrough(next, stand, i + 1, Spent(luck));
      }
    }
  }

  lemma HandOffAllFacts(cs: seq<Canister>, stand: string, i: nat, luck: Luck)
    requires i <= |cs|
    ensures var p := HandOffAll(cs, stand, i, luck);
      && SameRows(cs, p.canisters) && Files(p.canisters) == Files(cs) && !p.Remaining?
      && (forall j :: 0 <= j < |cs| ==> p.canisters[j].status == cs[j].status || (cs[j].status.Installed? && p.canisters[j].status.Ready?))
      && (forall j :: 0 <= j < |cs| && !(cs[j].stand == stand && cs[j].status.Installed?) ==> p.canisters[j] == cs[j])
      && (p.Through? ==> forall j :: i <= j < |cs| && cs[j].stand == stand ==> !p.canisters[j].status.Installed?)
      && (luck.None? ==> p.Through?)
  {
    HandOffAllKeeps(cs, stand, i, luck);
    HandOffAllReadies(cs, stand, i, luck);
    HandOffAllThrough(cs, stand, i, luck);
  }

  // ---------- the barrier ----------

  /** A round that finishes, syncs or marks anything already on the chain, or builds a stand. */
  ghost predicate Advances(st: State, t: State) {
    || (exists i :: 0 <= i < |st.canisters| && i < |t.canisters| && !st.canisters[i].status.Created? && t.canisters[i] != st.canisters[i])
    || (exists k :: 0 <= k < |st.stands| && k < |t.stands| && t.stands[k].state.Built? && !st.stands[k].state.Built?)
  }

  lemma OnChainUntouched(before: seq<Canister>, cs: seq<Canister>, i: nat, c: Canister, j: nat)
    requires |before| <= |cs| && cs[..|before|] == before && i < |cs| && cs[i].status.Created?
    requires j < |before| && !before[j].status.Created?
    ensures cs[j] == before[j] && cs[i := c][j] == before[j]
  {
    assert cs[..|before|][j] == before[j];
  }

  /** One round that provisions: a canister that was not on the chain is, or its stand failed. */
  lemma ProvisioningRound(st: State, luck: Luck, resolve: Resolve, cs: seq<Canister>, i: nat)
    requires Unprovisioned(st.stands, st.canisters) == (cs, Some(i)) && i < |cs|
    requires NextUnbuilt(st.stands) < |st.stands| && !st.stands[NextUnbuilt(st.stands)].state.Failed?
    ensures var t := BuildAll(st, luck, resolve).0;
      || (t.stands == st.stands && t.canisters == cs[i := cs[i].(status := Installed)])
      || (t.stands == SetState(st, cs[i].stand, Failed).stands && t.canisters == cs)
    ensures BuildAll(st, luck, resolve).0 == if Raises(luck) then SetState(st.(canisters := cs), cs[i].stand, Failed) else st.(canisters := cs[i := cs[i].(status := Installed)])
  {
  }

  lemma FailingBuildsNone(st: State, name: string)
    ensures var t := SetState(st, name, Failed);
      |t.stands| == |st.stands| && forall k :: 0 <= k < |st.stands| && t.stands[k].state.Built? ==> st.stands[k].state.Built?
  {
  }

  lemma ProvisioningDoesNotAdvance(st: State, luck: Luck, resolve: Resolve, cs: seq<Canister>, i: nat)
    requires Unique(st.canisters) && Unprovisioned(st.stands, st.canisters) == (cs, Some(i))
    requires NextUnbuilt(st.stands) < |st.stands|
    ensures !Advances(st, BuildAll(st, luck, resolve).0)
  {
    if !st.stands[NextUnbuilt(st.stands)].state.Failed? {
      UnprovisionedFacts(st.stands, st.stands, st.canisters);
      ProvisioningRound(st, luck, resolve, cs, i);
      FailingBuildsNone(st, cs[i].stand);
      var t := BuildAll(st, luck, resolve).0;
      forall j | 0 <= j < |st.canisters| && !st.canisters[j].status.Created? ensures t.canisters[j] == st.canisters[j] {
        OnChainUntouched(st.canisters, cs, i, cs[i].(status := Installed), j);
      }
    }
  }

  /** Whatever fails on the way, a round of `up` works on a stand beyond creating its canisters only once
      every canister of every pending stand is on the chain. */
  lemma UpBuildsOnlyPastTheBarrier(st: State, luck: Luck, resolve: Resolve)
    requires Unique(st.canisters)
    ensures Advances(st, BuildAll(st, luck, resolve).0) ==> Barrier(st)
  {
    var k := NextUnbuilt(st.stands);
    if k < |st.stands| {
      UnprovisionedFacts(st.stands, st.stands, st.canisters);
      var (cs, c) := Unprovisioned(st.stands, st.canisters);
      if c.Some? {
        ProvisioningDoesNotAdvance(st, luck, resolve, cs, c.value);
      }
    }
  }

  // ---------- what a built stand guarantees, over any run ----------

  /** Handed off, adopted or stopped: no build has anything left to do with it. */
  predicate Settled(c: Canister) { c.status.Ready? || c.status.Stopped? }

  /** Every row the stand asks for exists, and none that it has is still created or installed. */
  ghost predicate Complete(cs: seq<Canister>, s: Stand) {
    AllNamed(cs, s.specs) && forall c <- cs :: c.stand == s.name ==> Settled(c)
  }

  ghost predicate AllComplete(cs: seq<Canister>, stands: seq<Stand>) {
    forall s <- stands :: s.state.Built? ==> Complete(cs, s)
  }

  ghost predicate Distinct(stands: seq<Stand>) {
    forall i, j :: 0 <= i < j < |stands| ==> stands[i].name != stands[j].name
  }

  ghost predicate Inv(st: State) {
    Unique(st.canisters) && Distinct(st.stands) && AllComplete(st.canisters, st.stands)
  }

  datatype Event =
    | UpRound(luck: Luck)
    | StandRound(k: nat, luck: Luck)              // the `stand` step's own round
    | Retry                                       // `orchestra_up` again: failed stands are pending
    | Grow(k: nat, specs: seq<Spec>)              // a stand asks for more rows and is to be rebuilt
    | NewStand(stand: Stand)
    | Ask(k: nat, specs: seq<Spec>)               // `section_set`: what its template asks for now
    | RenameStand(k: nat, name: string, specs: seq<Spec>)   // `stand_set`: the template's names are read anew
    | DropStand(k: nat)                           // `stand_delete`, `stand_destroy`
    | AddRow(row: Canister)                       // `canister_create`, `canister_register`
    | SetRow(at: nat, row: Canister)              // `canister_set`, and what is done to one canister by itself
    | DropRow(at: nat)                            // `canister_delete`, `canister_destroy`

  ghost predicate Enabled(st: State, e: Event) {
    match e
    case StandRound(k, _) => k < |st.stands|
    case Grow(k, _) => k < |st.stands|
    case NewStand(s) => s.state.Pending? && forall x <- st.stands :: x.name != s.name
    case Ask(k, _) => k < |st.stands|
    case RenameStand(k, name, _) => k < |st.stands| && (forall x <- st.stands :: x.name != name) && forall c <- st.canisters :: c.stand != name
    case DropStand(k) => k < |st.stands|
    case AddRow(c) => !Named(st.canisters, c.name)
    case SetRow(i, c) => i < |st.canisters| && (c.name == st.canisters[i].name || !Named(st.canisters, c.name))
    case DropRow(i) => i < |st.canisters|
    case _ => true
  }

  function Retried(stands: seq<Stand>): seq<Stand> {
    seq(|stands|, i requires 0 <= i < |stands| => if stands[i].state.Failed? then stands[i].(state := Pending) else stands[i])
  }

  function Rehomed(cs: seq<Canister>, from: string, to: string): seq<Canister> {
    seq(|cs|, i requires 0 <= i < |cs| => if cs[i].stand == from then cs[i].(stand := to) else cs[i])
  }

  function Evicted(cs: seq<Canister>, stand: string): seq<Canister> {
    if cs == [] then []
    else if cs[0].stand == stand then Evicted(cs[1..], stand)
    else [cs[0]] + Evicted(cs[1..], stand)
  }

  function Apply(st: State, e: Event, resolve: Resolve): State
    requires Enabled(st, e)
  {
    match e
    case UpRound(luck) => BuildAll(st, luck, resolve).0
    case StandRound(k, luck) => StandStep(st, k, luck, resolve)
    case Retry => st.(stands := Retried(st.stands))
    case Grow(k, specs) => st.(stands := st.stands[k := st.stands[k].(specs := specs, state := Pending)])
    case NewStand(s) => st.(stands := st.stands + [s])
    case Ask(k, specs) => st.(stands := st.stands[k := st.stands[k].(specs := specs)])
    case RenameStand(k, name, specs) =>
      st.(stands := st.stands[k := st.stands[k].(name := name, specs := specs)], canisters := Rehomed(st.canisters, st.stands[k].name, name))
    case DropStand(k) => st.(stands := st.stands[..k] + st.stands[k + 1..], canisters := Evicted(st.canisters, st.stands[k].name))
    case AddRow(c) => st.(canisters := st.canisters + [c])
    case SetRow(i, c) => st.(canisters := st.canisters[i := c])
    case DropRow(i) => st.(canisters := st.canisters[..i] + st.canisters[i + 1..])
  }

  function StandStep(st: State, k: nat, luck: Luck, resolve: Resolve): State
    requires k < |st.stands|
  {
    var (t, out) := Build(st, k, luck, resolve);
    if out.Raise? then SetState(t, st.stands[k].name, Failed) else t
  }

  ghost predicate IsBuilt(stands: seq<Stand>, name: string) {
    exists s <- stands :: s.name == name && s.state.Built?
  }

  /** A built stand whose template asks for a row of this name. */
  ghost predicate IsAsked(stands: seq<Stand>, name: string) {
    exists s <- stands :: s.state.Built? && HasSpec(s.specs, name)
  }

  /** What an operation has to leave alone for built stands to stay complete. */
  ghost predicate Spares(st: State, e: Event)
    requires Enabled(st, e)
  {
    match e
    case Ask(k, specs) => st.stands[k].state.Built? ==> AllNamed(st.canisters, specs)
    case RenameStand(k, _, specs) => st.stands[k].state.Built? ==> AllNamed(st.canisters, specs)
    case DropStand(k) => forall c <- st.canisters :: c.stand == st.stands[k].name ==> !IsAsked(st.stands[..k] + st.stands[k + 1..], c.name)
    case AddRow(c) => IsBuilt(st.stands, c.stand) ==> Settled(c)
    case SetRow(i, c) =>
      && (IsBuilt(st.stands, c.stand) ==> Settled(c))
      && (c.name != st.canisters[i].name ==> !IsAsked(st.stands, st.canisters[i].name))
    case DropRow(i) => !IsAsked(st.stands, st.canisters[i].name)
    case _ => true
  }

  ghost predicate Valid(st: State, es: seq<Event>, resolve: Resolve)
    decreases |es|
  {
    es == [] || (Enabled(st, es[0]) && Spares(st, es[0]) && Valid(Apply(st, es[0], resolve), es[1..], resolve))
  }

  function After(st: State, es: seq<Event>, resolve: Resolve): State
    requires Valid(st, es, resolve)
    decreases |es|
  {
    if es == [] then st else After(Apply(st, es[0], resolve), es[1..], resolve)
  }

  // ---------- rounds ----------

  /** A stand stays complete while rows are only appended to other stands, or moved on within others. */
  lemma StaysComplete(cs: seq<Canister>, ds: seq<Canister>, s: Stand)
    requires Complete(cs, s) && |cs| <= |ds|
    requires forall i :: 0 <= i < |cs| ==> ds[i].name == cs[i].name && ds[i].stand == cs[i].stand
    requires forall i :: 0 <= i < |cs| && cs[i].stand == s.name ==> ds[i].status == cs[i].status
    requires forall i :: |cs| <= i < |ds| ==> ds[i].stand != s.name
    ensures Complete(ds, s)
  {
    forall spec <- s.specs
      ensures Named(ds, spec.name)
    {
      var i :| 0 <= i < |cs| && cs[i].name == spec.name;
      assert ds[i] in ds;
    }
    forall c <- ds | c.stand == s.name
      ensures Settled(c)
    {
      var i :| 0 <= i < |ds| && ds[i] == c;
      assert cs[i] in cs;
    }
  }

  lemma SetStateKeeps(st: State, name: string, state: StandState)
    requires Inv(st) && !state.Built?
    ensures Inv(SetState(st, name, state))
  {
  }

  lemma OthersStayComplete(st: State, cs: seq<Canister>, name: string)
    requires Inv(st) && |st.canisters| <= |cs|
    requires forall i :: 0 <= i < |st.canisters| ==> cs[i].name == st.canisters[i].name && cs[i].stand == st.canisters[i].stand
    requires forall i :: 0 <= i < |st.canisters| && cs[i].stand != name ==> cs[i].status == st.canisters[i].status
    requires forall i :: |st.canisters| <= i < |cs| ==> cs[i].stand == name
    ensures forall s <- st.stands :: s.state.Built? && s.name != name ==> Complete(cs, s)
  {
    forall s <- st.stands | s.state.Built? && s.name != name
      ensures Complete(cs, s)
    {
      StaysComplete(st.canisters, cs, s);
    }
  }

  lemma UniqueRows(cs: seq<Canister>, ds: seq<Canister>)
    requires Unique(cs) && |cs| == |ds| && forall i :: 0 <= i < |cs| ==> ds[i].name == cs[i].name
    ensures Unique(ds)
  {
  }

  /** Row by row, what a build does: it moves on only rows of its stand, and leaves none of them unfinished
      when it goes through. */
  lemma BuildMovesOn(cs: seq<Canister>, stand: string, luck: Luck)
    ensures var (r, out) := BuildCanisters(cs, stand, luck);
      && |r| == |cs|
      && (forall i :: 0 <= i < |cs| ==> r[i].name == cs[i].name && r[i].stand == cs[i].stand)
      && (forall i :: 0 <= i < |cs| && cs[i].stand != stand ==> r[i].status == cs[i].status)
      && (forall i :: 0 <= i < |cs| && Settled(cs[i]) ==> r[i].status == cs[i].status)
      && (out.Finished? ==> forall i :: 0 <= i < |cs| && cs[i].stand == stand ==> Settled(r[i]))
  {
    if FirstCreated(cs, stand, 0) == |cs| {
      SyncAllFacts(cs, stand, 0, luck);
      var p := SyncAll(cs, stand, 0, luck);
      if p.Through? { HandOffAllFacts(p.canisters, stand, 0, p.luck); }
    }
  }

  lemma BuildRows(st: State, k: nat, luck: Luck, resolve: Resolve)
    requires k < |st.stands|
    ensures var s, t := st.stands[k], Build(st, k, luck, resolve).0; var cs := AddMembers(st.canisters, s.name, s.specs);
      && |t.canisters| == |cs| && |st.canisters| <= |cs| && cs[..|st.canisters|] == st.canisters
      && (forall i :: 0 <= i < |cs| ==> t.canisters[i].name == cs[i].name && t.canisters[i].stand == cs[i].stand)
      && (forall i :: 0 <= i < |cs| && cs[i].stand != s.name ==> t.canisters[i].status == cs[i].status)
      && (forall i :: 0 <= i < |cs| && Settled(cs[i]) ==> t.canisters[i].status == cs[i].status)
      && (forall i :: |st.canisters| <= i < |cs| ==> cs[i].stand == s.name)
      && (Build(st, k, luck, resolve).1.Finished? ==> forall i :: 0 <= i < |cs| && cs[i].stand == s.name ==> Settled(t.canisters[i]))
  {
    var s := st.stands[k];
    AddMembersAppends(st.canisters, s.name, s.specs);
    BuildMovesOn(AddMembers(st.canisters, s.name, s.specs), s.name, luck);
  }

  lemma NamedStill(cs: seq<Canister>, ds: seq<Canister>, specs: seq<Spec>)
    requires AllNamed(cs, specs) && |cs| == |ds| && forall i :: 0 <= i < |cs| ==> ds[i].name == cs[i].name
    ensures AllNamed(ds, specs)
  {
    forall spec <- specs
      ensures Named(ds, spec.name)
    {
      var i :| 0 <= i < |cs| && cs[i].name == spec.name;
      assert ds[i] in ds;
    }
  }

  /** A build leaves the other stands alone and is idle on a stand that is complete; one that goes through
      leaves its stand complete. */
  lemma BuildCompletes(st: State, k: nat, luck: Luck, resolve: Resolve)
    requires Unique(st.canisters) && k < |st.stands|
    requires Build(st, k, luck, resolve).1.Finished? || Complete(st.canisters, st.stands[k])
    ensures Complete(Build(st, k, luck, resolve).0.canisters, st.stands[k])
  {
    var s, t := st.stands[k], Build(st, k, luck, resolve).0;
    var cs := AddMembers(st.canisters, s.name, s.specs);
    BuildRows(st, k, luck, resolve);
    AddMembersFacts(st.canisters, s.name, s.specs);
    NamedStill(cs, t.canisters, s.specs);
    if Complete(st.canisters, s) {
      AddMembersIdle(st.canisters, s.name, s.specs);
      assert forall i :: 0 <= i < |cs| ==> cs[i] in st.canisters;
    }
    forall c <- t.canisters | c.stand == s.name
      ensures Settled(c)
    {
      var i :| 0 <= i < |cs| && t.canisters[i] == c;
    }
  }

  /** Marking a stand that is complete keeps the others as they are. */
  lemma MarkKeeps(cs: seq<Canister>, stands: seq<Stand>, k: nat, state: StandState)
    requires Distinct(stands) && k < |stands| && (state.Built? ==> Complete(cs, stands[k]))
    requires forall s <- stands :: s.state.Built? && s.name != stands[k].name ==> Complete(cs, s)
    ensures Distinct(stands[k := stands[k].(state := state)]) && AllComplete(cs, stands[k := stands[k].(state := state)])
  {
    var after := stands[k := stands[k].(state := state)];
    forall s <- after | s.state.Built? ensures Complete(cs, s) {
      var j :| 0 <= j < |after| && after[j] == s;
      if j != k { assert stands[j] in stands; }
    }
  }

  lemma BuildStands(st: State, k: nat, luck: Luck, resolve: Resolve)
    requires k < |st.stands|
    ensures var (t, out) := Build(st, k, luck, resolve);
      t.stands == if out.Finished? then st.stands[k := st.stands[k].(state := Built)] else st.stands
  {
  }

  lemma BuildKeepsRows(st: State, k: nat, luck: Luck, resolve: Resolve)
    requires Inv(st) && k < |st.stands|
    ensures Unique(Build(st, k, luck, resolve).0.canisters)
    ensures var t := Build(st, k, luck, resolve).0;
      forall s <- st.stands :: s.state.Built? && s.name != st.stands[k].name ==> Complete(t.canisters, s)
  {
    var s, t := st.stands[k], Build(st, k, luck, resolve).0;
    var cs := AddMembers(st.canisters, s.name, s.specs);
    BuildRows(st, k, luck, resolve);
    AddMembersFacts(st.canisters, s.name, s.specs);
    UniqueRows(cs, t.canisters);
    forall i | 0 <= i < |st.canisters| ensures cs[i] == st.canisters[i] { assert cs[..|st.canisters|][i] == cs[i]; }
    OthersStayComplete(st, t.canisters, s.name);
  }

  lemma BuildKeeps(st: State, k: nat, luck: Luck, resolve: Resolve)
    requires Inv(st) && k < |st.stands|
    ensures Inv(Build(st, k, luck, resolve).0)
  {
    var s, finished := st.stands[k], Build(st, k, luck, resolve).1.Finished?;
    assert s in st.stands;
    BuildStands(st, k, luck, resolve);
    BuildKeepsRows(st, k, luck, resolve);
    if finished || s.state.Built? { BuildCompletes(st, k, luck, resolve); }
    MarkKeeps(Build(st, k, luck, resolve).0.canisters, st.stands, k, if finished then Built else s.state);
    assert st.stands[k := s.(state := s.state)] == st.stands;
  }

  lemma AppendedArePending(st: State, cs: seq<Canister>, j: nat)
    requires Unique(st.canisters) && cs == Unprovisioned(st.stands, st.canisters).0 && |st.canisters| <= j < |cs|
    ensures IsPending(st.stands, cs[j].stand)
  {
    UnprovisionedFacts(st.stands, st.stands, st.canisters);
    assert cs[|st.canisters|..][j - |st.canisters|] == cs[j];
  }

  lemma PendingIsNotBuilt(stands: seq<Stand>, s: Stand)
    requires Distinct(stands) && s in stands && s.state.Built?
    ensures !IsPending(stands, s.name)
  {
  }

  lemma ProvisionSpares(st: State, cs: seq<Canister>, i: nat, s: Stand)
    requires Inv(st) && Unprovisioned(st.stands, st.canisters) == (cs, Some(i)) && s in st.stands && s.state.Built?
    ensures i < |cs| && Complete(cs, s) && Complete(cs[i := cs[i].(status := Installed)], s)
  {
    UnprovisionedFacts(st.stands, st.stands, st.canisters);
    PendingIsNotBuilt(st.stands, s);
    forall j | 0 <= j < |st.canisters| ensures cs[j] == st.canisters[j] { assert cs[..|st.canisters|][j] == cs[j]; }
    forall j | |st.canisters| <= j < |cs| ensures cs[j].stand != s.name { AppendedArePending(st, cs, j); }
    StaysComplete(st.canisters, cs, s);
    StaysComplete(cs, cs[i := cs[i].(status := Installed)], s);
  }

  lemma ProvisionKeeps(st: State, cs: seq<Canister>, i: nat)
    requires Inv(st) && Unprovisioned(st.stands, st.canisters) == (cs, Some(i))
    ensures i < |cs| && Inv(st.(canisters := cs)) && Inv(st.(canisters := cs[i := cs[i].(status := Installed)]))
  {
    UnprovisionedFacts(st.stands, st.stands, st.canisters);
    UniqueRows(cs, cs[i := cs[i].(status := Installed)]);
    forall s <- st.stands | s.state.Built? { ProvisionSpares(st, cs, i, s); }
  }

  /** What is left of the invariant when only what the stands do not see changes. */
  lemma SameForStands(st: State, t: State)
    requires Inv(st) && t.stands == st.stands && t.canisters == st.canisters
    ensures Inv(t)
  {
  }

  lemma UpBuildKeeps(st: State, k: nat, luck: Luck, resolve: Resolve)
    requires Inv(st) && k < |st.stands|
    ensures var (t, out) := Build(st, k, luck, resolve); Inv(if out.Raise? then UpFailed(t) else t)
  {
    var (t, out) := Build(st, k, luck, resolve);
    BuildKeeps(st, k, luck, resolve);
    var p := FirstPending(t.stands);
    if p < |t.stands| { MarkKeeps(t.canisters, t.stands, p, Failed); }
  }

  lemma BuildingRound(st: State, luck: Luck, resolve: Resolve)
    requires NextUnbuilt(st.stands) < |st.stands| && !st.stands[NextUnbuilt(st.stands)].state.Failed?
    requires Unprovisioned(st.stands, st.canisters) == (st.canisters, None)
    ensures var (t, out) := Build(st, NextUnbuilt(st.stands), luck, resolve);
      BuildAll(st, luck, resolve).0 == if out.Raise? then UpFailed(t) else t
  {
    assert st.(canisters := st.canisters) == st;
  }

  lemma MovingRound(st: State, luck: Luck, resolve: Resolve)
    requires NextUnbuilt(st.stands) == |st.stands| || st.stands[NextUnbuilt(st.stands)].state.Failed?
    ensures var t := BuildAll(st, luck, resolve).0; t.stands == st.stands && t.canisters == st.canisters
  {
  }

  lemma UpRoundKeeps(st: State, luck: Luck, resolve: Resolve)
    requires Inv(st)
    ensures Inv(BuildAll(st, luck, resolve).0)
  {
    var k := NextUnbuilt(st.stands);
    if k == |st.stands| || st.stands[k].state.Failed? {
      MovingRound(st, luck, resolve);
      SameForStands(st, BuildAll(st, luck, resolve).0);
    } else {
      UnprovisionedFacts(st.stands, st.stands, st.canisters);
      var (cs, c) := Unprovisioned(st.stands, st.canisters);
      if c.Some? {
        ProvisioningRound(st, luck, resolve, cs, c.value);
        ProvisionKeeps(st, cs, c.value);
        SetStateKeeps(st.(canisters := cs), cs[c.value].stand, Failed);
      } else {
        BuildingRound(st, luck, resolve);
        UpBuildKeeps(st, k, luck, resolve);
      }
    }
  }

  // ---------- what is done to stands and canisters one by one ----------

  lemma AskKeepsIff(cs: seq<Canister>, stands: seq<Stand>, k: nat, specs: seq<Spec>)
    requires Distinct(stands) && AllComplete(cs, stands) && k < |stands|
    ensures var after := stands[k := stands[k].(specs := specs)];
      Distinct(after) && (AllComplete(cs, after) <==> (stands[k].state.Built? ==> AllNamed(cs, specs)))
  {
    var after := stands[k := stands[k].(specs := specs)];
    assert after[k] in after && stands[k] in stands;
    forall s <- after | s != after[k] ensures s in stands { var j :| 0 <= j < |after| && after[j] == s; }
  }

  lemma RehomedNames(cs: seq<Canister>, from: string, to: string, specs: seq<Spec>)
    ensures AllNamed(Rehomed(cs, from, to), specs) <==> AllNamed(cs, specs)
  {
    var ds := Rehomed(cs, from, to);
    if AllNamed(cs, specs) { NamedStill(cs, ds, specs); }
    if AllNamed(ds, specs) { NamedStill(ds, cs, specs); }
  }

  lemma RehomedSettles(cs: seq<Canister>, from: string, to: string, s: Stand, now: string)
    requires forall c <- cs :: c.stand != to
    requires now == if s.name == from then to else s.name
    requires s.name != to
    ensures Complete(Rehomed(cs, from, to), s.(name := now)) <==> Complete(cs, s)
  {
    var ds := Rehomed(cs, from, to);
    RehomedNames(cs, from, to, s.specs);
    forall i | 0 <= i < |cs| ensures ds[i].stand == now <==> cs[i].stand == s.name { assert cs[i] in cs; }
    if Complete(cs, s) {
      forall c <- ds | c.stand == now ensures Settled(c) { var i :| 0 <= i < |ds| && ds[i] == c; assert cs[i] in cs; }
    }
    if Complete(ds, s.(name := now)) {
      forall c <- cs | c.stand == s.name ensures Settled(c) { var i :| 0 <= i < |cs| && cs[i] == c; assert ds[i] in ds; }
    }
  }

  lemma RenameOne(cs: seq<Canister>, stands: seq<Stand>, k: nat, name: string, j: nat)
    requires Distinct(stands) && k < |stands| && j < |stands|
    requires (forall x <- stands :: x.name != name) && forall c <- cs :: c.stand != name
    ensures var after := stands[k := stands[k].(name := name)]; var ds := Rehomed(cs, stands[k].name, name);
      Complete(ds, after[j]) <==> Complete(cs, stands[j])
  {
    assert stands[j] in stands;
    RehomedSettles(cs, stands[k].name, name, stands[j], if j == k then name else stands[j].name);
    assert stands[j].(name := stands[j].name) == stands[j];
  }

  lemma RenameKeeps(cs: seq<Canister>, stands: seq<Stand>, k: nat, name: string)
    requires Unique(cs) && Distinct(stands) && AllComplete(cs, stands) && k < |stands|
    requires (forall x <- stands :: x.name != name) && forall c <- cs :: c.stand != name
    ensures var after := stands[k := stands[k].(name := name)]; var ds := Rehomed(cs, stands[k].name, name);
      Unique(ds) && Distinct(after) && AllComplete(ds, after)
  {
    var after, ds := stands[k := stands[k].(name := name)], Rehomed(cs, stands[k].name, name);
    UniqueRows(cs, ds);
    assert Distinct(after) by { assert forall j :: 0 <= j < |stands| ==> stands[j] in stands; }
    forall s <- after | s.state.Built? ensures Complete(ds, s) {
      var j :| 0 <= j < |after| && after[j] == s;
      assert stands[j] in stands;
      RenameOne(cs, stands, k, name, j);
    }
  }

  lemma RenameKeepsIff(cs: seq<Canister>, stands: seq<Stand>, k: nat, name: string, specs: seq<Spec>)
    requires Unique(cs) && Distinct(stands) && AllComplete(cs, stands) && k < |stands|
    requires (forall x <- stands :: x.name != name) && forall c <- cs :: c.stand != name
    ensures var after := stands[k := stands[k].(name := name, specs := specs)]; var ds := Rehomed(cs, stands[k].name, name);
      Unique(ds) && Distinct(after) && (AllComplete(ds, after) <==> (stands[k].state.Built? ==> AllNamed(cs, specs)))
  {
    var renamed, ds := stands[k := stands[k].(name := name)], Rehomed(cs, stands[k].name, name);
    RenameKeeps(cs, stands, k, name);
    AskKeepsIff(ds, renamed, k, specs);
    RehomedNames(cs, stands[k].name, name, specs);
    assert renamed[k := renamed[k].(specs := specs)] == stands[k := stands[k].(name := name, specs := specs)];
  }

  /** A row more, of a name that is new. */
  lemma AddRowKeepsIff(cs: seq<Canister>, stands: seq<Stand>, c: Canister)
    requires Unique(cs) && AllComplete(cs, stands) && !Named(cs, c.name)
    ensures Unique(cs + [c])
    ensures AllComplete(cs + [c], stands) <==> (IsBuilt(stands, c.stand) ==> Settled(c))
  {
    var ds := cs + [c];
    assert forall i :: 0 <= i < |cs| ==> cs[i] in cs && cs[i].name != c.name;
    assert c in ds && forall x :: x in ds <==> x in cs || x == c;
    forall s <- stands | s.state.Built? ensures AllNamed(ds, s.specs) {}
  }

  lemma NoLongerNamed(ds: seq<Canister>, stands: seq<Stand>, name: string)
    requires AllComplete(ds, stands) && !Named(ds, name)
    ensures !IsAsked(stands, name)
  {
  }

  /** Rows that only lose names nobody asks for, and gain nothing unfinished of a built stand. */
  lemma FewerNamesKeep(cs: seq<Canister>, ds: seq<Canister>, stands: seq<Stand>)
    requires AllComplete(cs, stands)
    requires forall c <- ds :: c in cs || (IsBuilt(stands, c.stand) ==> Settled(c))
    requires forall c <- cs :: Named(ds, c.name) || !IsAsked(stands, c.name)
    ensures AllComplete(ds, stands)
  {
    forall s <- stands | s.state.Built? ensures Complete(ds, s) {
      forall spec <- s.specs ensures Named(ds, spec.name) {
        var c :| c in cs && c.name == spec.name;
        assert HasSpec(s.specs, c.name);
      }
      assert forall c <- ds :: c.stand == s.name ==> IsBuilt(stands, c.stand);
    }
  }

  lemma SetRowUnique(cs: seq<Canister>, i: nat, c: Canister)
    requires Unique(cs) && i < |cs| && (c.name == cs[i].name || !Named(cs, c.name))
    ensures Unique(cs[i := c]) && (c.name != cs[i].name ==> !Named(cs[i := c], cs[i].name))
  {
    assert forall j :: 0 <= j < |cs| ==> cs[j] in cs;
    forall x <- cs[i := c] | x.name == cs[i].name ensures c.name == cs[i].name { var j :| 0 <= j < |cs| && cs[i := c][j] == x; }
  }

  lemma UnsettledBreaks(cs: seq<Canister>, stands: seq<Stand>, c: Canister)
    requires AllComplete(cs, stands) && c in cs && IsBuilt(stands, c.stand)
    ensures Settled(c)
  {
  }

  lemma SetRowKeepsIff(cs: seq<Canister>, stands: seq<Stand>, i: nat, c: Canister)
    requires Unique(cs) && AllComplete(cs, stands) && i < |cs| && (c.name == cs[i].name || !Named(cs, c.name))
    ensures Unique(cs[i := c])
    ensures AllComplete(cs[i := c], stands) <==>
      (IsBuilt(stands, c.stand) ==> Settled(c)) && (c.name != cs[i].name ==> !IsAsked(stands, cs[i].name))
  {
    var ds := cs[i := c];
    SetRowUnique(cs, i, c);
    assert ds[i] in ds;
    if AllComplete(ds, stands) {
      if IsBuilt(stands, c.stand) { UnsettledBreaks(ds, stands, c); }
      if c.name != cs[i].name { NoLongerNamed(ds, stands, cs[i].name); }
    }
    if (IsBuilt(stands, c.stand) ==> Settled(c)) && (c.name != cs[i].name ==> !IsAsked(stands, cs[i].name)) {
      forall x <- ds ensures x in cs || x == c { var j :| 0 <= j < |ds| && ds[j] == x; }
      forall x <- cs ensures Named(ds, x.name) || !IsAsked(stands, x.name) {
        var j :| 0 <= j < |cs| && cs[j] == x;
        assert ds[j] in ds;
      }
      FewerNamesKeep(cs, ds, stands);
    }
  }

  lemma DropRowUnique(cs: seq<Canister>, i: nat)
    requires Unique(cs) && i < |cs|
    ensures var ds := cs[..i] + cs[i + 1..]; Unique(ds) && !Named(ds, cs[i].name) && forall x <- cs :: x == cs[i] || x in ds
  {
    var ds := cs[..i] + cs[i + 1..];
    forall x <- cs ensures x == cs[i] || x in ds {
      var j :| 0 <= j < |cs| && cs[j] == x;
      if j < i { assert ds[j] == x; } else if j > i { assert ds[j - 1] == x; }
    }
    forall x <- ds ensures x.name != cs[i].name {
      var j :| 0 <= j < |ds| && ds[j] == x;
      assert x == cs[if j < i then j else j + 1];
    }
  }

  lemma DropRowKeepsIff(cs: seq<Canister>, stands: seq<Stand>, i: nat)
    requires Unique(cs) && AllComplete(cs, stands) && i < |cs|
    ensures var ds := cs[..i] + cs[i + 1..]; Unique(ds) && (AllComplete(ds, stands) <==> !IsAsked(stands, cs[i].name))
  {
    var ds := cs[..i] + cs[i + 1..];
    DropRowUnique(cs, i);
    if AllComplete(ds, stands) { NoLongerNamed(ds, stands, cs[i].name); }
    if !IsAsked(stands, cs[i].name) {
      forall x <- ds ensures x in cs {}
      forall x <- cs | x in ds ensures Named(ds, x.name) {}
      FewerNamesKeep(cs, ds, stands);
    }
  }

  lemma {:induction false} EvictedRows(cs: seq<Canister>, stand: string)
    requires Unique(cs)
    ensures forall c :: c in Evicted(cs, stand) <==> c in cs && c.stand != stand
    ensures Unique(Evicted(cs, stand))
  {
    if cs != [] {
      assert Unique(cs[1..]);
      EvictedRows(cs[1..], stand);
      assert forall c <- cs :: c == cs[0] || c in cs[1..];
      forall c <- Evicted(cs[1..], stand) ensures c.name != cs[0].name { assert c in cs[1..]; }
    }
  }

  lemma EvictedName(cs: seq<Canister>, stand: string, c: Canister)
    requires Unique(cs) && c in cs
    ensures Named(Evicted(cs, stand), c.name) <==> c.stand != stand
  {
    EvictedRows(cs, stand);
    if Named(Evicted(cs, stand), c.name) {
      var x :| x in Evicted(cs, stand) && x.name == c.name;
      var i :| 0 <= i < |cs| && cs[i] == x;
      var j :| 0 <= j < |cs| && cs[j] == c;
      assert i == j;
    }
  }

  lemma DropStandKeepsIff(cs: seq<Canister>, stands: seq<Stand>, k: nat)
    requires Unique(cs) && Distinct(stands) && AllComplete(cs, stands) && k < |stands|
    ensures var others, ds := stands[..k] + stands[k + 1..], Evicted(cs, stands[k].name);
      && Unique(ds) && Distinct(others)
      && (AllComplete(ds, others) <==> forall c <- cs :: c.stand == stands[k].name ==> !IsAsked(others, c.name))
  {
    var others, ds := stands[..k] + stands[k + 1..], Evicted(cs, stands[k].name);
    EvictedRows(cs, stands[k].name);
    assert AllComplete(cs, others);
    forall c <- cs ensures Named(ds, c.name) <==> c.stand != stands[k].name { EvictedName(cs, stands[k].name, c); }
    if AllComplete(ds, others) {
      forall c <- cs | c.stand == stands[k].name ensures !IsAsked(others, c.name) { NoLongerNamed(ds, others, c.name); }
    }
    if forall c <- cs :: c.stand == stands[k].name ==> !IsAsked(others, c.name) { FewerNamesKeep(cs, ds, others); }
  }

  lemma RetryKeeps(st: State)
    requires Inv(st)
    ensures Inv(st.(stands := Retried(st.stands)))
  {
    var after := Retried(st.stands);
    forall s <- after | s.state.Built? ensures s in st.stands { var j :| 0 <= j < |after| && after[j] == s; }
  }

  lemma NewStandKeeps(st: State, s: Stand)
    requires Inv(st) && s.state.Pending? && forall x <- st.stands :: x.name != s.name
    ensures Inv(st.(stands := st.stands + [s]))
  {
    assert forall j :: 0 <= j < |st.stands| ==> st.stands[j] in st.stands;
  }

  lemma GrowKeeps(st: State, k: nat, specs: seq<Spec>)
    requires Inv(st) && k < |st.stands|
    ensures Inv(st.(stands := st.stands[k := st.stands[k].(specs := specs, state := Pending)]))
  {
    var s := st.stands[k];
    MarkKeeps(st.canisters, st.stands, k, Pending);
    var paused := st.stands[k := s.(state := Pending)];
    AskKeepsIff(st.canisters, paused, k, specs);
    assert paused[k := paused[k].(specs := specs)] == st.stands[k := s.(specs := specs, state := Pending)];
  }

  lemma StandStepKeeps(st: State, k: nat, luck: Luck, resolve: Resolve)
    requires Inv(st) && k < |st.stands|
    ensures Inv(StandStep(st, k, luck, resolve))
  {
    BuildKeeps(st, k, luck, resolve);
    SetStateKeeps(Build(st, k, luck, resolve).0, st.stands[k].name, Failed);
  }

  /** Rounds, failures, retries and growth always keep that built stands are complete; an operation on a template, a
      stand or a canister keeps it if and only if it spares what built stands ask for and have. */
  lemma StepKeepsInvIff(st: State, e: Event, resolve: Resolve)
    requires Inv(st) && Enabled(st, e)
    ensures Inv(Apply(st, e, resolve)) <==> Spares(st, e)
  {
    match e
    case UpRound(luck) => UpRoundKeeps(st, luck, resolve);
    case StandRound(k, luck) => StandStepKeeps(st, k, luck, resolve);
    case Retry => RetryKeeps(st);
    case Grow(k, specs) => GrowKeeps(st, k, specs);
    case NewStand(s) => NewStandKeeps(st, s);
    case Ask(k, specs) => AskKeepsIff(st.canisters, st.stands, k, specs);
    case RenameStand(k, name, specs) => RenameKeepsIff(st.canisters, st.stands, k, name, specs);
    case DropStand(k) => DropStandKeepsIff(st.canisters, st.stands, k);
    case AddRow(c) => AddRowKeepsIff(st.canisters, st.stands, c);
    case SetRow(i, c) => SetRowKeepsIff(st.canisters, st.stands, i, c);
    case DropRow(i) => DropRowKeepsIff(st.canisters, st.stands, i);
  }

  /** A built stand whose section's template comes to ask for a row: it stays built, without the row. */
  lemma TemplateEditIsNotBuilt(spec: Spec, resolve: Resolve)
    ensures var st := State([Stand("a", Built, [], [])], [], [], 1, 0, true); var t := Apply(st, Ask(0, [spec]), resolve);
      Inv(st) && t.stands[0].state.Built? && !Complete(t.canisters, t.stands[0]) && !Inv(t)
  {
    var st := State([Stand("a", Built, [], [])], [], [], 1, 0, true);
    assert spec in [spec] && !AllNamed([], [spec]);
    StepKeepsInvIff(st, Ask(0, [spec]), resolve);
  }

  /** In every run of rounds, failures, retries, new or grown stands, and operations that spare the built ones, a stand
      marked built has every row it asks for and none of its canisters is still created or installed. */
  lemma {:induction false} BuiltMeansReady(st: State, es: seq<Event>, resolve: Resolve)
    requires Inv(st) && Valid(st, es, resolve)
    ensures Inv(After(st, es, resolve))
    ensures forall s <- After(st, es, resolve).stands :: s.state.Built? ==> Complete(After(st, es, resolve).canisters, s)
    decreases |es|
  {
    if es != [] {
      StepKeepsInvIff(st, es[0], resolve);
      BuiltMeansReady(Apply(st, es[0], resolve), es[1..], resolve);
    }
  }
}
