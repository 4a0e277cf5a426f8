/** What a round of a build leaves, row by row: which canisters it creates rows for, which one it provisions, whose files
    it writes and how many, whom it hands off, and what it leaves when a call raises. */
module BuildRows {
  import opened Options
  import opened Filters
  import opened Up

  // ---------- the rows a template asks for ----------

  /** A row asked for at this place of the template, and neither there nor asked for earlier. */
  predicate IsNew(cs: seq<Canister>, specs: seq<Spec>, k: nat)
    requires k < |specs|
  {
    (forall c <- cs :: c.name != specs[k].name) && forall j :: 0 <= j < k ==> specs[j].name != specs[k].name
  }

  /** A row as the template asks for it. */
  function RowFor(stand: string, spec: Spec): Canister {
    Canister(spec.name, stand, Created, spec.content, spec.files)
  }

  /** The rows added: one for every new name, in the template's order, as it asks for them. */
  ghost predicate AreAdded(added: seq<Canister>, cs: seq<Canister>, stand: string, specs: seq<Spec>, ks: seq<nat>) {
    && Increasing(ks) && (forall i :: 0 <= i < |ks| ==> ks[i] < |specs| && IsNew(cs, specs, ks[i]))
    && (forall k :: 0 <= k < |specs| && IsNew(cs, specs, k) ==> k in ks)
    && Stands(added, specs, (spec: Spec) => RowFor(stand, spec), ks)
  }

  lemma NewAfterNamed(cs: seq<Canister>, specs: seq<Spec>, k: nat)
    requires specs != [] && k < |specs| - 1
    requires exists c <- cs :: c.name == specs[0].name
    ensures IsNew(cs, specs[1..], k) <==> IsNew(cs, specs, k + 1)
  {
    var rest := specs[1..];
    assert rest[k] == specs[k + 1] && forall j :: 0 <= j < k ==> rest[j] == specs[j + 1];
    if IsNew(cs, rest, k) {
      forall j | 0 <= j < k + 1 ensures specs[j].name != specs[k + 1].name { if j > 0 { assert rest[j - 1] == specs[j]; } }
    }
  }

  lemma NewAfterAdded(cs: seq<Canister>, c: Canister, specs: seq<Spec>, k: nat)
    requires specs != [] && k < |specs| - 1 && c.name == specs[0].name
    ensures IsNew(cs + [c], specs[1..], k) <==> IsNew(cs, specs, k + 1)
  {
    var rest := specs[1..];
    assert rest[k] == specs[k + 1] && forall j :: 0 <= j < k ==> rest[j] == specs[j + 1];
    assert c in cs + [c] && forall x <- cs :: x in cs + [c];
    if IsNew(cs + [c], rest, k) {
      forall j | 0 <= j < k + 1 ensures specs[j].name != specs[k + 1].name { if j > 0 { assert rest[j - 1] == specs[j]; } }
    }
  }

  lemma PlacesNext(cs: seq<Canister>, now: seq<Canister>, specs: seq<Spec>, ks: seq<nat>, first: bool)
    requires specs != [] && first == IsNew(cs, specs, 0)
    requires forall k: nat :: k < |specs| - 1 ==> (IsNew(now, specs[1..], k) <==> IsNew(cs, specs, k + 1))
    requires forall i :: 0 <= i < |ks| ==> ks[i] < |specs| - 1 && IsNew(now, specs[1..], ks[i])
    ensures var all := Extended(ks, first); forall i :: 0 <= i < |all| ==> all[i] < |specs| && IsNew(cs, specs, all[i])
  {
    var all := Extended(ks, first);
    forall i | 0 <= i < |all| ensures all[i] < |specs| && IsNew(cs, specs, all[i]) {
      var j := if first then i - 1 else i;
      if j >= 0 { ExtendedAt(specs, ks, first, j); }
    }
  }

  lemma NoPlaceMissed(cs: seq<Canister>, now: seq<Canister>, specs: seq<Spec>, ks: seq<nat>, first: bool, k: nat)
    requires specs != [] && first == IsNew(cs, specs, 0) && k < |specs| && IsNew(cs, specs, k) && Increasing(ks)
    requires k > 0 ==> IsNew(now, specs[1..], k - 1)
    requires forall k: nat :: k < |specs| - 1 && IsNew(now, specs[1..], k) ==> k in ks
    ensures k in Extended(ks, first)
  {
    ExtendedIncreases(ks, first);
    if k > 0 { LaterHas(ks, k - 1, first); }
  }

  lemma AddNext(cs: seq<Canister>, stand: string, specs: seq<Spec>) returns (now: seq<Canister>, front: seq<Canister>)
    requires specs != []
    ensures front == if IsNew(cs, specs, 0) then [RowFor(stand, specs[0])] else []
    ensures now == cs + front && AddMembers(cs, stand, specs) == AddMembers(now, stand, specs[1..])
  {
    front := if IsNew(cs, specs, 0) then [RowFor(stand, specs[0])] else [];
    now := cs + front;
    assert cs + [] == cs;
    assert Named(cs, specs[0].name) <==> !IsNew(cs, specs, 0);
  }

  lemma NewNext(cs: seq<Canister>, now: seq<Canister>, front: seq<Canister>, stand: string, specs: seq<Spec>, k: nat)
    requires specs != [] && k < |specs| - 1 && now == cs + front
    requires front == if IsNew(cs, specs, 0) then [RowFor(stand, specs[0])] else []
    ensures IsNew(now, specs[1..], k) <==> IsNew(cs, specs, k + 1)
  {
    if front == [] { NewAfterNamed(cs, specs, k); } else { NewAfterAdded(cs, front[0], specs, k); }
  }

  lemma {:induction false} RowsAdded(cs: seq<Canister>, stand: string, specs: seq<Spec>) returns (added: seq<Canister>, ks: seq<nat>)
    ensures AddMembers(cs, stand, specs) == cs + added && AreAdded(added, cs, stand, specs, ks)
    decreases |specs|
  {
    if specs == [] {
      added, ks := [], [];
    } else {
      var first := IsNew(cs, specs, 0);
      var now, front := AddNext(cs, stand, specs);
      var rest, places := RowsAdded(now, stand, specs[1..]);
      forall k: nat | k < |specs| - 1 { NewNext(cs, now, front, stand, specs, k); }
      added, ks := front + rest, Extended(places, first);
      Regroup(cs, front, rest);
      ExtendedIncreases(places, first);
      PlacesNext(cs, now, specs, places, first);
      forall k | 0 <= k < |specs| && IsNew(cs, specs, k) ensures k in ks { NoPlaceMissed(cs, now, specs, places, first, k); }
      StandsNext(rest, specs, (spec: Spec) => RowFor(stand, spec), places, first);
    }
  }

  lemma Regroup<T>(a: seq<T>, b: seq<T>, c: seq<T>)
    ensures a + b + c == a + (b + c)
  {
  }

  lemma {:induction false} AskedAreThere(cs: seq<Canister>, stand: string, specs: seq<Spec>, spec: Spec)
    requires spec in specs
    ensures exists c <- AddMembers(cs, stand, specs) :: c.name == spec.name
    decreases |specs|
  {
    var now, front := AddNext(cs, stand, specs);
    if spec in specs[1..] {
      AskedAreThere(now, stand, specs[1..], spec);
    } else {
      var added, _ := RowsAdded(now, stand, specs[1..]);
      if front != [] { assert front[0] in now + added; } else { var c :| c in cs && c.name == spec.name; assert c in now + added; }
    }
  }

  // ---------- the canister that is provisioned next ----------

  /** Every row the stand asks for is there, and all it has are on the chain. */
  ghost predicate AllThere(cs: seq<Canister>, s: Stand) {
    && (forall spec <- s.specs :: exists c <- cs :: c.name == spec.name)
    && forall c <- cs :: c.stand == s.name ==> !c.status.Created?
  }

  predicate Waits(c: Canister, stand: string) { c.stand == stand && c.status.Created? }

  lemma NoneWaits(cs: seq<Canister>, s: Stand)
    requires forall c <- AddMembers(cs, s.name, s.specs) :: !Waits(c, s.name)
    ensures AddMembers(cs, s.name, s.specs) == cs && AllThere(cs, s)
  {
    var added, ks := RowsAdded(cs, s.name, s.specs);
    if added != [] { assert added[0] in cs + added && Waits(added[0], s.name); }
    forall spec <- s.specs ensures exists c <- cs :: c.name == spec.name { AskedAreThere(cs, s.name, s.specs, spec); }
  }

  /** The first pending stand that has a canister to create: only its rows are added, and the first of them that is not
      on the chain is next. */
  lemma {:induction false} NextIsFirst(stands: seq<Stand>, cs: seq<Canister>) returns (k: nat)
    ensures k <= |stands| && forall j :: 0 <= j < k && stands[j].state.Pending? ==> AllThere(cs, stands[j])
    ensures k == |stands| ==> Unprovisioned(stands, cs) == (cs, None)
    ensures k < |stands| ==> stands[k].state.Pending? && var (r, c) := Unprovisioned(stands, cs);
      && r == AddMembers(cs, stands[k].name, stands[k].specs) && c.Some? && c.value < |r| && Waits(r[c.value], stands[k].name)
      && forall i :: 0 <= i < c.value ==> !Waits(r[i], stands[k].name)
    decreases |stands|
  {
    k := 0;
    if stands != [] {
      var s := stands[0];
      var cs' := AddMembers(cs, s.name, s.specs);
      if !s.state.Pending? || FirstCreated(cs', s.name, 0) == |cs'| {
        if s.state.Pending? {
          forall c <- cs' ensures !Waits(c, s.name) { var i :| 0 <= i < |cs'| && cs'[i] == c; }
          NoneWaits(cs, s);
        }
        k := NextIsFirst(stands[1..], cs);
        k := k + 1;
      }
    }
  }

  // ---------- calls, row by row ----------

  /** A row that a phase makes a call for: the sync for installed canisters that serve content, the hand-off for all. */
  predicate Due(c: Canister, stand: string, sync: bool) {
    c.stand == stand && c.status.Installed? && (sync ==> c.content)
  }

  /** How many calls a phase makes for the rows between two places. */
  function Calls(cs: seq<Canister>, stand: string, sync: bool, i: nat, j: nat): nat
    requires j <= |cs|
    decreases j
  {
    if j <= i then 0 else Calls(cs, stand, sync, i, j - 1) + if Due(cs[j - 1], stand, sync) then 1 else 0
  }

  /** The rows a phase is through with, and the one that stops it. */
  ghost predicate Stops(cs: seq<Canister>, stand: string, sync: bool, luck: Luck, i: nat, j: nat)
    requires j < |cs|
  {
    Due(cs[j], stand, sync) && ((sync && cs[j].files > 10) || luck == Some(Calls(cs, stand, sync, i, j)))
  }

  lemma {:induction false} CallsFromNext(cs: seq<Canister>, ds: seq<Canister>, stand: string, sync: bool, i: nat, j: nat)
    requires i < j <= |cs| && |ds| == |cs| && forall m :: i < m < |cs| ==> ds[m] == cs[m]
    ensures Calls(cs, stand, sync, i, j) == Calls(ds, stand, sync, i + 1, j) + if Due(cs[i], stand, sync) then 1 else 0
    decreases j
  {
    if j > i + 1 { CallsFromNext(cs, ds, stand, sync, i, j - 1); }
  }

  function After(c: Canister, sync: bool): Canister {
    if sync then c.(files := 0) else c.(status := Ready)
  }

  function Phase_(cs: seq<Canister>, stand: string, sync: bool, i: nat, luck: Luck): Phase
    requires i <= |cs|
  {
    if sync then SyncAll(cs, stand, i, luck) else HandOffAll(cs, stand, i, luck)
  }

  /** What a phase leaves: the rows before the one that stops it are done, that one is ten files shorter or, if its call
      raises, as it was, and the later ones are as they were. */
  ghost predicate LeftAt(cs: seq<Canister>, stand: string, sync: bool, luck: Luck, i: nat, j: nat, p: Phase)
    requires i <= j <= |cs|
  {
    && |p.canisters| == |cs|
    && (forall m :: 0 <= m < i || j < m < |cs| ==> p.canisters[m] == cs[m])
    && (forall m :: i <= m < j ==> p.canisters[m] == if Due(cs[m], stand, sync) then After(cs[m], sync) else cs[m])
    && (forall m :: i <= m < j ==> !Stops(cs, stand, sync, luck, i, m))
    && (j == |cs| ==> p.Through? && p.luck == if luck.None? then None else Some(luck.value - Calls(cs, stand, sync, i, j)))
    && (j < |cs| ==> Stops(cs, stand, sync, luck, i, j))
    && (j < |cs| && luck == Some(Calls(cs, stand, sync, i, j)) ==> p.Raised? && p.canisters[j] == cs[j])
    && (j < |cs| && luck != Some(Calls(cs, stand, sync, i, j)) ==> p.Remaining? && p.canisters[j] == cs[j].(files := cs[j].files - 10))
  }

  lemma NotDue(cs: seq<Canister>, stand: string, sync: bool, i: nat, luck: Luck)
    requires i < |cs| && !Due(cs[i], stand, sync)
    ensures Phase_(cs, stand, sync, i, luck) == Phase_(cs, stand, sync, i + 1, luck)
  {
  }

  lemma Stopped(cs: seq<Canister>, stand: string, sync: bool, i: nat, luck: Luck)
    requires i < |cs| && Stops(cs, stand, sync, luck, i, i)
    ensures Phase_(cs, stand, sync, i, luck) == if luck == Some(0) then Raised(cs) else Remaining(cs[i := cs[i].(files := cs[i].files - 10)])
  {
  }

  lemma OneDone(cs: seq<Canister>, stand: string, sync: bool, i: nat, luck: Luck)
    requires i < |cs| && Due(cs[i], stand, sync) && !Stops(cs, stand, sync, luck, i, i)
    ensures !Raises(luck)
    ensures Phase_(cs, stand, sync, i, luck) == Phase_(cs[i := After(cs[i], sync)], stand, sync, i + 1, Spent(luck))
  {
  }

  lemma StopsNext(cs: seq<Canister>, ds: seq<Canister>, stand: string, sync: bool, luck: Luck, luck': Luck, i: nat, m: nat)
    requires i < m < |cs| == |ds| && forall m :: i < m < |cs| ==> ds[m] == cs[m]
    requires if Due(cs[i], stand, sync) then !Raises(luck) && luck' == Spent(luck) else luck' == luck
    ensures Stops(ds, stand, sync, luck', i + 1, m) <==> Stops(cs, stand, sync, luck, i, m)
    ensures luck' == Some(Calls(ds, stand, sync, i + 1, m)) <==> luck == Some(Calls(cs, stand, sync, i, m))
  {
    CallsFromNext(cs, ds, stand, sync, i, m);
  }

  lemma LeftNext(cs: seq<Canister>, ds: seq<Canister>, stand: string, sync: bool, luck: Luck, luck': Luck, i: nat, j: nat, p: Phase)
    requires i < j <= |cs| == |ds| && ds == cs[i := if Due(cs[i], stand, sync) then After(cs[i], sync) else cs[i]]
    requires if Due(cs[i], stand, sync) then !Raises(luck) && luck' == Spent(luck) else luck' == luck
    requires !Stops(cs, stand, sync, luck, i, i) && LeftAt(ds, stand, sync, luck', i + 1, j, p)
    ensures LeftAt(cs, stand, sync, luck, i, j, p)
  {
    forall m | i <= m < j ensures !Stops(cs, stand, sync, luck, i, m) { if m > i { StopsNext(cs, ds, stand, sync, luck, luck', i, m); } }
    if j < |cs| { StopsNext(cs, ds, stand, sync, luck, luck', i, j); } else { CallsFromNext(cs, ds, stand, sync, i, j); }
  }

  /** How far a phase comes, and what it leaves. */
  lemma {:induction false} PhaseLeaves(cs: seq<Canister>, stand: string, sync: bool, i: nat, luck: Luck) returns (j: nat)
    requires i <= |cs|
    ensures i <= j <= |cs| && LeftAt(cs, stand, sync, luck, i, j, Phase_(cs, stand, sync, i, luck))
    decreases |cs| - i
  {
    j := i;
    if i < |cs| {
      if Stops(cs, stand, sync, luck, i, i) {
        Stopped(cs, stand, sync, i, luck);
      } else if Due(cs[i], stand, sync) {
        OneDone(cs, stand, sync, i, luck);
        var ds := cs[i := After(cs[i], sync)];
        j := PhaseLeaves(ds, stand, sync, i + 1, Spent(luck));
        LeftNext(cs, ds, stand, sync, luck, Spent(luck), i, j, Phase_(cs, stand, sync, i, luck));
      } else {
        NotDue(cs, stand, sync, i, luck);
        j := PhaseLeaves(cs, stand, sync, i + 1, luck);
        assert cs[i := cs[i]] == cs;
        LeftNext(cs, cs, stand, sync, luck, luck, i, j, Phase_(cs, stand, sync, i, luck));
      }
    }
  }

  // ---------- one round of a stand's build ----------

  /** A row once its files are written, and once it is handed off. */
  function Written(c: Canister, stand: string): Canister {
    if c.stand == stand && c.status.Installed? && c.content then c.(files := 0) else c
  }

  function HandedOff(c: Canister, stand: string): Canister {
    if c.stand == stand && c.status.Installed? then c.(status := Ready) else c
  }

  ghost predicate NoneWaiting(cs: seq<Canister>, stand: string) {
    forall i :: 0 <= i < |cs| ==> !Waits(cs[i], stand)
  }

  ghost predicate FirstWaiting(cs: seq<Canister>, stand: string, i: nat) {
    i < |cs| && Waits(cs[i], stand) && forall j :: 0 <= j < i ==> !Waits(cs[j], stand)
  }

  /** The rows before a place are written. */
  ghost predicate WrittenUpTo(r: seq<Canister>, cs: seq<Canister>, stand: string, j: nat) {
    j <= |cs| == |r| && forall m :: 0 <= m < j ==> r[m] == Written(cs[m], stand) && (Due(cs[m], stand, true) ==> cs[m].files <= 10)
  }

  lemma SyncLeaves(cs: seq<Canister>, stand: string, luck: Luck) returns (j: nat)
    ensures var p := SyncAll(cs, stand, 0, luck);
      && WrittenUpTo(p.canisters, cs, stand, j) && (forall m :: j < m < |cs| ==> p.canisters[m] == cs[m])
      && (j == |cs| ==> p.Through? && p.luck == if luck.None? then None else Some(luck.value - Calls(cs, stand, true, 0, j)))
      && (j < |cs| && luck == Some(Calls(cs, stand, true, 0, j)) ==> p.Raised? && Due(cs[j], stand, true) && p.canisters[j] == cs[j])
      && (j < |cs| && luck != Some(Calls(cs, stand, true, 0, j)) ==> p.Remaining? && Due(cs[j], stand, true))
      && (j < |cs| && luck != Some(Calls(cs, stand, true, 0, j)) ==> cs[j].files > 10 && p.canisters[j] == cs[j].(files := cs[j].files - 10))
  {
    j := PhaseLeaves(cs, stand, true, 0, luck);
    var p := SyncAll(cs, stand, 0, luck);
    assert p == Phase_(cs, stand, true, 0, luck);
    forall m | 0 <= m < j ensures p.canisters[m] == Written(cs[m], stand) && (Due(cs[m], stand, true) ==> cs[m].files <= 10) {
      assert !Stops(cs, stand, true, luck, 0, m);
    }
  }

  lemma HandOffLeaves(cs: seq<Canister>, stand: string, luck: Luck) returns (j: nat)
    ensures var p := HandOffAll(cs, stand, 0, luck);
      && j <= |cs| == |p.canisters| && (forall m :: 0 <= m < j ==> p.canisters[m] == HandedOff(cs[m], stand)) && (forall m :: j <= m < |cs| ==> p.canisters[m] == cs[m])
      && (j == |cs| ==> p.Through?)
      && (j < |cs| ==> p.Raised? && luck == Some(Calls(cs, stand, false, 0, j)) && Due(cs[j], stand, false))
  {
    j := PhaseLeaves(cs, stand, false, 0, luck);
    assert HandOffAll(cs, stand, 0, luck) == Phase_(cs, stand, false, 0, luck);
  }

  lemma WaitingIsCreated(cs: seq<Canister>, stand: string, luck: Luck) returns (i: nat)
    ensures i == |cs| ==> NoneWaiting(cs, stand)
    ensures i < |cs| ==> FirstWaiting(cs, stand, i)
    ensures i < |cs| ==> BuildCanisters(cs, stand, luck) == if luck == Some(0) then (cs, Raise) else (cs[i := cs[i].(status := Installed)], Unfinished)
    ensures i == FirstCreated(cs, stand, 0) <= |cs|
  {
    i := FirstCreated(cs, stand, 0);
  }

  /** A build that finishes found every canister of the stand on the chain, wrote the files of each that it had installed,
      none of which had more than ten left, handed those off, and touched no other row. */
  lemma FinishedBuildLeaves(cs: seq<Canister>, stand: string, luck: Luck)
    requires BuildCanisters(cs, stand, luck).1.Finished?
    ensures var r := BuildCanisters(cs, stand, luck).0;
      && NoneWaiting(cs, stand) && |r| == |cs|
      && (forall m :: 0 <= m < |cs| && Due(cs[m], stand, true) ==> cs[m].files <= 10)
      && forall m :: 0 <= m < |cs| ==> r[m] == HandedOff(Written(cs[m], stand), stand)
  {
    var i := WaitingIsCreated(cs, stand, luck);
    var j := SyncLeaves(cs, stand, luck);
    var p := SyncAll(cs, stand, 0, luck);
    var _ := HandOffLeaves(p.canisters, stand, p.luck);
  }

  /** Its files are all written. */
  lemma FinishedBuildWritesFiles(cs: seq<Canister>, stand: string, luck: Luck, m: nat)
    requires BuildCanisters(cs, stand, luck).1.Finished? && m < |cs| && Due(cs[m], stand, true)
    ensures m < |BuildCanisters(cs, stand, luck).0|
    ensures BuildCanisters(cs, stand, luck).0[m].files == 0 && BuildCanisters(cs, stand, luck).0[m].status.Ready?
  {
    FinishedBuildLeaves(cs, stand, luck);
  }

  /** A build that is not finished either installed the first canister still to create, or wrote ten files of the first that
      has more and all of those before it; it touched no other row. */
  lemma UnfinishedBuildLeaves(cs: seq<Canister>, stand: string, luck: Luck) returns (j: nat)
    requires BuildCanisters(cs, stand, luck).1.Unfinished?
    ensures var r := BuildCanisters(cs, stand, luck).0;
      && j < |cs| == |r| && (forall m :: j < m < |cs| ==> r[m] == cs[m])
      && (!NoneWaiting(cs, stand) ==> FirstWaiting(cs, stand, j) && r == cs[j := cs[j].(status := Installed)])
      && (NoneWaiting(cs, stand) ==> WrittenUpTo(r, cs, stand, j) && Due(cs[j], stand, true))
      && (NoneWaiting(cs, stand) ==> cs[j].files > 10 && r[j] == cs[j].(files := cs[j].files - 10))
  {
    j := WaitingIsCreated(cs, stand, luck);
    if j == |cs| {
      j := SyncLeaves(cs, stand, luck);
      var p := SyncAll(cs, stand, 0, luck);
      if p.Through? { var _ := HandOffLeaves(p.canisters, stand, p.luck); }
    }
  }

  ghost predicate SyncRaised(r: seq<Canister>, cs: seq<Canister>, stand: string, j: nat)
    requires j < |cs| == |r|
  {
    WrittenUpTo(r, cs, stand, j) && Due(cs[j], stand, true) && forall m :: j <= m < |cs| ==> r[m] == cs[m]
  }

  ghost predicate HandOffRaised(r: seq<Canister>, cs: seq<Canister>, stand: string, j: nat)
    requires j < |cs| == |r|
  {
    && (forall m :: 0 <= m < j ==> r[m] == HandedOff(Written(cs[m], stand), stand)) && Due(cs[j], stand, false)
    && forall m :: j <= m < |cs| ==> r[m] == Written(cs[m], stand)
  }

  /** A build whose call raises leaves the row it was made for and the later ones as they were: nothing is installed; or the
      files of the earlier ones are written; or all files are, and the earlier ones are handed off. */
  lemma RaisedBuildLeaves(cs: seq<Canister>, stand: string, luck: Luck) returns (j: nat)
    requires BuildCanisters(cs, stand, luck).1.Raise?
    ensures luck.Some?
    ensures var r := BuildCanisters(cs, stand, luck).0;
      && j < |cs| == |r| && (!NoneWaiting(cs, stand) ==> r == cs)
      && (NoneWaiting(cs, stand) ==> SyncRaised(r, cs, stand, j) || HandOffRaised(r, cs, stand, j))
  {
    j := WaitingIsCreated(cs, stand, luck);
    if j == |cs| {
      j := SyncLeaves(cs, stand, luck);
      var p := SyncAll(cs, stand, 0, luck);
      if p.Through? { j := HandOffLeaves(p.canisters, stand, p.luck); }
    }
  }

  /** With no failing call: unfinished while a canister is to create or one has more than ten files, else finished. */
  lemma BuildIsFinishedIff(cs: seq<Canister>, stand: string)
    ensures !BuildCanisters(cs, stand, None).1.Raise?
    ensures BuildCanisters(cs, stand, None).1.Finished? <==>
      NoneWaiting(cs, stand) && forall m :: 0 <= m < |cs| && Due(cs[m], stand, true) ==> cs[m].files <= 10
  {
    var i := WaitingIsCreated(cs, stand, None);
    if i == |cs| {
      var j := SyncLeaves(cs, stand, None);
      var p := SyncAll(cs, stand, 0, None);
      if p.Through? { var _ := HandOffLeaves(p.canisters, stand, p.luck); }
    }
  }

  /** A build adds the rows asked for first, and marks the stand built exactly when it finishes; else only rows change. */
  lemma BuildMarks(st: State, k: nat, luck: Luck, resolve: Resolve)
    requires k < |st.stands|
    ensures var (t, out) := Build(st, k, luck, resolve); var s := st.stands[k];
      && (t.canisters, out) == BuildCanisters(AddMembers(st.canisters, s.name, s.specs), s.name, luck)
      && t.cursor == st.cursor && t.builtAt == st.builtAt
      && (!out.Finished? ==> t.stands == st.stands && t.grants == st.grants && t.nextGrant == st.nextGrant)
      && (out.Finished? ==> t.stands == st.stands[k := s.(state := Built)])
  {
  }

  // ---------- one round of `up` ----------

  ghost predicate FirstUnbuilt(stands: seq<Stand>, k: nat) {
    k < |stands| && !stands[k].state.Built? && forall j :: 0 <= j < k ==> stands[j].state.Built?
  }

  ghost predicate AllBuilt(stands: seq<Stand>) {
    forall j :: 0 <= j < |stands| ==> stands[j].state.Built?
  }

  /** A failed stand is never passed: while the first that is not built has failed, a round changes nothing. */
  lemma FailedStandStops(st: State, k: nat, luck: Luck, resolve: Resolve)
    requires FirstUnbuilt(st.stands, k) && st.stands[k].state.Failed?
    ensures BuildAll(st, luck, resolve) == (st, Finished)
  {
  }

  ghost predicate HasWaiting(cs: seq<Canister>, s: Stand) {
    exists c <- AddMembers(cs, s.name, s.specs) :: Waits(c, s.name)
  }

  /** The first pending stand with a canister to create is the one that is found. */
  lemma FirstIsFound(st: State, f: nat) returns (i: nat)
    requires f < |st.stands| && st.stands[f].state.Pending? && HasWaiting(st.canisters, st.stands[f])
    requires forall j :: 0 <= j < f && st.stands[j].state.Pending? ==> AllThere(st.canisters, st.stands[j])
    ensures var cs := AddMembers(st.canisters, st.stands[f].name, st.stands[f].specs);
      Unprovisioned(st.stands, st.canisters) == (cs, Some(i)) && FirstWaiting(cs, st.stands[f].name, i)
  {
    var g := NextIsFirst(st.stands, st.canisters);
    if f < g { ThereWaitsNone(st.canisters, st.stands[f]); }
    if g < f { ThereWaitsNone(st.canisters, st.stands[g]); }
    i := Unprovisioned(st.stands, st.canisters).1.value;
  }

  /** While a pending stand has a canister to create, a round creates the first of the first such stand, or fails that
      stand when the call raises; nothing else but its rows changes. */
  lemma ProvisioningRoundLeaves(st: State, k: nat, luck: Luck, resolve: Resolve, f: nat) returns (i: nat)
    requires FirstUnbuilt(st.stands, k) && st.stands[k].state.Pending?
    requires f < |st.stands| && st.stands[f].state.Pending? && HasWaiting(st.canisters, st.stands[f])
    requires forall j :: 0 <= j < f && st.stands[j].state.Pending? ==> AllThere(st.canisters, st.stands[j])
    requires forall x, y :: 0 <= x < y < |st.stands| ==> st.stands[x].name != st.stands[y].name
    ensures var cs := AddMembers(st.canisters, st.stands[f].name, st.stands[f].specs);
      && FirstWaiting(cs, st.stands[f].name, i)
      && BuildAll(st, luck, resolve) ==
           if luck == Some(0) then (st.(canisters := cs, stands := st.stands[f := st.stands[f].(state := Failed)]), Finished)
           else (st.(canisters := cs[i := cs[i].(status := Installed)]), Unfinished)
  {
    i := FirstIsFound(st, f);
    assert NextUnbuilt(st.stands) == k;
    assert StandAt(st.stands, st.stands[f].name) == f;
  }

  lemma {:induction false} NamedAddsNone(cs: seq<Canister>, stand: string, specs: seq<Spec>)
    requires forall spec <- specs :: exists c <- cs :: c.name == spec.name
    ensures AddMembers(cs, stand, specs) == cs
    decreases |specs|
  {
    if specs != [] {
      assert specs[0] in specs && forall spec <- specs[1..] :: spec in specs;
      NamedAddsNone(cs, stand, specs[1..]);
    }
  }

  lemma ThereWaitsNone(cs: seq<Canister>, s: Stand)
    requires AllThere(cs, s)
    ensures forall c <- AddMembers(cs, s.name, s.specs) :: !Waits(c, s.name)
  {
    NamedAddsNone(cs, s.name, s.specs);
  }

  /** Once none has, a round builds the first pending stand; an exception fails the first pending stand, which is that one. */
  lemma BuildingRoundLeaves(st: State, k: nat, luck: Luck, resolve: Resolve)
    requires FirstUnbuilt(st.stands, k) && st.stands[k].state.Pending?
    requires forall j :: 0 <= j < |st.stands| && st.stands[j].state.Pending? ==> AllThere(st.canisters, st.stands[j])
    ensures var (t, out) := Build(st, k, luck, resolve);
      BuildAll(st, luck, resolve) == if out.Raise? then (t.(stands := st.stands[k := st.stands[k].(state := Failed)]), Raise) else (t, Unfinished)
  {
    NoneIsFound(st);
    BuildMarks(st, k, luck, resolve);
    assert st.(canisters := st.canisters) == st;
    assert NextUnbuilt(st.stands) == k && FirstPending(st.stands) == k;
  }

  lemma NoneIsFound(st: State)
    requires forall j :: 0 <= j < |st.stands| && st.stands[j].state.Pending? ==> AllThere(st.canisters, st.stands[j])
    ensures Unprovisioned(st.stands, st.canisters) == (st.canisters, None)
  {
    var g := NextIsFirst(st.stands, st.canisters);
    if g < |st.stands| { ThereWaitsNone(st.canisters, st.stands[g]); }
  }

  /** Once all are built, a round rewrites a page of grants, and the last one says so. */
  lemma LastRoundsLeave(st: State, luck: Luck, resolve: Resolve)
    requires AllBuilt(st.stands)
    ensures var (t, out) := BuildAll(st, luck, resolve);
      && t.stands == st.stands && t.canisters == st.canisters
      && (out.Finished? <==> st.cursor == 0) && !out.Raise?
      && (st.cursor == 0 ==> t == st.(builtAt := true))
      && (st.cursor != 0 ==> t.builtAt == st.builtAt)
  {
  }
}
