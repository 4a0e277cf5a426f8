/** What a deploy's rounds add up to: when a sync succeeds, what each round leaves to do, and the site a
    finished deploy leaves. */
module ContentRuns {
  import opened Options
  import opened Order
  import opened Content

  /** What was listed of a file is what it holds: its text, where it is rendered for the deployment, or the store's bytes. */
  ghost predicate IsListed(d: Deploy, k: string)
    requires k in d.want
  {
    var w := d.want[k];
    if w.text.Some? then d.sha(w.text.value) == w.digest else k in d.source && d.sha(d.source[k]) == w.digest
  }

  /** The store still holds what was listed. */
  ghost predicate Fresh(d: Deploy) {
    forall k :: k in d.want ==> IsListed(d, k)
  }

  /** A file that can be read at all. */
  predicate HasBytes(d: Deploy, k: string)
    requires k in d.want
  {
    d.want[k].text.Some? || k in d.source
  }

  /** An asset a failed round created without giving it content: it exists, but listings do not show it. */
  predicate HalfWritten(site: Site, k: string) {
    k in site.assets && site.assets[k].content.None?
  }

  /** Half written, and the canister refuses to create it again. */
  predicate Blocked(d: Deploy, site: Site, k: string)
    requires k in d.want
  {
    HalfWritten(site, k) && Made(d, At(site.assets, k), k).None?
  }

  // ---------- one batch ----------

  /** What a write finds of a key once the listed assets are deleted. */
  function Prior(assets: Assets, live: set<string>, k: string): Option<Asset> {
    if k in live then None else At(assets, k)
  }

  lemma PutOneEffect(assets: Assets, d: Deploy, live: set<string>, k: string)
    requires Fresh(d) && k in d.want && live <= assets.Keys
    ensures Readable(d, [k])
    ensures PutOne(assets, d, k, k in live) ==
      if Made(d, Prior(assets, live, k), k).Some? then (assets[k := Written(d, Prior(assets, live, k), k)], true) else (assets, false)
  {
    if k in live {
      var cleared := assets - {k};
      assert At(cleared, k) == None;
      assert cleared[k := Written(d, None, k)] == assets[k := Written(d, None, k)];
    }
  }

  lemma ReadableTail(d: Deploy, ks: seq<string>)
    requires Fresh(d) && forall k <- ks :: k in d.want
    ensures Readable(d, ks) && (ks != [] ==> Readable(d, ks[1..]) && Readable(d, [ks[0]]))
  {
  }

  lemma PutAllNext(assets: Assets, d: Deploy, live: set<string>, ks: seq<string>)
    requires Fresh(d) && ks != [] && (forall k <- ks :: k in d.want) && live <= assets.Keys
    ensures Readable(d, ks) && Readable(d, ks[1..])
    ensures var made := Made(d, Prior(assets, live, ks[0]), ks[0]);
      PutAll(assets, d, live, ks) ==
        if made.Some? then PutAll(assets[ks[0] := Written(d, Prior(assets, live, ks[0]), ks[0])], d, live, ks[1..]) else (assets, false)
  {
    ReadableTail(d, ks);
    assert ks[0] in ks;
    PutOneEffect(assets, d, live, ks[0]);
  }

  lemma TailIsWanted(d: Deploy, ks: seq<string>)
    requires ks != [] && NoRepeat(ks) && forall k <- ks :: k in d.want
    ensures ks[0] in d.want && ks[0] !in ks[1..] && NoRepeat(ks[1..]) && forall k <- ks[1..] :: k in d.want
  {
  }

  /** Whether all of a batch can be written. */
  ghost predicate AllMade(assets: Assets, d: Deploy, live: set<string>, ks: seq<string>)
    requires forall k <- ks :: k in d.want
  {
    forall k <- ks :: Made(d, Prior(assets, live, k), k).Some?
  }

  lemma AllMadeNext(assets: Assets, d: Deploy, live: set<string>, ks: seq<string>, w: Asset)
    requires ks != [] && NoRepeat(ks) && (forall k <- ks :: k in d.want) && Made(d, Prior(assets, live, ks[0]), ks[0]).Some?
    ensures AllMade(assets, d, live, ks) <==> AllMade(assets[ks[0] := w], d, live, ks[1..])
  {
    TailIsWanted(d, ks);
    var a := assets[ks[0] := w];
    forall k <- ks[1..] ensures Prior(a, live, k) == Prior(assets, live, k) {}
    if AllMade(a, d, live, ks[1..]) {
      forall k <- ks ensures Made(d, Prior(assets, live, k), k).Some? {
        if k != ks[0] { assert k in ks[1..]; }
      }
    }
  }

  lemma {:induction false} PutAllWorksIff(assets: Assets, d: Deploy, live: set<string>, ks: seq<string>)
    requires Fresh(d) && NoRepeat(ks) && (forall k <- ks :: k in d.want) && live <= assets.Keys
    ensures Readable(d, ks)
    ensures PutAll(assets, d, live, ks).1 <==> AllMade(assets, d, live, ks)
    decreases |ks|
  {
    if ks != [] {
      PutAllNext(assets, d, live, ks);
      TailIsWanted(d, ks);
      if Made(d, Prior(assets, live, ks[0]), ks[0]).Some? {
        var w := Written(d, Prior(assets, live, ks[0]), ks[0]);
        AllMadeNext(assets, d, live, ks, w);
        PutAllWorksIff(assets[ks[0] := w], d, live, ks[1..]);
      } else {
        assert ks[0] in ks;
      }
    }
  }

  /** Writing a batch touches only its keys, and makes each what is wanted or leaves it. */
  lemma {:induction false} PutAllAt(assets: Assets, d: Deploy, live: set<string>, ks: seq<string>, k: string)
    requires Fresh(d) && NoRepeat(ks) && (forall k <- ks :: k in d.want) && live <= assets.Keys
    ensures Readable(d, ks)
    ensures var (a, ok) := PutAll(assets, d, live, ks);
      || (At(a, k) == At(assets, k) && (ok ==> k !in ks))
      || (k in ks && Made(d, Prior(assets, live, k), k).Some? && At(a, k) == Some(Written(d, Prior(assets, live, k), k)))
    decreases |ks|
  {
    if ks != [] {
      PutAllNext(assets, d, live, ks);
      TailIsWanted(d, ks);
      if Made(d, Prior(assets, live, ks[0]), ks[0]).Some? {
        var a := assets[ks[0] := Written(d, Prior(assets, live, ks[0]), ks[0])];
        PutAllAt(a, d, live, ks[1..], k);
        if k != ks[0] {
          assert Prior(a, live, k) == Prior(assets, live, k) && (k in ks <==> k in ks[1..]);
        }
      }
    }
  }

  function LiveKeys(d: Deploy, site: Site): set<string> { Live(site.assets, d.sha).Keys }

  lemma PriorIsHalfWritten(d: Deploy, site: Site, k: string)
    ensures Prior(site.assets, LiveKeys(d, site), k) == if HalfWritten(site, k) then Some(site.assets[k]) else None
  {
  }

  lemma BatchEffect(d: Deploy, site: Site)
    requires Fresh(d)
    ensures NoRepeat(Batch(d, site)) && (forall k <- Batch(d, site) :: k in d.want) && Readable(d, Batch(d, site))
    ensures PutAll(site.assets, d, LiveKeys(d, site), Batch(d, site)).1 <==> forall k <- Batch(d, site) :: !Blocked(d, site, k)
  {
    BatchIsDistinct(d, site);
    PutAllWorksIff(site.assets, d, LiveKeys(d, site), Batch(d, site));
    forall k <- Batch(d, site) ensures Blocked(d, site, k) <==> Made(d, Prior(site.assets, LiveKeys(d, site), k), k).None? {
      PriorIsHalfWritten(d, site, k);
    }
  }

  lemma BatchAt(d: Deploy, site: Site, k: string)
    requires Fresh(d)
    ensures (forall x <- Batch(d, site) :: x in d.want) && Readable(d, Batch(d, site))
    ensures var (a, ok) := PutAll(site.assets, d, LiveKeys(d, site), Batch(d, site));
      || (At(a, k) == At(site.assets, k) && (ok ==> k !in Batch(d, site)))
      || (k in Batch(d, site) && !Blocked(d, site, k) && At(a, k) == Some(Final(d, site, k)))
  {
    BatchIsDistinct(d, site);
    PutAllAt(site.assets, d, LiveKeys(d, site), Batch(d, site), k);
    PriorIsHalfWritten(d, site, k);
  }

  /** What a write leaves of a key that is not blocked. */
  function Final(d: Deploy, site: Site, k: string): Asset
    requires k in d.want && !Blocked(d, site, k)
  {
    Written(d, if HalfWritten(site, k) then At(site.assets, k) else None, k)
  }

  /** With the store as listed, a round fails exactly when one of its keys is blocked. */
  lemma SyncFailsOnBlocked(d: Deploy, site: Site)
    requires Fresh(d)
    ensures (forall k <- Batch(d, site) :: k in d.want) && (SyncStep(d, site).1.Failed? <==> exists k <- Batch(d, site) :: Blocked(d, site, k))
  {
    BatchEffect(d, site);
  }

  /** A failed round deletes nothing listed and forgets nothing: every listed asset is still listed, and what
      is blocked is as it was. */
  lemma FailureIsSticky(d: Deploy, site: Site, k: string)
    requires Fresh(d) && SyncStep(d, site).1.Failed?
    ensures k in d.want && Blocked(d, site, k) ==> At(SyncStep(d, site).0.assets, k) == At(site.assets, k)
    ensures k in Live(site.assets, d.sha) ==> k in Live(SyncStep(d, site).0.assets, d.sha)
    ensures SyncStep(d, site).0.applied == site.applied
  {
    BatchEffect(d, site);
    BatchAt(d, site, k);
  }

  // ---------- a failed write blocks the deploys after it ----------

  lemma {:induction false} DifferingShrinks(d: Deploy, site: Site, later: Site, ks: seq<string>, k: string, i: nat)
    requires forall x <- ks :: x in d.want
    requires forall x <- ks :: Differs(d, later, x) ==> Differs(d, site, x)
    requires i < |Differing(d, site, ks)| && Differing(d, site, ks)[i] == k && k in d.want && Differs(d, later, k)
    ensures exists j :: 0 <= j <= i && j < |Differing(d, later, ks)| && Differing(d, later, ks)[j] == k
  {
    var w, v := Differing(d, site, ks), Differing(d, later, ks);
    assert ks != [];
    if Differs(d, site, ks[0]) {
      if i == 0 {
        assert v[0] == k;
      } else {
        DifferingShrinks(d, site, later, ks[1..], k, i - 1);
        var j :| 0 <= j <= i - 1 && j < |Differing(d, later, ks[1..])| && Differing(d, later, ks[1..])[j] == k;
        assert if Differs(d, later, ks[0]) then v[j + 1] == k else v[j] == k;
      }
    } else {
      DifferingShrinks(d, site, later, ks[1..], k, i);
    }
  }

  lemma BatchPlace(d: Deploy, site: Site, i: nat)
    ensures i < |Batch(d, site)| <==> i < |Writes(d, site)| && i < MAX_FILES
    ensures i < |Batch(d, site)| ==> Batch(d, site)[i] == Writes(d, site)[i]
  {
  }

  lemma StillInBatch(d: Deploy, site: Site, later: Site, k: string)
    requires k in Batch(d, site) && k in d.want && Differs(d, later, k)
    requires forall x :: x in d.want && Differs(d, later, x) ==> Differs(d, site, x)
    ensures k in Batch(d, later)
  {
    WantedInOrder(d);
    var i :| 0 <= i < |Batch(d, site)| && Batch(d, site)[i] == k;
    BatchPlace(d, site, i);
    DifferingShrinks(d, site, later, Sorted(d.want.Keys), k, i);
    var j :| 0 <= j <= i && j < |Writes(d, later)| && Writes(d, later)[j] == k;
    BatchPlace(d, later, j);
  }

  /** Once a key of the round is blocked, repeating the round fails, whatever else it manages to write. */
  lemma RetryFailsToo(d: Deploy, site: Site)
    requires Fresh(d) && SyncStep(d, site).1.Failed?
    ensures SyncStep(d, SyncStep(d, site).0).1.Failed?
  {
    var later := SyncStep(d, site).0;
    SyncFailsOnBlocked(d, site);
    var k :| k in Batch(d, site) && Blocked(d, site, k);
    FailureIsSticky(d, site, k);
    forall x | x in d.want && Differs(d, later, x) ensures Differs(d, site, x) { FailureAddsNoWrite(d, site, x); }
    StillInBatch(d, site, later, k);
    SyncFailsOnBlocked(d, later);
  }

  lemma FailureAddsNoWrite(d: Deploy, site: Site, k: string)
    requires Fresh(d) && SyncStep(d, site).1.Failed? && k in d.want && Differs(d, SyncStep(d, site).0, k)
    ensures Differs(d, site, k)
  {
    BatchEffect(d, site);
    BatchAt(d, site, k);
    FailureIsSticky(d, site, k);
  }

  lemma TailApart(ks: seq<string>)
    requires NoRepeat(ks) && ks != []
    ensures NoRepeat(ks[1..]) && forall k <- ks[1..] :: k in ks && k != ks[0]
    ensures forall j :: 0 <= j < |ks| - 1 ==> ks[1..][j] == ks[j + 1]
  {
  }

  /** Writing keys whose files are as listed, up to one that changed in the store: that one is created and refused
      its content. */
  lemma {:induction false} PutAllStopsAt(assets: Assets, d: Deploy, live: set<string>, ks: seq<string>, i: nat)
    requires Readable(d, ks) && NoRepeat(ks) && i < |ks| && live <= assets.Keys
    requires forall j :: 0 <= j < i ==> Made(d, Prior(assets, live, ks[j]), ks[j]).Some? && d.sha(Data(d, ks[j]).value) == d.want[ks[j]].digest
    requires Prior(assets, live, ks[i]).None? && d.sha(Data(d, ks[i]).value) != d.want[ks[i]].digest
    ensures var (a, ok) := PutAll(assets, d, live, ks); !ok && At(a, ks[i]) == Some(Asset(d.want[ks[i]].kind, d.want[ks[i]].props, None))
    decreases |ks|
  {
    assert ks[0] in ks;
    TailApart(ks);
    if i > 0 {
      var (a, ok) := PutOne(assets, d, ks[0], ks[0] in live);
      forall k <- ks[1..] ensures Prior(a, live, k) == Prior(assets, live, k) {}
      PutAllStopsAt(a, d, live, ks[1..], i - 1);
    }
  }

  /** How an asset comes to be half written: its file changed in the store after the listing, so the canister refuses
      the content it declared, after the asset was created. */
  lemma StaleListingHalfWrites(d: Deploy, site: Site, i: nat)
    requires (forall k <- Batch(d, site) :: k in d.want && HasBytes(d, k)) && i < |Batch(d, site)|
    requires forall j :: 0 <= j < i ==> !Blocked(d, site, Batch(d, site)[j]) && IsListed(d, Batch(d, site)[j])
    requires !HalfWritten(site, Batch(d, site)[i]) && !IsListed(d, Batch(d, site)[i])
    ensures SyncStep(d, site).1.Failed? && HalfWritten(SyncStep(d, site).0, Batch(d, site)[i])
  {
    var batch, live := Batch(d, site), LiveKeys(d, site);
    BatchIsDistinct(d, site);
    forall j | 0 <= j <= i ensures Prior(site.assets, live, batch[j]) == if HalfWritten(site, batch[j]) then Some(site.assets[batch[j]]) else None {
      PriorIsHalfWritten(d, site, batch[j]);
    }
    PutAllStopsAt(site.assets, d, live, batch, i);
  }

  // ---------- a round that succeeds ----------

  /** No wanted file is blocked. */
  ghost predicate NoneBlocked(d: Deploy, site: Site) {
    forall k <- d.want.Keys :: !Blocked(d, site, k)
  }

  lemma AppliedAt(d: Deploy, applied: map<string, Props>, batch: seq<string>, deletes: set<string>, k: string)
    requires forall k <- batch :: k in d.want
    ensures PropsOf(Applied(d, applied, batch, deletes), k) ==
      if k in batch then d.want[k].props else if k in deletes then map[] else PropsOf(applied, k)
  {
  }

  function Deletes(d: Deploy, site: Site): set<string> {
    if |Writes(d, site)| == |Batch(d, site)| then Live(site.assets, d.sha).Keys - d.want.Keys else {}
  }

  /** Key by key, what a successful round leaves. */
  lemma SyncAt(d: Deploy, site: Site, k: string)
    requires Fresh(d) && SyncStep(d, site).1.Left?
    ensures SyncStep(d, site).1.files == |Writes(d, site)| - |Batch(d, site)|
    ensures k in Batch(d, site) ==> k in d.want && !Blocked(d, site, k)
    ensures At(SyncStep(d, site).0.assets, k) ==
      if k in Batch(d, site) then Some(Final(d, site, k)) else if k in Deletes(d, site) then None else At(site.assets, k)
    ensures PropsOf(SyncStep(d, site).0.applied, k) ==
      if k in Batch(d, site) then d.want[k].props else if k in Deletes(d, site) then map[] else PropsOf(site.applied, k)
  {
    BatchEffect(d, site);
    BatchAt(d, site, k);
    var batch := Batch(d, site);
    AppliedAt(d, site.applied, batch, Deletes(d, site), k);
  }

  lemma TailOfCons<T>(x: T, a: seq<T>, done: seq<T>)
    requires done != [] && done <= [x] + a
    ensures done[0] == x && done[1..] <= a && a[|done| - 1..] == ([x] + a)[|done|..]
  {
  }

  lemma {:induction false} DifferingAfter(d: Deploy, site: Site, t: Site, ks: seq<string>, done: seq<string>)
    requires forall x <- ks :: x in d.want
    requires NoRepeat(ks) && done <= Differing(d, site, ks)
    requires forall x <- ks :: Differs(d, t, x) <==> Differs(d, site, x) && x !in done
    ensures Differing(d, t, ks) == Differing(d, site, ks)[|done|..]
  {
    if ks != [] {
      var rest, w := ks[1..], Differing(d, site, ks[1..]);
      TailIsWanted(d, ks);
      if !Differs(d, site, ks[0]) || done == [] {
        DifferingAfter(d, site, t, rest, done);
      } else {
        TailOfCons(ks[0], w, done);
        forall x <- rest ensures x in done <==> x in done[1..] { assert done == [ks[0]] + done[1..]; }
        DifferingAfter(d, site, t, rest, done[1..]);
        assert ks[0] in done;
      }
    }
  }

  /** What the canister lists of a key. */
  predicate IsServed(site: Site, k: string) { k in site.assets && site.assets[k].content.Some? }

  /** A round that succeeds leaves at each key of its batch the rendered text, where the file has one, and otherwise the
      store's bytes, with the wanted type and properties where the asset is made anew; in the last round what is listed but
      not wanted goes; every other asset is as it was. */
  lemma SyncLeaves(d: Deploy, site: Site, k: string)
    requires Fresh(d) && SyncStep(d, site).1.Left?
    ensures var t := SyncStep(d, site).0; k in Batch(d, site) ==>
      && k in d.want && HasBytes(d, k) && k in t.assets
      && t.assets[k].content == (if d.want[k].text.Some? then d.want[k].text else Some(d.source[k]))
      && (!HalfWritten(site, k) ==> t.assets[k].kind == d.want[k].kind && t.assets[k].props == d.want[k].props)
      && PropsOf(t.applied, k) == d.want[k].props
    ensures var t := SyncStep(d, site).0; k !in Batch(d, site) && SyncStep(d, site).1 == Left(0) && IsServed(site, k) && k !in d.want ==>
      k !in t.assets && PropsOf(t.applied, k) == map[]
    ensures var t := SyncStep(d, site).0; k !in Batch(d, site) && (SyncStep(d, site).1 != Left(0) || !IsServed(site, k) || k in d.want) ==>
      At(t.assets, k) == At(site.assets, k) && PropsOf(t.applied, k) == PropsOf(site.applied, k)
  {
    SyncAt(d, site, k);
    if k in Batch(d, site) { assert At(SyncStep(d, site).0.assets, k) == Some(Final(d, site, k)); }
  }

  /** A batch with a file that cannot be read fails before anything is written. */
  lemma UnreadableFails(d: Deploy, site: Site)
    ensures forall k <- Batch(d, site) :: k in d.want
    ensures (exists k <- Batch(d, site) :: k in d.want && !HasBytes(d, k)) ==> SyncStep(d, site) == (site, Failed)
  {
    BatchIsDistinct(d, site);
  }

  /** Listed with the wanted hash, and remembered with the wanted properties. */
  predicate IsDone(d: Deploy, site: Site, k: string)
    requires k in d.want
  {
    IsServed(site, k) && d.sha(site.assets[k].content.value) == d.want[k].digest && PropsOf(site.applied, k) == d.want[k].props
  }

  /** What a round has to write: the wanted files that are not done yet. */
  lemma WritesAreNotDone(d: Deploy, site: Site, k: string)
    ensures k in Writes(d, site) <==> k in d.want && !IsDone(d, site, k)
  {
    WritesFacts(d, site);
  }

  ghost predicate InOrder(ks: seq<string>) {
    forall i, j :: 0 <= i < j < |ks| ==> ks[i] != ks[j] && Leq(ks[i], ks[j])
  }

  lemma OrderPrepends(k: string, ks: seq<string>)
    requires InOrder(ks) && forall x <- ks :: k != x && Leq(k, x)
    ensures InOrder([k] + ks)
  {
    var all := [k] + ks;
    forall i, j | 0 <= i < j < |all| ensures all[i] != all[j] && Leq(all[i], all[j]) {
      assert all[j] == ks[j - 1] && ks[j - 1] in ks;
      if i > 0 { assert all[i] == ks[i - 1]; }
    }
  }

  lemma SortedIsInOrder(s: set<string>)
    ensures InOrder(Sorted(s))
  {
    SortedFacts(s);
  }

  /** They are written in key order, each once; the batch is the first ten. */
  lemma BatchIsFirstTen(d: Deploy, site: Site)
    ensures InOrder(Writes(d, site)) && Batch(d, site) == if |Writes(d, site)| <= 10 then Writes(d, site) else Writes(d, site)[..10]
  {
    WantedInOrder(d);
    SortedIsInOrder(d.want.Keys);
    DifferingInOrder(d, site, Sorted(d.want.Keys));
  }

  lemma {:induction false} DifferingInOrder(d: Deploy, site: Site, ks: seq<string>)
    requires (forall k <- ks :: k in d.want) && InOrder(ks)
    ensures InOrder(Differing(d, site, ks)) && forall x <- Differing(d, site, ks) :: x in ks
  {
    if ks != [] {
      DifferingInOrder(d, site, ks[1..]);
      forall x <- ks[1..] ensures ks[0] != x && Leq(ks[0], x) { var j :| 0 <= j < |ks[1..]| && ks[1..][j] == x; assert ks[j + 1] == x; }
      OrderPrepends(ks[0], Differing(d, site, ks[1..]));
    }
  }

  /** What a round that succeeds leaves of one key. */
  lemma RoundAt(d: Deploy, site: Site, k: string)
    requires Fresh(d) && SyncStep(d, site).1.Left?
    ensures var t := SyncStep(d, site).0;
      && (k in d.want ==> (Differs(d, t, k) <==> Differs(d, site, k) && k !in Batch(d, site)))
      && (k in d.want && !Blocked(d, site, k) ==> !Blocked(d, t, k))
      && (k in site.assets && (k in d.want || SyncStep(d, site).1.files > 0) ==> k in t.assets)
  {
    SyncAt(d, site, k);
    BatchIsDistinct(d, site);
  }

  lemma BatchIsPrefix(d: Deploy, site: Site)
    ensures Batch(d, site) <= Writes(d, site)
  {
  }

  /** Each round leaves exactly the pending writes but its own, never deletes a wanted file, and deletes
      nothing unless it is the last. */
  lemma RoundWritesItsBatch(d: Deploy, site: Site)
    requires Fresh(d) && SyncStep(d, site).1.Left?
    ensures Writes(d, SyncStep(d, site).0) == Writes(d, site)[|Batch(d, site)|..]
    ensures SyncStep(d, site).1.files == |Writes(d, SyncStep(d, site).0)|
    ensures forall k :: k in site.assets && (k in d.want || SyncStep(d, site).1.files > 0) ==> k in SyncStep(d, site).0.assets
    ensures NoneBlocked(d, site) ==> NoneBlocked(d, SyncStep(d, site).0)
  {
    RoundLeavesTheRest(d, site);
    SyncAt(d, site, "");
    forall k | k in site.assets && (k in d.want || SyncStep(d, site).1.files > 0) ensures k in SyncStep(d, site).0.assets { RoundAt(d, site, k); }
    forall k <- d.want.Keys | !Blocked(d, site, k) ensures !Blocked(d, SyncStep(d, site).0, k) { RoundAt(d, site, k); }
  }

  lemma RoundLeavesTheRest(d: Deploy, site: Site)
    requires Fresh(d) && SyncStep(d, site).1.Left?
    ensures Writes(d, SyncStep(d, site).0) == Writes(d, site)[|Batch(d, site)|..]
  {
    var t := SyncStep(d, site).0;
    WantedInOrder(d);
    BatchIsPrefix(d, site);
    forall k <- Sorted(d.want.Keys) ensures Differs(d, t, k) <==> Differs(d, site, k) && k !in Batch(d, site) { RoundAt(d, site, k); }
    DifferingAfter(d, site, t, Sorted(d.want.Keys), Batch(d, site));
  }

  // ---------- the whole deploy ----------

  /** Rounds, run until one reports nothing left or fails; at most one more than `fuel` of them. */
  function Repeat<S>(step: S -> (S, Outcome), s: S, fuel: nat): (S, Outcome)
    decreases fuel
  {
    var (t, out) := step(s);
    if out.Failed? || out.files == 0 || fuel == 0 then (t, out) else Repeat(step, t, fuel - 1)
  }

  /** The rounds of a deploy. */
  function Rounds(d: Deploy, site: Site, fuel: nat): (Site, Outcome) {
    Repeat(Round(d), site, fuel)
  }

  function Round(d: Deploy): Site -> (Site, Outcome) { x => SyncStep(d, x) }

  ghost function Unblocked(d: Deploy): Site -> bool { x => NoneBlocked(d, x) }

  function Pending(d: Deploy): Site -> nat { x => |Writes(d, x)| }


  /** How many rounds `n` writes take, beyond the first. */
  function MoreRounds(n: nat): nat {
    if n <= MAX_FILES then 0 else 1 + MoreRounds(n - MAX_FILES)
  }

  lemma {:induction false} MoreRoundsIsCeiling(n: nat)
    ensures n > 0 ==> MoreRounds(n) + 1 == (n + MAX_FILES - 1) / MAX_FILES
    ensures n == 0 ==> MoreRounds(n) == 0
  {
    if n > MAX_FILES { MoreRoundsIsCeiling(n - MAX_FILES); }
  }

  /** The site is exactly the bundle: it lists the wanted keys with the wanted hashes, and the wanted
      properties are the remembered ones. */
  ghost predicate Matches(d: Deploy, site: Site) {
    && Live(site.assets, d.sha).Keys == d.want.Keys
    && forall k <- d.want.Keys ::
         Live(site.assets, d.sha)[k] == d.want[k].digest && PropsOf(site.applied, k) == d.want[k].props
  }

  lemma LastRoundMatches(d: Deploy, site: Site)
    requires Fresh(d) && SyncStep(d, site).1 == Left(0)
    ensures Matches(d, SyncStep(d, site).0)
  {
    var t := SyncStep(d, site).0;
    RoundWritesItsBatch(d, site);
    WritesFacts(d, t);
    forall k ensures k in Live(t.assets, d.sha) ==> k in d.want { SyncAt(d, site, k); }
    forall k <- d.want.Keys ensures !Differs(d, t, k) { assert k !in Writes(d, t); }
  }

  predicate LeavesAfter(out: Outcome, n: int) {
    out.Left? && out.files == n && n > 0
  }

  lemma RoundSucceeds(d: Deploy, site: Site)
    requires Fresh(d) && NoneBlocked(d, site)
    ensures SyncStep(d, site).1.Left? && NoneBlocked(d, SyncStep(d, site).0)
    ensures var n := |Writes(d, site)|; SyncStep(d, site).1.files == if n <= MAX_FILES then 0 else n - MAX_FILES
    ensures |Writes(d, SyncStep(d, site).0)| == SyncStep(d, site).1.files
    ensures SyncStep(d, site).1.files == 0 ==> Matches(d, SyncStep(d, site).0)
  {
    SyncFailsOnBlocked(d, site);
    RoundWritesItsBatch(d, site);
    if SyncStep(d, site).1.files == 0 { LastRoundMatches(d, site); }
  }

  /** Rounds that keep `inv` and leave all but the first ten of what there was to write. */
  ghost predicate Drains<S(!new)>(step: S -> (S, Outcome), inv: S -> bool, writes: S -> nat) {
    forall s: S :: inv(s) ==>
      && step(s).1 == Left(if writes(s) <= MAX_FILES then 0 else writes(s) - MAX_FILES)
      && inv(step(s).0) && writes(step(s).0) == step(s).1.files
  }

  lemma {:induction false} DrainedInTime<S(!new)>(step: S -> (S, Outcome), inv: S -> bool, writes: S -> nat, s: S) returns (last: S)
    requires Drains(step, inv, writes) && inv(s)
    ensures inv(last) && step(last).1 == Left(0) && Repeat(step, s, MoreRounds(writes(s))) == step(last)
    decreases writes(s)
  {
    last := s;
    if writes(s) > MAX_FILES { last := DrainedInTime(step, inv, writes, step(s).0); }
  }

  lemma MoreRoundsNext(n: nat)
    ensures MoreRounds(n) == if n <= MAX_FILES then 0 else 1 + MoreRounds(n - MAX_FILES)
  {
  }

  lemma {:induction false} DrainedByTen<S(!new)>(step: S -> (S, Outcome), inv: S -> bool, writes: S -> nat, s: S, n: nat)
    requires Drains(step, inv, writes) && inv(s) && n < MoreRounds(writes(s))
    ensures LeavesAfter(Repeat(step, s, n).1, writes(s) - MAX_FILES * (n + 1))
    decreases n
  {
    var t := step(s).0;
    MoreRoundsNext(writes(s));
    assert writes(t) == writes(s) - MAX_FILES && step(s).1 == Left(writes(t));
    if n > 0 { DrainedByTen(step, inv, writes, t, n - 1); }
  }

  lemma {:induction false} NeverDrained<S(!new)>(step: S -> (S, Outcome), inv: S -> bool, s: S, fuel: nat)
    requires inv(s) && forall x: S :: inv(x) && step(x).1.Left? ==> inv(step(x).0) && step(x).1.files > 0
    ensures Repeat(step, s, fuel).1 != Left(0)
    decreases fuel
  {
    if step(s).1.Left? && fuel > 0 { NeverDrained(step, inv, step(s).0, fuel - 1); }
  }

  lemma RoundDrains(d: Deploy, site: Site)
    requires Fresh(d) && Unblocked(d)(site)
    ensures Round(d)(site).1 == Left(if Pending(d)(site) <= MAX_FILES then 0 else Pending(d)(site) - MAX_FILES)
    ensures Unblocked(d)(Round(d)(site).0) && Pending(d)(Round(d)(site).0) == Round(d)(site).1.files
  {
    RoundSucceeds(d, site);
  }

  lemma RoundsDrain(d: Deploy)
    requires Fresh(d)
    ensures Drains(Round(d), Unblocked(d), Pending(d))
  {
    forall x: Site | Unblocked(d)(x) { RoundDrains(d, x); }
  }

  /** Convergence: from any site where no wanted file is blocked, after the ceiling of writes/10 rounds
      (one if there are none) the site is the bundle and nothing is left to write. */
  lemma SyncConverges(d: Deploy, site: Site)
    requires Fresh(d) && NoneBlocked(d, site)
    ensures var (t, out) := Rounds(d, site, MoreRounds(|Writes(d, site)|));
      out == Left(0) && Matches(d, t) && |Writes(d, t)| == 0
  {
    RoundsDrain(d);
    var last := DrainedInTime(Round(d), Unblocked(d), Pending(d), site);
    RoundSucceeds(d, last);
  }

  /** No earlier round reports itself the last: round n leaves all but the first 10(n+1) writes. */
  lemma RoundsCountDown(d: Deploy, site: Site, n: nat)
    requires Fresh(d) && NoneBlocked(d, site) && n < MoreRounds(|Writes(d, site)|)
    ensures LeavesAfter(Rounds(d, site, n).1, |Writes(d, site)| - MAX_FILES * (n + 1))
  {
    RoundsDrain(d);
    DrainedByTen(Round(d), Unblocked(d), Pending(d), site, n);
  }

  /** A round that succeeds leaves what is blocked as it is, and is not the last. */
  lemma BlockedStays(d: Deploy, site: Site, k: string)
    requires Fresh(d) && k in d.want && Blocked(d, site, k) && SyncStep(d, site).1.Left?
    ensures Blocked(d, SyncStep(d, site).0, k) && SyncStep(d, site).1.files > 0
  {
    SyncAt(d, site, k);
    RoundWritesItsBatch(d, site);
    WritesFacts(d, SyncStep(d, site).0);
    assert k in Writes(d, SyncStep(d, site).0);
  }

  lemma BlockedForEver(d: Deploy, site: Site, k: string, fuel: nat)
    requires Fresh(d) && k in d.want && Blocked(d, site, k)
    ensures Rounds(d, site, fuel).1 != Left(0)
  {
    forall x: Site | Blocked(d, x, k) && SyncStep(d, x).1.Left? ensures Blocked(d, SyncStep(d, x).0, k) && SyncStep(d, x).1.files > 0 { BlockedStays(d, x, k); }
    NeverDrained(Round(d), x => Blocked(d, x, k), site, fuel);
  }

  /** A deploy runs to its end exactly when no wanted file is blocked at its start. */
  lemma DeployEndsIff(d: Deploy, site: Site)
    requires Fresh(d)
    ensures Rounds(d, site, MoreRounds(|Writes(d, site)|)).1 == Left(0) <==> NoneBlocked(d, site)
  {
    if NoneBlocked(d, site) {
      SyncConverges(d, site);
    } else {
      var k :| k in d.want && Blocked(d, site, k);
      BlockedForEver(d, site, k, MoreRounds(|Writes(d, site)|));
    }
  }

  /** On a canister that answers every create of an existing key alike: if it refuses, a deploy ends exactly when no
      wanted file is half written; if it never does, every deploy ends. */
  lemma DeployEndsByAnswer(d: Deploy, site: Site)
    requires Fresh(d)
    ensures (forall a, kind, props :: d.again(a, kind, props).None?) ==>
      (Rounds(d, site, MoreRounds(|Writes(d, site)|)).1 == Left(0) <==> forall k <- d.want.Keys :: !HalfWritten(site, k))
    ensures (forall a, kind, props :: d.again(a, kind, props).Some?) ==> Rounds(d, site, MoreRounds(|Writes(d, site)|)).1 == Left(0)
  {
    DeployEndsIff(d, site);
  }

  /** What the conductor remembers is what the canister has. */
  ghost predicate Faithful(site: Site) {
    forall k :: k in site.assets ==> site.assets[k].props == PropsOf(site.applied, k)
  }

  /** If the remembered properties are the canister's own, a round keeps them so exactly when every asset that it had
      to create again took the properties given. */
  lemma RoundKeepsFaithfulIff(d: Deploy, site: Site)
    requires Fresh(d) && Faithful(site) && SyncStep(d, site).1.Left?
    ensures Faithful(SyncStep(d, site).0) <==>
      forall k <- Batch(d, site) :: k in d.want && (HalfWritten(site, k) ==> !Blocked(d, site, k) && Final(d, site, k).props == d.want[k].props)
  {
    var t := SyncStep(d, site).0;
    forall k
      ensures k in t.assets && k !in Batch(d, site) ==> t.assets[k].props == PropsOf(t.applied, k)
      ensures k in Batch(d, site) ==> k in d.want && !Blocked(d, site, k) && At(t.assets, k) == Some(Final(d, site, k)) && PropsOf(t.applied, k) == d.want[k].props
      ensures k in Batch(d, site) && !HalfWritten(site, k) ==> Final(d, site, k).props == d.want[k].props
    {
      SyncAt(d, site, k);
      assert k in t.assets ==> At(t.assets, k) == Some(t.assets[k]);
    }
  }

  /** A site that already is the bundle is left as it is, in one round. */
  lemma NothingToDo(d: Deploy, site: Site)
    requires Fresh(d) && Matches(d, site)
    ensures SyncStep(d, site).1 == Left(0) && SyncStep(d, site).0.assets == site.assets
    ensures forall k <- d.want.Keys :: PropsOf(SyncStep(d, site).0.applied, k) == PropsOf(site.applied, k)
  {
    var w := Writes(d, site);
    assert |w| > 0 ==> w[0] in w;
    WritesFacts(d, site);
  }
}
