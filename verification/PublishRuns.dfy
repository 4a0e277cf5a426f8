/** What publishing leaves: the namespace equal to the bundle, and nothing else touched. */
module PublishRuns {
  import opened Octets
  import opened Options
  import opened Order
  import opened Store
  import opened Publish

  /** A path that its store key spells as it is. */
  predicate Clean(p: string) { p != "" && Trimmed(p) == p }

  /** A listing without the manifest, which publishing leaves alone. */
  function Served(h: Hashes): Hashes { h - {MANIFEST} }

  ghost predicate Exact(files: Files, ns: string, bundle: Bundle, sha: Sha) {
    Served(Listed(files, ns, sha)) == HashesOf(bundle, sha)
  }

  /** Whether what is listed at `p` is what the bundle has there. */
  ghost predicate ExactAt(files: Files, ns: string, bundle: Bundle, sha: Sha, p: string) {
    SameAt(Served(Listed(files, ns, sha)), HashesOf(bundle, sha), p)
  }

  lemma SameHashes(a: Hashes, b: Hashes)
    ensures a == b <==> forall p :: SameAt(a, b, p)
  {
    if forall p :: SameAt(a, b, p) {
      forall p ensures p in a <==> p in b { assert SameAt(a, b, p); }
      forall p | p in a ensures a[p] == b[p] { assert SameAt(a, b, p); }
    }
  }

  lemma ExactEverywhere(files: Files, ns: string, bundle: Bundle, sha: Sha)
    ensures Exact(files, ns, bundle, sha) <==> forall p :: ExactAt(files, ns, bundle, sha, p)
  {
    var a, b := Served(Listed(files, ns, sha)), HashesOf(bundle, sha);
    SameHashes(a, b);
    forall p ensures SameAt(a, b, p) <==> ExactAt(files, ns, bundle, sha, p) {}
  }

  // ---------- one key at a time ----------

  /** Two states of the store that agree at a key. */
  ghost predicate Same(a: Files, b: Files, key: string) {
    (key in a <==> key in b) && (key in a ==> a[key] == b[key])
  }

  lemma {:induction false} PutElsewhere(files: Files, ns: string, ps: seq<string>, plan: set<string>, bundle: Bundle, kind: string -> string, key: string)
    requires forall p <- ps :: p in bundle && (p in plan ==> StoreKey(ns, p) != key)
    ensures Same(files, PutEach(files, ns, ps, plan, bundle, kind), key)
    decreases |ps|
  {
    if ps != [] {
      var p := ps[0];
      var next := if p in plan then Put(files, StoreKey(ns, p), bundle[p], kind(p)) else files;
      PutElsewhere(next, ns, ps[1..], plan, bundle, kind, key);
    }
  }

  lemma {:induction false} PutThere(files: Files, ns: string, ps: seq<string>, plan: set<string>, bundle: Bundle, kind: string -> string, i: nat)
    requires i < |ps| && ps[i] in plan && forall p <- ps :: p in bundle
    requires forall j :: i < j < |ps| && ps[j] in plan ==> StoreKey(ns, ps[j]) != StoreKey(ns, ps[i])
    ensures var now := PutEach(files, ns, ps, plan, bundle, kind);
      StoreKey(ns, ps[i]) in now && now[StoreKey(ns, ps[i])].data == bundle[ps[i]]
    decreases |ps|
  {
    var p, rest := ps[0], ps[1..];
    var next := if p in plan then Put(files, StoreKey(ns, p), bundle[p], kind(p)) else files;
    if i == 0 {
      forall q <- rest ensures q in bundle && (q in plan ==> StoreKey(ns, q) != StoreKey(ns, p)) {
        var j :| 0 <= j < |rest| && rest[j] == q;
        assert ps[j + 1] == q;
      }
      PutElsewhere(next, ns, rest, plan, bundle, kind, StoreKey(ns, p));
    } else {
      PutThere(next, ns, rest, plan, bundle, kind, i - 1);
    }
  }

  lemma {:induction false} DropAt(files: Files, ns: string, ps: seq<string>, key: string)
    ensures var now := DropEach(files, ns, ps);
      if exists p <- ps :: StoreKey(ns, p) == key then key !in now else Same(files, now, key)
    decreases |ps|
  {
    if ps != [] { DropAt(files - {StoreKey(ns, ps[0])}, ns, ps[1..], key); }
  }

  /** The paths that publishing writes or deletes. */
  ghost function Plan(files: Files, ns: string, bundle: Bundle, sha: Sha): set<string> {
    var a, b := Listed(files, ns, sha), HashesOf(bundle, sha);
    Uploads(a, b) + Deletes(a, b)
  }

  lemma PlanIsTheDifference(files: Files, ns: string, bundle: Bundle, sha: Sha, p: string)
    ensures p in Plan(files, ns, bundle, sha) <==> !ExactAt(files, ns, bundle, sha, p)
  {
  }

  /** A key that no planned path spells is left as it is. */
  lemma PublishElsewhere(files: Files, ns: string, bundle: Bundle, kind: string -> string, sha: Sha, key: string)
    requires forall p <- Plan(files, ns, bundle, sha) :: StoreKey(ns, p) != key
    ensures Same(files, PublishStep(files, ns, bundle, kind, sha), key)
  {
    var a, b := Listed(files, ns, sha), HashesOf(bundle, sha);
    SortedFacts(b.Keys);
    SortedFacts(Deletes(a, b));
    PutElsewhere(files, ns, Sorted(b.Keys), Uploads(a, b), bundle, kind, key);
    DropAt(PutEach(files, ns, Sorted(b.Keys), Uploads(a, b), bundle, kind), ns, Sorted(Deletes(a, b)), key);
  }

  /** Namespaces that do not lie under this one are not touched. */
  lemma OtherNamespacesUntouched(files: Files, ns: string, bundle: Bundle, kind: string -> string, sha: Sha, key: string)
    requires !(Prefix(ns) <= key)
    ensures Same(files, PublishStep(files, ns, bundle, kind, sha), key)
  {
    forall p <- Plan(files, ns, bundle, sha) ensures StoreKey(ns, p) != key { KeyIsUnderPrefix(ns, p); }
    PublishElsewhere(files, ns, bundle, kind, sha, key);
  }

  // ---------- exactly the bundle ----------

  ghost predicate CleanPlan(files: Files, ns: string, bundle: Bundle, sha: Sha) {
    forall p <- Plan(files, ns, bundle, sha) :: Clean(p)
  }

  lemma SameIsExactAt(files: Files, now: Files, ns: string, bundle: Bundle, sha: Sha, p: string)
    requires Same(files, now, Prefix(ns) + p)
    ensures ExactAt(now, ns, bundle, sha, p) <==> ExactAt(files, ns, bundle, sha, p)
  {
    ListedAt(files, ns, sha, p);
    ListedAt(now, ns, sha, p);
  }

  lemma CleanKeys(ns: string, p: string, q: string)
    requires Clean(p)
    ensures StoreKey(ns, p) == Prefix(ns) + p
    ensures Clean(q) && q != p ==> StoreKey(ns, q) != StoreKey(ns, p)
  {
    KeyIsUnderPrefix(ns, p);
    KeyIsUnderPrefix(ns, q);
    if Clean(q) && StoreKey(ns, q) == StoreKey(ns, p) {
      assert q == StoreKey(ns, q)[|Prefix(ns)|..] && p == StoreKey(ns, p)[|Prefix(ns)|..];
    }
  }

  /** A file that holds the bundle's bytes is as the bundle has it. */
  lemma HeldIsExact(now: Files, ns: string, bundle: Bundle, sha: Sha, p: string)
    requires p in bundle && p != MANIFEST && p != "" && Prefix(ns) + p in now && now[Prefix(ns) + p].data == bundle[p]
    ensures ExactAt(now, ns, bundle, sha, p)
  {
    ListedAt(now, ns, sha, p);
  }

  lemma UploadedIsHeld(files: Files, ns: string, bundle: Bundle, kind: string -> string, sha: Sha, p: string)
    requires CleanPlan(files, ns, bundle, sha) && p in Uploads(Listed(files, ns, sha), HashesOf(bundle, sha))
    ensures var now := PublishStep(files, ns, bundle, kind, sha); p in bundle && Prefix(ns) + p in now && now[Prefix(ns) + p].data == bundle[p]
  {
    var a, b := Listed(files, ns, sha), HashesOf(bundle, sha);
    var ps, key := Sorted(b.Keys), StoreKey(ns, p);
    SortedFacts(b.Keys);
    assert p in Plan(files, ns, bundle, sha) && p in ps;
    var i :| 0 <= i < |ps| && ps[i] == p;
    forall j | i < j < |ps| && ps[j] in Uploads(a, b) ensures StoreKey(ns, ps[j]) != key {
      assert ps[j] in Plan(files, ns, bundle, sha);
      CleanKeys(ns, p, ps[j]);
    }
    PutThere(files, ns, ps, Uploads(a, b), bundle, kind, i);
    DropsSpare(files, PutEach(files, ns, ps, Uploads(a, b), bundle, kind), ns, bundle, sha, p);
    CleanKeys(ns, p, p);
  }

  lemma UploadedIsExact(files: Files, ns: string, bundle: Bundle, kind: string -> string, sha: Sha, p: string)
    requires CleanPlan(files, ns, bundle, sha) && p in Uploads(Listed(files, ns, sha), HashesOf(bundle, sha))
    ensures ExactAt(PublishStep(files, ns, bundle, kind, sha), ns, bundle, sha, p)
  {
    UploadedIsHeld(files, ns, bundle, kind, sha, p);
    assert p in Plan(files, ns, bundle, sha);
    HeldIsExact(PublishStep(files, ns, bundle, kind, sha), ns, bundle, sha, p);
  }

  /** The deletions leave what a planned upload wrote. */
  lemma DropsSpare(files: Files, put: Files, ns: string, bundle: Bundle, sha: Sha, p: string)
    requires CleanPlan(files, ns, bundle, sha) && p in Uploads(Listed(files, ns, sha), HashesOf(bundle, sha))
    ensures Same(put, DropEach(put, ns, Sorted(Deletes(Listed(files, ns, sha), HashesOf(bundle, sha)))), StoreKey(ns, p))
  {
    var deletes := Deletes(Listed(files, ns, sha), HashesOf(bundle, sha));
    SortedFacts(deletes);
    assert p in Plan(files, ns, bundle, sha);
    forall q <- Sorted(deletes) ensures StoreKey(ns, q) != StoreKey(ns, p) {
      assert q in Plan(files, ns, bundle, sha);
      CleanKeys(ns, p, q);
    }
    DropAt(put, ns, Sorted(deletes), StoreKey(ns, p));
  }

  lemma DeletedIsExact(files: Files, ns: string, bundle: Bundle, kind: string -> string, sha: Sha, p: string)
    requires CleanPlan(files, ns, bundle, sha) && p in Deletes(Listed(files, ns, sha), HashesOf(bundle, sha))
    ensures ExactAt(PublishStep(files, ns, bundle, kind, sha), ns, bundle, sha, p)
  {
    var a, b := Listed(files, ns, sha), HashesOf(bundle, sha);
    SortedFacts(b.Keys);
    SortedFacts(Deletes(a, b));
    assert p in Plan(files, ns, bundle, sha);
    CleanKeys(ns, p, p);
    var put := PutEach(files, ns, Sorted(b.Keys), Uploads(a, b), bundle, kind);
    DropAt(put, ns, Sorted(Deletes(a, b)), StoreKey(ns, p));
    ListedAt(PublishStep(files, ns, bundle, kind, sha), ns, sha, p);
  }

  lemma CleanPlanIsExact(files: Files, ns: string, bundle: Bundle, kind: string -> string, sha: Sha)
    requires CleanPlan(files, ns, bundle, sha)
    ensures Exact(PublishStep(files, ns, bundle, kind, sha), ns, bundle, sha)
  {
    var now := PublishStep(files, ns, bundle, kind, sha);
    forall p ensures ExactAt(now, ns, bundle, sha, p) {
      PlanIsTheDifference(files, ns, bundle, sha, p);
      if p in Uploads(Listed(files, ns, sha), HashesOf(bundle, sha)) {
        UploadedIsExact(files, ns, bundle, kind, sha, p);
      } else if p in Deletes(Listed(files, ns, sha), HashesOf(bundle, sha)) {
        DeletedIsExact(files, ns, bundle, kind, sha, p);
      } else {
        forall q <- Plan(files, ns, bundle, sha) ensures StoreKey(ns, q) != Prefix(ns) + p {
          CleanKeys(ns, q, q);
          assert q == StoreKey(ns, q)[|Prefix(ns)|..];
        }
        PublishElsewhere(files, ns, bundle, kind, sha, Prefix(ns) + p);
        SameIsExactAt(files, now, ns, bundle, sha, p);
      }
    }
    ExactEverywhere(now, ns, bundle, sha);
  }

  /** The longest of some paths. */
  lemma {:induction false} Longest(s: set<string>) returns (m: string)
    requires s != {}
    ensures m in s && forall x <- s :: |x| <= |m|
  {
    m :| m in s;
    if s != {m} {
      var n := Longest(s - {m});
      if |n| > |m| { m := n; }
    }
  }

  /** A path that is not clean, and the longest such, stays wrong: nothing in the plan spells its key. */
  lemma UncleanStaysWrong(files: Files, ns: string, bundle: Bundle, kind: string -> string, sha: Sha)
    requires !CleanPlan(files, ns, bundle, sha)
    ensures !Exact(PublishStep(files, ns, bundle, kind, sha), ns, bundle, sha)
  {
    var now, plan := PublishStep(files, ns, bundle, kind, sha), Plan(files, ns, bundle, sha);
    var p := Longest(set q <- plan | !Clean(q));
    PlanIsTheDifference(files, ns, bundle, sha, p);
    if p == "" {
      ListedAt(files, ns, sha, p);
      ListedAt(now, ns, sha, p);
    } else {
      forall q <- plan ensures StoreKey(ns, q) != Prefix(ns) + p {
        KeyIsUnderPrefix(ns, q);
        assert StoreKey(ns, q)[|Prefix(ns)|..] == Trimmed(q);
        assert Trimmed(q) != p;
      }
      PublishElsewhere(files, ns, bundle, kind, sha, Prefix(ns) + p);
      SameIsExactAt(files, now, ns, bundle, sha, p);
    }
    ExactEverywhere(now, ns, bundle, sha);
    assert !ExactAt(now, ns, bundle, sha, p);
  }

  /** Publishing makes the namespace exactly the bundle if and only if every path to write or delete is one that its
      key spells: no outer blanks, no leading slash. */
  lemma PublishIsExactIff(files: Files, ns: string, bundle: Bundle, kind: string -> string, sha: Sha)
    ensures Exact(PublishStep(files, ns, bundle, kind, sha), ns, bundle, sha) <==> CleanPlan(files, ns, bundle, sha)
  {
    if CleanPlan(files, ns, bundle, sha) { CleanPlanIsExact(files, ns, bundle, kind, sha); }
    else { UncleanStaysWrong(files, ns, bundle, kind, sha); }
  }

  /** Publishing again writes and deletes nothing if and only if the namespace is exact. */
  lemma NothingToDoIff(files: Files, ns: string, bundle: Bundle, sha: Sha)
    ensures Plan(files, ns, bundle, sha) == {} <==> Exact(files, ns, bundle, sha)
  {
    ExactEverywhere(files, ns, bundle, sha);
    forall p ensures p in Plan(files, ns, bundle, sha) <==> !ExactAt(files, ns, bundle, sha, p) {
      PlanIsTheDifference(files, ns, bundle, sha, p);
    }
  }

  lemma SameFiles(a: Files, b: Files)
    requires forall key :: Same(a, b, key)
    ensures a == b
  {
    forall key ensures key in a <==> key in b { assert Same(a, b, key); }
    forall key | key in a ensures a[key] == b[key] { assert Same(a, b, key); }
  }

  /** A second publish writes and deletes nothing. */
  lemma SecondPublishIsEmpty(files: Files, ns: string, bundle: Bundle, kind: string -> string, sha: Sha)
    requires CleanPlan(files, ns, bundle, sha)
    ensures var now := PublishStep(files, ns, bundle, kind, sha);
      Plan(now, ns, bundle, sha) == {} && PublishStep(now, ns, bundle, kind, sha) == now
  {
    var now := PublishStep(files, ns, bundle, kind, sha);
    CleanPlanIsExact(files, ns, bundle, kind, sha);
    NothingToDoIff(now, ns, bundle, sha);
    var again := PublishStep(now, ns, bundle, kind, sha);
    forall key ensures Same(now, again, key) { PublishElsewhere(now, ns, bundle, kind, sha, key); }
    SameFiles(now, again);
  }

  /** The manifest is neither hashed nor touched, unless another planned path is trimmed to its name. */
  lemma ManifestUntouched(files: Files, ns: string, bundle: Bundle, kind: string -> string, sha: Sha)
    requires forall q <- Plan(files, ns, bundle, sha) :: Trimmed(q) != MANIFEST
    ensures Same(files, PublishStep(files, ns, bundle, kind, sha), Prefix(ns) + MANIFEST)
  {
    forall q <- Plan(files, ns, bundle, sha) ensures StoreKey(ns, q) != Prefix(ns) + MANIFEST {
      KeyIsUnderPrefix(ns, q);
      assert StoreKey(ns, q)[|Prefix(ns)|..] == Trimmed(q);
    }
    PublishElsewhere(files, ns, bundle, kind, sha, Prefix(ns) + MANIFEST);
  }

  lemma CleanPlanSparesManifest(files: Files, ns: string, bundle: Bundle, sha: Sha)
    requires CleanPlan(files, ns, bundle, sha)
    ensures forall q <- Plan(files, ns, bundle, sha) :: Trimmed(q) != MANIFEST
  {
    assert MANIFEST !in Plan(files, ns, bundle, sha);
  }

  // ---------- two namespaces that publishing does not make exact ----------

  /** A bundle's path that begins with a blank, into an empty store: what is listed afterwards has no blank. */
  lemma BlankIsLost(ns: string, data: Bytes, kind: string -> string, sha: Sha)
    ensures !Exact(PublishStep(map[], ns, map[" x" := data], kind, sha), ns, map[" x" := data], sha)
  {
    var bundle: Bundle := map[" x" := data];
    assert IsSpace(' ') && " x"[0] == ' ';
    assert |TrimLeft(" x", IsSpace)| < |" x"|;
    assert !Clean(" x");
    ListedAt(map[], ns, sha, " x");
    assert " x" in HashesOf(bundle, sha) && " x" in Plan(map[], ns, bundle, sha);
    PublishIsExactIff(map[], ns, bundle, kind, sha);
  }

  /** A stored key with two slashes after its namespace: the deletion misses it and it stays listed. */
  lemma DoubleSlashStays(ns: string, data: Bytes, kind: string -> string, sha: Sha)
    ensures var files: Files := map[Prefix(ns) + "/x" := File(data, "")];
      !Exact(PublishStep(files, ns, map[], kind, sha), ns, map[], sha)
  {
    var files: Files := map[Prefix(ns) + "/x" := File(data, "")];
    ListedAt(files, ns, sha, "/x");
    assert "/x" in Plan(files, ns, map[], sha);
    var stripped := Strip("/x");
    assert |TrimLeft(stripped, IsSlash)| < 2 by {
      if |stripped| == 2 { assert stripped == "/x" && stripped[0] == '/'; }
    }
    assert !Clean("/x");
    PublishIsExactIff(files, ns, map[], kind, sha);
  }

  // ---------- what is served afterwards ----------

  /** Where every planned path is spelt by its key: each file of the bundle but the manifest is served with its hash, with the
      bundle's own bytes where it was not so listed before, and nothing else is listed but the manifest. */
  lemma PublishServes(files: Files, ns: string, bundle: Bundle, kind: string -> string, sha: Sha, p: string)
    requires CleanPlan(files, ns, bundle, sha) && p != ".casals-bundle.json"
    ensures var now, key := PublishStep(files, ns, bundle, kind, sha), Prefix(ns) + p;
      && (p in bundle ==> key in now && sha(now[key].data) == sha(bundle[p]))
      && (p in bundle && !(key in files && sha(files[key].data) == sha(bundle[p])) ==> now[key].data == bundle[p])
      && (p !in bundle && p != "" ==> key !in now)
  {
    var now, key := PublishStep(files, ns, bundle, kind, sha), Prefix(ns) + p;
    PlanIs(files, ns, bundle, sha, p);
    if p in Uploads(Listed(files, ns, sha), HashesOf(bundle, sha)) {
      UploadedIsHeld(files, ns, bundle, kind, sha, p);
    } else {
      CleanPlanIsExact(files, ns, bundle, kind, sha);
      ExactEverywhere(now, ns, bundle, sha);
      assert ExactAt(now, ns, bundle, sha, p);
      ListedAt(now, ns, sha, p);
    }
  }

  /** The report: what was written is what was not listed with its hash, what was deleted what the bundle has not. */
  lemma PlanIs(files: Files, ns: string, bundle: Bundle, sha: Sha, p: string)
    ensures p in Uploads(Listed(files, ns, sha), HashesOf(bundle, sha)) <==>
      p in bundle && p != ".casals-bundle.json" && !(p != "" && Prefix(ns) + p in files && sha(files[Prefix(ns) + p].data) == sha(bundle[p]))
    ensures p in Deletes(Listed(files, ns, sha), HashesOf(bundle, sha)) <==>
      p != "" && Prefix(ns) + p in files && p != ".casals-bundle.json" && p !in bundle
  {
    ListedAt(files, ns, sha, p);
  }
}
