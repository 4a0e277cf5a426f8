/** Publishing a bundle: the namespace becomes exactly the bundle, by writing only the files that differ
    (casals_cli/registry.py, casals_cli/bundle.py). */
module Publish {
  import opened Octets
  import opened Options
  import opened Order
  import opened Store

  type Hashes = map<string, string>
  type Bundle = map<string, Bytes>

  // ---------- what is compared ----------

  function Paths(files: Files, prefix: string): set<string> {
    set key | key in files && prefix <= key && |key| > |prefix| :: key[|prefix|..]
  }

  /** A namespace's files as they are listed. */
  function Listed(files: Files, ns: string, sha: Sha): Hashes {
    map p | p in Paths(files, Prefix(ns)) && Prefix(ns) + p in files :: sha(files[Prefix(ns) + p].data)
  }

  function HashesOf(bundle: Bundle, sha: Sha): Hashes {
    map p | p in bundle && p != MANIFEST :: sha(bundle[p])
  }

  predicate SameAt(a: Hashes, b: Hashes, p: string) {
    (p in a <==> p in b) && (p in a && p in b ==> a[p] == b[p])
  }

  function Uploads(a: Hashes, b: Hashes): set<string> {
    set p | p in b && p != MANIFEST && !SameAt(a, b, p)
  }

  function Deletes(a: Hashes, b: Hashes): set<string> {
    set p | p in a && p != MANIFEST && p !in b
  }

  // ---------- what is written ----------

  function PutEach(files: Files, ns: string, ps: seq<string>, plan: set<string>, bundle: Bundle, kind: string -> string): Files
    requires forall p <- ps :: p in bundle
    decreases |ps|
  {
    if ps == [] then files
    else
      assert ps[0] in ps;
      var next := if ps[0] in plan then Put(files, StoreKey(ns, ps[0]), bundle[ps[0]], kind(ps[0])) else files;
      PutEach(next, ns, ps[1..], plan, bundle, kind)
  }

  function DropEach(files: Files, ns: string, ps: seq<string>): Files
    decreases |ps|
  {
    if ps == [] then files else DropEach(files - {StoreKey(ns, ps[0])}, ns, ps[1..])
  }

  function PublishStep(files: Files, ns: string, bundle: Bundle, kind: string -> string, sha: Sha): Files {
    var b := HashesOf(bundle, sha);
    var a := Listed(files, ns, sha);
    SortedFacts(b.Keys);
    DropEach(PutEach(files, ns, Sorted(b.Keys), Uploads(a, b), bundle, kind), ns, Sorted(Deletes(a, b)))
  }

  // ---------- the publisher ----------

  /** The store as one publisher sees it, with the keys it knows to be there. */
  class StoreTarget {
    const store: AssetStore
    var keys: Option<set<string>>

    constructor (store: AssetStore)
      ensures this.store == store && keys == None
    {
      this.store, keys := store, None;
    }

    ghost predicate Valid()
      reads this, store
    {
      store.Valid() && (keys.Some? ==> keys.value == store.files.Keys)
    }

    method FileHashes(ns: string) returns (r: Hashes)
      requires Valid()
      modifies this
      ensures Valid() && keys.Some?
      ensures r == Listed(store.files, ns, store.sha)
    {
      var entries := ListEntries(store);
      keys := Some(set i | 0 <= i < |entries| :: entries[i].0);
      AllListed(store.files, store.sha);
      r := Gather(entries, Prefix(ns));
      GatheredIsListed(store.files, ns, store.sha);
    }

    method Upload(ns: string, path: string, data: Bytes, digest: string, kind: string) returns (r: Upload)
      requires Valid() && digest == store.sha(data)
      modifies this, store
      ensures Valid() && r == Uploaded(digest) && (keys.Some? <==> old(keys).Some?)
      ensures store.files == Put(old(store.files), StoreKey(ns, path), data, kind)
    {
      var key := StoreKey(ns, path);
      var known := if keys.Some? then Some(key in keys.value) else None;
      r := UploadBytes(store, ns, path, data, digest, kind, known);
      if keys.Some? {
        keys := Some(keys.value + {key});
      }
    }

    method Delete(ns: string, path: string)
      requires Valid()
      modifies this, store
      ensures Valid() && (keys.Some? <==> old(keys).Some?)
      ensures store.files == old(store.files) - {StoreKey(ns, path)}
    {
      var key := StoreKey(ns, path);
      var batch := store.CreateBatch();
      var ops := [DeleteAsset(key)];
      assert ops[1..] == [];
      assert RunOps(store.files, store.batches[batch], ops, store.sha) == Some(store.files - {key});
      var _ := store.CommitBatch(batch, ops);
      if keys.Some? {
        keys := Some(keys.value - {key});
      }
    }

    method PutFiles(ns: string, ps: seq<string>, plan: set<string>, bundle: Bundle, hashes: Hashes, kind: string -> string)
      returns (written: seq<string>)
      requires Valid() && forall p <- ps :: p in bundle && p in hashes && hashes[p] == store.sha(bundle[p])
      modifies this, store
      ensures Valid()
      ensures store.files == PutEach(old(store.files), ns, ps, plan, bundle, kind)
      ensures forall p :: p in written <==> p in ps && p in plan
    {
      written := [];
      assert ps[0..] == ps;
      for i := 0 to |ps|
        invariant Valid()
        invariant PutEach(store.files, ns, ps[i..], plan, bundle, kind) == PutEach(old(store.files), ns, ps, plan, bundle, kind)
        invariant forall p :: p in written <==> p in ps[..i] && p in plan
      {
        assert ps[i..][0] == ps[i] && ps[i..][1..] == ps[i + 1..];
        var p := ps[i];
        if p in plan {
          var _ := Upload(ns, p, bundle[p], hashes[p], kind(p));
          written := written + [p];
        }
        assert ps[..i + 1] == ps[..i] + [p];
      }
      assert ps[..|ps|] == ps;
    }

    method DropFiles(ns: string, ps: seq<string>)
      requires Valid()
      modifies this, store
      ensures Valid()
      ensures store.files == DropEach(old(store.files), ns, ps)
    {
      assert ps[0..] == ps;
      for i := 0 to |ps|
        invariant Valid()
        invariant DropEach(store.files, ns, ps[i..]) == DropEach(old(store.files), ns, ps)
      {
        assert ps[i..][0] == ps[i] && ps[i..][1..] == ps[i + 1..];
        Delete(ns, ps[i]);
      }
    }

    /** The bundle as the namespace, unless it does not have the hash that its entry declares. */
    method PublishBundle(ns: string, bundle: Bundle, properties: Bundle, expected: string, hash: Hashes -> string, kind: string -> string)
      returns (r: Option<(seq<string>, seq<string>)>)
      requires Valid()
      modifies this, store
      ensures Valid()
      ensures var all := bundle + properties; var digest := hash(HashesOf(bundle, store.sha));
        if expected != "" && expected != digest then r == None && store.files == old(store.files)
        else
          && store.files == PublishStep(old(store.files), ns, all, kind, store.sha)
          && r.Some?
          && (forall p :: p in r.value.0 <==> p in Uploads(Listed(old(store.files), ns, store.sha), HashesOf(all, store.sha)))
          && (forall p :: p in r.value.1 <==> p in Deletes(Listed(old(store.files), ns, store.sha), HashesOf(all, store.sha)))
    {
      var digest := hash(HashesOf(bundle, store.sha));
      if expected != "" && expected != digest {
        return None;
      }
      var all := bundle + properties;
      var hashes := HashesOf(all, store.sha);
      var existing := FileHashes(ns);
      var plan, deletes := Uploads(existing, hashes), Sorted(Deletes(existing, hashes));
      SortedFacts(hashes.Keys);
      SortedFacts(Deletes(existing, hashes));
      var written := PutFiles(ns, Sorted(hashes.Keys), plan, all, hashes, kind);
      DropFiles(ns, deletes);
      r := Some((written, deletes));
    }
  }

  /** The listing's entries under a prefix, as a dictionary. */
  function Gathered(entries: seq<(string, string)>, prefix: string): Hashes {
    if entries == [] then map[]
    else
      var rest, (key, hash) := Gathered(entries[..|entries| - 1], prefix), entries[|entries| - 1];
      if prefix <= key && |key| > |prefix| then rest[key[|prefix|..] := hash] else rest
  }

  method Gather(entries: seq<(string, string)>, prefix: string) returns (r: Hashes)
    ensures r == Gathered(entries, prefix)
  {
    r := map[];
    for i := 0 to |entries|
      invariant r == Gathered(entries[..i], prefix)
    {
      assert entries[..i + 1][..i] == entries[..i];
      var (key, hash) := entries[i];
      if prefix <= key && |key| > |prefix| {
        r := r[key[|prefix|..] := hash];
      }
    }
    assert entries[..|entries|] == entries;
  }

  lemma AllListed(files: Files, sha: Sha)
    ensures (set i | 0 <= i < |Listing(files, sha)| :: Listing(files, sha)[i].0) == files.Keys
  {
    forall key ensures (exists i :: 0 <= i < |Listing(files, sha)| && Listing(files, sha)[i].0 == key) <==> key in files { ListedKeys(files, sha, key); }
  }

  lemma {:induction false} GatheredAt(files: Files, keys: seq<string>, sha: Sha, prefix: string, p: string)
    requires forall k <- keys :: k in files
    ensures var g := Gathered(Entries(files, keys, sha), prefix);
      && (p in g <==> p != "" && prefix + p in keys)
      && (p in g ==> g[p] == sha(files[prefix + p].data))
  {
    if keys != [] {
      var last := |keys| - 1;
      GatheredAt(files, keys[..last], sha, prefix, p);
      assert Entries(files, keys, sha)[..last] == Entries(files, keys[..last], sha);
      if prefix <= keys[last] { assert keys[last] == prefix + keys[last][|prefix|..]; }
    }
  }

  lemma ListedAt(files: Files, ns: string, sha: Sha, p: string)
    ensures var l := Listed(files, ns, sha);
      && (p in l <==> p != "" && Prefix(ns) + p in files)
      && (p in l ==> l[p] == sha(files[Prefix(ns) + p].data))
  {
    var key := Prefix(ns) + p;
    assert key[|Prefix(ns)|..] == p;
    assert Prefix(ns) <= key;
    assert p in Paths(files, Prefix(ns)) <==> p != "" && key in files by {
      if p in Paths(files, Prefix(ns)) {
        var k :| k in files && Prefix(ns) <= k && |k| > |Prefix(ns)| && k[|Prefix(ns)|..] == p;
        assert k == key;
      }
    }
  }

  lemma GatheredIsListed(files: Files, ns: string, sha: Sha)
    ensures Gathered(Listing(files, sha), Prefix(ns)) == Listed(files, ns, sha)
  {
    SortedFacts(files.Keys);
    forall p ensures var g, l := Gathered(Listing(files, sha), Prefix(ns)), Listed(files, ns, sha); (p in g <==> p in l) && (p in g ==> g[p] == l[p]) {
      GatheredAt(files, Sorted(files.Keys), sha, Prefix(ns), p);
      ListedAt(files, ns, sha, p);
    }
  }
}
