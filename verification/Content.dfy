/** The batched sync of a frontend's files (src/content.py) over the asset canister's API (src/store.py):
    at most MAX_FILES files are written a round, and what left the bundle is deleted in the last one.

    SHA-256 is a function the deploy carries, and so is what the canister makes of a create for a key that exists:
    nothing is assumed about either. */
module Content {
  import opened Octets
  import opened Options
  import opened Order

  type Props = map<string, string>

  const MAX_FILES: nat := 10
  const CHUNK: nat := 1_900_000

  /** `content` is the identity encoding; an asset may exist without one. */
  datatype Asset = Asset(kind: string, props: Props, content: Option<Bytes>)

  type Assets = map<string, Asset>

  /** A wanted file: `text` for one rendered per deployment, otherwise its bytes are read from the store. */
  datatype Want = Want(digest: string, kind: string, text: Option<Bytes>, props: Props)

  /** What is left of an existing asset that is created again with this type and these properties; None if the
      canister refuses. */
  type Again = (Asset, string, Props) -> Option<Asset>

  /** The listed bundle, the store's files as they are read, the hash, and the canister's answer to a create of what
      exists. */
  datatype Deploy = Deploy(want: map<string, Want>, source: map<string, Bytes>, sha: Bytes -> string, again: Again)

  /** The canister's assets and the properties the conductor remembers having applied. */
  datatype Site = Site(assets: Assets, applied: map<string, Props>)

  datatype Outcome = Left(files: nat) | Failed

  // ---------- what a sync compares ----------

  /** `list` shows only assets that have an identity encoding. */
  function Live(assets: Assets, sha: Bytes -> string): map<string, string> {
    map k | k in assets && assets[k].content.Some? :: sha(assets[k].content.value)
  }

  function PropsOf(applied: map<string, Props>, k: string): Props {
    if k in applied then applied[k] else map[]
  }

  predicate DiffersFrom(d: Deploy, live: map<string, string>, applied: map<string, Props>, k: string)
    requires k in d.want
  {
    k !in live || live[k] != d.want[k].digest || PropsOf(applied, k) != d.want[k].props
  }

  predicate Differs(d: Deploy, site: Site, k: string)
    requires k in d.want
  {
    DiffersFrom(d, Live(site.assets, d.sha), site.applied, k)
  }

  function Differing(d: Deploy, site: Site, ks: seq<string>): seq<string>
    requires forall k <- ks :: k in d.want
  {
    if ks == [] then []
    else if Differs(d, site, ks[0]) then [ks[0]] + Differing(d, site, ks[1..])
    else Differing(d, site, ks[1..])
  }

  /** The keys to write, in key order. */
  function Writes(d: Deploy, site: Site): seq<string> {
    SortedFacts(d.want.Keys);
    Differing(d, site, Sorted(d.want.Keys))
  }

  function Batch(d: Deploy, site: Site): seq<string> {
    var writes := Writes(d, site);
    if |writes| <= MAX_FILES then writes else writes[..MAX_FILES]
  }

  function Data(d: Deploy, k: string): Option<Bytes>
    requires k in d.want
  {
    if d.want[k].text.Some? then d.want[k].text else if k in d.source then Some(d.source[k]) else None
  }

  predicate Readable(d: Deploy, ks: seq<string>)
  {
    forall k <- ks :: k in d.want && Data(d, k).Some?
  }

  // ---------- what a sync does ----------

  /** The asset once it is created over what there was; None if that is refused. */
  function Made(d: Deploy, prior: Option<Asset>, k: string): Option<Asset>
    requires k in d.want
  {
    if prior.None? then Some(Asset(d.want[k].kind, d.want[k].props, None)) else d.again(prior.value, d.want[k].kind, d.want[k].props)
  }

  function Written(d: Deploy, prior: Option<Asset>, k: string): Asset
    requires k in d.want && Made(d, prior, k).Some?
  {
    Made(d, prior, k).value.(content := Data(d, k))
  }

  function At(assets: Assets, k: string): Option<Asset> {
    if k in assets then Some(assets[k]) else None
  }

  /** Delete the listed asset, create it again with its properties, set its content; stops where a call fails. */
  function PutOne(assets: Assets, d: Deploy, k: string, replace: bool): (Assets, bool)
    requires Readable(d, [k])
  {
    assert k in [k];
    var cleared := if replace then assets - {k} else assets;
    var made := Made(d, At(cleared, k), k);
    if made.None? then (cleared, false)
    else if d.sha(Data(d, k).value) != d.want[k].digest then (cleared[k := made.value], false)
    else (cleared[k := Written(d, At(cleared, k), k)], true)
  }

  function PutAll(assets: Assets, d: Deploy, live: set<string>, ks: seq<string>): (Assets, bool)
    requires Readable(d, ks)
    decreases |ks|
  {
    if ks == [] then (assets, true)
    else
      assert ks[0] in ks;
      var (a, ok) := PutOne(assets, d, ks[0], ks[0] in live);
      if ok then PutAll(a, d, live, ks[1..]) else (a, false)
  }

  function Applied(d: Deploy, applied: map<string, Props>, batch: seq<string>, deletes: set<string>): map<string, Props>
    requires forall k <- batch :: k in d.want
  {
    (map k | k in applied && k !in deletes && k !in batch :: applied[k])
    + (map k | k in batch && d.want[k].props != map[] :: d.want[k].props)
  }

  function SyncStep(d: Deploy, site: Site): (Site, Outcome) {
    var batch := Batch(d, site);
    if !Readable(d, batch) then (site, Failed)
    else
      var live := Live(site.assets, d.sha).Keys;
      var (assets, ok) := PutAll(site.assets, d, live, batch);
      if !ok then (Site(assets, site.applied), Failed)
      else
        var left := |Writes(d, site)| - |batch|;
        var deletes := if left == 0 then live - d.want.Keys else {};
        (Site(assets - deletes, Applied(d, site.applied, batch, deletes)), Left(left))
  }

  // ---------- the asset canister ----------

  class AssetCanister {
    var assets: Assets
    var chunks: map<nat, Bytes>
    var nextChunk: nat

    constructor (assets: Assets)
      ensures this.assets == assets && chunks == map[] && nextChunk == 0
    {
      this.assets, chunks, nextChunk := assets, map[], 0;
    }

    method CreateChunk(content: Bytes) returns (id: nat)
      modifies this`chunks, this`nextChunk
      ensures id == old(nextChunk) && nextChunk == id + 1 && chunks == old(chunks)[id := content]
    {
      id := nextChunk;
      chunks, nextChunk := chunks[id := content], nextChunk + 1;
    }

    method DeleteAsset(key: string)
      requires key in assets   // deleting what does not exist is an error
      modifies this`assets
      ensures assets == old(assets) - {key}
    {
      assets := assets - {key};
    }

    method CreateAsset(d: Deploy, key: string) returns (ok: bool)
      requires key in d.want
      modifies this`assets
      ensures var made := Made(d, At(old(assets), key), key);
        ok == made.Some? && assets == if ok then old(assets)[key := made.value] else old(assets)
    {
      var made := Asset(d.want[key].kind, d.want[key].props, None);
      if key !in assets {
        assets := assets[key := made];
        return true;
      }
      var left := d.again(assets[key], made.kind, made.props);
      if left.Some? {
        assets := assets[key := left.value];
      }
      ok := left.Some?;
    }

    /** The canister joins the chunks and refuses content that does not have the declared hash. */
    method SetAssetContent(key: string, ids: seq<nat>, digest: string, sha: Bytes -> string) returns (ok: bool)
      requires key in assets && forall id <- ids :: id in chunks
      modifies this`assets
      ensures ok == (sha(Joined(ids, chunks)) == digest)
      ensures assets == if ok then old(assets)[key := old(assets)[key].(content := Some(Joined(ids, chunks)))] else old(assets)
    {
      var data: Bytes := [];
      for i := 0 to |ids|
        invariant data == Joined(ids[..i], chunks)
      {
        data := data + chunks[ids[i]];
        assert ids[..i + 1][..i] == ids[..i];
      }
      assert ids[..|ids|] == ids;
      ok := sha(data) == digest;
      if ok {
        assets := assets[key := assets[key].(content := Some(data))];
      }
    }
  }

  ghost function Joined(ids: seq<nat>, chunks: map<nat, Bytes>): Bytes
    requires forall id <- ids :: id in chunks
  {
    if ids == [] then [] else Joined(ids[..|ids| - 1], chunks) + chunks[ids[|ids| - 1]]
  }

  lemma {:induction false} JoinedKeeps(ids: seq<nat>, chunks: map<nat, Bytes>, more: map<nat, Bytes>)
    requires forall id <- ids :: id in chunks && id in more && chunks[id] == more[id]
    ensures Joined(ids, chunks) == Joined(ids, more)
  {
    if ids != [] {
      JoinedKeeps(ids[..|ids| - 1], chunks, more);
    }
  }

  // ---------- the conductor's side ----------

  class Conductor {
    const target: AssetCanister
    var applied: map<string, Props>

    constructor (target: AssetCanister)
      ensures this.target == target && applied == map[]
    {
      this.target, applied := target, map[];
    }

    ghost function View(): Site
      reads this, target
    {
      Site(target.assets, applied)
    }

    /** Pieces of at most CHUNK bytes, one even for an empty file. */
    method Upload(data: Bytes) returns (ids: seq<nat>)
      modifies target`chunks, target`nextChunk
      ensures forall id <- ids :: id in target.chunks && |target.chunks[id]| <= CHUNK
      ensures Joined(ids, target.chunks) == data
      ensures ids != []
    {
      ids := [];
      var i := 0;
      while i < |data| || i < 1
        invariant 0 <= i && (ids == [] <==> i == 0)
        invariant forall id <- ids :: id in target.chunks && id < target.nextChunk && |target.chunks[id]| <= CHUNK
        invariant Joined(ids, target.chunks) == data[..if i < |data| then i else |data|]
        decreases |data| + 1 - i
      {
        var end := if i + CHUNK < |data| then i + CHUNK else |data|;
        var piece := data[i..end];
        ghost var before := target.chunks;
        var id := target.CreateChunk(piece);
        JoinedKeeps(ids, before, target.chunks);
        assert (ids + [id])[..|ids|] == ids;
        assert data[..i] + piece == data[..end];
        ids := ids + [id];
        i := i + CHUNK;
      }
    }

    method Put(d: Deploy, k: string, replace: bool) returns (ok: bool)
      requires Readable(d, [k]) && (replace ==> k in target.assets)
      modifies target
      ensures (target.assets, ok) == PutOne(old(target.assets), d, k, replace)
    {
      assert k in [k];
      var data := Data(d, k).value;
      var ids := Upload(data);
      if replace {
        target.DeleteAsset(k);
      }
      ghost var cleared := target.assets;
      ok := target.CreateAsset(d, k);
      if ok {
        ok := target.SetAssetContent(k, ids, d.want[k].digest, d.sha);
      }
      assert ok ==> target.assets == cleared[k := target.assets[k]];
    }

    method ToWrite(d: Deploy) returns (writes: seq<string>)
      ensures writes == Writes(d, View())
    {
      WantedInOrder(d);
      writes := ListDiffering(d, View(), Live(target.assets, d.sha), applied, Sorted(d.want.Keys));
    }

    method PutFiles(d: Deploy, live: set<string>, batch: seq<string>) returns (ok: bool)
      requires Readable(d, batch) && NoRepeat(batch) && live <= target.assets.Keys
      modifies target
      ensures (target.assets, ok) == PutAll(old(target.assets), d, live, batch)
    {
      for i := 0 to |batch|
        invariant forall j :: i <= j < |batch| && batch[j] in live ==> batch[j] in target.assets
        invariant PutAll(target.assets, d, live, batch[i..]) == PutAll(old(target.assets), d, live, batch)
      {
        assert batch[i..][0] == batch[i] && batch[i..][1..] == batch[i + 1..];
        ok := Put(d, batch[i], batch[i] in live);
        if !ok {
          return false;
        }
      }
      ok := true;
    }

    method DeleteFiles(deletes: set<string>)
      requires deletes <= target.assets.Keys
      modifies target
      ensures target.assets == old(target.assets) - deletes
    {
      SortedFacts(deletes);
      var gone := Sorted(deletes);
      for i := 0 to |gone|
        invariant target.assets == old(target.assets) - Members(gone[..i])
      {
        assert gone[i] in deletes;
        OneMoreMember(gone, i);
        target.DeleteAsset(gone[i]);
      }
      AllMembers(gone, deletes);
    }

    /** The end of a round: in the last one the listed keys that left the bundle go. */
    method Finish(d: Deploy, batch: seq<string>, live: set<string>, left: nat)
      requires (forall k <- batch :: k in d.want) && live <= target.assets.Keys
      modifies this`applied, target
      ensures var deletes := if left == 0 then live - d.want.Keys else {};
        target.assets == old(target.assets) - deletes && applied == Applied(d, old(applied), batch, deletes)
    {
      var deletes := if left == 0 then live - d.want.Keys else {};
      DeleteFiles(deletes);
      applied := Applied(d, applied, batch, deletes);
    }

    /** The writes of a round, and its end. */
    method WriteBatch(d: Deploy, live: set<string>, batch: seq<string>, left: nat, ghost site: Site) returns (out: Outcome)
      requires site == View() && live == Live(site.assets, d.sha).Keys && batch == Batch(d, site) && left == |Writes(d, site)| - |batch|
      requires Readable(d, batch)
      modifies this`applied, target
      ensures (View(), out) == SyncStep(d, site)
    {
      BatchIsDistinct(d, site);
      var ok := PutFiles(d, live, batch);
      SyncAfterPut(d, site, target.assets, ok);
      if !ok {
        return Failed;
      }
      PutAllKeepsKeys(site.assets, d, live, batch);
      Finish(d, batch, live, left);
      out := Left(left);
    }

    method Sync(d: Deploy) returns (out: Outcome)
      modifies this`applied, target
      ensures (View(), out) == SyncStep(d, old(View()))
    {
      var writes := ToWrite(d);
      var batch := if |writes| <= MAX_FILES then writes else writes[..MAX_FILES];
      if !Readable(d, batch) {
        return Failed;
      }
      out := WriteBatch(d, Live(target.assets, d.sha).Keys, batch, |writes| - |batch|, View());
    }
  }

  lemma SyncAfterPut(d: Deploy, site: Site, assets: Assets, ok: bool)
    requires Readable(d, Batch(d, site)) && PutAll(site.assets, d, Live(site.assets, d.sha).Keys, Batch(d, site)) == (assets, ok)
    ensures !ok ==> SyncStep(d, site) == (Site(assets, site.applied), Failed)
    ensures ok ==> var left := |Writes(d, site)| - |Batch(d, site)|;
      var deletes := if left == 0 then Live(site.assets, d.sha).Keys - d.want.Keys else {};
      SyncStep(d, site) == (Site(assets - deletes, Applied(d, site.applied, Batch(d, site), deletes)), Left(left))
  {
  }

  function Members(ks: seq<string>): set<string> { set k <- ks }

  lemma OneMoreMember(ks: seq<string>, i: nat)
    requires NoRepeat(ks) && i < |ks|
    ensures Members(ks[..i + 1]) == Members(ks[..i]) + {ks[i]} && ks[i] !in Members(ks[..i])
  {
    assert ks[..i + 1] == ks[..i] + [ks[i]];
  }

  lemma AllMembers(ks: seq<string>, s: set<string>)
    requires forall k :: k in ks <==> k in s
    ensures Members(ks[..|ks|]) == s
  {
    assert ks[..|ks|] == ks;
  }

  method ListDiffering(d: Deploy, ghost site: Site, live: map<string, string>, applied: map<string, Props>, order: seq<string>)
      returns (writes: seq<string>)
    requires (forall k <- order :: k in d.want) && live == Live(site.assets, d.sha) && applied == site.applied
    ensures writes == Differing(d, site, order)
  {
    writes := [];
    for i := 0 to |order|
      invariant writes + Differing(d, site, order[i..]) == Differing(d, site, order)
    {
      DifferingNext(d, site, order, i, writes);
      if DiffersFrom(d, live, applied, order[i]) {
        writes := writes + [order[i]];
      }
    }
  }

  lemma WantedInOrder(d: Deploy)
    ensures NoRepeat(Sorted(d.want.Keys)) && forall k :: k in Sorted(d.want.Keys) <==> k in d.want
  {
    SortedFacts(d.want.Keys);
  }

  lemma DifferingNext(d: Deploy, site: Site, ks: seq<string>, i: nat, before: seq<string>)
    requires (forall k <- ks :: k in d.want) && i < |ks|
    ensures before + Differing(d, site, ks[i..]) == (if Differs(d, site, ks[i]) then before + [ks[i]] else before) + Differing(d, site, ks[i + 1..])
  {
    assert ks[i..][0] == ks[i] && ks[i..][1..] == ks[i + 1..];
  }

  predicate NoRepeat(ks: seq<string>) {
    forall i, j :: 0 <= i < j < |ks| ==> ks[i] != ks[j]
  }

  lemma {:induction false} DifferingIsSub(d: Deploy, site: Site, ks: seq<string>)
    requires forall k <- ks :: k in d.want
    requires NoRepeat(ks)
    ensures forall k :: k in Differing(d, site, ks) <==> k in ks && Differs(d, site, k)
    ensures NoRepeat(Differing(d, site, ks))
  {
    if ks != [] {
      DifferingIsSub(d, site, ks[1..]);
      assert forall k <- ks :: k == ks[0] || k in ks[1..];
      assert ks[0] !in ks[1..];
    }
  }

  lemma WritesFacts(d: Deploy, site: Site)
    ensures forall k :: k in Writes(d, site) <==> k in d.want && Differs(d, site, k)
    ensures NoRepeat(Writes(d, site))
  {
    WantedInOrder(d);
    DifferingIsSub(d, site, Sorted(d.want.Keys));
  }

  lemma PrefixFacts(ks: seq<string>, n: nat)
    requires NoRepeat(ks) && n <= |ks|
    ensures NoRepeat(ks[..n]) && forall k <- ks[..n] :: k in ks
  {
  }

  lemma BatchIsDistinct(d: Deploy, site: Site)
    ensures NoRepeat(Batch(d, site)) && forall k <- Batch(d, site) :: k in d.want && Differs(d, site, k)
  {
    WritesFacts(d, site);
    if |Writes(d, site)| > MAX_FILES { PrefixFacts(Writes(d, site), MAX_FILES); }
  }

  lemma {:induction false} PutAllKeepsKeys(assets: Assets, d: Deploy, live: set<string>, ks: seq<string>)
    requires Readable(d, ks)
    ensures PutAll(assets, d, live, ks).1 ==> assets.Keys <= PutAll(assets, d, live, ks).0.Keys
    decreases |ks|
  {
    if ks != [] {
      assert ks[0] in ks;
      var (a, ok) := PutOne(assets, d, ks[0], ks[0] in live);
      if ok { PutAllKeepsKeys(a, d, live, ks[1..]); }
    }
  }
}
