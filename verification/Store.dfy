/** The store of published files: chunked upload and download (casals_cli/wasm_store.py) and publishing a bundle
    as the exact content of a namespace (casals_cli/registry.py, casals_cli/bundle.py).

    SHA-256 is a function the store carries; nothing is assumed about it. */
module Store {
  import opened Octets
  import opened Options
  import opened Order

  type Sha = Bytes -> string
  type Chunks = map<nat, Bytes>

  const CHUNK: nat := 1024 * 1024
  const LIST_PAGE: nat := 100
  const MANIFEST := ".casals-bundle.json"

  datatype File = File(data: Bytes, kind: string)

  type Files = map<string, File>

  // ---------- addresses ----------

  predicate IsSpace(c: char) {
    var n := c as int;
    9 <= n <= 13 || 28 <= n <= 32 || n == 0x85 || n == 0xA0 || n == 0x1680 || 0x2000 <= n <= 0x200A || n == 0x2028
    || n == 0x2029 || n == 0x202F || n == 0x205F || n == 0x3000
  }

  function TrimLeft(s: string, drop: char -> bool): (r: string)
    ensures |r| <= |s| && (|r| == |s| ==> r == s)
  {
    if s != [] && drop(s[0]) then TrimLeft(s[1..], drop) else s
  }

  function TrimRight(s: string, drop: char -> bool): (r: string)
    ensures |r| <= |s| && (|r| == |s| ==> r == s)
  {
    if s != [] && drop(s[|s| - 1]) then TrimRight(s[..|s| - 1], drop) else s
  }

  function Strip(s: string): (r: string)
    ensures |r| <= |s| && (|r| == |s| ==> r == s)
  {
    TrimRight(TrimLeft(s, IsSpace), IsSpace)
  }

  predicate IsSlash(c: char) { c == '/' }

  function Namespace(ns: string): string { TrimRight(TrimLeft(Strip(ns), IsSlash), IsSlash) }

  function Trimmed(path: string): (r: string)
    ensures |r| <= |path| && (|r| == |path| ==> r == path)
  {
    TrimLeft(Strip(path), IsSlash)
  }

  function StoreKey(ns: string, path: string): string {
    if Namespace(ns) != "" then "/" + Namespace(ns) + "/" + Trimmed(path) else "/" + Trimmed(path)
  }

  function Prefix(ns: string): string {
    if Namespace(ns) != "" then "/" + Namespace(ns) + "/" else "/"
  }

  lemma KeyIsUnderPrefix(ns: string, path: string)
    ensures StoreKey(ns, path) == Prefix(ns) + Trimmed(path)
  {
  }

  // ---------- what the store does ----------

  datatype Op =
    | CreateAsset(key: string, kind: string)
    | SetContent(key: string, ids: seq<nat>, digest: string)
    | DeleteAsset(key: string)

  function Added(chunks: Chunks, id: nat, data: Bytes): Chunks { chunks[id := data] }

  function Joined(ids: seq<nat>, chunks: Chunks): Option<Bytes> {
    if ids == [] then Some([])
    else
      var last := |ids| - 1;
      match Joined(ids[..last], chunks)
      case None => None
      case Some(data) => if ids[last] in chunks then Some(data + chunks[ids[last]]) else None
  }

  function RunOp(files: Files, chunks: Chunks, op: Op, sha: Sha): Option<Files> {
    match op
    case CreateAsset(key, kind) => if key in files then None else Some(files[key := File([], kind)])
    case SetContent(key, ids, digest) =>
      (match Joined(ids, chunks)
       case None => None
       case Some(data) => if key !in files || sha(data) != digest then None else Some(files[key := File(data, files[key].kind)]))
    case DeleteAsset(key) => Some(files - {key})
  }

  function RunOps(files: Files, chunks: Chunks, ops: seq<Op>, sha: Sha): Option<Files>
    decreases |ops|
  {
    if ops == [] then Some(files)
    else
      match RunOp(files, chunks, ops[0], sha)
      case None => None
      case Some(next) => RunOps(next, chunks, ops[1..], sha)
  }

  /** The `i`th chunk of a file. */
  function Chunk(data: Bytes, i: nat): Bytes {
    if i * CHUNK >= |data| then [] else if (i + 1) * CHUNK >= |data| then data[i * CHUNK..] else data[i * CHUNK..(i + 1) * CHUNK]
  }

  function Upto(data: Bytes, i: nat): Bytes {
    if i * CHUNK >= |data| then data else data[..i * CHUNK]
  }

  lemma NextChunk(data: Bytes, i: nat)
    ensures Upto(data, i) + Chunk(data, i) == Upto(data, i + 1)
  {
  }

  function Entries(files: Files, keys: seq<string>, sha: Sha): (r: seq<(string, string)>)
    requires forall k <- keys :: k in files
    ensures |r| == |keys|
  {
    seq(|keys|, i requires 0 <= i < |keys| => (keys[i], sha(files[keys[i]].data)))
  }

  function Listing(files: Files, sha: Sha): seq<(string, string)> {
    SortedFacts(files.Keys);
    Entries(files, Sorted(files.Keys), sha)
  }

  class AssetStore {
    var files: Files
    var batches: map<nat, Chunks>
    var nextBatch: nat
    var nextChunk: nat
    const sha: Sha

    ghost predicate Valid()
      reads this
    {
      forall b <- batches :: b < nextBatch && forall c <- batches[b] :: c < nextChunk
    }

    constructor (files: Files, sha: Sha)
      ensures this.files == files && this.sha == sha && Valid()
    {
      this.files, this.sha := files, sha;
      batches, nextBatch, nextChunk := map[], 1, 1;
    }

    method CreateBatch() returns (id: nat)
      requires Valid()
      modifies this`batches, this`nextBatch
      ensures Valid() && id !in old(batches) && batches == old(batches)[id := map[]]
    {
      id := nextBatch;
      batches, nextBatch := batches[id := map[]], nextBatch + 1;
    }

    method CreateChunk(batch: nat, content: Bytes) returns (id: nat)
      requires Valid() && batch in batches
      modifies this`batches, this`nextChunk
      ensures Valid() && id !in old(batches)[batch]
      ensures batches == old(batches)[batch := Added(old(batches)[batch], id, content)]
    {
      id := nextChunk;
      batches, nextChunk := batches[batch := Added(batches[batch], id, content)], nextChunk + 1;
    }

    /** All of the operations, or none of them when one fails. */
    method CommitBatch(batch: nat, ops: seq<Op>) returns (ok: bool)
      requires Valid() && batch in batches
      modifies this`batches, this`files
      ensures Valid()
      ensures var r := RunOps(old(files), old(batches)[batch], ops, sha); ok == r.Some? && files == if ok then r.value else old(files)
    {
      var chunks := batches[batch];
      var now := files;
      assert ops[0..] == ops;
      for i := 0 to |ops|
        invariant batches == old(batches) && files == old(files)
        invariant RunOps(now, chunks, ops[i..], sha) == RunOps(files, chunks, ops, sha)
      {
        assert ops[i..][0] == ops[i] && ops[i..][1..] == ops[i + 1..];
        var next := RunOp(now, chunks, ops[i], sha);
        if next.None? {
          return false;
        }
        now := next.value;
      }
      batches := batches - {batch};
      files := now;
      ok := true;
    }

    /** One page of the listing: it continues what comes before `start`, holds at most a hundred entries, and holds fewer
        only where the listing ends. */
    method List(start: nat) returns (page: seq<(string, string)>)
      ensures |page| <= LIST_PAGE && (start >= |Listing(files, sha)| ==> page == [])
      ensures start < |Listing(files, sha)| ==> Listing(files, sha)[..start] + page <= Listing(files, sha)
      ensures |page| < LIST_PAGE ==> start + |page| >= |Listing(files, sha)|
    {
      var all := Listing(files, sha);
      if start >= |all| {
        return [];
      }
      var end := if start + LIST_PAGE < |all| then start + LIST_PAGE else |all|;
      page := all[start..end];
      assert all[..start] + page == all[..end];
    }
  }

  // ---------- reads ----------

  /** Every chunk of a file; nothing when there is no such file. */
  method ReadFile(store: AssetStore, ns: string, path: string) returns (r: Option<Bytes>)
    ensures r == if StoreKey(ns, path) in store.files then Some(store.files[StoreKey(ns, path)].data) else None
  {
    var key := StoreKey(ns, path);
    if key !in store.files {
      return None;
    }
    var data := store.files[key].data;
    var got, index := Chunk(data, 0), 1;
    NextChunk(data, 0);
    while |got| < |data|
      invariant index >= 1 && got == Upto(data, index)
      decreases |data| - |got|
    {
      NextChunk(data, index);
      got, index := got + Chunk(data, index), index + 1;
    }
    r := Some(got);
  }

  method ListEntries(store: AssetStore) returns (out: seq<(string, string)>)
    ensures out == Listing(store.files, store.sha)
  {
    out := [];
    var more := true;
    ghost var all := Listing(store.files, store.sha);
    while more
      invariant |out| <= |all| && out == all[..|out|]
      invariant !more ==> out == all
      decreases more, |all| - |out|
    {
      var page := store.List(|out|);
      more := |page| == LIST_PAGE;
      out := out + page;
    }
  }

  // ---------- uploads ----------

  datatype Upload = Uploaded(digest: string) | Refused

  function ChunksIn(data: Bytes): nat {
    if |data| <= CHUNK then 1 else (|data| + CHUNK - 1) / CHUNK
  }

  lemma AllChunks(data: Bytes)
    ensures Upto(data, ChunksIn(data)) == data
  {
  }

  lemma JoinOneMore(ids: seq<nat>, id: nat, was: Chunks, content: Bytes)
    requires Joined(ids, was).Some? && id !in was
    ensures Joined(ids + [id], Added(was, id, content)) == Some(Joined(ids, was).value + content)
  {
    JoinedKeeps(ids, was, Added(was, id, content));
    assert (ids + [id])[..|ids|] == ids;
  }

  /** The chunks in order under fresh ids. */
  method SendChunks(store: AssetStore, batch: nat, data: Bytes) returns (ids: seq<nat>)
    requires store.Valid() && batch in store.batches
    modifies store`batches, store`nextChunk
    ensures store.Valid() && batch in store.batches
    ensures Joined(ids, store.batches[batch]) == Some(data)
  {
    ids := [];
    for i := 0 to ChunksIn(data)
      invariant store.Valid() && batch in store.batches
      invariant Joined(ids, store.batches[batch]) == Some(Upto(data, i))
    {
      ghost var was := store.batches[batch];
      var id := store.CreateChunk(batch, Chunk(data, i));
      JoinOneMore(ids, id, was, Chunk(data, i));
      NextChunk(data, i);
      ids := ids + [id];
    }
    AllChunks(data);
  }

  lemma {:induction false} JoinedKeeps(ids: seq<nat>, chunks: Chunks, more: Chunks)
    requires Joined(ids, chunks).Some?
    requires forall c <- chunks :: c in more && more[c] == chunks[c]
    ensures Joined(ids, more) == Joined(ids, chunks)
  {
    if ids != [] { JoinedKeeps(ids[..|ids| - 1], chunks, more); }
  }

  /** A file keeps the type that it was created with. */
  function Put(files: Files, key: string, data: Bytes, kind: string): Files {
    files[key := File(data, if key in files then files[key].kind else kind)]
  }

  lemma PutRuns(files: Files, chunks: Chunks, ids: seq<nat>, key: string, kind: string, exists_: bool, sha: Sha)
    requires Joined(ids, chunks).Some?
    ensures var data := Joined(ids, chunks).value; var set_ := SetContent(key, ids, sha(data));
      RunOps(files, chunks, if exists_ then [set_] else [CreateAsset(key, kind), set_], sha)
        == if exists_ == (key in files) then Some(Put(files, key, data, kind)) else None
  {
    var data := Joined(ids, chunks).value;
    var put := SetContent(key, ids, sha(data));
    var made := CreateAsset(key, kind);
    assert [made, put][1..] == [put] && [put][1..] == [];
    if exists_ {
      assert RunOps(files, chunks, [put], sha) == RunOp(files, chunks, put, sha);
    } else if key in files {
      assert RunOp(files, chunks, made, sha).None?;
    } else {
      var next := files[key := File([], kind)];
      assert RunOp(files, chunks, made, sha) == Some(next);
      assert RunOps(next, chunks, [put], sha) == RunOp(next, chunks, put, sha);
      assert next[key := File(data, kind)] == files[key := File(data, kind)];
    }
  }

  /** `known` says whether the key is there already; it is looked up when not given. */
  method UploadBytes(store: AssetStore, ns: string, path: string, data: Bytes, declared: string, kind: string, known: Option<bool>)
    returns (r: Upload)
    requires store.Valid()
    modifies store
    ensures store.Valid()
    ensures var key := StoreKey(ns, path);
      var good := (declared == "" || declared == store.sha(data)) && (known.Some? ==> (known.value <==> key in old(store.files)));
      && (r == if good then Uploaded(store.sha(data)) else Refused)
      && (store.files == if good then Put(old(store.files), key, data, kind) else old(store.files))
  {
    var digest := store.sha(data);
    if declared != "" && declared != digest {
      return Refused;
    }
    var key := StoreKey(ns, path);
    var there;
    if known.Some? {
      there := known.value;
    } else {
      var entries := ListEntries(store);
      there := exists i :: 0 <= i < |entries| && entries[i].0 == key;
      ListedKeys(store.files, store.sha, key);
    }
    var batch := store.CreateBatch();
    var ids := SendChunks(store, batch, data);
    PutRuns(store.files, store.batches[batch], ids, key, kind, there, store.sha);
    var put := SetContent(key, ids, digest);
    var ok := store.CommitBatch(batch, if there then [put] else [CreateAsset(key, kind), put]);
    r := if ok then Uploaded(digest) else Refused;
  }

  lemma ListedKeys(files: Files, sha: Sha, key: string)
    ensures (exists i :: 0 <= i < |Listing(files, sha)| && Listing(files, sha)[i].0 == key) <==> key in files
  {
    SortedFacts(files.Keys);
    var keys := Sorted(files.Keys);
    if key in files {
      assert key in keys;
      var i :| 0 <= i < |keys| && keys[i] == key;
      assert Listing(files, sha)[i].0 == key;
    }
  }

  /** What was uploaded is what a download returns, whatever its length. */
  method RoundTrip(store: AssetStore, ns: string, path: string, data: Bytes, kind: string) returns (back: Option<Bytes>)
    requires store.Valid()
    modifies store
    ensures back == Some(data)
  {
    var _ := UploadBytes(store, ns, path, data, "", kind, None);
    back := ReadFile(store, ns, path);
  }

  // ---------- what an address and an upload are ----------

  lemma {:induction false} TrimLeftIs(s: string, drop: char -> bool) returns (i: nat)
    ensures i <= |s| && TrimLeft(s, drop) == s[i..]
    ensures (forall k :: 0 <= k < i ==> drop(s[k])) && (i < |s| ==> !drop(s[i]))
  {
    i := 0;
    if s != [] && drop(s[0]) {
      i := TrimLeftIs(s[1..], drop);
      i := i + 1;
    }
  }

  lemma {:induction false} TrimRightIs(s: string, drop: char -> bool) returns (j: nat)
    ensures j <= |s| && TrimRight(s, drop) == s[..j]
    ensures (forall k :: j <= k < |s| ==> drop(s[k])) && (j > 0 ==> !drop(s[j - 1]))
  {
    j := |s|;
    if s != [] && drop(s[|s| - 1]) { j := TrimRightIs(s[..|s| - 1], drop); }
  }

  lemma Within(s: string, i: nat, j: nat)
    requires i <= |s| && j <= |s| - i
    ensures s[i..][..j] == s[i..i + j]
  {
  }

  /** What is left of a text without its outer blanks. */
  lemma StripIs(s: string) returns (i: nat, j: nat)
    ensures i <= j <= |s| && Strip(s) == s[i..j]
    ensures (forall k :: 0 <= k < i || j <= k < |s| ==> IsSpace(s[k])) && (i < j ==> !IsSpace(s[i]) && !IsSpace(s[j - 1]))
  {
    i := TrimLeftIs(s, IsSpace);
    var n := TrimRightIs(s[i..], IsSpace);
    j := i + n;
    Within(s, i, n);
    forall k | j <= k < |s| ensures IsSpace(s[k]) { assert s[i..][k - i] == s[k]; }
  }

  /** A path's key is the path, stripped, without its leading slashes. */
  lemma TrimmedIs(path: string) returns (m: nat)
    ensures m <= |Strip(path)| && Trimmed(path) == Strip(path)[m..]
    ensures (forall k :: 0 <= k < m ==> Strip(path)[k] == '/') && (m < |Strip(path)| ==> Strip(path)[m] != '/')
  {
    m := TrimLeftIs(Strip(path), IsSlash);
  }

  lemma SlashesOff(s: string) returns (m: nat, n: nat)
    ensures m <= n <= |s| && TrimRight(TrimLeft(s, IsSlash), IsSlash) == s[m..n]
    ensures (forall k :: 0 <= k < m || n <= k < |s| ==> s[k] == '/') && (m < n ==> s[m] != '/' && s[n - 1] != '/')
  {
    m := TrimLeftIs(s, IsSlash);
    var b := TrimRightIs(s[m..], IsSlash);
    n := m + b;
    Within(s, m, b);
    forall k | n <= k < |s| ensures s[k] == '/' { assert s[m..][k - m] == s[k]; }
  }

  /** A namespace is the text, stripped, without the slashes at both ends. */
  lemma NamespaceIs(ns: string) returns (m: nat, n: nat)
    ensures m <= n <= |Strip(ns)| && Namespace(ns) == Strip(ns)[m..n]
    ensures (forall k :: 0 <= k < m || n <= k < |Strip(ns)| ==> Strip(ns)[k] == '/') && (m < n ==> Strip(ns)[m] != '/' && Strip(ns)[n - 1] != '/')
  {
    m, n := SlashesOff(Strip(ns));
  }

  /** An upload writes the data under its key; a file that was there keeps its type, and no other file changes. */
  lemma PutLeaves(files: Files, key: string, data: Bytes, kind: string, k: string)
    ensures var now := Put(files, key, data, kind);
      && key in now && now[key].data == data && now[key].kind == (if key in files then files[key].kind else kind)
      && (k != key ==> (k in now <==> k in files) && (k in files ==> now[k] == files[k]))
  {
  }
}
