/** Splitting the editor into chunks (frontend/scripts/monaco-chunks.js): collect the import graph, order modules
    after what they import, and pack them in that order, so that a chunk only imports earlier chunks.

    Files and their imports are given by `imports`; a chunk is known by its number. */
module Chunks {
  import opened Options

  const BUDGET: nat := 2 * 1024 * 1024

  type Graph = map<string, seq<string>>

  // ---------- the import graph ----------

  ghost predicate Closed(files: set<string>, imports: string -> seq<string>) {
    forall f <- files, child <- imports(f) :: child in files
  }

  /** The files reached from the entries: the least set closed under imports that holds them. */
  method ModuleDeps(entries: seq<string>, imports: string -> seq<string>, ghost disk: set<string>) returns (deps: Graph)
    requires Closed(disk, imports) && forall e <- entries :: e in disk
    ensures forall f :: f in deps ==> f != "" && deps[f] == imports(f)
    ensures forall f, child :: f in deps && child in deps[f] && child != "" ==> child in deps
    ensures forall e <- entries :: e != "" ==> e in deps
    ensures forall s: set<string> :: Closed(s, imports) && (forall e <- entries :: e in s) ==> deps.Keys <= s
  {
    deps := map[];
    var queue := entries;
    while queue != []
      invariant deps.Keys <= disk && forall q <- queue :: q in disk
      invariant forall f :: f in deps ==> f != "" && deps[f] == imports(f)
      invariant forall f, child :: f in deps && child in deps[f] && child != "" ==> child in deps || child in queue
      invariant forall e <- entries :: e != "" ==> e in deps || e in queue
      invariant forall s: set<string> :: Closed(s, imports) && (forall e <- entries :: e in s) ==> deps.Keys <= s && forall q <- queue :: q in s
      decreases disk - deps.Keys, |queue|
    {
      var file := queue[|queue| - 1];
      ghost var before := queue;
      queue := queue[..|queue| - 1];
      assert before == queue + [file];
      if file != "" && file !in deps {
        assert file in disk - deps.Keys;
        deps := deps[file := imports(file)];
        queue := queue + imports(file);
      }
    }
  }

  // ---------- dependency order ----------

  function Count(children: seq<string>, child: string): nat {
    if children == [] then 0 else (if children[0] == child then 1 else 0) + Count(children[1..], child)
  }

  /** How many imports, repeats counted, are modules of the graph not yet done. */
  function Left(children: seq<string>, keys: set<string>, done: set<string>): nat {
    if children == [] then 0
    else (if children[0] in keys && children[0] !in done then 1 else 0) + Left(children[1..], keys, done)
  }

  lemma {:induction false} LeftOneMore(children: seq<string>, keys: set<string>, done: set<string>, file: string)
    requires file in keys && file !in done
    ensures Left(children, keys, done) == Left(children, keys, done + {file}) + Count(children, file)
  {
    if children != [] { LeftOneMore(children[1..], keys, done, file); }
  }

  lemma {:induction false} LeftAppend(a: seq<string>, b: seq<string>, keys: set<string>, done: set<string>)
    ensures Left(a + b, keys, done) == Left(a, keys, done) + Left(b, keys, done)
  {
    if a == [] { assert a + b == b; } else { assert (a + b)[1..] == a[1..] + b; LeftAppend(a[1..], b, keys, done); }
  }

  lemma {:induction false} CountAppend(a: seq<string>, b: seq<string>, x: string)
    ensures Count(a + b, x) == Count(a, x) + Count(b, x)
  {
    if a == [] { assert a + b == b; } else { assert (a + b)[1..] == a[1..] + b; CountAppend(a[1..], b, x); }
  }

  lemma {:induction false} CountIn(a: seq<string>, x: string)
    ensures Count(a, x) > 0 <==> x in a
  {
    if a != [] { CountIn(a[1..], x); }
  }

  lemma {:induction false} LeftZero(children: seq<string>, keys: set<string>, done: set<string>)
    ensures Left(children, keys, done) == 0 <==> forall c <- children :: c in keys ==> c in done
  {
    if children != [] {
      LeftZero(children[1..], keys, done);
      assert forall c <- children :: c == children[0] || c in children[1..];
      assert children[0] in children;
    }
  }

  predicate NoRepeat(a: seq<string>) {
    forall i, j :: 0 <= i < j < |a| ==> a[i] != a[j]
  }

  function Members(a: seq<string>): set<string> {
    set x | x in a
  }

  ghost predicate ReadyAt(deps: Graph, order: seq<string>, i: nat)
    requires i < |order|
  {
    order[i] in deps ==> forall child <- deps[order[i]] :: child in deps ==> child in order[..i]
  }

  /** Every module's imports in the graph come before it. */
  ghost predicate ImportsFirst(deps: Graph, order: seq<string>) {
    forall i: nat :: i < |order| ==> ReadyAt(deps, order, i)
  }

  /** The two counts: imports still pending of each module, and each module's users. */
  datatype Counts = Counts(pending: map<string, int>, dependents: map<string, seq<string>>)

  predicate Knows(c: Counts, file: string) { file in c.pending && c.dependents.Keys == c.pending.Keys }

  function CountImport(c: Counts, file: string, child: string): (r: Counts)
    requires Knows(c, file)
    ensures Knows(r, file) && r.pending.Keys == c.pending.Keys
  {
    if child in c.pending
    then Counts(c.pending[file := c.pending[file] + 1], c.dependents[child := c.dependents[child] + [file]])
    else c
  }

  function CountImports(c: Counts, file: string, children: seq<string>): (r: Counts)
    requires Knows(c, file)
    ensures Knows(r, file) && r.pending.Keys == c.pending.Keys
    decreases |children|
  {
    if children == [] then c else CountImports(CountImport(c, file, children[0]), file, children[1..])
  }

  function CountAll(c: Counts, deps: Graph, files: seq<string>): (r: Counts)
    requires c.pending.Keys == deps.Keys == c.dependents.Keys && forall f <- files :: f in deps
    ensures r.pending.Keys == deps.Keys == r.dependents.Keys
    decreases |files|
  {
    if files == [] then c else CountAll(CountImports(c, files[0], deps[files[0]]), deps, files[1..])
  }

  /** Every module's imports in the graph are counted, and every module knows its users, once for every time they
      import it. */
  ghost predicate Tallied(deps: Graph, c: Counts) {
    && c.pending.Keys == c.dependents.Keys == deps.Keys
    && (forall f :: f in deps ==> c.pending[f] == Left(deps[f], deps.Keys, {}))
    && (forall f, u :: f in deps && u in deps ==> Count(c.dependents[f], u) == Count(deps[u], f))
    && (forall f, u :: f in deps && u in c.dependents[f] ==> u in deps)
  }

  lemma CountImportAt(c: Counts, file: string, child: string, f: string, u: string)
    requires Knows(c, file) && f in c.pending
    ensures var r := CountImport(c, file, child);
      && r.pending[f] == c.pending[f] + (if f == file && child in c.pending then 1 else 0)
      && Count(r.dependents[f], u) == Count(c.dependents[f], u) + if u == file && child == f then 1 else 0
  {
    if child == f {
      CountAppend(c.dependents[f], [file], u);
      assert Count([file], u) == if u == file then 1 else 0;
    }
  }

  lemma {:induction false} CountImportsAt(c: Counts, file: string, children: seq<string>, f: string, u: string)
    requires Knows(c, file) && f in c.pending
    ensures var r := CountImports(c, file, children);
      && r.pending[f] == c.pending[f] + (if f == file then Left(children, c.pending.Keys, {}) else 0)
      && Count(r.dependents[f], u) == Count(c.dependents[f], u) + if u == file then Count(children, f) else 0
    decreases |children|
  {
    if children != [] {
      CountImportAt(c, file, children[0], f, u);
      CountImportsAt(CountImport(c, file, children[0]), file, children[1..], f, u);
    }
  }

  lemma {:induction false} CountAllAt(deps: Graph, c: Counts, files: seq<string>, f: string, u: string)
    requires c.pending.Keys == deps.Keys == c.dependents.Keys && (forall x <- files :: x in deps)
    requires NoRepeat(files) && f in deps
    ensures var r := CountAll(c, deps, files);
      && r.pending[f] == c.pending[f] + (if f in files then Left(deps[f], deps.Keys, {}) else 0)
      && Count(r.dependents[f], u) == Count(c.dependents[f], u) + if u in files then Count(deps[u], f) else 0
    decreases |files|
  {
    if files != [] {
      var file, rest := files[0], files[1..];
      assert file in files && file !in rest;
      CountImportsAt(c, file, deps[file], f, u);
      CountAllAt(deps, CountImports(c, file, deps[file]), rest, f, u);
      assert f in files <==> f == file || f in rest;
      assert u in files <==> u == file || u in rest;
    }
  }

  function Zero(deps: Graph): (c: Counts)
    ensures c.pending.Keys == deps.Keys == c.dependents.Keys
  {
    Counts(map f | f in deps :: 0, map f | f in deps :: [])
  }

  lemma TalliedAt(deps: Graph, keys: seq<string>, f: string, u: string)
    requires NoRepeat(keys) && Members(keys) == deps.Keys && f in deps && forall x <- keys :: x in deps
    ensures var r := CountAll(Zero(deps), deps, keys);
      && r.pending[f] == Left(deps[f], deps.Keys, {})
      && Count(r.dependents[f], u) == (if u in deps then Count(deps[u], f) else 0)
      && (u in r.dependents[f] ==> u in deps)
  {
    assert forall x :: x in Members(keys) <==> x in keys;
    CountAllAt(deps, Zero(deps), keys, f, u);
    CountIn(CountAll(Zero(deps), deps, keys).dependents[f], u);
  }

  lemma AllTallied(deps: Graph, keys: seq<string>)
    requires NoRepeat(keys) && Members(keys) == deps.Keys
    ensures forall f <- keys :: f in deps
    ensures Tallied(deps, CountAll(Zero(deps), deps, keys))
  {
    forall f <- keys ensures f in deps { assert f in Members(keys); }
    var r := CountAll(Zero(deps), deps, keys);
    forall f | f in deps ensures r.pending[f] == Left(deps[f], deps.Keys, {}) { TalliedAt(deps, keys, f, ""); }
    forall f, u | f in deps && u in deps ensures Count(r.dependents[f], u) == Count(deps[u], f) { TalliedAt(deps, keys, f, u); }
    forall f, u | f in deps && u in r.dependents[f] ensures u in deps { TalliedAt(deps, keys, f, u); }
  }

  /** `keys` are the graph's modules in insertion order. */
  method Tally(deps: Graph, keys: seq<string>) returns (c: Counts)
    requires NoRepeat(keys) && Members(keys) == deps.Keys
    ensures Tallied(deps, c)
  {
    c := Zero(deps);
    AllTallied(deps, keys);
    c := TallyFiles(deps, keys, c);
  }

  method TallyFiles(deps: Graph, files: seq<string>, c: Counts) returns (r: Counts)
    requires c.pending.Keys == deps.Keys == c.dependents.Keys && forall f <- files :: f in deps
    ensures r == CountAll(c, deps, files)
  {
    r := c;
    assert files[0..] == files;
    for i := 0 to |files|
      invariant r.pending.Keys == deps.Keys == r.dependents.Keys
      invariant CountAll(r, deps, files[i..]) == CountAll(c, deps, files)
    {
      assert files[i..][0] == files[i] && files[i..][1..] == files[i + 1..];
      r := TallyFile(files[i], deps[files[i]], r);
    }
  }

  lemma NextImport(c: Counts, file: string, children: seq<string>, j: nat)
    requires Knows(c, file) && j < |children|
    ensures CountImports(c, file, children[j..]) == CountImports(CountImport(c, file, children[j]), file, children[j + 1..])
  {
    assert children[j..][0] == children[j] && children[j..][1..] == children[j + 1..];
  }

  method TallyFile(file: string, children: seq<string>, c: Counts) returns (r: Counts)
    requires Knows(c, file)
    ensures r == CountImports(c, file, children)
  {
    r := c;
    assert children[0..] == children;
    for j := 0 to |children|
      invariant Knows(r, file) && CountImports(r, file, children[j..]) == CountImports(c, file, children)
    {
      NextImport(r, file, children, j);
      r := CountImport(r, file, children[j]);
    }
  }

  /** The state of the ordering between modules: what is done, what is ready, and the counts. */
  ghost predicate Ordering(deps: Graph, pending: map<string, int>, order: seq<string>, ready: seq<string>) {
    && pending.Keys == deps.Keys && NoRepeat(order + ready) && (forall f <- order + ready :: f in deps)
    && (forall f :: f in deps ==> pending[f] == Left(deps[f], deps.Keys, Members(order)))
    && (forall f :: f in deps ==> (pending[f] == 0 <==> f in order + ready))
    && ImportsFirst(deps, order)
  }

  /** Partway through a finished module's users: `rest` are still to be counted down. */
  ghost predicate Finishing(deps: Graph, pending: map<string, int>, done: seq<string>, ready: seq<string>, rest: seq<string>) {
    && pending.Keys == deps.Keys && NoRepeat(done + ready) && (forall f <- done + ready :: f in deps)
    && (forall f :: f in deps ==> pending[f] == Left(deps[f], deps.Keys, Members(done)) + Count(rest, f))
    && (forall f :: f in deps ==> (pending[f] == 0 <==> f in done + ready))
  }

  lemma StartFinishing(deps: Graph, users: seq<string>, pending: map<string, int>, order: seq<string>, file: string, ready: seq<string>)
    requires Ordering(deps, pending, order, [file] + ready)
    requires forall u :: u in deps ==> Count(users, u) == Count(deps[u], file)
    ensures Finishing(deps, pending, order + [file], ready, users)
  {
    assert order + ([file] + ready) == order + [file] + ready;
    assert file in order + ([file] + ready);
    FileNotDone(order, file, ready);
    assert Members(order + [file]) == Members(order) + {file};
    forall u | u in deps
      ensures Left(deps[u], deps.Keys, Members(order)) == Left(deps[u], deps.Keys, Members(order) + {file}) + Count(users, u)
    {
      LeftOneMore(deps[u], deps.Keys, Members(order), file);
    }
  }

  lemma FinishOne(deps: Graph, pending: map<string, int>, done: seq<string>, ready: seq<string>, u: string, rest: seq<string>)
    requires Finishing(deps, pending, done, ready, [u] + rest) && u in deps
    ensures Finishing(deps, pending[u := pending[u] - 1], done, if pending[u] == 1 then ready + [u] else ready, rest)
  {
    assert ([u] + rest)[1..] == rest;
    assert pending[u] > 0 && u !in done + ready;
    assert done + (ready + [u]) == done + ready + [u];
  }

  /** Counts down a finished module's users, and readies the ones left with nothing to wait for. */
  method Finish(deps: Graph, users: seq<string>, pending: map<string, int>, ready: seq<string>, ghost order: seq<string>, ghost file: string)
      returns (pending': map<string, int>, ready': seq<string>)
    requires Ordering(deps, pending, order, [file] + ready)
    requires (forall u <- users :: u in deps) && forall u :: u in deps ==> Count(users, u) == Count(deps[u], file)
    ensures Ordering(deps, pending', order + [file], ready')
  {
    StartFinishing(deps, users, pending, order, file, ready);
    NextImportsFirst(deps, pending, order, file, ready);
    pending', ready' := pending, ready;
    assert users[0..] == users;
    for i := 0 to |users|
      invariant Finishing(deps, pending', order + [file], ready', users[i..])
    {
      var u := users[i];
      assert users[i..] == [u] + users[i + 1..];
      FinishOne(deps, pending', order + [file], ready', u, users[i + 1..]);
      var left := pending'[u] - 1;
      pending' := pending'[u := left];
      if left == 0 {
        ready' := ready' + [u];
      }
    }
  }

  lemma FileNotDone(order: seq<string>, file: string, ready: seq<string>)
    requires NoRepeat(order + ([file] + ready))
    ensures file !in Members(order)
  {
    var all := order + ([file] + ready);
    assert all[|order|] == file && forall i :: 0 <= i < |order| ==> all[i] == order[i];
  }

  lemma NextImportsFirst(deps: Graph, pending: map<string, int>, order: seq<string>, file: string, ready: seq<string>)
    requires Ordering(deps, pending, order, [file] + ready)
    ensures ImportsFirst(deps, order + [file])
  {
    var more := order + [file];
    assert file in order + ([file] + ready);
    LeftZero(deps[file], deps.Keys, Members(order));
    forall i: nat | i < |more|
      ensures ReadyAt(deps, more, i)
    {
      if i < |order| {
        assert ReadyAt(deps, order, i) && more[..i] == order[..i];
      } else {
        assert more[..i] == order;
      }
    }
  }

  /** The modules among `keys` that wait for nothing. */
  ghost predicate ReadyOf(ready: seq<string>, keys: seq<string>, pending: map<string, int>) {
    NoRepeat(ready) && forall f :: f in ready <==> f in keys && f in pending && pending[f] == 0
  }

  lemma ReadyOneMore(ready: seq<string>, keys: seq<string>, pending: map<string, int>, i: nat)
    requires NoRepeat(keys) && i < |keys| && keys[i] in pending && ReadyOf(ready, keys[..i], pending)
    ensures ReadyOf(if pending[keys[i]] == 0 then ready + [keys[i]] else ready, keys[..i + 1], pending)
  {
    assert keys[i] !in keys[..i];
    assert keys[..i + 1] == keys[..i] + [keys[i]];
  }

  lemma StartOrdering(deps: Graph, keys: seq<string>, pending: map<string, int>, ready: seq<string>)
    requires Members(keys) == deps.Keys == pending.Keys && ReadyOf(ready, keys, pending)
    requires forall f :: f in deps ==> pending[f] == Left(deps[f], deps.Keys, {})
    ensures Ordering(deps, pending, [], ready)
  {
    assert [] + ready == ready && Members([]) == {};
    assert forall f :: f in deps ==> f in Members(keys);
  }

  method FirstReady(deps: Graph, keys: seq<string>, pending: map<string, int>) returns (ready: seq<string>)
    requires NoRepeat(keys) && Members(keys) == deps.Keys == pending.Keys
    requires forall f :: f in deps ==> pending[f] == Left(deps[f], deps.Keys, {})
    ensures Ordering(deps, pending, [], ready)
  {
    ready := [];
    for i := 0 to |keys|
      invariant ReadyOf(ready, keys[..i], pending)
    {
      assert keys[i] in Members(keys);
      ReadyOneMore(ready, keys, pending, i);
      if pending[keys[i]] == 0 {
        ready := ready + [keys[i]];
      }
    }
    assert keys[..|keys|] == keys;
    StartOrdering(deps, keys, pending, ready);
  }

  lemma HeadIsListed(deps: Graph, pending: map<string, int>, order: seq<string>, ready: seq<string>)
    requires Ordering(deps, pending, order, ready) && ready != []
    ensures ready[0] in deps && ready == [ready[0]] + ready[1..]
  {
    assert ready[0] in order + ready;
  }

  lemma OrderingIsShort(deps: Graph, pending: map<string, int>, order: seq<string>, ready: seq<string>)
    requires Ordering(deps, pending, order, ready)
    ensures NoRepeat(order) && |order| <= |deps| && Members(order) <= deps.Keys && ImportsFirst(deps, order)
  {
    OrderIsShort(deps, order, ready);
  }

  lemma UsersOf(deps: Graph, c: Counts, file: string)
    requires Tallied(deps, c) && file in deps
    ensures forall u <- c.dependents[file] :: u in deps
    ensures forall u :: u in deps ==> Count(c.dependents[file], u) == Count(deps[u], file)
  {
  }

  /** The next module that waits for nothing: it is done, and its users wait for one less. */
  method TakeNext(deps: Graph, counts: Counts, pending: map<string, int>, ready: seq<string>, ghost order: seq<string>)
      returns (pending': map<string, int>, ready': seq<string>)
    requires Tallied(deps, counts) && Ordering(deps, pending, order, ready) && ready != []
    ensures Ordering(deps, pending', order + [ready[0]], ready')
  {
    HeadIsListed(deps, pending, order, ready);
    UsersOf(deps, counts, ready[0]);
    pending', ready' := Finish(deps, counts.dependents[ready[0]], pending, ready[1..], order, ready[0]);
  }

  /** Kahn's algorithm. What is left out waits for something that is left out. */
  method DependencyOrder(deps: Graph, keys: seq<string>) returns (order: seq<string>)
    requires "" !in deps   // no path is empty
    requires NoRepeat(keys) && Members(keys) == deps.Keys
    ensures NoRepeat(order) && Members(order) <= deps.Keys && ImportsFirst(deps, order)
    ensures Stuck(deps, order)
  {
    var counts := Tally(deps, keys);
    var pending := counts.pending;
    var ready := FirstReady(deps, keys, pending);
    order := [];
    while ready != []
      invariant Ordering(deps, pending, order, ready)
      decreases |deps| - |order|
    {
      var file := ready[0];
      HeadIsListed(deps, pending, order, ready);
      if file == "" {
        break;
      }
      pending, ready := TakeNext(deps, counts, pending, ready, order);
      order := order + [file];
      OrderingIsShort(deps, pending, order, ready);
    }
    OrderingIsShort(deps, pending, order, ready);
    StuckAtEnd(deps, pending, order);
  }

  /** Every module left out imports one that is left out. */
  ghost predicate Stuck(deps: Graph, order: seq<string>) {
    forall f {:trigger Waits(deps, order, f)} :: f in deps && f !in order ==> Waits(deps, order, f)
  }

  ghost predicate Waits(deps: Graph, order: seq<string>, f: string) {
    f in deps && exists child <- deps[f] :: child in deps && child !in order
  }

  lemma StuckAtEnd(deps: Graph, pending: map<string, int>, order: seq<string>)
    requires Ordering(deps, pending, order, [])
    ensures Stuck(deps, order)
  {
    assert order + [] == order;
    forall f | f in deps && f !in order
      ensures Waits(deps, order, f)
    {
      LeftZero(deps[f], deps.Keys, Members(order));
    }
  }

  lemma OrderIsShort(deps: Graph, order: seq<string>, ready: seq<string>)
    requires NoRepeat(order + ready) && forall f <- order + ready :: f in deps
    ensures NoRepeat(order) && |order| <= |deps| && Members(order) <= deps.Keys
  {
    assert forall i :: 0 <= i < |order| ==> (order + ready)[i] == order[i];
    assert forall f <- order :: f in order + ready;
    SizeOf(order);
    SubsetSize(Members(order), deps.Keys);
  }

  lemma {:induction false} SizeOf(a: seq<string>)
    requires NoRepeat(a)
    ensures |Members(a)| == |a|
  {
    if a != [] {
      SizeOf(a[1..]);
      assert Members(a) == {a[0]} + Members(a[1..]);
    }
  }

  lemma SubsetSize(a: set<string>, b: set<string>)
    requires a <= b
    ensures |a| <= |b| && (|a| == |b| ==> a == b)
  {
    assert b == a + (b - a);
  }

  // ---------- cycles ----------

  predicate Imports(deps: Graph, f: string, child: string) {
    f in deps && child in deps && child in deps[f]
  }

  ghost predicate IsWalk(deps: Graph, p: seq<string>) {
    forall i: nat :: i + 1 < |p| ==> Imports(deps, p[i], p[i + 1])
  }

  /** Each module imports the next, and the last the first. */
  ghost predicate IsCycle(deps: Graph, p: seq<string>) {
    |p| >= 1 && IsWalk(deps, p) && Imports(deps, p[|p| - 1], p[0])
  }

  ghost predicate HasCycle(deps: Graph) {
    exists p :: IsCycle(deps, p)
  }

  /** Where a module stands in the order. */
  function Place(order: seq<string>, f: string): nat
    requires f in order
  {
    if order[0] == f then 0 else 1 + Place(order[1..], f)
  }

  lemma {:induction false} PlaceIs(order: seq<string>, f: string)
    requires f in order
    ensures Place(order, f) < |order| && order[Place(order, f)] == f
  {
    if order[0] != f { PlaceIs(order[1..], f); }
  }

  lemma {:induction false} PlaceBefore(order: seq<string>, f: string, n: nat)
    requires n <= |order| && f in order[..n]
    ensures f in order && Place(order, f) < n
  {
    if order[0] != f {
      assert order[..n] == [order[0]] + order[1..][..n - 1];
      PlaceBefore(order[1..], f, n - 1);
    }
  }

  lemma ImportIsEarlier(deps: Graph, order: seq<string>, f: string, child: string)
    requires ImportsFirst(deps, order) && f in order && Imports(deps, f, child)
    ensures child in order && Place(order, child) < Place(order, f)
  {
    PlaceIs(order, f);
    assert ReadyAt(deps, order, Place(order, f));
    PlaceBefore(order, child, Place(order, f));
  }

  /** Along a walk places go down. */
  lemma {:induction false} PlacesFall(deps: Graph, order: seq<string>, p: seq<string>, k: nat)
    requires ImportsFirst(deps, order) && IsWalk(deps, p) && k < |p| && p[0] in order
    ensures p[k] in order && Place(order, p[k]) + k <= Place(order, p[0])
  {
    if k > 0 {
      PlacesFall(deps, order, p, k - 1);
      assert Imports(deps, p[k - 1], p[k - 1 + 1]);
      ImportIsEarlier(deps, order, p[k - 1], p[k]);
    }
  }

  lemma NoCycleThrough(deps: Graph, order: seq<string>, p: seq<string>)
    requires ImportsFirst(deps, order) && |p| >= 1 && IsWalk(deps, p) && p[0] in order
    ensures !Imports(deps, p[|p| - 1], p[0])
  {
    PlacesFall(deps, order, p, |p| - 1);
    if Imports(deps, p[|p| - 1], p[0]) {
      ImportIsEarlier(deps, order, p[|p| - 1], p[0]);
    }
  }

  lemma OrderedHasNoCycle(deps: Graph, order: seq<string>)
    requires ImportsFirst(deps, order) && forall f :: f in deps ==> f in order
    ensures !HasCycle(deps)
  {
    forall p: seq<string>
      ensures !IsCycle(deps, p)
    {
      if |p| >= 1 && IsWalk(deps, p) && p[0] in deps { NoCycleThrough(deps, order, p); }
    }
  }

  ghost predicate HasNext(deps: Graph, left: set<string>, f: string) {
    exists child <- left :: Imports(deps, f, child)
  }

  ghost predicate GoesOn(deps: Graph, left: set<string>) {
    forall f {:trigger HasNext(deps, left, f)} :: f in left ==> HasNext(deps, left, f)
  }

  lemma CloseTheWalk(deps: Graph, walk: seq<string>, k: nat)
    requires k < |walk| && IsWalk(deps, walk) && Imports(deps, walk[|walk| - 1], walk[k])
    ensures HasCycle(deps)
  {
    var p := walk[k..];
    forall i: nat | i + 1 < |p| ensures Imports(deps, p[i], p[i + 1]) {
      assert Imports(deps, walk[k + i], walk[k + i + 1]);
    }
    assert IsCycle(deps, p);
  }

  lemma LongerWalk(deps: Graph, walk: seq<string>, child: string)
    requires |walk| >= 1 && IsWalk(deps, walk) && NoRepeat(walk) && Imports(deps, walk[|walk| - 1], child) && child !in walk
    ensures IsWalk(deps, walk + [child]) && NoRepeat(walk + [child]) && Members(walk + [child]) == Members(walk) + {child}
  {
    var longer := walk + [child];
    forall i: nat | i + 1 < |longer| ensures Imports(deps, longer[i], longer[i + 1]) {
      if i + 1 < |walk| { assert Imports(deps, walk[i], walk[i + 1]); }
    }
  }

  lemma WalkFits(walk: seq<string>, left: set<string>)
    requires NoRepeat(walk) && Members(walk) <= left
    ensures |walk| <= |left|
  {
    SizeOf(walk);
    SubsetSize(Members(walk), left);
  }

  /** Following imports from one left out, among those left out, must come round: there are finitely many. */
  lemma {:induction false} WalkFindsCycle(deps: Graph, left: set<string>, walk: seq<string>)
    requires GoesOn(deps, left) && |walk| >= 1 && NoRepeat(walk) && Members(walk) <= left && IsWalk(deps, walk)
    ensures HasCycle(deps)
    decreases |left| - |walk|
  {
    var last := walk[|walk| - 1];
    assert last in Members(walk) && HasNext(deps, left, last);
    var child :| child in left && Imports(deps, last, child);
    if child in walk {
      var k: nat :| k < |walk| && walk[k] == child;
      CloseTheWalk(deps, walk, k);
    } else {
      LongerWalk(deps, walk, child);
      WalkFits(walk + [child], left);
      WalkFindsCycle(deps, left, walk + [child]);
    }
  }

  lemma StuckGoesOn(deps: Graph, order: seq<string>)
    requires Stuck(deps, order)
    ensures GoesOn(deps, deps.Keys - Members(order))
  {
    var left := deps.Keys - Members(order);
    forall g | g in left
      ensures HasNext(deps, left, g)
    {
      assert g in deps && g !in order && Waits(deps, order, g);
      var child :| child in deps[g] && child in deps && child !in order;
      assert child in left && Imports(deps, g, child);
    }
  }

  lemma StuckFindsCycle(deps: Graph, order: seq<string>, f: string)
    requires Stuck(deps, order) && f in deps && f !in order
    ensures HasCycle(deps)
  {
    StuckGoesOn(deps, order);
    assert Members([f]) == {f};
    WalkFindsCycle(deps, deps.Keys - Members(order), [f]);
  }

  /** The order is complete exactly when no module imports itself, however indirectly. */
  lemma CompleteIffAcyclic(deps: Graph, order: seq<string>)
    requires NoRepeat(order) && Members(order) <= deps.Keys && ImportsFirst(deps, order) && Stuck(deps, order)
    ensures |order| == |deps| <==> !HasCycle(deps)
    ensures |order| == |deps| <==> Members(order) == deps.Keys
  {
    SizeOf(order);
    SubsetSize(Members(order), deps.Keys);
    if |order| == |deps| {
      assert forall f :: f in deps ==> f in Members(order);
      OrderedHasNoCycle(deps, order);
    } else {
      assert deps.Keys == Members(order) + (deps.Keys - Members(order));
      var f :| f in deps.Keys - Members(order);
      StuckFindsCycle(deps, order, f);
    }
  }

  // ---------- packing ----------

  function Weight(files: seq<string>, names: map<string, nat>, size: string -> nat, chunk: nat): nat {
    if files == [] then 0
    else
      var last := files[|files| - 1];
      Weight(files[..|files| - 1], names, size, chunk) + if last in names && names[last] == chunk then size(last) else 0
  }

  function Weighty(files: seq<string>, names: map<string, nat>, size: string -> nat, chunk: nat): nat {
    if files == [] then 0
    else
      var last := files[|files| - 1];
      Weighty(files[..|files| - 1], names, size, chunk) + if last in names && names[last] == chunk && size(last) > 0 then 1 else 0
  }

  /** A chunk holds the sum of what its modules weigh. */
  lemma {:induction false} WeightsAdd(a: seq<string>, b: seq<string>, names: map<string, nat>, size: string -> nat, chunk: nat)
    ensures Weight(a + b, names, size, chunk) == Weight(a, names, size, chunk) + Weight(b, names, size, chunk)
    ensures Weighty(a + b, names, size, chunk) == Weighty(a, names, size, chunk) + Weighty(b, names, size, chunk)
  {
    if b == [] {
      assert a + b == a;
    } else {
      var n := |b| - 1;
      assert (a + b)[..|a| + n] == a + b[..n] && (a + b)[|a| + n] == b[n];
      WeightsAdd(a, b[..n], names, size, chunk);
    }
  }

  lemma WeightOfOne(f: string, names: map<string, nat>, size: string -> nat, chunk: nat)
    ensures Weight([f], names, size, chunk) == (if f in names && names[f] == chunk then size(f) else 0) && Weight([], names, size, chunk) == 0
    ensures Weighty([f], names, size, chunk) == (if f in names && names[f] == chunk && size(f) > 0 then 1 else 0) && Weighty([], names, size, chunk) == 0
  {
    assert [f][..0] == [];
  }

  /** Within the budget, unless a single module is the whole of it. */
  ghost predicate Fits(files: seq<string>, names: map<string, nat>, size: string -> nat, chunk: nat) {
    Weight(files, names, size, chunk) <= BUDGET || Weighty(files, names, size, chunk) == 1
  }

  lemma {:induction false} WeightFrame(files: seq<string>, names: map<string, nat>, more: map<string, nat>, size: string -> nat, chunk: nat)
    requires forall f <- files :: f in names && f in more && more[f] == names[f]
    ensures Weight(files, more, size, chunk) == Weight(files, names, size, chunk)
    ensures Weighty(files, more, size, chunk) == Weighty(files, names, size, chunk)
  {
    if files != [] { WeightFrame(files[..|files| - 1], names, more, size, chunk); }
  }

  lemma {:induction false} WeightOfNone(files: seq<string>, names: map<string, nat>, size: string -> nat, chunk: nat)
    requires forall f <- files :: f in names ==> names[f] < chunk
    ensures Weight(files, names, size, chunk) == 0 && Weighty(files, names, size, chunk) == 0
  {
    if files != [] {
      assert files[|files| - 1] in files;
      WeightOfNone(files[..|files| - 1], names, size, chunk);
    }
  }

  ghost predicate SkipsNone(files: seq<string>, names: map<string, nat>, i: int)
    requires 0 < i < |files| && files[i] in names && files[i - 1] in names
  {
    names[files[i]] <= names[files[i - 1]] + 1
  }

  /** Chunk numbers along the order: from 0, never down, never skipping one. */
  ghost predicate Steps(files: seq<string>, names: map<string, nat>) {
    && (forall i :: 0 <= i < |files| ==> files[i] in names)
    && (forall i, j :: 0 <= i <= j < |files| ==> names[files[i]] <= names[files[j]])
    && (files != [] ==> names[files[0]] == 0)
    && (forall i :: 0 < i < |files| ==> SkipsNone(files, names, i))
  }

  /** Where a new chunk starts: at a module that would take the chunk so far over the budget, unless that holds nothing. */
  ghost predicate TurnsAt(files: seq<string>, names: map<string, nat>, size: string -> nat, i: nat)
    requires 0 < i < |files| && files[i] in names && files[i - 1] in names
  {
    var used := Weight(files[..i], names, size, names[files[i - 1]]);
    names[files[i]] == if used > 0 && used + size(files[i]) > 2 * 1024 * 1024 then names[files[i - 1]] + 1 else names[files[i - 1]]
  }

  ghost predicate Greedy(files: seq<string>, names: map<string, nat>, size: string -> nat) {
    (forall f <- files :: f in names) && forall i: nat :: 0 < i < |files| ==> TurnsAt(files, names, size, i)
  }

  lemma GreedyOneMore(files: seq<string>, names: map<string, nat>, size: string -> nat, file: string, chunk: nat)
    requires Greedy(files, names, size) && file !in files
    requires files != [] ==> var bin := names[files[|files| - 1]]; var used := Weight(files, names, size, bin);
      chunk == if used > 0 && used + size(file) > BUDGET then bin + 1 else bin
    ensures Greedy(files + [file], names[file := chunk], size)
  {
    var all, more := files + [file], names[file := chunk];
    forall i: nat | 0 < i < |all| ensures TurnsAt(all, more, size, i) {
      assert all[i - 1] == files[i - 1] && all[..i] == files[..i] && forall f <- files[..i] :: f in files;
      WeightFrame(files[..i], names, more, size, names[files[i - 1]]);
      if i < |files| {
        assert all[i] == files[i] && TurnsAt(files, names, size, i);
      } else {
        assert files[..i] == files;
      }
    }
  }

  /** Every module has one chunk, every chunk is within the budget or a lone module, and a new one starts only where the
      budget asks for it. */
  ghost predicate Packed(files: seq<string>, names: map<string, nat>, size: string -> nat) {
    names.Keys == Members(files) && Steps(files, names) && AllFit(files, names, size) && Greedy(files, names, size)
  }

  lemma StepOneMore(files: seq<string>, names: map<string, nat>, file: string, chunk: nat)
    requires Steps(files, names) && file !in files
    requires if files == [] then chunk == 0 else names[files[|files| - 1]] <= chunk <= names[files[|files| - 1]] + 1
    ensures Steps(files + [file], names[file := chunk])
  {
    var all, more := files + [file], names[file := chunk];
    assert forall i :: 0 <= i < |files| ==> all[i] == files[i] && more[all[i]] == names[files[i]];
    forall i | 0 < i < |all| ensures SkipsNone(all, more, i) {
      if i < |files| { assert SkipsNone(files, names, i); }
    }
  }

  lemma WeighOneMore(files: seq<string>, names: map<string, nat>, size: string -> nat, file: string, chunk: nat, b: nat)
    requires file !in files && forall f <- files :: f in names
    ensures Weight(files + [file], names[file := chunk], size, b) == Weight(files, names, size, b) + if b == chunk then size(file) else 0
    ensures Weighty(files + [file], names[file := chunk], size, b) == Weighty(files, names, size, b) + if b == chunk && size(file) > 0 then 1 else 0
  {
    assert (files + [file])[..|files|] == files;
    WeightFrame(files, names, names[file := chunk], size, b);
  }

  lemma FitsOneMore(files: seq<string>, names: map<string, nat>, size: string -> nat, file: string, bin: nat, chunk: nat, b: nat)
    requires Fits(files, names, size, b) && file !in files && forall f <- files :: f in names && names[f] <= bin
    requires var used := Weight(files, names, size, bin); chunk == if used > 0 && used + size(file) > BUDGET then bin + 1 else bin
    ensures Fits(files + [file], names[file := chunk], size, b)
    ensures b > bin ==> Weight(files, names, size, b) == 0
  {
    WeighOneMore(files, names, size, file, chunk, b);
    WeightlessIsNone(files, names, size, b);
    if b > bin {
      WeightOfNone(files, names, size, b);
    }
  }

  lemma LastIsHighest(files: seq<string>, names: map<string, nat>)
    requires Steps(files, names) && files != []
    ensures forall f <- files :: f in names && names[f] <= names[files[|files| - 1]]
  {
    forall f <- files ensures f in names && names[f] <= names[files[|files| - 1]] {
      var i :| 0 <= i < |files| && files[i] == f;
    }
  }

  ghost predicate AllFit(files: seq<string>, names: map<string, nat>, size: string -> nat) {
    forall b: nat :: Fits(files, names, size, b)
  }

  lemma AllFitOneMore(files: seq<string>, names: map<string, nat>, size: string -> nat, file: string, bin: nat, chunk: nat)
    requires AllFit(files, names, size) && file !in files && forall f <- files :: f in names && names[f] <= bin
    requires var used := Weight(files, names, size, bin); chunk == if used > 0 && used + size(file) > BUDGET then bin + 1 else bin
    ensures AllFit(files + [file], names[file := chunk], size)
  {
    var all, more := files + [file], names[file := chunk];
    forall b: nat
      ensures Fits(all, more, size, b)
    {
      assert Fits(files, names, size, b);
      FitsOneMore(files, names, size, file, bin, chunk, b);
    }
  }

  lemma MembersOneMore(files: seq<string>, file: string)
    ensures Members(files + [file]) == Members(files) + {file}
  {
  }

  lemma PackOneMore(files: seq<string>, names: map<string, nat>, size: string -> nat, file: string, bin: nat, chunk: nat)
    requires Packed(files, names, size) && file !in files
    requires if files == [] then bin == 0 else bin == names[files[|files| - 1]]
    requires var used := Weight(files, names, size, bin); chunk == if used > 0 && used + size(file) > BUDGET then bin + 1 else bin
    ensures Packed(files + [file], names[file := chunk], size)
  {
    if files != [] { LastIsHighest(files, names); }
    StepOneMore(files, names, file, chunk);
    AllFitOneMore(files, names, size, file, bin, chunk);
    GreedyOneMore(files, names, size, file, chunk);
    MembersOneMore(files, file);
  }

  /** What the chunk of the module just packed holds: a new chunk, only that module. */
  lemma UsedOneMore(files: seq<string>, names: map<string, nat>, size: string -> nat, file: string, bin: nat, chunk: nat)
    requires Packed(files, names, size) && file !in files
    requires if files == [] then bin == 0 else bin == names[files[|files| - 1]]
    requires chunk == bin || chunk == bin + 1
    ensures Weight(files + [file], names[file := chunk], size, chunk) == (if chunk == bin then Weight(files, names, size, bin) else 0) + size(file)
  {
    WeighOneMore(files, names, size, file, chunk, chunk);
    if chunk > bin {
      if files != [] { LastIsHighest(files, names); }
      WeightOfNone(files, names, size, chunk);
    }
  }

  lemma {:induction false} WeightlessIsNone(files: seq<string>, names: map<string, nat>, size: string -> nat, chunk: nat)
    ensures Weight(files, names, size, chunk) == 0 ==> Weighty(files, names, size, chunk) == 0
  {
    if files != [] { WeightlessIsNone(files[..|files| - 1], names, size, chunk); }
  }

  /** Partway through the order: `bin` is the chunk being filled, and `used` what it holds. */
  ghost predicate Filling(files: seq<string>, names: map<string, nat>, size: string -> nat, bin: nat, used: nat) {
    && Packed(files, names, size) && used == Weight(files, names, size, bin)
    && if files == [] then bin == 0 else bin == names[files[|files| - 1]]
  }

  lemma FillOneMore(files: seq<string>, names: map<string, nat>, size: string -> nat, bin: nat, used: nat, file: string, bin': nat, used': nat)
    requires Filling(files, names, size, bin, used) && file !in files
    requires var full := used > 0 && used + size(file) > BUDGET;
      bin' == (if full then bin + 1 else bin) && used' == (if full then 0 else used) + size(file)
    ensures Filling(files + [file], names[file := bin'], size, bin', used')
  {
    PackOneMore(files, names, size, file, bin, bin');
    UsedOneMore(files, names, size, file, bin, bin');
  }

  lemma NextInOrder(order: seq<string>, i: nat)
    requires NoRepeat(order) && i < |order|
    ensures order[..i + 1] == order[..i] + [order[i]] && order[i] !in order[..i]
  {
  }

  method PackNext(names: map<string, nat>, bin: nat, used: nat, file: string, size: string -> nat, ghost files: seq<string>)
      returns (names': map<string, nat>, bin': nat, used': nat)
    requires Filling(files, names, size, bin, used) && file !in files
    ensures Filling(files + [file], names', size, bin', used')
  {
    bin', used' := bin, used;
    if used > 0 && used + size(file) > BUDGET {
      bin', used' := bin + 1, 0;
    }
    used' := used' + size(file);
    FillOneMore(files, names, size, bin, used, file, bin', used');
    names' := names[file := bin'];
  }

  lemma NothingFilled(size: string -> nat)
    ensures Filling([], map[], size, 0, 0)
  {
  }

  lemma Filled(files: seq<string>, names: map<string, nat>, size: string -> nat, bin: nat, used: nat)
    requires Filling(files, names, size, bin, used)
    ensures Packed(files, names, size)
  {
  }

  method Pack(order: seq<string>, size: string -> nat) returns (names: map<string, nat>)
    requires NoRepeat(order)
    ensures Packed(order, names, size)
  {
    names := map[];
    var bin: nat, used: nat := 0, 0;
    NothingFilled(size);
    assert order[..0] == [];
    for i := 0 to |order|
      invariant Filling(order[..i], names, size, bin, used)
    {
      NextInOrder(order, i);
      names, bin, used := PackNext(names, bin, used, order[i], size, order[..i]);
    }
    assert order[..|order|] == order;
    Filled(order, names, size, bin, used);
  }

  /** The chunk map: none exactly when the import graph has a cycle; otherwise every module gets one chunk, no
      import points to a later chunk, and a chunk over the budget holds one module of any size. */
  method ChunkMap(deps: Graph, keys: seq<string>, size: string -> nat) returns (names: Option<map<string, nat>>, ghost order: seq<string>)
    requires "" !in deps && NoRepeat(keys) && Members(keys) == deps.Keys
    ensures names.None? <==> HasCycle(deps)
    ensures names.Some? ==> names.value.Keys == deps.Keys && NoRepeat(order) && Members(order) == deps.Keys && Packed(order, names.value, size)
    ensures names.Some? ==> forall f, child :: f in deps && child in deps[f] && child in deps ==> names.value[child] <= names.value[f]
  {
    var sorted := DependencyOrder(deps, keys);
    order := sorted;
    CompleteIffAcyclic(deps, sorted);
    if |sorted| != |deps| {
      return None, sorted;
    }
    var packed := Pack(sorted, size);
    names := Some(packed);
    forall f, child | f in deps && child in deps[f] && child in deps
      ensures packed[child] <= packed[f]
    {
      assert f in Members(sorted) && Imports(deps, f, child);
      ImportIsEarlier(deps, sorted, f, child);
      PlaceIs(sorted, f);
      PlaceIs(sorted, child);
    }
  }
}
