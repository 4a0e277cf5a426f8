/** A stored table: rows in ascending id order, with gaps, read a page at a time (`page` in src/model.py). */
module Tables {
  import opened Options

  const PAGE: nat := 200
  const PAGE_MAX: nat := 500

  datatype Entry<+R> = Entry(id: nat, row: R)

  /** Ids ascend, from 1. */
  ghost predicate Ascending<R>(t: seq<Entry<R>>) {
    && (forall i, j :: 0 <= i < j < |t| ==> t[i].id < t[j].id)
    && (forall i :: 0 <= i < |t| ==> 1 <= t[i].id)
  }

  /** The rows from id `start` on. */
  function From<R>(t: seq<Entry<R>>, start: nat): seq<Entry<R>> {
    if t == [] then []
    else if t[0].id >= start then [t[0]] + From(t[1..], start)
    else From(t[1..], start)
  }

  function Clamp(count: int): nat {
    if count < 1 then 1 else if count > PAGE_MAX then PAGE_MAX else count
  }

  /** At most `count` rows from id `start`, and where the next page starts: nowhere after a short page. */
  function Page<R>(t: seq<Entry<R>>, start: nat, count: int): (seq<Entry<R>>, Option<nat>) {
    var rest := From(t, start);
    var n := Clamp(count);
    if |rest| < n then (rest, None) else (rest[..n], Some(rest[n - 1].id + 1))
  }

  /** What is still to come at a cursor; nothing once a list is complete. */
  function Rest<R>(t: seq<Entry<R>>, cursor: Option<nat>): seq<Entry<R>> {
    if cursor.None? then [] else From(t, cursor.value)
  }

  lemma {:induction false} FromAll<R>(t: seq<Entry<R>>, start: nat)
    requires forall e <- t :: e.id >= start
    ensures From(t, start) == t
  {
    if t != [] {
      assert forall e <- t[1..] :: e in t;
      FromAll(t[1..], start);
    }
  }

  lemma {:induction false} FromMembers<R>(t: seq<Entry<R>>, start: nat, i: nat)
    requires i < |From(t, start)|
    ensures From(t, start)[i].id >= start && exists j :: 0 <= j < |t| && t[j] == From(t, start)[i]
  {
    if t[0].id >= start {
      if i > 0 {
        FromMembers(t[1..], start, i - 1);
        var j :| 0 <= j < |t[1..]| && t[1..][j] == From(t[1..], start)[i - 1];
        assert t[j + 1] == From(t, start)[i];
      }
    } else {
      FromMembers(t[1..], start, i);
      var j :| 0 <= j < |t[1..]| && t[1..][j] == From(t[1..], start)[i];
      assert t[j + 1] == From(t, start)[i];
    }
  }

  lemma RestAscends<R>(t: seq<Entry<R>>)
    requires Ascending(t) && t != []
    ensures Ascending(t[1..])
  {
  }

  lemma FirstIsBefore<R>(t: seq<Entry<R>>, start: nat, i: nat)
    requires Ascending(t) && t != [] && i < |From(t[1..], start)|
    ensures 1 <= t[0].id < From(t[1..], start)[i].id
  {
    FromMembers(t[1..], start, i);
    var j :| 0 <= j < |t[1..]| && t[1..][j] == From(t[1..], start)[i];
    assert t[j + 1] == t[1..][j];
  }

  lemma PrependAscends<R>(e: Entry<R>, t: seq<Entry<R>>)
    requires Ascending(t) && 1 <= e.id && forall i :: 0 <= i < |t| ==> e.id < t[i].id
    ensures Ascending([e] + t)
  {
  }

  lemma {:induction false} FromAscends<R>(t: seq<Entry<R>>, start: nat)
    requires Ascending(t)
    ensures Ascending(From(t, start))
  {
    if t != [] {
      var later := From(t[1..], start);
      RestAscends(t);
      FromAscends(t[1..], start);
      forall i | 0 <= i < |later| ensures t[0].id < later[i].id { FirstIsBefore(t, start, i); }
      PrependAscends(t[0], later);
    }
  }

  lemma {:induction false} FromIndex<R>(t: seq<Entry<R>>, k: nat)
    requires Ascending(t) && k < |t|
    ensures From(t, t[k].id + 1) == t[k + 1..]
  {
    var rest, later := t[1..], t[k].id + 1;
    RestAscends(t);
    assert t[0].id < later;
    assert From(t, later) == From(rest, later);
    if k == 0 {
      forall e <- rest ensures e.id >= later { var j :| 0 <= j < |rest| && rest[j] == e; assert t[j + 1] == e; }
      FromAll(rest, later);
    } else {
      FromIndex(rest, k - 1);
      assert rest[k..] == t[k + 1..];
    }
  }

  lemma {:induction false} FromTwice<R>(t: seq<Entry<R>>, start: nat, later: nat)
    requires start <= later
    ensures From(From(t, start), later) == From(t, later)
  {
    if t != [] { FromTwice(t[1..], start, later); }
  }

  lemma FromLater<R>(t: seq<Entry<R>>, start: nat, k: nat)
    requires Ascending(t) && k < |From(t, start)|
    ensures From(t, start)[k].id >= start
    ensures From(t, From(t, start)[k].id + 1) == From(t, start)[k + 1..]
  {
    FromMembers(t, start, k);
    FromAscends(t, start);
    var rest := From(t, start);
    FromTwice(t, start, rest[k].id + 1);
    FromIndex(rest, k);
  }

  lemma SplitAt<R>(t: seq<Entry<R>>, start: nat, n: nat)
    requires Ascending(t) && 1 <= n <= |From(t, start)|
    ensures From(t, start)[n - 1].id >= start
    ensures From(t, start)[..n] + From(t, From(t, start)[n - 1].id + 1) == From(t, start)
  {
    FromLater(t, start, n - 1);
  }

  /** A full page ends with its last row, and the next one starts behind it. */
  lemma FullPage<R>(t: seq<Entry<R>>, start: nat, count: int) returns (n: nat, next: nat)
    requires |From(t, start)| >= Clamp(count)
    ensures n == Clamp(count) && 1 <= n <= |From(t, start)| && next == From(t, start)[n - 1].id + 1
    ensures Page(t, start, count) == (From(t, start)[..n], Some(next))
  {
    n := Clamp(count);
    next := From(t, start)[n - 1].id + 1;
  }

  lemma ShortPage<R>(t: seq<Entry<R>>, start: nat, count: int)
    requires |From(t, start)| < Clamp(count)
    ensures Page(t, start, count) == (From(t, start), None)
  {
  }

  lemma RestAt<R>(t: seq<Entry<R>>, start: nat)
    ensures Rest(t, Some(start)) == From(t, start)
  {
  }

  /** A page and what is to come after it are what was to come: no row is lost or repeated. */
  lemma PageThenRest<R>(t: seq<Entry<R>>, start: nat, count: int)
    requires Ascending(t)
    ensures Page(t, start, count).0 + Rest(t, Page(t, start, count).1) == From(t, start)
  {
    if |From(t, start)| < Clamp(count) {
      ShortPage(t, start, count);
    } else {
      var n, next := FullPage(t, start, count);
      SplitAt(t, start, n);
      RestAt(t, next);
    }
  }

  lemma PageAdvances<R>(t: seq<Entry<R>>, start: nat, count: int)
    requires Ascending(t) && Page(t, start, count).1.Some?
    ensures Page(t, start, count).1.value > start && |Page(t, start, count).0| == Clamp(count)
  {
    if |From(t, start)| < Clamp(count) {
      ShortPage(t, start, count);
    } else {
      var n, _ := FullPage(t, start, count);
      SplitAt(t, start, n);
    }
  }

  lemma PageShrinks<R>(t: seq<Entry<R>>, start: nat, count: int)
    requires Ascending(t)
    ensures Page(t, start, count).1.Some? ==> |Rest(t, Page(t, start, count).1)| == |From(t, start)| - Clamp(count)
  {
    PageThenRest(t, start, count);
    if Page(t, start, count).1.Some? { PageAdvances(t, start, count); }
  }

  lemma {:induction false} FromHas<R>(t: seq<Entry<R>>, start: nat, k: nat) returns (j: nat)
    requires k < |t| && t[k].id >= start
    ensures j < |From(t, start)| && From(t, start)[j] == t[k]
  {
    if k == 0 {
      j := 0;
    } else {
      j := FromHas(t[1..], start, k - 1);
      if t[0].id >= start { j := j + 1; }
    }
  }
}
