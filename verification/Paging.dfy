/** Reading a paged list op whole (`query_all` in casals_cli/ic.py). Several lists advance together, each by its
    own cursor; a page past the instruction limit is asked for again at half its size. */
module Paging {
  import opened Options
  import opened Tables
  import opened Filters

  /** What a query with these cursors and page size comes to. */
  datatype Verdict = Fits | TooLong | Broken

  /** A list op: its tables, what its caller may see of them, and how queries turn out. */
  datatype Server<!R> = Server(tables: seq<seq<Entry<R>>>, shows: R -> bool, verdict: (seq<Option<nat>>, nat) -> Verdict)

  /** One list of a reply. */
  datatype Reply<+R> = Reply(rows: seq<R>, next: Option<nat>)

  function Shown<R>(t: seq<Entry<R>>, shows: R -> bool): seq<R> {
    if t == [] then []
    else if shows(t[0].row) then [t[0].row] + Shown(t[1..], shows)
    else Shown(t[1..], shows)
  }

  /** A null cursor asks for nothing: the caller has the whole list. */
  function ReplyFor<R>(s: Server<R>, i: nat, cursor: Option<nat>, count: nat): Reply<R>
    requires i < |s.tables|
  {
    if cursor.None? then Reply([], None)
    else
      var (got, next) := Page(s.tables[i], cursor.value, count);
      Reply(Shown(got, s.shows), next)
  }

  function Replies<R>(s: Server<R>, cursors: seq<Option<nat>>, count: nat): (r: seq<Reply<R>>)
    requires |cursors| == |s.tables|
    ensures |r| == |cursors| && forall i :: 0 <= i < |r| ==> r[i] == ReplyFor(s, i, cursors[i], count)
  {
    seq(|cursors|, i requires 0 <= i < |cursors| => ReplyFor(s, i, cursors[i], count))
  }

  ghost predicate WellFormed<R>(s: Server<R>) {
    forall i :: 0 <= i < |s.tables| ==> Ascending(s.tables[i])
  }

  /** Every query fits once pages are a single row. */
  ghost predicate Serves<R>(s: Server<R>) {
    forall cursors, count :: !s.verdict(cursors, count).Broken? && (count == 1 ==> s.verdict(cursors, count).Fits?)
  }

  /** A query that is not asked again. */
  ghost predicate Fails<R>(s: Server<R>, cursors: seq<Option<nat>>, count: nat) {
    s.verdict(cursors, count).Broken? || (count == 1 && s.verdict(cursors, count).TooLong?)
  }

  // ---------- the reading ----------

  /** The first page size, halving from `count`, that is not too long; one row if they all are. */
  function Halved<R>(s: Server<R>, cursors: seq<Option<nat>>, count: nat): (r: nat)
    ensures r <= count && (count >= 1 ==> r >= 1)
  {
    if count > 1 && s.verdict(cursors, count).TooLong? then Halved(s, cursors, count / 2) else count
  }

  /** A page size halved some times. */
  function Half(count: nat, n: nat): nat {
    if n == 0 then count else Half(count / 2, n - 1)
  }

  /** The size that is used is the first, halving, that is a single row or not too long. */
  lemma {:induction false} HalvedIsFirst<R>(s: Server<R>, cursors: seq<Option<nat>>, count: nat) returns (n: nat)
    ensures Halved(s, cursors, count) == Half(count, n)
    ensures Half(count, n) <= 1 || !s.verdict(cursors, Half(count, n)).TooLong?
    ensures forall i: nat :: i < n ==> Half(count, i) > 1 && s.verdict(cursors, Half(count, i)).TooLong?
  {
    n := 0;
    if count > 1 && s.verdict(cursors, count).TooLong? {
      var m := HalvedIsFirst(s, cursors, count / 2);
      n := m + 1;
      forall i: nat | i < n ensures Half(count, i) > 1 && s.verdict(cursors, Half(count, i)).TooLong? {
        if i > 0 { assert Half(count, i) == Half(count / 2, i - 1); }
      }
    }
  }

  /** Halves the page size until the query is not too long. None is an error that is raised: any other than the length
      of the query, or the length of one for a single row. */
  method Ask<R>(s: Server<R>, cursors: seq<Option<nat>>, count: nat) returns (got: Option<seq<Reply<R>>>, used: nat)
    requires |cursors| == |s.tables| && count >= 1
    ensures 1 <= used <= count && used == Halved(s, cursors, count)
    ensures got == if s.verdict(cursors, used).Fits? then Some(Replies(s, cursors, used)) else None
    ensures got.None? ==> Fails(s, cursors, used)
    ensures Serves(s) ==> got.Some?
  {
    used := count;
    while true
      invariant 1 <= used <= count && Halved(s, cursors, used) == Halved(s, cursors, count)
      decreases used
    {
      match s.verdict(cursors, used) {
        case Fits =>
          return Some(Replies(s, cursors, used)), used;
        case Broken =>
          return None, used;
        case TooLong =>
          if used <= 1 {
            return None, used;
          }
          used := used / 2;
      }
    }
  }

  ghost function Ahead<R>(tables: seq<seq<Entry<R>>>, cursors: seq<Option<nat>>): nat
    requires |cursors| == |tables|
  {
    if tables == [] then 0
    else (if cursors[0].Some? then 1 + |From(tables[0], cursors[0].value)| else 0) + Ahead(tables[1..], cursors[1..])
  }

  lemma {:induction false} CursorsAdvance<R>(tables: seq<seq<Entry<R>>>, cursors: seq<Option<nat>>, after: seq<Option<nat>>, count: nat)
    requires |cursors| == |tables| == |after| && forall i :: 0 <= i < |tables| ==> Ascending(tables[i])
    requires forall i :: 0 <= i < |cursors| ==> after[i] == if cursors[i].None? then None else Page(tables[i], cursors[i].value, count).1
    ensures Ahead(tables, after) <= Ahead(tables, cursors)
    ensures (exists i :: 0 <= i < |cursors| && cursors[i].Some?) ==> Ahead(tables, after) < Ahead(tables, cursors)
  {
    if tables != [] {
      var t := tables[0];
      if cursors[0].Some? {
        PageThenRest(t, cursors[0].value, count);
        if after[0].Some? { PageAdvances(t, cursors[0].value, count); }
      }
      assert forall i :: 0 <= i < |cursors[1..]| ==> cursors[1..][i] == cursors[i + 1] && after[1..][i] == after[i + 1] && tables[1..][i] == tables[i + 1];
      CursorsAdvance(tables[1..], cursors[1..], after[1..], count);
    }
  }

  lemma {:induction false} ShownAppend<R>(a: seq<Entry<R>>, b: seq<Entry<R>>, shows: R -> bool)
    ensures Shown(a + b, shows) == Shown(a, shows) + Shown(b, shows)
  {
    if a == [] {
      assert a + b == b;
    } else {
      assert (a + b)[1..] == a[1..] + b;
      ShownAppend(a[1..], b, shows);
    }
  }

  /** What a reply adds to a list, and what it leaves to come, are what was to come. */
  lemma ReplyThenRest<R>(s: Server<R>, i: nat, cursor: Option<nat>, count: nat)
    requires WellFormed(s) && i < |s.tables|
    ensures var r := ReplyFor(s, i, cursor, count);
      r.rows + Shown(Rest(s.tables[i], r.next), s.shows) == Shown(Rest(s.tables[i], cursor), s.shows)
  {
    if cursor.Some? {
      PageThenRest(s.tables[i], cursor.value, count);
      var (got, after) := Page(s.tables[i], cursor.value, count);
      ShownAppend(got, Rest(s.tables[i], after), s.shows);
    }
  }

  function Nexts<R>(rs: seq<Reply<R>>): (r: seq<Option<nat>>)
    ensures |r| == |rs| && forall i :: 0 <= i < |r| ==> r[i] == rs[i].next
  {
    seq(|rs|, i requires 0 <= i < |rs| => rs[i].next)
  }

  function Added<R>(lists: seq<seq<R>>, rs: seq<Reply<R>>): (r: seq<seq<R>>)
    requires |lists| == |rs|
    ensures |r| == |rs| && forall i :: 0 <= i < |r| ==> r[i] == lists[i] + rs[i].rows
  {
    seq(|rs|, i requires 0 <= i < |rs| => lists[i] + rs[i].rows)
  }

  /** Each list read so far, and what is to come at its cursor, are the whole list. */
  ghost predicate Collected<R>(s: Server<R>, lists: seq<seq<R>>, cursors: seq<Option<nat>>) {
    && |lists| == |cursors| == |s.tables|
    && forall i :: 0 <= i < |lists| ==> lists[i] + Shown(Rest(s.tables[i], cursors[i]), s.shows) == Shown(s.tables[i], s.shows)
  }

  lemma CollectOne<R>(s: Server<R>, i: nat, list: seq<R>, cursor: Option<nat>, count: nat)
    requires WellFormed(s) && i < |s.tables|
    requires list + Shown(Rest(s.tables[i], cursor), s.shows) == Shown(s.tables[i], s.shows)
    ensures var r := ReplyFor(s, i, cursor, count);
      list + r.rows + Shown(Rest(s.tables[i], r.next), s.shows) == Shown(s.tables[i], s.shows)
  {
    ReplyThenRest(s, i, cursor, count);
    var r := ReplyFor(s, i, cursor, count);
    assert list + r.rows + Shown(Rest(s.tables[i], r.next), s.shows) == list + (r.rows + Shown(Rest(s.tables[i], r.next), s.shows));
  }

  lemma CollectReplies<R>(s: Server<R>, lists: seq<seq<R>>, cursors: seq<Option<nat>>, count: nat)
    requires WellFormed(s) && Collected(s, lists, cursors)
    ensures Collected(s, Added(lists, Replies(s, cursors, count)), Nexts(Replies(s, cursors, count)))
  {
    forall i | 0 <= i < |lists|
      ensures var r := ReplyFor(s, i, cursors[i], count);
        lists[i] + r.rows + Shown(Rest(s.tables[i], r.next), s.shows) == Shown(s.tables[i], s.shows)
    {
      CollectOne(s, i, lists[i], cursors[i], count);
    }
  }

  lemma RepliesAdvance<R>(s: Server<R>, cursors: seq<Option<nat>>, count: nat)
    requires WellFormed(s) && |cursors| == |s.tables| && exists i :: 0 <= i < |cursors| && cursors[i].Some?
    ensures Ahead(s.tables, Nexts(Replies(s, cursors, count))) < Ahead(s.tables, cursors)
  {
    CursorsAdvance(s.tables, cursors, Nexts(Replies(s, cursors, count)), count);
  }

  lemma AllCollected<R>(s: Server<R>, lists: seq<seq<R>>, cursors: seq<Option<nat>>)
    requires Collected(s, lists, cursors) && !(exists i :: 0 <= i < |cursors| && cursors[i].Some?)
    ensures forall i :: 0 <= i < |lists| ==> lists[i] == Shown(s.tables[i], s.shows)
  {
    forall i | 0 <= i < |lists| ensures lists[i] == Shown(s.tables[i], s.shows) {
      assert cursors[i].None?;
      assert lists[i] + [] == lists[i];
    }
  }

  lemma StartCollects<R>(s: Server<R>, lists: seq<seq<R>>, cursors: seq<Option<nat>>)
    requires WellFormed(s) && |lists| == |cursors| == |s.tables|
    requires forall i :: 0 <= i < |lists| ==> lists[i] == [] && cursors[i] == Some(1)
    ensures Collected(s, lists, cursors)
  {
    forall i | 0 <= i < |lists| ensures [] + Shown(Rest(s.tables[i], Some(1)), s.shows) == Shown(s.tables[i], s.shows) {
      FromAll(s.tables[i], 1);
    }
  }

  /** The rows of a table that the caller may see, each once, in id order. */
  ghost predicate IsVisible<R>(rows: seq<R>, t: seq<Entry<R>>, shows: R -> bool) {
    IsFilter(rows, t, (e: Entry<R>) => shows(e.row), (e: Entry<R>) => e.row)
  }

  lemma {:induction false} ShownIsVisible<R>(t: seq<Entry<R>>, shows: R -> bool)
    ensures IsVisible(Shown(t, shows), t, shows)
  {
    if t == [] {
      FilterNone((e: Entry<R>) => shows(e.row), (e: Entry<R>) => e.row);
    } else {
      ShownIsVisible(t[1..], shows);
      FilterNext(Shown(t[1..], shows), t, (e: Entry<R>) => shows(e.row), (e: Entry<R>) => e.row);
    }
  }

  /** Where nothing is hidden they are the whole table. */
  lemma NothingHidden<R>(rows: seq<R>, t: seq<Entry<R>>, shows: R -> bool)
    requires IsVisible(rows, t, shows) && forall k :: 0 <= k < |t| ==> shows(t[k].row)
    ensures |rows| == |t| && forall j :: 0 <= j < |t| ==> rows[j] == t[j].row
  {
    FilterOfAll(rows, t, (e: Entry<R>) => shows(e.row), (e: Entry<R>) => e.row);
  }

  lemma AllVisible<R>(s: Server<R>, lists: seq<seq<R>>)
    requires |lists| == |s.tables| && forall i :: 0 <= i < |lists| ==> lists[i] == Shown(s.tables[i], s.shows)
    ensures forall i :: 0 <= i < |lists| ==> IsVisible(lists[i], s.tables[i], s.shows)
  {
    forall i | 0 <= i < |lists| ensures IsVisible(lists[i], s.tables[i], s.shows) { ShownIsVisible(s.tables[i], s.shows); }
  }

  /** Paged reading equals the whole: whatever the gaps, the page size and the halvings, each list that comes back
      is the whole table, in id order, as far as the caller may see it. */
  method QueryAll<R>(s: Server<R>, count: nat) returns (out: Option<seq<seq<R>>>)
    requires WellFormed(s) && count >= 1
    ensures out.Some? ==> |out.value| == |s.tables| && forall i :: 0 <= i < |s.tables| ==> IsVisible(out.value[i], s.tables[i], s.shows)
    ensures Serves(s) ==> out.Some?
    ensures out.None? ==> exists cursors, c :: 1 <= c <= count && Fails(s, cursors, c)
  {
    var cursors := seq(|s.tables|, i => Some(1));
    var lists: seq<seq<R>> := seq(|s.tables|, i => []);
    var got, used := Ask(s, cursors, count);
    if got.None? {
      return None;
    }
    StartCollects(s, lists, cursors);
    CollectReplies(s, lists, cursors, used);
    lists, cursors := Added(lists, got.value), Nexts(got.value);
    while exists i :: 0 <= i < |cursors| && cursors[i].Some?
      invariant Collected(s, lists, cursors) && 1 <= used <= count
      decreases Ahead(s.tables, cursors)
    {
      got, used := Ask(s, cursors, used);
      if got.None? {
        return None;
      }
      CollectReplies(s, lists, cursors, used);
      RepliesAdvance(s, cursors, used);
      lists, cursors := Added(lists, got.value), Nexts(got.value);
    }
    AllCollected(s, lists, cursors);
    AllVisible(s, lists);
    out := Some(lists);
  }
}
