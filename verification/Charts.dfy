/** The series behind the cycles charts (frontend/src/lib/charts.ts): duplicates collapsed, balances summed with
    forward-fill, burns put into buckets. Amounts are reals. */
module Charts {
  import opened Options
  import opened Filters

  datatype Point = Point(t: int, v: real)

  datatype Sample = Sample(ts: int, canister: string, cycles: real)

  // ---------- what a series says, whatever its order ----------

  /** The latest point at or before `t`; of points at one time the last given counts. */
  function Latest(ps: seq<Point>, t: int): Option<Point> {
    if ps == [] then None
    else
      var rest := Latest(ps[1..], t);
      if ps[0].t > t || (rest.Some? && rest.value.t >= ps[0].t) then rest else Some(ps[0])
  }

  /** The last point at time `t` itself. */
  function LastAt(ps: seq<Point>, t: int): Option<Point> {
    if ps == [] then None
    else
      var rest := LastAt(ps[1..], t);
      if rest.None? && ps[0].t == t then Some(ps[0]) else rest
  }

  lemma {:induction false} LatestFacts(ps: seq<Point>, t: int)
    ensures Latest(ps, t).None? <==> forall j :: 0 <= j < |ps| ==> ps[j].t > t
    ensures Latest(ps, t).Some? ==>
      exists i :: 0 <= i < |ps| && ps[i] == Latest(ps, t).value && ps[i].t <= t && IsLatest(ps, i, t)
  {
    if ps != [] {
      LatestFacts(ps[1..], t);
      var rest := Latest(ps[1..], t);
      if rest.Some? {
        var i :| 0 <= i < |ps[1..]| && ps[1..][i] == rest.value && ps[1..][i].t <= t && IsLatest(ps[1..], i, t);
        if ps[0].t > t || rest.value.t >= ps[0].t { assert IsLatest(ps, i + 1, t); } else { assert IsLatest(ps, 0, t); }
      } else if ps[0].t <= t {
        assert IsLatest(ps, 0, t);
      }
    }
  }

  ghost predicate IsLatest(ps: seq<Point>, i: nat, t: int)
    requires i < |ps|
  {
    forall j :: 0 <= j < |ps| && ps[j].t <= t ==> ps[j].t < ps[i].t || (ps[j].t == ps[i].t && j <= i)
  }

  // ---------- duplicates ----------

  ghost predicate Sorted(ps: seq<Point>) {
    forall i, j :: 0 <= i < j < |ps| ==> ps[i].t <= ps[j].t
  }

  ghost predicate Ascending(ps: seq<Point>) {
    forall i, j :: 0 <= i < j < |ps| ==> ps[i].t < ps[j].t
  }

  function Insert(p: Point, ps: seq<Point>): (r: seq<Point>)
    ensures |r| == |ps| + 1
  {
    if ps == [] || p.t <= ps[0].t then [p] + ps else [ps[0]] + Insert(p, ps[1..])
  }

  /** Stable: points at one time keep their order. */
  function SortByTime(ps: seq<Point>): seq<Point> {
    if ps == [] then [] else Insert(ps[0], SortByTime(ps[1..]))
  }

  lemma {:induction false} InsertSorts(p: Point, ps: seq<Point>)
    requires Sorted(ps)
    ensures Sorted(Insert(p, ps))
    ensures forall q :: q in Insert(p, ps) <==> q == p || q in ps
  {
    if ps != [] && p.t > ps[0].t {
      InsertSorts(p, ps[1..]);
      forall q <- Insert(p, ps[1..]) ensures ps[0].t <= q.t {}
    }
  }

  lemma LatestCons(p: Point, ps: seq<Point>, t: int)
    ensures Latest([p] + ps, t) == var rest := Latest(ps, t); if p.t > t || (rest.Some? && rest.value.t >= p.t) then rest else Some(p)
    ensures LastAt([p] + ps, t) == var rest := LastAt(ps, t); if rest.None? && p.t == t then Some(p) else rest
  {
    assert ([p] + ps)[1..] == ps;
  }

  /** A point that goes behind an earlier one says the same. */
  lemma LatestSwap(p: Point, q: Point, ps: seq<Point>, t: int)
    requires p.t > q.t
    ensures Latest([q] + ([p] + ps), t) == Latest([p] + ([q] + ps), t)
    ensures LastAt([q] + ([p] + ps), t) == LastAt([p] + ([q] + ps), t)
  {
    LatestCons(q, [p] + ps, t);
    LatestCons(p, ps, t);
    LatestCons(p, [q] + ps, t);
    LatestCons(q, ps, t);
  }

  lemma {:induction false} InsertFacts(p: Point, ps: seq<Point>, t: int)
    ensures Latest(Insert(p, ps), t) == Latest([p] + ps, t) && LastAt(Insert(p, ps), t) == LastAt([p] + ps, t)
  {
    if ps != [] && p.t > ps[0].t {
      var q, rest := ps[0], ps[1..];
      assert ps == [q] + rest;
      InsertFacts(p, rest, t);
      LatestCons(q, Insert(p, rest), t);
      LatestCons(q, [p] + rest, t);
      LatestSwap(p, q, rest, t);
    }
  }

  lemma {:induction false} SortFacts(ps: seq<Point>, t: int)
    ensures Sorted(SortByTime(ps))
    ensures forall q :: q in SortByTime(ps) <==> q in ps
    ensures Latest(SortByTime(ps), t) == Latest(ps, t) && LastAt(SortByTime(ps), t) == LastAt(ps, t)
  {
    if ps != [] {
      SortFacts(ps[1..], t);
      InsertSorts(ps[0], SortByTime(ps[1..]));
      InsertFacts(ps[0], SortByTime(ps[1..]), t);
      LatestCons(ps[0], SortByTime(ps[1..]), t);
    }
  }

  /** Of points at one time only the last is kept. */
  function Collapse(ps: seq<Point>): seq<Point> {
    if ps == [] then []
    else if |ps| >= 2 && ps[0].t == ps[1].t then Collapse(ps[1..])
    else [ps[0]] + Collapse(ps[1..])
  }

  function Deduped(ps: seq<Point>): seq<Point> { Collapse(SortByTime(ps)) }

  lemma {:induction false} CollapseAscends(ps: seq<Point>)
    requires Sorted(ps)
    ensures Ascending(Collapse(ps))
    ensures forall q <- Collapse(ps) :: q in ps
  {
    if ps != [] {
      CollapseAscends(ps[1..]);
      if |ps| < 2 || ps[0].t != ps[1].t {
        forall q <- Collapse(ps[1..]) ensures ps[0].t < q.t {}
      }
    }
  }

  /** The first of two points of one time says nothing. */
  lemma FirstOfTwo(ps: seq<Point>, t: int)
    requires |ps| >= 2 && ps[0].t == ps[1].t
    ensures Latest(ps, t) == Latest(ps[1..], t) && LastAt(ps, t) == LastAt(ps[1..], t)
  {
    var tail := ps[1..];
    assert tail[0].t == ps[0].t;
    LatestFacts(tail, t);
  }

  lemma {:induction false} CollapseFacts(ps: seq<Point>, t: int)
    ensures Latest(Collapse(ps), t) == Latest(ps, t) && LastAt(Collapse(ps), t) == LastAt(ps, t)
  {
    if ps != [] {
      CollapseFacts(ps[1..], t);
      if |ps| >= 2 && ps[0].t == ps[1].t {
        FirstOfTwo(ps, t);
      } else {
        LatestCons(ps[0], Collapse(ps[1..]), t);
      }
    }
  }

  /** Strictly increasing times, and at each of them, as at or before any time, the point the input ends with. */
  lemma DedupedFacts(ps: seq<Point>, t: int)
    ensures Ascending(Deduped(ps)) && forall q :: q in Deduped(ps) ==> q in ps
    ensures LastAt(Deduped(ps), t) == LastAt(ps, t)
    ensures Latest(Deduped(ps), t) == Latest(ps, t)
  {
    SortFacts(ps, t);
    CollapseAscends(SortByTime(ps));
    CollapseFacts(SortByTime(ps), t);
  }

  method DedupeSeriesPoints(points: seq<Point>) returns (out: seq<Point>)
    ensures out == Deduped(points)
  {
    var sorted := SortByTime(points);
    out := [];
    for i := 0 to |sorted|
      invariant i == 0 ==> out == []
      invariant i > 0 ==> out != [] && out[..|out| - 1] + Collapse([out[|out| - 1]] + sorted[i..]) == Collapse(sorted)
    {
      var p, rest := sorted[i], sorted[i + 1..];
      assert sorted[i..] == [p] + rest;
      if out != [] {
        var last := out[|out| - 1];
        assert ([last] + sorted[i..])[1..] == [p] + rest;
      }
      if out != [] && out[|out| - 1].t == p.t {
        out := out[|out| - 1 := p];
      } else {
        out := out + [p];
      }
    }
    if out != [] { assert out == out[..|out| - 1] + [out[|out| - 1]]; }
  }

  // ---------- balances summed with forward-fill ----------

  function PointsOf(samples: seq<Sample>, canister: string): seq<Point> {
    if samples == [] then []
    else
      var s := samples[0];
      (if s.canister == canister then [Point(s.ts, s.cycles)] else []) + PointsOf(samples[1..], canister)
  }

  /** The canisters in the order in which they first appear. */
  function Names(samples: seq<Sample>): seq<string> {
    if samples == [] then []
    else
      var last := samples[|samples| - 1];
      var rest := Names(samples[..|samples| - 1]);
      if last.canister in rest then rest else rest + [last.canister]
  }

  function Value(p: Option<Point>): real { if p.Some? then p.value.v else 0.0 }

  /** What the canisters held together at `t`: each its latest balance by then, or nothing before its first. */
  function Total(samples: seq<Sample>, names: seq<string>, t: int): real {
    if names == [] then 0.0
    else Total(samples, names[..|names| - 1], t) + Value(Latest(PointsOf(samples, names[|names| - 1]), t))
  }

  ghost predicate IsLeast(m: int, s: set<int>) {
    m in s && forall x <- s :: m <= x
  }

  lemma {:induction false} HasLeast(s: set<int>)
    requires s != {}
    ensures exists m :: IsLeast(m, s)
  {
    assert (forall x :: x !in s) ==> s == {};
    var x :| x in s;
    var rest := s - {x};
    assert forall y <- s :: y == x || y in rest;
    if rest == {} {
      assert IsLeast(x, s);
    } else {
      HasLeast(rest);
      var m :| IsLeast(m, rest);
      var least := if x < m then x else m;
      assert IsLeast(least, s);
    }
  }

  function Least(s: set<int>): (m: int)
    requires s != {}
    ensures IsLeast(m, s)
  {
    HasLeast(s);
    assert exists m :: m in s && forall x <- s :: m <= x by { var m :| IsLeast(m, s); }
    var m :| m in s && forall x <- s :: m <= x;
    m
  }

  function SortedTimes(s: set<int>): seq<int> {
    if s == {} then [] else var m := Least(s); [m] + SortedTimes(s - {m})
  }

  lemma {:induction false} SortedTimesFacts(s: set<int>)
    ensures forall t :: t in SortedTimes(s) <==> t in s
    ensures forall i, j :: 0 <= i < j < |SortedTimes(s)| ==> SortedTimes(s)[i] < SortedTimes(s)[j]
  {
    if s != {} {
      var m := Least(s);
      SortedTimesFacts(s - {m});
      var rest := SortedTimes(s - {m});
      forall j | 0 <= j < |rest| ensures m < rest[j] { assert rest[j] in rest; }
    }
  }

  function SampleTimes(samples: seq<Sample>): set<int> { set s <- samples :: s.ts }

  /** The chart's line: at each sample time, in order, what the canisters held together. */
  function Aggregated(samples: seq<Sample>): (r: seq<Point>)
    ensures |r| == |SortedTimes(SampleTimes(samples))|
  {
    var times := SortedTimes(SampleTimes(samples));
    seq(|times|, k requires 0 <= k < |times| => Point(times[k], Total(samples, Names(samples), times[k])))
  }

  lemma PointsOfNext(samples: seq<Sample>, canister: string)
    requires samples != []
    ensures PointsOf(samples, canister) ==
      if samples[0].canister == canister then [Point(samples[0].ts, samples[0].cycles)] + PointsOf(samples[1..], canister) else PointsOf(samples[1..], canister)
  {
    assert [] + PointsOf(samples[1..], canister) == PointsOf(samples[1..], canister);
  }

  lemma {:induction false} PointsOfJoin(a: seq<Sample>, s: Sample, canister: string)
    ensures PointsOf(a + [s], canister) == PointsOf(a, canister) + if s.canister == canister then [Point(s.ts, s.cycles)] else []
  {
    PointsOfNext(a + [s], canister);
    if a == [] {
      assert (a + [s])[1..] == [];
    } else {
      assert (a + [s])[1..] == a[1..] + [s];
      PointsOfJoin(a[1..], s, canister);
      PointsOfNext(a, canister);
    }
  }

  lemma {:induction false} PointsOfTimes(samples: seq<Sample>, canister: string, t: int)
    ensures (exists p <- PointsOf(samples, canister) :: p.t == t) <==> exists s <- samples :: s.ts == t && s.canister == canister
  {
    if samples != [] {
      PointsOfTimes(samples[1..], canister, t);
      var s, rest := samples[0], PointsOf(samples[1..], canister);
      assert samples == [s] + samples[1..];
      if p :| p in PointsOf(samples, canister) && p.t == t {
        if p !in rest { assert s.ts == t && s.canister == canister; }
      }
      if s.ts == t && s.canister == canister { assert Point(s.ts, s.cycles) in PointsOf(samples, canister); }
    }
  }

  lemma OneMore<T>(s: seq<T>, i: nat)
    requires i < |s|
    ensures s[..i + 1] == s[..i] + [s[i]]
  {
  }

  /** The dict of the samples so far, its keys in the order of first appearance. */
  ghost predicate Grouped(names: seq<string>, byCan: map<string, seq<Point>>, samples: seq<Sample>) {
    && names == Names(samples) && (forall c :: c in byCan <==> c in names)
    && forall c :: GroupedAt(byCan, samples, c)
  }

  ghost predicate GroupedAt(byCan: map<string, seq<Point>>, samples: seq<Sample>, c: string) {
    PointsOf(samples, c) == if c in byCan then byCan[c] else []
  }

  lemma NamesOneMore(samples: seq<Sample>, s: Sample)
    ensures Names(samples + [s]) == if s.canister in Names(samples) then Names(samples) else Names(samples) + [s.canister]
  {
    assert (samples + [s])[..|samples|] == samples;
  }

  lemma GroupOneMore(names: seq<string>, byCan: map<string, seq<Point>>, samples: seq<Sample>, s: Sample)
    requires Grouped(names, byCan, samples)
    ensures var before := if s.canister in byCan then byCan[s.canister] else [];
      Grouped(if s.canister in byCan then names else names + [s.canister],
              byCan[s.canister := before + [Point(s.ts, s.cycles)]], samples + [s])
  {
    var more := byCan[s.canister := (if s.canister in byCan then byCan[s.canister] else []) + [Point(s.ts, s.cycles)]];
    NamesOneMore(samples, s);
    assert GroupedAt(byCan, samples, s.canister);
    forall c ensures GroupedAt(more, samples + [s], c) {
      assert GroupedAt(byCan, samples, c);
      PointsOfJoin(samples, s, c);
    }
  }

  method AddSample(names: seq<string>, byCan: map<string, seq<Point>>, s: Sample, ghost samples: seq<Sample>)
      returns (names': seq<string>, byCan': map<string, seq<Point>>)
    requires Grouped(names, byCan, samples)
    ensures Grouped(names', byCan', samples + [s])
  {
    GroupOneMore(names, byCan, samples, s);
    names', byCan' := names, byCan;
    if s.canister !in byCan {
      names', byCan' := names + [s.canister], byCan[s.canister := []];
    }
    byCan' := byCan'[s.canister := byCan'[s.canister] + [Point(s.ts, s.cycles)]];
    assert byCan' == byCan[s.canister := (if s.canister in byCan then byCan[s.canister] else []) + [Point(s.ts, s.cycles)]];
  }

  /** The samples by canister, in the order of first appearance. */
  method Group(samples: seq<Sample>) returns (names: seq<string>, byCan: map<string, seq<Point>>)
    ensures names == Names(samples)
    ensures forall c :: c in byCan <==> c in names
    ensures forall c <- byCan :: byCan[c] == PointsOf(samples, c)
  {
    names, byCan := [], map[];
    assert Grouped(names, byCan, samples[..0]);
    for i := 0 to |samples|
      invariant Grouped(names, byCan, samples[..i])
    {
      names, byCan := AddSample(names, byCan, samples[i], samples[..i]);
      OneMore(samples, i);
    }
    assert samples[..|samples|] == samples;
    forall c <- byCan ensures byCan[c] == PointsOf(samples, c) { assert GroupedAt(byCan, samples, c); }
  }

  /** A canister's pointer: the points before `idx` are past, and the last of them is what it holds. */
  ghost predicate At(pts: seq<Point>, idx: nat, last: real, t: int) {
    && idx <= |pts| && (forall i :: 0 <= i < idx ==> pts[i].t <= t)
    && last == if idx == 0 then 0.0 else pts[idx - 1].v
  }

  lemma {:induction false} LatestOfAscending(pts: seq<Point>, idx: nat, t: int)
    requires Ascending(pts) && idx <= |pts|
    requires forall i :: 0 <= i < idx ==> pts[i].t <= t
    requires forall i :: idx <= i < |pts| ==> pts[i].t > t
    ensures Latest(pts, t) == if idx == 0 then None else Some(pts[idx - 1])
  {
    if pts != [] {
      LatestOfAscending(pts[1..], if idx == 0 then 0 else idx - 1, t);
    }
  }

  method Advance(pts: seq<Point>, idx: nat, last: real, t: int) returns (i: nat, v: real)
    requires Ascending(pts) && At(pts, idx, last, t)
    ensures At(pts, i, v, t)
    ensures v == Value(Latest(pts, t))
  {
    i, v := idx, last;
    while i < |pts| && pts[i].t <= t
      invariant At(pts, i, v, t)
    {
      v, i := pts[i].v, i + 1;
    }
    LatestOfAscending(pts, i, t);
  }

  ghost predicate Cursors(perCan: seq<seq<Point>>, idx: seq<nat>, lastV: seq<real>, t: int) {
    |idx| == |perCan| == |lastV| && forall c :: 0 <= c < |perCan| ==> At(perCan[c], idx[c], lastV[c], t)
  }

  function TotalOf(perCan: seq<seq<Point>>, t: int): real {
    if perCan == [] then 0.0 else TotalOf(perCan[..|perCan| - 1], t) + Value(Latest(perCan[|perCan| - 1], t))
  }

  method SumAt(perCan: seq<seq<Point>>, idx0: seq<nat>, lastV0: seq<real>, t: int)
    returns (sum: real, idx: seq<nat>, lastV: seq<real>)
    requires Cursors(perCan, idx0, lastV0, t) && AllAscending(perCan)
    ensures sum == TotalOf(perCan, t) && Cursors(perCan, idx, lastV, t)
  {
    sum, idx, lastV := 0.0, idx0, lastV0;
    for c := 0 to |perCan|
      invariant Cursors(perCan, idx, lastV, t)
      invariant sum == TotalOf(perCan[..c], t)
    {
      var i, v := Advance(perCan[c], idx[c], lastV[c], t);
      idx, lastV := idx[c := i], lastV[c := v];
      assert perCan[..c + 1][..c] == perCan[..c];
      sum := sum + v;
    }
    assert perCan[..|perCan|] == perCan;
  }

  lemma {:induction false} TotalIsTotalOf(samples: seq<Sample>, names: seq<string>, perCan: seq<seq<Point>>, t: int)
    requires |perCan| == |names| && forall c :: 0 <= c < |names| ==> perCan[c] == Deduped(PointsOf(samples, names[c]))
    ensures TotalOf(perCan, t) == Total(samples, names, t)
  {
    if names != [] {
      var last := |names| - 1;
      DedupedFacts(PointsOf(samples, names[last]), t);
      TotalIsTotalOf(samples, names[..last], perCan[..last], t);
    }
  }

  function TimesOf(perCan: seq<seq<Point>>): set<int> {
    if perCan == [] then {} else TimesOf(perCan[..|perCan| - 1]) + set p <- perCan[|perCan| - 1] :: p.t
  }

  lemma {:induction false} TimesOfAny(perCan: seq<seq<Point>>, t: int)
    ensures t in TimesOf(perCan) <==> exists k :: 0 <= k < |perCan| && HasTime(perCan[k], t)
  {
    if perCan != [] {
      var last := |perCan| - 1;
      TimesOfAny(perCan[..last], t);
      if k :| 0 <= k < |perCan| && HasTime(perCan[k], t) {
        if k < last { assert HasTime(perCan[..last][k], t); }
      }
    }
  }

  /** The first `n` canisters' points, each collapsed. */
  ghost predicate DedupedEach(perCan: seq<seq<Point>>, samples: seq<Sample>, n: nat) {
    |perCan| == n <= |Names(samples)| && forall c :: 0 <= c < n ==> perCan[c] == Deduped(PointsOf(samples, Names(samples)[c]))
  }

  lemma TimesOfMore(perCan: seq<seq<Point>>, ps: seq<Point>)
    ensures TimesOf(perCan + [ps]) == TimesOf(perCan) + set p <- ps :: p.t
  {
    assert (perCan + [ps])[..|perCan|] == perCan;
  }

  lemma DedupedOneMore(perCan: seq<seq<Point>>, samples: seq<Sample>, c: nat)
    requires DedupedEach(perCan, samples, c) && c < |Names(samples)|
    ensures DedupedEach(perCan + [Deduped(PointsOf(samples, Names(samples)[c]))], samples, c + 1)
  {
  }

  method DedupeEach(names: seq<string>, byCan: map<string, seq<Point>>, ghost samples: seq<Sample>)
      returns (perCan: seq<seq<Point>>, allTs: set<int>)
    requires names == Names(samples) && forall c <- names :: c in byCan && byCan[c] == PointsOf(samples, c)
    ensures DedupedEach(perCan, samples, |names|) && allTs == TimesOf(perCan)
  {
    perCan, allTs := [], {};
    for c := 0 to |names|
      invariant DedupedEach(perCan, samples, c) && allTs == TimesOf(perCan)
    {
      var deduped := DedupeSeriesPoints(byCan[names[c]]);
      DedupedOneMore(perCan, samples, c);
      TimesOfMore(perCan, deduped);
      perCan := perCan + [deduped];
      allTs := allTs + set p <- deduped :: p.t;
    }
  }

  lemma TimesAreAll(samples: seq<Sample>, perCan: seq<seq<Point>>)
    requires DedupedEach(perCan, samples, |Names(samples)|)
    ensures TimesOf(perCan) == SampleTimes(samples)
  {
    forall t ensures t in TimesOf(perCan) <==> t in SampleTimes(samples) {
      TimesOfAny(perCan, t);
      TimesMeet(samples, perCan, t);
    }
  }

  method PerCanister(samples: seq<Sample>) returns (perCan: seq<seq<Point>>, allTs: set<int>)
    ensures DedupedEach(perCan, samples, |Names(samples)|)
    ensures allTs == SampleTimes(samples)
  {
    var names, byCan := Group(samples);
    perCan, allTs := DedupeEach(names, byCan, samples);
    TimesAreAll(samples, perCan);
  }

  ghost predicate HasTime(ps: seq<Point>, t: int) {
    exists p <- ps :: p.t == t
  }

  lemma {:induction false} NamesAll(samples: seq<Sample>)
    ensures forall s <- samples :: s.canister in Names(samples)
  {
    if samples != [] {
      var last := |samples| - 1;
      NamesAll(samples[..last]);
      forall s <- samples ensures s.canister in Names(samples) {
        if s != samples[last] { assert s in samples[..last]; }
      }
    }
  }

  lemma DedupedTimes(ps: seq<Point>, t: int)
    ensures HasTime(Deduped(ps), t) <==> HasTime(ps, t)
  {
    DedupedFacts(ps, t);
    LastAtTimes(ps, t);
    LastAtTimes(Deduped(ps), t);
  }

  lemma {:induction false} LastAtTimes(ps: seq<Point>, t: int)
    ensures LastAt(ps, t).Some? <==> HasTime(ps, t)
  {
    if ps != [] {
      LastAtTimes(ps[1..], t);
      if HasTime(ps, t) && ps[0].t != t { var p :| p in ps && p.t == t; assert p in ps[1..]; }
    }
  }

  lemma TimesMeet(samples: seq<Sample>, perCan: seq<seq<Point>>, t: int)
    requires |perCan| == |Names(samples)|
    requires forall c :: 0 <= c < |perCan| ==> perCan[c] == Deduped(PointsOf(samples, Names(samples)[c]))
    ensures (exists k :: 0 <= k < |perCan| && HasTime(perCan[k], t)) <==> t in SampleTimes(samples)
  {
    var names := Names(samples);
    if k :| 0 <= k < |perCan| && HasTime(perCan[k], t) {
      DedupedTimes(PointsOf(samples, names[k]), t);
      PointsOfTimes(samples, names[k], t);
    }
    if s :| s in samples && s.ts == t {
      NamesAll(samples);
      var k :| 0 <= k < |names| && names[k] == s.canister;
      PointsOfTimes(samples, names[k], t);
      DedupedTimes(PointsOf(samples, names[k]), t);
      assert HasTime(perCan[k], t);
    }
  }

  ghost predicate AllAscending(perCan: seq<seq<Point>>) {
    forall c :: 0 <= c < |perCan| ==> Ascending(perCan[c])
  }

  /** The pointers of all canisters advance together through the times. */
  method ForwardFill(perCan: seq<seq<Point>>, times: seq<int>) returns (out: seq<Point>)
    requires AllAscending(perCan) && forall i, j :: 0 <= i < j < |times| ==> times[i] < times[j]
    ensures |out| == |times| && forall k :: 0 <= k < |times| ==> out[k] == Point(times[k], TotalOf(perCan, times[k]))
  {
    var idx, lastV := seq(|perCan|, _ => 0), seq(|perCan|, _ => 0.0);
    out := [];
    ghost var now := if times == [] then 0 else times[0];
    for k := 0 to |times|
      invariant |out| == k && forall j :: 0 <= j < k ==> out[j] == Point(times[j], TotalOf(perCan, times[j]))
      invariant Cursors(perCan, idx, lastV, now) && (k < |times| ==> now <= times[k])
    {
      var t, sum := times[k], 0.0;
      CursorsLater(perCan, idx, lastV, now, t);
      sum, idx, lastV := SumAt(perCan, idx, lastV, t);
      out, now := out + [Point(t, sum)], t;
    }
  }

  method AggregateBalanceSeries(samples: seq<Sample>) returns (out: seq<Point>)
    ensures out == Aggregated(samples)
  {
    var perCan, allTs := PerCanister(samples);
    SortedTimesFacts(allTs);
    forall c | 0 <= c < |perCan| ensures Ascending(perCan[c]) { DedupedFacts(PointsOf(samples, Names(samples)[c]), 0); }
    var times := SortedTimes(allTs);
    out := ForwardFill(perCan, times);
    forall k | 0 <= k < |times| ensures out[k] == Aggregated(samples)[k] {
      TotalIsTotalOf(samples, Names(samples), perCan, times[k]);
    }
  }

  lemma CursorsLater(perCan: seq<seq<Point>>, idx: seq<nat>, lastV: seq<real>, t: int, later: int)
    requires Cursors(perCan, idx, lastV, t) && t <= later
    ensures Cursors(perCan, idx, lastV, later)
  {
    forall c | 0 <= c < |perCan| ensures At(perCan[c], idx[c], lastV[c], later) { assert At(perCan[c], idx[c], lastV[c], t); }
  }

  // ---------- burn by interval and by bucket ----------

  function Sum(ps: seq<Point>): real {
    if ps == [] then 0.0 else Sum(ps[..|ps| - 1]) + ps[|ps| - 1].v
  }

  function Rise(a: Point, b: Point): real { if b.v > a.v then b.v - a.v else 0.0 }

  function Intervals(ps: seq<Point>): seq<Point> {
    if |ps| < 2 then []
    else var n := |ps|; Intervals(ps[..n - 1]) + [Point(ps[n - 1].t, Rise(ps[n - 2], ps[n - 1]))]
  }

  method IntervalBurnFromCumulative(points: seq<Point>) returns (out: seq<Point>)
    ensures out == Intervals(Deduped(points))
  {
    var sorted := DedupeSeriesPoints(points);
    out := [];
    if |sorted| < 2 {
      return;
    }
    for i := 1 to |sorted|
      invariant out == Intervals(sorted[..i])
    {
      assert sorted[..i + 1][..i] == sorted[..i];
      out := out + [Point(sorted[i].t, Rise(sorted[i - 1], sorted[i]))];
    }
    assert sorted[..|sorted|] == sorted;
  }

  predicate NeverFalls(ps: seq<Point>) {
    |ps| < 2 || (NeverFalls(ps[..|ps| - 1]) && ps[|ps| - 2].v <= ps[|ps| - 1].v)
  }

  /** The intervals add up to what the cumulative line rose by if and only if it never falls; else to more. */
  lemma NoInterval(ps: seq<Point>)
    requires |ps| == 1
    ensures Sum(Intervals(ps)) == 0.0 && NeverFalls(ps)
  {
  }

  lemma OneMoreInterval(ps: seq<Point>)
    requires |ps| >= 2
    ensures Sum(Intervals(ps)) == Sum(Intervals(ps[..|ps| - 1])) + Rise(ps[|ps| - 2], ps[|ps| - 1])
  {
    var more := Intervals(ps[..|ps| - 1]);
    assert Intervals(ps)[..|more|] == more;
  }

  lemma OneMoreRise(ps: seq<Point>)
    requires |ps| >= 2
    ensures NeverFalls(ps) <==> NeverFalls(ps[..|ps| - 1]) && ps[|ps| - 2].v <= ps[|ps| - 1].v
  {
  }

  /** The intervals add up to what the cumulative line rose by if and only if it never falls; else to more. */
  lemma {:induction false} IntervalsAddUpIff(ps: seq<Point>)
    requires ps != []
    ensures Sum(Intervals(ps)) >= ps[|ps| - 1].v - ps[0].v
    ensures Sum(Intervals(ps)) == ps[|ps| - 1].v - ps[0].v <==> NeverFalls(ps)
  {
    if |ps| == 1 {
      NoInterval(ps);
    } else {
      IntervalsAddUpIff(ps[..|ps| - 1]);
      OneMoreInterval(ps);
      OneMoreRise(ps);
    }
  }

  /** The end of the bucket that a time falls in. */
  function BucketEnd(t: int, width: int): (e: int)
    requires width > 0
    ensures e - width <= t < e
  {
    assert t == width * (t / width) + t % width;
    (t / width + 1) * width
  }

  function SumIn(ps: seq<Point>, width: int, end: int): real
    requires width > 0
  {
    if ps == [] then 0.0
    else
      var last := ps[|ps| - 1];
      SumIn(ps[..|ps| - 1], width, end) + if BucketEnd(last.t, width) == end then last.v else 0.0
  }

  function Ends(ps: seq<Point>, width: int): set<int>
    requires width > 0
  {
    set p <- ps :: BucketEnd(p.t, width)
  }

  /** Each bucket that holds a point, in order of time, with the sum of its points. */
  function Bucketed(points: seq<Point>, width: int): (r: seq<Point>)
    requires width > 0
    ensures |r| == |SortedTimes(Ends(Deduped(points), width))|
  {
    var ps := Deduped(points);
    var ends := SortedTimes(Ends(ps, width));
    seq(|ends|, k requires 0 <= k < |ends| => Point(ends[k], SumIn(ps, width, ends[k])))
  }

  lemma {:induction false} SumInNone(ps: seq<Point>, width: int, end: int)
    requires width > 0 && end !in Ends(ps, width)
    ensures SumIn(ps, width, end) == 0.0
  {
    if ps != [] {
      var n := |ps| - 1;
      assert ps[n] in ps;
      forall p <- ps[..n] ensures p in ps {}
      SumInNone(ps[..n], width, end);
    }
  }

  /** The buckets after the first points, with the sum of each. */
  ghost predicate Holds(buckets: map<int, real>, ps: seq<Point>, width: int)
    requires width > 0
  {
    buckets.Keys == Ends(ps, width) && forall e <- buckets :: buckets[e] == SumIn(ps, width, e)
  }

  lemma HoldsOneMore(buckets: map<int, real>, ps: seq<Point>, p: Point, width: int)
    requires width > 0 && Holds(buckets, ps, width)
    ensures var end := BucketEnd(p.t, width);
      Holds(buckets[end := (if end in buckets then buckets[end] else 0.0) + p.v], ps + [p], width)
  {
    var end := BucketEnd(p.t, width);
    if end !in buckets { SumInNone(ps, width, end); }
    EndsOfMore(ps, p, width);
    assert (ps + [p])[..|ps|] == ps;
  }

  method FillBuckets(ps: seq<Point>, width: int) returns (buckets: map<int, real>)
    requires width > 0
    ensures Holds(buckets, ps, width)
  {
    buckets := map[];
    assert Holds(buckets, ps[..0], width);
    for i := 0 to |ps|
      invariant Holds(buckets, ps[..i], width)
    {
      var end := BucketEnd(ps[i].t, width);
      HoldsOneMore(buckets, ps[..i], ps[i], width);
      OneMore(ps, i);
      buckets := buckets[end := (if end in buckets then buckets[end] else 0.0) + ps[i].v];
    }
    assert ps[..|ps|] == ps;
  }

  method BucketBurnSeries(points: seq<Point>, width: int) returns (out: seq<Point>)
    ensures out == if points == [] || width <= 0 then points else Bucketed(points, width)
  {
    if points == [] || width <= 0 {
      return points;
    }
    var sorted := DedupeSeriesPoints(points);
    var buckets := FillBuckets(sorted, width);
    out := EmitBuckets(buckets, sorted, width);
  }

  method EmitBuckets(buckets: map<int, real>, ghost ps: seq<Point>, width: int) returns (out: seq<Point>)
    requires width > 0 && Holds(buckets, ps, width)
    ensures |out| == |SortedTimes(Ends(ps, width))|
    ensures forall k :: 0 <= k < |out| ==> out[k] == Point(SortedTimes(Ends(ps, width))[k], SumIn(ps, width, SortedTimes(Ends(ps, width))[k]))
  {
    var ends := SortedTimes(buckets.Keys);
    SortedTimesFacts(buckets.Keys);
    forall k | 0 <= k < |ends| ensures ends[k] in buckets { assert ends[k] in ends; }
    out := seq(|ends|, k requires 0 <= k < |ends| => Point(ends[k], buckets[ends[k]]));
  }

  lemma EndsOfMore(ps: seq<Point>, p: Point, width: int)
    requires width > 0
    ensures Ends(ps + [p], width) == Ends(ps, width) + {BucketEnd(p.t, width)}
  {
    assert p in ps + [p];
    forall q <- ps ensures q in ps + [p] {}
  }

  /** The sums of the buckets whose ends are listed. */
  function SumOver(ps: seq<Point>, width: int, ends: seq<int>): real
    requires width > 0
  {
    if ends == [] then 0.0 else SumOver(ps, width, ends[..|ends| - 1]) + SumIn(ps, width, ends[|ends| - 1])
  }

  ghost predicate Distinct(xs: seq<int>) {
    forall i, j :: 0 <= i < j < |xs| ==> xs[i] != xs[j]
  }

  /** One more point adds to one bucket. */
  lemma {:induction false} OneMorePoint(ps: seq<Point>, p: Point, width: int, ends: seq<int>)
    requires width > 0 && Distinct(ends)
    ensures SumOver(ps + [p], width, ends) == SumOver(ps, width, ends) + if BucketEnd(p.t, width) in ends then p.v else 0.0
  {
    if ends != [] {
      var n := |ends| - 1;
      OneMorePoint(ps, p, width, ends[..n]);
      assert (ps + [p])[..|ps|] == ps;
      assert ends == ends[..n] + [ends[n]];
      assert ends[n] !in ends[..n];
    }
  }

  lemma {:induction false} EmptyBuckets(width: int, ends: seq<int>)
    requires width > 0
    ensures SumOver([], width, ends) == 0.0
  {
    if ends != [] { EmptyBuckets(width, ends[..|ends| - 1]); }
  }

  lemma {:induction false} BucketsHoldAll(ps: seq<Point>, width: int, ends: seq<int>)
    requires width > 0 && Distinct(ends) && forall e <- Ends(ps, width) :: e in ends
    ensures SumOver(ps, width, ends) == Sum(ps)
  {
    if ps == [] {
      EmptyBuckets(width, ends);
    } else {
      var n := |ps| - 1;
      assert ps == ps[..n] + [ps[n]];
      EndsOfMore(ps[..n], ps[n], width);
      BucketsHoldAll(ps[..n], width, ends);
      OneMorePoint(ps[..n], ps[n], width, ends);
    }
  }

  lemma {:induction false} SumOfPoints(ps: seq<Point>, width: int, ends: seq<int>, out: seq<Point>)
    requires width > 0 && |out| == |ends| && forall k :: 0 <= k < |ends| ==> out[k].v == SumIn(ps, width, ends[k])
    ensures Sum(out) == SumOver(ps, width, ends)
  {
    if ends != [] { SumOfPoints(ps, width, ends[..|ends| - 1], out[..|out| - 1]); }
  }

  /** Bucketing conserves the total of the points, and its times strictly increase. */
  lemma BucketsConserve(points: seq<Point>, width: int)
    requires width > 0
    ensures Sum(Bucketed(points, width)) == Sum(Deduped(points))
    ensures Ascending(Bucketed(points, width))
  {
    var ps := Deduped(points);
    var ends := SortedTimes(Ends(ps, width));
    SortedTimesFacts(Ends(ps, width));
    BucketsHoldAll(ps, width, ends);
    SumOfPoints(ps, width, ends, Bucketed(points, width));
  }

  /** Strictly increasing times, one for each time at which anything was sampled. */
  lemma AggregatedTimes(samples: seq<Sample>, t: int)
    ensures Ascending(Aggregated(samples))
    ensures (exists p <- Aggregated(samples) :: p.t == t) <==> exists s <- samples :: s.ts == t
  {
    var times, line := SortedTimes(SampleTimes(samples)), Aggregated(samples);
    SortedTimesFacts(SampleTimes(samples));
    if t in SampleTimes(samples) {
      var k :| 0 <= k < |times| && times[k] == t;
      assert line[k].t == t && line[k] in line;
    }
    if p :| p in line && p.t == t {
      var k :| 0 <= k < |line| && line[k] == p;
      assert times[k] in times;
    }
  }

  /** A canister that was not sampled between two times counts the same at both: a partial refresh draws no dip. */
  lemma {:induction false} UnsampledCountsTheSame(ps: seq<Point>, t: int, later: int)
    requires t <= later && forall i :: 0 <= i < |ps| ==> !(t < ps[i].t <= later)
    ensures Latest(ps, later) == Latest(ps, t)
  {
    if ps != [] { UnsampledCountsTheSame(ps[1..], t, later); }
  }

  // ---------- what the parts of a line are ----------

  /** A canister's points are its samples, in order. */
  lemma {:induction false} PointsOfIsFilter(samples: seq<Sample>, canister: string)
    ensures IsFilter(PointsOf(samples, canister), samples, (s: Sample) => s.canister == canister, (s: Sample) => Point(s.ts, s.cycles))
  {
    if samples == [] {
      FilterNone((s: Sample) => s.canister == canister, (s: Sample) => Point(s.ts, s.cycles));
    } else {
      PointsOfIsFilter(samples[1..], canister);
      PointsOfNext(samples, canister);
      FilterNext(PointsOf(samples[1..], canister), samples, (s: Sample) => s.canister == canister, (s: Sample) => Point(s.ts, s.cycles));
    }
  }

  /** Every canister that was sampled counts, and counts once. */
  lemma {:induction false} NamesOnce(samples: seq<Sample>)
    ensures forall i, j :: 0 <= i < j < |Names(samples)| ==> Names(samples)[i] != Names(samples)[j]
    ensures forall c :: c in Names(samples) <==> exists s <- samples :: s.canister == c
  {
    if samples != [] {
      var last := |samples| - 1;
      NamesOnce(samples[..last]);
      assert samples == samples[..last] + [samples[last]];
      assert forall s <- samples :: s in samples[..last] || s == samples[last];
    }
  }

  /** A total is the sum of its canisters' latest values: nothing for none, and the totals of two groups add up. */
  lemma {:induction false} TotalsAdd(samples: seq<Sample>, a: seq<string>, b: seq<string>, t: int)
    ensures Total(samples, a + b, t) == Total(samples, a, t) + Total(samples, b, t)
    ensures Total(samples, [], t) == 0.0
  {
    if b == [] {
      assert a + b == a;
    } else {
      var n := |b| - 1;
      assert (a + b)[..|a| + n] == a + b[..n] && (a + b)[|a| + n] == b[n];
      TotalsAdd(samples, a, b[..n], t);
    }
  }

  lemma TotalOfOne(samples: seq<Sample>, c: string, t: int)
    ensures Total(samples, [c], t) == if Latest(PointsOf(samples, c), t).Some? then Latest(PointsOf(samples, c), t).value.v else 0.0
  {
    assert [c][..0] == [];
  }

  /** The interval between each point and the one before. */
  lemma {:induction false} IntervalAt(ps: seq<Point>, i: nat)
    requires i + 1 < |ps|
    ensures |Intervals(ps)| == |ps| - 1 && Intervals(ps)[i].t == ps[i + 1].t
    ensures Intervals(ps)[i].v == if ps[i + 1].v > ps[i].v then ps[i + 1].v - ps[i].v else 0.0
  {
    var n := |ps|;
    IntervalsLength(ps[..n - 1]);
    if i + 2 < n { IntervalAt(ps[..n - 1], i); }
  }

  lemma {:induction false} IntervalsLength(ps: seq<Point>)
    ensures |Intervals(ps)| == if ps == [] then 0 else |ps| - 1
  {
    if |ps| >= 2 { IntervalsLength(ps[..|ps| - 1]); }
  }

  lemma MoreTimes(a: int, b: int, width: int)
    requires width > 0
    ensures a <= b <==> a * width <= b * width
  {
    if a <= b { assert (b - a) * width >= 0; } else { assert (a - b) * width > 0; }
  }

  /** Buckets end at the multiples of their width, and a point is in the one that ends after it and no more than a width
      later. */
  lemma BucketEndIs(t: int, width: int, k: int)
    requires width > 0
    ensures BucketEnd(t, width) == (t / width + 1) * width
    ensures BucketEnd(t, width) == k * width <==> k * width - width <= t < k * width
  {
    var q := t / width + 1;
    MoreTimes(k, q, width);
    MoreTimes(q, k, width);
    MoreTimes(k, q - 1, width);
    MoreTimes(q, k - 1, width);
    assert (q - 1) * width == q * width - width && (k - 1) * width == k * width - width;
  }

  /** What a bucket holds is the sum of its points. */
  lemma {:induction false} BucketsAdd(a: seq<Point>, b: seq<Point>, width: int, end: int)
    requires width > 0
    ensures SumIn(a + b, width, end) == SumIn(a, width, end) + SumIn(b, width, end) && SumIn([], width, end) == 0.0
  {
    if b == [] {
      assert a + b == a;
    } else {
      var n := |b| - 1;
      assert (a + b)[..|a| + n] == a + b[..n] && (a + b)[|a| + n] == b[n];
      BucketsAdd(a, b[..n], width, end);
    }
  }

  lemma BucketOfOne(p: Point, width: int, k: int)
    requires width > 0
    ensures SumIn([p], width, k * width) == if k * width - width <= p.t < k * width then p.v else 0.0
  {
    BucketEndIs(p.t, width, k);
    assert [p][..0] == [];
  }
}
