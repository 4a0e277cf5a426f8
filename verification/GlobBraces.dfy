/** When nested braces of a glob (casals_cli/ic_assets.py) are taken apart wrongly: an outer `{` is closed by the first
    `}`, so alternatives before the inner pair keep the outer `}` as text. */
module GlobBraces {
  import opened Options
  import opened Glob

  /** Every brace closes one that is open, and none is left open; `open` are, before `g`. */
  predicate Closes(g: string, open: nat) {
    if g == [] then open == 0
    else if g[0] == '{' then Closes(g[1..], open + 1)
    else if g[0] == '}' then open > 0 && Closes(g[1..], open - 1)
    else Closes(g[1..], open)
  }

  predicate Balanced(g: string) { Closes(g, 0) }

  predicate Plain(g: string) { '{' !in g && '}' !in g }

  ghost predicate AllPlain(gs: seq<string>) {
    forall i :: 0 <= i < |gs| ==> Plain(gs[i])
  }

  /** No pair with another opened inside it has a comma before its first closing brace. */
  predicate Tidy(g: string)
    decreases multiset(g)['}']
  {
    match FirstPair(g)
    case Whole => true
    case Pair(head, body, tail) =>
      Closings(g);
      FirstPairFacts(g);
      JoinedClosings(head, body, tail);
      if '{' in body then ',' !in body && Tidy(head + body + tail) else Tidy(tail)
  }

  lemma JoinedClosings(head: string, body: string, tail: string)
    requires '}' !in body
    ensures multiset(head + body + tail)['}'] == multiset(head)['}'] + multiset(tail)['}']
  {
    assert '}' !in multiset(body);
  }

  // ---------- counting braces ----------

  lemma {:induction false} ClosesCounts(g: string, open: nat)
    requires Closes(g, open)
    ensures open + multiset(g)['{'] == multiset(g)['}']
  {
    if g != [] {
      assert g == [g[0]] + g[1..];
      ClosesCounts(g[1..], if g[0] == '{' then open + 1 else if g[0] == '}' then open - 1 else open);
    }
  }

  /** Text without closing braces only opens more. */
  lemma {:induction false} ClosesAfter(u: string, v: string, open: nat)
    requires '}' !in u
    ensures Closes(u + v, open) <==> Closes(v, open + multiset(u)['{'])
  {
    if u == [] {
      assert u + v == v;
    } else {
      assert u == [u[0]] + u[1..] && (u + v)[1..] == u[1..] + v;
      ClosesAfter(u[1..], v, if u[0] == '{' then open + 1 else open);
    }
  }

  lemma {:induction false} NoneOpensNoneCloses(g: string)
    requires Closes(g, 0) && '{' !in g
    ensures '}' !in g
  {
    if g != [] {
      NoneOpensNoneCloses(g[1..]);
      assert g == [g[0]] + g[1..];
    }
  }

  /** Before its first opening brace a balanced glob has no brace. */
  lemma {:induction false} HeadIsPlain(u: string, v: string)
    requires Closes(u + v, 0) && '{' !in u
    ensures '}' !in u
  {
    if u != [] {
      assert (u + v)[0] == u[0] && (u + v)[1..] == u[1..] + v && u == [u[0]] + u[1..];
      HeadIsPlain(u[1..], v);
    }
  }

  lemma WholeIsPlain(g: string)
    requires Balanced(g) && FirstPair(g) == Whole
    ensures Plain(g)
  {
    FindIsFirst(g, '{', 0);
    var at := Find(g, '{', 0);
    match at
    case None => NoneOpensNoneCloses(g);
    case Some(i) =>
      FindIsFirst(g, '}', i);
      assert g[i] in multiset(g);
      assert g == g[..i] + g[i..];
      HeadIsPlain(g[..i], g[i..]);
      assert '}' !in multiset(g);
      ClosesCounts(g, 0);
  }

  lemma PairCloses(head: string, body: string, tail: string)
    requires Closes(head + "{" + body + "}" + tail, 0) && '{' !in head && '}' !in body
    ensures Plain(head) && Closes(tail, multiset(body)['{'])
  {
    var inner := body + ("}" + tail);
    var rest := "{" + inner;
    assert head + "{" + body + "}" + tail == head + rest;
    HeadIsPlain(head, rest);
    ClosesAfter(head, rest, 0);
    assert '{' !in multiset(head);
    assert rest[1..] == inner;
    ClosesAfter(body, "}" + tail, 1);
    assert ("}" + tail)[1..] == tail;
  }

  lemma JoinCloses(head: string, body: string, tail: string)
    requires Plain(head) && '}' !in body && Closes(tail, multiset(body)['{'])
    ensures Balanced(head + body + tail)
  {
    assert '{' !in multiset(head);
    ClosesAfter(head + body, tail, 0);
  }

  /** What a balanced glob's first pair is made of. */
  lemma PairOfBalanced(g: string)
    requires Balanced(g) && FirstPair(g).Pair?
    ensures var b := FirstPair(g);
      && Plain(b.head) && '}' !in b.body && Closes(b.tail, multiset(b.body)['{']) && Balanced(b.head + b.body + b.tail)
  {
    FirstPairFacts(g);
    var b := FirstPair(g);
    PairCloses(b.head, b.body, b.tail);
    JoinCloses(b.head, b.body, b.tail);
  }

  // ---------- a stray brace ----------

  /** More closing braces than opening ones: whatever is expanded, some are left. */
  lemma {:induction false} ExcessStays(g: string)
    requires multiset(g)['}'] > multiset(g)['{']
    ensures ExpandBraces(g) != [] && forall i :: 0 <= i < |ExpandBraces(g)| ==> '}' in ExpandBraces(g)[i]
    decreases multiset(g)['}'], 0
  {
    match FirstPair(g)
    case Whole => assert '}' in multiset(g);
    case Pair(head, body, tail) =>
      FirstPairFacts(g);
      SplitMembers(body, '}');
      Closings(g);
      SplitCounts(body);
      ExcessStaysEach(head, Split(body), tail, multiset(body)['{']);
  }

  lemma {:induction false} ExcessStaysEach(head: string, alts: seq<string>, tail: string, m: nat)
    requires forall alt <- alts :: '}' !in alt && multiset(alt)['{'] <= m
    requires multiset(head)['}'] + multiset(tail)['}'] > multiset(head)['{'] + m + multiset(tail)['{']
    ensures alts != [] ==> ExpandEach(head, alts, tail) != []
    ensures forall i :: 0 <= i < |ExpandEach(head, alts, tail)| ==> '}' in ExpandEach(head, alts, tail)[i]
    decreases multiset(head)['}'] + multiset(tail)['}'], |alts| + 1
  {
    if alts != [] {
      assert alts[0] in alts && '}' !in multiset(alts[0]);
      ExcessStays(head + alts[0] + tail);
      ExcessStaysEach(head, alts[1..], tail, m);
    }
  }

  function Opened(parts: seq<string>): nat {
    if parts == [] then 0 else multiset(parts[0])['{'] + Opened(parts[1..])
  }

  lemma {:induction false} SplitOpened(s: string)
    ensures Opened(Split(s)) == multiset(s)['{'] && (',' in s <==> |Split(s)| >= 2)
  {
    if s != [] {
      assert s == [s[0]] + s[1..];
      SplitOpened(s[1..]);
      var rest := Split(s[1..]);
      if s[0] == ',' {
        assert ([[]] + rest)[1..] == rest;
      } else {
        assert ([[s[0]] + rest[0]] + rest[1..])[1..] == rest[1..];
      }
    }
  }

  lemma {:induction false} OpenedBounds(parts: seq<string>, i: nat)
    requires i < |parts|
    ensures multiset(parts[i])['{'] <= Opened(parts)
  {
    if i > 0 { OpenedBounds(parts[1..], i - 1); }
  }

  lemma SplitCounts(s: string)
    ensures forall part <- Split(s) :: multiset(part)['{'] <= multiset(s)['{']
  {
    SplitOpened(s);
    forall part <- Split(s) ensures multiset(part)['{'] <= multiset(s)['{'] {
      var i :| 0 <= i < |Split(s)| && Split(s)[i] == part;
      OpenedBounds(Split(s), i);
    }
  }

  /** Of two or more alternatives that open anything, one opens less than all. */
  lemma OneOpensLess(s: string) returns (i: nat)
    requires '{' in s && ',' in s
    ensures i < |Split(s)| && multiset(Split(s)[i])['{'] < multiset(s)['{']
  {
    SplitOpened(s);
    var parts, m := Split(s), multiset(s)['{'];
    assert '{' in multiset(s);
    if multiset(parts[0])['{'] < m {
      i := 0;
    } else {
      i := 1;
      OpenedBounds(parts[1..], 0);
    }
  }

  lemma {:induction false} EachHas(head: string, alts: seq<string>, tail: string, i: nat)
    requires i < |alts| && forall alt <- alts :: '}' !in alt
    ensures AllPlain(ExpandEach(head, alts, tail)) ==> AllPlain(ExpandBraces(head + alts[i] + tail))
  {
    assert alts[0] in alts && '}' !in multiset(alts[0]);
    var first, rest := ExpandBraces(head + alts[0] + tail), ExpandEach(head, alts[1..], tail);
    var all := ExpandEach(head, alts, tail);
    assert all == first + rest;
    assert forall j :: 0 <= j < |first| ==> all[j] == first[j];
    assert forall j :: 0 <= j < |rest| ==> all[|first| + j] == rest[j];
    if i > 0 { EachHas(head, alts[1..], tail, i - 1); }
  }

  /** Of a balanced glob's first pair, if another opens in it and it has a comma, an alternative that leaves more closing
      braces than it opens. */
  lemma LeakingAlternative(g: string) returns (i: nat)
    requires Balanced(g) && FirstPair(g).Pair? && '{' in FirstPair(g).body && ',' in FirstPair(g).body
    ensures var Pair(head, body, tail) := FirstPair(g);
      && i < |Split(body)| && (forall alt <- Split(body) :: '}' !in alt)
      && multiset(head + Split(body)[i] + tail)['}'] > multiset(head + Split(body)[i] + tail)['{']
  {
    PairOfBalanced(g);
    FirstPairFacts(g);
    var Pair(head, body, tail) := FirstPair(g);
    SplitMembers(body, '}');
    i := OneOpensLess(body);
    assert Split(body)[i] in Split(body) && '}' !in multiset(Split(body)[i]);
    ClosesCounts(tail, multiset(body)['{']);
    assert '}' !in multiset(head) && '{' !in multiset(head);
  }

  lemma CommaLeaks(g: string)
    requires Balanced(g) && FirstPair(g).Pair? && '{' in FirstPair(g).body && ',' in FirstPair(g).body
    ensures !AllPlain(ExpandBraces(g))
  {
    var i := LeakingAlternative(g);
    var Pair(head, body, tail) := FirstPair(g);
    ExcessStays(head + Split(body)[i] + tail);
    assert '}' in ExpandBraces(head + Split(body)[i] + tail)[0];
    EachHas(head, Split(body), tail, i);
    ExpandPair(g, head, body, tail);
  }

  // ---------- the condition ----------

  lemma {:induction false} PrefixedPlain(head: string, tails: seq<string>)
    requires Plain(head)
    ensures AllPlain(Prefixed(head, tails)) <==> AllPlain(tails)
  {
    if tails != [] {
      PrefixedPlain(head, tails[1..]);
      var all := Prefixed(head, tails);
      assert all[0] == head + tails[0] && all[1..] == Prefixed(head, tails[1..]);
      assert Plain(all[0]) <==> Plain(tails[0]);
      AllPlainFirst(all);
      AllPlainFirst(tails);
    }
  }

  lemma AllPlainFirst(gs: seq<string>)
    requires gs != []
    ensures AllPlain(gs) <==> Plain(gs[0]) && AllPlain(gs[1..])
  {
    if Plain(gs[0]) && AllPlain(gs[1..]) {
      forall i | 0 <= i < |gs| ensures Plain(gs[i]) { if i > 0 { assert gs[i] == gs[1..][i - 1]; } }
    }
    if AllPlain(gs) {
      forall i | 0 <= i < |gs[1..]| ensures Plain(gs[1..][i]) { assert gs[1..][i] == gs[i + 1]; }
    }
  }

  lemma AllPlainJoin(a: seq<string>, b: seq<string>)
    ensures AllPlain(a + b) <==> AllPlain(a) && AllPlain(b)
  {
    var all := a + b;
    assert forall i :: 0 <= i < |a| ==> all[i] == a[i];
    assert forall i :: 0 <= i < |b| ==> all[|a| + i] == b[i];
    if AllPlain(a) && AllPlain(b) {
      forall i | 0 <= i < |all| ensures Plain(all[i]) { if i >= |a| { assert all[i] == b[i - |a|]; } }
    }
  }

  lemma {:induction false} ProductPlain(head: string, alts: seq<string>, tails: seq<string>)
    requires Plain(head) && (forall alt <- alts :: Plain(alt)) && alts != []
    ensures AllPlain(Product(head, alts, tails)) <==> AllPlain(tails)
  {
    assert alts[0] in alts && Plain(head + alts[0]);
    PrefixedPlain(head + alts[0], tails);
    AllPlainJoin(Prefixed(head + alts[0], tails), Product(head, alts[1..], tails));
    if |alts| > 1 { ProductPlain(head, alts[1..], tails); }
  }

  lemma {:induction false} OneAlternative(s: string)
    requires ',' !in s
    ensures Split(s) == [s]
  {
    if s != [] {
      OneAlternative(s[1..]);
      assert s == [s[0]] + s[1..];
    }
  }

  lemma FlatPair(g: string)
    requires Balanced(g) && FirstPair(g).Pair? && '{' !in FirstPair(g).body
    ensures Balanced(FirstPair(g).tail)
    ensures AllPlain(ExpandBraces(g)) <==> AllPlain(ExpandBraces(FirstPair(g).tail))
  {
    PairOfBalanced(g);
    var Pair(head, body, tail) := FirstPair(g);
    assert '{' !in multiset(body);
    SplitMembers(body, '}');
    SplitMembers(body, '{');
    EachIsProduct(head, Split(body), tail);
    ProductPlain(head, Split(body), ExpandBraces(tail));
  }

  lemma LonePair(g: string)
    requires Balanced(g) && FirstPair(g).Pair? && ',' !in FirstPair(g).body
    ensures var b := FirstPair(g); Balanced(b.head + b.body + b.tail) && ExpandBraces(g) == ExpandBraces(b.head + b.body + b.tail)
  {
    PairOfBalanced(g);
    var Pair(head, body, tail) := FirstPair(g);
    OneAlternative(body);
    assert ExpandEach(head, [body], tail) == ExpandBraces(head + body + tail) + ExpandEach(head, [body][1..], tail);
  }

  /** A balanced glob expands without a stray brace if and only if no pair with another opened inside it has a comma
      before its first closing brace. */
  lemma {:induction false} NestingLeaksIff(g: string)
    requires Balanced(g)
    ensures AllPlain(ExpandBraces(g)) <==> Tidy(g)
    decreases multiset(g)['}']
  {
    match FirstPair(g) {
      case Whole => WholeIsPlain(g);
      case Pair(head, body, tail) =>
        FirstPairFacts(g);
        Closings(g);
        JoinedClosings(head, body, tail);
        if '{' !in body {
          FlatPair(g);
          NestingLeaksIff(tail);
        } else if ',' in body {
          CommaLeaks(g);
        } else {
          LonePair(g);
          NestingLeaksIff(head + body + tail);
        }
    }
  }
}
