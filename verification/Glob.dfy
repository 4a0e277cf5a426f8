/** The globs of `.ic-assets.json5` rules (casals_cli/ic_assets.py): braces expand to alternatives, and each
    alternative is matched by backtracking over the path. */
module Glob {
  import opened Options

  // ---------- the language of a glob without braces ----------

  /** `**` and `**`/ stand for any string, `*` for one without slashes, `?` for one character that is not a
      slash, `[...]` for one character of the class, anything else for itself. */
  datatype Token = Any | Star | One | Class(body: string) | Lit(c: char)

  /** The first place of `c` from `i` on. */
  function Find(s: string, c: char, i: nat): (r: Option<nat>)
    ensures r.Some? ==> i <= r.value < |s| && s[r.value] == c
    decreases |s| - i
  {
    if i >= |s| then None else if s[i] == c then Some(i) else Find(s, c, i + 1)
  }

  lemma {:induction false} FindIsFirst(s: string, c: char, i: nat)
    ensures forall k :: i <= k < (if Find(s, c, i).Some? then Find(s, c, i).value else |s|) ==> s[k] != c
    decreases |s| - i
  {
    if i < |s| && s[i] != c { FindIsFirst(s, c, i + 1); }
  }

  /** The token at the head of a glob, and how much of it the token takes. */
  function Head(g: string): (r: (Token, nat))
    requires g != []
    ensures 1 <= r.1 <= |g|
  {
    if "**/" <= g then (Any, 3)
    else if "**" <= g then (Any, 2)
    else if g[0] == '*' then (Star, 1)
    else if g[0] == '?' then (One, 1)
    else if g[0] == '[' && Find(g, ']', 0).Some?
    then assert Find(g, ']', 0).value > 0; (Class(g[1..Find(g, ']', 0).value]), Find(g, ']', 0).value + 1)
    else (Lit(g[0]), 1)
  }

  function Tokens(g: string): seq<Token>
    decreases |g|
  {
    if g == [] then [] else [Head(g).0] + Tokens(g[Head(g).1..])
  }

  /** The ranges of a class body; a lone character is a range of one. */
  function Ranges(body: string): seq<(char, char)>
    decreases |body|
  {
    if body == [] then []
    else if |body| > 2 && body[1] == '-' then [(body[0], body[2])] + Ranges(body[3..])
    else [(body[0], body[0])] + Ranges(body[1..])
  }

  predicate Negated(cls: string) { cls != [] && (cls[0] == '!' || cls[0] == '^') }

  ghost predicate InRanges(rs: seq<(char, char)>, ch: char) {
    exists k :: 0 <= k < |rs| && rs[k].0 <= ch <= rs[k].1
  }

  ghost predicate InClass(cls: string, ch: char) {
    InRanges(Ranges(if Negated(cls) then cls[1..] else cls), ch) != Negated(cls)
  }

  ghost predicate Denotes(t: Token, s: string) {
    match t
    case Any => true
    case Star => '/' !in s
    case One => |s| == 1 && s[0] != '/'
    case Class(body) => |s| == 1 && InClass(body, s[0])
    case Lit(c) => s == [c]
  }

  /** Some way of cutting the path into what the tokens denote. */
  ghost predicate InLanguage(ts: seq<Token>, path: string)
    decreases |ts|
  {
    if ts == [] then path == []
    else exists k :: 0 <= k <= |path| && Denotes(ts[0], path[..k]) && InLanguage(ts[1..], path[k..])
  }

  // ---------- the matcher ----------

  lemma FirstOrLater(r: (char, char), rs: seq<(char, char)>, ch: char)
    ensures InRanges([r] + rs, ch) <==> r.0 <= ch <= r.1 || InRanges(rs, ch)
  {
    var all := [r] + rs;
    if InRanges(all, ch) {
      var k :| 0 <= k < |all| && all[k].0 <= ch <= all[k].1;
      if k > 0 { assert rs[k - 1] == all[k]; }
    }
    if r.0 <= ch <= r.1 { assert all[0] == r; }
    if InRanges(rs, ch) {
      var k :| 0 <= k < |rs| && rs[k].0 <= ch <= rs[k].1;
      assert all[k + 1] == rs[k];
    }
  }

  lemma NextRange(body: string, k: nat, ch: char)
    requires k < |body|
    ensures var pair := k + 2 < |body| && body[k + 1] == '-'; var next := if pair then k + 3 else k + 1;
      InRanges(Ranges(body[k..]), ch) <==> body[k] <= ch <= body[if pair then k + 2 else k] || InRanges(Ranges(body[next..]), ch)
  {
    var rest := body[k..];
    var pair := k + 2 < |body| && body[k + 1] == '-';
    var rs := Ranges(body[if pair then k + 3 else k + 1..]);
    if pair { assert rest[3..] == body[k + 3..]; } else { assert rest[1..] == body[k + 1..]; }
    var first := (body[k], body[if pair then k + 2 else k]);
    assert Ranges(rest) == [first] + rs;
    FirstOrLater(first, rs, ch);
  }

  method ClassHas(cls: string, ch: char) returns (hit: bool)
    ensures hit <==> InClass(cls, ch)
  {
    var body := if Negated(cls) then cls[1..] else cls;
    hit := false;
    var k := 0;
    assert body[0..] == body;
    while k < |body|
      invariant 0 <= k <= |body|
      invariant (hit || InRanges(Ranges(body[k..]), ch)) <==> InRanges(Ranges(body), ch)
    {
      NextRange(body, k, ch);
      if k + 2 < |body| && body[k + 1] == '-' {
        hit := hit || body[k] <= ch <= body[k + 2];
        k := k + 3;
      } else {
        hit := hit || body[k] == ch;
        k := k + 1;
      }
    }
    hit := hit != Negated(cls);
  }

  lemma ConsumeOne(ts: seq<Token>, path: string)
    requires ts != [] && !ts[0].Any? && !ts[0].Star?
    ensures InLanguage(ts, path) <==> path != [] && Denotes(ts[0], path[..1]) && InLanguage(ts[1..], path[1..])
  {
    if InLanguage(ts, path) {
      var k :| 0 <= k <= |path| && Denotes(ts[0], path[..k]) && InLanguage(ts[1..], path[k..]);
      assert k == 1;
    }
  }

  lemma FindFrom(s: string, c: char, i: nat)
    requires i <= |s|
    ensures Find(s[i..], c, 0).Some? <==> Find(s, c, i).Some?
    ensures Find(s, c, i).Some? ==> Find(s[i..], c, 0).value == Find(s, c, i).value - i
  {
    var a, b := Find(s[i..], c, 0), Find(s, c, i);
    FindIsFirst(s[i..], c, 0);
    FindIsFirst(s, c, i);
    if a.Some? { assert s[i + a.value] == c; }
    if b.Some? { assert s[i..][b.value - i] == c; }
  }

  lemma HeadFirst(g: string, i: nat)
    requires i < |g|
    ensures i + Head(g[i..]).1 <= |g|
    ensures Tokens(g[i..]) == [Head(g[i..]).0] + Tokens(g[i + Head(g[i..]).1..])
  {
    var n := Head(g[i..]).1;
    assert g[i..][n..] == g[i + n..];
  }

  ghost predicate RestMatches(ts: seq<Token>, p: string, j: nat) {
    j <= |p| && InLanguage(ts, p[j..])
  }

  /** From some place on, at or after `j`. */
  ghost predicate AfterAny(ts: seq<Token>, p: string, j: nat) {
    exists x: nat :: j <= x && RestMatches(ts, p, x)
  }

  /** The same, before the next slash. */
  ghost predicate AfterStar(ts: seq<Token>, p: string, j: nat) {
    exists x: nat :: j <= x && RestMatches(ts, p, x) && '/' !in p[j..x]
  }

  lemma AnyMatches(ts: seq<Token>, p: string, j: nat)
    requires j <= |p|
    ensures RestMatches([Any] + ts, p, j) <==> AfterAny(ts, p, j)
  {
    assert ([Any] + ts)[1..] == ts;
    if RestMatches([Any] + ts, p, j) {
      var k :| 0 <= k <= |p[j..]| && InLanguage(ts, p[j..][k..]);
      assert p[j..][k..] == p[j + k..] && RestMatches(ts, p, j + k);
    }
    if x: nat :| j <= x && RestMatches(ts, p, x) {
      assert p[j..][x - j..] == p[x..];
    }
  }

  lemma StarMatches(ts: seq<Token>, p: string, j: nat)
    requires j <= |p|
    ensures RestMatches([Star] + ts, p, j) <==> AfterStar(ts, p, j)
  {
    assert ([Star] + ts)[1..] == ts;
    if RestMatches([Star] + ts, p, j) {
      var k :| 0 <= k <= |p[j..]| && '/' !in p[j..][..k] && InLanguage(ts, p[j..][k..]);
      assert p[j..][k..] == p[j + k..] && p[j..][..k] == p[j..j + k] && RestMatches(ts, p, j + k);
    }
    if x: nat :| j <= x && RestMatches(ts, p, x) && '/' !in p[j..x] {
      assert p[j..][x - j..] == p[x..] && p[j..][..x - j] == p[j..x];
    }
  }

  lemma OneMatches(t: Token, ts: seq<Token>, p: string, j: nat)
    requires j <= |p| && !t.Any? && !t.Star?
    ensures RestMatches([t] + ts, p, j) <==> j < |p| && Denotes(t, [p[j]]) && RestMatches(ts, p, j + 1)
  {
    ConsumeOne([t] + ts, p[j..]);
    assert ([t] + ts)[1..] == ts;
    if j < |p| { assert p[j..][..1] == [p[j]] && p[j..][1..] == p[j + 1..]; }
  }

  method MatchAny(g: string, k: nat, p: string, j: nat) returns (r: bool)
    requires k <= |g| && j <= |p|
    ensures r <==> AfterAny(Tokens(g[k..]), p, j)
    decreases |g| - k, 3
  {
    for jj := j to |p| + 1
      invariant forall x: nat :: j <= x < jj ==> !RestMatches(Tokens(g[k..]), p, x)
    {
      var ok := Match(g, k, p, jj);
      if ok {
        return true;
      }
    }
    r := false;
  }

  method MatchStar(g: string, k: nat, p: string, j: nat) returns (r: bool)
    requires k <= |g| && j <= |p|
    ensures r <==> AfterStar(Tokens(g[k..]), p, j)
    decreases |g| - k, 3
  {
    var jj := j;
    while true
      invariant j <= jj <= |p| && '/' !in p[j..jj]
      invariant forall x: nat :: j <= x < jj ==> !RestMatches(Tokens(g[k..]), p, x)
      decreases |p| - jj
    {
      var ok := Match(g, k, p, jj);
      if ok {
        return true;
      }
      if jj >= |p| || p[jj] == '/' {
        forall x: nat | jj < x <= |p| ensures '/' in p[j..x] {
          assert p[j..x][jj - j] == '/';
        }
        return false;
      }
      assert p[j..jj + 1] == p[j..jj] + [p[jj]];
      jj := jj + 1;
    }
  }

  lemma AtAny(g: string, i: nat, p: string, j: nat)
    requires i < |g| && j <= |p| && "**" <= g[i..]
    ensures Head(g[i..]).1 == if "**/" <= g[i..] then 3 else 2
    ensures RestMatches(Tokens(g[i..]), p, j) <==> AfterAny(Tokens(g[i + Head(g[i..]).1..]), p, j)
  {
    HeadFirst(g, i);
    AnyMatches(Tokens(g[i + Head(g[i..]).1..]), p, j);
  }

  lemma AtStar(g: string, i: nat, p: string, j: nat)
    requires i < |g| && j <= |p| && g[i] == '*' && !("**" <= g[i..])
    ensures RestMatches(Tokens(g[i..]), p, j) <==> AfterStar(Tokens(g[i + 1..]), p, j)
  {
    HeadFirst(g, i);
    StarMatches(Tokens(g[i + 1..]), p, j);
  }

  lemma OneByOne(g: string)
    requires g != [] && g[0] != '*'
    ensures !Head(g).0.Any? && !Head(g).0.Star?
  {
  }

  lemma OneAt(g: string, i: nat, t: Token, next: nat)
    requires i < |g| && g[i] != '*' && t == Head(g[i..]).0 && next == i + Head(g[i..]).1
    ensures i < next <= |g| && !t.Any? && !t.Star? && Tokens(g[i..]) == [t] + Tokens(g[next..])
  {
    HeadFirst(g, i);
    OneByOne(g[i..]);
  }

  lemma AtOne(g: string, i: nat, next: nat, p: string, j: nat)
    requires i < |g| && j <= |p| && g[i] != '*' && next == i + Head(g[i..]).1
    ensures i < next <= |g|
    ensures RestMatches(Tokens(g[i..]), p, j) <==>
      j < |p| && Denotes(Head(g[i..]).0, [p[j]]) && RestMatches(Tokens(g[next..]), p, j + 1)
  {
    OneAt(g, i, Head(g[i..]).0, next);
    OneBefore(Tokens(g[i..]), Head(g[i..]).0, Tokens(g[next..]), p, j);
  }

  lemma OneBefore(all: seq<Token>, t: Token, ts: seq<Token>, p: string, j: nat)
    requires j <= |p| && !t.Any? && !t.Star? && all == [t] + ts
    ensures RestMatches(all, p, j) <==> j < |p| && Denotes(t, [p[j]]) && RestMatches(ts, p, j + 1)
  {
    OneMatches(t, ts, p, j);
  }

  /** One character against the token at `i`, and where the next token starts. */
  method MatchOne(g: string, i: nat, ch: char) returns (hit: bool, next: nat)
    requires i < |g| && g[i] != '*'
    ensures next == i + Head(g[i..]).1
    ensures hit <==> Denotes(Head(g[i..]).0, [ch])
  {
    var c, end := g[i], Find(g, ']', i);
    FindFrom(g, ']', i);
    if c == '?' {
      return ch != '/', i + 1;
    }
    if c == '[' && end.Some? {
      assert g[i..][1..end.value - i] == g[i + 1..end.value];
      hit := ClassHas(g[i + 1..end.value], ch);
      return hit, end.value + 1;
    }
    return ch == c, i + 1;
  }

  lemma AtEnd(g: string, p: string, j: nat)
    requires j <= |p|
    ensures RestMatches(Tokens(g[|g|..]), p, j) <==> j == |p|
  {
  }

  method TurnOne(g: string, i: nat, p: string, j: nat) returns (r: Option<bool>, next: nat)
    requires i < |g| && j <= |p| && g[i] != '*'
    ensures r.Some? ==> !r.value && !RestMatches(Tokens(g[i..]), p, j)
    ensures r.None? ==> i < next <= |g| && j < |p|
    ensures r.None? ==> (RestMatches(Tokens(g[next..]), p, j + 1) <==> RestMatches(Tokens(g[i..]), p, j))
  {
    if j == |p| {
      AtOne(g, i, i + Head(g[i..]).1, p, j);
      return Some(false), i;
    }
    var hit;
    hit, next := MatchOne(g, i, p[j]);
    AtOne(g, i, next, p, j);
    r := if hit then None else Some(false);
  }

  /** One turn of the matcher's loop at `(i, j)`: an answer, or the place to go on from. */
  method Turn(g: string, i: nat, p: string, j: nat) returns (r: Option<bool>, next: nat)
    requires i < |g| && j <= |p|
    ensures r.Some? ==> (r.value <==> RestMatches(Tokens(g[i..]), p, j))
    ensures r.None? ==> i < next <= |g| && j < |p|
    ensures r.None? ==> (RestMatches(Tokens(g[next..]), p, j + 1) <==> RestMatches(Tokens(g[i..]), p, j))
    decreases |g| - i, 1
  {
    if "**" <= g[i..] {
      AtAny(g, i, p, j);
      var ok := MatchAny(g, if "**/" <= g[i..] then i + 3 else i + 2, p, j);
      return Some(ok), i;
    }
    if g[i] == '*' {
      AtStar(g, i, p, j);
      var ok := MatchStar(g, i + 1, p, j);
      return Some(ok), i;
    }
    r, next := TurnOne(g, i, p, j);
  }

  /** Sound and complete: the matcher accepts exactly the paths in the glob's language. */
  method Match(g: string, i0: nat, p: string, j0: nat) returns (r: bool)
    requires i0 <= |g| && j0 <= |p|
    ensures r <==> RestMatches(Tokens(g[i0..]), p, j0)
    decreases |g| - i0, 2
  {
    var i, j := i0, j0;
    while i < |g|
      invariant i0 <= i <= |g| && 0 <= j <= |p|
      invariant RestMatches(Tokens(g[i..]), p, j) <==> RestMatches(Tokens(g[i0..]), p, j0)
      decreases |g| - i
    {
      var answer, next := Turn(g, i, p, j);
      if answer.Some? {
        return answer.value;
      }
      i, j := next, j + 1;
    }
    AtEnd(g, p, j);
    r := j == |p|;
  }

  // ---------- braces ----------

  function Split(s: string): (parts: seq<string>)
    ensures parts != []
  {
    if s == [] then [[]]
    else if s[0] == ',' then [[]] + Split(s[1..])
    else var rest := Split(s[1..]); [[s[0]] + rest[0]] + rest[1..]
  }

  lemma {:induction false} SplitMembers(s: string, c: char)
    requires c !in s
    ensures forall part <- Split(s) :: c !in part
  {
    if s != [] { SplitMembers(s[1..], c); }
  }

  datatype Cut = Whole | Pair(head: string, body: string, tail: string)

  /** The first brace pair: the first `{` and the first `}` after it. */
  function FirstPair(g: string): (r: Cut)
    ensures r.Pair? ==> |r.head| + |r.tail| + 2 <= |g|
  {
    match Find(g, '{', 0)
    case None => Whole
    case Some(i) => PairFrom(g, i)
  }

  function PairFrom(g: string, i: nat): (r: Cut)
    requires i < |g| && g[i] == '{'
    ensures r.Pair? ==> |r.head| + |r.tail| + 2 <= |g|
  {
    match Find(g, '}', i)
    case None => Whole
    case Some(j) => PairAt(g, i, j)
  }

  function PairAt(g: string, i: nat, j: nat): Cut
    requires i < j < |g|
  {
    Pair(g[..i], g[i + 1..j], g[j + 1..])
  }

  lemma FirstPairFacts(g: string)
    requires FirstPair(g).Pair?
    ensures var b := FirstPair(g);
      g == b.head + "{" + b.body + "}" + b.tail && '{' !in b.head && '}' !in b.body
  {
    FindIsFirst(g, '{', 0);
    FindIsFirst(g, '}', Find(g, '{', 0).value);
  }

  lemma Closings(g: string)
    requires FirstPair(g).Pair?
    ensures var b := FirstPair(g); multiset(g)['}'] == multiset(b.head)['}'] + multiset(b.tail)['}'] + 1
  {
    FirstPairFacts(g);
    assert '}' !in multiset(FirstPair(g).body);
  }

  /** Each alternative in turn replaces the first brace pair, and the result is expanded again. */
  function ExpandBraces(g: string): seq<string>
    decreases multiset(g)['}'], 0
  {
    match FirstPair(g)
    case Whole => [g]
    case Pair(head, body, tail) =>
      FirstPairFacts(g);
      SplitMembers(body, '}');
      Closings(g);
      ExpandEach(head, Split(body), tail)
  }

  function ExpandEach(head: string, alts: seq<string>, tail: string): seq<string>
    requires forall alt <- alts :: '}' !in alt
    decreases multiset(head)['}'] + multiset(tail)['}'], |alts| + 1
  {
    if alts == [] then []
    else
      assert alts[0] in alts && '}' !in multiset(alts[0]);
      ExpandBraces(head + alts[0] + tail) + ExpandEach(head, alts[1..], tail)
  }

  /** No brace opens inside a pair. */
  predicate Unnested(g: string)
    decreases |g|
  {
    match FirstPair(g)
    case Whole => true
    case Pair(_, body, tail) => '{' !in body && Unnested(tail)
  }

  function Prefixed(head: string, tails: seq<string>): seq<string> {
    if tails == [] then [] else [head + tails[0]] + Prefixed(head, tails[1..])
  }

  function Product(head: string, alts: seq<string>, tails: seq<string>): seq<string> {
    if alts == [] then [] else Prefixed(head + alts[0], tails) + Product(head, alts[1..], tails)
  }

  /** All combinations: one alternative of every pair, chosen on its own. */
  function Combinations(g: string): seq<string>
    decreases |g|
  {
    match FirstPair(g)
    case Whole => [g]
    case Pair(head, body, tail) => Product(head, Split(body), Combinations(tail))
  }

  lemma {:induction false} FindSkip(s: string, c: char, i: nat, k: nat)
    requires i <= k <= |s| && c !in s[i..k]
    ensures Find(s, c, i) == Find(s, c, k)
    decreases k - i
  {
    if i < k {
      assert s[i..k][0] == s[i];
      assert s[i + 1..k] == s[i..k][1..];
      FindSkip(s, c, i + 1, k);
    }
  }

  lemma {:induction false} FindShift(u: string, v: string, c: char, i: nat)
    requires i <= |v|
    ensures Find(u + v, c, |u| + i) == (match Find(v, c, i) case None => None case Some(k) => Some(|u| + k))
    decreases |v| - i
  {
    if i < |v| { FindShift(u, v, c, i + 1); }
  }

  lemma FirstAfter(u: string, v: string)
    requires '{' !in u
    ensures Find(u + v, '{', 0) == (match Find(v, '{', 0) case None => None case Some(k) => Some(|u| + k))
  {
    assert (u + v)[0..|u|] == u;
    FindSkip(u + v, '{', 0, |u|);
    FindShift(u, v, '{', 0);
  }

  lemma Sliced(u: string, v: string, i: nat, j: nat)
    requires i < j < |v|
    ensures PairAt(u + v, |u| + i, |u| + j) == Pair(u + v[..i], v[i + 1..j], v[j + 1..])
  {
    assert (u + v)[..|u| + i] == u + v[..i];
    assert (u + v)[|u| + i + 1..|u| + j] == v[i + 1..j];
    assert (u + v)[|u| + j + 1..] == v[j + 1..];
  }

  function Behind(u: string, c: Cut): Cut {
    match c
    case Whole => Whole
    case Pair(head, body, tail) => Pair(u + head, body, tail)
  }

  lemma ClosingAfter(u: string, v: string, i: nat)
    requires i < |v| && v[i] == '{'
    ensures PairFrom(u + v, |u| + i) == Behind(u, PairFrom(v, i))
  {
    FindShift(u, v, '}', i);
    match Find(v, '}', i)
    case None =>
    case Some(j) => Sliced(u, v, i, j);
  }

  lemma PairAfter(u: string, v: string)
    requires '{' !in u
    ensures FirstPair(u + v) == Behind(u, FirstPair(v))
  {
    FirstAfter(u, v);
    match Find(v, '{', 0)
    case None =>
    case Some(i) => ClosingAfter(u, v, i);
  }

  lemma {:induction false} PrefixedTwice(a: string, b: string, tails: seq<string>)
    ensures Prefixed(a, Prefixed(b, tails)) == Prefixed(a + b, tails)
  {
    if tails != [] {
      PrefixedTwice(a, b, tails[1..]);
      assert a + (b + tails[0]) == a + b + tails[0];
    }
  }

  lemma {:induction false} PrefixedJoin(a: string, xs: seq<string>, ys: seq<string>)
    ensures Prefixed(a, xs + ys) == Prefixed(a, xs) + Prefixed(a, ys)
  {
    if xs == [] {
      assert xs + ys == ys;
    } else {
      var all := xs + ys;
      assert all[0] == xs[0] && all[1..] == xs[1..] + ys;
      PrefixedJoin(a, xs[1..], ys);
      assert Prefixed(a, all) == [a + xs[0]] + Prefixed(a, all[1..]);
    }
  }

  /** Text before the first brace is kept in front of every expansion of the rest. */
  lemma {:induction false} ExpandAfter(u: string, v: string)
    requires '{' !in u
    ensures ExpandBraces(u + v) == Prefixed(u, ExpandBraces(v))
    decreases multiset(v)['}'], 0
  {
    PairAfter(u, v);
    match FirstPair(v)
    case Whole =>
    case Pair(head, body, tail) =>
      FirstPairFacts(v);
      SplitMembers(body, '}');
      Closings(v);
      ExpandEachAfter(u, head, Split(body), tail);
  }

  lemma {:induction false} ExpandEachAfter(u: string, head: string, alts: seq<string>, tail: string)
    requires '{' !in u && forall alt <- alts :: '}' !in alt
    ensures ExpandEach(u + head, alts, tail) == Prefixed(u, ExpandEach(head, alts, tail))
    decreases multiset(head)['}'] + multiset(tail)['}'], |alts| + 1
  {
    if alts != [] {
      assert alts[0] in alts && '}' !in multiset(alts[0]);
      ExpandAfter(u, head + alts[0] + tail);
      assert u + (head + alts[0] + tail) == u + head + alts[0] + tail;
      ExpandEachAfter(u, head, alts[1..], tail);
      PrefixedJoin(u, ExpandBraces(head + alts[0] + tail), ExpandEach(head, alts[1..], tail));
    }
  }

  lemma {:induction false} EachIsProduct(head: string, alts: seq<string>, tail: string)
    requires '{' !in head && forall alt <- alts :: '}' !in alt && '{' !in alt
    ensures ExpandEach(head, alts, tail) == Product(head, alts, ExpandBraces(tail))
  {
    if alts != [] {
      ExpandAfter(head + alts[0], tail);
      EachIsProduct(head, alts[1..], tail);
    }
  }

  /** Brace expansion gives every combination, in order, when no pair is nested in another. */
  lemma {:induction false} ExpansionIsEveryCombination(g: string)
    requires Unnested(g)
    ensures ExpandBraces(g) == Combinations(g)
    decreases |g|
  {
    match FirstPair(g)
    case Whole =>
    case Pair(head, body, tail) =>
      FirstPairFacts(g);
      SplitMembers(body, '}');
      SplitMembers(body, '{');
      EachIsProduct(head, Split(body), tail);
      ExpansionIsEveryCombination(tail);
  }

  lemma SplitCons(c: char, s: string)
    ensures Split([c] + s) == if c == ',' then [[]] + Split(s) else [[c] + Split(s)[0]] + Split(s)[1..]
  {
    assert ([c] + s)[1..] == s;
  }

  lemma NestedAlternatives()
    ensures Split("a,{b") == ["a", "{b"] && Split("b") == ["b"]
  {
    assert ['b'] + "" == "b" && ['{'] + "b" == "{b" && [','] + "{b" == ",{b" && ['a'] + ",{b" == "a,{b";
    SplitCons('b', "");
    SplitCons('{', "b");
    SplitCons(',', "{b");
    SplitCons('a', ",{b");
    assert Split("b") == ["b"];
    assert Split("{b") == ["{b"];
    assert Split(",{b") == ["", "{b"];
    assert ['a'] + "" == "a" && Split("a,{b") == ["a"] + ["{b"];
  }

  lemma InnerPair()
    ensures ExpandBraces("{b}") == ["b"]
  {
    assert Find("{b}", '}', 0) == Some(2);
    assert FirstPair("{b}") == Pair("", "b", "") && FirstPair("b") == Whole;
    NestedAlternatives();
    assert "" + "b" + "" == "b";
    assert ExpandEach("", ["b"], "") == ["b"];
  }

  lemma OuterPair()
    ensures FirstPair("{a,{b}}") == Pair("", "a,{b", "}")
  {
    assert Find("{a,{b}}", '}', 0) == Some(5);
  }

  lemma ExpandPair(g: string, head: string, body: string, tail: string)
    requires FirstPair(g) == Pair(head, body, tail)
    ensures (forall alt <- Split(body) :: '}' !in alt) && ExpandBraces(g) == ExpandEach(head, Split(body), tail)
  {
    FirstPairFacts(g);
    SplitMembers(body, '}');
    Closings(g);
  }

  lemma ExpandTwo(head: string, a: string, b: string, tail: string)
    requires '}' !in a && '}' !in b
    ensures ExpandEach(head, [a, b], tail) == ExpandBraces(head + a + tail) + ExpandBraces(head + b + tail)
  {
    assert [a, b][1..] == [b] && [b][1..] == [];
    assert ExpandEach(head, [b], tail) == ExpandBraces(head + b + tail) + [];
  }

  lemma LoneClosing()
    ensures ExpandBraces("a}") == ["a}"]
  {
    assert FirstPair("a}") == Whole;
  }

  lemma NestedIsNested()
    ensures !Unnested("{a,{b}}") && '{' in "a,{b"
  {
    OuterPair();
    assert "a,{b"[2] == '{';
  }

  lemma ExpandsToTwo(g: string, head: string, body: string, tail: string, a: string, b: string, x: string, y: string)
    requires FirstPair(g) == Pair(head, body, tail) && Split(body) == [a, b]
    requires ExpandBraces(head + a + tail) == [x] && ExpandBraces(head + b + tail) == [y]
    ensures ExpandBraces(g) == [x, y]
  {
    ExpandPair(g, head, body, tail);
    assert a in [a, b] && b in [a, b];
    ExpandTwo(head, a, b, tail);
  }

  /** A nested pair is not understood: the outer brace closes at the inner `}`. */
  lemma NestedBracesLeak()
    ensures !Unnested("{a,{b}}") && ExpandBraces("{a,{b}}") == ["a}", "b"]
  {
    NestedIsNested();
    OuterPair();
    NestedAlternatives();
    LoneClosing();
    InnerPair();
    assert "" + "a" + "}" == "a}" && "" + "{b" + "}" == "{b}";
    ExpandsToTwo("{a,{b}}", "", "a,{b", "}", "a", "{b", "a}", "b");
  }

  // ---------- whole globs ----------

  function LeftStripped(path: string): (r: string)
    ensures |r| <= |path| && r == path[|path| - |r|..] && (r == [] || r[0] != '/')
    ensures forall k :: 0 <= k < |path| - |r| ==> path[k] == '/'
  {
    if path != [] && path[0] == '/' then LeftStripped(path[1..]) else path
  }

  ghost predicate Admits(g: string, path: string) {
    InLanguage(Tokens(g), path)
  }

  ghost predicate AnyAdmits(gs: seq<string>, path: string) {
    exists k :: 0 <= k < |gs| && Admits(gs[k], path)
  }

  method Accepts(g: string, path: string) returns (r: bool)
    ensures r <==> Admits(g, path)
  {
    assert g[0..] == g && path[0..] == path;
    r := Match(g, 0, path, 0);
  }

  method AnyAccepts(gs: seq<string>, path: string) returns (r: bool)
    ensures r <==> AnyAdmits(gs, path)
  {
    for k := 0 to |gs|
      invariant forall x :: 0 <= x < k ==> !Admits(gs[x], path)
    {
      var hit := Accepts(gs[k], path);
      if hit {
        return true;
      }
    }
    r := false;
  }

  method GlobMatch(glob: string, path: string) returns (r: bool)
    ensures r <==> AnyAdmits(ExpandBraces(glob), LeftStripped(path))
    ensures Unnested(glob) ==> (r <==> AnyAdmits(Combinations(glob), LeftStripped(path)))
  {
    if Unnested(glob) { ExpansionIsEveryCombination(glob); }
    r := AnyAccepts(ExpandBraces(glob), LeftStripped(path));
  }
}
