/** The globs told on their text, one law for each thing that can stand at the front: together they are the language, with
    no mention of how a glob is read. */
module GlobLaws {
  import opened Options
  import opened Glob

  lemma TokensAfter(front: string, g: string, t: Token)
    requires front != [] && Head(front + g) == (t, |front|)
    ensures Tokens(front + g) == [t] + Tokens(g)
  {
    assert (front + g)[|front|..] == g;
  }

  lemma EmptyLaw(p: string)
    ensures Admits("", p) <==> p == ""
  {
  }

  lemma OneLaw(front: string, g: string, t: Token, p: string)
    requires front != [] && Head(front + g) == (t, |front|) && !t.Any? && !t.Star?
    ensures Admits(front + g, p) <==> p != [] && Denotes(t, [p[0]]) && Admits(g, p[1..])
  {
    TokensAfter(front, g, t);
    ConsumeOne([t] + Tokens(g), p);
    assert ([t] + Tokens(g))[1..] == Tokens(g);
    if p != [] { assert p[..1] == [p[0]]; }
  }

  lemma NeverCloses(s: string)
    requires ']' !in s
    ensures Find(s, ']', 0) == None
  {
  }

  /** A character that means nothing stands for itself; so does a bracket that never closes. */
  lemma PlainLaw(c: char, g: string, p: string)
    requires c != '*' && c != '?' && (c == '[' ==> ']' !in g)
    ensures Admits([c] + g, p) <==> p != [] && p[0] == c && Admits(g, p[1..])
  {
    assert ([c] + g)[0] == c;
    if c == '[' { NeverCloses([c] + g); }
    OneLaw([c], g, Lit(c), p);
  }

  /** `?` stands for one character that is no slash. */
  lemma QuestionLaw(g: string, p: string)
    ensures Admits("?" + g, p) <==> p != [] && p[0] != '/' && Admits(g, p[1..])
  {
    assert ("?" + g)[0] == '?';
    OneLaw("?", g, One, p);
  }

  /** A class stands for one character that is in it, a slash or not. */
  lemma ClassLaw(body: string, g: string, p: string)
    requires ']' !in body
    ensures Admits("[" + body + "]" + g, p) <==> p != [] && InClass(body, p[0]) && Admits(g, p[1..])
  {
    var front, all := "[" + body + "]", "[" + body + "]" + g;
    assert all[0] == '[' && all[|body| + 1] == ']' && all[1..|body| + 1] == body;
    FindIsFirst(all, ']', 0);
    ClosesAt(all, |body| + 1);
    OneLaw(front, g, Class(body), p);
  }

  lemma ClosesAt(s: string, k: nat)
    requires k < |s| && s[k] == ']' && forall i :: 0 <= i < k ==> s[i] != ']'
    ensures Find(s, ']', 0) == Some(k)
  {
    FindIsFirst(s, ']', 0);
  }

  /** A star stands for anything without a slash. */
  lemma StarLaw(g: string, p: string)
    requires g == [] || g[0] != '*'
    ensures Admits("*" + g, p) <==> exists k :: 0 <= k <= |p| && '/' !in p[..k] && Admits(g, p[k..])
  {
    var all := "*" + g;
    assert all[0] == '*' && (g != [] ==> all[1] == g[0]);
    TokensAfter("*", g, Star);
    FrontLaw(Star, Tokens(g), p);
    forall k | 0 <= k <= |p| ensures '/' !in p[..k] && Admits(g, p[k..]) <==> Denotes(Star, p[..k]) && InLanguage(Tokens(g), p[k..]) {}
  }

  lemma FrontLaw(t: Token, ts: seq<Token>, p: string)
    ensures InLanguage([t] + ts, p) <==> exists k :: 0 <= k <= |p| && Denotes(t, p[..k]) && InLanguage(ts, p[k..])
  {
    assert ([t] + ts)[1..] == ts;
  }

  /** Two stars stand for anything at all, and take a slash after them along. */
  lemma StarsLaw(g: string, p: string)
    requires g == [] || g[0] != '/'
    ensures Admits("**" + g, p) <==> exists k :: 0 <= k <= |p| && Admits(g, p[k..])
  {
    var all := "**" + g;
    assert "**" <= all && (g != [] ==> all[2] == g[0]);
    TokensAfter("**", g, Any);
    FrontLaw(Any, Tokens(g), p);
  }

  lemma StarsSlashLaw(g: string, p: string)
    ensures Admits("**/" + g, p) <==> exists k :: 0 <= k <= |p| && Admits(g, p[k..])
  {
    assert "**/" <= "**/" + g;
    TokensAfter("**/", g, Any);
    FrontLaw(Any, Tokens(g), p);
  }

  // ---------- classes ----------

  /** The characters of a class, without the mark that negates it. */
  ghost predicate InBody(body: string, ch: char) { InRanges(Ranges(body), ch) }

  lemma NegationLaw(body: string, ch: char)
    ensures InClass("!" + body, ch) <==> !InBody(body, ch)
    ensures InClass("^" + body, ch) <==> !InBody(body, ch)
    ensures body == [] || (body[0] != '!' && body[0] != '^') ==> (InClass(body, ch) <==> InBody(body, ch))
  {
    assert ("!" + body)[1..] == body && ("^" + body)[1..] == body;
  }

  lemma RangeLaw(a: char, z: char, rest: string, ch: char)
    ensures InBody([a, '-', z] + rest, ch) <==> a <= ch <= z || InBody(rest, ch)
  {
    var all := [a, '-', z] + rest;
    assert all[3..] == rest && Ranges(all) == [(a, z)] + Ranges(rest);
    FirstOrLater((a, z), Ranges(rest), ch);
  }

  lemma MemberLaw(a: char, rest: string, ch: char)
    requires |rest| < 2 || rest[0] != '-'
    ensures InBody([a] + rest, ch) <==> ch == a || InBody(rest, ch)
    ensures !InBody([], ch)
  {
    var all := [a] + rest;
    assert all[1..] == rest && (|rest| >= 2 ==> all[1] == rest[0]);
    assert Ranges(all) == [(a, a)] + Ranges(rest);
    FirstOrLater((a, a), Ranges(rest), ch);
  }

  // ---------- braces ----------

  /** Alternatives are what stands between commas. */
  lemma {:induction false} LoneAlternativeLaw(a: string)
    requires ',' !in a
    ensures Split(a) == [a]
  {
    if a != [] {
      LoneAlternativeLaw(a[1..]);
      assert [a[0]] + a[1..] == a;
    }
  }

  lemma ConsSplit(c: char, a: string, rest: string)
    requires c != ',' && Split(a + "," + rest) == [a] + Split(rest)
    ensures Split([c] + (a + "," + rest)) == [[c] + a] + Split(rest)
  {
    SplitCons(c, a + "," + rest);
    assert ([a] + Split(rest))[1..] == Split(rest);
  }

  lemma {:induction false} AlternativesLaw(a: string, rest: string)
    requires ',' !in a
    ensures Split(a + "," + rest) == [a] + Split(rest)
  {
    if a == [] {
      assert a + "," + rest == [','] + rest;
      SplitCons(',', rest);
    } else {
      AlternativesLaw(a[1..], rest);
      ConsSplit(a[0], a[1..], rest);
      assert a == [a[0]] + a[1..] && a + "," + rest == [a[0]] + (a[1..] + "," + rest);
    }
  }

  lemma {:induction false} FindIsAt(s: string, c: char, i: nat, k: nat)
    requires i <= k < |s| && s[k] == c && forall j :: i <= j < k ==> s[j] != c
    ensures Find(s, c, i) == Some(k)
    decreases k - i
  {
    if i < k { FindIsAt(s, c, i + 1, k); }
  }

  /** The pair that is expanded first: the first opening brace, and the first closing one after it. */
  lemma PairLaw(head: string, body: string, tail: string)
    requires '{' !in head && '}' !in body
    ensures FirstPair(head + "{" + body + "}" + tail) == Pair(head, body, tail)
  {
    var g, i, j := head + "{" + body + "}" + tail, |head|, |head| + |body| + 1;
    assert g[..i] == head && g[i] == '{' && g[i + 1..j] == body && g[j] == '}' && g[j + 1..] == tail;
    forall k | 0 <= k < i ensures g[k] != '{' { assert g[k] == head[k]; }
    forall k | i < k < j ensures g[k] != '}' { assert g[k] == body[k - i - 1]; }
    FindIsAt(g, '{', 0, i);
    FindIsAt(g, '}', i, j);
  }

  lemma {:induction false} EachHasIff(head: string, alts: seq<string>, tail: string, x: string)
    requires forall alt <- alts :: '}' !in alt
    ensures x in ExpandEach(head, alts, tail) <==> exists alt <- alts :: x in ExpandBraces(head + alt + tail)
  {
    if alts != [] {
      assert alts[0] in alts && '}' !in multiset(alts[0]);
      EachHasIff(head, alts[1..], tail, x);
      assert forall alt :: alt in alts <==> alt == alts[0] || alt in alts[1..];
    }
  }

  /** A glob expands to what it expands to with each alternative in the place of the pair; without a pair, to itself. */
  lemma BraceLaw(head: string, body: string, tail: string, x: string)
    requires '{' !in head && '}' !in body
    ensures x in ExpandBraces(head + "{" + body + "}" + tail) <==> exists alt <- Split(body) :: x in ExpandBraces(head + alt + tail)
  {
    PairLaw(head, body, tail);
    ExpandPair(head + "{" + body + "}" + tail, head, body, tail);
    EachHasIff(head, Split(body), tail, x);
  }

  lemma NoPairLaw(g: string)
    requires '{' !in g || '}' !in g
    ensures ExpandBraces(g) == [g]
  {
  }
}
