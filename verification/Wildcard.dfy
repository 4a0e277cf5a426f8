/** The `*` wildcard that says which stands an arrangement covers (`glob_match` in casals_cli/sheetv2.py): split
    the pattern at its stars, then place each part as far left as it will go. */
module Wildcard {
  import opened Options

  /** A `*` stands for any string, any other character for itself. */
  ghost predicate Matches(pattern: string, name: string) {
    if pattern == [] then name == []
    else if pattern[0] == '*' then exists k :: 0 <= k <= |name| && Matches(pattern[1..], name[k..])
    else name != [] && name[0] == pattern[0] && Matches(pattern[1..], name[1..])
  }

  /** The pattern's parts between stars. */
  function Split(pattern: string): (parts: seq<string>)
    ensures parts != []
  {
    if pattern == [] then [[]]
    else if pattern[0] == '*' then [[]] + Split(pattern[1..])
    else var rest := Split(pattern[1..]); [[pattern[0]] + rest[0]] + rest[1..]
  }

  predicate At(s: string, part: string, pos: nat) {
    pos + |part| <= |s| && s[pos..pos + |part|] == part
  }

  /** The leftmost place from `pos` on. */
  function Find(s: string, part: string, pos: nat): (r: Option<nat>)
    ensures r.Some? ==> r.value >= pos && At(s, part, r.value)
    decreases |s| + 1 - pos
  {
    if pos + |part| > |s| then None else if At(s, part, pos) then Some(pos) else Find(s, part, pos + 1)
  }

  lemma {:induction false} FindIsFirst(s: string, part: string, pos: nat, k: nat)
    requires pos <= k && At(s, part, k)
    ensures Find(s, part, pos).Some? && Find(s, part, pos).value <= k
    decreases k - pos
  {
    if pos < k { FindIsFirst(s, part, pos + 1, k); }
  }

  predicate EndsWith(s: string, part: string) {
    |part| <= |s| && s[|s| - |part|..] == part
  }

  // ---------- parts placed with gaps between them ----------

  /** The first part, then the others with any gaps, to the end. */
  ghost predicate Placed(parts: seq<string>, s: string)
    requires parts != []
    decreases |parts|, 0
  {
    if |parts| == 1 then s == parts[0] else parts[0] <= s && Gapped(parts[1..], s[|parts[0]|..])
  }

  /** The same after any gap. */
  ghost predicate Gapped(parts: seq<string>, s: string)
    requires parts != []
    decreases |parts|, 1
  {
    exists k :: 0 <= k <= |s| && Placed(parts, s[k..])
  }

  lemma StarIsAGap(pattern: string, name: string)
    requires pattern != [] && pattern[0] == '*'
    requires forall k :: 0 <= k <= |name| ==> (Placed(Split(pattern[1..]), name[k..]) <==> Matches(pattern[1..], name[k..]))
    ensures Placed(Split(pattern), name) <==> Matches(pattern, name)
  {
    var rest, parts := Split(pattern[1..]), Split(pattern);
    assert parts == [[]] + rest && parts[1..] == rest && |parts| > 1 && name[0..] == name;
    assert Placed(parts, name) <==> Gapped(rest, name);
  }

  lemma OneMoreCharacter(part: string, c: char, name: string)
    requires name != []
    ensures [c] + part <= name <==> name[0] == c && part <= name[1..]
  {
    assert name == [name[0]] + name[1..];
  }

  lemma LonePart(part: string, c: char, name: string)
    ensures Placed([[c] + part], name) <==> name != [] && name[0] == c && Placed([part], name[1..])
  {
    if name != [] { assert name == [name[0]] + name[1..]; }
  }

  lemma FirstOfParts(rest: seq<string>, c: char, name: string)
    requires |rest| >= 2
    ensures Placed([[c] + rest[0]] + rest[1..], name) <==> name != [] && name[0] == c && Placed(rest, name[1..])
  {
    var parts := [[c] + rest[0]] + rest[1..];
    assert parts[1..] == rest[1..] && parts[0] == [c] + rest[0];
    if name != [] {
      OneMoreCharacter(rest[0], c, name);
      if parts[0] <= name { Sliced(name, 1, |rest[0]|); }
    }
  }

  lemma PlainIsACharacter(pattern: string, name: string)
    requires pattern != [] && pattern[0] != '*'
    ensures Placed(Split(pattern), name) <==> name != [] && name[0] == pattern[0] && Placed(Split(pattern[1..]), name[1..])
  {
    var rest, c := Split(pattern[1..]), pattern[0];
    if |rest| == 1 {
      assert rest == [rest[0]] && Split(pattern) == [[c] + rest[0]];
      LonePart(rest[0], c, name);
    } else {
      FirstOfParts(rest, c, name);
    }
  }

  lemma {:induction false} PlacedIsMatches(pattern: string, name: string)
    ensures Placed(Split(pattern), name) <==> Matches(pattern, name)
  {
    if pattern == [] {
    } else if pattern[0] == '*' {
      forall k | 0 <= k <= |name|
        ensures Placed(Split(pattern[1..]), name[k..]) <==> Matches(pattern[1..], name[k..])
      {
        PlacedIsMatches(pattern[1..], name[k..]);
      }
      StarIsAGap(pattern, name);
    } else {
      PlainIsACharacter(pattern, name);
      if name != [] { PlacedIsMatches(pattern[1..], name[1..]); }
    }
  }

  lemma {:induction false} SplitOfPlain(pattern: string)
    requires |Split(pattern)| == 1
    ensures Split(pattern) == [pattern]
  {
    if pattern != [] && pattern[0] != '*' {
      SplitOfPlain(pattern[1..]);
      assert pattern == [pattern[0]] + pattern[1..];
    }
  }

  /** A gap may be longer. */
  lemma GappedEarlier(parts: seq<string>, s: string, i: nat)
    requires parts != [] && i <= |s| && Gapped(parts, s[i..])
    ensures Gapped(parts, s)
  {
    var k :| 0 <= k <= |s[i..]| && Placed(parts, s[i..][k..]);
    assert s[i..][k..] == s[i + k..];
  }

  lemma GapTo(parts: seq<string>, s: string, k: nat)
    requires parts != [] && k <= |s| && Placed(parts, s[k..])
    ensures Gapped(parts, s)
  {
  }

  lemma GapFrom(parts: seq<string>, s: string) returns (k: nat)
    requires parts != [] && Gapped(parts, s)
    ensures k <= |s| && Placed(parts, s[k..])
  {
    k :| 0 <= k <= |s| && Placed(parts, s[k..]);
  }

  /** The part where the rest begins, and the rest after it. */
  lemma PlacedAt(parts: seq<string>, s: string, pos: nat)
    requires |parts| >= 2 && pos <= |s|
    ensures Placed(parts, s[pos..]) <==> At(s, parts[0], pos) && Gapped(parts[1..], s[pos + |parts[0]|..])
  {
    var t, m := s[pos..], |parts[0]|;
    if m <= |t| { assert t[..m] == s[pos..pos + m] && t[m..] == s[pos + m..]; }
    if parts[0] <= t { assert t[..m] == parts[0]; }
  }

  lemma Sliced(s: string, i: nat, j: nat)
    requires i + j <= |s|
    ensures s[i..][j..] == s[i + j..]
  {
  }

  /** A part at some place, and the rest after it, is also at the first place, with a longer gap. */
  lemma SomePlaceIsEnough(parts: seq<string>, s: string, pos: nat, k: nat)
    requires |parts| >= 2 && pos <= k && At(s, parts[0], k) && Gapped(parts[1..], s[k + |parts[0]|..])
    ensures var found := Find(s, parts[0], pos); found.Some? && Gapped(parts[1..], s[found.value + |parts[0]|..])
  {
    FindIsFirst(s, parts[0], pos, k);
    var i, m := Find(s, parts[0], pos).value, |parts[0]|;
    Sliced(s, i + m, k - i);
    GappedEarlier(parts[1..], s[i + m..], k - i);
  }

  lemma LeftmostIsFound(parts: seq<string>, s: string, pos: nat)
    requires |parts| >= 2 && pos <= |s| && Gapped(parts, s[pos..])
    ensures var found := Find(s, parts[0], pos); found.Some? && Gapped(parts[1..], s[found.value + |parts[0]|..])
  {
    var k := GapFrom(parts, s[pos..]);
    Sliced(s, pos, k);
    PlacedAt(parts, s, pos + k);
    SomePlaceIsEnough(parts, s, pos, pos + k);
  }

  lemma LeftmostIsAPlace(parts: seq<string>, s: string, pos: nat)
    requires |parts| >= 2 && pos <= |s| && Find(s, parts[0], pos).Some?
    requires Gapped(parts[1..], s[Find(s, parts[0], pos).value + |parts[0]|..])
    ensures Gapped(parts, s[pos..])
  {
    var i := Find(s, parts[0], pos).value;
    PlacedAt(parts, s, i);
    Sliced(s, pos, i - pos);
    GapTo(parts, s[pos..], i - pos);
  }

  /** Taking the leftmost place of a part never misses a way to place the rest. */
  lemma LeftmostIsEnough(parts: seq<string>, s: string, pos: nat)
    requires |parts| >= 2 && pos <= |s|
    ensures Gapped(parts, s[pos..]) <==>
      Find(s, parts[0], pos).Some? && Gapped(parts[1..], s[Find(s, parts[0], pos).value + |parts[0]|..])
  {
    var found := Find(s, parts[0], pos);
    if Gapped(parts, s[pos..]) { LeftmostIsFound(parts, s, pos); }
    if found.Some? && Gapped(parts[1..], s[found.value + |parts[0]|..]) { LeftmostIsAPlace(parts, s, pos); }
  }

  lemma LastPart(last: string, s: string, pos: nat)
    requires pos <= |s|
    ensures Gapped([last], s[pos..]) <==> EndsWith(s, last) && pos <= |s| - |last|
  {
    if Gapped([last], s[pos..]) {
      var k := GapFrom([last], s[pos..]);
      assert s[pos..][k..] == s[pos + k..];
    }
    if EndsWith(s, last) && pos <= |s| - |last| {
      var k := |s| - |last| - pos;
      assert s[pos..][k..] == s[|s| - |last|..];
      GapTo([last], s[pos..], k);
    }
  }

  lemma EndsThrough(s: string, i: nat, last: string)
    requires i <= |s| && EndsWith(s[i..], last)
    ensures EndsWith(s, last)
  {
    assert s[|s| - |last|..] == s[i..][|s| - i - |last|..];
  }

  lemma {:induction false} EndsWithLast(parts: seq<string>, s: string)
    requires parts != [] && Gapped(parts, s)
    ensures EndsWith(s, parts[|parts| - 1])
    decreases |parts|
  {
    var k := GapFrom(parts, s);
    if |parts| > 1 {
      EndsWithLast(parts[1..], s[k..][|parts[0]|..]);
      EndsThrough(s[k..], |parts[0]|, parts[|parts| - 1]);
    }
    EndsThrough(s, k, parts[|parts| - 1]);
  }

  lemma PlacedEnds(parts: seq<string>, s: string)
    requires |parts| >= 2 && Placed(parts, s)
    ensures parts[0] <= s && EndsWith(s, parts[|parts| - 1])
  {
    EndsWithLast(parts[1..], s[|parts[0]|..]);
    EndsThrough(s, |parts[0]|, parts[|parts| - 1]);
  }

  /** The parts between the first and the last, each as far left as it will go; None when one is not found. */
  method PlaceMiddle(name: string, parts: seq<string>) returns (r: Option<nat>)
    requires |parts| >= 2 && parts[0] <= name
    ensures r.Some? ==> r.value <= |name|
    ensures Gapped(parts[1..], name[|parts[0]|..]) <==> r.Some? && Gapped([parts[|parts| - 1]], name[r.value..])
  {
    var n := |parts| - 1;
    var pos: nat, i := |parts[0]|, 1;
    while i < n
      invariant 1 <= i <= n && pos <= |name|
      invariant Gapped(parts[1..], name[|parts[0]|..]) <==> Gapped(parts[i..], name[pos..])
    {
      LeftmostIsEnough(parts[i..], name, pos);
      assert parts[i..][1..] == parts[i + 1..];
      var found := Find(name, parts[i], pos);
      if found.None? {
        return None;
      }
      pos := found.value + |parts[i]|;
      i := i + 1;
    }
    assert parts[n..] == [parts[n]];
    r := Some(pos);
  }

  /** The stars can be filled in to make the name exactly when the greedy placement succeeds. */
  method GlobMatch(name: string, pattern: string) returns (r: bool)
    ensures r <==> Matches(pattern, name)
  {
    PlacedIsMatches(pattern, name);
    var parts := Split(pattern);
    var n := |parts| - 1;
    if n == 0 {
      SplitOfPlain(pattern);
      return name == pattern;
    }
    var first, last := parts[0], parts[n];
    if Placed(parts, name) { PlacedEnds(parts, name); }
    if !(first <= name) || !EndsWith(name, last) {
      return false;
    }
    var pos := PlaceMiddle(name, parts);
    if pos.None? {
      return false;
    }
    LastPart(last, name, pos.value);
    r := pos.value <= |name| - |last|;
  }
}
