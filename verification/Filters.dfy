/** What it means to filter a list: which places are kept, and what stands there. */
module Filters {

  ghost predicate Increasing(ks: seq<nat>) {
    forall i, j :: 0 <= i < j < |ks| ==> ks[i] < ks[j]
  }

  /** `ks` are the places of `t` that are kept, in order. */
  ghost predicate Kept<A>(t: seq<A>, keep: A -> bool, ks: seq<nat>) {
    && Increasing(ks) && (forall i :: 0 <= i < |ks| ==> ks[i] < |t| && keep(t[ks[i]]))
    && forall k :: 0 <= k < |t| && keep(t[k]) ==> k in ks
  }

  /** `out` is what stands at those places. */
  ghost predicate Stands<A, B>(out: seq<B>, t: seq<A>, of: A -> B, ks: seq<nat>) {
    |out| == |ks| && forall i :: 0 <= i < |ks| ==> ks[i] < |t| && out[i] == of(t[ks[i]])
  }

  /** Everything of `t` that is kept, each place once, in order. */
  ghost predicate IsFilter<A, B>(out: seq<B>, t: seq<A>, keep: A -> bool, of: A -> B) {
    exists ks :: Kept(t, keep, ks) && Stands(out, t, of, ks)
  }

  // ---------- one more place in front ----------

  function Later(ks: seq<nat>): (r: seq<nat>)
    ensures |r| == |ks| && forall i :: 0 <= i < |r| ==> r[i] == ks[i] + 1
  {
    seq(|ks|, i requires 0 <= i < |ks| => ks[i] + 1)
  }

  function Extended(ks: seq<nat>, first: bool): seq<nat> {
    if first then [0] + Later(ks) else Later(ks)
  }

  lemma LaterHas(ks: seq<nat>, k: nat, first: bool)
    requires k in ks
    ensures k + 1 in Extended(ks, first)
  {
    var i :| 0 <= i < |ks| && ks[i] == k;
    assert Later(ks)[i] == k + 1;
    assert Extended(ks, first)[if first then i + 1 else i] == k + 1;
  }

  lemma ExtendedIncreases(ks: seq<nat>, first: bool)
    requires Increasing(ks)
    ensures Increasing(Extended(ks, first)) && (first ==> 0 in Extended(ks, first))
  {
    if first { assert Extended(ks, first)[0] == 0; }
  }

  lemma ExtendedAt<A>(t: seq<A>, ks: seq<nat>, first: bool, j: nat)
    requires t != [] && j < |ks| && ks[j] < |t| - 1
    ensures var i := if first then j + 1 else j;
      i < |Extended(ks, first)| && Extended(ks, first)[i] == ks[j] + 1 && t[ks[j] + 1] == t[1..][ks[j]]
  {
  }

  lemma KeptPlace<A>(t: seq<A>, keep: A -> bool, ks: seq<nat>, i: nat)
    requires t != [] && Kept(t[1..], keep, ks) && i < |Extended(ks, keep(t[0]))|
    ensures Extended(ks, keep(t[0]))[i] < |t| && keep(t[Extended(ks, keep(t[0]))[i]])
  {
    var j := if keep(t[0]) then i - 1 else i;
    if j >= 0 { ExtendedAt(t, ks, keep(t[0]), j); }
  }

  lemma KeptHas<A>(t: seq<A>, keep: A -> bool, ks: seq<nat>, k: nat)
    requires k + 1 < |t| && Kept(t[1..], keep, ks) && keep(t[k + 1])
    ensures k + 1 in Extended(ks, keep(t[0]))
  {
    assert t[1..][k] == t[k + 1];
    LaterHas(ks, k, keep(t[0]));
  }

  lemma KeptNext<A>(t: seq<A>, keep: A -> bool, ks: seq<nat>)
    requires t != [] && Kept(t[1..], keep, ks)
    ensures Kept(t, keep, Extended(ks, keep(t[0])))
  {
    ExtendedIncreases(ks, keep(t[0]));
    forall i: nat | i < |Extended(ks, keep(t[0]))| { KeptPlace(t, keep, ks, i); }
    forall k | 0 <= k < |t| && keep(t[k]) ensures k in Extended(ks, keep(t[0])) { if k > 0 { KeptHas(t, keep, ks, k - 1); } }
  }

  lemma StandsNext<A, B>(out: seq<B>, t: seq<A>, of: A -> B, ks: seq<nat>, first: bool)
    requires t != [] && Stands(out, t[1..], of, ks)
    ensures Stands(if first then [of(t[0])] + out else out, t, of, Extended(ks, first))
  {
    var now := if first then [of(t[0])] + out else out;
    forall i | 0 <= i < |Extended(ks, first)| ensures Extended(ks, first)[i] < |t| && now[i] == of(t[Extended(ks, first)[i]]) {
      var j := if first then i - 1 else i;
      if j >= 0 { ExtendedAt(t, ks, first, j); }
    }
  }

  lemma FilterNone<A, B>(keep: A -> bool, of: A -> B)
    ensures IsFilter([], [], keep, of)
  {
    assert Kept([], keep, []) && Stands([], [], of, []);
  }

  lemma FilterNext<A, B>(out: seq<B>, t: seq<A>, keep: A -> bool, of: A -> B)
    requires t != [] && IsFilter(out, t[1..], keep, of)
    ensures IsFilter(if keep(t[0]) then [of(t[0])] + out else out, t, keep, of)
  {
    var ks :| Kept(t[1..], keep, ks) && Stands(out, t[1..], of, ks);
    KeptNext(t, keep, ks);
    StandsNext(out, t, of, ks, keep(t[0]));
  }

  // ---------- when everything is kept ----------

  lemma {:induction false} PlaceIsItself(ks: seq<nat>, n: nat, i: nat)
    requires Increasing(ks) && i < n && (forall k: nat :: k < n ==> k in ks)
    ensures i < |ks| && ks[i] == i
  {
    assert i in ks;
    var j :| 0 <= j < |ks| && ks[j] == i;
    if j < i {
      PlaceIsItself(ks, n, j);
    } else if i > 0 {
      PlaceIsItself(ks, n, i - 1);
    }
  }

  lemma {:induction false} PlacesGrow(ks: seq<nat>, i: nat)
    requires Increasing(ks) && i < |ks|
    ensures ks[i] >= i
  {
    if i > 0 { PlacesGrow(ks, i - 1); }
  }

  lemma AllPlaces(ks: seq<nat>, n: nat)
    requires Increasing(ks) && (forall k: nat :: k < n ==> k in ks) && forall i :: 0 <= i < |ks| ==> ks[i] < n
    ensures |ks| == n && forall i :: 0 <= i < n ==> ks[i] == i
  {
    forall i: nat | i < n { PlaceIsItself(ks, n, i); }
    if n > 0 { PlaceIsItself(ks, n, n - 1); }
    if ks != [] { PlacesGrow(ks, |ks| - 1); }
  }

  lemma FilterOfAll<A, B>(out: seq<B>, t: seq<A>, keep: A -> bool, of: A -> B)
    requires IsFilter(out, t, keep, of) && forall k :: 0 <= k < |t| ==> keep(t[k])
    ensures |out| == |t| && forall j :: 0 <= j < |t| ==> out[j] == of(t[j])
  {
    var ks :| Kept(t, keep, ks) && Stands(out, t, of, ks);
    forall k: nat | k < |t| ensures k in ks { assert keep(t[k]); }
    AllPlaces(ks, |t|);
    forall j | 0 <= j < |t| ensures out[j] == of(t[j]) { assert ks[j] == j; }
  }
}
