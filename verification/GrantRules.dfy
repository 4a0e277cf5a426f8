/** What each grant operation answers and leaves, told on the rows: who may set, remove and claim, how wrong access codes
    are counted, and which places there are after a rename. */
module GrantRules {
  import opened Options
  import opened Filters
  import opened Grants

  // ---------- who may ----------

  /** A row of the principal's, at a scope or above it, gives this key. */
  ghost predicate Has(rows: Rows, above: set<string>, p: string, key: string) {
    exists k :: k in rows && rows[k].scope in above && rows[k].principal == p && key in rows[k].permissions
  }

  ghost predicate HasCall(rows: Rows, above: set<string>, p: string, c: Call) {
    exists k :: k in rows && rows[k].scope in above && rows[k].principal == p && c in rows[k].calls
  }

  /** A principal may hand on these keys: it has `*`, or every one of them and `*` is not among them. */
  ghost predicate MayHandOn(rows: Rows, above: set<string>, p: string, perms: set<string>) {
    Has(rows, above, p, "*") || ("*" !in perms && forall perm <- perms :: Has(rows, above, p, perm))
  }

  ghost predicate Controls(s: State, p: string) { p in s.controllers && p != "2vxsx-fae" }

  /** Who may act on a target's grant at a scope with these keys. */
  ghost predicate MayActOn(s: State, p: string, scope: string, target: string, perms: set<string>) {
    var above := if ChainOf(s.tree, scope).Some? then ChainOf(s.tree, scope).value else {};
    || Controls(s, p)
    || (p != "2vxsx-fae" && ChainOf(s.tree, scope).Some? && p != target
        && (Has(s.rows, above, p, "grant.assign") || Has(s.rows, above, p, "*"))
        && MayHandOn(s.rows, above, p, perms)
        && (scope + "|" + target in s.rows ==> MayHandOn(s.rows, above, p, s.rows[scope + "|" + target].permissions)))
  }

  lemma HasIsHolding(rows: Rows, above: set<string>, p: string, key: string)
    ensures Has(rows, above, p, key) <==> key in KeysIn(rows, above, {p})
  {
  }

  lemma HasCallIsHolding(rows: Rows, above: set<string>, p: string, c: Call)
    ensures HasCall(rows, above, p, c) <==> c in CallsIn(rows, above, {p})
  {
  }

  lemma HandOnIsCovers(rows: Rows, above: set<string>, p: string, perms: set<string>)
    ensures MayHandOn(rows, above, p, perms) <==> Covers(KeysIn(rows, above, {p}), perms)
  {
    HasIsHolding(rows, above, p, "*");
    forall perm <- perms ensures Has(rows, above, p, perm) <==> perm in KeysIn(rows, above, {p}) { HasIsHolding(rows, above, p, perm); }
  }

  lemma MayActIsChecked(s: State, p: string, scope: string, target: string, perms: set<string>)
    ensures MayActOn(s, p, scope, target, perms) <==> MayAssign(s, p, scope) && CheckDelegation(s, p, scope, target, perms).None?
  {
    if ChainOf(s.tree, scope).Some? {
      var above := ChainOf(s.tree, scope).value;
      HasIsHolding(s.rows, above, p, "grant.assign");
      HasIsHolding(s.rows, above, p, "*");
      HandOnIsCovers(s.rows, above, p, perms);
      if KeyOf(scope, target) in s.rows { HandOnIsCovers(s.rows, above, p, s.rows[KeyOf(scope, target)].permissions); }
    }
  }

  /** A grant is set exactly by who may act on it with those keys, at a scope that exists, for keys that exist and calls
      that they may make themselves. */
  lemma SetIsDoneIff(s: State, p: string, scope: string, target: string, perms: set<string>, calls: set<Call>)
    ensures SetStep(s, p, scope, target, perms, calls).1.Done? <==>
      && MayActOn(s, p, scope, target, perms) && ChainOf(s.tree, scope).Some? && perms <= KEYS + {"*"}
      && (Controls(s, p) || Has(s.rows, ChainOf(s.tree, scope).value, p, "*")
          || forall c <- calls :: HasCall(s.rows, ChainOf(s.tree, scope).value, p, c))
  {
    MayActIsChecked(s, p, scope, target, perms);
    if ChainOf(s.tree, scope).Some? {
      var above := ChainOf(s.tree, scope).value;
      HasIsHolding(s.rows, above, p, "*");
      forall c <- calls ensures HasCall(s.rows, above, p, c) <==> c in CallsIn(s.rows, above, {p}) { HasCallIsHolding(s.rows, above, p, c); }
    }
  }

  lemma RemoveIsDoneIff(s: State, p: string, scope: string, target: string)
    ensures RemoveStep(s, p, scope, target).1.Done? <==> MayActOn(s, p, scope, target, {}) && scope + "|" + target in s.rows
  {
    MayActIsChecked(s, p, scope, target, {});
  }

  // ---------- what they leave ----------

  /** Every key but this one holds what it held. */
  ghost predicate Elsewhere(before: Rows, after: Rows, key: string) {
    forall k :: k != key ==> (k in after <==> k in before) && (k in before ==> after[k] == before[k])
  }

  /** The row under the joined key has exactly the keys and calls given, and no other row changes. */
  lemma SetLeaves(s: State, p: string, scope: string, target: string, perms: set<string>, calls: set<Call>)
    ensures var (t, out) := SetStep(s, p, scope, target, perms, calls); var key := scope + "|" + target;
      && (!out.Done? ==> t == s)
      && (out.Done? ==> t == s.(rows := t.rows) && Elsewhere(s.rows, t.rows, key) && key in t.rows)
      && (out.Done? ==> t.rows[key].permissions == perms && t.rows[key].calls == calls)
      && (out.Done? && key in s.rows ==> t.rows[key].scope == s.rows[key].scope && t.rows[key].principal == s.rows[key].principal)
      && (out.Done? && key !in s.rows ==> t.rows[key].scope == scope && t.rows[key].principal == target)
  {
  }

  /** The row under the joined key is gone, and no other row changes. */
  lemma RemoveLeaves(s: State, p: string, scope: string, target: string)
    ensures var (t, out) := RemoveStep(s, p, scope, target); var key := scope + "|" + target;
      && (!out.Done? ==> t == s)
      && (out.Done? ==> t == s.(rows := t.rows) && Elsewhere(s.rows, t.rows, key) && key !in t.rows)
  {
  }

  /** What a principal has from the rows but one. */
  lemma HasWithout(before: Rows, after: Rows, key: string, above: set<string>, q: string, perm: string)
    requires Elsewhere(before, after, key) && key !in after
    ensures Has(after, above, q, perm) <==>
      exists k :: k in before && k != key && before[k].scope in above && before[k].principal == q && perm in before[k].permissions
  {
  }

  lemma HasCallWithout(before: Rows, after: Rows, key: string, above: set<string>, q: string, c: Call)
    requires Elsewhere(before, after, key) && key !in after
    ensures HasCall(after, above, q, c) <==>
      exists k :: k in before && k != key && before[k].scope in above && before[k].principal == q && c in before[k].calls
  {
  }

  /** After a removal each principal has at each scope exactly what the other rows give it. */
  lemma RemovedKeysAreGone(s: State, p: string, scope: string, target: string, above: set<string>, q: string, perm: string, c: Call)
    requires RemoveStep(s, p, scope, target).1.Done?
    ensures var t := RemoveStep(s, p, scope, target).0; var key := scope + "|" + target;
      && (perm in KeysIn(t.rows, above, {q}) <==>
            exists k :: k in s.rows && k != key && s.rows[k].scope in above && s.rows[k].principal == q && perm in s.rows[k].permissions)
      && (c in CallsIn(t.rows, above, {q}) <==>
            exists k :: k in s.rows && k != key && s.rows[k].scope in above && s.rows[k].principal == q && c in s.rows[k].calls)
  {
    var t, key := RemoveStep(s, p, scope, target).0, scope + "|" + target;
    RemoveLeaves(s, p, scope, target);
    HasWithout(s.rows, t.rows, key, above, q, perm);
    HasIsHolding(t.rows, above, q, perm);
    HasCallWithout(s.rows, t.rows, key, above, q, c);
    HasCallIsHolding(t.rows, above, q, c);
  }

  // ---------- wrong access codes ----------

  /** The wrong codes of a principal that still count: those less than an hour old, in order. */
  ghost predicate StillCount(recent: seq<nat>, times: seq<nat>, now: nat) {
    IsFilter(recent, times, (t: nat) => now - t < 3600, (t: nat) => t)
  }

  lemma {:induction false} RecentStillCount(times: seq<nat>, now: nat)
    ensures StillCount(Recent(times, now), times, now)
  {
    if times == [] {
      FilterNone((t: nat) => now - t < 3600, (t: nat) => t);
    } else {
      RecentStillCount(times[1..], now);
      FilterNext(Recent(times[1..], now), times, (t: nat) => now - t < 3600, (t: nat) => t);
    }
  }

  function Failures(s: State, p: string): seq<nat> {
    if p in s.failures then s.failures[p] else []
  }

  /** A claim is refused for too many wrong codes exactly when five of the claimant's still count. */
  lemma TooManyIff(s: State, p: string, slot: string, order: seq<string>, now: nat) returns (recent: seq<nat>)
    ensures StillCount(recent, Failures(s, p), now)
    ensures ClaimStep(s, p, slot, order, now).1 == Refused(TooMany) <==> p != "2vxsx-fae" && |recent| >= 5
    ensures ClaimStep(s, p, slot, order, now).1 == Refused(BadCode) <==> p != "2vxsx-fae" && |recent| < 5 && order == []
    ensures ClaimStep(s, p, slot, order, now).1.Done? <==> p != "2vxsx-fae" && |recent| < 5 && order != []
    ensures ClaimStep(s, p, slot, order, now).1 == Refused(BadCode) ==> Failures(ClaimStep(s, p, slot, order, now).0, p) == recent + [now]
  {
    recent := FailedBefore(s, p, now);
    RecentStillCount(Failures(s, p), now);
  }

  /** What a claim leaves of the tables: a wrong code is noted for the claimant, others' notes stay unless there are
      too many of them, and a right one forgets the claimant's. */
  lemma ClaimLeaves(s: State, p: string, slot: string, order: seq<string>, now: nat)
    ensures var (t, out) := ClaimStep(s, p, slot, order, now);
      && t == s.(rows := t.rows, failures := t.failures)
      && (out.Refused? ==> t.rows == s.rows && (out.why != BadCode ==> t == s))
      && (out == Refused(BadCode) ==> forall q :: q != p ==> Failures(t, q) == if |s.failures| > 2000 then [] else Failures(s, q))
      && (out.Done? ==> Failures(t, p) == [] && forall q :: q != p ==> Failures(t, q) == Failures(s, q))
  {
  }

  /** The same principal presenting wrong codes at these times. */
  function Wrong(s: State, p: string, slot: string, times: seq<nat>): State
    decreases |times|
  {
    if times == [] then s else Wrong(ClaimStep(s, p, slot, [], times[0]).0, p, slot, times[1..])
  }

  /** Each of them was answered, not refused for too many. */
  ghost predicate AllAnswered(s: State, p: string, slot: string, times: seq<nat>)
    decreases |times|
  {
    times == [] || (ClaimStep(s, p, slot, [], times[0]).1 == Refused(BadCode) && AllAnswered(ClaimStep(s, p, slot, [], times[0]).0, p, slot, times[1..]))
  }

  lemma {:induction false} RecentAppend(a: seq<nat>, b: seq<nat>, now: nat)
    ensures Recent(a + b, now) == Recent(a, now) + Recent(b, now)
  {
    if a == [] {
      assert a + b == b;
    } else {
      assert (a + b)[1..] == a[1..] + b;
      RecentAppend(a[1..], b, now);
    }
  }

  /** Of what counted at `then_`, no less counts later than what counts later of everything. */
  lemma {:induction false} RecentOfRecent(times: seq<nat>, then_: nat, now: nat)
    requires then_ <= now
    ensures Recent(Recent(times, then_), now) == Recent(times, now)
  {
    if times != [] { RecentOfRecent(times[1..], then_, now); }
  }

  lemma OneWrongCode(s: State, p: string, slot: string, time: nat, now: nat)
    requires ClaimStep(s, p, slot, [], time).1 == Refused(BadCode) && time <= now && now - time < CLAIM_WINDOW
    ensures FailedBefore(ClaimStep(s, p, slot, [], time).0, p, now) == FailedBefore(s, p, now) + [time]
  {
    RecentOfRecent(Failures(s, p), time, now);
    RecentAppend(FailedBefore(s, p, time), [time], now);
    assert Recent([time], now) == [time];
  }

  lemma Regroup(a: seq<nat>, b: seq<nat>)
    requires b != []
    ensures a + [b[0]] + b[1..] == a + b
  {
  }

  lemma {:induction false} WrongCodesCount(s: State, p: string, slot: string, times: seq<nat>, now: nat)
    requires AllAnswered(s, p, slot, times) && forall t <- times :: t <= now && now - t < CLAIM_WINDOW
    ensures FailedBefore(Wrong(s, p, slot, times), p, now) == FailedBefore(s, p, now) + times
    decreases |times|
  {
    if times != [] {
      assert times[0] in times && forall t <- times[1..] :: t in times;
      OneWrongCode(s, p, slot, times[0], now);
      WrongCodesCount(ClaimStep(s, p, slot, [], times[0]).0, p, slot, times[1..], now);
      Regroup(FailedBefore(s, p, now), times);
    } else {
      assert FailedBefore(s, p, now) + [] == FailedBefore(s, p, now);
    }
  }

  /** After five wrong codes within an hour the next claim is refused, whatever code it presents. */
  lemma FiveWrongCodes(s: State, p: string, slot: string, times: seq<nat>, right: string, order: seq<string>, now: nat)
    requires |times| == 5 && AllAnswered(s, p, slot, times) && forall t <- times :: t <= now && now - t < 3600
    ensures ClaimStep(Wrong(s, p, slot, times), p, right, order, now) == (Wrong(s, p, slot, times), Refused(TooMany))
  {
    WrongCodesCount(s, p, slot, times, now);
    assert ClaimStep(s, p, slot, [], times[0]).1 == Refused(BadCode);
  }

  // ---------- renames ----------

  /** A rename is refused exactly where the place does not exist or the new name is taken, and then changes nothing. */
  lemma RenameIsDoneIff(s: State, from: Place, name: string, order: seq<string>)
    ensures var (t, out) := RenameStep(s, from, name, order);
      && (out.Done? <==> (match from
            case SectionOf(n) => n in s.tree.sections && name !in s.tree.sections
            case StandOf(n) => n in s.tree.stands && name !in s.tree.stands
            case Orchestra => false))
      && (!out.Done? ==> t == s)
  {
  }

  /** The sections and stands after a rename: the old name is not there, the new one is, a stand's section is the one it
      was or its new name, and nothing else changes. */
  lemma RenameLeaves(s: State, from: Place, name: string, order: seq<string>)
    requires RenameStep(s, from, name, order).1.Done?
    ensures var t := RenameStep(s, from, name, order).0;
      && t == s.(rows := t.rows, tree := t.tree)
      && (match from
          case SectionOf(n) =>
            && t.tree.sections == s.tree.sections - {n} + {name} && t.tree.stands.Keys == s.tree.stands.Keys
            && forall st <- s.tree.stands :: t.tree.stands[st] == if s.tree.stands[st] == n then name else s.tree.stands[st]
          case StandOf(n) =>
            && t.tree.sections == s.tree.sections && t.tree.stands.Keys == s.tree.stands.Keys - {n} + {name}
            && t.tree.stands[name] == s.tree.stands[n] && forall st <- s.tree.stands :: st != n ==> t.tree.stands[st] == s.tree.stands[st]
          case Orchestra => true)
  {
  }
}
