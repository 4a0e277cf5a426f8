/** The conductor's round scheduler (src/rounds.py): one queue, at most one armed timer, at most one
    running round, a watchdog timer per round, and recovery from timers the platform dropped.

    `State` also holds what the platform holds: the clock, the pending timers and the round bodies that
    are still suspended at an await. `Event` lists everything that can happen between two messages, so a
    run of events is any interleaving of calls, timers, resumed rounds, traps and lost timers. */
module Rounds {
  import opened Filters

  const WATCHDOG: nat := 900
  const LOST: nat := 300

  datatype Job = Job(kind: string, name: string)

  /** `id` numbers rounds in the order they start. The scheduler never compares it (it knows a round by
      its job and token); statements use it to say which of two rounds is meant. */
  datatype Round = Round(job: Job, token: nat, id: nat)

  datatype Entry =
    | Scheduled(job: Job)
    | Started(round: Round)
    | Completed(round: Round)
    | Failed(round: Round)
    | Resumed(pending: seq<Job>)

  /** How the body of a round ended: it returned true, returned false, or raised. */
  datatype Outcome = Finished | Unfinished | Raised

  datatype State = State(
    queue: seq<Job>, armed: seq<nat>, running: seq<Round>,
    now: nat, ticks: multiset<nat>, dogs: set<Round>, live: set<Round>, nextId: nat,
    log: seq<Entry>)

  const Init := State([], [], [], 0, multiset{}, {}, {}, 0, [])

  // ---------- the two tests the scheduler makes on its running dict ----------

  predicate Overdue(r: Round, now: nat) { now - r.token > WATCHDOG }

  predicate Owns(r: Round, job: Job, token: nat) { r.job == job && r.token == token }

  function OverdueOf(rs: seq<Round>, now: nat): seq<Round> {
    if rs == [] then []
    else if Overdue(rs[0], now) then [rs[0]] + OverdueOf(rs[1..], now)
    else OverdueOf(rs[1..], now)
  }

  function FreshOf(rs: seq<Round>, now: nat): seq<Round> {
    if rs == [] then []
    else if Overdue(rs[0], now) then FreshOf(rs[1..], now)
    else [rs[0]] + FreshOf(rs[1..], now)
  }

  function OwnersOf(rs: seq<Round>, job: Job, token: nat): seq<Round> {
    if rs == [] then []
    else if Owns(rs[0], job, token) then [rs[0]] + OwnersOf(rs[1..], job, token)
    else OwnersOf(rs[1..], job, token)
  }

  function OthersOf(rs: seq<Round>, job: Job, token: nat): seq<Round> {
    if rs == [] then []
    else if Owns(rs[0], job, token) then OthersOf(rs[1..], job, token)
    else [rs[0]] + OthersOf(rs[1..], job, token)
  }

  function Failures(rs: seq<Round>): seq<Entry> {
    seq(|rs|, i requires 0 <= i < |rs| => Failed(rs[i]))
  }

  // ---------- what each message does ----------

  function KickStep(s: State): State {
    var armed := if s.armed != [] && s.now - s.armed[0] > LOST then [] else s.armed;
    var t := s.(running := FreshOf(s.running, s.now), armed := armed,
                log := s.log + Failures(OverdueOf(s.running, s.now)));
    if t.queue != [] && t.armed == [] && t.running == []
    then t.(armed := [t.now], ticks := t.ticks + multiset{t.now + 1})
    else t
  }

  function ScheduleStep(s: State, job: Job): State {
    KickStep(s.(queue := if job in s.queue then s.queue else s.queue + [job], log := s.log + [Scheduled(job)]))
  }

  function WatchdogStep(s: State, job: Job, token: nat): State {
    var owners := OwnersOf(s.running, job, token);
    if owners == [] then s
    else KickStep(s.(running := OthersOf(s.running, job, token), log := s.log + Failures(owners)))
  }

  /** The part of `tick` before its first await. */
  function TickStep(s: State): State {
    if s.queue == [] || s.running != [] then s.(armed := [])
    else
      var r := Round(s.queue[0], s.now, s.nextId);
      s.(armed := [], queue := s.queue[1..], running := s.running + [r], dogs := s.dogs + {r},
         live := s.live + {r}, nextId := s.nextId + 1, log := s.log + [Started(r)])
  }

  function Requeued(queue: seq<Job>, r: Round, outcome: Outcome): seq<Job> {
    if outcome.Unfinished? && r.job !in queue then queue + [r.job] else queue
  }

  function Noted(r: Round, outcome: Outcome): seq<Entry> {
    match outcome case Finished => [Completed(r)] case Unfinished => [] case Raised => [Failed(r)]
  }

  function Ended(s: State, r: Round, outcome: Outcome): State {
    s.(queue := Requeued(s.queue, r, outcome), log := s.log + Noted(r, outcome),
       running := OthersOf(s.running, r.job, r.token), live := s.live - {r})
  }

  /** The part of `tick` after the round's body came back. */
  function EndStep(s: State, r: Round, outcome: Outcome): State {
    KickStep(Ended(s, r, outcome))
  }

  function ResumeStep(s: State, pending: seq<Job>): State
    decreases |pending|
  {
    if pending == [] then s else ResumeStep(ScheduleStep(s, pending[0]), pending[1..])
  }

  /** An upgrade of the conductor empties its heap and takes its timers and suspended rounds with it. */
  function Reset(s: State, pending: seq<Job>): State {
    Init.(now := s.now, nextId := s.nextId, log := s.log + [Resumed(pending)])
  }

  // ---------- the imperative scheduler ----------

  class Scheduler {
    var queue: seq<Job>
    var armed: seq<nat>
    var running: seq<Round>
    var now: nat
    var ticks: multiset<nat>
    var dogs: set<Round>
    var live: set<Round>
    var nextId: nat
    var log: seq<Entry>

    ghost function View(): State
      reads this
    {
      State(queue, armed, running, now, ticks, dogs, live, nextId, log)
    }

    constructor ()
      ensures View() == Init
    {
      queue, armed, running, now := [], [], [], 0;
      ticks, dogs, live, nextId, log := multiset{}, {}, {}, 0, [];
    }

    method Schedule(job: Job)
      requires UniqueJobs(running)
      modifies this
      ensures View() == ScheduleStep(old(View()), job)
    {
      if job !in queue {
        queue := queue + [job];
      }
      log := log + [Scheduled(job)];
      Kick();
    }

    /** Re-entrant: an overdue round goes to `Watchdog`, which calls back here with a smaller dict. */
    method Kick()
      requires UniqueJobs(running)
      modifies this
      ensures View() == KickStep(old(View()))
      ensures forall r <- running :: !Overdue(r, now)
      ensures armed != [] ==> now - armed[0] <= LOST
      decreases |running|, 2
    {
      FailOverdue();
      KickSettled(View());
      if armed != [] && now - armed[0] > LOST {
        armed := [];
      }
      if queue != [] && armed == [] && running == [] {
        ticks := ticks + multiset{now + 1};
        armed := [now];
      }
    }

    /** Every round on the list that is overdue when its turn comes. */
    method FailOverdue()
      requires UniqueJobs(running)
      modifies this
      ensures KickStep(View()) == KickStep(old(View())) && now == old(now)
      ensures forall r <- running :: !Overdue(r, now)
      decreases |running|, 1
    {
      ghost var before := View();
      var items, i, done := running, 0, false;
      while i < |items|
        invariant 0 <= i <= |items| && now == before.now
        invariant View() == if done then KickStep(before) else before
        invariant !done ==> OverdueOf(items[..i], now) == []
        decreases |items| - i
      {
        if now - items[i].token > WATCHDOG {
          WatchdogOnce(before, i, done);
          Watchdog(items[i].job, items[i].token);
          done := true;
        } else {
          NotOverdueEither(items, i, now);
        }
        i := i + 1;
      }
      assert items[..|items|] == items;
      NothingOverdue(before);
      KickTwice(before);
      NoneOverdue(before.running, before.now);
    }

    /** The watchdog timer of a round, and what `Kick` does to an overdue one. */
    method Watchdog(job: Job, token: nat)
      requires UniqueJobs(running)
      modifies this
      ensures View() == WatchdogStep(old(View()), job, token)
      decreases |running|, 0
    {
      var owners := OwnersOf(running, job, token);
      OwnersAndOthers(running, job, token);
      if owners == [] {
        return;
      }
      running := OthersOf(running, job, token);
      log := log + Failures(owners);
      Kick();
    }

    method Tick()
      modifies this
      ensures View() == TickStep(old(View()))
    {
      armed := [];
      if queue == [] || running != [] {
        return;
      }
      var r := Round(queue[0], now, nextId);
      queue := queue[1..];
      running := running + [r];
      dogs := dogs + {r};
      live, nextId, log := live + {r}, nextId + 1, log + [Started(r)];
    }

    /** What the outcome of a round adds to the queue or the log. */
    method Note(r: Round, outcome: Outcome)
      modifies this`queue, this`log
      ensures queue == Requeued(old(queue), r, outcome)
      ensures log == old(log) + Noted(r, outcome)
    {
      match outcome {
        case Finished => log := log + [Completed(r)];
        case Unfinished => if r.job !in queue { queue := queue + [r.job]; }
        case Raised => log := log + [Failed(r)];
      }
    }

    method End(r: Round, outcome: Outcome)
      requires UniqueJobs(running)
      modifies this
      ensures View() == EndStep(old(View()), r, outcome)
    {
      Note(r, outcome);
      OwnersAndOthers(running, r.job, r.token);
      running := OthersOf(running, r.job, r.token);
      live := live - {r};
      assert View() == Ended(old(View()), r, outcome);
      Kick();
    }

    /** After an upgrade the heap is empty; every job its rows still call for is scheduled again. */
    method Resume(pending: seq<Job>)
      requires UniqueJobs(running)
      modifies this
      ensures View() == ResumeStep(old(View()), pending)
    {
      ghost var before := View();
      for i := 0 to |pending|
        invariant UniqueJobs(running)
        invariant ResumeStep(View(), pending[i..]) == ResumeStep(before, pending)
      {
        FreshIsFresh(running, now);
        Schedule(pending[i]);
        assert pending[i..][1..] == pending[i + 1..];
      }
    }
  }

  ghost predicate UniqueJobs(rs: seq<Round>) {
    rs == [] || ((forall r <- rs[1..] :: r.job != rs[0].job) && UniqueJobs(rs[1..]))
  }

  // ---------- lemmas the imperative form needs ----------

  lemma {:induction false} UniquePairs(rs: seq<Round>, i: nat)
    requires UniqueJobs(rs) && i < |rs|
    ensures forall r <- rs[..i] + rs[i + 1..] :: r.job != rs[i].job
  {
    if i > 0 {
      UniquePairs(rs[1..], i - 1);
      assert rs[1..][i - 1] == rs[i] && rs[i] in rs[1..];
      assert rs[..i] + rs[i + 1..] == [rs[0]] + (rs[1..][..i - 1] + rs[1..][i..]);
    }
  }

  lemma {:induction false} OverdueAppend(a: seq<Round>, b: seq<Round>, now: nat)
    ensures OverdueOf(a + b, now) == OverdueOf(a, now) + OverdueOf(b, now)
  {
    if a == [] {
      assert a + b == b;
    } else {
      assert (a + b)[1..] == a[1..] + b;
      OverdueAppend(a[1..], b, now);
    }
  }

  lemma {:induction false} FreshAppend(a: seq<Round>, b: seq<Round>, now: nat)
    ensures FreshOf(a + b, now) == FreshOf(a, now) + FreshOf(b, now)
  {
    if a == [] {
      assert a + b == b;
    } else {
      assert (a + b)[1..] == a[1..] + b;
      FreshAppend(a[1..], b, now);
    }
  }

  lemma {:induction false} OwnersAppend(a: seq<Round>, b: seq<Round>, job: Job, token: nat)
    ensures OwnersOf(a + b, job, token) == OwnersOf(a, job, token) + OwnersOf(b, job, token)
    ensures OthersOf(a + b, job, token) == OthersOf(a, job, token) + OthersOf(b, job, token)
  {
    if a == [] {
      assert a + b == b;
    } else {
      assert (a + b)[1..] == a[1..] + b;
      OwnersAppend(a[1..], b, job, token);
    }
  }

  lemma {:induction false} FreshIsFresh(rs: seq<Round>, now: nat)
    ensures |FreshOf(rs, now)| <= |rs|
    ensures forall r <- FreshOf(rs, now) :: r in rs && !Overdue(r, now)
    ensures UniqueJobs(rs) ==> UniqueJobs(FreshOf(rs, now))
  {
    if rs != [] {
      FreshIsFresh(rs[1..], now);
      if !Overdue(rs[0], now) {
        assert FreshOf(rs, now)[1..] == FreshOf(rs[1..], now);
      }
    }
  }

  lemma {:induction false} NoneOverdue(rs: seq<Round>, now: nat)
    ensures OverdueOf(rs, now) == [] <==> forall r <- rs :: !Overdue(r, now)
    ensures OverdueOf(rs, now) == [] ==> FreshOf(rs, now) == rs
  {
    if rs != [] {
      NoneOverdue(rs[1..], now);
      assert rs == [rs[0]] + rs[1..];
    }
  }

  lemma {:induction false} OwnersAndOthers(rs: seq<Round>, job: Job, token: nat)
    ensures |OwnersOf(rs, job, token)| + |OthersOf(rs, job, token)| == |rs|
    ensures forall r <- OthersOf(rs, job, token) :: r in rs && !Owns(r, job, token)
    ensures forall r <- OwnersOf(rs, job, token) :: r in rs && Owns(r, job, token)
    ensures UniqueJobs(rs) ==> UniqueJobs(OthersOf(rs, job, token))
  {
    if rs != [] {
      OwnersAndOthers(rs[1..], job, token);
      if !Owns(rs[0], job, token) {
        assert OthersOf(rs, job, token)[1..] == OthersOf(rs[1..], job, token);
      }
    }
  }

  lemma {:induction false} NobodyOwns(rs: seq<Round>, job: Job, token: nat)
    requires forall r <- rs :: !Owns(r, job, token)
    ensures OwnersOf(rs, job, token) == [] && OthersOf(rs, job, token) == rs
  {
    if rs != [] {
      NobodyOwns(rs[1..], job, token);
      assert rs == [rs[0]] + rs[1..];
    }
  }

  /** Taking out the first overdue round leaves the rest of them, in order, for the nested kick. */
  lemma {:induction false} FirstOverdue(rs: seq<Round>, i: nat, now: nat)
    requires UniqueJobs(rs) && i < |rs| && OverdueOf(rs[..i], now) == [] && Overdue(rs[i], now)
    ensures OwnersOf(rs, rs[i].job, rs[i].token) == [rs[i]]
    ensures FreshOf(OthersOf(rs, rs[i].job, rs[i].token), now) == FreshOf(rs, now)
    ensures OverdueOf(rs, now) == [rs[i]] + OverdueOf(OthersOf(rs, rs[i].job, rs[i].token), now)
  {
    var a, x, b := rs[..i], rs[i], rs[i + 1..];
    assert rs == a + ([x] + b);
    assert OwnersOf(rs, x.job, x.token) == [x] && OthersOf(rs, x.job, x.token) == a + b by {
      UniquePairs(rs, i);
      assert forall r <- a :: r in a + b;
      assert forall r <- b :: r in a + b;
      NobodyOwns(a, x.job, x.token);
      NobodyOwns(b, x.job, x.token);
      OwnersAppend(a, [x] + b, x.job, x.token);
      OwnersAppend([x], b, x.job, x.token);
    }
    OverdueAppend(a, [x] + b, now);
    OverdueAppend([x], b, now);
    OverdueAppend(a, b, now);
    FreshAppend(a, [x] + b, now);
    FreshAppend([x], b, now);
    FreshAppend(a, b, now);
    assert FreshOf([x], now) == [] && OverdueOf([x], now) == [x];
  }

  lemma NothingOverdue(s: State)
    ensures OverdueOf(s.running, s.now) == [] ==> FreshOf(s.running, s.now) == s.running
    ensures forall r <- KickStep(s).running :: !Overdue(r, s.now)
  {
    NoneOverdue(s.running, s.now);
    FreshIsFresh(s.running, s.now);
  }

  lemma NotOverdueEither(rs: seq<Round>, i: nat, now: nat)
    requires i < |rs| && !Overdue(rs[i], now)
    ensures OverdueOf(rs[..i + 1], now) == OverdueOf(rs[..i], now)
  {
    assert rs[..i + 1] == rs[..i] + [rs[i]];
    OverdueAppend(rs[..i], [rs[i]], now);
  }

  /** A kick that finds nothing overdue forgets a lost timer and arms one when work waits. */
  lemma KickSettled(s: State)
    requires forall r <- s.running :: !Overdue(r, s.now)
    ensures KickStep(s) == var t := s.(armed := if s.armed != [] && s.now - s.armed[0] > LOST then [] else s.armed);
      if t.queue != [] && t.armed == [] && t.running == []
      then t.(armed := [t.now], ticks := t.ticks + multiset{t.now + 1})
      else t
  {
    NoneOverdue(s.running, s.now);
    assert s.log + Failures([]) == s.log;
  }

  lemma KickTwice(s: State)
    ensures KickStep(KickStep(s)) == KickStep(s)
  {
    FreshIsFresh(s.running, s.now);
    NoneOverdue(FreshOf(s.running, s.now), s.now);
  }

  lemma KickAfterRemoval(s: State, r: Round, rest: seq<Round>)
    requires FreshOf(rest, s.now) == FreshOf(s.running, s.now)
    requires OverdueOf(s.running, s.now) == [r] + OverdueOf(rest, s.now)
    ensures KickStep(s.(running := rest, log := s.log + Failures([r]))) == KickStep(s)
  {
    var late := OverdueOf(rest, s.now);
    assert Failures([r] + late) == Failures([r]) + Failures(late);
    assert s.log + (Failures([r]) + Failures(late)) == s.log + Failures([r]) + Failures(late);
  }

  /** In a kick, the watchdog of the first overdue round does the whole kick; later ones do nothing. */
  lemma WatchdogOnce(s: State, i: nat, done: bool)
    requires UniqueJobs(s.running) && i < |s.running| && Overdue(s.running[i], s.now)
    requires !done ==> OverdueOf(s.running[..i], s.now) == []
    ensures UniqueJobs(KickStep(s).running) && |KickStep(s).running| <= |s.running|
    ensures WatchdogStep(if done then KickStep(s) else s, s.running[i].job, s.running[i].token) == KickStep(s)
  {
    var r := s.running[i];
    FreshIsFresh(s.running, s.now);
    if done {
      NobodyOwns(KickStep(s).running, r.job, r.token);
    } else {
      FirstOverdue(s.running, i, s.now);
      KickAfterRemoval(s, r, OthersOf(s.running, r.job, r.token));
    }
  }

  // ---------- what each message leaves ----------

  lemma {:induction false} FreshIsFilter(rs: seq<Round>, now: nat)
    ensures IsFilter(FreshOf(rs, now), rs, (r: Round) => now - r.token <= 900, (r: Round) => r)
  {
    if rs == [] {
      FilterNone((r: Round) => now - r.token <= 900, (r: Round) => r);
    } else {
      FreshIsFilter(rs[1..], now);
      FilterNext(FreshOf(rs[1..], now), rs, (r: Round) => now - r.token <= 900, (r: Round) => r);
    }
  }

  lemma FailuresNext(r: Round, rs: seq<Round>)
    ensures Failures([]) == [] && Failures([r] + rs) == [Failed(r)] + Failures(rs)
  {
  }

  lemma {:induction false} OverdueIsFilter(rs: seq<Round>, now: nat)
    ensures IsFilter(Failures(OverdueOf(rs, now)), rs, (r: Round) => now - r.token > 900, (r: Round) => Failed(r))
  {
    if rs == [] {
      FilterNone((r: Round) => now - r.token > 900, (r: Round) => Failed(r));
    } else {
      OverdueIsFilter(rs[1..], now);
      FailuresNext(rs[0], OverdueOf(rs[1..], now));
      FilterNext(Failures(OverdueOf(rs[1..], now)), rs, (r: Round) => now - r.token > 900, (r: Round) => Failed(r));
    }
  }

  lemma {:induction false} OthersIsFilter(rs: seq<Round>, job: Job, token: nat)
    ensures IsFilter(OthersOf(rs, job, token), rs, (r: Round) => !(r.job == job && r.token == token), (r: Round) => r)
  {
    if rs == [] {
      FilterNone((r: Round) => !(r.job == job && r.token == token), (r: Round) => r);
    } else {
      OthersIsFilter(rs[1..], job, token);
      FilterNext(OthersOf(rs[1..], job, token), rs, (r: Round) => !(r.job == job && r.token == token), (r: Round) => r);
    }
  }

  lemma {:induction false} OwnersIsFilter(rs: seq<Round>, job: Job, token: nat)
    ensures IsFilter(Failures(OwnersOf(rs, job, token)), rs, (r: Round) => r.job == job && r.token == token, (r: Round) => Failed(r))
  {
    if rs == [] {
      FilterNone((r: Round) => r.job == job && r.token == token, (r: Round) => Failed(r));
    } else {
      OwnersIsFilter(rs[1..], job, token);
      FailuresNext(rs[0], OwnersOf(rs[1..], job, token));
      FilterNext(Failures(OwnersOf(rs[1..], job, token)), rs, (r: Round) => r.job == job && r.token == token, (r: Round) => Failed(r));
    }
  }

  /** A timer that may still run. */
  predicate Pending(s: State) { s.armed != [] && s.now - s.armed[0] <= 300 }

  /** A kick leaves the rounds of the last fifteen minutes running and reports the others failed, in order. A timer that may
      still run stays; otherwise one is armed if work waits and nothing runs, and none if not. Nothing else changes. */
  lemma KickLeaves(s: State) returns (failed: seq<Entry>)
    ensures var t := KickStep(s);
      && t == s.(running := t.running, armed := t.armed, ticks := t.ticks, log := s.log + failed)
      && IsFilter(t.running, s.running, (r: Round) => s.now - r.token <= 900, (r: Round) => r)
      && IsFilter(failed, s.running, (r: Round) => s.now - r.token > 900, (r: Round) => Failed(r))
    ensures var t := KickStep(s);
      if Pending(s) then t.armed == s.armed && t.ticks == s.ticks
      else if s.queue != [] && t.running == [] then t.armed == [s.now] && t.ticks == s.ticks + multiset{s.now + 1}
      else t.armed == [] && t.ticks == s.ticks
  {
    failed := Failures(OverdueOf(s.running, s.now));
    FreshIsFilter(s.running, s.now);
    OverdueIsFilter(s.running, s.now);
  }

  /** Scheduling puts the job at the end of the queue unless it is there, notes it and kicks. */
  lemma ScheduleLeaves(s: State, job: Job) returns (before: State)
    ensures ScheduleStep(s, job) == KickStep(before) && before == s.(queue := before.queue, log := s.log + [Scheduled(job)])
    ensures job in s.queue ==> before.queue == s.queue
    ensures job !in s.queue ==> before.queue == s.queue + [job]
  {
    before := s.(queue := if job in s.queue then s.queue else s.queue + [job], log := s.log + [Scheduled(job)]);
  }

  /** The job at the head of the queue starts, with its watchdog, unless there is none or a round runs; the timer is gone. */
  lemma TickLeaves(s: State)
    ensures var t, r := TickStep(s), if s.queue == [] then Round(Job("", ""), s.now, s.nextId) else Round(s.queue[0], s.now, s.nextId);
      && t.armed == [] && t.now == s.now && t.ticks == s.ticks
      && (s.queue == [] || s.running != [] ==> t == s.(armed := []))
      && (s.queue != [] && s.running == [] ==> [s.queue[0]] + t.queue == s.queue && t.running == [r] && t.nextId == s.nextId + 1)
      && (s.queue != [] && s.running == [] ==> t.dogs == s.dogs + {r} && t.live == s.live + {r} && t.log == s.log + [Started(r)])
  {
  }

  /** A watchdog whose entry is gone does nothing; otherwise it reports its entry failed, takes it out and kicks. */
  lemma WatchdogLeaves(s: State, job: Job, token: nat) returns (running: seq<Round>, failed: seq<Entry>)
    ensures IsFilter(running, s.running, (r: Round) => !(r.job == job && r.token == token), (r: Round) => r)
    ensures IsFilter(failed, s.running, (r: Round) => r.job == job && r.token == token, (r: Round) => Failed(r))
    ensures WatchdogStep(s, job, token) == if failed == [] then s else KickStep(s.(running := running, log := s.log + failed))
  {
    running, failed := OthersOf(s.running, job, token), Failures(OwnersOf(s.running, job, token));
    OthersIsFilter(s.running, job, token);
    OwnersIsFilter(s.running, job, token);
  }

  /** A round that comes back takes out the entry of its job and token. One that is not finished queues its job again, if it
      is not queued; one that is, or that raised, is reported so and queues nothing. */
  lemma EndLeaves(s: State, r: Round, outcome: Outcome) returns (before: State)
    ensures EndStep(s, r, outcome) == KickStep(before)
    ensures before == s.(queue := before.queue, log := before.log, running := before.running, live := before.live)
    ensures IsFilter(before.running, s.running, (x: Round) => !(x.job == r.job && x.token == r.token), (x: Round) => x)
    ensures before.live == s.live - {r}
    ensures outcome.Unfinished? && r.job !in s.queue ==> before.queue == s.queue + [r.job]
    ensures !(outcome.Unfinished? && r.job !in s.queue) ==> before.queue == s.queue
    ensures outcome.Finished? ==> before.log == s.log + [Completed(r)]
    ensures outcome.Raised? ==> before.log == s.log + [Failed(r)]
    ensures outcome.Unfinished? ==> before.log == s.log
  {
    before := Ended(s, r, outcome);
    OthersIsFilter(s.running, r.job, r.token);
  }
}
