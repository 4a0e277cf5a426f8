/** Whole runs of the round scheduler: every interleaving of update calls, timers, resumed rounds, traps, dropped
    timers and upgrades keeps its invariant, loses no job and never lets a stale round harm its successor. */
module RoundRuns {
  import opened Rounds

  datatype Event =
    | Pass(secs: nat)                        // the clock moves
    | Call(job: Job)                         // an update call that schedules a job
    | AnyCall                                // any other update call
    | TickFires(due: nat)                    // a pending timer runs `tick` up to its first await
    | TickLost(due: nat)                     // dropped, or `tick` trapped before that await committed
    | Returns(round: Round, outcome: Outcome)  // the body of a round comes back
    | Traps(round: Round)                    // the round dies; what it did since its last await is undone
    | WatchdogFires(round: Round)
    | WatchdogLost(round: Round)
    | Upgraded(pending: seq<Job>)            // the heap is reset, and the jobs that rows still call for resume

  predicate Enabled(s: State, e: Event) {
    match e
    case Pass(_) => true
    case Call(_) => true
    case AnyCall => true
    case TickFires(due) => due in s.ticks && due <= s.now
    case TickLost(due) => due in s.ticks
    case Returns(r, _) => r in s.live
    case Traps(r) => r in s.live
    case WatchdogFires(r) => r in s.dogs && r.token + WATCHDOG <= s.now
    case WatchdogLost(r) => r in s.dogs
    case Upgraded(_) => true
  }

  function Apply(s: State, e: Event): State {
    match e
    case Pass(secs) => s.(now := s.now + secs)
    case Call(job) => ScheduleStep(s, job)
    case AnyCall => KickStep(s)
    case TickFires(due) => TickStep(s.(ticks := s.ticks - multiset{due}))
    case TickLost(due) => s.(ticks := s.ticks - multiset{due})
    case Returns(r, outcome) => EndStep(s, r, outcome)
    case Traps(r) => s.(live := s.live - {r})
    case WatchdogFires(r) => WatchdogStep(s.(dogs := s.dogs - {r}), r.job, r.token)
    case WatchdogLost(r) => s.(dogs := s.dogs - {r})
    case Upgraded(pending) => ResumeStep(Reset(s, pending), pending)
  }

  ghost predicate Valid(s: State, es: seq<Event>)
    decreases |es|
  {
    es == [] || (Enabled(s, es[0]) && Valid(Apply(s, es[0]), es[1..]))
  }

  function After(s: State, es: seq<Event>): State
    decreases |es|
  {
    if es == [] then s else After(Apply(s, es[0]), es[1..])
  }

  ghost predicate Reachable(s: State) {
    exists es :: Valid(Init, es) && After(Init, es) == s
  }

  // ---------- the invariant ----------

  ghost predicate Distinct(q: seq<Job>) {
    forall i, j :: 0 <= i < j < |q| ==> q[i] != q[j]
  }

  /** What holds even between a change and the kick that follows it. */
  ghost predicate Shape(s: State) {
    && Distinct(s.queue)
    && |s.armed| <= 1 && |s.running| <= 1 && (s.armed == [] || s.running == [])
    && (forall t <- s.armed :: t <= s.now)
    && (forall r <- s.live + s.dogs :: r.token <= s.now && r.id < s.nextId)
    && (forall r <- s.running :: r.token <= s.now && r.id < s.nextId)
  }

  /** A round that no longer owns the running entry lost it to its watchdog, and whatever owns the entry
      now started later than that. */
  ghost predicate Stale(s: State) {
    && (forall r <- s.live :: r in s.running || r.token + WATCHDOG <= s.now)
    && (forall r <- s.live, x <- s.running :: r != x ==> r.token + WATCHDOG <= x.token)
  }

  ghost predicate Settled(log: seq<Entry>, k: int, r: Round)
    requires -1 <= k
  {
    exists m :: k < m < |log| && (log[m] == Completed(r) || log[m] == Failed(r))
  }

  ghost predicate Served(s: State, i: nat, k: int)
    requires i < |s.log| && s.log[i].Scheduled?
  {
    && i < k < |s.log| && s.log[k].Started? && s.log[k].round.job == s.log[i].job
    && (s.log[k].round in s.running || Settled(s.log, k, s.log[k].round))
  }

  /** At an upgrade after it was scheduled, no row called for the job any more. */
  ghost predicate NotCalledFor(s: State, i: nat, k: int)
    requires i < |s.log| && s.log[i].Scheduled?
  {
    i < k < |s.log| && s.log[k].Resumed? && s.log[i].job !in s.log[k].pending
  }

  /** A scheduled job is still queued, or a round started for it afterwards that is still running, or that completed or
      was reported as failed; or an upgrade found no row that called for it. */
  ghost predicate Accounted(s: State, i: nat)
    requires i < |s.log|
  {
    s.log[i].Scheduled? ==> s.log[i].job in s.queue || (exists k :: Served(s, i, k)) || exists k :: NotCalledFor(s, i, k)
  }

  ghost predicate NothingLost(s: State) {
    forall i :: 0 <= i < |s.log| ==> Accounted(s, i)
  }

  ghost predicate Inv(s: State) {
    && Shape(s) && Stale(s) && NothingLost(s)
    && (s.queue != [] ==> s.armed != [] || s.running != [])
  }

  // ---------- one step ----------

  lemma OneRunning(rs: seq<Round>, now: nat, job: Job, token: nat)
    requires |rs| <= 1
    ensures OverdueOf(rs, now) == if rs != [] && Overdue(rs[0], now) then rs else []
    ensures FreshOf(rs, now) == if rs != [] && Overdue(rs[0], now) then [] else rs
    ensures OwnersOf(rs, job, token) == if rs != [] && Owns(rs[0], job, token) then rs else []
    ensures OthersOf(rs, job, token) == if rs != [] && Owns(rs[0], job, token) then [] else rs
  {
    if rs != [] {
      assert rs == [rs[0]] && rs[1..] == [];
    }
  }

  ghost predicate StartedSince(s: State, t: State, j: Job) {
    exists k :: |s.log| <= k < |t.log| && t.log[k].Started? && t.log[k].round.job == j && t.log[k].round in t.running
  }

  lemma ServedStill(s: State, t: State, i: nat, k: int)
    requires |s.log| <= |t.log| && t.log[..|s.log|] == s.log && i < |s.log| && s.log[i].Scheduled? && t.log[i] == s.log[i] && Served(s, i, k)
    requires forall x <- s.running :: x in t.running || x.job in t.queue || Settled(t.log, |s.log| - 1, x)
    ensures t.log[i].job in t.queue || Served(t, i, k)
  {
    assert t.log[k] == s.log[k];
    if s.log[k].round !in s.running {
      var m :| k < m < |s.log| && (s.log[m] == Completed(s.log[k].round) || s.log[m] == Failed(s.log[k].round));
      assert t.log[m] == s.log[m];
    }
  }

  /** Nothing is lost in a change that only appends to the log, if a job leaves the queue only to start and
      a round leaves `running` only when it is settled or its job queued again. */
  lemma Carry(s: State, t: State)
    requires NothingLost(s) && |s.log| <= |t.log| && t.log[..|s.log|] == s.log
    requires forall i :: |s.log| <= i < |t.log| && t.log[i].Scheduled? ==> t.log[i].job in t.queue
    requires forall j <- s.queue :: j in t.queue || StartedSince(s, t, j)
    requires forall x <- s.running :: x in t.running || x.job in t.queue || Settled(t.log, |s.log| - 1, x)
    ensures NothingLost(t)
  {
    forall i | 0 <= i < |t.log| && t.log[i].Scheduled? && t.log[i].job !in t.queue
      ensures Accounted(t, i)
    {
      assert i < |s.log| && s.log[i] == t.log[i] && Accounted(s, i);
      if t.log[i].job in s.queue {
        var k :| |s.log| <= k < |t.log| && t.log[k].Started? && t.log[k].round.job == t.log[i].job && t.log[k].round in t.running;
        assert Served(t, i, k);
      } else if k :| Served(s, i, k) {
        ServedStill(s, t, i, k);
      } else {
        var k :| NotCalledFor(s, i, k);
        assert t.log[k] == s.log[k];
        assert NotCalledFor(t, i, k);
      }
    }
  }

  lemma KickKeeps(s: State)
    requires Shape(s) && Stale(s) && NothingLost(s)
    ensures Inv(KickStep(s))
  {
    var t := KickStep(s);
    OneRunning(s.running, s.now, Job("", ""), 0);
    if s.running != [] && Overdue(s.running[0], s.now) {
      assert Failures(s.running) == [Failed(s.running[0])];
      assert t.log[|s.log|] == Failed(s.running[0]);
    } else {
      assert Failures([]) == [];
      assert t.log == s.log;
    }
    Carry(s, t);
  }

  lemma CallKeeps(s: State, job: Job)
    requires Inv(s)
    ensures Inv(ScheduleStep(s, job))
  {
    var t := s.(queue := if job in s.queue then s.queue else s.queue + [job], log := s.log + [Scheduled(job)]);
    assert job in t.queue;
    Carry(s, t);
    KickKeeps(t);
  }

  lemma TickKeeps(s: State)
    requires Inv(s)
    ensures Inv(TickStep(s))
  {
    var t := TickStep(s);
    if s.queue != [] && s.running == [] {
      var r := Round(s.queue[0], s.now, s.nextId);
      assert t.log[|s.log|] == Started(r) && r in t.running;
      assert forall j <- s.queue :: j == r.job || j in t.queue;
      Carry(s, t);
    } else {
      Carry(s, t);
    }
  }

  /** A round that comes back and clears an entry clears its own. */
  lemma EndedIsOwn(s: State, r: Round)
    requires Shape(s) && Stale(s) && r in s.live
    ensures OthersOf(s.running, r.job, r.token) == if r in s.running then [] else s.running
    ensures forall x <- s.running :: x == r || x in OthersOf(s.running, r.job, r.token)
  {
    OneRunning(s.running, 0, r.job, r.token);
  }

  lemma EndedShape(s: State, r: Round, outcome: Outcome)
    requires Shape(s) && Stale(s) && r in s.live
    ensures Shape(Ended(s, r, outcome)) && Stale(Ended(s, r, outcome))
  {
    EndedIsOwn(s, r);
  }

  lemma ReturnKeeps(s: State, r: Round, outcome: Outcome)
    requires Inv(s) && r in s.live
    ensures Inv(EndStep(s, r, outcome))
  {
    var t := Ended(s, r, outcome);
    EndedIsOwn(s, r);
    EndedShape(s, r, outcome);
    if Noted(r, outcome) != [] { assert t.log[|s.log|] == Noted(r, outcome)[0]; }
    Carry(s, t);
    KickKeeps(t);
  }

  lemma WatchdogKeeps(s: State, r: Round)
    requires Inv(s) && r.token + WATCHDOG <= s.now
    ensures Inv(WatchdogStep(s, r.job, r.token))
  {
    OneRunning(s.running, 0, r.job, r.token);
    var owners := OwnersOf(s.running, r.job, r.token);
    if owners != [] {
      var t := s.(running := [], log := s.log + Failures(owners));
      assert Failures(owners) == [Failed(s.running[0])];
      assert t.log[|s.log|] == Failed(s.running[0]);
      Carry(s, t);
      KickKeeps(t);
    }
  }

  /** Time passes, and timers and suspended rounds go. */
  lemma QuietKeeps(s: State, t: State)
    requires Inv(s) && t == s.(now := t.now, ticks := t.ticks, dogs := t.dogs, live := t.live)
    requires s.now <= t.now && t.dogs <= s.dogs && t.live <= s.live
    ensures Inv(t)
  {
    Carry(s, t);
  }

  // ---------- an upgrade ----------

  /** Idle but for its queue. */
  ghost predicate Idle(s: State) {
    && Distinct(s.queue) && s.running == [] && s.live == {} && s.dogs == {}
    && s.armed == if s.queue == [] then [] else [s.now]
  }

  lemma ScheduleIdle(s: State, job: Job)
    requires Idle(s)
    ensures var t := ScheduleStep(s, job);
      && Idle(t) && t.now == s.now && t.nextId == s.nextId && t.log == s.log + [Scheduled(job)]
      && (forall j :: j in t.queue <==> j == job || j in s.queue)
  {
    assert FreshOf([], s.now) == [] && OverdueOf([], s.now) == [];
    assert s.log + [Scheduled(job)] + Failures([]) == s.log + [Scheduled(job)];
  }

  lemma ScheduleQueues(s: State, job: Job)
    ensures job !in s.queue ==> ScheduleStep(s, job).queue == s.queue + [job]
  {
  }

  lemma TailIsNew(q: seq<Job>, pending: seq<Job>)
    requires pending != [] && Distinct(pending) && forall j <- pending :: j !in q
    ensures pending[0] !in q && Distinct(pending[1..]) && forall j <- pending[1..] :: j !in q + [pending[0]]
    ensures q + [pending[0]] + pending[1..] == q + pending
  {
  }

  /** Jobs that are not queued yet are queued in their order. */
  lemma {:induction false} ResumeKeepsOrder(s: State, pending: seq<Job>)
    requires Distinct(pending) && forall j <- pending :: j !in s.queue
    ensures ResumeStep(s, pending).queue == s.queue + pending
    decreases |pending|
  {
    if pending != [] {
      TailIsNew(s.queue, pending);
      ScheduleQueues(s, pending[0]);
      ResumeKeepsOrder(ScheduleStep(s, pending[0]), pending[1..]);
    }
  }

  /** They are queued in the order in which the steps name them. */
  lemma UpgradeKeepsOrder(s: State, pending: seq<Job>)
    requires Distinct(pending)
    ensures Apply(s, Upgraded(pending)).queue == pending
  {
    ResumeKeepsOrder(Reset(s, pending), pending);
  }

  lemma {:induction false} ResumeIdle(s: State, pending: seq<Job>)
    requires Idle(s)
    ensures var t := ResumeStep(s, pending);
      && Idle(t) && t.now == s.now && t.nextId == s.nextId && s.log <= t.log
      && (forall j :: j in t.queue <==> j in s.queue || j in pending)
      && (forall i :: |s.log| <= i < |t.log| ==> t.log[i].Scheduled? && t.log[i].job in t.queue)
    decreases |pending|
  {
    if pending != [] {
      var next := ScheduleStep(s, pending[0]);
      ScheduleIdle(s, pending[0]);
      ResumeIdle(next, pending[1..]);
      assert forall j :: j in pending <==> j == pending[0] || j in pending[1..];
      assert next.log[|s.log|] == Scheduled(pending[0]);
    }
  }

  /** An upgrade leaves exactly the jobs that rows still call for, queued, with a timer armed for them. */
  lemma UpgradeResumes(s: State, pending: seq<Job>)
    ensures var t := Apply(s, Upgraded(pending));
      && (forall j :: j in t.queue <==> j in pending) && Distinct(t.queue)
      && t.running == [] && t.armed == if pending == [] then [] else [s.now]
  {
    ResumeIdle(Reset(s, pending), pending);
    var t := Apply(s, Upgraded(pending));
    if pending != [] { assert pending[0] in t.queue; }
    if t.queue != [] { assert t.queue[0] in pending; }
  }

  lemma UpgradeLosesNothing(s: State, pending: seq<Job>)
    ensures NothingLost(Apply(s, Upgraded(pending)))
  {
    var u, t := Reset(s, pending), Apply(s, Upgraded(pending));
    ResumeIdle(u, pending);
    forall i | 0 <= i < |t.log| && t.log[i].Scheduled? && t.log[i].job !in t.queue ensures Accounted(t, i) {
      assert i < |s.log| && t.log[|s.log|] == u.log[|s.log|] == Resumed(pending);
      assert NotCalledFor(t, i, |s.log|);
    }
  }

  lemma IdleKeeps(s: State)
    requires Idle(s) && NothingLost(s)
    ensures Inv(s)
  {
  }

  lemma UpgradeKeeps(s: State, pending: seq<Job>)
    ensures Inv(Apply(s, Upgraded(pending)))
  {
    ResumeIdle(Reset(s, pending), pending);
    UpgradeLosesNothing(s, pending);
    IdleKeeps(Apply(s, Upgraded(pending)));
  }

  lemma StepKeepsInv(s: State, e: Event)
    requires Inv(s) && Enabled(s, e)
    ensures Inv(Apply(s, e))
  {
    match e
    case Pass(secs) => QuietKeeps(s, s.(now := s.now + secs));
    case Call(job) => CallKeeps(s, job);
    case AnyCall => KickKeeps(s);
    case TickFires(due) =>
      QuietKeeps(s, s.(ticks := s.ticks - multiset{due}));
      TickKeeps(s.(ticks := s.ticks - multiset{due}));
    case TickLost(due) => QuietKeeps(s, s.(ticks := s.ticks - multiset{due}));
    case Returns(r, outcome) => ReturnKeeps(s, r, outcome);
    case Traps(r) => QuietKeeps(s, s.(live := s.live - {r}));
    case WatchdogFires(r) =>
      QuietKeeps(s, s.(dogs := s.dogs - {r}));
      WatchdogKeeps(s.(dogs := s.dogs - {r}), r);
    case WatchdogLost(r) => QuietKeeps(s, s.(dogs := s.dogs - {r}));
    case Upgraded(pending) => UpgradeKeeps(s, pending);
  }

  lemma {:induction false} ResumeGrows(s: State, pending: seq<Job>)
    ensures s.log <= ResumeStep(s, pending).log
    decreases |pending|
  {
    if pending != [] { ResumeGrows(ScheduleStep(s, pending[0]), pending[1..]); }
  }

  /** Nothing that was noted is ever taken back; an upgrade notes which jobs the rows called for. */
  lemma LogGrows(s: State, e: Event)
    ensures s.log <= Apply(s, e).log
    ensures e.Upgraded? ==> s.log + [Resumed(e.pending)] <= Apply(s, e).log
  {
    if e.Upgraded? { ResumeGrows(Reset(s, e.pending), e.pending); }
  }

  /** Over any run, then, what was scheduled stays accounted for. */
  lemma {:induction false} RunsGrowLog(s: State, es: seq<Event>)
    ensures s.log <= After(s, es).log
    decreases |es|
  {
    if es != [] {
      LogGrows(s, es[0]);
      RunsGrowLog(Apply(s, es[0]), es[1..]);
    }
  }

  // ---------- the main results ----------

  /** Every run keeps the invariant. */
  lemma {:induction false} RunsKeepInv(s: State, es: seq<Event>)
    requires Inv(s) && Valid(s, es)
    ensures Inv(After(s, es))
    decreases |es|
  {
    if es != [] {
      StepKeepsInv(s, es[0]);
      RunsKeepInv(Apply(s, es[0]), es[1..]);
    }
  }

  lemma ReachableInv(s: State)
    requires Reachable(s)
    ensures Inv(s)
  {
    var es :| Valid(Init, es) && After(Init, es) == s;
    RunsKeepInv(Init, es);
  }

  /** The queue has no duplicates, at most one timer is armed and at most one round runs, never both, and
      queued work is never left without either. */
  lemma SchedulerSafety(s: State)
    requires Reachable(s)
    ensures Distinct(s.queue) && |s.armed| <= 1 && |s.running| <= 1
    ensures s.armed == [] || s.running == []
    ensures s.queue != [] ==> s.armed != [] || s.running != []
  {
    ReachableInv(s);
  }

  /** Every job ever scheduled is queued, running, completed or reported as failed, whatever was upgraded since, unless
      at an upgrade no row called for it any more. */
  lemma NoWorkLost(s: State, i: nat)
    requires Reachable(s) && i < |s.log| && s.log[i].Scheduled?
    requires forall k :: i < k < |s.log| && s.log[k].Resumed? ==> s.log[i].job in s.log[k].pending
    ensures s.log[i].job in s.queue || exists k :: Served(s, i, k)
  {
    ReachableInv(s);
    assert Accounted(s, i);
    if k :| NotCalledFor(s, i, k) { assert false; }
  }

  /** When a round comes back, the entry its job and token find is its own or none: a round that outlived
      its watchdog never clears the entry of a later round of the same job. */
  lemma StaleRoundIsHarmless(s: State, r: Round)
    requires Reachable(s) && r in s.live
    ensures OwnersOf(s.running, r.job, r.token) == if r in s.running then [r] else []
    ensures r !in s.running ==> OthersOf(s.running, r.job, r.token) == s.running
  {
    ReachableInv(s);
    OneRunning(s.running, 0, r.job, r.token);
  }

  // ---------- whose round a watchdog fails ----------

  /** What is running was started last, and every watchdog was set for a round that started. */
  ghost predicate Launched(s: State) {
    && (forall r <- s.running :: Started(r) in s.log && r.id + 1 == s.nextId)
    && (forall r <- s.dogs :: Started(r) in s.log)
    && (forall e <- s.log :: e.Started? ==> e.round.id < s.nextId)
  }

  lemma KickKeepsLaunched(s: State)
    requires Launched(s) && |s.running| <= 1
    ensures Launched(KickStep(s))
  {
    OneRunning(s.running, s.now, Job("", ""), 0);
  }

  lemma LeavingKeepsLaunched(s: State, t: State, more: seq<Entry>, job: Job, token: nat)
    requires Launched(s) && |s.running| <= 1 && t.running == OthersOf(s.running, job, token) && t.dogs <= s.dogs && t.nextId == s.nextId
    requires t.log == s.log + more && forall e <- more :: !e.Started?
    ensures Launched(t) && |t.running| <= 1
  {
    OneRunning(s.running, 0, job, token);
  }

  lemma CallKeepsLaunched(s: State, job: Job)
    requires Launched(s) && |s.running| <= 1
    ensures Launched(ScheduleStep(s, job))
  {
    KickKeepsLaunched(s.(queue := if job in s.queue then s.queue else s.queue + [job], log := s.log + [Scheduled(job)]));
  }

  lemma ReturnKeepsLaunched(s: State, r: Round, outcome: Outcome)
    requires Launched(s) && |s.running| <= 1
    ensures Launched(EndStep(s, r, outcome))
  {
    LeavingKeepsLaunched(s, Ended(s, r, outcome), Noted(r, outcome), r.job, r.token);
    KickKeepsLaunched(Ended(s, r, outcome));
  }

  lemma WatchdogKeepsLaunched(s: State, r: Round)
    requires Launched(s) && |s.running| <= 1
    ensures Launched(WatchdogStep(s, r.job, r.token))
  {
    var owners := OwnersOf(s.running, r.job, r.token);
    var t := s.(running := OthersOf(s.running, r.job, r.token), log := s.log + Failures(owners));
    LeavingKeepsLaunched(s, t, Failures(owners), r.job, r.token);
    KickKeepsLaunched(t);
  }

  lemma TickKeepsLaunched(s: State)
    requires Launched(s)
    ensures Launched(TickStep(s))
  {
  }

  lemma SameStarts(a: seq<Entry>, b: seq<Entry>, e: Entry)
    requires a <= b && (forall i :: |a| <= i < |b| ==> !b[i].Started?) && e in b && e.Started?
    ensures e in a
  {
    var i :| 0 <= i < |b| && b[i] == e;
    assert a[i] == b[i];
  }

  lemma UpgradeStartsNothing(s: State, pending: seq<Job>, e: Entry)
    requires e in Apply(s, Upgraded(pending)).log && e.Started?
    ensures e in s.log
  {
    ResumeIdle(Reset(s, pending), pending);
    SameStarts(Reset(s, pending).log, Apply(s, Upgraded(pending)).log, e);
  }

  lemma UpgradeKeepsLaunched(s: State, pending: seq<Job>)
    requires Launched(s)
    ensures Launched(Apply(s, Upgraded(pending)))
  {
    var t := Apply(s, Upgraded(pending));
    ResumeIdle(Reset(s, pending), pending);
    forall e <- t.log | e.Started? ensures e in s.log { UpgradeStartsNothing(s, pending, e); }
  }

  lemma StepKeepsLaunched(s: State, e: Event)
    requires Inv(s) && Launched(s) && Enabled(s, e)
    ensures Launched(Apply(s, e))
  {
    match e
    case Call(job) => CallKeepsLaunched(s, job);
    case AnyCall => KickKeepsLaunched(s);
    case TickFires(due) => TickKeepsLaunched(s.(ticks := s.ticks - multiset{due}));
    case Returns(r, outcome) => ReturnKeepsLaunched(s, r, outcome);
    case WatchdogFires(r) => WatchdogKeepsLaunched(s.(dogs := s.dogs - {r}), r);
    case Upgraded(pending) => UpgradeKeepsLaunched(s, pending);
    case _ =>
  }

  lemma {:induction false} RunsKeepLaunched(s: State, es: seq<Event>)
    requires Inv(s) && Launched(s) && Valid(s, es)
    ensures Launched(After(s, es))
    decreases |es|
  {
    if es != [] {
      StepKeepsLaunched(s, es[0]);
      StepKeepsInv(s, es[0]);
      RunsKeepLaunched(Apply(s, es[0]), es[1..]);
    }
  }

  /** The job and the second a round was started in are all that its watchdog knows of it: when the watchdog fails a
      round, it is its own if and only if no round of that job was started after it in the same second. */
  lemma WatchdogFailsItsOwnIff(s: State, r: Round)
    requires Reachable(s) && r in s.dogs && OwnersOf(s.running, r.job, r.token) != []
    ensures OwnersOf(s.running, r.job, r.token) == [r] <==>
      forall e <- s.log :: e.Started? && e.round.job == r.job && e.round.token == r.token ==> e.round.id <= r.id
  {
    var es :| Valid(Init, es) && After(Init, es) == s;
    RunsKeepLaunched(Init, es);
    ReachableInv(s);
    OneRunning(s.running, 0, r.job, r.token);
    var x := s.running[0];
    assert Owns(x, r.job, r.token) && Started(x) in s.log && Started(r) in s.log;
  }

  /** A job that is started twice in one second, the second time by a timer that was presumed lost. */
  function TwiceInASecond(j: Job): seq<Event> {
    [Call(j), Pass(301), AnyCall, Pass(1), TickFires(1), Returns(Round(j, 302, 0), Unfinished), TickFires(302), Pass(WATCHDOG)]
  }

  function QueuedAt(j: Job, armed: nat, now: nat, ticks: multiset<nat>): State {
    State([j], [armed], [], now, ticks, {}, {}, 0, [Scheduled(j)])
  }

  function FirstRuns(j: Job): State {
    var r := Round(j, 302, 0);
    State([], [], [r], 302, multiset{302}, {r}, {r}, 1, [Scheduled(j), Started(r)])
  }

  function Between(j: Job): State {
    var r := Round(j, 302, 0);
    State([j], [302], [], 302, multiset{302, 303}, {r}, {}, 1, [Scheduled(j), Started(r)])
  }

  function SecondRuns(j: Job): State {
    var r, x := Round(j, 302, 0), Round(j, 302, 1);
    State([], [], [x], 302, multiset{303}, {r, x}, {x}, 2, [Scheduled(j), Started(r), Started(x)])
  }

  lemma FirstIsQueued(j: Job)
    ensures Apply(Init, Call(j)) == QueuedAt(j, 0, 0, multiset{1})
    ensures Apply(QueuedAt(j, 0, 301, multiset{1}), AnyCall) == QueuedAt(j, 301, 301, multiset{1, 302})
  {
  }

  lemma FirstStarts(j: Job)
    ensures Apply(QueuedAt(j, 301, 302, multiset{1, 302}), TickFires(1)) == FirstRuns(j)
  {
    assert multiset{1, 302} - multiset{1} == multiset{302};
    assert [j][1..] == [];
  }

  lemma FirstReturns(j: Job)
    ensures Apply(FirstRuns(j), Returns(Round(j, 302, 0), Unfinished)) == Between(j)
  {
    OneRunning([Round(j, 302, 0)], 302, j, 302);
  }

  lemma SecondStarts(j: Job)
    ensures Apply(Between(j), TickFires(302)) == SecondRuns(j)
  {
    assert multiset{302, 303} - multiset{302} == multiset{303};
    assert [j][1..] == [];
  }

  /** The states that this run goes through. */
  function Through(j: Job, i: nat): State {
    if i == 0 then Init
    else if i == 1 then QueuedAt(j, 0, 0, multiset{1})
    else if i == 2 then QueuedAt(j, 0, 301, multiset{1})
    else if i == 3 then QueuedAt(j, 301, 301, multiset{1, 302})
    else if i == 4 then QueuedAt(j, 301, 302, multiset{1, 302})
    else if i == 5 then FirstRuns(j)
    else if i == 6 then Between(j)
    else if i == 7 then SecondRuns(j)
    else SecondRuns(j).(now := 302 + WATCHDOG)
  }

  lemma EarlySteps(j: Job, i: nat)
    requires i < 4
    ensures Enabled(Through(j, i), TwiceInASecond(j)[i]) && Through(j, i + 1) == Apply(Through(j, i), TwiceInASecond(j)[i])
  {
    FirstIsQueued(j);
  }

  lemma LateSteps(j: Job, i: nat)
    requires 4 <= i < 8
    ensures Enabled(Through(j, i), TwiceInASecond(j)[i]) && Through(j, i + 1) == Apply(Through(j, i), TwiceInASecond(j)[i])
  {
    if i == 4 { FirstStarts(j); }
    else if i == 5 { FirstReturns(j); }
    else if i == 6 { SecondStarts(j); }
    else { PassStep(SecondRuns(j), WATCHDOG); }
  }

  function States(j: Job): nat -> State { (i: nat) => Through(j, i) }

  lemma StepOfTwice(j: Job, i: nat)
    requires i < 8
    ensures Enabled(States(j)(i), TwiceInASecond(j)[i]) && States(j)(i + 1) == Apply(States(j)(i), TwiceInASecond(j)[i])
  {
    if i < 4 { EarlySteps(j, i); } else { LateSteps(j, i); }
  }

  lemma TwiceIsValid(j: Job)
    ensures Valid(Init, TwiceInASecond(j)) && After(Init, TwiceInASecond(j)) == SecondRuns(j).(now := 302 + WATCHDOG)
  {
    var es := TwiceInASecond(j);
    forall k: nat | k < 8 { StepOfTwice(j, k); }
    Unrolls(es, States(j), 0);
    assert es[0..] == es;
  }

  /** Then the first round's watchdog fails the second round. */
  lemma WatchdogFailsAnother(j: Job)
    ensures Valid(Init, TwiceInASecond(j))
    ensures var s := After(Init, TwiceInASecond(j)); var r, x := Round(j, 302, 0), Round(j, 302, 1);
      Enabled(s, WatchdogFires(r)) && OwnersOf(s.running, r.job, r.token) == [x] && Failed(x) in Apply(s, WatchdogFires(r)).log
  {
    TwiceIsValid(j);
    OneRunning([Round(j, 302, 1)], 302, j, 302);
    assert Failures([Round(j, 302, 1)])[0] == Failed(Round(j, 302, 1));
  }

  /** A run from the states that it goes through. */
  lemma {:induction false} Unrolls(es: seq<Event>, states: nat -> State, i: nat)
    requires i <= |es|
    requires forall k: nat :: i <= k < |es| ==> Enabled(states(k), es[k]) && states(k + 1) == Apply(states(k), es[k])
    ensures Valid(states(i), es[i..]) && After(states(i), es[i..]) == states(|es|)
    decreases |es| - i
  {
    if i < |es| {
      assert es[i..] == [es[i]] + es[i + 1..];
      Unrolls(es, states, i + 1);
      Unroll(states(i), es[i], es[i + 1..]);
    }
  }

  /** After any update call no running round is past WATCHDOG and no armed timer past LOST. */
  lemma KickClearsOverdue(s: State)
    requires Reachable(s)
    ensures forall r <- KickStep(s).running :: s.now - r.token <= WATCHDOG
    ensures forall t <- KickStep(s).armed :: s.now - t <= LOST
  {
    ReachableInv(s);
    NothingOverdue(s);
  }

  lemma Unroll(s: State, e: Event, es: seq<Event>)
    ensures Valid(s, [e] + es) == (Enabled(s, e) && Valid(Apply(s, e), es))
    ensures After(s, [e] + es) == After(Apply(s, e), es)
  {
    assert ([e] + es)[1..] == es;
  }

  /** An update call made after WATCHDOG drops whatever is running or armed and arms a fresh timer. */
  lemma CallRearms(s: State, later: State)
    requires Inv(s) && s.queue != [] && later == s.(now := s.now + WATCHDOG + 1)
    ensures var t := KickStep(later);
      t.armed == [later.now] && t.running == [] && later.now + 1 in t.ticks
      && t.queue == s.queue && t.now == later.now && t.nextId == s.nextId
  {
    OneRunning(later.running, later.now, Job("", ""), 0);
    assert s.armed != [] ==> s.armed[0] in s.armed;
    assert s.running != [] ==> s.running[0] in s.running;
  }

  lemma TickStarts(s: State, due: nat)
    requires due in s.ticks && due <= s.now && s.queue != [] && s.running == []
    ensures Enabled(s, TickFires(due)) && Apply(s, TickFires(due)).running == [Round(s.queue[0], s.now, s.nextId)]
  {
  }

  lemma FourSteps(s: State, s1: State, s2: State, s3: State, s4: State, a: Event, b: Event, c: Event, d: Event)
    requires Enabled(s, a) && Apply(s, a) == s1 && Enabled(s1, b) && Apply(s1, b) == s2
    requires Enabled(s2, c) && Apply(s2, c) == s3 && Enabled(s3, d) && Apply(s3, d) == s4
    ensures Valid(s, [a] + ([b] + ([c] + ([d] + [])))) && After(s, [a] + ([b] + ([c] + ([d] + [])))) == s4
  {
    Unroll(s3, d, []);
    Unroll(s2, c, [d] + []);
    Unroll(s1, b, [c] + ([d] + []));
    Unroll(s, a, [b] + ([c] + ([d] + [])));
  }

  lemma PassStep(s: State, secs: nat)
    ensures Enabled(s, Pass(secs)) && Apply(s, Pass(secs)) == s.(now := s.now + secs)
  {
  }

  /** Whatever timers were dropped and whatever trapped, one update call after WATCHDOG arms a fresh timer,
      and when that fires the job at the head of the queue starts. */
  lemma OneCallRecovers(s: State)
    requires Reachable(s) && s.queue != []
    ensures var es := [Pass(WATCHDOG + 1)] + ([AnyCall] + ([Pass(1)] + ([TickFires(s.now + WATCHDOG + 2)] + [])));
      Valid(s, es) && After(s, es).running == [Round(s.queue[0], s.now + WATCHDOG + 2, s.nextId)]
  {
    ReachableInv(s);
    var due := s.now + WATCHDOG + 2;
    var armed := CallAfterWatchdog(s);
    TickStarts(armed.(now := due), due);
    PassStep(s, WATCHDOG + 1);
    PassStep(armed, 1);
    FourSteps(s, s.(now := s.now + (WATCHDOG + 1)), armed, armed.(now := due), Apply(armed.(now := due), TickFires(due)),
              Pass(WATCHDOG + 1), AnyCall, Pass(1), TickFires(due));
  }

  lemma CallAfterWatchdog(s: State) returns (armed: State)
    requires Inv(s) && s.queue != []
    ensures Apply(s.(now := s.now + (WATCHDOG + 1)), AnyCall) == armed
    ensures armed.running == [] && armed.queue == s.queue && armed.nextId == s.nextId
    ensures armed.now == s.now + WATCHDOG + 1 && s.now + WATCHDOG + 2 in armed.ticks
  {
    var later := s.(now := s.now + (WATCHDOG + 1));
    CallRearms(s, later);
    armed := KickStep(later);
  }

  function StartedJobs(log: seq<Entry>): seq<Job> {
    if log == [] then []
    else if log[0].Started? then [log[0].round.job] + StartedJobs(log[1..])
    else StartedJobs(log[1..])
  }

  lemma {:induction false} StartedAppend(a: seq<Entry>, b: seq<Entry>)
    ensures StartedJobs(a + b) == StartedJobs(a) + StartedJobs(b)
  {
    if a == [] {
      assert a + b == b;
    } else {
      assert (a + b)[1..] == a[1..] + b;
      StartedAppend(a[1..], b);
    }
  }

  lemma {:induction false} FailuresStartNothing(rs: seq<Round>)
    ensures StartedJobs(Failures(rs)) == []
  {
    if rs != [] {
      assert Failures(rs)[1..] == Failures(rs[1..]);
      FailuresStartNothing(rs[1..]);
    }
  }

  lemma KickIsFair(s: State)
    ensures KickStep(s).queue == s.queue && StartedJobs(KickStep(s).log) == StartedJobs(s.log)
  {
    StartedAppend(s.log, Failures(OverdueOf(s.running, s.now)));
    FailuresStartNothing(OverdueOf(s.running, s.now));
  }

  /** Writing to the log what starts nothing, adding to the end of the queue, and a kick. */
  lemma KickAfterIsFair(s: State, t: State, more: seq<Entry>, later: seq<Job>)
    requires StartedJobs(more) == [] && t.log == s.log + more && t.queue == s.queue + later
    ensures StartedJobs(s.log) + s.queue <= StartedJobs(KickStep(t).log) + KickStep(t).queue
  {
    StartedAppend(s.log, more);
    KickIsFair(t);
    assert StartedJobs(s.log) + (s.queue + later) == StartedJobs(s.log) + s.queue + later;
  }

  lemma CallIsFair(s: State, job: Job)
    ensures StartedJobs(s.log) + s.queue <= StartedJobs(ScheduleStep(s, job).log) + ScheduleStep(s, job).queue
  {
    var later := if job in s.queue then [] else [job];
    KickAfterIsFair(s, s.(queue := if job in s.queue then s.queue else s.queue + [job], log := s.log + [Scheduled(job)]), [Scheduled(job)], later);
  }

  lemma TickIsFair(s: State)
    requires s.queue != []
    ensures StartedJobs(s.log) + s.queue == StartedJobs(s.log + [Started(Round(s.queue[0], s.now, s.nextId))]) + s.queue[1..]
  {
    var round := Round(s.queue[0], s.now, s.nextId);
    StartedAppend(s.log, [Started(round)]);
    assert StartedJobs([Started(round)]) == [s.queue[0]];
  }

  lemma ReturnIsFair(s: State, r: Round, outcome: Outcome)
    ensures StartedJobs(s.log) + s.queue <= StartedJobs(Apply(s, Returns(r, outcome)).log) + Apply(s, Returns(r, outcome)).queue
  {
    KickAfterIsFair(s, Ended(s, r, outcome), Noted(r, outcome), Requeued(s.queue, r, outcome)[|s.queue|..]);
  }

  lemma WatchdogIsFair(s: State, r: Round)
    ensures StartedJobs(s.log) + s.queue <= StartedJobs(WatchdogStep(s, r.job, r.token).log) + WatchdogStep(s, r.job, r.token).queue
  {
    var owners := OwnersOf(s.running, r.job, r.token);
    FailuresStartNothing(owners);
    KickAfterIsFair(s, s.(running := OthersOf(s.running, r.job, r.token), log := s.log + Failures(owners)), Failures(owners), []);
  }

  lemma StepIsFair(s: State, e: Event)
    requires !e.Upgraded?
    ensures StartedJobs(s.log) + s.queue <= StartedJobs(Apply(s, e).log) + Apply(s, e).queue
  {
    match e
    case Call(job) => CallIsFair(s, job);
    case AnyCall => KickIsFair(s);
    case TickFires(due) => if s.queue != [] { TickIsFair(s); }
    case Returns(r, outcome) => ReturnIsFair(s, r, outcome);
    case WatchdogFires(r) => WatchdogIsFair(s.(dogs := s.dogs - {r}), r);
    case _ =>
  }

  /** The queue is served in order: over any run between two upgrades, the jobs started since then, followed by the queue,
      begin with the queue as it was. No job overtakes an earlier one or drops out of the queue unstarted. */
  lemma {:induction false} ServedInOrder(s: State, es: seq<Event>)
    requires forall e <- es :: !e.Upgraded?
    ensures StartedJobs(s.log) + s.queue <= StartedJobs(After(s, es).log) + After(s, es).queue
    decreases |es|
  {
    if es != [] {
      assert es[0] in es;
      StepIsFair(s, es[0]);
      ServedInOrder(Apply(s, es[0]), es[1..]);
    }
  }

  /** `resume` queues every pending job. */
  lemma {:induction false} ResumeQueuesAll(s: State, pending: seq<Job>)
    ensures forall j :: j in s.queue || j in pending ==> j in ResumeStep(s, pending).queue
    decreases |pending|
  {
    if pending != [] {
      ResumeQueuesAll(ScheduleStep(s, pending[0]), pending[1..]);
      assert forall j <- pending :: j == pending[0] || j in pending[1..];
    }
  }
}
