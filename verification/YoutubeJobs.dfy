/**
 The asynchronous downloads of the YouTube service: job goroutines behind a semaphore, and the cleaner that sweeps the
 job table. Times are nanoseconds. A transition is one action of one goroutine between two synchronisations.
 */
module YoutubeJobs {
  import opened GoText
  import opened Retention
  import opened Slots

  /** Queued at the semaphore; downloading; the object is in the bucket; the result is stored or the job failed. */
  datatype Phase = Queued | Downloading | Uploaded | Succeeded | Failed

  /**
   stored: an object was put into the bucket; holds: the job's result still owns it; closes: how often it was deleted;
   running: the goroutine has its semaphore slot. doneAt, closedAt and sweptAt record when the job succeeded, when the
   cleaner closed its object, and when the cleaner last came by without finding a result.
   */
  datatype Job = Job(
    phase: Phase,
    createdAt: int,
    ttl: int,
    running: bool,
    stored: bool,
    holds: bool,
    closes: nat,
    doneAt: Option<int>,
    closedAt: Option<int>,
    sweptAt: Option<int>)

  /**
   The cleaner sweeps with the time at which its pass began; it decides, closes, and removes the key in three steps.
   pending: the keys of the table when the pass began that it has not visited yet.
   */
  datatype Cleaner =
    | Idle
    | Sweeping(start: int, pending: set<nat>)
    | Closing(start: int, pending: set<nat>, id: nat)
    | Removing(start: int, pending: set<nat>, id: nat)

  datatype State = State(now: int, capacity: nat, slots: nat, jobs: seq<Job>, table: set<nat>, cleaner: Cleaner,
                         defaultTTL: int)

  function Init(now: int, capacity: nat, defaultTTL: int): State {
    State(now, capacity, 0, [], {}, Idle, defaultTTL)
  }

  datatype Step =
    | Tick(elapsed: nat)
    | Create(retentionSeconds: int)
    | Acquire(id: nat)
    | Upload(id: nat)
    | DownloadFails(id: nat)
    | PathFails(id: nat)
    | Complete(id: nat)
    | Release(id: nat)
    | BeginPass
    | Decide(id: nat)
    | CloseResult
    | RemoveKey
    | EndPass

  predicate In(s: State, id: nat, phase: Phase) {
    id < |s.jobs| && s.jobs[id].phase == phase
  }

  predicate Enabled(s: State, step: Step) {
    match step
    case Tick(_) => true
    case Create(_) => true
    case Acquire(id) => In(s, id, Queued) && s.slots < s.capacity
    case Upload(id) => In(s, id, Downloading)
    case DownloadFails(id) => In(s, id, Downloading)
    case PathFails(id) => In(s, id, Uploaded)
    case Complete(id) => In(s, id, Uploaded)
    case Release(id) => (In(s, id, Succeeded) || In(s, id, Failed)) && s.jobs[id].running && s.slots > 0
    case BeginPass => s.cleaner.Idle?
    case Decide(id) => s.cleaner.Sweeping? && id in s.table && id < |s.jobs|
    case CloseResult => s.cleaner.Closing? && s.cleaner.id < |s.jobs|
    case RemoveKey => s.cleaner.Removing?
    case EndPass => s.cleaner.Sweeping? && s.cleaner.pending == {}
  }

  function With(s: State, id: nat, j: Job): State
    requires id < |s.jobs|
  {
    s.(jobs := s.jobs[id := j])
  }

  /** A job without expiry, or one whose time is not up, is passed over. */
  predicate Expired(j: Job, at: int) {
    j.ttl >= 0 && at - j.createdAt > j.ttl
  }

  function Apply(s: State, step: Step): State
    requires Enabled(s, step)
  {
    match step
    case Tick(elapsed) => s.(now := s.now + elapsed)
    case Create(retention) =>
      var j := Job(Queued, s.now, EffectiveTTL(retention, s.defaultTTL), false, false, false, 0, None, None, None);
      s.(jobs := s.jobs + [j], table := s.table + {|s.jobs|})
    case Acquire(id) => With(s, id, s.jobs[id].(phase := Downloading, running := true)).(slots := s.slots + 1)
    case Upload(id) => With(s, id, s.jobs[id].(phase := Uploaded, stored := true))
    case DownloadFails(id) => With(s, id, s.jobs[id].(phase := Failed))
    case PathFails(id) => With(s, id, s.jobs[id].(phase := Failed, closes := s.jobs[id].closes + 1))
    case Complete(id) => With(s, id, s.jobs[id].(phase := Succeeded, holds := true, doneAt := Some(s.now)))
    case Release(id) => With(s, id, s.jobs[id].(running := false)).(slots := s.slots - 1)
    case BeginPass => s.(cleaner := Sweeping(s.now, s.table))
    case Decide(id) =>
      var pending := s.cleaner.pending - {id};
      s.(cleaner := if Expired(s.jobs[id], s.cleaner.start) then Closing(s.cleaner.start, pending, id)
                    else Sweeping(s.cleaner.start, pending))
    case CloseResult =>
      var j := s.jobs[s.cleaner.id];
      var t := if j.holds then With(s, s.cleaner.id,
                                    j.(holds := false, closes := j.closes + 1, closedAt := Some(s.now)))
               else if j.phase.Succeeded? then s
               else With(s, s.cleaner.id, j.(sweptAt := Some(s.now)));
      t.(cleaner := Removing(s.cleaner.start, s.cleaner.pending, s.cleaner.id))
    case RemoveKey => s.(table := s.table - {s.cleaner.id}, cleaner := Sweeping(s.cleaner.start, s.cleaner.pending))
    case EndPass => s.(cleaner := Idle)
  }

  // ---------------------------------------------------------------- invariant

  /** The time at which a job's object may be deleted has passed. */
  predicate Overdue(j: Job, at: int) {
    j.ttl >= 0 && at > j.createdAt + j.ttl
  }

  predicate JobInv(j: Job, inTable: bool, leaving: bool, now: int) {
    && (j.stored <==> j.phase.Uploaded? || j.phase.Succeeded? || (j.phase.Failed? && j.closes == 1))
    && (j.holds ==> j.phase.Succeeded? && j.closes == 0)
    && (j.phase.Succeeded? ==> (if j.holds then j.closedAt.None? else j.closes == 1 && j.closedAt.Some?))
    && (j.phase.Succeeded? <==> j.doneAt.Some?)
    && (!j.phase.Succeeded? ==> j.closedAt.None?)
    && (!j.stored ==> j.closes == 0) && j.closes <= 1 && (j.phase.Uploaded? ==> j.closes == 0)
    && (j.running ==> !j.phase.Queued?) && (j.phase.Downloading? || j.phase.Uploaded? ==> j.running)
    && (j.closedAt.Some? ==> Overdue(j, j.closedAt.value) && j.closedAt.value <= now)
    && (j.sweptAt.Some? ==> Overdue(j, j.sweptAt.value) && j.sweptAt.value <= now)
    && (j.sweptAt.Some? && j.doneAt.Some? ==> j.sweptAt.value <= j.doneAt.value)
    && (!inTable || leaving ==> j.closedAt.Some? || j.sweptAt.Some?)
    && (j.sweptAt.Some? ==> j.closedAt.None? && (!inTable || leaving))
  }

  predicate CleanerInv(s: State) {
    match s.cleaner
    case Idle => true
    case Sweeping(start, pending) => start <= s.now && pending <= s.table
    case Closing(start, pending, id) =>
      start <= s.now && pending <= s.table - {id} && id in s.table && id < |s.jobs| && Expired(s.jobs[id], start)
    case Removing(start, pending, id) => start <= s.now && pending <= s.table - {id} && id < |s.jobs|
  }

  /** The job the cleaner is busy with. */
  predicate Busy(s: State, id: nat) {
    (s.cleaner.Closing? || s.cleaner.Removing?) && s.cleaner.id == id
  }

  /** Every job of the table that was expired when the pass began has yet to be visited, or is being dealt with. */
  ghost predicate PassInv(s: State)
    requires forall id :: id in s.table ==> id < |s.jobs|
  {
    !s.cleaner.Idle? ==>
      forall id :: id in s.table && !Busy(s, id) && Expired(s.jobs[id], s.cleaner.start) ==> id in s.cleaner.pending
  }

  predicate Leaving(s: State, id: nat) {
    s.cleaner.Removing? && s.cleaner.id == id
  }

  function IsRunning(): Job -> bool {
    (j: Job) => j.running
  }

  function Running(jobs: seq<Job>): nat {
    Held(IsRunning(), jobs)
  }

  ghost predicate Inv(s: State) {
    && (forall id :: id in s.table ==> id < |s.jobs|)
    && (forall id :: 0 <= id < |s.jobs| ==> JobInv(s.jobs[id], id in s.table, Leaving(s, id), s.now))
    && CleanerInv(s) && PassInv(s)
    && s.slots == Running(s.jobs) && s.slots <= s.capacity
  }

  /** The one job a step touches, if any. */
  function Touched(s: State, step: Step): Option<nat> {
    match step
    case Acquire(id) => Some(id)
    case Upload(id) => Some(id)
    case DownloadFails(id) => Some(id)
    case PathFails(id) => Some(id)
    case Complete(id) => Some(id)
    case Release(id) => Some(id)
    case CloseResult => if s.cleaner.Closing? then Some(s.cleaner.id) else None
    case _ => None
  }

  lemma SlotsKept(s: State, step: Step)
    requires Inv(s) && Enabled(s, step)
    ensures Apply(s, step).slots == Running(Apply(s, step).jobs) <= s.capacity
  {
    var t := Apply(s, step);
    var touched := Touched(s, step);
    if touched.Some? {
      HeldUpdate(IsRunning(), s.jobs, touched.value, t.jobs[touched.value]);
      assert s.jobs[touched.value := t.jobs[touched.value]] == t.jobs;
      assert JobInv(s.jobs[touched.value], touched.value in s.table, Leaving(s, touched.value), s.now);
    } else if step.Create? {
      HeldAppend(IsRunning(), s.jobs, t.jobs[|s.jobs|]);
    }
  }

  lemma TouchedJobKept(s: State, step: Step, id: nat)
    requires Inv(s) && Enabled(s, step) && Touched(s, step) == Some(id)
    ensures var t := Apply(s, step); id < |t.jobs| && JobInv(t.jobs[id], id in t.table, Leaving(t, id), t.now)
  {
    hide Running;
    assert id < |s.jobs|;
    assert JobInv(s.jobs[id], id in s.table, Leaving(s, id), s.now);
  }

  lemma OtherJobsKept(s: State, step: Step, id: nat)
    requires Inv(s) && Enabled(s, step) && id < |Apply(s, step).jobs| && Touched(s, step) != Some(id)
    ensures var t := Apply(s, step); JobInv(t.jobs[id], id in t.table, Leaving(t, id), t.now)
  {
    hide Running;
    if id < |s.jobs| {
      assert JobInv(s.jobs[id], id in s.table, Leaving(s, id), s.now);
      assert Apply(s, step).jobs[id] == s.jobs[id];
    }
  }

  lemma PassKept(s: State, step: Step)
    requires Inv(s) && Enabled(s, step)
    ensures var t := Apply(s, step); (forall id :: id in t.table ==> id < |t.jobs|) && CleanerInv(t) && PassInv(t)
  {
    hide JobInv, Held;
    var t := Apply(s, step);
    forall id | id in t.table && !t.cleaner.Idle? && !Busy(t, id) && Expired(t.jobs[id], t.cleaner.start)
      ensures id in t.cleaner.pending
    {
      if id < |s.jobs| {
        assert t.jobs[id].createdAt == s.jobs[id].createdAt && t.jobs[id].ttl == s.jobs[id].ttl;
      }
    }
  }

  lemma StepKeepsInv(s: State, step: Step)
    requires Inv(s) && Enabled(s, step)
    ensures Inv(Apply(s, step))
  {
    hide JobInv, PassInv, CleanerInv;
    SlotsKept(s, step);
    PassKept(s, step);
    var t := Apply(s, step);
    forall id | 0 <= id < |t.jobs|
      ensures JobInv(t.jobs[id], id in t.table, Leaving(t, id), t.now)
    {
      if Touched(s, step) == Some(id) {
        TouchedJobKept(s, step, id);
      } else {
        OtherJobsKept(s, step, id);
      }
    }
  }

  predicate Next(s: State, t: State, step: Step) {
    Enabled(s, step) && t == Apply(s, step)
  }

  ghost predicate IsRun(run: seq<State>, steps: seq<Step>) {
    && |run| == |steps| + 1 && (exists now, cap, ttl :: run[0] == Init(now, cap, ttl))
    && forall i :: 0 <= i < |steps| ==> Next(run[i], run[i + 1], steps[i])
  }

  lemma {:induction false} RunKeepsInv(run: seq<State>, steps: seq<Step>, at: nat)
    requires IsRun(run, steps) && at < |run|
    ensures Inv(run[at])
  {
    hide Apply, Enabled, Inv;
    if at == 0 {
      var now, cap, ttl :| run[0] == Init(now, cap, ttl);
      InitHasInv(now, cap, ttl);
    } else {
      RunKeepsInv(run, steps, at - 1);
      assert Next(run[at - 1], run[at], steps[at - 1]);
      StepKeepsInv(run[at - 1], steps[at - 1]);
    }
  }

  lemma InitHasInv(now: int, capacity: nat, ttl: int)
    ensures Inv(Init(now, capacity, ttl))
  {
  }

  // ---------------------------------------------------------------- main results

  /**
   An object the service has lost: its job succeeded, the job left the table, and nobody will ever close the object.
   */
  predicate Orphaned(s: State, id: nat) {
    id < |s.jobs| && s.jobs[id].stored && s.jobs[id].closes == 0 && id !in s.table && s.jobs[id].phase.Succeeded?
  }

  /**
   In every run each object is closed at most once; an object the cleaner closes was due, and one that never expires is
   never closed by it; and every object is accounted for: its download is still running, or a job in the table holds it,
   or it was closed, or it is an orphan, whose job finished only after its time had passed.
   */
  lemma ObjectsAreAccountedFor(run: seq<State>, steps: seq<Step>, at: nat, id: nat)
    requires IsRun(run, steps) && at < |run| && id < |run[at].jobs|
    ensures var s, j := run[at], run[at].jobs[id];
            && j.closes <= 1
            && (j.closedAt.Some? ==> j.ttl >= 0 && j.closedAt.value > j.createdAt + j.ttl)
            && (j.stored ==> j.phase.Uploaded? || (j.holds && id in s.table) || j.closes == 1 || Orphaned(s, id))
            && (Orphaned(s, id) ==> j.ttl >= 0 && j.doneAt.Some? && j.doneAt.value > j.createdAt + j.ttl)
  {
    RunKeepsInv(run, steps, at);
    assert JobInv(run[at].jobs[id], id in run[at].table, Leaving(run[at], id), run[at].now);
  }

  /** The jobs that succeeded and leave an orphan are exactly those the cleaner came by, and found no result, before. */
  lemma OrphansAreTheSweptJobs(run: seq<State>, steps: seq<Step>, at: nat, id: nat)
    requires IsRun(run, steps) && at < |run| && id < |run[at].jobs| && id !in run[at].table
    requires run[at].jobs[id].phase.Succeeded?
    ensures Orphaned(run[at], id) <==> run[at].jobs[id].sweptAt.Some?
  {
    RunKeepsInv(run, steps, at);
    assert JobInv(run[at].jobs[id], id in run[at].table, Leaving(run[at], id), run[at].now);
  }

  /** An orphan stays one: no later step closes its object or brings its job back. */
  lemma OrphansStay(s: State, step: Step, id: nat)
    requires Inv(s) && Enabled(s, step) && Orphaned(s, id)
    ensures Orphaned(Apply(s, step), id)
  {
  }

  /** Downloads at work never exceed the semaphore. */
  lemma DownloadsAreBounded(run: seq<State>, steps: seq<Step>, at: nat)
    requires IsRun(run, steps) && at < |run|
    ensures Running(run[at].jobs) <= run[at].capacity
  {
    RunKeepsInv(run, steps, at);
  }

  /** The cleaner has decided to close the job's result, or has closed it, or has removed the job as well. */
  predicate Doomed(s: State, id: nat) {
    && id < |s.jobs|
    && var j := s.jobs[id];
       || (s.cleaner.Closing? && s.cleaner.id == id && j.holds && j.closes == 0)
       || (j.closes == 1 && !j.holds && j.closedAt.Some? && (id in s.table ==> Leaving(s, id)))
  }

  lemma StaysDoomed(s: State, step: Step, id: nat)
    requires Inv(s) && Enabled(s, step) && Doomed(s, id)
    ensures Doomed(Apply(s, step), id)
  {
    hide Held;
    assert JobInv(s.jobs[id], id in s.table, Leaving(s, id), s.now);
  }

  /**
   Whatever the other goroutines do meanwhile: once the cleaner has decided that a finished job is expired, then
   whenever it is done with that job, its object is closed, exactly once, and the job is out of the table.
   */
  lemma {:induction false} ExpiredResultIsClosed(run: seq<State>, steps: seq<Step>, decided: nat, at: nat, id: nat)
    requires IsRun(run, steps) && decided < at < |run| && steps[decided] == Decide(id)
             && Enabled(run[decided], Decide(id))
    requires run[decided].jobs[id].holds && Expired(run[decided].jobs[id], run[decided].cleaner.start)
    ensures Doomed(run[at], id)
    ensures !Busy(run[at], id) ==> run[at].jobs[id].closes == 1 && !run[at].jobs[id].holds && id !in run[at].table
  {
    hide Apply, Inv, JobInv, Expired;
    RunKeepsInv(run, steps, decided);
    assert Next(run[decided], run[decided + 1], steps[decided]);
    RunKeepsInv(run, steps, at - 1);
    assert Next(run[at - 1], run[at], steps[at - 1]);
    if at == decided + 1 {
      DecisionDooms(run[decided], id);
    } else {
      ExpiredResultIsClosed(run, steps, decided, at - 1, id);
      StaysDoomed(run[at - 1], steps[at - 1], id);
    }
  }

  lemma DecisionDooms(s: State, id: nat)
    requires Inv(s) && Enabled(s, Decide(id)) && s.jobs[id].holds && Expired(s.jobs[id], s.cleaner.start)
    ensures Doomed(Apply(s, Decide(id)), id)
  {
    assert JobInv(s.jobs[id], id in s.table, Leaving(s, id), s.now);
  }

  // ---------------------------------------------------------------- what the caller asked for

  /** This step made the job, asked to keep its object for so many seconds. */
  ghost predicate MadeBy(run: seq<State>, steps: seq<Step>, made: nat, id: nat, retentionSeconds: int) {
    made < |steps| < |run| && steps[made] == Create(retentionSeconds) && id == |run[made].jobs|
  }

  /** A job keeps the times it was made with. */
  lemma {:induction false} TimesStay(run: seq<State>, steps: seq<Step>, made: nat, at: nat, id: nat, r: int)
    requires IsRun(run, steps) && MadeBy(run, steps, made, id, r) && made < at < |run|
    ensures run[at].defaultTTL == run[0].defaultTTL && id < |run[at].jobs|
    ensures run[at].jobs[id].createdAt == run[made].now
    ensures run[at].jobs[id].ttl == EffectiveTTL(r, run[0].defaultTTL)
    decreases at
  {
    hide EffectiveTTL;
    DefaultStays(run, steps, made);
    DefaultStays(run, steps, at);
    assert Next(run[at - 1], run[at], steps[at - 1]);
    if made < at - 1 {
      TimesStay(run, steps, made, at - 1, id, r);
    }
  }

  lemma {:induction false} DefaultStays(run: seq<State>, steps: seq<Step>, at: nat)
    requires IsRun(run, steps) && at < |run|
    ensures run[at].defaultTTL == run[0].defaultTTL
  {
    if at > 0 {
      DefaultStays(run, steps, at - 1);
      assert Next(run[at - 1], run[at], steps[at - 1]);
    }
  }

  /**
   For a job that was asked to keep its object for r seconds, at every later moment: the cleaner has closed the object
   only after that time, counted from the creation of the job, or after the default time for r = 0; with a negative r it
   never closes it, and never takes the job out of the table.
   */
  lemma RetentionIsKept(run: seq<State>, steps: seq<Step>, made: nat, at: nat, id: nat, r: int)
    requires IsRun(run, steps) && MadeBy(run, steps, made, id, r) && made < at < |run|
    ensures id < |run[at].jobs|
    ensures var closed := run[at].jobs[id].closedAt;
            && (r > 0 && closed.Some? ==> closed.value - run[made].now > r * 1_000_000_000)
            && (r == 0 && closed.Some? ==> closed.value - run[made].now > run[0].defaultTTL >= 0)
            && (r < 0 ==> closed.None? && id in run[at].table)
  {
    TimesStay(run, steps, made, at, id, r);
    RunKeepsInv(run, steps, at);
    assert JobInv(run[at].jobs[id], id in run[at].table, Leaving(run[at], id), run[at].now);
  }

  /** Between its beginning and its end a pass has the time of its beginning. */
  lemma {:induction false} PassHasItsTime(run: seq<State>, steps: seq<Step>, begin: nat, at: nat)
    requires IsRun(run, steps) && begin < at <= |steps| && steps[begin] == BeginPass
    requires forall i :: begin < i < at ==> steps[i] != EndPass
    ensures !run[at].cleaner.Idle? && run[at].cleaner.start == run[begin].now
    decreases at
  {
    assert Next(run[at - 1], run[at], steps[at - 1]);
    if begin < at - 1 {
      PassHasItsTime(run, steps, begin, at - 1);
    }
  }

  /**
   A pass that ends has taken every job out of the table whose time was up when the pass began: the seconds it was asked
   for, or the default.
   */
  lemma PassRemovesExpired(run: seq<State>, steps: seq<Step>, begin: nat, end: nat, made: nat, id: nat, r: int)
    requires IsRun(run, steps) && begin < end < |steps| && steps[begin] == BeginPass && steps[end] == EndPass
    requires forall i :: begin < i < end ==> steps[i] != EndPass
    requires made < begin && MadeBy(run, steps, made, id, r)
    requires if r > 0 then run[begin].now - run[made].now > r * 1_000_000_000
             else r == 0 && run[begin].now - run[made].now > run[0].defaultTTL >= 0
    ensures id !in run[end].table
  {
    RunKeepsInv(run, steps, end);
    TimesStay(run, steps, made, end, id, r);
    PassHasItsTime(run, steps, begin, end);
    assert Next(run[end], run[end + 1], steps[end]);
  }

  /** The states of a sweep that comes by while the job is between upload and success. */
  lemma SweepDuringDownload(queued: Job, loading: Job, stored: Job, swept: Job, done: Job)
    requires queued == Job(Queued, 0, 10, false, false, false, 0, None, None, None)
    requires loading == queued.(phase := Downloading, running := true)
    requires stored == loading.(phase := Uploaded, stored := true)
    requires swept == stored.(sweptAt := Some(11))
    requires done == swept.(phase := Succeeded, holds := true, doneAt := Some(11))
    ensures Next(Init(0, 1, 10), State(0, 1, 0, [queued], {0}, Idle, 10), Create(0))
    ensures Next(State(0, 1, 0, [queued], {0}, Idle, 10), State(0, 1, 1, [loading], {0}, Idle, 10), Acquire(0))
    ensures Next(State(0, 1, 1, [loading], {0}, Idle, 10), State(0, 1, 1, [stored], {0}, Idle, 10), Upload(0))
    ensures Next(State(0, 1, 1, [stored], {0}, Idle, 10), State(11, 1, 1, [stored], {0}, Idle, 10), Tick(11))
    ensures Next(State(11, 1, 1, [stored], {0}, Idle, 10), State(11, 1, 1, [stored], {0}, Sweeping(11, {0}), 10),
                 BeginPass)
    ensures Next(State(11, 1, 1, [stored], {0}, Sweeping(11, {0}), 10),
                 State(11, 1, 1, [stored], {0}, Closing(11, {}, 0), 10), Decide(0))
    ensures Next(State(11, 1, 1, [stored], {0}, Closing(11, {}, 0), 10),
                 State(11, 1, 1, [swept], {0}, Removing(11, {}, 0), 10), CloseResult)
    ensures Next(State(11, 1, 1, [swept], {0}, Removing(11, {}, 0), 10),
                 State(11, 1, 1, [swept], {}, Sweeping(11, {}), 10), RemoveKey)
    ensures Next(State(11, 1, 1, [swept], {}, Sweeping(11, {}), 10), State(11, 1, 1, [done], {}, Sweeping(11, {}), 10),
                 Complete(0))
  {
    assert {0} - {0} == {};
    assert [queued][0 := loading] == [loading] && [loading][0 := stored] == [stored];
    assert [stored][0 := swept] == [swept] && [swept][0 := done] == [done];
  }

  /** A job that outlives its retention time while downloading does leave an orphan. */
  lemma SlowJobLeavesOrphan() returns (run: seq<State>, steps: seq<Step>)
    ensures IsRun(run, steps) && Orphaned(run[|run| - 1], 0)
  {
    hide Next;
    var queued := Job(Queued, 0, 10, false, false, false, 0, None, None, None);
    var loading := queued.(phase := Downloading, running := true);
    var stored := loading.(phase := Uploaded, stored := true);
    var swept := stored.(sweptAt := Some(11));
    var done := swept.(phase := Succeeded, holds := true, doneAt := Some(11));
    SweepDuringDownload(queued, loading, stored, swept, done);
    steps := [Create(0), Acquire(0), Upload(0), Tick(11), BeginPass, Decide(0), CloseResult, RemoveKey, Complete(0)];
    run := [Init(0, 1, 10),
            State(0, 1, 0, [queued], {0}, Idle, 10), State(0, 1, 1, [loading], {0}, Idle, 10),
            State(0, 1, 1, [stored], {0}, Idle, 10),
            State(11, 1, 1, [stored], {0}, Idle, 10), State(11, 1, 1, [stored], {0}, Sweeping(11, {0}), 10),
            State(11, 1, 1, [stored], {0}, Closing(11, {}, 0), 10),
            State(11, 1, 1, [swept], {0}, Removing(11, {}, 0), 10),
            State(11, 1, 1, [swept], {}, Sweeping(11, {}), 10), State(11, 1, 1, [done], {}, Sweeping(11, {}), 10)];
  }
}
