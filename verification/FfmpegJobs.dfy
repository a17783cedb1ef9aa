/**
 The jobs of the ffmpeg service: the semaphore, the action with its unwinding, the job record, and the clean-up
 goroutine. A transition is one action of one goroutine between two synchronisations; handles are closed one at a time.
 */
module FfmpegJobs {
  import opened GoText
  import opened Retention
  import opened Slots

  datatype JobState = Pending | Running | Done | Failed

  /** An uploaded object with the handle that owns it: how often the handle was closed, and when last. */
  datatype Output = Output(closes: nat, closedAt: Option<int>)

  /**
   Where the job's goroutine is. Delivering: pieces of ffmpeg's that still have to be wrapped and uploaded. Unwinding:
   after a piece that failed, the next handle of the pieces before it to close. Recording: inside the job's mutex, the
   state is set, result or error not yet.
   */
  datatype Pc =
    | Queued
    | Starting
    | Encoding
    | Delivering(left: nat)
    | Unwinding(next: nat)
    | Returning(ok: bool)
    | Recording(ok: bool)
    | Scheduling
    | Leaving
    | Gone

  /** Where the clean-up goroutine is, if there is one. */
  datatype Cleaner = NotStarted | Sleeping(due: int) | Closing(next: nat) | Finished

  datatype Job = Job(
    pc: Pc,
    state: JobState,
    ttl: int,
    outputs: seq<Output>,
    result: bool,
    error: bool,
    doneAt: Option<int>,
    cleaner: Cleaner)

  datatype State = State(now: int, capacity: nat, slots: nat, jobs: seq<Job>, defaultTTL: int)

  function Init(now: int, capacity: nat, defaultTTL: int): State {
    State(now, capacity, 0, [], defaultTTL)
  }

  datatype Step =
    | Tick(elapsed: nat)
    | Create(retentionSeconds: int)
    | Acquire(id: nat)
    | MarkRunning(id: nat)
    | Produce(id: nat, pieces: nat)
    | EncodingFails(id: nat)
    | Deliver(id: nat)
    | DeliveryFails(id: nat)
    | AllDelivered(id: nat)
    | Unwind(id: nat)
    | SetState(id: nat)
    | SetOutcome(id: nat)
    | Schedule(id: nat)
    | Release(id: nat)
    | WakeUp(id: nat)
    | CleanUp(id: nat)

  predicate Exists(s: State, id: nat) {
    id < |s.jobs|
  }

  predicate Enabled(s: State, step: Step) {
    match step
    case Tick(_) => true
    case Create(_) => true
    case Acquire(id) => Exists(s, id) && s.jobs[id].pc.Queued? && s.slots < s.capacity
    case MarkRunning(id) => Exists(s, id) && s.jobs[id].pc.Starting?
    case Produce(id, _) => Exists(s, id) && s.jobs[id].pc.Encoding?
    case EncodingFails(id) => Exists(s, id) && s.jobs[id].pc.Encoding?
    case Deliver(id) => Exists(s, id) && s.jobs[id].pc.Delivering? && s.jobs[id].pc.left > 0
    case DeliveryFails(id) => Exists(s, id) && s.jobs[id].pc.Delivering? && s.jobs[id].pc.left > 0
    case AllDelivered(id) => Exists(s, id) && s.jobs[id].pc == Delivering(0)
    case Unwind(id) => Exists(s, id) && s.jobs[id].pc.Unwinding?
    case SetState(id) => Exists(s, id) && s.jobs[id].pc.Returning?
    case SetOutcome(id) => Exists(s, id) && s.jobs[id].pc.Recording?
    case Schedule(id) => Exists(s, id) && s.jobs[id].pc.Scheduling?
    case Release(id) => Exists(s, id) && s.jobs[id].pc.Leaving? && s.slots > 0
    case WakeUp(id) => Exists(s, id) && s.jobs[id].cleaner.Sleeping? && s.jobs[id].cleaner.due <= s.now
    case CleanUp(id) => Exists(s, id) && s.jobs[id].cleaner.Closing?
  }

  /** One handle of the list is closed, if the loop over it has not ended. */
  function CloseAt(outputs: seq<Output>, next: nat, now: int): (r: seq<Output>)
    ensures |r| == |outputs|
  {
    if next < |outputs| then outputs[next := Output(outputs[next].closes + 1, Some(now))] else outputs
  }

  /** What a step that concerns one job makes of it. */
  function Advance(j: Job, step: Step, now: int): Job
    requires step.Deliver? || step.DeliveryFails? ==> j.pc.Delivering? && j.pc.left > 0
    requires step.Unwind? ==> j.pc.Unwinding?
    requires step.SetState? ==> j.pc.Returning?
    requires step.SetOutcome? ==> j.pc.Recording?
    requires step.CleanUp? ==> j.cleaner.Closing?
  {
    match step
    case Acquire(_) => j.(pc := Starting)
    case MarkRunning(_) => j.(pc := Encoding, state := Running)
    case Produce(_, pieces) => j.(pc := Delivering(pieces))
    case EncodingFails(_) => j.(pc := Returning(false))
    case Deliver(_) => j.(pc := Delivering(j.pc.left - 1), outputs := j.outputs + [Output(0, None)])
    case DeliveryFails(_) => j.(pc := Unwinding(0))
    case AllDelivered(_) => j.(pc := Returning(true))
    case Unwind(_) =>
      j.(outputs := CloseAt(j.outputs, j.pc.next, now),
         pc := if j.pc.next < |j.outputs| then Unwinding(j.pc.next + 1) else Returning(false))
    case SetState(_) =>
      if j.pc.ok then j.(pc := Recording(true), state := Done, doneAt := Some(now))
      else j.(pc := Recording(false), state := Failed)
    case SetOutcome(_) => if j.pc.ok then j.(pc := Scheduling, result := true) else j.(pc := Leaving, error := true)
    case Schedule(_) => j.(pc := Leaving, cleaner := if j.ttl < 0 then NotStarted else Sleeping(now + j.ttl))
    case Release(_) => j.(pc := Gone)
    case WakeUp(_) => j.(cleaner := Closing(0))
    case CleanUp(_) =>
      j.(outputs := CloseAt(j.outputs, j.cleaner.next, now),
         cleaner := if j.cleaner.next < |j.outputs| then Closing(j.cleaner.next + 1) else Finished)
    case _ => j
  }

  function With(s: State, id: nat, j: Job): State
    requires id < |s.jobs|
  {
    s.(jobs := s.jobs[id := j])
  }

  function Apply(s: State, step: Step): State
    requires Enabled(s, step)
  {
    match step
    case Tick(elapsed) => s.(now := s.now + elapsed)
    case Create(retention) =>
      var ttl := EffectiveTTL(retention, s.defaultTTL);
      s.(jobs := s.jobs + [Job(Queued, Pending, ttl, [], false, false, None, NotStarted)])
    case Acquire(id) => With(s, id, Advance(s.jobs[id], step, s.now)).(slots := s.slots + 1)
    case Release(id) => With(s, id, Advance(s.jobs[id], step, s.now)).(slots := s.slots - 1)
    case _ => With(s, step.id, Advance(s.jobs[step.id], step, s.now))
  }

  // ---------------------------------------------------------------- the invariant

  /** The action came to nothing: whatever it had delivered is closed again. */
  predicate GivenUp(j: Job) {
    match j.pc
    case Returning(ok) => !ok
    case Recording(ok) => !ok
    case Leaving => j.state.Failed?
    case Gone => j.state.Failed?
    case _ => false
  }

  /** How many of the outputs, from the first on, were closed. */
  function ClosedSoFar(j: Job): nat {
    if j.pc.Unwinding? then j.pc.next
    else if GivenUp(j) then |j.outputs|
    else
      match j.cleaner
      case Closing(next) => next
      case Finished => |j.outputs|
      case _ => 0
  }

  /** The record's fields are as far as the goroutine is. */
  predicate RecordInv(j: Job) {
    && (match j.pc
        case Queued => j.state.Pending?
        case Starting => j.state.Pending?
        case Recording(ok) => j.state == if ok then Done else Failed
        case Scheduling => j.state.Done?
        case Leaving => j.state.Done? || j.state.Failed?
        case Gone => j.state.Done? || j.state.Failed?
        case _ => j.state.Running?)
    && (j.result <==> j.state.Done? && !j.pc.Recording?)
    && (j.error <==> j.state.Failed? && !j.pc.Recording?)
    && (j.doneAt.Some? <==> j.state.Done?)
    && (j.pc.Queued? || j.pc.Starting? || j.pc.Encoding? ==> j.outputs == [])
  }

  predicate CleanerInv(j: Job, now: int) {
    && (!j.cleaner.NotStarted? ==> j.state.Done? && (j.pc.Leaving? || j.pc.Gone?) && j.ttl >= 0)
    && (j.state.Done? && (j.pc.Leaving? || j.pc.Gone?) && j.ttl >= 0 ==> !j.cleaner.NotStarted?)
    && (j.doneAt.Some? ==> j.doneAt.value <= now)
    && (j.cleaner.Sleeping? ==> j.doneAt.Some? && j.cleaner.due >= j.doneAt.value + j.ttl)
    && (j.cleaner.Closing? || j.cleaner.Finished? ==> j.doneAt.Some? && now >= j.doneAt.value + j.ttl)
  }

  /** Closed exactly once, by now, and after the retention time if the clean-up closed it. */
  predicate ClosedOnce(j: Job, o: Output, now: int) {
    && o.closes == 1 && o.closedAt.Some? && o.closedAt.value <= now
    && (j.doneAt.Some? ==> o.closedAt.value >= j.doneAt.value + j.ttl)
  }

  predicate OutputsInv(j: Job, now: int) {
    && ClosedSoFar(j) <= |j.outputs|
    && forall i :: 0 <= i < |j.outputs| ==>
         if i < ClosedSoFar(j) then ClosedOnce(j, j.outputs[i], now) else j.outputs[i] == Output(0, None)
  }

  predicate JobInv(j: Job, now: int) {
    RecordInv(j) && CleanerInv(j, now) && OutputsInv(j, now)
  }

  function IsRunning(): Job -> bool {
    (j: Job) => !j.pc.Queued? && !j.pc.Gone?
  }

  function RunningJobs(jobs: seq<Job>): nat {
    Held(IsRunning(), jobs)
  }

  predicate Inv(s: State) {
    && (forall id :: 0 <= id < |s.jobs| ==> JobInv(s.jobs[id], s.now))
    && s.slots == RunningJobs(s.jobs) && s.slots <= s.capacity
  }

  // ---------------------------------------------------------------- every step keeps it

  lemma SlotsKept(s: State, step: Step)
    requires Inv(s) && Enabled(s, step)
    ensures Apply(s, step).slots == RunningJobs(Apply(s, step).jobs) <= s.capacity
  {
    hide JobInv, Held;
    var t := Apply(s, step);
    match step
    case Tick(_) =>
    case Create(_) => HeldAppend(IsRunning(), s.jobs, t.jobs[|s.jobs|]);
    case _ =>
      HeldUpdate(IsRunning(), s.jobs, step.id, t.jobs[step.id]);
  }

  lemma TimePasses(j: Job, now: int, later: int)
    requires JobInv(j, now) && now <= later
    ensures JobInv(j, later)
  {
  }

  /** Closing the next output keeps the books of the others. */
  lemma CloseNext(j: Job, k: Job, now: int)
    requires OutputsInv(j, now) && ClosedSoFar(j) < |j.outputs|
    requires k.outputs == CloseAt(j.outputs, ClosedSoFar(j), now) && ClosedSoFar(k) == ClosedSoFar(j) + 1
    requires k.doneAt == j.doneAt && k.ttl == j.ttl && (j.doneAt.Some? ==> now >= j.doneAt.value + j.ttl)
    ensures OutputsInv(k, now)
  {
  }

  lemma SameOutputs(j: Job, k: Job, now: int)
    requires OutputsInv(j, now) && k.outputs == j.outputs && ClosedSoFar(k) == ClosedSoFar(j)
    requires (k.doneAt == j.doneAt && k.ttl == j.ttl) || ClosedSoFar(k) == 0
    ensures OutputsInv(k, now)
  {
  }

  lemma OutputsKept(s: State, step: Step, id: nat)
    requires Exists(s, id) && JobInv(s.jobs[id], s.now) && Enabled(s, step)
    requires !step.Tick? && !step.Create? && step.id == id
    ensures OutputsInv(Advance(s.jobs[id], step, s.now), s.now)
  {
    var j, k := s.jobs[id], Advance(s.jobs[id], step, s.now);
    if (step.Unwind? || step.CleanUp?) && ClosedSoFar(j) < |j.outputs| {
      CloseNext(j, k, s.now);
    } else if !step.Deliver? {
      hide OutputsInv;
      assert ClosedSoFar(j) <= |j.outputs| by { BookedWithin(j, s.now); }
      SameOutputs(j, k, s.now);
    }
  }

  lemma BookedWithin(j: Job, now: int)
    requires OutputsInv(j, now)
    ensures ClosedSoFar(j) <= |j.outputs|
  {
  }

  lemma JobKept(s: State, step: Step, id: nat)
    requires Exists(s, id) && JobInv(s.jobs[id], s.now) && Enabled(s, step)
    requires !step.Tick? && !step.Create? && step.id == id
    ensures JobInv(Advance(s.jobs[id], step, s.now), s.now)
  {
    OutputsKept(s, step, id);
    hide OutputsInv;
  }

  lemma StepKeepsInv(s: State, step: Step)
    requires Inv(s) && Enabled(s, step)
    ensures Inv(Apply(s, step))
  {
    hide JobInv, RunningJobs;
    SlotsKept(s, step);
    var t := Apply(s, step);
    forall id | 0 <= id < |t.jobs|
      ensures JobInv(t.jobs[id], t.now)
    {
      if id == |s.jobs| {
        NewJob(t.jobs[id], t.now);
      } else {
        assert JobInv(s.jobs[id], s.now);
        if step.Tick? {
          TimePasses(s.jobs[id], s.now, t.now);
        } else if !step.Create? && step.id == id {
          JobKept(s, step, id);
        }
      }
    }
  }

  lemma NewJob(j: Job, now: int)
    requires j == Job(Queued, Pending, j.ttl, [], false, false, None, NotStarted)
    ensures JobInv(j, now)
  {
  }

  predicate Next(s: State, t: State, step: Step) {
    Enabled(s, step) && t == Apply(s, step)
  }

  ghost predicate IsRun(run: seq<State>, steps: seq<Step>) {
    && |run| == |steps| + 1 && (exists now, cap, ttl :: run[0] == Init(now, cap, ttl))
    && forall i :: 0 <= i < |steps| ==> Next(run[i], run[i + 1], steps[i])
  }

  lemma {:induction false} RunKeepsInv(run: seq<State>, steps: seq<Step>, at: nat)
    requires IsRun(run, steps) && at < |run|
    ensures Inv(run[at])
  {
    hide Apply, Enabled;
    if at > 0 {
      RunKeepsInv(run, steps, at - 1);
      assert Next(run[at - 1], run[at], steps[at - 1]);
      StepKeepsInv(run[at - 1], steps[at - 1]);
    }
  }

  // ---------------------------------------------------------------- main results

  /**
   In every run: running jobs never exceed the semaphore, and outside its mutex a job has a result exactly when it is
   done and an error exactly when it failed.
   */
  lemma RecordsAreConsistent(run: seq<State>, steps: seq<Step>, at: nat, id: nat)
    requires IsRun(run, steps) && at < |run| && id < |run[at].jobs|
    ensures RunningJobs(run[at].jobs) <= run[at].capacity
    ensures var j := run[at].jobs[id];
            !j.pc.Recording? ==> (j.result <==> j.state.Done?) && (j.error <==> j.state.Failed?)
  {
    RunKeepsInv(run, steps, at);
    assert JobInv(run[at].jobs[id], run[at].now);
  }

  /**
   In every run, for every single output, whichever piece failed: it is closed at most once; a failed job has none left
   open; an output of a done job is open until its clean-up gets to it, which is not before the job's retention time has
   passed, and never if retention is unlimited; and a clean-up that has finished has closed each output exactly once.
   */
  lemma OutputsAreAccountedFor(run: seq<State>, steps: seq<Step>, at: nat, id: nat, i: nat)
    requires IsRun(run, steps) && at < |run| && id < |run[at].jobs| && i < |run[at].jobs[id].outputs|
    ensures var j := run[at].jobs[id]; var o := j.outputs[i];
            && o.closes <= 1
            && (j.state.Failed? ==> o.closes == 1)
            && (j.state.Done? && o.closes == 1 ==>
                  j.ttl >= 0 && o.closedAt.Some? && j.doneAt.Some? && o.closedAt.value >= j.doneAt.value + j.ttl)
            && (j.state.Done? && j.ttl < 0 ==> o.closes == 0)
            && (j.cleaner.Finished? ==> o.closes == 1)
  {
    RunKeepsInv(run, steps, at);
    assert JobInv(run[at].jobs[id], run[at].now);
  }

  /** The steps the clean-up of a done job still has to make. */
  function CleanUpLeft(j: Job): nat {
    match j.cleaner
    case NotStarted => |j.outputs| + 3
    case Sleeping(_) => |j.outputs| + 2
    case Closing(next) => if next <= |j.outputs| then |j.outputs| - next + 1 else 0
    case Finished => 0
  }

  /** The step a clean-up makes next. */
  function CleanUpStep(j: Job, id: nat): Step {
    if j.cleaner.Sleeping? then WakeUp(id) else CleanUp(id)
  }

  /**
   A done job that let go of its slot and may expire has a clean-up. Once its time has come the clean-up can always go
   on, each of its steps brings it one step closer to its end, and no other step sets it back.
   */
  lemma CleanUpGoesOn(s: State, step: Step, id: nat)
    requires Inv(s) && Enabled(s, step) && id < |s.jobs|
    requires s.jobs[id].state.Done? && s.jobs[id].pc.Gone? && s.jobs[id].ttl >= 0
    ensures var j, k := s.jobs[id], Apply(s, step).jobs[id];
            && !j.cleaner.NotStarted?
            && (!j.cleaner.Finished? && (j.cleaner.Sleeping? ==> j.cleaner.due <= s.now) ==>
                  Enabled(s, CleanUpStep(j, id)))
            && k.state.Done? && k.pc.Gone?
            && (j.cleaner.Sleeping? && step != WakeUp(id) ==> k.cleaner == j.cleaner)
            && CleanUpLeft(k) == CleanUpLeft(j) - (if step == CleanUpStep(j, id) then 1 else 0)
            && (CleanUpLeft(j) == 0 <==> j.cleaner.Finished?)
  {
    hide RunningJobs;
    assert JobInv(s.jobs[id], s.now);
  }

  /** What is closed is never closed again, and done and failed are final. */
  lemma OutcomesAreFinal(s: State, step: Step, id: nat, i: nat)
    requires Inv(s) && Enabled(s, step) && id < |s.jobs| && i < |s.jobs[id].outputs|
    ensures var j, k := s.jobs[id], Apply(s, step).jobs[id];
            && i < |k.outputs|
            && (j.outputs[i].closes == 1 ==> k.outputs[i] == j.outputs[i])
            && (j.state.Done? || j.state.Failed? ==>
                  k.state == j.state && |k.outputs| == |j.outputs| && k.doneAt == j.doneAt)
  {
    hide RunningJobs;
    assert JobInv(s.jobs[id], s.now);
  }

  // ---------------------------------------------------------------- what the caller asked for

  /** This step made the job, asked to keep its outputs for so many seconds. */
  ghost predicate MadeBy(run: seq<State>, steps: seq<Step>, made: nat, id: nat, retentionSeconds: int) {
    made < |steps| < |run| && steps[made] == Create(retentionSeconds) && id == |run[made].jobs|
  }

  /** A job keeps the retention time it was made with. */
  lemma {:induction false} RetentionStays(run: seq<State>, steps: seq<Step>, made: nat, at: nat, id: nat, r: int)
    requires IsRun(run, steps) && MadeBy(run, steps, made, id, r) && made < at < |run|
    ensures run[at].defaultTTL == run[0].defaultTTL && id < |run[at].jobs|
    ensures run[at].jobs[id].ttl == EffectiveTTL(r, run[0].defaultTTL)
    decreases at
  {
    hide EffectiveTTL;
    DefaultStays(run, steps, made);
    DefaultStays(run, steps, at);
    assert Next(run[at - 1], run[at], steps[at - 1]);
    if made < at - 1 {
      RetentionStays(run, steps, made, at - 1, id, r);
    }
  }

  lemma {:induction false} DefaultStays(run: seq<State>, steps: seq<Step>, at: nat)
    requires IsRun(run, steps) && at < |run|
    ensures run[at].defaultTTL == run[0].defaultTTL
  {
    if at > 0 {
      DefaultStays(run, steps, at - 1);
      assert Next(run[at - 1], run[at], steps[at - 1]);
    }
  }

  /**
   For a job that was asked to keep its outputs for r seconds, at every later moment: an output of the done job is
   closed only when that time has passed since the job was done, or the default time for r = 0; with a negative r none
   ever is.
   */
  lemma RetentionIsKept(run: seq<State>, steps: seq<Step>, made: nat, at: nat, id: nat, r: int, i: nat)
    requires IsRun(run, steps) && MadeBy(run, steps, made, id, r) && made < at < |run|
    requires id < |run[at].jobs| && i < |run[at].jobs[id].outputs| && run[at].jobs[id].state.Done?
    ensures var j, o := run[at].jobs[id], run[at].jobs[id].outputs[i];
            && j.doneAt.Some? && (o.closes > 0 ==> r >= 0 && o.closedAt.Some?)
            && (r > 0 && o.closes > 0 ==> o.closedAt.value - j.doneAt.value >= r * 1_000_000_000)
            && (r == 0 && o.closes > 0 ==> o.closedAt.value - j.doneAt.value >= run[0].defaultTTL >= 0)
  {
    RetentionStays(run, steps, made, at, id, r);
    OutputsAreAccountedFor(run, steps, at, id, i);
    RunKeepsInv(run, steps, at);
    assert JobInv(run[at].jobs[id], run[at].now);
  }

  /** The clean-up of such a job is scheduled for exactly that time, or not at all. */
  lemma CleanUpIsScheduled(run: seq<State>, steps: seq<Step>, made: nat, at: nat, id: nat, r: int)
    requires IsRun(run, steps) && MadeBy(run, steps, made, id, r) && made < at < |steps| && steps[at] == Schedule(id)
    ensures id < |run[at + 1].jobs|
    ensures run[at + 1].jobs[id].cleaner ==
              if r > 0 then Sleeping(run[at].now + r * 1_000_000_000)
              else if r == 0 && run[0].defaultTTL >= 0 then Sleeping(run[at].now + run[0].defaultTTL)
              else NotStarted
  {
    RetentionStays(run, steps, made, at, id, r);
    RunKeepsInv(run, steps, at);
    assert Next(run[at], run[at + 1], steps[at]);
    assert JobInv(run[at].jobs[id], run[at].now);
  }

  // ---------------------------------------------------------------- what the action did

  /** ffmpeg failed, or a piece could not be delivered. */
  predicate ActionFailed(past: seq<Step>, id: nat) {
    EncodingFails(id) in past || DeliveryFails(id) in past
  }

  /** How far the job's goroutine is tells how its action went so far. */
  ghost predicate ActionKnown(j: Job, past: seq<Step>, id: nat) {
    var p := j.pc;
    && (p.Queued? || p.Starting? || p.Encoding? ==>
          !ActionFailed(past, id) && (forall pieces :: Produce(id, pieces) !in past) && j.outputs == [])
    && (p.Delivering? ==>
          !ActionFailed(past, id) && forall pieces :: Produce(id, pieces) in past ==> |j.outputs| + p.left == pieces)
    && (p.Unwinding? || p == Returning(false) || p == Recording(false) || j.state.Failed? ==> ActionFailed(past, id))
    && (p == Returning(true) || p == Recording(true) || j.state.Done? ==>
          !ActionFailed(past, id) && forall pieces :: Produce(id, pieces) in past ==> |j.outputs| == pieces)
  }

  /** No step has been about a job that does not exist yet. */
  predicate Concerns(step: Step, id: nat) {
    !step.Tick? && !step.Create? && step.id == id
  }

  ghost predicate AllKnown(s: State, past: seq<Step>) {
    && (forall id :: 0 <= id < |s.jobs| ==> ActionKnown(s.jobs[id], past, id))
    && (forall i :: 0 <= i < |past| && !past[i].Tick? && !past[i].Create? ==> past[i].id < |s.jobs|)
  }

  lemma ActionStaysKnown(s: State, past: seq<Step>, step: Step, id: nat)
    requires Inv(s) && AllKnown(s, past) && Enabled(s, step) && id < |s.jobs| && Concerns(step, id)
    ensures ActionKnown(Advance(s.jobs[id], step, s.now), past + [step], id)
  {
    hide RunningJobs, OutputsInv, CleanerInv;
    assert JobInv(s.jobs[id], s.now) && ActionKnown(s.jobs[id], past, id);
  }

  lemma OtherActionsStayKnown(s: State, past: seq<Step>, step: Step, id: nat)
    requires AllKnown(s, past) && Enabled(s, step) && id < |Apply(s, step).jobs| && !Concerns(step, id)
    ensures ActionKnown(Apply(s, step).jobs[id], past + [step], id)
  {
    if id < |s.jobs| {
      assert ActionKnown(s.jobs[id], past, id);
    }
  }

  lemma AllStayKnown(s: State, past: seq<Step>, step: Step)
    requires Inv(s) && AllKnown(s, past) && Enabled(s, step)
    ensures AllKnown(Apply(s, step), past + [step])
  {
    hide ActionKnown, Inv;
    var t := Apply(s, step);
    forall id | 0 <= id < |t.jobs|
      ensures ActionKnown(t.jobs[id], past + [step], id)
    {
      if Concerns(step, id) {
        ActionStaysKnown(s, past, step, id);
      } else {
        OtherActionsStayKnown(s, past, step, id);
      }
    }
  }

  lemma {:induction false} RunKeepsKnown(run: seq<State>, steps: seq<Step>, at: nat)
    requires IsRun(run, steps) && at < |run|
    ensures AllKnown(run[at], steps[..at])
  {
    hide Apply, Enabled, Inv, AllKnown;
    if at == 0 {
      NothingKnown(run[0]) by {
        assert run[0].jobs == [];
      }
    } else {
      RunKeepsKnown(run, steps, at - 1);
      RunKeepsInv(run, steps, at - 1);
      assert Next(run[at - 1], run[at], steps[at - 1]);
      assert steps[..at] == steps[..at - 1] + [steps[at - 1]];
      AllStayKnown(run[at - 1], steps[..at - 1], steps[at - 1]);
    }
  }

  lemma NothingKnown(s: State)
    requires s.jobs == []
    ensures AllKnown(s, [])
  {
  }

  /**
   In every run a job that is done has had no failure and holds as many outputs as ffmpeg produced pieces, and a job
   that has failed has had one.
   */
  lemma OutcomeIsTheActions(run: seq<State>, steps: seq<Step>, at: nat, id: nat, pieces: nat)
    requires IsRun(run, steps) && at < |run| && id < |run[at].jobs|
    ensures var j, past := run[at].jobs[id], steps[..at];
            && (j.state.Done? ==> EncodingFails(id) !in past && DeliveryFails(id) !in past)
            && (j.state.Done? && Produce(id, pieces) in past ==> |j.outputs| == pieces)
            && (j.state.Failed? ==> EncodingFails(id) in past || DeliveryFails(id) in past)
  {
    RunKeepsKnown(run, steps, at);
    assert ActionKnown(run[at].jobs[id], steps[..at], id);
  }
}
