/** The recompute job, executed: the transitions of RecomputePool as methods over the variables they change. */
module RecomputeJob {
  import opened GoText
  import opened Entities
  import opened Paging
  import opened RecomputePool
  import opened RecomputeInvariant
  import opened RecomputeRuns

  /** The shared job record; each method is one critical section. */
  class RecomputeJobState {
    var state: JobState
    var processed: int
    var errors: seq<JobError>
    var processedIds: seq<Id>

    function View(): Job
      reads this
    {
      Job(state, processed, processedIds, errors)
    }

    constructor ()
      ensures View() == Job(Pending, 0, [], [])
    {
      state, processed, errors, processedIds := Pending, 0, [], [];
    }

    method MarkRunning()
      modifies this
      ensures View() == WithState(old(View()), Running)
    {
      state := Running;
    }

    method FailPaging()
      modifies this
      ensures View() == WithError(WithState(old(View()), Failed), JobError(None))
    {
      state := Failed;
      errors := errors + [JobError(None)];
    }

    method AppendError(id: Id)
      modifies this
      ensures View() == WithError(old(View()), JobError(Some(id)))
    {
      errors := errors + [JobError(Some(id))];
    }

    method RecordProcessed(id: Id)
      modifies this
      ensures View() == WithProcessed(old(View()), id)
    {
      processedIds := processedIds + [id];
      processed := Int32(processed + 1);
    }

    method MarkDone()
      modifies this
      ensures View() == WithState(old(View()), Done)
    {
      state := Done;
    }
  }

  /** The dispatcher's variables, the semaphore, the wait group, the workers, and the job record behind its mutex. */
  class Pool {
    var pc: Dispatcher
    var cursor: Option<int>
    var sem: nat
    var wg: nat
    const job: RecomputeJobState
    var started: seq<Doc>
    var stages: seq<Stage>
    ghost var universe: set<Id>
    ghost var steady: set<Id>

    ghost function View(): State
      reads this, job
    {
      State(pc, cursor, sem, wg, job.View(), started, stages, universe, steady)
    }

    constructor (ghost universe: set<Id>)
      ensures View() == Init(universe) && fresh(job)
    {
      var record := new RecomputeJobState();
      pc, cursor, sem, wg, job, started, stages := Starting, None, 0, 0, record, [], [];
      this.universe, this.steady := universe, universe;
    }

    /** A step of the dispatcher. */
    method Dispatch(step: Step)
      requires Enabled(View(), step) && !IsWorkerStep(step)
      modifies this, job
      ensures View() == Apply(old(View()), step)
    {
      match step
      case Start =>
        job.MarkRunning();
        pc := Fetching;
      case FetchPage(docs, page) =>
        steady := steady * Ids(docs);
        if page == [] {
          pc := Waiting;
        } else {
          pc, cursor := Feeding(page, |page| < PAGE_SIZE), NextKey(ImageIdAsc, page);
        }
      case FetchFails =>
        job.FailPaging();
        pc := Over;
      case Acquire =>
        pc, sem := Spawning(pc.rest[0], pc.rest[1..], pc.short), sem + 1;
      case Spawn =>
        started, stages, wg := started + [pc.item], stages + [Working], wg + 1;
        pc := Feeding(pc.rest, pc.short);
      case PageDone =>
        pc := if pc.short then Waiting else Fetching;
      case Finish =>
        job.MarkDone();
        pc := Over;
    }

    /** A step of a worker. */
    method Work(step: Step)
      requires Enabled(View(), step) && IsWorkerStep(step)
      modifies this, job
      ensures View() == Apply(old(View()), step)
    {
      match step
      case WorkEnds(k, ok) =>
        stages := stages[k := if ok then Recording else Failing];
      case LogError(k) =>
        job.AppendError(started[k].imageId);
        stages := stages[k := Recording];
      case Record(k) =>
        job.RecordProcessed(started[k].imageId);
        stages := stages[k := Releasing];
      case Release(k) =>
        stages, sem := stages[k := Leaving], sem - 1;
      case Leave(k) =>
        stages, wg := stages[k := Gone], wg - 1;
    }

    /**
     runJob under any schedule: run are the states it goes through. At every moment the documents with an error are
     exactly those whose recompute failed, once their worker has gone on, each with one error. However long the schedule
     could go on, it is short, and when nothing can move any more the job is Done or Failed, every dispatched document
     is recorded, and every document whose recompute failed has its error.
     */
    method RunJob(schedule: seq<Step>, ghost run: seq<State>)
      requires View() == Init(universe) && IsSchedule(universe, schedule, run)
      modifies this, job
      ensures View() == run[|schedule|] && universe == old(universe) && |schedule| <= 9 * |universe| + 3
      ensures |started| == |stages| && Reported(job.errors) == multiset(FailedIds(View(), schedule))
      ensures (forall step :: !Enabled(View(), step)) ==>
                && (job.state.Done? || job.state.Failed?)
                && multiset(job.processedIds) == multiset(IdsOf(started))
                && sem == 0 && wg == 0
                && FailedIds(View(), schedule) == FailedInAll(started, schedule)
    {
      hide Enabled, Apply, IsRun, FailedIds, FailedInAll;
      for i := 0 to |schedule|
        invariant View() == run[i] && universe == old(universe)
      {
        StepKeepsUniverse(run[i], schedule[i]);
        if IsWorkerStep(schedule[i]) {
          Work(schedule[i]);
        } else {
          Dispatch(schedule[i]);
        }
      }
      ScheduleIsRun(universe, schedule, run);
      EveryScheduleEnds(universe, run);
      ErrorsAreTheFailures(universe, schedule, run, |schedule|);
      assert schedule[..|schedule|] == schedule;
      if forall step :: !Enabled(View(), step) {
        ErrorsAtTheEnd(universe, schedule, run);
      }
    }
  }

  lemma StepKeepsUniverse(s: State, step: Step)
    requires Enabled(s, step)
    ensures Apply(s, step).universe == s.universe
  {
  }
}
