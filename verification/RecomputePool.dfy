/**
 The recompute worker pool: one dispatcher pages through the index and starts a worker per document, at most
 MAX_WORKERS at a time; dispatcher and workers share a semaphore, a wait group and the job record behind its mutex.
 A transition is one action between two synchronisations of one of them, so a run is an interleaving.
 */
module RecomputePool {
  import opened GoText
  import opened Entities
  import opened Paging

  const MAX_WORKERS := 4
  const PAGE_SIZE := 50
  const INT32_SPAN := 0x1_0000_0000
  const INT32_MAX := 0x7FFF_FFFF

  datatype JobState = Pending | Running | Done | Failed

  /** A failed query is reported without an object. */
  datatype JobError = JobError(objectId: Option<Id>)

  datatype Job = Job(state: JobState, processed: int, processedIds: seq<Id>, errors: seq<JobError>)

  /** A number as an int32 counter shows it. */
  function Int32(n: int): int {
    var r := n % INT32_SPAN;
    if r > INT32_MAX then r - INT32_SPAN else r
  }

  function WithState(j: Job, state: JobState): Job {
    j.(state := state)
  }

  function WithError(j: Job, e: JobError): Job {
    j.(errors := j.errors + [e])
  }

  function WithProcessed(j: Job, id: Id): Job {
    j.(processed := Int32(j.processed + 1), processedIds := j.processedIds + [id])
  }

  // ---------------------------------------------------------------- the transition system

  /** Where the dispatcher is. `short` tells that the page at hand is the last one. */
  datatype Dispatcher =
    | Starting
    | Fetching
    | Feeding(rest: seq<Doc>, short: bool)
    | Spawning(item: Doc, rest: seq<Doc>, short: bool)
    | Waiting
    | Over

  /**
   A worker recomputes, reports a failure if there is one, records its document, gives its semaphore slot back,
   and leaves the wait group.
   */
  datatype Stage = Working | Failing | Recording | Releasing | Leaving | Gone

  function Progress(s: Stage): (p: nat)
    ensures p <= 5
  {
    match s
    case Working => 0
    case Failing => 1
    case Recording => 2
    case Releasing => 3
    case Leaving => 4
    case Gone => 5
  }

  /**
   universe: the ids the index holds during the job; steady: those that matched every query so far;
   started[i] is the document of worker i, stages[i] how far it got.
   */
  datatype State = State(
    pc: Dispatcher,
    cursor: Option<int>,
    sem: nat,
    wg: nat,
    job: Job,
    started: seq<Doc>,
    stages: seq<Stage>,
    universe: set<Id>,
    steady: set<Id>)

  function Init(universe: set<Id>): State {
    State(Starting, None, 0, 0, Job(Pending, 0, [], []), [], [], universe, universe)
  }

  datatype Step =
    | Start
    | FetchPage(docs: set<Doc>, page: seq<Doc>)
    | FetchFails
    | Acquire
    | Spawn
    | PageDone
    | Finish
    | WorkEnds(k: nat, ok: bool)
    | LogError(k: nat)
    | Record(k: nat)
    | Release(k: nat)
    | Leave(k: nat)

  function Ids(docs: set<Doc>): set<Id> {
    set d | d in docs :: d.imageId
  }

  predicate At(s: State, k: nat, stage: Stage) {
    k < |s.stages| && k < |s.started| && s.stages[k] == stage
  }

  ghost predicate Enabled(s: State, step: Step) {
    match step
    case Start => s.pc.Starting?
    case FetchPage(docs, page) =>
      && s.pc.Fetching?
      && Ids(docs) <= s.universe && DistinctRanks(ImageIdAsc, docs)
      && IsPage(docs, ImageIdAsc, s.cursor, PAGE_SIZE, page)
    case FetchFails => s.pc.Fetching?
    case Acquire => s.pc.Feeding? && s.pc.rest != [] && s.sem < MAX_WORKERS
    case Spawn => s.pc.Spawning?
    case PageDone => s.pc.Feeding? && s.pc.rest == []
    case Finish => s.pc.Waiting? && s.wg == 0
    case WorkEnds(k, _) => At(s, k, Working)
    case LogError(k) => At(s, k, Failing)
    case Record(k) => At(s, k, Recording)
    case Release(k) => At(s, k, Releasing) && s.sem > 0
    case Leave(k) => At(s, k, Leaving) && s.wg > 0
  }

  ghost function Apply(s: State, step: Step): State
    requires Enabled(s, step)
  {
    match step
    case Start => s.(pc := Fetching, job := WithState(s.job, Running))
    case FetchPage(docs, page) =>
      var t := s.(steady := s.steady * Ids(docs));
      if page == [] then t.(pc := Waiting)
      else t.(pc := Feeding(page, |page| < PAGE_SIZE), cursor := NextKey(ImageIdAsc, page))
    case FetchFails => s.(pc := Over, job := WithError(WithState(s.job, Failed), JobError(None)))
    case Acquire => s.(pc := Spawning(s.pc.rest[0], s.pc.rest[1..], s.pc.short), sem := s.sem + 1)
    case Spawn =>
      s.(pc := Feeding(s.pc.rest, s.pc.short), wg := s.wg + 1,
         started := s.started + [s.pc.item], stages := s.stages + [Working])
    case PageDone => s.(pc := if s.pc.short then Waiting else Fetching)
    case Finish => s.(pc := Over, job := WithState(s.job, Done))
    case WorkEnds(k, ok) => s.(stages := s.stages[k := if ok then Recording else Failing])
    case LogError(k) => s.(stages := s.stages[k := Recording],
                           job := WithError(s.job, JobError(Some(s.started[k].imageId))))
    case Record(k) => s.(stages := s.stages[k := Releasing], job := WithProcessed(s.job, s.started[k].imageId))
    case Release(k) => s.(stages := s.stages[k := Leaving], sem := s.sem - 1)
    case Leave(k) => s.(stages := s.stages[k := Gone], wg := s.wg - 1)
  }

  /** Nobody is left to act. */
  predicate Terminated(s: State) {
    s.pc.Over? && forall k :: 0 <= k < |s.stages| ==> s.stages[k].Gone?
  }

  // ---------------------------------------------------------------- the invariant

  /** The documents whose worker has come at least this far. */
  function Tally(started: seq<Doc>, stages: seq<Stage>, from: nat): multiset<Id>
    requires |started| == |stages|
  {
    if started == [] then multiset{}
    else
      Tally(started[1..], stages[1..], from)
      + (if Progress(stages[0]) >= from then multiset{started[0].imageId} else multiset{})
  }

  /** The documents an unfinished page still has to offer. */
  function Unstarted(pc: Dispatcher): seq<Doc> {
    match pc
    case Feeding(rest, _) => rest
    case Spawning(item, rest, _) => [item] + rest
    case _ => []
  }

  /** Everything fetched so far, in order. */
  function Fetched(s: State): seq<Doc> {
    s.started + Unstarted(s.pc)
  }

  /** The errors reported for documents. */
  function Reported(errors: seq<JobError>): multiset<Id> {
    if errors == [] then multiset{}
    else Reported(errors[..|errors| - 1])
         + (match errors[|errors| - 1].objectId case Some(id) => multiset{id} case None => multiset{})
  }

  function PagingErrors(errors: seq<JobError>): nat {
    if errors == [] then 0
    else PagingErrors(errors[..|errors| - 1]) + (if errors[|errors| - 1].objectId.None? then 1 else 0)
  }

  predicate Exhausted(s: State) {
    match s.pc
    case Feeding(_, short) => short
    case Spawning(_, _, short) => short
    case Waiting => true
    case Over => s.job.state.Done?
    case _ => false
  }

  predicate Bookkeeping(s: State) {
    && |s.started| == |s.stages|
    && s.sem == |s.started| - |Tally(s.started, s.stages, 4)| + (if s.pc.Spawning? then 1 else 0)
    && s.sem <= MAX_WORKERS
    && s.wg == |s.started| - |Tally(s.started, s.stages, 5)|
  }

  predicate Reporting(s: State) {
    && |s.started| == |s.stages|
    && multiset(s.job.processedIds) == Tally(s.started, s.stages, 3)
    && s.job.processed == Int32(|s.job.processedIds|)
    && Reported(s.job.errors) <= Tally(s.started, s.stages, 2)
    && PagingErrors(s.job.errors) == if s.job.state.Failed? then 1 else 0
  }

  predicate Phases(s: State) {
    match s.pc
    case Starting => s.job.state.Pending? && s.started == []
    case Over => s.job.state.Done? || s.job.state.Failed?
    case _ => s.job.state.Running?
  }

  predicate Ascending(docs: seq<Doc>) {
    forall i, j :: 0 <= i < j < |docs| ==> docs[i].imageId < docs[j].imageId
  }

  predicate Walking(s: State) {
    && Ascending(Fetched(s))
    && (forall i :: 0 <= i < |Fetched(s)| ==>
          Fetched(s)[i].imageId in s.universe && !After(s.cursor, Fetched(s)[i].imageId))
    && s.steady <= s.universe
    && (forall id :: id in s.steady && (Exhausted(s) || !After(s.cursor, id)) ==> Holds(Fetched(s), id))
  }

  predicate Holds(docs: seq<Doc>, id: Id) {
    exists i :: 0 <= i < |docs| && docs[i].imageId == id
  }

  predicate Inv(s: State) {
    && Bookkeeping(s) && Reporting(s) && Phases(s) && Walking(s)
    && (s.job.state.Done? ==> s.wg == 0)
  }

  // ---------------------------------------------------------------- runs

  ghost predicate Next(s: State, t: State) {
    exists step :: Enabled(s, step) && t == Apply(s, step)
  }

  /** Any interleaving, from the moment the job is created. */
  ghost predicate IsRun(universe: set<Id>, run: seq<State>) {
    && run != [] && run[0] == Init(universe)
    && forall i :: 0 <= i < |run| - 1 ==> Next(run[i], run[i + 1])
  }

  /** The states an interleaving goes through, step by step. */
  ghost predicate IsSchedule(universe: set<Id>, schedule: seq<Step>, run: seq<State>) {
    && |run| == |schedule| + 1 && run[0] == Init(universe)
    && forall i :: 0 <= i < |schedule| ==> Enabled(run[i], schedule[i]) && run[i + 1] == Apply(run[i], schedule[i])
  }

  /** The documents whose recompute failed, and whose worker has gone on to record them. */
  ghost function FailedIds(s: State, schedule: seq<Step>): set<Id>
    requires |s.started| == |s.stages|
  {
    set k: nat | k < |s.started| && WorkEnds(k, false) in schedule && !s.stages[k].Working? && !s.stages[k].Failing?
      :: s.started[k].imageId
  }
}
