/** What holds at every moment of every interleaving of the recompute worker pool, and that each of them ends. */
module RecomputeRuns {
  import opened GoText
  import opened Entities
  import opened Paging
  import opened RecomputePool
  import opened RecomputeInvariant

  lemma {:induction false} RunKeepsInv(universe: set<Id>, run: seq<State>, at: nat)
    requires IsRun(universe, run) && at < |run|
    ensures Inv(run[at])
  {
    hide Inv, Enabled, Apply;
    if at == 0 {
      InitHasInv(universe);
    } else {
      RunKeepsInv(universe, run, at - 1);
      assert Next(run[at - 1], run[at]);
      var step :| Enabled(run[at - 1], step) && run[at] == Apply(run[at - 1], step);
      StepKeepsInv(run[at - 1], step);
    }
  }

  /** Workers that hold a semaphore slot. */
  function InFlight(s: State): nat
    requires |s.started| == |s.stages|
  {
    TallyBound(s.started, s.stages, 4);
    |s.started| - |Tally(s.started, s.stages, 4)|
  }

  /** The documents dispatched but not recorded yet. */
  function Unrecorded(started: seq<Doc>, stages: seq<Stage>): multiset<Id>
    requires |started| == |stages|
  {
    if started == [] then multiset{}
    else Unrecorded(started[1..], stages[1..])
         + (if Progress(stages[0]) < 3 then multiset{started[0].imageId} else multiset{})
  }

  lemma {:induction false} TallyComplement(started: seq<Doc>, stages: seq<Stage>)
    requires |started| == |stages|
    ensures multiset(IdsOf(started)) == Tally(started, stages, 3) + Unrecorded(started, stages)
  {
    if started != [] {
      TallyComplement(started[1..], stages[1..]);
      IdsOfHead(started);
    } else {
      assert IdsOf(started) == [];
    }
  }

  lemma {:induction false} TallyWithin(started: seq<Doc>, stages: seq<Stage>, from: nat)
    requires |started| == |stages|
    ensures Tally(started, stages, from) <= multiset(IdsOf(started))
  {
    if started != [] {
      TallyWithin(started[1..], stages[1..], from);
      IdsOfHead(started);
    }
  }

  lemma {:induction false} NoRepeats(docs: seq<Doc>)
    requires Ascending(docs)
    ensures forall id :: multiset(IdsOf(docs))[id] <= 1
  {
    if docs == [] {
      assert IdsOf(docs) == [];
    } else {
      NoRepeats(docs[1..]);
      assert IdsOf(docs) == [docs[0].imageId] + IdsOf(docs[1..]);
      assert forall i :: 0 <= i < |IdsOf(docs[1..])| ==> IdsOf(docs[1..])[i] == docs[i + 1].imageId;
    }
  }

  /**
   At every moment of every run: what was dispatched is what was recorded plus what is still under way; at most four
   workers hold a slot; the counter shows the number of recorded documents; no document is dispatched twice, and none
   has two errors.
   */
  lemma Conservation(universe: set<Id>, run: seq<State>, at: nat)
    requires IsRun(universe, run) && at < |run|
    ensures var s := run[at];
            && |s.started| == |s.stages|
            && multiset(IdsOf(s.started)) == multiset(s.job.processedIds) + Unrecorded(s.started, s.stages)
            && InFlight(s) <= MAX_WORKERS
            && s.job.processed == Int32(|s.job.processedIds|)
            && Ascending(Fetched(s))
            && Reported(s.job.errors) <= multiset(IdsOf(s.started))
            && forall id :: multiset(IdsOf(s.started))[id] <= 1 && Reported(s.job.errors)[id] <= 1
  {
    hide Tally, Unrecorded, Reported, PagingErrors, Int32, IdsOf;
    RunKeepsInv(universe, run, at);
    var s := run[at];
    TallyComplement(s.started, s.stages);
    TallyWithin(s.started, s.stages, 2);
    TallyBound(s.started, s.stages, 4);
    assert Ascending(s.started) by {
      assert forall i :: 0 <= i < |s.started| ==> Fetched(s)[i] == s.started[i];
    }
    NoRepeats(s.started);
  }

  /**
   A finished job is final: nothing is in flight, the recorded ids are a permutation of everything fetched, which
   includes every document that matched all the queries, and nothing but the idle dispatcher remains.
   */
  lemma DoneIsComplete(universe: set<Id>, run: seq<State>, at: nat)
    requires IsRun(universe, run) && at < |run| && run[at].job.state.Done?
    ensures var s := run[at];
            && Terminated(s) && s.wg == 0 && s.sem == 0
            && multiset(s.job.processedIds) == multiset(IdsOf(Fetched(s)))
            && (forall id :: id in s.steady ==> id in s.job.processedIds)
            && PagingErrors(s.job.errors) == 0
  {
    hide Tally, Reported, PagingErrors, Int32;
    RunKeepsInv(universe, run, at);
    var s := run[at];
    AllGone(s);
    FullTally(s.started, s.stages, 3);
    FullTally(s.started, s.stages, 4);
    assert Fetched(s) == s.started;
    forall id | id in s.steady
      ensures id in s.job.processedIds
    {
      var i :| 0 <= i < |s.started| && s.started[i].imageId == id;
      assert IdsOf(s.started)[i] == id;
      assert id in multiset(IdsOf(s.started));
    }
  }

  lemma AllGone(s: State)
    requires Bookkeeping(s) && s.wg == 0
    ensures forall k :: 0 <= k < |s.stages| ==> s.stages[k].Gone?
  {
    forall k | 0 <= k < |s.stages|
      ensures s.stages[k].Gone?
    {
      if !s.stages[k].Gone? {
        OneMissing(s.started, s.stages, 5, k);
      }
    }
  }

  lemma {:induction false} OneMissing(started: seq<Doc>, stages: seq<Stage>, from: nat, k: nat)
    requires |started| == |stages| && k < |stages| && Progress(stages[k]) < from
    ensures |Tally(started, stages, from)| < |started|
  {
    if k == 0 {
      TallyBound(started[1..], stages[1..], from);
    } else {
      OneMissing(started[1..], stages[1..], from, k - 1);
    }
  }

  /** Done and Failed are final, and a finished job's record never changes again. */
  lemma FinalStatesAreAbsorbing(universe: set<Id>, run: seq<State>, at: nat, step: Step)
    requires IsRun(universe, run) && at < |run| && Enabled(run[at], step)
    requires run[at].job.state.Done? || run[at].job.state.Failed?
    ensures Apply(run[at], step).job.state == run[at].job.state
    ensures !run[at].job.state.Done?
  {
    hide Tally, Reported, PagingErrors, Int32, IsPage;
    RunKeepsInv(universe, run, at);
    if run[at].job.state.Done? {
      DoneIsComplete(universe, run, at);
    }
  }

  // ---------------------------------------------------------------- errors

  lemma ScheduleIsRun(universe: set<Id>, schedule: seq<Step>, run: seq<State>)
    requires IsSchedule(universe, schedule, run)
    ensures IsRun(universe, run)
  {
    forall i | 0 <= i < |run| - 1
      ensures Next(run[i], run[i + 1])
    {
      assert Enabled(run[i], schedule[i]) && run[i + 1] == Apply(run[i], schedule[i]);
    }
  }

  /** How far a worker's end is known: not before it ended, and a worker about to report has failed. */
  ghost predicate EndsKnown(s: State, past: seq<Step>) {
    && |s.started| == |s.stages|
    && (forall k: nat, ok :: WorkEnds(k, ok) in past ==> k < |s.stages| && !s.stages[k].Working?)
    && (forall k :: 0 <= k < |s.stages| && s.stages[k].Failing? ==> WorkEnds(k, false) in past)
  }

  lemma EndsStayKnown(s: State, past: seq<Step>, step: Step)
    requires EndsKnown(s, past) && Enabled(s, step)
    ensures EndsKnown(Apply(s, step), past + [step])
  {
    hide IsPage;
  }

  /** A step adds the failed document that its worker reports, and no other. */
  lemma FailedIdsStep(s: State, past: seq<Step>, step: Step)
    requires EndsKnown(s, past) && Enabled(s, step)
    ensures var t := Apply(s, step);
            && |t.started| == |t.stages|
            && FailedIds(t, past + [step])
            == FailedIds(s, past) + if step.LogError? then {s.started[step.k].imageId} else {}
  {
    hide IsPage;
    var t, ids := Apply(s, step), FailedIds(s, past);
    var more := if step.LogError? then {s.started[step.k].imageId} else {};
    forall k: nat | k < |t.started| && !t.stages[k].Working? && !t.stages[k].Failing?
      ensures WorkEnds(k, false) in past + [step] ==> t.started[k].imageId in ids + more
    {
      if k < |s.started| && WorkEnds(k, false) in past && !s.stages[k].Working? && !s.stages[k].Failing? {
        assert s.started[k].imageId in ids;
      }
    }
    forall k: nat | k < |s.started| && WorkEnds(k, false) in past && !s.stages[k].Working? && !s.stages[k].Failing?
      ensures s.started[k].imageId in FailedIds(t, past + [step])
    {
      assert t.started[k] == s.started[k] && !t.stages[k].Working? && !t.stages[k].Failing?;
    }
    if step.LogError? {
      assert t.started[step.k].imageId in FailedIds(t, past + [step]);
    }
  }

  /** A document about to be reported has not been reported. */
  lemma NotReportedYet(s: State, past: seq<Step>, k: nat)
    requires Inv(s) && k < |s.stages| && s.stages[k].Failing?
    ensures s.started[k].imageId !in FailedIds(s, past)
  {
    hide Bookkeeping, Tally, Reported;
    forall i | 0 <= i < |s.started| && i != k
      ensures s.started[i].imageId != s.started[k].imageId
    {
      assert Fetched(s)[i] == s.started[i] && Fetched(s)[k] == s.started[k];
    }
  }

  /** What a step does to the errors reported for documents. */
  lemma ReportedStep(s: State, step: Step)
    requires Enabled(s, step)
    ensures Reported(Apply(s, step).job.errors) == Reported(s.job.errors)
              + if step.LogError? then multiset{s.started[step.k].imageId} else multiset{}
  {
    hide IsPage, DistinctRanks, NextKey, Reported, Int32;
    ReportedAppend(s.job.errors, JobError(None));
    if step.LogError? {
      ReportedAppend(s.job.errors, JobError(Some(s.started[step.k].imageId)));
    } else {
      assert Apply(s, step).job.errors == s.job.errors || step.FetchFails?;
    }
  }

  /**
   In every schedule the documents with an error are exactly those whose recompute failed and whose worker has gone on
   since, each with one error.
   */
  lemma {:induction false} ErrorsAreTheFailures(universe: set<Id>, schedule: seq<Step>, run: seq<State>, at: nat)
    requires IsSchedule(universe, schedule, run) && at <= |schedule|
    ensures EndsKnown(run[at], schedule[..at])
    ensures Reported(run[at].job.errors) == multiset(FailedIds(run[at], schedule[..at]))
  {
    hide Enabled, Apply, Inv, Reported, FailedIds, EndsKnown;
    if at == 0 {
      NoErrorsAtStart(universe);
    } else {
      var s, past, step := run[at - 1], schedule[..at - 1], schedule[at - 1];
      ErrorsAreTheFailures(universe, schedule, run, at - 1);
      ScheduleIsRun(universe, schedule, run);
      RunKeepsInv(universe, run, at - 1);
      assert schedule[..at] == past + [step];
      EndsStayKnown(s, past, step);
      FailedIdsStep(s, past, step);
      ReportedStep(s, step);
      if step.LogError? {
        AtWorker(s, step);
        NotReportedYet(s, past, step.k);
      }
    }
  }

  lemma NoErrorsAtStart(universe: set<Id>)
    ensures EndsKnown(Init(universe), [])
    ensures Reported(Init(universe).job.errors) == multiset(FailedIds(Init(universe), []))
  {
  }

  lemma AtWorker(s: State, step: Step)
    requires Enabled(s, step) && step.LogError?
    ensures step.k < |s.stages| && s.stages[step.k].Failing?
  {
  }

  // ---------------------------------------------------------------- progress

  /** The next move of a worker that is not gone. */
  function WorkerMove(k: nat, stage: Stage): Step
    requires !stage.Gone?
  {
    match stage
    case Working => WorkEnds(k, true)
    case Failing => LogError(k)
    case Recording => Record(k)
    case Releasing => Release(k)
    case Leaving => Leave(k)
  }

  /** A worker that is not gone can always move: its slot and its place in the wait group are still counted. */
  lemma WorkerCanMove(s: State, k: nat)
    requires Inv(s) && k < |s.stages| && !s.stages[k].Gone?
    ensures Enabled(s, WorkerMove(k, s.stages[k]))
  {
    hide Walking, Reporting;
    if Progress(s.stages[k]) < 4 {
      OneMissing(s.started, s.stages, 4, k);
    }
    OneMissing(s.started, s.stages, 5, k);
  }

  lemma NoHitsPage(after: Option<int>)
    ensures IsPage({}, ImageIdAsc, after, PAGE_SIZE, [])
  {
    var none: seq<Doc> := [];
    assert Eligible({}, ImageIdAsc, after) == {};
    assert IsHits({}, ImageIdAsc, after, none);
    assert none == Cut(PAGE_SIZE, none);
  }

  lemma AllSlotsFree(s: State)
    requires Bookkeeping(s) && forall k :: 0 <= k < |s.stages| ==> s.stages[k].Gone?
    ensures s.wg == 0 && s.sem == if s.pc.Spawning? then 1 else 0
  {
    hide Tally, IdsOf;
    FullTally(s.started, s.stages, 4);
    FullTally(s.started, s.stages, 5);
  }

  /** With every worker gone, all slots are free and nobody is waited for, so the dispatcher can move. */
  lemma DispatcherCanMove(s: State) returns (step: Step)
    requires Bookkeeping(s) && !s.pc.Over? && forall k :: 0 <= k < |s.stages| ==> s.stages[k].Gone?
    ensures Enabled(s, step)
  {
    hide IsPage, Bookkeeping;
    AllSlotsFree(s);
    NoHitsPage(s.cursor);
    step := match s.pc
      case Starting => Start
      case Fetching => FetchPage({}, [])
      case Feeding(rest, _) => if rest == [] then PageDone else Acquire
      case Spawning(_, _, _) => Spawn
      case _ => Finish;
  }

  /** No deadlock: as long as the dispatcher or a worker is not finished, somebody can move. */
  lemma SomebodyCanMove(s: State) returns (step: Step)
    requires Inv(s) && !Terminated(s)
    ensures Enabled(s, step)
  {
    hide Walking, Reporting, Bookkeeping, Enabled;
    if k: nat :| k < |s.stages| && !s.stages[k].Gone? {
      step := WorkerMove(k, s.stages[k]);
      WorkerCanMove(s, k);
    } else {
      step := DispatcherCanMove(s);
    }
  }

  // ---------------------------------------------------------------- termination

  /** The documents still ahead of the cursor. */
  function Ahead(s: State): set<Id> {
    set id | id in s.universe && After(s.cursor, id)
  }

  function StagesLeft(stages: seq<Stage>): nat {
    if stages == [] then 0 else 5 - Progress(stages[0]) + StagesLeft(stages[1..])
  }

  function DispatcherLeft(pc: Dispatcher): nat {
    match pc
    case Starting => 3
    case Fetching => 2
    case Feeding(rest, _) => 3 + 7 * |rest|
    case Spawning(_, rest, _) => 3 + 7 * |rest| + 6
    case Waiting => 1
    case Over => 0
  }

  /** Documents left to fetch, documents left to dispatch, and stages left to the workers, weighted. */
  function Measure(s: State): nat {
    9 * |Ahead(s)| + DispatcherLeft(s.pc) + StagesLeft(s.stages)
  }

  lemma {:induction false} StagesLeftSplit(p: seq<Stage>, q: seq<Stage>)
    ensures StagesLeft(p + q) == StagesLeft(p) + StagesLeft(q)
  {
    if p == [] {
      assert p + q == q;
    } else {
      StagesLeftSplit(p[1..], q);
      assert (p + q)[1..] == p[1..] + q;
    }
  }

  lemma StagesLeftAdvance(stages: seq<Stage>, k: nat, stage: Stage)
    requires k < |stages| && Progress(stages[k]) < Progress(stage)
    ensures StagesLeft(stages[k := stage]) < StagesLeft(stages)
  {
    var p, q := stages[..k], stages[k + 1..];
    assert stages == p + ([stages[k]] + q);
    assert stages[k := stage] == p + ([stage] + q);
    StagesLeftSplit(p, [stages[k]] + q);
    StagesLeftSplit(p, [stage] + q);
    assert ([stages[k]] + q)[1..] == q && ([stage] + q)[1..] == q;
  }

  /** The ids of a page as a set. */
  function IdSet(docs: seq<Doc>): set<Id> {
    set i | 0 <= i < |docs| :: docs[i].imageId
  }

  lemma IdSetHead(docs: seq<Doc>)
    requires docs != []
    ensures IdSet(docs) == {docs[0].imageId} + IdSet(docs[1..])
  {
    forall id | id in IdSet(docs[1..])
      ensures id in IdSet(docs)
    {
      var i: int :| 0 <= i < |docs[1..]| && docs[1..][i].imageId == id;
      assert docs[i + 1].imageId == id;
    }
    forall id | id in IdSet(docs)
      ensures id == docs[0].imageId || id in IdSet(docs[1..])
    {
      var i: int :| 0 <= i < |docs| && docs[i].imageId == id;
      assert i == 0 || docs[1..][i - 1].imageId == id;
    }
  }

  lemma {:induction false} AscendingIds(docs: seq<Doc>)
    requires Ascending(docs)
    ensures |IdSet(docs)| == |docs|
  {
    if docs != [] {
      AscendingIds(docs[1..]);
      IdSetHead(docs);
      assert docs[0].imageId !in IdSet(docs[1..]);
    }
  }

  /** A page takes its documents out of what is ahead. */
  lemma FetchShrinksAhead(s: State, docs: set<Doc>, page: seq<Doc>)
    requires Enabled(s, FetchPage(docs, page)) && page != []
    ensures |Ahead(Apply(s, FetchPage(docs, page)))| + |page| <= |Ahead(s)|
  {
    hide IsPage, DistinctRanks;
    PageExtends(docs, s.cursor, page);
    AscendingIds(page);
    KeyOfLast(page);
    var t := Apply(s, FetchPage(docs, page));
    var ids := IdSet(page);
    assert ids <= Ahead(s) && Ahead(t) <= Ahead(s) && ids !! Ahead(t);
    assert Ahead(t) + ids <= Ahead(s);
    SubsetSize(Ahead(t) + ids, Ahead(s));
  }

  lemma SameAhead(s: State, t: State)
    requires t.universe == s.universe && t.cursor == s.cursor
    ensures Ahead(t) == Ahead(s)
  {
  }

  lemma OneStageMore(stages: seq<Stage>)
    ensures StagesLeft(stages + [Working]) == StagesLeft(stages) + 5
  {
    StagesLeftSplit(stages, [Working]);
    assert [Working][1..] == [];
  }

  lemma StepDecreasesMeasure(s: State, step: Step)
    requires Inv(s) && Enabled(s, step)
    ensures Measure(Apply(s, step)) < Measure(s)
  {
    hide Walking, Reporting, Bookkeeping, IsPage, DistinctRanks, Ahead, StagesLeft, NextKey;
    var t := Apply(s, step);
    if step.FetchPage? && step.page != [] {
      FetchShrinksAhead(s, step.docs, step.page);
    } else {
      SameAhead(s, t);
      if IsWorkerStep(step) {
        StagesLeftAdvance(s.stages, step.k, NextStage(step));
      } else {
        OneStageMore(s.stages);
      }
    }
  }

  lemma {:induction false} RunIsShort(universe: set<Id>, run: seq<State>, at: nat)
    requires IsRun(universe, run) && at < |run|
    ensures at + Measure(run[at]) <= 9 * |universe| + 3
  {
    hide Inv, Measure, Enabled, Apply;
    if at == 0 {
      InitialMeasure(universe);
    } else {
      RunIsShort(universe, run, at - 1);
      RunKeepsInv(universe, run, at - 1);
      assert Next(run[at - 1], run[at]);
      var step :| Enabled(run[at - 1], step) && run[at] == Apply(run[at - 1], step);
      StepDecreasesMeasure(run[at - 1], step);
    }
  }

  lemma InitialMeasure(universe: set<Id>)
    ensures Measure(Init(universe)) == 9 * |universe| + 3
  {
    assert Ahead(Init(universe)) == universe;
  }

  /**
   Every schedule ends, after at most 9n + 3 steps for n documents, and a schedule that cannot be continued has left the
   job Done or Failed, every dispatched document recorded, every slot free, and nobody waiting.
   */
  lemma EveryScheduleEnds(universe: set<Id>, run: seq<State>)
    requires IsRun(universe, run)
    ensures |run| <= 9 * |universe| + 4
    ensures var s := run[|run| - 1];
            (forall step :: !Enabled(s, step)) ==>
              && (s.job.state.Done? || s.job.state.Failed?)
              && multiset(s.job.processedIds) == multiset(IdsOf(s.started))
              && s.sem == 0 && s.wg == 0
  {
    hide Tally, Reported, PagingErrors, Int32, Enabled, Walking, Measure;
    var last := |run| - 1;
    RunIsShort(universe, run, last);
    RunKeepsInv(universe, run, last);
    var s := run[last];
    if forall step :: !Enabled(s, step) {
      if !Terminated(s) {
        var step := SomebodyCanMove(s);
        assert false;
      }
      FullTally(s.started, s.stages, 3);
      FullTally(s.started, s.stages, 4);
      FullTally(s.started, s.stages, 5);
    }
  }

  /** The documents whose recompute failed. */
  function FailedInAll(started: seq<Doc>, schedule: seq<Step>): set<Id> {
    set k: nat | k < |started| && WorkEnds(k, false) in schedule :: started[k].imageId
  }

  /** When nothing can move any more, exactly the documents whose recompute failed have an error, one each. */
  lemma ErrorsAtTheEnd(universe: set<Id>, schedule: seq<Step>, run: seq<State>)
    requires IsSchedule(universe, schedule, run) && forall step :: !Enabled(run[|schedule|], step)
    ensures var s := run[|schedule|];
            && |s.started| == |s.stages| && FailedIds(s, schedule) == FailedInAll(s.started, schedule)
            && Reported(s.job.errors) == multiset(FailedInAll(s.started, schedule))
  {
    hide Reported, Enabled, Walking, Reporting;
    var last := |schedule|;
    ScheduleIsRun(universe, schedule, run);
    RunKeepsInv(universe, run, last);
    ErrorsAreTheFailures(universe, schedule, run, last);
    assert schedule[..last] == schedule;
    var s := run[last];
    if !Terminated(s) {
      var step := SomebodyCanMove(s);
      assert false;
    }
    assert forall k :: 0 <= k < |s.stages| ==> s.stages[k].Gone?;
  }
}
