/** Every step of the recompute worker pool keeps its invariant. */
module RecomputeInvariant {
  import opened GoText
  import opened Entities
  import opened Paging
  import opened RecomputePool

  // ---------------------------------------------------------------- tallies

  lemma {:induction false} TallySplit(a: seq<Doc>, b: seq<Doc>, p: seq<Stage>, q: seq<Stage>, from: nat)
    requires |a| == |p| && |b| == |q|
    ensures Tally(a + b, p + q, from) == Tally(a, p, from) + Tally(b, q, from)
  {
    hide Progress;
    if a == [] {
      assert a + b == b && p + q == q;
    } else {
      TallySplit(a[1..], b, p[1..], q, from);
      assert (a + b)[1..] == a[1..] + b && (p + q)[1..] == p[1..] + q;
      assert (a + b)[0] == a[0] && (p + q)[0] == p[0];
    }
  }

  lemma TallyOne(d: Doc, stage: Stage, from: nat)
    ensures Tally([d], [stage], from) == if Progress(stage) >= from then multiset{d.imageId} else multiset{}
  {
    assert [d][1..] == [] && [stage][1..] == [];
  }

  lemma TallyStart(started: seq<Doc>, stages: seq<Stage>, d: Doc, from: nat)
    requires |started| == |stages| && from >= 1
    ensures Tally(started + [d], stages + [Working], from) == Tally(started, stages, from)
  {
    TallySplit(started, [d], stages, [Working], from);
    TallyOne(d, Working, from);
  }

  /** A worker that advances joins exactly the tallies whose mark it passes. */
  lemma TallyAdvance(started: seq<Doc>, stages: seq<Stage>, k: nat, stage: Stage, from: nat)
    requires |started| == |stages| && k < |stages| && Progress(stages[k]) <= Progress(stage)
    ensures Tally(started, stages[k := stage], from) ==
            Tally(started, stages, from)
            + if Progress(stages[k]) < from <= Progress(stage) then multiset{started[k].imageId} else multiset{}
  {
    hide Tally;
    var a, b := started[..k], started[k + 1..];
    var p, q := stages[..k], stages[k + 1..];
    assert started == a + ([started[k]] + b);
    assert stages == p + ([stages[k]] + q);
    assert stages[k := stage] == p + ([stage] + q);
    TallyAround(a, started[k], b, p, stages[k], q, from);
    TallyAround(a, started[k], b, p, stage, q, from);
    TallyOne(started[k], stages[k], from);
    TallyOne(started[k], stage, from);
  }

  lemma TallyAround(a: seq<Doc>, d: Doc, b: seq<Doc>, p: seq<Stage>, stage: Stage, q: seq<Stage>, from: nat)
    requires |a| == |p| && |b| == |q|
    ensures Tally(a + ([d] + b), p + ([stage] + q), from)
            == Tally(a, p, from) + Tally([d], [stage], from) + Tally(b, q, from)
  {
    hide Tally;
    TallySplit(a, [d] + b, p, [stage] + q, from);
    TallySplit([d], b, [stage], q, from);
  }

  lemma {:induction false} TallyBound(started: seq<Doc>, stages: seq<Stage>, from: nat)
    requires |started| == |stages|
    ensures |Tally(started, stages, from)| <= |started|
  {
    if started != [] {
      TallyBound(started[1..], stages[1..], from);
    }
  }

  function IdsOf(docs: seq<Doc>): seq<Id> {
    seq(|docs|, i requires 0 <= i < |docs| => docs[i].imageId)
  }

  lemma IdsOfHead(docs: seq<Doc>)
    requires docs != []
    ensures multiset(IdsOf(docs)) == multiset{docs[0].imageId} + multiset(IdsOf(docs[1..]))
  {
    assert IdsOf(docs) == [docs[0].imageId] + IdsOf(docs[1..]);
  }

  lemma {:induction false} FullTally(started: seq<Doc>, stages: seq<Stage>, from: nat)
    requires |started| == |stages|
    requires forall k :: 0 <= k < |stages| ==> Progress(stages[k]) >= from
    ensures Tally(started, stages, from) == multiset(IdsOf(started))
    ensures |Tally(started, stages, from)| == |started|
  {
    if started != [] {
      FullTally(started[1..], stages[1..], from);
      IdsOfHead(started);
    } else {
      assert IdsOf(started) == [];
    }
  }

  // ---------------------------------------------------------------- every step keeps the invariant

  lemma SpawnKeepsTallies(s: State)
    requires s.pc.Spawning? && |s.started| == |s.stages|
    ensures var t := Apply(s, Spawn);
            forall from :: 1 <= from <= 5 ==> Tally(t.started, t.stages, from) == Tally(s.started, s.stages, from)
  {
    forall from: nat | 1 <= from <= 5
      ensures Tally(s.started + [s.pc.item], s.stages + [Working], from) == Tally(s.started, s.stages, from)
    {
      TallyStart(s.started, s.stages, s.pc.item, from);
    }
  }

  predicate IsWorkerStep(step: Step) {
    step.WorkEnds? || step.LogError? || step.Record? || step.Release? || step.Leave?
  }

  /** The stage a worker step leads to. */
  function NextStage(step: Step): Stage
    requires IsWorkerStep(step)
  {
    match step
    case WorkEnds(_, ok) => if ok then Recording else Failing
    case LogError(_) => Recording
    case Record(_) => Releasing
    case Release(_) => Leaving
    case Leave(_) => Gone
  }

  /** What a worker step does to the tallies that the invariant speaks of. */
  lemma WorkerTallies(s: State, step: Step)
    requires IsWorkerStep(step) && Enabled(s, step) && |s.started| == |s.stages|
    ensures step.k < |s.stages| && Progress(s.stages[step.k]) < Progress(NextStage(step))
    ensures var t := Apply(s, step);
            && t.started == s.started && t.stages == s.stages[step.k := NextStage(step)]
            && forall from :: 1 <= from <= 5 ==>
                 Tally(t.started, t.stages, from) == Tally(s.started, s.stages, from)
                   + if Progress(s.stages[step.k]) < from <= Progress(NextStage(step))
                     then multiset{s.started[step.k].imageId} else multiset{}
  {
    forall from: nat | 1 <= from <= 5
      ensures Tally(s.started, s.stages[step.k := NextStage(step)], from) == Tally(s.started, s.stages, from)
                   + if Progress(s.stages[step.k]) < from <= Progress(NextStage(step))
                     then multiset{s.started[step.k].imageId} else multiset{}
    {
      TallyAdvance(s.started, s.stages, step.k, NextStage(step), from);
    }
  }

  lemma BookkeepingKept(s: State, step: Step)
    requires Inv(s) && Enabled(s, step)
    ensures Bookkeeping(Apply(s, step))
  {
    hide Tally, Reporting, Walking, IsPage, Reported;
    TallyBound(s.started, s.stages, 4);
    TallyBound(s.started, s.stages, 5);
    if step.Spawn? {
      SpawnKeepsTallies(s);
    } else if IsWorkerStep(step) {
      WorkerTallies(s, step);
    }
  }

  lemma ReportedAppend(errors: seq<JobError>, e: JobError)
    ensures Reported(errors + [e])
            == Reported(errors) + (match e.objectId case Some(id) => multiset{id} case None => multiset{})
    ensures PagingErrors(errors + [e]) == PagingErrors(errors) + (if e.objectId.None? then 1 else 0)
  {
    assert (errors + [e])[..|errors|] == errors;
  }

  lemma Int32Step(n: nat)
    ensures Int32(Int32(n) + 1) == Int32(n + 1)
  {
  }

  /** How the job record and the tallies of reporting and recording workers may change together. */
  lemma ReportingFollows(s: State, t: State, reported: multiset<Id>, errors: multiset<Id>, recorded: multiset<Id>)
    requires Reporting(s) && |t.started| == |t.stages| && t.job.state == s.job.state && errors <= reported
    requires Tally(t.started, t.stages, 2) == Tally(s.started, s.stages, 2) + reported
    requires Tally(t.started, t.stages, 3) == Tally(s.started, s.stages, 3) + recorded
    requires Reported(t.job.errors) == Reported(s.job.errors) + errors
             && PagingErrors(t.job.errors) == PagingErrors(s.job.errors)
    requires multiset(t.job.processedIds) == multiset(s.job.processedIds) + recorded
    requires t.job.processed == Int32(|t.job.processedIds|)
    ensures Reporting(t)
  {
    hide Tally, Reported, PagingErrors, Int32;
  }

  lemma ReportingKeptByWorker(s: State, step: Step)
    requires Inv(s) && Enabled(s, step) && IsWorkerStep(step)
    ensures Reporting(Apply(s, step))
  {
    hide Tally, Walking, Bookkeeping, Reported, PagingErrors, Int32;
    WorkerTallies(s, step);
    var x := s.started[step.k].imageId;
    var none: multiset<Id> := multiset{};
    ReportedAppend(s.job.errors, JobError(Some(x)));
    Int32Step(|s.job.processedIds|);
    match step
    case WorkEnds(_, ok) => ReportingFollows(s, Apply(s, step), if ok then multiset{x} else none, none, none);
    case LogError(_) => ReportingFollows(s, Apply(s, step), multiset{x}, multiset{x}, none);
    case Record(_) => ReportingFollows(s, Apply(s, step), none, none, multiset{x});
    case Release(_) => ReportingFollows(s, Apply(s, step), none, none, none);
    case Leave(_) => ReportingFollows(s, Apply(s, step), none, none, none);
    case _ =>
  }

  lemma ReportingKept(s: State, step: Step)
    requires Inv(s) && Enabled(s, step)
    ensures Reporting(Apply(s, step))
  {
    hide Tally, Walking, Bookkeeping, IsPage, Reported, PagingErrors, Int32;
    if IsWorkerStep(step) {
      ReportingKeptByWorker(s, step);
    } else if step.Spawn? {
      SpawnKeepsTallies(s);
    } else if step.FetchFails? {
      ReportedAppend(s.job.errors, JobError(None));
    }
  }

  lemma HitsById(docs: set<Doc>, after: Option<int>, hits: seq<Doc>)
    requires DistinctRanks(ImageIdAsc, docs) && IsHits(docs, ImageIdAsc, after, hits)
    ensures Ascending(hits)
    ensures forall i :: 0 <= i < |hits| ==> hits[i].imageId in Ids(docs) && After(after, hits[i].imageId)
    ensures forall id :: id in Ids(docs) && After(after, id) ==> Holds(hits, id)
  {
    HitsAreDistinct(docs, ImageIdAsc, after, hits);
    EligibleOrder(docs, ImageIdAsc, after, hits);
    forall i, j | 0 <= i < j < |hits|
      ensures hits[i].imageId < hits[j].imageId
    {
      assert Rank(ImageIdAsc, hits[i]) <= Rank(ImageIdAsc, hits[j]) && hits[i] != hits[j];
    }
    forall id | id in Ids(docs) && After(after, id)
      ensures Holds(hits, id)
    {
      var d :| d in docs && d.imageId == id;
      assert d in hits;
    }
  }

  /** A page fits behind what was fetched before: ascending, new, and no matching document is passed over. */
  lemma PageExtends(docs: set<Doc>, after: Option<int>, page: seq<Doc>)
    requires DistinctRanks(ImageIdAsc, docs) && IsPage(docs, ImageIdAsc, after, PAGE_SIZE, page)
    ensures Ascending(page) && |page| <= PAGE_SIZE
    ensures forall i :: 0 <= i < |page| ==> page[i].imageId in Ids(docs) && After(after, page[i].imageId)
    ensures forall id ::
              id in Ids(docs) && After(after, id) && (|page| < PAGE_SIZE || !After(NextKey(ImageIdAsc, page), id)) ==>
                Holds(page, id)
  {
    var hits: seq<Doc> :| IsHits(docs, ImageIdAsc, after, hits) && page == Cut(PAGE_SIZE, hits);
    HitsById(docs, after, hits);
    hide Rank, IsHits, DistinctRanks, Ids, Holds;
    CutAscends(hits);
    forall id | id in Ids(docs) && After(after, id) && (|page| < PAGE_SIZE || !After(NextKey(ImageIdAsc, page), id))
      ensures Holds(page, id)
    {
      PageCovers(hits, page, id);
    }
  }

  lemma CutAscends(hits: seq<Doc>)
    requires Ascending(hits)
    ensures var page := Cut(PAGE_SIZE, hits);
            Ascending(page) && |page| <= PAGE_SIZE && forall i :: 0 <= i < |page| ==> page[i] == hits[i]
  {
  }

  lemma PageCovers(hits: seq<Doc>, page: seq<Doc>, id: Id)
    requires Ascending(hits) && Holds(hits, id) && page == Cut(PAGE_SIZE, hits)
    requires |page| < PAGE_SIZE || !After(NextKey(ImageIdAsc, page), id)
    ensures Holds(page, id)
  {
    hide Holds, Ascending, Cut, NextKey;
    if page != [] {
      KeyOfLast(page);
    }
    CutHolds(hits, id);
  }

  lemma CutHolds(hits: seq<Doc>, id: Id)
    requires Ascending(hits) && Holds(hits, id)
    requires var page := Cut(PAGE_SIZE, hits); |page| < PAGE_SIZE || id <= page[|page| - 1].imageId
    ensures Holds(Cut(PAGE_SIZE, hits), id)
  {
    var page := Cut(PAGE_SIZE, hits);
    var i: int :| 0 <= i < |hits| && hits[i].imageId == id;
    assert page[i].imageId == id;
  }

  lemma KeyOfLast(page: seq<Doc>)
    requires page != []
    ensures NextKey(ImageIdAsc, page) == Some(page[|page| - 1].imageId)
  {
  }

  lemma HoldsInFront(docs: seq<Doc>, more: seq<Doc>, id: Id)
    ensures Holds(docs, id) || Holds(more, id) ==> Holds(docs + more, id)
  {
    if Holds(docs, id) {
      var i: int :| 0 <= i < |docs| && docs[i].imageId == id;
      assert (docs + more)[i].imageId == id;
    } else if Holds(more, id) {
      var i: int :| 0 <= i < |more| && more[i].imageId == id;
      assert (docs + more)[|docs| + i].imageId == id;
    }
  }

  /** What was fetched, behind it a page of later ids: still ascending, still nothing beyond the new cursor. */
  lemma FetchedExtends(s: State, t: State, page: seq<Doc>)
    requires Walking(s) && Fetched(t) == Fetched(s) + page && t.universe == s.universe
    requires Ascending(page)
    requires forall i :: 0 <= i < |page| ==> page[i].imageId in s.universe && After(s.cursor, page[i].imageId)
    requires t.cursor == if page == [] then s.cursor else Some(page[|page| - 1].imageId)
    ensures Ascending(Fetched(t))
    ensures forall i :: 0 <= i < |Fetched(t)| ==>
              Fetched(t)[i].imageId in t.universe && !After(t.cursor, Fetched(t)[i].imageId)
  {
    hide Fetched, Exhausted, Holds;
    var n := |Fetched(s)|;
    assert forall i :: 0 <= i < |Fetched(t)| ==> Fetched(t)[i] == if i < n then Fetched(s)[i] else page[i - n];
  }

  /** Every document that matched all queries so far has been fetched, if the cursor is past it. */
  lemma SteadyAreFetched(s: State, docs: set<Doc>, page: seq<Doc>, id: Id)
    requires Walking(s) && Enabled(s, FetchPage(docs, page))
    requires var t := Apply(s, FetchPage(docs, page)); id in t.steady && (Exhausted(t) || !After(t.cursor, id))
    ensures Holds(Fetched(s) + page, id)
  {
    hide IsPage, DistinctRanks, Ascending, Fetched, Holds;
    PageExtends(docs, s.cursor, page);
    if page != [] {
      KeyOfLast(page);
    }
    HoldsInFront(Fetched(s), page, id);
  }

  lemma WalkingKeptByFetch(s: State, docs: set<Doc>, page: seq<Doc>)
    requires Walking(s) && Enabled(s, FetchPage(docs, page))
    ensures Walking(Apply(s, FetchPage(docs, page)))
  {
    hide IsPage, DistinctRanks, Ascending, Holds, Exhausted, NextKey;
    PageExtends(docs, s.cursor, page);
    var t := Apply(s, FetchPage(docs, page));
    assert Fetched(t) == Fetched(s) + page;
    hide Fetched;
    if page != [] {
      KeyOfLast(page);
    }
    FetchedExtends(s, t, page);
    forall id | id in t.steady && (Exhausted(t) || !After(t.cursor, id))
      ensures Holds(Fetched(t), id)
    {
      SteadyAreFetched(s, docs, page, id);
    }
  }

  lemma WalkingKept(s: State, step: Step)
    requires Inv(s) && Enabled(s, step)
    ensures Walking(Apply(s, step))
  {
    hide Bookkeeping, Reporting, IsPage;
    var t := Apply(s, step);
    if step.FetchPage? {
      WalkingKeptByFetch(s, step.docs, step.page);
    } else {
      assert Fetched(t) == Fetched(s) by { hide Walking; }
      assert Exhausted(t) ==> Exhausted(s) by { hide Walking; }
      SameWalk(s, t);
    }
  }

  lemma SameWalk(s: State, t: State)
    requires Walking(s) && Fetched(t) == Fetched(s) && (Exhausted(t) ==> Exhausted(s))
    requires t.cursor == s.cursor && t.universe == s.universe && t.steady == s.steady
    ensures Walking(t)
  {
  }

  lemma StepKeepsInv(s: State, step: Step)
    requires Inv(s) && Enabled(s, step)
    ensures Inv(Apply(s, step))
  {
    hide Tally, IsPage, Walking, Reporting;
    BookkeepingKept(s, step);
    ReportingKept(s, step);
    WalkingKept(s, step);
  }

  lemma InitHasInv(universe: set<Id>)
    ensures Inv(Init(universe))
  {
    InitWalks(universe);
    hide Walking;
  }

  lemma InitWalks(universe: set<Id>)
    ensures Walking(Init(universe))
  {
    hide Bookkeeping, Reporting, Phases;
    assert Fetched(Init(universe)) == [];
  }
}
