/**
 Any number of goroutines using one lazy S3 handle at once. A transition is one access to shared state: the unlocked
 look at the field, taking the mutex, the once-only call, the final look. Memory is sequentially consistent here.
 */
module HandleRace {
  import opened GoText

  type Path = nat

  /** What a caller wants: the object's path, for which it must be uploaded, or its bytes, which must be downloaded. */
  datatype Goal = WantPath | WantData

  datatype Pc =
    | Checking
    | Locking
    | Once
    | Rechecking(locked: bool)
    | Returned(path: Option<Path>, ok: bool)
    | Panicked

  datatype Caller = Caller(goal: Goal, pc: Pc)

  /** How a handle was made: around local data, or for an object already in the bucket (whose path may be empty). */
  datatype Origin = FromLocal | FromPath(at: Option<Path>)

  datatype State = State(
    origin: Origin,
    hasData: bool,
    path: Option<Path>,
    once: bool,
    locked: bool,
    uploads: nat,
    downloads: nat,
    callers: seq<Caller>)

  predicate IsInit(s: State) {
    && s.hasData == s.origin.FromLocal?
    && s.path == (if s.origin.FromPath? then s.origin.at else None)
    && !s.once && !s.locked && s.uploads == 0 && s.downloads == 0
    && forall i :: 0 <= i < |s.callers| ==> s.callers[i].pc == Checking
  }

  predicate Ready(s: State, goal: Goal) {
    if goal.WantPath? then s.path.Some? else s.hasData
  }

  /** The function a caller would call was only set by the other constructor. */
  predicate Missing(s: State, goal: Goal) {
    if goal.WantPath? then s.origin.FromPath? else s.origin.FromLocal?
  }

  function Move(s: State, i: nat, pc: Pc): State
    requires i < |s.callers|
  {
    s.(callers := s.callers[i := s.callers[i].(pc := pc)])
  }

  function Enabled(s: State, i: nat): bool {
    i < |s.callers|
    && match s.callers[i].pc
       case Locking => !s.locked
       case Returned(_, _) => false
       case Panicked => false
       case _ => true
  }

  /** One step of caller i; made is the new object's path if it has to upload, arrives tells whether a call succeeds. */
  function Step(s: State, i: nat, made: Path, arrives: bool): State
    requires Enabled(s, i)
  {
    var goal := s.callers[i].goal;
    match s.callers[i].pc
    case Checking => Move(s, i, if Ready(s, goal) then Rechecking(false) else Locking)
    case Locking => Move(s, i, Once).(locked := true)
    case Once =>
      if s.once then Move(s, i, Rechecking(true))
      else if Missing(s, goal) then Move(s, i, Panicked).(once := true, locked := false)
      else if goal.WantPath? then
        var t := s.(once := true, uploads := s.uploads + 1, path := if arrives then Some(made) else None);
        if arrives then Move(t, i, Rechecking(true)) else Move(t, i, Returned(None, false)).(locked := false)
      else
        var t := s.(once := true, downloads := s.downloads + 1, hasData := arrives);
        if arrives then Move(t, i, Rechecking(true)) else Move(t, i, Returned(None, false)).(locked := false)
    case Rechecking(locked) =>
      Move(s, i, Returned(s.path, Ready(s, goal))).(locked := if locked then false else s.locked)
  }

  ghost predicate Next(s: State, t: State) {
    exists i, made, arrives :: Enabled(s, i) && t == Step(s, i, made, arrives)
  }

  predicate Critical(pc: Pc) {
    pc.Once? || (pc.Rechecking? && pc.locked)
  }

  /** The mutex protects the once-only call; a handle only ever makes the call its constructor set up. */
  predicate Inv(s: State) {
    && (s.origin.FromLocal? ==> s.hasData && s.downloads == 0 && s.uploads == (if s.once then 1 else 0))
    && (s.origin.FromLocal? && !s.once ==> s.path.None?)
    && (s.origin.FromPath? ==> s.path == s.origin.at && s.uploads == 0)
    && (s.origin.FromPath? && s.path.Some? ==> s.downloads == (if s.once then 1 else 0))
    && (s.origin.FromPath? && s.path.None? ==> s.downloads <= 1)
    && (s.origin.FromPath? && !s.once ==> !s.hasData && s.downloads == 0)
    && (s.locked <==> exists i :: 0 <= i < |s.callers| && Critical(s.callers[i].pc))
    && (forall i, j :: 0 <= i < j < |s.callers| ==> !(Critical(s.callers[i].pc) && Critical(s.callers[j].pc)))
    && (forall i :: 0 <= i < |s.callers| ==> CallerInv(s, s.callers[i]))
  }

  /** What a caller can have found missing: never local data, never a path that was given. */
  predicate NotThere(o: Origin, goal: Goal) {
    match o
    case FromLocal => goal.WantPath?
    case FromPath(at) => at.Some? ==> goal.WantData?
  }

  predicate CallerInv(s: State, c: Caller) {
    && (c.pc.Locking? || c.pc.Once? ==> NotThere(s.origin, c.goal))
    && (c.pc.Rechecking? ==> if c.pc.locked then s.once else Ready(s, c.goal))
    && (c.pc.Returned? && c.pc.ok && c.goal.WantPath? ==> c.pc.path.Some? && c.pc.path == s.path)
    && (c.pc.Returned? && c.pc.ok ==> Ready(s, c.goal))
    && (c.pc.Returned? && !c.pc.ok ==> s.once && !Ready(s, c.goal))
    && (c.pc.Panicked? ==> s.origin == FromPath(None) && c.goal.WantPath?)
  }

  lemma InitHasInv(s: State)
    requires IsInit(s)
    ensures Inv(s)
  {
  }

  /** The shared fields after a step, and how far they can have changed. */
  lemma SharedStep(s: State, i: nat, made: Path, arrives: bool)
    requires Inv(s) && Enabled(s, i)
    ensures var t := Step(s, i, made, arrives);
            && t.origin == s.origin && |t.callers| == |s.callers|
            && t.callers == s.callers[i := t.callers[i]] && t.callers[i].goal == s.callers[i].goal
            && (s.path.Some? ==> t.path == s.path) && (s.hasData ==> t.hasData)
            && (t.origin.FromLocal? ==> t.hasData && t.downloads == 0 && t.uploads == (if t.once then 1 else 0))
            && (t.origin.FromLocal? && !t.once ==> t.path.None?)
            && (t.origin.FromPath? ==> t.path == t.origin.at && t.uploads == 0)
            && (t.origin.FromPath? && t.path.Some? ==> t.downloads == (if t.once then 1 else 0))
            && (t.origin.FromPath? && t.path.None? ==> t.downloads <= 1)
            && (t.origin.FromPath? && !t.once ==> !t.hasData && t.downloads == 0)
  {
    assert CallerInv(s, s.callers[i]);
  }

  lemma MutexStep(s: State, i: nat, made: Path, arrives: bool)
    requires Inv(s) && Enabled(s, i)
    ensures var t := Step(s, i, made, arrives);
            && (t.locked <==> exists k :: 0 <= k < |t.callers| && Critical(t.callers[k].pc))
            && (forall k, j :: 0 <= k < j < |t.callers| ==> !(Critical(t.callers[k].pc) && Critical(t.callers[j].pc)))
  {
    hide CallerInv;
    var t := Step(s, i, made, arrives);
    assert forall k :: 0 <= k < |t.callers| && k != i ==> t.callers[k] == s.callers[k];
    if Critical(t.callers[i].pc) {
      assert t.locked;
    } else if Critical(s.callers[i].pc) {
      assert !t.locked;
    } else {
      assert t.locked == s.locked;
      if s.locked {
        var k :| 0 <= k < |s.callers| && Critical(s.callers[k].pc);
        assert Critical(t.callers[k].pc);
      }
    }
  }

  lemma CallerStep(s: State, i: nat, made: Path, arrives: bool)
    requires Inv(s) && Enabled(s, i)
    ensures CallerInv(Step(s, i, made, arrives), Step(s, i, made, arrives).callers[i])
  {
    assert CallerInv(s, s.callers[i]);
  }

  lemma OtherCallers(s: State, i: nat, made: Path, arrives: bool, k: nat)
    requires Inv(s) && Enabled(s, i) && k < |s.callers| && k != i
    ensures CallerInv(Step(s, i, made, arrives), Step(s, i, made, arrives).callers[k])
  {
    SharedStep(s, i, made, arrives);
    assert CallerInv(s, s.callers[k]);
  }

  lemma StepKeepsInv(s: State, i: nat, made: Path, arrives: bool)
    requires Inv(s) && Enabled(s, i)
    ensures Inv(Step(s, i, made, arrives))
  {
    hide CallerInv, Step;
    SharedStep(s, i, made, arrives);
    MutexStep(s, i, made, arrives);
    CallerStep(s, i, made, arrives);
    var t := Step(s, i, made, arrives);
    forall k | 0 <= k < |t.callers|
      ensures CallerInv(t, t.callers[k])
    {
      if k != i {
        OtherCallers(s, i, made, arrives, k);
      }
    }
  }

  ghost predicate IsRun(run: seq<State>) {
    run != [] && IsInit(run[0]) && forall i :: 0 <= i < |run| - 1 ==> Next(run[i], run[i + 1])
  }

  lemma {:induction false} RunKeepsInv(run: seq<State>, at: nat)
    requires IsRun(run) && at < |run|
    ensures Inv(run[at]) && run[at].origin == run[0].origin
  {
    hide Inv, Step, IsInit;
    if at == 0 {
      InitHasInv(run[0]);
    } else {
      RunKeepsInv(run, at - 1);
      assert Next(run[at - 1], run[at]);
      var i, made, arrives :| Enabled(run[at - 1], i) && run[at] == Step(run[at - 1], i, made, arrives);
      StepKeepsInv(run[at - 1], i, made, arrives);
      SharedStep(run[at - 1], i, made, arrives);
    }
  }

  predicate GotPath(c: Caller) {
    c.goal.WantPath? && c.pc.Returned? && c.pc.ok
  }

  /**
   However many callers race: at most one upload or download is ever made, never both; a local handle never downloads, a
   handle for a path never uploads; every caller that got a path got the same one; and no caller runs into a function
   that is not there unless the handle was made for an empty path.
   */
  lemma OneTransferOnePath(run: seq<State>, at: nat, i: nat, j: nat)
    requires IsRun(run) && at < |run| && i < |run[at].callers| && j < |run[at].callers|
    ensures var s := run[at];
            && s.uploads + s.downloads <= 1
            && (s.origin.FromLocal? ==> s.downloads == 0) && (s.origin.FromPath? ==> s.uploads == 0)
            && (s.origin != FromPath(None) ==> !s.callers[i].pc.Panicked?)
    ensures GotPath(run[at].callers[i]) && GotPath(run[at].callers[j]) ==>
              run[at].callers[i].pc.path == run[at].callers[j].pc.path && run[at].callers[i].pc.path.Some?
  {
    RunKeepsInv(run, at);
    assert CallerInv(run[at], run[at].callers[i]) && CallerInv(run[at], run[at].callers[j]);
  }

  /**
   A caller that has returned has an answer exactly if the path, or the data, that it asked for is there; and the path
   it got is that one. So no caller is told of an error but for a transfer that failed.
   */
  lemma AnswerIffThere(run: seq<State>, at: nat, i: nat)
    requires IsRun(run) && at < |run| && i < |run[at].callers| && run[at].callers[i].pc.Returned?
    ensures var s, c := run[at], run[at].callers[i];
            match c.goal
            case WantPath => (c.pc.ok <==> s.path.Some?) && (c.pc.ok ==> c.pc.path == s.path)
            case WantData => c.pc.ok <==> s.hasData
  {
    RunKeepsInv(run, at);
    assert CallerInv(run[at], run[at].callers[i]);
  }

  /** The one transfer brings what is wanted exactly if it arrives: the new object's path, or the data. */
  lemma TransferBrings(s: State, i: nat, made: Path, arrives: bool)
    requires Inv(s) && Enabled(s, i) && s.callers[i].pc.Once? && !s.once
    requires s.callers[i].goal.WantPath? <==> s.origin.FromLocal?
    ensures var t := Step(s, i, made, arrives);
            if s.callers[i].goal.WantPath?
            then t.path == (if arrives then Some(made) else None) && t.uploads == s.uploads + 1
            else t.hasData == arrives && t.downloads == s.downloads + 1
  {
  }

  /** The handle's one attempt is over, and what this goal needs is not there. */
  predicate HasFailed(s: State, goal: Goal) {
    s.once && !Ready(s, goal)
  }

  lemma FailureStays(s: State, i: nat, made: Path, arrives: bool, goal: Goal)
    requires Inv(s) && Enabled(s, i) && HasFailed(s, goal)
    ensures var t := Step(s, i, made, arrives);
            HasFailed(t, goal) && t.uploads == s.uploads && t.downloads == s.downloads
  {
    assert CallerInv(s, s.callers[i]);
  }

  /**
   A failed transfer is final, over whole runs: from then on nothing is uploaded or downloaded, and no caller that needs
   what is missing ever succeeds.
   */
  lemma {:induction false} FailureIsFinal(run: seq<State>, failed: nat, at: nat, goal: Goal)
    requires IsRun(run) && failed <= at < |run| && HasFailed(run[failed], goal)
    ensures HasFailed(run[at], goal)
    ensures run[at].uploads == run[failed].uploads && run[at].downloads == run[failed].downloads
    ensures forall c :: c in run[at].callers && c.goal == goal ==> !(c.pc.Returned? && c.pc.ok)
    decreases at
  {
    hide Step, IsInit;
    RunKeepsInv(run, at);
    if failed < at {
      FailureIsFinal(run, failed, at - 1, goal);
      RunKeepsInv(run, at - 1);
      assert Next(run[at - 1], run[at]);
      var i, made, arrives :| Enabled(run[at - 1], i) && run[at] == Step(run[at - 1], i, made, arrives);
      FailureStays(run[at - 1], i, made, arrives, goal);
    }
    forall c | c in run[at].callers && c.goal == goal
      ensures !(c.pc.Returned? && c.pc.ok)
    {
      assert CallerInv(run[at], c);
    }
  }

  /** Nobody waits forever: an unfinished caller can move, or the mutex holder can. */
  lemma NoDeadlock(s: State, i: nat) returns (k: nat)
    requires Inv(s) && i < |s.callers| && !s.callers[i].pc.Returned? && !s.callers[i].pc.Panicked?
    ensures Enabled(s, k)
  {
    if s.callers[i].pc.Locking? && s.locked {
      k :| 0 <= k < |s.callers| && Critical(s.callers[k].pc);
    } else {
      k := i;
    }
  }

  /** The steps a caller has left at most. */
  function StepsLeft(pc: Pc): nat {
    match pc
    case Checking => 4
    case Locking => 3
    case Once => 2
    case Rechecking(_) => 1
    case _ => 0
  }

  function AllStepsLeft(callers: seq<Caller>): nat {
    if callers == [] then 0 else AllStepsLeft(callers[..|callers| - 1]) + StepsLeft(callers[|callers| - 1].pc)
  }

  lemma {:induction false} StepsLeftUpdate(callers: seq<Caller>, i: nat, c: Caller)
    requires i < |callers|
    ensures AllStepsLeft(callers[i := c]) + StepsLeft(callers[i].pc) == AllStepsLeft(callers) + StepsLeft(c.pc)
  {
    var last := |callers| - 1;
    if i == last {
      assert callers[i := c][..last] == callers[..last];
    } else {
      StepsLeftUpdate(callers[..last], i, c);
      assert callers[i := c][..last] == callers[..last][i := c];
    }
  }

  lemma {:induction false} StepsLeftAtStart(callers: seq<Caller>)
    requires forall i :: 0 <= i < |callers| ==> callers[i].pc == Checking
    ensures AllStepsLeft(callers) == 4 * |callers|
  {
    if callers != [] {
      StepsLeftAtStart(callers[..|callers| - 1]);
    }
  }

  lemma StepLowers(s: State, i: nat, made: Path, arrives: bool)
    requires Enabled(s, i)
    ensures AllStepsLeft(Step(s, i, made, arrives).callers) < AllStepsLeft(s.callers)
  {
    hide AllStepsLeft;
    StepsLeftUpdate(s.callers, i, Step(s, i, made, arrives).callers[i]);
    assert s.callers[i := Step(s, i, made, arrives).callers[i]] == Step(s, i, made, arrives).callers;
  }

  lemma {:induction false} RunIsShort(run: seq<State>, at: nat)
    requires IsRun(run) && at < |run|
    ensures |run[at].callers| == |run[0].callers| && at + AllStepsLeft(run[at].callers) <= 4 * |run[0].callers|
  {
    hide Step, AllStepsLeft;
    if at == 0 {
      StepsLeftAtStart(run[0].callers);
    } else {
      RunIsShort(run, at - 1);
      assert Next(run[at - 1], run[at]);
      var i, made, arrives :| Enabled(run[at - 1], i) && run[at] == Step(run[at - 1], i, made, arrives);
      StepLowers(run[at - 1], i, made, arrives);
      RunKeepsInv(run, at - 1);
      SharedStep(run[at - 1], i, made, arrives);
    }
  }

  /**
   Every race of n callers ends after at most 4n steps, and then each of them has returned or run into the missing
   function.
   */
  lemma EveryRaceEnds(run: seq<State>)
    requires IsRun(run)
    ensures |run| <= 4 * |run[0].callers| + 1
    ensures var s := run[|run| - 1];
            (forall i :: !Enabled(s, i)) ==> forall i :: 0 <= i < |s.callers| ==>
              s.callers[i].pc.Returned? || s.callers[i].pc.Panicked?
  {
    hide Step, Inv, IsInit, AllStepsLeft;
    var last := |run| - 1;
    RunIsShort(run, last);
    RunKeepsInv(run, last);
    var s := run[last];
    if forall i :: !Enabled(s, i) {
      forall i | 0 <= i < |s.callers|
        ensures s.callers[i].pc.Returned? || s.callers[i].pc.Panicked?
      {
        if !(s.callers[i].pc.Returned? || s.callers[i].pc.Panicked?) {
          var k := NoDeadlock(s, i);
          assert false;
        }
      }
    }
  }

  function Goals(s: State): (goals: seq<Goal>)
    ensures |goals| == |s.callers|
  {
    seq(|s.callers|, i requires 0 <= i < |s.callers| => s.callers[i].goal)
  }

  lemma {:induction false} GoalsStay(run: seq<State>, at: nat)
    requires IsRun(run) && at < |run|
    ensures Goals(run[at]) == Goals(run[0])
  {
    hide Step, Inv, IsInit;
    if at > 0 {
      GoalsStay(run, at - 1);
      RunKeepsInv(run, at - 1);
      assert Next(run[at - 1], run[at]);
      var i, made, arrives :| Enabled(run[at - 1], i) && run[at] == Step(run[at - 1], i, made, arrives);
      SharedStep(run[at - 1], i, made, arrives);
    }
  }

  predicate HasPanicked(s: State) {
    exists c :: c in s.callers && c.pc.Panicked?
  }

  /** A race for these goals over a handle made so, at whose end some caller has run into the missing function. */
  ghost predicate Panics(origin: Origin, goals: seq<Goal>, run: seq<State>) {
    IsRun(run) && run[0].origin == origin && Goals(run[0]) == goals && HasPanicked(run[|run| - 1])
  }

  /** With an empty path, each caller that wants the path can be the one to reach the missing upload function. */
  lemma EmptyPathPanics(goals: seq<Goal>, i: nat) returns (run: seq<State>)
    requires i < |goals| && goals[i] == WantPath
    ensures Panics(FromPath(None), goals, run)
  {
    var callers := seq(|goals|, k requires 0 <= k < |goals| => Caller(goals[k], Checking));
    var s0 := State(FromPath(None), false, None, false, false, 0, 0, callers);
    var s1 := Step(s0, i, 0, true);
    var s2 := Step(s1, i, 0, true);
    var s3 := Step(s2, i, 0, true);
    assert Next(s0, s1) && Next(s1, s2) && Next(s2, s3);
    run := [s0, s1, s2, s3];
    assert s3.callers[i].pc.Panicked? && s3.callers[i] in s3.callers;
  }

  /**
   Some schedule runs into a missing function exactly if the handle was made for an empty path and somebody wants the
   path.
   */
  lemma PanicsIff(origin: Origin, goals: seq<Goal>)
    ensures (exists run :: Panics(origin, goals, run)) <==> origin == FromPath(None) && WantPath in goals
  {
    if origin == FromPath(None) && WantPath in goals {
      var i :| 0 <= i < |goals| && goals[i] == WantPath;
      var run := EmptyPathPanics(goals, i);
    }
    forall run | Panics(origin, goals, run)
      ensures origin == FromPath(None) && WantPath in goals
    {
      PanicNeedsEmptyPath(run);
    }
  }

  lemma PanicNeedsEmptyPath(run: seq<State>)
    requires IsRun(run) && HasPanicked(run[|run| - 1])
    ensures run[0].origin == FromPath(None) && WantPath in Goals(run[0])
  {
    hide IsInit;
    var last := run[|run| - 1];
    RunKeepsInv(run, |run| - 1);
    GoalsStay(run, |run| - 1);
    var i :| 0 <= i < |last.callers| && last.callers[i].pc.Panicked?;
    assert CallerInv(last, last.callers[i]);
    assert Goals(last)[i] == WantPath;
  }
}
