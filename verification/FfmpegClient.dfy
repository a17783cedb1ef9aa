/** The storage service's side of an ffmpeg job: whose the input object is, and how long a job is polled for. */
module FfmpegClient {
  import opened GoText
  import opened TempObjects

  datatype JobState = Pending | Running | Done | Failed

  /** What a call takes: the clock moves on while it is under way. */
  type Duration = d: int | d >= 1 witness 1

  /**
   One round of polling: the state replied, None if the call failed; how long the call took; whether the context was
   cancelled during the wait that follows it; and how much later than asked the wait ended.
   */
  datatype Poll = Poll(reply: Option<JobState>, took: Duration, cancelled: bool, late: nat)

  datatype Outcome = Finished | JobFailed | CallFailed | TimedOut | Cancelled

  /** How long time.After waits: not at all for an interval that is not positive. */
  function Pause(interval: int): nat {
    if interval > 0 then interval else 0
  }

  /** The time from the start until the reply of round k. */
  function Clock(poll: nat -> Poll, interval: int, k: nat): nat {
    if k == 0 then poll(0).took else Clock(poll, interval, k - 1) + Pause(interval) + poll(k - 1).late + poll(k).took
  }

  /** How round k ends the polling, if it does. */
  function Ends(poll: nat -> Poll, interval: int, maxWait: int, k: nat): Option<Outcome> {
    var p := poll(k);
    if p.reply.None? then Some(CallFailed)
    else if p.reply.value.Done? then Some(Finished)
    else if p.reply.value.Failed? then Some(JobFailed)
    else if Clock(poll, interval, k) > maxWait then Some(TimedOut)
    else if p.cancelled then Some(Cancelled)
    else None
  }

  /** No round before this one ends the polling. */
  ghost predicate GoesOnUntil(poll: nat -> Poll, interval: int, maxWait: int, k: nat) {
    forall q: nat :: q < k ==> Ends(poll, interval, maxWait, q).None?
  }

  /** The polling ends like this: the first round with a reason to end has this one. */
  ghost predicate EndsAs(poll: nat -> Poll, interval: int, maxWait: int, outcome: Outcome) {
    exists k: nat :: Ends(poll, interval, maxWait, k) == Some(outcome) && GoesOnUntil(poll, interval, maxWait, k)
  }

  /** What each way to end means in terms of the replies, the clock and the context. */
  lemma EndingsAreReplies(poll: nat -> Poll, interval: int, maxWait: int, k: nat)
    ensures var p, late := poll(k), Clock(poll, interval, k) > maxWait;
            var unfinished := p.reply == Some(Pending) || p.reply == Some(Running);
            match Ends(poll, interval, maxWait, k)
            case Some(Finished) => p.reply == Some(Done)
            case Some(JobFailed) => p.reply == Some(Failed)
            case Some(CallFailed) => p.reply == None
            case Some(TimedOut) => unfinished && late
            case Some(Cancelled) => unfinished && !late && p.cancelled
            case None => unfinished && !late && !p.cancelled
  {
  }

  /** Some reply tells that the job is done, and until then every reply came in time and nobody cancelled the wait. */
  ghost predicate DoneInTime(poll: nat -> Poll, interval: int, maxWait: int) {
    exists k: nat :: poll(k).reply == Some(Done) && WaitsUntil(poll, interval, maxWait, k)
  }

  ghost predicate WaitsUntil(poll: nat -> Poll, interval: int, maxWait: int, k: nat) {
    forall q: nat :: q < k ==>
      && (poll(q).reply == Some(Pending) || poll(q).reply == Some(Running))
      && Clock(poll, interval, q) <= maxWait && !poll(q).cancelled
  }

  lemma FinishedIsDoneInTime(poll: nat -> Poll, interval: int, maxWait: int)
    ensures EndsAs(poll, interval, maxWait, Finished) <==> DoneInTime(poll, interval, maxWait)
  {
    hide Ends, Clock;
    if EndsAs(poll, interval, maxWait, Finished) {
      var k: nat :| Ends(poll, interval, maxWait, k) == Some(Finished) && GoesOnUntil(poll, interval, maxWait, k);
      EndingsAreReplies(poll, interval, maxWait, k);
      forall q: nat | q < k
        ensures Ends(poll, interval, maxWait, q).None?
                && (poll(q).reply == Some(Pending) || poll(q).reply == Some(Running))
        ensures Clock(poll, interval, q) <= maxWait && !poll(q).cancelled
      {
        EndingsAreReplies(poll, interval, maxWait, q);
      }
      assert WaitsUntil(poll, interval, maxWait, k);
    }
    if DoneInTime(poll, interval, maxWait) {
      var k: nat :| poll(k).reply == Some(Done) && WaitsUntil(poll, interval, maxWait, k);
      EndingsAreReplies(poll, interval, maxWait, k);
      forall q: nat | q < k
        ensures Ends(poll, interval, maxWait, q).None?
      {
        EndingsAreReplies(poll, interval, maxWait, q);
      }
      assert GoesOnUntil(poll, interval, maxWait, k);
    }
  }

  /** The least time from one reply to the next. */
  function RoundTime(interval: int): (t: int)
    ensures t >= 1
  {
    Pause(interval) + 1
  }

  /** How many rounds there can be at most. */
  function MostRounds(interval: int, maxWait: int): (n: nat)
    ensures n >= 1
  {
    if maxWait < 1 then 1 else (maxWait - 1) / RoundTime(interval) + 2
  }

  lemma {:induction false} ClockMovesOn(poll: nat -> Poll, interval: int, k: nat)
    ensures Clock(poll, interval, k) >= k * RoundTime(interval) + 1
  {
    if k > 0 {
      ClockMovesOn(poll, interval, k - 1);
    }
  }

  lemma MultiplesWithin(k: nat, step: int, bound: int)
    requires step > 0
    ensures k * step <= bound <==> bound >= 0 && k <= bound / step
  {
    if k > bound / step {
      assert (k - bound / step - 1) * step >= 0;
    } else {
      assert (bound / step - k) * step >= 0;
    }
  }

  /** While rounds go on, the deadline has not passed, so few of them were made. */
  lemma RoundsAreBounded(poll: nat -> Poll, interval: int, maxWait: int, k: nat)
    requires Ends(poll, interval, maxWait, k).None?
    ensures k + 2 <= MostRounds(interval, maxWait)
  {
    ClockMovesOn(poll, interval, k);
    MultiplesWithin(k, RoundTime(interval), maxWait - 1);
  }

  /**
   Polling ends whatever the service replies and whatever the interval, a time to wait that is not positive included:
   in one way, within a number of rounds that interval and deadline bound.
   */
  lemma PollingEnds(poll: nat -> Poll, interval: int, maxWait: int) returns (k: nat, outcome: Outcome)
    ensures k < MostRounds(interval, maxWait)
    ensures Ends(poll, interval, maxWait, k) == Some(outcome) && GoesOnUntil(poll, interval, maxWait, k)
    ensures forall other :: EndsAs(poll, interval, maxWait, other) <==> other == outcome
  {
    hide Ends;
    k := 0;
    while Ends(poll, interval, maxWait, k).None?
      invariant k < MostRounds(interval, maxWait) && GoesOnUntil(poll, interval, maxWait, k)
      decreases MostRounds(interval, maxWait) - k
    {
      RoundsAreBounded(poll, interval, maxWait, k);
      k := k + 1;
    }
    outcome := Ends(poll, interval, maxWait, k).value;
    forall other | EndsAs(poll, interval, maxWait, other)
      ensures other == outcome
    {
      OneEnding(poll, interval, maxWait, outcome, other);
    }
  }

  /** A service that always says "running", as fast as can be. */
  function Stalling(): nat -> Poll {
    (k: nat) => Poll(Some(Running), 1, false, 0)
  }

  lemma {:induction false} StallingClock(interval: int, k: nat)
    ensures Clock(Stalling(), interval, k) == k * RoundTime(interval) + 1
  {
    if k > 0 {
      StallingClock(interval, k - 1);
    }
  }

  /** The bound is exact: for every interval and deadline some service is asked that often, and then given up. */
  lemma BoundIsReached(interval: int, maxWait: int)
    ensures var last := MostRounds(interval, maxWait) - 1;
            && Ends(Stalling(), interval, maxWait, last) == Some(TimedOut)
            && GoesOnUntil(Stalling(), interval, maxWait, last)
  {
    var last := MostRounds(interval, maxWait) - 1;
    StallingClock(interval, last);
    MultiplesWithin(last, RoundTime(interval), maxWait - 1);
    forall q: nat | q < last
      ensures Ends(Stalling(), interval, maxWait, q).None?
    {
      StallingClock(interval, q);
      MultiplesWithin(q, RoundTime(interval), maxWait - 1);
    }
  }

  /** For a positive interval the rounds are those the interval has room for, and two more. */
  lemma IntervalBoundsRounds(interval: int, maxWait: int)
    requires interval > 0
    ensures MostRounds(interval, maxWait) <= if maxWait < 0 then 1 else maxWait / interval + 2
  {
    if maxWait >= 1 {
      var k := (maxWait - 1) / RoundTime(interval);
      MultiplesWithin(k, RoundTime(interval), maxWait - 1);
      MultiplesWithin(k, interval, maxWait);
    }
  }

  /** pollJob: it ends with the first round that has a reason to, within the bound. */
  method PollJob(poll: nat -> Poll, interval: int, maxWait: int) returns (r: Outcome, rounds: nat)
    ensures 0 < rounds <= MostRounds(interval, maxWait)
    ensures Ends(poll, interval, maxWait, rounds - 1) == Some(r)
    ensures GoesOnUntil(poll, interval, maxWait, rounds - 1)
    ensures EndsAs(poll, interval, maxWait, r)
  {
    rounds := 0;
    var now := 0;
    while true
      invariant rounds < MostRounds(interval, maxWait)
      invariant rounds == 0 ==> now == 0
      invariant rounds > 0 ==> now == Clock(poll, interval, rounds - 1) + Pause(interval) + poll(rounds - 1).late
      invariant GoesOnUntil(poll, interval, maxWait, rounds)
      decreases MostRounds(interval, maxWait) - rounds
    {
      var p := poll(rounds);
      now := now + p.took;
      rounds := rounds + 1;
      if p.reply == None {
        return CallFailed, rounds;
      }
      match p.reply.value {
        case Done => return Finished, rounds;
        case Failed => return JobFailed, rounds;
        case _ =>
      }
      if now > maxWait {
        return TimedOut, rounds;
      }
      if p.cancelled {
        return Cancelled, rounds;
      }
      now := now + Pause(interval) + p.late;
      RoundsAreBounded(poll, interval, maxWait, rounds - 1);
    }
  }

  /** A job whose end is seen before the deadline has passed is never reported as timed out. */
  lemma TimeoutMeansUnfinished(poll: nat -> Poll, interval: int, maxWait: int, rounds: nat, k: nat)
    requires rounds > 0 && Ends(poll, interval, maxWait, rounds - 1) == Some(TimedOut)
    requires GoesOnUntil(poll, interval, maxWait, rounds - 1)
    requires poll(k).reply == Some(Done) || poll(k).reply == Some(Failed)
    ensures k >= rounds && Clock(poll, interval, k) > maxWait
  {
    assert Ends(poll, interval, maxWait, k) in {Some(Finished), Some(JobFailed)};
    if k >= rounds {
      ClockIsMonotonic(poll, interval, rounds - 1, k);
    }
  }

  lemma {:induction false} ClockIsMonotonic(poll: nat -> Poll, interval: int, j: nat, k: nat)
    requires j <= k
    ensures Clock(poll, interval, j) <= Clock(poll, interval, k)
    decreases k
  {
    if j < k {
      ClockIsMonotonic(poll, interval, j, k - 1);
    }
  }

  /** The polling ends in one way only. */
  lemma OneEnding(poll: nat -> Poll, interval: int, maxWait: int, one: Outcome, two: Outcome)
    requires EndsAs(poll, interval, maxWait, one) && EndsAs(poll, interval, maxWait, two)
    ensures one == two
  {
    var j: nat :| Ends(poll, interval, maxWait, j) == Some(one) && GoesOnUntil(poll, interval, maxWait, j);
    var k: nat :| Ends(poll, interval, maxWait, k) == Some(two) && GoesOnUntil(poll, interval, maxWait, k);
    assert j == k;
  }

  // ---------------------------------------------------------------- the input object

  /** The video as callers have it: local data, or a handle that already stands for an object. */
  datatype Video = Local(data: Data) | Stored(handle: Handle)

  /** What the bucket and the ffmpeg service do. */
  datatype World = World(readable: bool, upload: Option<Path>, submits: bool, poll: nat -> Poll, output: Path)

  /** The input's path, and the handle of the object if it was made for this job only. */
  method ResolveInput(video: Video, w: World) returns (path: Option<Path>, created: Handle?)
    requires video.Stored? ==> video.handle.s3path.Some? || video.handle.once || video.handle.physical != null
    modifies if video.Stored? then {video.handle} else {}
    ensures video.Local? ==>
              && (path.Some? <==> created != null)
              && path == (if w.readable then w.upload else None)
              && (created != null ==>
                    fresh(created) && created.New() && created.owned && created.physical == null
                      && created.s3path == path)
    ensures video.Stored? ==> created == null && path == video.handle.s3path && LeftAlone(video.handle)
  {
    created := null;
    if video.Stored? {
      path := video.handle.GetS3Path(w.upload);
    } else if !w.readable || w.upload.None? {
      path := None;
    } else {
      created := new Handle.FromPath(w.upload, true);
      path := created.GetS3Path(None);
    }
  }

  /** The handle was not closed, its object not deleted, and at most one upload was made for it. */
  twostate predicate LeftAlone(h: Handle)
    reads h
  {
    h.closed == old(h.closed) && h.deletions == old(h.deletions) && h.physical == old(h.physical)
    && old(h.uploads) <= h.uploads <= old(h.uploads) + (if old(h.once) then 0 else 1)
  }

  /** The input is an object, after the attempt to make it one. */
  predicate Resolves(video: Video, w: World)
    reads if video.Stored? then {video.handle} else {}
  {
    if video.Stored? then video.handle.s3path.Some? else w.readable && w.upload.Some?
  }

  /**
   run: it returns a result exactly when the input can be had as an object, the job is taken, and the polling ends
   because the job is done. However it ends, an object uploaded for the job alone is deleted exactly once, and a handle
   of the caller's is neither closed nor deleted; the result is an open handle that owns the job's output.
   */
  method Run(video: Video, w: World, interval: int, maxWait: int) returns (r: Handle?, ghost created: Handle?)
    requires video.Stored? ==> video.handle.s3path.Some? || video.handle.once || video.handle.physical != null
    modifies if video.Stored? then {video.handle} else {}
    ensures r != null <==> Resolves(video, w) && w.submits && DoneInTime(w.poll, interval, maxWait)
    ensures r != null ==> fresh(r) && r != created && r.New() && r.owned && r.s3path == Some(w.output)
    ensures video.Stored? ==> created == null && LeftAlone(video.handle)
    ensures video.Local? ==> (created != null <==> w.readable && w.upload.Some?)
    ensures created != null ==> fresh(created) && created.s3path == w.upload && created.closed && created.deletions == 1
  {
    hide Ends, DoneInTime;
    FinishedIsDoneInTime(w.poll, interval, maxWait);
    var path, input := ResolveInput(video, w);
    created := input;
    r := null;
    if path.Some? {
      if w.submits {
        var outcome, rounds := PollJob(w.poll, interval, maxWait);
        if outcome == Finished {
          r := new Handle.FromPath(Some(w.output), true);
        } else if EndsAs(w.poll, interval, maxWait, Finished) {
          OneEnding(w.poll, interval, maxWait, outcome, Finished);
        }
      }
      if input != null {
        input.Close();
      }
    }
  }
}
