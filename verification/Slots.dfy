/** Counting the jobs that hold a slot of a semaphore. */
module Slots {

  function Held<T>(holds: T -> bool, jobs: seq<T>): nat {
    if jobs == [] then 0 else Held(holds, jobs[..|jobs| - 1]) + (if holds(jobs[|jobs| - 1]) then 1 else 0)
  }

  /** Replacing one job changes the count by that job alone. */
  lemma {:induction false} HeldUpdate<T>(holds: T -> bool, jobs: seq<T>, id: nat, j: T)
    requires id < |jobs|
    ensures Held(holds, jobs[id := j]) + (if holds(jobs[id]) then 1 else 0)
            == Held(holds, jobs) + (if holds(j) then 1 else 0)
  {
    var last := |jobs| - 1;
    if id == last {
      assert jobs[id := j][..last] == jobs[..last];
    } else {
      HeldUpdate(holds, jobs[..last], id, j);
      assert jobs[id := j][..last] == jobs[..last][id := j];
    }
  }

  lemma HeldAppend<T>(holds: T -> bool, jobs: seq<T>, j: T)
    ensures Held(holds, jobs + [j]) == Held(holds, jobs) + (if holds(j) then 1 else 0)
  {
    assert (jobs + [j])[..|jobs|] == jobs;
  }
}
