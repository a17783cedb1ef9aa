/** The order of the pipeline steps: they are sorted by position, unstably, and filtered by media type. */
module PipelineOrder {
  import opened GoText
  import opened Entities
  import opened Sorting

  datatype Step = Step(key: string, pos: int, kinds: set<MetadataType>)

  function PosOf(): Step -> int {
    (s: Step) => s.pos
  }

  function IfFor(s: Step, kind: MetadataType): seq<Step> {
    if kind in s.kinds then [s] else []
  }

  /** The steps a pipeline run considers, in order. */
  function Executed(sorted: seq<Step>, kind: MetadataType): seq<Step> {
    if sorted == [] then []
    else IfFor(sorted[0], kind) + Executed(sorted[1..], kind)
  }

  /** A run: each step may be passed over for what the context holds so far, and may fail. */
  function Run<C>(steps: seq<Step>, allowed: (Step, C) -> bool, exec: (Step, C) -> Option<C>, ctx: C): Option<C> {
    if steps == [] then Some(ctx)
    else if !allowed(steps[0], ctx) then Run(steps[1..], allowed, exec, ctx)
    else
      match exec(steps[0], ctx)
      case None => None
      case Some(next) => Run(steps[1..], allowed, exec, next)
  }

  /**
   What happens step by step: a step that is not allowed leaves the context alone, any other makes the next one of it.
   */
  ghost predicate IsTrace<C>(steps: seq<Step>, allowed: (Step, C) -> bool, exec: (Step, C) -> Option<C>,
                                   trace: seq<C>) {
    && |trace| == |steps| + 1
    && forall i :: 0 <= i < |steps| ==>
         if allowed(steps[i], trace[i]) then exec(steps[i], trace[i]) == Some(trace[i + 1])
         else trace[i + 1] == trace[i]
  }

  /** A run ends with a context exactly if no step fails on the way to it. */
  lemma {:induction false} RunIsTrace<C>(steps: seq<Step>, allowed: (Step, C) -> bool,
                                               exec: (Step, C) -> Option<C>, trace: seq<C>, n: nat)
    requires n <= |steps| && IsTrace(steps[..n], allowed, exec, trace)
    ensures Run(steps, allowed, exec, trace[0]) == Run(steps[n..], allowed, exec, trace[n])
    ensures n == |steps| ==> Run(steps, allowed, exec, trace[0]) == Some(trace[n])
    ensures n < |steps| && allowed(steps[n], trace[n]) && exec(steps[n], trace[n]).None? ==>
              Run(steps, allowed, exec, trace[0]) == None
    decreases n
  {
    if n == 0 {
      assert steps[0..] == steps;
    } else {
      assert steps[..n][..n - 1] == steps[..n - 1];
      assert IsTrace(steps[..n - 1], allowed, exec, trace[..n]);
      RunIsTrace(steps, allowed, exec, trace[..n], n - 1);
      assert steps[n - 1..][0] == steps[n - 1] && steps[n - 1..][1..] == steps[n..];
      assert steps[..n][n - 1] == steps[n - 1];
    }
  }

  /** The loop of Extract over the sorted steps is a run of the executed ones. */
  method Extract<C>(sorted: seq<Step>, kind: MetadataType, allowed: (Step, C) -> bool, exec: (Step, C) -> Option<C>,
                    start: C)
    returns (r: Option<C>)
    ensures r == Run(Executed(sorted, kind), allowed, exec, start)
  {
    var ctx := start;
    assert sorted[0..] == sorted;
    for i := 0 to |sorted|
      invariant Run(Executed(sorted, kind), allowed, exec, start)
                == Run(Executed(sorted[i..], kind), allowed, exec, ctx)
    {
      assert sorted[i..][0] == sorted[i] && sorted[i..][1..] == sorted[i + 1..];
      ExecutedHead(sorted[i..], kind);
      if kind !in sorted[i].kinds {
        continue;
      }
      if !allowed(sorted[i], ctx) {
        continue;
      }
      var next := exec(sorted[i], ctx);
      if next.None? {
        return None;
      }
      ctx := next.value;
    }
    r := Some(ctx);
  }

  lemma ExecutedHead(sorted: seq<Step>, kind: MetadataType)
    requires sorted != []
    ensures kind in sorted[0].kinds ==>
              Executed(sorted, kind) != [] && Executed(sorted, kind)[0] == sorted[0]
              && Executed(sorted, kind)[1..] == Executed(sorted[1..], kind)
    ensures kind !in sorted[0].kinds ==> Executed(sorted, kind) == Executed(sorted[1..], kind)
  {
  }

  /** No two different steps for this media type share a position. */
  ghost predicate DistinctWithin(registered: seq<Step>, kind: MetadataType) {
    forall a, b :: a in registered && b in registered && kind in a.kinds && kind in b.kinds && a.pos == b.pos ==> a == b
  }

  /** Every registration order and every unstable sort leads to the same executed steps. */
  ghost predicate OrderDetermined(registered: seq<Step>, kind: MetadataType) {
    forall ys, zs :: IsSortOf(PosOf(), registered, ys) && IsSortOf(PosOf(), registered, zs) ==>
      Executed(ys, kind) == Executed(zs, kind)
  }

  // ---------------------------------------------------------------- proof

  lemma ExecutedCons(steps: seq<Step>, kind: MetadataType)
    requires steps != []
    ensures Executed(steps, kind) == IfFor(steps[0], kind) + Executed(steps[1..], kind)
  {
  }

  lemma Associative<T>(x: seq<T>, y: seq<T>, z: seq<T>)
    ensures x + (y + z) == x + y + z
  {
  }

  lemma {:induction false} ExecutedSplit(a: seq<Step>, b: seq<Step>, kind: MetadataType)
    ensures Executed(a + b, kind) == Executed(a, kind) + Executed(b, kind)
  {
    if a == [] {
      assert a + b == b;
      assert Executed(a, kind) == [];
    } else {
      hide Executed, IfFor;
      ExecutedSplit(a[1..], b, kind);
      assert (a + b)[1..] == a[1..] + b;
      ExecutedCons(a + b, kind);
      ExecutedCons(a, kind);
      Associative(IfFor(a[0], kind), Executed(a[1..], kind), Executed(b, kind));
    }
  }

  lemma {:induction false} ExecutedKeepsPermutations(ys: seq<Step>, zs: seq<Step>, kind: MetadataType)
    requires multiset(ys) == multiset(zs)
    ensures multiset(Executed(ys, kind)) == multiset(Executed(zs, kind))
    decreases |ys|
  {
    if ys == [] {
      assert |multiset(zs)| == 0;
    } else {
      var i := DropFirst(ys, zs);
      ExecutedKeepsPermutations(Without(ys, 0), Without(zs, i), kind);
      ExecutedWithout(ys, 0, kind);
      ExecutedWithout(zs, i, kind);
    }
  }

  lemma ExecutedWithout(ys: seq<Step>, i: nat, kind: MetadataType)
    requires i < |ys|
    ensures multiset(Executed(ys, kind)) == multiset(Executed(Without(ys, i), kind)) + multiset(Executed([ys[i]], kind))
  {
    assert ys == ys[..i] + ([ys[i]] + ys[i + 1..]);
    ExecutedSplit(ys[..i], [ys[i]] + ys[i + 1..], kind);
    ExecutedSplit([ys[i]], ys[i + 1..], kind);
    ExecutedSplit(ys[..i], ys[i + 1..], kind);
  }

  lemma {:induction false} ExecutedAreMembers(ys: seq<Step>, kind: MetadataType)
    ensures forall s :: s in Executed(ys, kind) ==> s in ys && kind in s.kinds
  {
    if ys != [] {
      ExecutedAreMembers(ys[1..], kind);
    }
  }

  lemma {:induction false} ExecutedIsSorted(ys: seq<Step>, kind: MetadataType)
    requires SortedBy(PosOf(), ys)
    ensures SortedBy(PosOf(), Executed(ys, kind))
  {
    if ys != [] {
      ExecutedIsSorted(ys[1..], kind);
      ExecutedAreMembers(ys[1..], kind);
      ExecutedCons(ys, kind);
      var rest := Executed(ys[1..], kind);
      hide Executed;
      forall i | 0 <= i < |rest|
        ensures PosOf()(ys[0]) <= PosOf()(rest[i])
      {
        assert rest[i] in ys[1..];
      }
    }
  }

  lemma SortsExecuteAlike(registered: seq<Step>, kind: MetadataType, ys: seq<Step>, zs: seq<Step>)
    requires DistinctWithin(registered, kind)
    requires IsSortOf(PosOf(), registered, ys) && IsSortOf(PosOf(), registered, zs)
    ensures Executed(ys, kind) == Executed(zs, kind)
  {
    ExecutedKeepsPermutations(ys, zs, kind);
    ExecutedIsSorted(ys, kind);
    ExecutedIsSorted(zs, kind);
    ExecutedAreMembers(ys, kind);
    var e := Executed(ys, kind);
    forall a, b | a in multiset(e) && b in multiset(e) && PosOf()(a) == PosOf()(b)
      ensures a == b
    {
      assert a in e && b in e && a in ys && b in ys;
      assert a in multiset(ys) && b in multiset(ys);
      assert a in registered && b in registered;
    }
    SortsAgree(PosOf(), e, Executed(zs, kind));
  }

  /** Swapping two steps that share a position gives another sort of the same steps. */
  lemma SwapIsSort(ys: seq<Step>, i: nat, j: nat)
    requires i < j < |ys| && SortedBy(PosOf(), ys) && ys[i].pos == ys[j].pos
    ensures var zs := ys[i := ys[j]][j := ys[i]];
            multiset(zs) == multiset(ys) && SortedBy(PosOf(), zs)
  {
    var zs := ys[i := ys[j]][j := ys[i]];
    assert forall k :: 0 <= k < |ys| ==> PosOf()(zs[k]) == PosOf()(ys[k]);
  }

  lemma SwapIsExecutedDifferently(ys: seq<Step>, i: nat, j: nat, kind: MetadataType)
    requires i < j < |ys| && ys[i] != ys[j] && kind in ys[i].kinds && kind in ys[j].kinds
    ensures Executed(ys[i := ys[j]][j := ys[i]], kind) != Executed(ys, kind)
  {
    var zs := ys[i := ys[j]][j := ys[i]];
    var p := ys[..i];
    assert ys == p + ([ys[i]] + ys[i + 1..]);
    assert zs == p + ([ys[j]] + zs[i + 1..]);
    ExecutedSplit(p, [ys[i]] + ys[i + 1..], kind);
    ExecutedSplit(p, [ys[j]] + zs[i + 1..], kind);
    ExecutedHead([ys[i]] + ys[i + 1..], kind);
    ExecutedHead([ys[j]] + zs[i + 1..], kind);
    var n := |Executed(p, kind)|;
    assert Executed(ys, kind)[n] == ys[i] && Executed(zs, kind)[n] == ys[j];
  }

  lemma SwapLeavesChoice(registered: seq<Step>, kind: MetadataType, ys: seq<Step>, i: nat, j: nat)
    requires IsSortOf(PosOf(), registered, ys)
    requires i < j < |ys| && ys[i] != ys[j] && ys[i].pos == ys[j].pos && kind in ys[i].kinds && kind in ys[j].kinds
    ensures !OrderDetermined(registered, kind)
  {
    hide Executed;
    SwapIsSort(ys, i, j);
    SwapIsExecutedDifferently(ys, i, j, kind);
    hide SortedBy;
    assert IsSortOf(PosOf(), registered, ys[i := ys[j]][j := ys[i]]);
  }

  lemma SharedPositionLeavesChoice(registered: seq<Step>, kind: MetadataType, a: Step, b: Step)
    requires a in registered && b in registered && kind in a.kinds && kind in b.kinds && a.pos == b.pos && a != b
    ensures !OrderDetermined(registered, kind)
  {
    hide *;
    SortedIsSort(PosOf(), registered);
    var ys := Sorted(PosOf(), registered);
    SortKeepsMembers(PosOf(), registered, ys, a);
    SortKeepsMembers(PosOf(), registered, ys, b);
    var i :| 0 <= i < |ys| && ys[i] == a;
    var j :| 0 <= j < |ys| && ys[j] == b;
    if i < j {
      SwapLeavesChoice(registered, kind, ys, i, j);
    } else {
      SwapLeavesChoice(registered, kind, ys, j, i);
    }
  }

  /**
   The steps executed for a media type are independent of registration order and of the sort exactly when no two of them
   share a position.
   */
  lemma OrderDeterminedIffDistinct(registered: seq<Step>, kind: MetadataType)
    ensures OrderDetermined(registered, kind) <==> DistinctWithin(registered, kind)
  {
    hide Executed, SortedBy;
    if DistinctWithin(registered, kind) {
      forall ys, zs | IsSortOf(PosOf(), registered, ys) && IsSortOf(PosOf(), registered, zs)
        ensures Executed(ys, kind) == Executed(zs, kind)
      {
        SortsExecuteAlike(registered, kind, ys, zs);
      }
    } else {
      var a, b :| a in registered && b in registered && kind in a.kinds && kind in b.kinds && a.pos == b.pos && a != b;
      SharedPositionLeavesChoice(registered, kind, a, b);
    }
  }

  /** With distinct positions the final context, too, is the same for every registration order and sort. */
  lemma SameContext<C>(registered: seq<Step>, reordered: seq<Step>, kind: MetadataType, ys: seq<Step>, zs: seq<Step>,
                       allowed: (Step, C) -> bool, exec: (Step, C) -> Option<C>, start: C)
    requires multiset(registered) == multiset(reordered) && DistinctWithin(registered, kind)
    requires IsSortOf(PosOf(), registered, ys) && IsSortOf(PosOf(), reordered, zs)
    ensures Run(Executed(ys, kind), allowed, exec, start) == Run(Executed(zs, kind), allowed, exec, start)
  {
    SortsExecuteAlike(registered, kind, ys, zs);
  }
}
