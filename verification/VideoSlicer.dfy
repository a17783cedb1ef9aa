/** Cutting a video into overlapping segments. Durations are nanoseconds. */
module VideoSlicer {
  import opened GoText
  import opened TempObjects

  const SECOND := 1_000_000_000

  datatype Cut = Cut(start: int, end: int)

  /** int(d.Seconds()): whole seconds, towards zero. */
  function WholeSeconds(d: int): int {
    if d >= 0 then d / SECOND else -((-d) / SECOND)
  }

  /** For a moment of the video, or a later one, the whole seconds before it. */
  lemma SecondsAreWhole(d: int, s: int)
    requires d >= 0
    ensures WholeSeconds(d) == s <==> s * 1_000_000_000 <= d < (s + 1) * 1_000_000_000
  {
  }

  function Min(a: int, b: int): int {
    if a <= b then a else b
  }

  function Max(a: int, b: int): int {
    if a >= b then a else b
  }

  /** Segment number i of a video of this length. */
  function CutAt(total: int, interval: int, overlap: int, i: nat): Cut {
    var start := i * (interval - overlap);
    Cut(start, Min(start + interval, total))
  }

  /** The number of segments, in closed form. */
  function Count(total: int, interval: int, overlap: int): (n: nat)
    requires interval > overlap
  {
    var step := interval - overlap;
    if total <= 0 then 0
    else if overlap > 0 then Max(1, (total - overlap) / step + 1)
    else
      CeilIsNat(total, step);
      (total + step - 1) / step
  }

  lemma CeilIsNat(total: int, step: int)
    requires total > 0 && step > 0
    ensures (total + step - 1) / step >= 0
  {
  }

  function Cuts(total: int, interval: int, overlap: int): (cuts: seq<Cut>)
    requires interval > overlap
    ensures |cuts| == Count(total, interval, overlap)
    ensures forall i :: 0 <= i < |cuts| ==> cuts[i] == CutAt(total, interval, overlap, i)
  {
    seq(Count(total, interval, overlap), i requires 0 <= i => CutAt(total, interval, overlap, i))
  }

  lemma DivisionBound(i: int, x: int, step: int)
    requires step > 0
    ensures i <= x / step <==> i * step <= x
  {
    var q := x / step;
    assert q * step <= x < q * step + step;
    if i <= q {
      assert i * step <= q * step;
    } else {
      assert i * step >= (q + 1) * step == q * step + step;
    }
  }

  /**
   The loop goes on to segment i: it starts inside the video, and what is left is not within the last segment's overlap.
   */
  predicate Kept(total: int, interval: int, overlap: int, i: nat) {
    i * (interval - overlap) < total && (i == 0 || total - i * (interval - overlap) >= overlap)
  }

  /** The closed form counts exactly the segments the loop keeps. */
  lemma CountIsExact(total: int, interval: int, overlap: int, i: nat)
    requires interval > overlap
    ensures Kept(total, interval, overlap, i) <==> i < Count(total, interval, overlap)
  {
    var step := interval - overlap;
    if total > 0 {
      if overlap > 0 {
        DivisionBound(i, total - overlap, step);
      } else {
        DivisionBound(i + 1, total + step - 1, step);
        assert (i + 1) * step == i * step + step;
      }
    } else {
      assert i * step >= 0;
    }
  }

  /**
   The segments in order, each with data of its own; ffmpegFailsAt is the segment ffmpeg fails on, if any: then the data
   of the earlier ones is closed. An interval not longer than the overlap is refused.
   */
  method SliceVideoWithOverlap(interval: int, overlap: int, total: int, ffmpegFailsAt: Option<nat>)
    returns (r: Result<seq<RawSlice>>, ghost made: seq<Data>)
    ensures interval <= overlap ==> r.Err? && made == []
    ensures interval > overlap ==>
              (r.Ok? <==> ffmpegFailsAt.None? || ffmpegFailsAt.value >= Count(total, interval, overlap))
    ensures r.Ok? ==>
              var cuts := Cuts(total, interval, overlap);
              && |r.value| == |cuts| == |made|
              && forall i :: 0 <= i < |cuts| ==>
                   r.value[i] == RawSlice(made[i], WholeSeconds(cuts[i].start), WholeSeconds(cuts[i].end))
    ensures forall i :: 0 <= i < |made| ==> fresh(made[i]) && made[i].closes == if r.Ok? then 0 else 1
    ensures forall i, j :: 0 <= i < j < |made| ==> made[i] != made[j]
  {
    made := [];
    if interval <= overlap {
      return Err, made;
    }
    var step := interval - overlap;
    var slices: seq<RawSlice> := [];
    var start := 0;
    while start < total
      invariant start == |slices| * step
      invariant |slices| <= Count(total, interval, overlap)
      invariant ffmpegFailsAt.None? || |slices| <= ffmpegFailsAt.value
      invariant |made| == |slices|
      invariant forall i :: 0 <= i < |slices| ==> fresh(made[i]) && made[i].closes == 0
      invariant forall i, j :: 0 <= i < j < |made| ==> made[i] != made[j]
      invariant forall i :: 0 <= i < |slices| ==>
                  var cut := CutAt(total, interval, overlap, i);
                  slices[i] == RawSlice(made[i], WholeSeconds(cut.start), WholeSeconds(cut.end))
      decreases total - start
    {
      var end := start + interval;
      if end > total {
        end := total;
      }
      CountIsExact(total, interval, overlap, |slices|);
      if end - start < overlap && start > 0 {
        break;
      }
      if ffmpegFailsAt == Some(|slices|) {
        assert forall i :: 0 <= i < |slices| ==> slices[i].data == made[i];
        CloseRaw(slices);
        return Err, made;
      }
      var data := new Data();
      assert (|slices| + 1) * step == |slices| * step + step;
      slices := slices + [RawSlice(data, WholeSeconds(start), WholeSeconds(end))];
      made := made + [data];
      start := start + step;
    }
    CountIsExact(total, interval, overlap, |slices|);
    r := Ok(slices);
  }

  // ---------------------------------------------------------------- what the segments are worth

  lemma Neighbours(total: int, interval: int, overlap: int, i: nat)
    requires 0 <= overlap < interval && i + 1 < Count(total, interval, overlap)
    ensures var a, b := CutAt(total, interval, overlap, i), CutAt(total, interval, overlap, i + 1);
            a.end - a.start == interval && a.end - b.start == overlap
  {
    CountIsExact(total, interval, overlap, i + 1);
    var step := interval - overlap;
    assert (i + 1) * step == i * step + step;
  }

  lemma LastEndsVideo(total: int, interval: int, overlap: int)
    requires 0 <= overlap < interval && total > 0
    ensures var n := Count(total, interval, overlap);
            n >= 1 && CutAt(total, interval, overlap, n - 1).end == total
              && CutAt(total, interval, overlap, n - 1).start < total
  {
    var n := Count(total, interval, overlap);
    var step := interval - overlap;
    CountIsExact(total, interval, overlap, 0);
    CountIsExact(total, interval, overlap, n - 1);
    CountIsExact(total, interval, overlap, n);
    assert n * step == (n - 1) * step + step;
  }

  predicate InSome(total: int, interval: int, overlap: int, t: int)
    requires interval > overlap
  {
    exists i :: 0 <= i < |Cuts(total, interval, overlap)|
      && Cuts(total, interval, overlap)[i].start <= t < Cuts(total, interval, overlap)[i].end
  }

  lemma MomentIsCovered(total: int, interval: int, overlap: int, t: int)
    requires 0 <= overlap < interval && 0 <= t < total
    ensures InSome(total, interval, overlap, t)
  {
    hide Count, CutAt;
    var cuts := Cuts(total, interval, overlap);
    var i := StepOf(total, interval, overlap, t);
    LastEndsVideo(total, interval, overlap);
    if i < |cuts| {
      assert cuts[i].start <= t < cuts[i].end;
    } else {
      var last := |cuts| - 1;
      StartsAscend(total, interval, overlap, last, i);
      assert cuts[last].start <= t < cuts[last].end;
    }
  }

  /** The step a moment falls into, and the segment that would start there. */
  lemma StepOf(total: int, interval: int, overlap: int, t: int) returns (i: nat)
    requires 0 <= overlap < interval && 0 <= t < total
    ensures CutAt(total, interval, overlap, i).start <= t < CutAt(total, interval, overlap, i).end
  {
    var step := interval - overlap;
    i := t / step;
    DivisionBound(i, t, step);
    DivisionBound(i + 1, t, step);
    assert (i + 1) * step == i * step + step;
  }

  lemma StartsAscend(total: int, interval: int, overlap: int, i: nat, j: nat)
    requires overlap < interval && i <= j
    ensures CutAt(total, interval, overlap, i).start <= CutAt(total, interval, overlap, j).start
  {
    var step := interval - overlap;
    assert j * step == i * step + (j - i) * step;
  }

  lemma NotInCut(total: int, interval: int, overlap: int, i: nat)
    requires overlap < interval && overlap < 0
    ensures var t, cut := Max(0, interval), CutAt(total, interval, overlap, i); !(cut.start <= t < cut.end)
  {
    var step := interval - overlap;
    if i > 0 {
      assert i * step == step + (i - 1) * step;
    }
  }

  lemma GapAfterFirst(total: int, interval: int, overlap: int)
    requires overlap < interval && overlap < 0 && interval < total && total > 0
    ensures var t := Max(0, interval); 0 <= t < total && !InSome(total, interval, overlap, t)
  {
    hide Count, CutAt;
    var cuts := Cuts(total, interval, overlap);
    forall i | 0 <= i < |cuts|
      ensures !(cuts[i].start <= Max(0, interval) < cuts[i].end)
    {
      NotInCut(total, interval, overlap, i);
    }
  }

  /**
   The segments cover the whole video exactly when the overlap is not negative (which is not checked) or one
   segment is enough.
   */
  lemma CoverageIffOverlapNotNegative(total: int, interval: int, overlap: int)
    requires interval > overlap && total > 0
    ensures (forall t :: 0 <= t < total ==> InSome(total, interval, overlap, t)) <==> overlap >= 0 || total <= interval
  {
    if overlap >= 0 {
      forall t | 0 <= t < total
        ensures InSome(total, interval, overlap, t)
      {
        MomentIsCovered(total, interval, overlap, t);
      }
    } else if total <= interval {
      CountIsExact(total, interval, overlap, 0);
      var cuts := Cuts(total, interval, overlap);
      assert cuts[0] == Cut(0, total);
      forall t | 0 <= t < total
        ensures InSome(total, interval, overlap, t)
      {
        assert cuts[0].start <= t < cuts[0].end;
      }
    } else {
      GapAfterFirst(total, interval, overlap);
    }
  }

  /**
   For a sensible overlap: segment i starts at i steps, every one but the last has the full length and shares exactly
   the overlap with the next, the last ends with the video, and the number is the closed form.
   */
  lemma SegmentsTileVideo(total: int, interval: int, overlap: int)
    requires 0 <= overlap < interval && total > 0
    ensures var cuts, step := Cuts(total, interval, overlap), interval - overlap;
            && |cuts| == (if overlap > 0 then Max(1, (total - overlap) / step + 1) else (total + step - 1) / step)
            && |cuts| >= 1 && cuts[|cuts| - 1].end == total
            && (forall i :: 0 <= i < |cuts| ==> cuts[i].start == i * step && cuts[i].start < cuts[i].end <= total)
            && (forall i :: 0 <= i < |cuts| - 1 ==>
                  cuts[i].end == cuts[i].start + interval && cuts[i].end == cuts[i + 1].start + overlap)
  {
    var cuts, step := Cuts(total, interval, overlap), interval - overlap;
    LastEndsVideo(total, interval, overlap);
    forall i | 0 <= i < |cuts| - 1
      ensures cuts[i].end == cuts[i].start + interval && cuts[i].end == cuts[i + 1].start + overlap
    {
      Neighbours(total, interval, overlap, i);
    }
    forall i | 0 <= i < |cuts|
      ensures cuts[i].start < cuts[i].end <= total
    {
      CountIsExact(total, interval, overlap, i);
    }
  }
}
